# Verification model of the Zen key pool

A Dafny model of the drain-then-switch scheduler of `src/pool.go` and of the parts that feed it:
the failure classifier, the account-building loop of the configuration reader, the durable state
store, the YAML decoder and the plugin lifecycle. `dafny verify dfyconfig.toml` checks all of it.

## How the model is laid out

The scheduler is written twice. `Scheduler.dfy` gives each public method (`Pick`, `Observe`, `Guard`,
`Resume`, `Reconfigure`, `Close`) as a function from one pool value to the next, and a run as any
sequence of such steps: every method holds the pool's mutex for its whole length, so a concurrent
execution is some interleaving of atomic steps. `PoolObject.dfy` has the object itself, with its
fields, its per-key record objects and its loops updated in place; every method is proved to change
the object exactly as the function changes the value. The theorems about runs are then lemmas about
the functions. `Classifier.dfy`, `AuthIDs.dfy`, `ConfigurationReader.dfy`, `Yaml.dfy` and
`ApplicationObject.dfy` follow the same pattern: imperative code against a denotation, properties
proved of the denotation.

The functions themselves are pinned from outside: `Decisions` and `Effects` (the pool's calls), `Responses`
(the classifier), `Configurations` (the reader), `Requests` (the lifecycle), and `LoadExactly`,
`DepthLimitExactly`, `ItemsExactly` and `PairsExactly` (state file and YAML) say what they decide in
terms of the raw fields and literal values, without the predicates that the functions are built from.

| files | content |
|---|---|
| `Basics`, `Failures`, `Accounts`, `Durable` | time, failures, configured accounts, the state file and its store |
| `Classifier`, `Observations` | which failure a response is and when its key resets; what the scheduler may rely on |
| `Scheduler`, `Reports`, `PoolObject` | the state machine, the refusal report, and the object that refines both |
| `Decisions`, `Effects`, `Responses`, `Configurations`, `Requests` | every answer and effect in the fields of the state and of the arguments alone |
| `Invariants`, `Traces` | what every step and every run keeps |
| `Durability`, `Crashes`, `Faults`, `Clock` | disk and memory, what a crash leaves, how faults come and go, what goes wrong when the clock goes back |
| `Lifecycle`, `ApplicationObject`, `Histories` | create, fault, reconfigure, drop; the whole life of a host with crashes and restarts |
| `Rotation`, `Stickiness` | drain order; what makes the scheduler leave its current account |
| `Blocks`, `Barriers`, `Recovery` | block times, the generation barrier, bounded recovery |
| `Gate`, `Conservation`, `Silence`, `Identity` | gate against scheduler, counters, successes, credit |
| `AuthIDs`, `ConfigurationReader`, `Yaml` | distinct IDs, accepted configurations, document decoding |

## Conventions

- Time is an integer number of nanoseconds since year 1; 0 is Go's zero time, which the program reads
  as unset. Counters wrap at 2^64.
- `now` is an input of every step. Where a theorem needs a clock that does not go back it says so
  (`Timed`, `Chronological`); across a restart this is the same assumption. `now` is taken once a
  step, as the program does.
- A save names the step of `fileStore.Save` that fails, if any. A failure before or at the rename leaves
  the old contents; a failure of the directory sync after it leaves the new ones.
- Start states are an empty store, or a store left by an earlier run: `OpenedIsGood` and `OpenedIsTied`
  show that opening either gives what the theorems about runs ask of their first state, and `Histories`
  carries it through crashes and restarts from a host that was never used.
- A crash in the middle of a save is a failing save followed by a crash: at each point of a save the file
  holds what one of the outcomes leaves (`Store.Save`).
- An observation step carries the class of its failure, which only has to respect the classifier's
  bounds; `ClassifierIsProper` shows that the classifier's own answer always does, and
  `LockedPool.Observe` runs the classifier itself.
- Strings of a response come with what Go's parsers read in them (`Token`), so that no parser is
  assumed to behave in a particular way.
- The SHA-256 digest is any function that yields 64 hex digits; nothing assumes it to be injective.

## Where documents and code disagree

The model follows the code.

- `README.md:149`, `src/dispatch.go:49` and `integration/host_test.go:527-529` say that only quota moves
  the current account. The code (`src/pool.go:328-334`, `src/pool.go:347-356`) and `README.md:176` also
  advance on auth and transient failures; `Stickiness.CurrentLeftExactly` gives the exact condition.
- `newPool` forgets a current account that is missing, not one that is disabled
  (`src/pool.go:62-64`). A disabled current account is therefore possible after a restart, exactly when
  the file names an account that is configured and disabled (`OpenedIsEnabledExactly`). No step makes
  one (`StepStaysEnabled`), and a reconfiguration that goes through ends it (`ReconfigureEnables`).

## What the code does not meet, and exactly when

- With a clock that goes back, `Pick` and `Guard` fail over in line without saving. From then on disk and
  memory disagree on the current account without a fault, until the next step that saves, fails over or
  sets a fault; `AgreementBrokenExactly` says so for each step and `DisagreementLastsExactly` for whole
  runs, both as equivalences over runs whose times come in any order. `UnsavedHandOutExactly` says when
  `Pick` hands out an account that is not on disk as current: by failing over itself
  (`ClockGoingBackHandsOutUnsaved`), or after a guard that did (`GuardThenPickHandsOutUnsaved`, the usual
  order of the host). Everything else of the invariant survives (`StepStaysSteady`), any step that saves
  restores the agreement (`SavingStepRestores`), and a clock that does not go back never gets there
  (`ForwardClockNeverFailsOver`).
- An observation can shorten a block, and lower the barrier of its key, only if its record claims to have
  been requested after the moment at which it is observed: `BlockShortenedExactly` and
  `BarrierFallsExactly` give the conditions, `FutureStampShortens` a run of two observations on a fresh pool.
  If the configured durations change, suspensions and quarantines can get shorter as well
  (`CreditShortensExactly`).
- A configuration fault is not sticky. It turns into a write fault exactly when a save fails
  (`WriteFaultRaisedExactly`), and over a whole run a pool with such a fault opens again exactly at a
  flawless save that reconfigures, or that follows a failed save with no fault set by the dispatcher
  between the two (`FaultLastsExactly`). `WriteFaultErasesOtherFault` is a run without reconfiguration.
- `SuccessInterferesExactly`: a success record interferes exactly when its save raises or lifts a write
  fault; without save failures it never does.
- `QuarantineHasNoRetryTime`: a report names no retry time exactly when no quota, auth or rate block is
  running. An account in transient quarantine will recover, but does not show.
- `ReloadAfterCrash`: the file of a pool without a fault loads exactly if it can be read and holds at most
  10000 keys. The pool itself never drops a key, so this bounds the keys ever configured
  (`FewKeysReload`). That it can be read includes the limit of 8 MiB (`src/state.go:121-122`), which the
  model takes as given: 10000 records with every field filled exceed it, so the byte limit
  can bind before the key limit does.
- `FailClosedAbsorbs`: the guard of a faulted pool rejects exactly the managed models of a configuration
  with accounts. A configuration that failed before its accounts were read lets every model pass the
  guard; its managed requests are still refused by `Pick`.
- `CurrentLeftExactly`: a failure that is delivered after its own block is over does not move the current
  account if no other account is eligible.

## Model

| member | source | states |
|---|---|---|
| Decisions.VerdictExactly | src/pool.go:117-135 | An account may be used exactly when it is enabled and none of its four blocks is running; otherwise the verdict is the first reason in the order of the source |
| Decisions.NextIsFirstFree | src/pool.go:143-159 | The next account is the first free one behind the given one, going round; from the front if that is not configured; and there is none exactly when none is free |
| Decisions.PickUnmanagedExactly | src/pool.go:161-179 | A request is passed on exactly when the pool has neither accounts nor a fault, or the provider, the provider list and every candidate's ID and provider are foreign |
| Decisions.PickWhenClosed | src/pool.go:230-236 | A stopped or faulted pool refuses what concerns it with that reason, stopped before faulted, and does nothing |
| Decisions.HandedOutIsLive | src/pool.go:254-267 | Whatever `Pick` hands out, the host listed and has not disabled |
| Decisions.PickHandsOutExactly | src/pool.go:263-270 | With a free current account in an open pool, its ID is handed out exactly when a candidate has that ID and is not disabled |
| Decisions.PickWhenCurrentIsFree | src/pool.go:263-270 | ... and otherwise the answer is that it is no candidate; nothing changes |
| Decisions.PickWhenCurrentIsHeld | src/pool.go:245-261 | A disabled, exhausted or rate-limited current account is refused with that reason, and stays |
| Decisions.PickWhenCurrentIsDead | src/pool.go:246-262 | A suspended or quarantined current account is left for the first free one behind it, which is offered, or for none; nothing is saved |
| Decisions.PickWhenNoneIsCurrent | src/pool.go:237-244 | Without a current account the first free one behind the cursor becomes current, is saved, and is offered only if the save succeeds; if none is free nothing changes |
| Decisions.GuardUnmanaged | src/pool.go:366-368 | Models that the pool does not manage pass in every state |
| Decisions.GuardWhenClosed | src/pool.go:370-378 | A stopped pool, a fault, or a missing header: rejected with the first of these reasons |
| Decisions.GuardWhenNoneIsCurrent | src/pool.go:390-395 | Without a current account admitted exactly when some account is free |
| Decisions.GuardWithCurrent | src/pool.go:379-389 | With one: admitted when it is free, rejected with the reason when held, and failed over when dead |
| Effects.ObserveElsewhere | src/pool.go:276-292 | A record for an unknown ID, another base URL or a stopped pool changes nothing; only a missing store is an error |
| Effects.CreditExactly | src/pool.go:294-359 | Field by field what a record does to its key: a success, a failure that does not count, and each kind of failure that does, dated to the end of its request if that is known and past, and to now otherwise |
| Effects.ObserveExactly | src/pool.go:273-361 | A record of the pool credits its key like that and no other; exactly the leaving failures of the current account move it, to the first free one behind; then all is saved |
| Effects.ResumeExactly | src/pool.go:406-420 | A resume in order clears the record of the first account with the label, sets its barrier to now, keeps its history, and changes no other record nor what is current |
| Effects.ResumeRefused | src/pool.go:400-405 | Another confirmation, a stopped pool, no account with the label or a disabled first one: nothing changes and the answer is an error |
| Effects.ReconfigureExactly | src/pool.go:424-441 | A reconfiguration replaces the configuration, keeps all records, adds fresh ones, lifts the fault, keeps an available current account and replaces any other by the first free one behind the cursor |
| Effects.ReconfigureRefused | src/pool.go:427-432 | Without a store or with another state directory nothing changes and the answer is an error |
| Effects.CloseExactly | src/pool.go:442-458 | Closing stops the pool and saves it, once |
| Effects.StoppedIsSilent | src/pool.go:231-235 | A stopped pool hands nothing out, admits no managed model, and takes no record and no resume |
| Effects.OpenedExactly | src/pool.go:52-66 | An opened pool has the configuration, the records and the cursor of its file, no fault, and the current account of the file if that is configured |
| Effects.FaultedExactly | src/pool.go:71-79 | A pool created with a fault has no store and no current account, and answers for the default provider if none is named |
| Effects.SaveExactly | src/pool.go:104-116 | What a save leaves in the file and in the fault, by the step of it that fails |
| Invariants.CurrentIsNeverDead | src/pool.go:237-262 | After any run with a clock that does not go back, and at any later time, the current account is absent or configured and only eligible, rate-limited or disabled; `Pick` does nothing beyond selecting a missing current account and `Guard` changes nothing, so neither in-line failover is ever entered |
| Invariants.StepKeeps | src/pool.go:224-458 | Every public method, with any save outcome, keeps the invariant: good keys, a live current account, an index that covers the accounts, and agreement of disk and memory whenever there is no fault |
| Invariants.RunKeeps | src/pool.go:224-458 | The same over any sequence of calls |
| Traces.TraceKeeps | src/pool.go:224-458 | The same at every intermediate state of a run |
| Traces.TraceIsRun | src/pool.go:224-458 | A run and its sequence of states describe the same execution |
| Invariants.PickKeeps | src/pool.go:224-271 | A pick keeps the invariant, and changes nothing at all while there is a current account |
| Invariants.PickCurrentChangesNothing | src/pool.go:245-262 | With a live current account the second half of a pick only reads |
| Invariants.GuardChangesNothing | src/pool.go:379-388 | `Guard` never changes the pool while the clock does not go back |
| Invariants.ObserveKeeps | src/pool.go:273-361 | An observation keeps the invariant, whatever the class of the failure and the outcome of the save |
| Invariants.CreditIsBounded | src/pool.go:315-356 | What a failure adds to the blocks of its key is over 366 days after it is observed |
| Invariants.ResumeKeeps | src/pool.go:397-423 | A resume keeps the invariant |
| Invariants.ReconfigureKeeps | src/pool.go:424-441 | A reconfiguration keeps the invariant and re-establishes it for the new accounts |
| Invariants.CloseKeeps | src/pool.go:442-458 | Closing keeps the invariant |
| Invariants.CreditWithoutLeaving | src/pool.go:317-360 | A record that does not make the scheduler leave its key touches neither the three leaving blocks nor the barrier |
| Invariants.SaveRestores | src/pool.go:104-116 | A save re-establishes agreement of disk and memory or leaves a fault, for each of its outcomes |
| Invariants.OpenedIsGood | src/pool.go:52-66 | A pool opened on any store that an earlier run can leave starts within the invariant |
| Invariants.IndexIsGood | src/pool.go:80-95 | After an install every nonempty auth ID indexes its own account and no entry outlives its key |
| Invariants.InstallIsGood | src/pool.go:80-95 | Installing accounts gives each a record and an index entry and changes no existing record |
| Invariants.WithKeysValue | src/pool.go:82-89 | An install adds a fresh record for each new key and keeps every existing record |
| Invariants.ReconfigureEnables | src/pool.go:424-441 | After a reconfiguration that goes through, no disabled account is current |
| Invariants.OpenedIsEnabledExactly | src/pool.go:62-64 | Opening a file gives a disabled current account if and only if the file names one that is configured and disabled |
| Invariants.StepStaysEnabled | src/pool.go:224-458 | No step makes a disabled account current |
| Invariants.RunStaysEnabled | src/pool.go:224-458 | The same over any run |
| Durability.HandedOutIsOnDisk | src/pool.go:237-270 | After any run with any mix of failing saves, an account handed out by `Pick` is eligible and is already recorded on disk as current |
| Durability.HandedOutIsCurrent | src/pool.go:237-270 | What a pick hands out is the ID of the current account, which is configured and eligible at that moment |
| Durability.DecodableExactly | src/state.go:91-112 | A state within the invariant reads back exactly when it has at most 10000 keys |
| Durability.OpenPoolReloads | src/pool.go:52-66 | Reloading the file of an unfaulted pool gives the same record for each configured key, hence the same verdict at all times, and the same current account |
| Durability.ReloadAfterCrash | src/pool.go:104-116 | The same after a crash at any point of any run without a fault; the reload succeeds if and only if there is no file, or it can be read and holds at most 10000 keys |
| Durability.FewKeysReload | src/state.go:98-100 | With at most 10000 keys ever configured, the file of an unfaulted pool loads if and only if it is missing or can be read (which includes the 8 MiB limit) |
| Durability.RunKnows | src/pool.go:80-95 | No run invents a key: memory and disk only hold keys that were there or were configured |
| Durability.FaultLiftedExactly | src/pool.go:104-116 | Which single steps lift a fault: a flawless save, and then only for a write fault or in a reconfiguration |
| Faults.WriteFaultRaisedExactly | src/pool.go:108-111 | Any other fault turns into a write fault if and only if a save fails |
| Faults.FaultMovesExactly | src/pool.go:104-116 | While a fault is set: when it is a write fault, none, or another one after any step |
| Faults.FaultLastsExactly | src/pool.go:104-116 | Over any run from such a fault: the pool stays closed to traffic if and only if no flawless save reconfigures or follows a failed save with no fault set by the dispatcher in between |
| Faults.WriteFaultExactly | src/pool.go:104-116 | As long as the pool stays faulted, its fault is a write fault if and only if a save has failed since the dispatcher last set one |
| Durability.WriteFaultErasesOtherFault | src/pool.go:108-114 | A run without reconfiguration in which a configuration fault disappears: one failed save and one good one |
| Clock.AgreementBrokenExactly | src/pool.go:224-441 | For runs whose times come in any order, agreeing or not before: after a step disk and memory silently disagree if and only if it fails over to an account that is not on disk, or they did before and it neither saves, nor fails over, nor sets a fault |
| Clock.DisagreementLastsExactly | src/pool.go:224-441 | Over a whole such run: they disagree exactly from a failover that strays from the disk to the next step of those three kinds |
| Clock.StepStaysSteady | src/pool.go:224-458 | A clock that goes back breaks nothing of the invariant but the agreement on the current account |
| Clock.InvariantIsSteady | src/pool.go:224-458 | A state of a run with a forward clock is a start for those results |
| Clock.SavingStepRestores | src/pool.go:104-116 | A step that reaches a save, at any time and from any disagreement, restores the whole invariant or leaves a fault |
| Clock.ForwardClockNeverFailsOver | src/pool.go:246-252 | With a clock that does not go back no step reaches an in-line failover |
| Clock.UnsavedHandOutExactly | src/pool.go:245-270 | In every state of such a run, `Pick` hands out an account that is not on disk as current if and only if the current account, or its successor in a failover, is eligible, listed and not the one on disk |
| Clock.UnsavedHandOutIsDisagreement | src/pool.go:245-270 | A hand-out is unsaved if and only if disk and memory silently disagree after it |
| Clock.ClockGoingBackHandsOutUnsaved | src/pool.go:246-258 | A run on a fresh pool after which a pick at an earlier time fails over and hands out unsaved |
| Clock.GuardThenPickHandsOutUnsaved | src/pool.go:381-384 | The same run with a guard first: the guard fails over, and the pick hands out unsaved without failing over |
| Clock.AcquiredStays | src/pool.go:237-246 | An account that `Pick` has just selected and saved never triggers the in-line failover, whatever the clock did before |
| Crashes.FileIsEarlierMemory | src/pool.go:104-116 | At every point of a run, under any faults, the file is the one the run started with or the whole memory of one earlier state, unchanged since |
| Crashes.CrashFindsEarlierState | src/state.go:113-127 | After a crash at any point, also under a fault or within a save, a loadable file gives back all records of one state the run went through |
| Durable.Store.Save | src/state.go:128-171 | A save succeeds exactly when no step fails; after each of its effects the file holds the old contents or the whole new state, and at the end the new state exactly when the rename was reached |
| Durable.Store.Read | src/state.go:113-127 | A missing file is an empty state; a file that is there yields its own state, exactly when it can be read and passes the checks |
| Durable.Decode | src/state.go:91-112 | The checks on a parsed state, id by id, accept exactly the valid ones |
| Durable.LoadExactly | src/state.go:91-112 | What loads, in the fields of the file: version 1, at most 10000 keys, and 64 hex digits for every identity |
| Durable.SavedFileLoads | src/state.go:128-171 | No save, however it fails, makes a loadable file unloadable; what loads is the new state if it was published and the old one otherwise |
| Stickiness.CurrentLeftExactly | src/pool.go:298-360 | A current account is left by exactly these steps: an effective quota, auth or transient failure of its own (unless already over with no other account eligible), or a reconfiguration that removes or disables it |
| Stickiness.LeavesForSuccessor | src/pool.go:323-326 | Where an observation that leaves the current account goes: to the first eligible account after it in cyclic order; to none exactly when none is eligible, with the cursor left on the account that was left |
| Stickiness.CurrentStays | src/pool.go:224-441 | Over a whole run without such a step the current account never changes |
| Stickiness.ChosenAgain | src/pool.go:139-160 | A selection after an account returns that account exactly when it is the only eligible one |
| Stickiness.RateLimitKeepsCurrent | src/pool.go:335-346 | Rate limits, unclassified failures and successes never move the current account |
| Rotation.NextIsFirstEligible | src/pool.go:143-159 | The account chosen after another is the first eligible one in cyclic configuration order, and none is chosen exactly when none is eligible |
| Rotation.AfterComesLast | src/pool.go:143-149 | The account after which a selection starts is looked at last |
| Rotation.DrainSelects | src/pool.go:318-327 | With the first k+1 accounts spent and the rest eligible, leaving the k-th selects its successor, or none after the last |
| Rotation.DrainStep | src/pool.go:318-327 | One believed quota failure of the current account moves the drain on by exactly one account, whatever its save does |
| Rotation.PoolDrainsInOrder | src/pool.go:139-160 | From all accounts eligible, after k quota failures on the then-current account the k-th successor of the first is current, whatever picks, guards, successes, stale outcomes and failing saves come between; after n there is none, there cannot be more, and the next selection would start from the first again |
| Rotation.QuietKeepsDrain | src/pool.go:224-396 | Picks, guards, successes, stale outcomes and refused requests leave a draining pool where it is |
| Rotation.DrainVisitsEachOnce | src/pool.go:150-157 | The n accounts so visited are pairwise different and are all of them |
| Scheduler.AroundIsModulo | src/pool.go:143-151 | The cyclic position is the program's `(start + j) % n` |
| Blocks.KeyFrame | src/pool.go:294-360 | Only an accepted record of a key or a resume of it changes the record of that key, through removal and re-adding too |
| Blocks.StepStaysTied | src/pool.go:294-360 | Every step keeps the ties between blocks, barrier and last failure of every record in memory and on disk, resumes and dishonest stamps included |
| Blocks.OpenedIsTied | src/pool.go:52-66 | A pool opened on an empty store or on a tied file is tied |
| Blocks.FileFrame | src/pool.go:104-116 | A step leaves the file alone or gives it the records that are in memory after the step |
| Blocks.CreditShortensExactly | src/pool.go:307-356 | For every record, class and configuration: the exact condition under which an observation shortens any of the four blocks |
| Blocks.BlocksNeverShrink | src/pool.go:307-356 | In any run from a tied start with fixed durations and honest stamps on the records of the key, and any delivery order, none of its four expiries decreases between two points without a resume of it between them |
| Histories.BlocksSurviveRestarts | src/pool.go:52-66 | The same over the life of a host, through crashes, shutdowns and restarts at points without a fault |
| Histories.EventStaysTied | src/dispatch.go:57-123 | Every event of a host keeps the ties, for the live pool and for every state file |
| Histories.FreshHostIsTied | src/dispatch.go:108-121 | A host that was never used is tied |
| Blocks.BlockShortenedExactly | src/pool.go:308-321 | In every state of a run with fixed durations, a step other than a resume shortens a block if and only if it is a believed quota failure with a reset before the running one, and its record is then stamped in the future |
| Blocks.FutureStampShortens | src/pool.go:308-321 | Two observations on a fresh pool, the second stamped in the future, that shorten a block and lower its barrier |
| Barriers.StaleFailureOnlyCounts | src/pool.go:307-310 | A failure from before the barrier changes its own failure count and nothing else in memory |
| Barriers.QuotaMarkBlocksAndBars | src/pool.go:317-327 | After a believed quota mark with expiry U the key is exhausted exactly until U, its barrier is at U, and it is not current any more |
| Barriers.BarrierFallsExactly | src/pool.go:307-327 | A step lowers a barrier if and only if it is an earlier resume of the key or a believed quota failure of it with an earlier reset, whose record is then stamped in the future |
| Barriers.BarrierHoldsExactly | src/pool.go:307-327 | Over any run a barrier stays at U or later if and only if no step breaches it |
| Barriers.LateFailuresCannotExtendQuota | src/pool.go:307-327 | After a quota mark with expiry U and any run that does not breach the barrier, any failure of the key requested before U, however late, only counts |
| Barriers.HonestRunsDoNotBreach | src/pool.go:307-327 | In terms of stamps: a run breaches no barrier at U if it has no resume of the key and no failure of it is stamped both at U or later and in the future |
| Barriers.ResumeBarrierHolds | src/pool.go:397-421 | After a resume at time r the barrier of the key never falls below r in any run, whatever the stamps |
| Barriers.InFlightFailuresCannotUndoResume | src/pool.go:397-421 | After a resume at time r, no failure of the key requested before r changes its blocks, the current account or the cursor, after any run |
| Barriers.ResumeFreesAccount | src/pool.go:397-421 | A resume that is carried out makes its account eligible at once and for good, moves neither the current account nor the cursor, and touches no other key |
| Recovery.FailureBlocksExactly | src/pool.go:315-359 | After a believed failure an enabled account whose earlier blocks are over is eligible if and only if the block that its class stands for is over; `Effects.CreditExactly` gives the fields |
| Recovery.BlocksAreBounded | src/pool.go:311-356 | Every block a step writes is over 366 days after the step |
| Recovery.NoFailureNoBlock | src/pool.go:298-306 | A step that observes no failure writes no block |
| Recovery.BlocksAreOver | src/pool.go:311-356 | All blocks of a run are over 366 days after its last observed failure, or after its start |
| Recovery.AllEligibleServes | src/pool.go:150-157 | If every enabled account is eligible, an open pool serves a request that lists them |
| Recovery.PoolRecovers | src/pool.go:117-160 | In a run with no failure observed for 366 days, every enabled account is eligible and a pick that lists all of them succeeds |
| Histories.HostRecovers | src/dispatch.go:57-123 | The same over the life of a host: failures observed before crashes and restarts count, and nothing is asked of what the state files hold beyond what any history leaves |
| Histories.EventStaysOver | src/dispatch.go:57-123 | No event but an observed failure moves the end of the last block, in a live pool or in any state file |
| Histories.SoundAt | src/dispatch.go:57-123 | A host is sound at every point of its history |
| Gate.GateAgreesWithScheduler | src/pool.go:363-396 | At one instant `Guard` admits a managed request exactly when the following `Pick` hands out an account, also where `Guard` moves or clears the current account |
| Gate.GateAgreesInRuns | src/pool.go:363-396 | The same at every point of every run |
| Gate.CountsAreExact | src/pool.go:202-215 | Each count of a report is the number of accounts with its verdicts, and the four add up to all accounts |
| Gate.RetryAtIsExact | src/pool.go:216-220 | The retry time is the least quota, auth or rate expiry after now over all accounts, and unset when there is none |
| Gate.HeldUntilRetryTime | src/pool.go:202-223 | No account held by one of these three becomes eligible by time alone before the reported retry time |
| Gate.QuarantineHasNoRetryTime | src/pool.go:216 | A report names no retry time if and only if no quota, auth or rate block is running; an account in quarantine is eligible when that ends all the same |
| Conservation.RecordsAreConserved | src/pool.go:273-309 | Over any run the sum of all counters grows by the number of accepted records, modulo 2^64 |
| Conservation.StepConserves | src/pool.go:273-309 | The same for each single step; resumes and reconfigurations leave the sum alone |
| Conservation.CountedOnOneKey | src/pool.go:282-309 | Each accepted record is counted on the one key that its auth ID indexes |
| Conservation.CreditCountsOnce | src/pool.go:298-307 | A record raises exactly one of the two counters of its key by one |
| Conservation.TotalWithKeys | src/pool.go:82-89 | Installing accounts does not change the sum of the counters |
| Silence.SuccessesDoNotInterfere | src/pool.go:298-306 | With saves succeeding, deleting every success record from a run leaves all answers of `Pick` and `Guard`, the reports of refusals included, and all state but success counts and times unchanged |
| Silence.SuccessInterferesExactly | src/pool.go:298-306 | For every save outcome, the exact condition under which one success record changes anything else |
| Silence.SameStep | src/pool.go:224-458 | Two pools that differ only in successes and disk still do after the same step |
| Silence.SameReport | src/pool.go:202-223 | ... and refuse with the same report |
| Identity.OutcomeIsCreditedToPickedKey | src/pool.go:282-309 | The outcome of a picked request is credited to the picked key and to no other, however late, through reconfigurations that keep the key and do not give its ID to another |
| Identity.LateOutcomeIsCredited | src/pool.go:282-309 | The same for any ID that indexes a key, from any state of a run |
| Identity.TraceKeepsID | src/pool.go:80-95 | Through such reconfigurations an ID keeps indexing its key |
| Identity.PickedIDIndexesCurrent | src/pool.go:245-270 | The ID that `Pick` returns indexes the account it chose |
| Accounts.IndexOfIsFirst | src/pool.go:96-103 | The account lookup finds the first match, and finds one exactly when the key is configured |
| PoolObject.LockedPool.Pick | src/pool.go:224-271 | In place, for every state: the new state, the answer and the report are those of the scheduler |
| PoolObject.LockedPool.Observe | src/pool.go:273-361 | In place, with the classifier run on the record: the new state and the result are those of the scheduler |
| PoolObject.LockedPool.Guard | src/pool.go:363-396 | In place: the new state, the answer and the report are those of the scheduler; only the current account and the cursor can change |
| PoolObject.LockedPool.Resume | src/pool.go:397-423 | In place: the new state and the result are those of the scheduler |
| PoolObject.LockedPool.Reconfigure | src/pool.go:424-441 | In place: the new state and the result are those of the scheduler; new keys get records of their own |
| PoolObject.LockedPool.Close | src/pool.go:442-458 | In place: the pool is closed once, and saved if it has a store |
| PoolObject.LockedPool.SaveState | src/pool.go:104-116 | The save, its fault and the written file are those of the scheduler |
| PoolObject.LockedPool.ChooseAfter | src/pool.go:139-160 | The two loops select what the specification selects, and change nothing but the current account and the cursor |
| PoolObject.LockedPool.FindNext | src/pool.go:150-157 | The second loop finds the first eligible position, going round once |
| PoolObject.LockedPool.IsManaged | src/pool.go:161-179 | A request is managed by its provider, its provider list, or any candidate the pool knows |
| PoolObject.LockedPool.CurrentVerdict | src/pool.go:245-246 | The verdict on the current account, where a missing account counts as disabled |
| PoolObject.LockedPool.OfferAccount | src/pool.go:263-270 | An account is handed out exactly when the host lists it as a live candidate |
| PoolObject.LockedPool.FailOver | src/pool.go:247-252 | The in-line failover of `Pick`, kept as the code has it |
| PoolObject.LockedPool.AdmitAny | src/pool.go:390-395 | Without a current account the gate admits exactly when some account is eligible |
| PoolObject.LockedPool.Summarize | src/pool.go:202-223 | The loop of the report computes the report whose counts and retry time are proved exact |
| PoolObject.LockedPool.CreditKey | src/pool.go:293-359 | The record of the key is updated in place as specified, and the result says whether the key must be left |
| PoolObject.LockedPool.ClassifyRecord | src/pool.go:308-311 | A failure that passes the barrier is given the class of the classifier; no other record is classified |
| PoolObject.ClassOfFailuresMatters | src/pool.go:298-311 | For every other record the outcome of an observation does not depend on a class |
| PoolObject.LockedPool.ApplyFailure | src/pool.go:315-359 | The switch over the kind of failure |
| PoolObject.LockedPool.ClearKey | src/pool.go:411-417 | A resume clears the four blocks of one key and raises its barrier; the other records stay |
| PoolObject.LockedPool.InstallAccounts | src/pool.go:80-95 | Accounts are entered in order and stale IDs dropped, whatever the order in which the map is walked |
| PoolObject.LockedPool.EnterAccounts | src/pool.go:82-89 | The first loop: every configured key has a record of its own afterwards |
| PoolObject.LockedPool.DropStale | src/pool.go:90-94 | The second loop: an ID stays exactly when its key is configured |
| PoolObject.NewPool | src/pool.go:52-66 | No pool exactly when the state cannot be loaded; otherwise the pool with the loaded state |
| PoolObject.NewFaultedPool | src/pool.go:71-79 | A pool without a store and with a fault |
| Classifier.ResetIsLatestOrFallback | src/classifier.go:201-250 | The expiry is the maximum of all valid signals with the source of the first one attaining it; the fallback is used exactly when no signal is valid and it is positive; a set expiry is within 366 days |
| Classifier.LatestIsFirstMaximum | src/classifier.go:203-208 | Keeping the later of two signals yields the maximum and, on ties, the first signal met |
| Classifier.LatestIgnoresOrder | src/classifier.go:203-208 | The order in which resets are spelled does not change the expiry |
| Classifier.SignalsBounded | src/classifier.go:142-200 | Every valid signal, from header, duration, timestamp or message, lies within 366 days of the observation |
| Classifier.SubNanosecondResetsAtOnce | src/classifier.go:144-147 | A positive duration under one nanosecond is valid and resets at once |
| Classifier.ClassificationBounds | src/classifier.go:37-127 | Only quota and rate limits carry an expiry and it is bounded; quota needs 401, 402 or 429, and a plain 401 or 402 is never quota; 403 is auth unless it is a Go error |
| Responses.KindByStatus | src/classifier.go:39-127 | 200 to 299 is success, a Go error failure, a plain 401 or 403 auth, 0 and from 500 transient, and the rest failure |
| Responses.ZenTypesAreQuota | src/classifier.go:69-82 | Zen's five types at 401, 402 and 429 are quota |
| Responses.KindOf429 | src/classifier.go:83-107 | Any other 429: a rate label makes it a rate limit, also beside a quota label; else a quota label or an explicit sentence makes it quota; anything else is a rate limit |
| Responses.LabelExactly | src/classifier.go:48-56 | The label of the error object wins over the one at the top |
| Responses.MessageExactly | src/classifier.go:57-63 | The message is that of the error object, or the one at the top, or an error that is a text |
| Responses.SentenceExactly | src/classifier.go:102-103 | Which sentences are explicit about a quota, word by word |
| Responses.SignalsExactly | src/classifier.go:209-240 | The resets that are folded are exactly those announced in the header and in the named fields and messages of the four scopes of the body |
| Responses.RelativeExactly | src/classifier.go:129-155 | Which values are waits, and until when |
| Responses.AbsoluteExactly | src/classifier.go:156-176 | Which values are instants: dates, and Unix times in seconds or milliseconds |
| Responses.SentenceAddsUp | src/classifier.go:186-198 | A retry sentence names the sum of its amounts, each in its unit |
| Responses.ExpiryExactly | src/classifier.go:108-113 | The class of a record expires at the latest reset announced at the instant it is dated to; without one, quota expires after the configured cooldown and a rate limit not at all |
| Responses.ResetExactly | src/classifier.go:201-250 | The same of `withReset` alone, with the reason of a fallback: whether a reset was named at all, in the header or in a named field of the four scopes |
| Classifier.WithReset | src/classifier.go:201-250 | The nested loops over header and scopes compute the fold over the list of signals |
| Classifier.ReadBody | src/classifier.go:218-240 | The loop over the four scopes |
| Classifier.ReadMessage | src/classifier.go:181-200 | The loop over the parts of a retry sentence adds up the named amounts |
| Classifier.Classify | src/classifier.go:37-127 | The classifier computes the class whose bounds are proved |
| Classifier.RelativeReset | src/classifier.go:142-155 | A relative reset, when valid, lies between the observation and 366 days later |
| Classifier.AbsoluteReset | src/classifier.go:156-176 | An absolute reset, when valid, lies strictly after the observation and at most 366 days later |
| Observations.ClassifierIsProper | src/pool.go:311 | Every observation of the program respects the bounds that the scheduler's theorems need |
| AuthIDs.IssuedIDsDiffer | src/config.go:127-141 | All IDs issued from one count map are pairwise different, for any hash function |
| AuthIDs.RenderInjective | src/config.go:134-140 | An ID determines its base and its number |
| AuthIDs.RenderExactly | src/config.go:134-140 | The first ID of a base is the base, a later one the base, a dash and how often it was issued |
| AuthIDs.OccurrencesExactly | src/config.go:135-136 | The count of a base is how often it was issued |
| AuthIDs.HashInputInjective | src/config.go:128-133 | The zero bytes keep the parts apart: different parts are hashed differently |
| AuthIDs.DecimalRoundTrip | src/config.go:138 | Reading a rendered number gives it back |
| AuthIDs.Counts.Next | src/config.go:127-141 | Each issued ID differs from all issued before it |
| ConfigurationReader.ReadAccounts | src/config.go:261-392 | The loop accepts exactly the acceptable configurations: one managed provider at Zen's address, literal and pairwise different keys, valid proxies, at most 1024 entries; the accounts are those of that provider in order |
| ConfigurationReader.AcceptedAccountsAreGood | src/config.go:353-387 | Accepted accounts have distinct fingerprints, distinct nonempty IDs, and an ID each unless disabled |
| ConfigurationReader.ReadProviders | src/config.go:268-388 | The loop over the providers, with one managed provider at most |
| ConfigurationReader.ReadEntries | src/config.go:353-387 | The loop over the entries: IDs are issued for other providers too, and the loop stops at the first bad or repeated key |
| ConfigurationReader.CheckEntry | src/config.go:373-384 | The checks on one entry |
| ConfigurationReader.DurationValue | src/config.go:91-104 | An absent option gives the default, another one its own duration, and it is an error exactly when that is not within one second and 366 days |
| ConfigurationReader.ReadConfiguration | src/config.go:164-393 | Reads without an error exactly the configurations whose options, names, labels and providers are in order, and returns one that meets everything the scheduler assumes |
| Configurations.AcceptedExactly | src/config.go:164-392 | Which configurations are read without an error, in the fields of the two files |
| Configurations.AcceptableExactly | src/config.go:293-384 | At most one provider has the managed name, and that is at Zen's address, with at most 1024 literal entries and no key twice |
| Configurations.AccountsExactly | src/config.go:353-387 | One account for each entry, in order: fingerprint of its key, label of 16 digits, disabled exactly if the provider is off or the label is listed, and its ID |
| Configurations.NoAccounts | src/config.go:370-372 | Without a managed provider there are no accounts |
| Configurations.IssuesExactly | src/config.go:349-369 | Which IDs a provider issues, from kind, key, address and proxy; one without entries issues one, one that is off none |
| Configurations.TrimExactly | src/config.go:296 | An address is Zen's with any number of slashes behind it |
| ConfigurationReader.ReadNamesAndAccounts | src/config.go:203-392 | The part after the durations: provider name, disabled labels, state directory, accounts |
| ConfigurationReader.ReadTimes | src/config.go:187-202 | The four durations are read in order, each with its own default |
| ConfigurationReader.ReadDisabled | src/config.go:218-229 | The loop over the disabled labels accepts exactly well-formed labels and collects them |
| Yaml.YamlMap | src/yaml_native.go:50-153 | On any node graph at most 100001 calls are made, and the decoder accepts exactly the documents whose unfolding is a mapping of at most 100000 nodes, and returns it |
| Yaml.Decoder.Decode | src/yaml_native.go:71-143 | Below any path, decoding succeeds exactly when the node unfolds within the remaining budget, returns that value and uses up exactly its size |
| Yaml.Decoder.DecodePairs | src/yaml_native.go:95-131 | The loop over the pairs of a mapping, with unique string keys and mapping-valued merges |
| Yaml.Decoder.MergeInOrder | src/yaml_native.go:132-138 | The merge loops, in any order of the merged map, compute the merge with precedence |
| Yaml.MergePrecedence | src/yaml_native.go:132-138 | Own entries beat merged ones, earlier merges beat later ones, and nothing else appears |
| Yaml.MergeKeyIsNoEntry | src/yaml_native.go:104-116 | The keys of a mapping are unique and all but the merge key become entries |
| Yaml.CycleIsBad | src/yaml_native.go:73-77 | A node on a cycle has no unfolding at any depth |
| Yaml.RevisitIsBad | src/yaml_native.go:73-77 | A node met again below itself has no unfolding, so the check on visited nodes never changes what is accepted |
| Yaml.DepthOnlyLimits | src/yaml_native.go:73 | The depth limits but never changes a value |
| Yaml.DepthLimitExactly | src/yaml_native.go:73 | 64 levels below the root unfold and 65 do not, and the size counts the nodes |
| Yaml.ItemsExactly | src/yaml_native.go:85-94 | A sequence is the list of the values of its items, in order, and is bad only if an item is |
| Yaml.PairsExactly | src/yaml_native.go:95-138 | A mapping has for each of its own keys the value written there, which no merge beats; its merges are those of its merge key |
| Yaml.RefusedPairsExactly | src/yaml_native.go:99-131 | A mapping is refused exactly when a child does not decode, a key is no text or repeated, or a merge is neither a mapping nor a list of mappings |
| Yaml.MergesExactly | src/yaml_native.go:117-130 | A merge key takes one mapping, or the mappings of a list in their order, and nothing else |
| Yaml.NodesExactly | src/yaml_native.go:82-142 | What each kind of node decodes to |
| Yaml.TagsExactly | src/yaml_native.go:78-84 | Only nodes without a tag or with a core tag decode |
| Lifecycle.HistoryIsSound | src/dispatch.go:57-123 | Over any history of one host with crashes, restarts, failing saves, locked directories and bad configurations, a live pool is within the invariant or fail-closed |
| Lifecycle.FreshHostIsSound | src/dispatch.go:108-121 | A host that was never used is sound, so the theorems about histories start there |
| Lifecycle.CrashAndRestart | src/dispatch.go:101-121 | A crash and a restart in such a history gives back the same records, verdicts and current account |
| Lifecycle.FailClosedAbsorbs | src/pool.go:68-79 | A pool without a store stays faulted through every step, refuses exactly the managed picks and hands nothing out; its guard rejects exactly the managed models of a configuration with accounts |
| Lifecycle.ConfigureAbsorbs | src/dispatch.go:101-107 | No lifecycle request opens or replaces such a pool, whatever its directory holds by then |
| Lifecycle.FailClosedUntilRestart | src/dispatch.go:76-123 | The same over any sequence of requests and calls, with every state directory left as it was |
| Requests.BadRequest | src/dispatch.go:87-100 | After a valid request whose configuration cannot be read there is a pool with that fault, which refuses all that concerns it: the old one otherwise unchanged, or one without a store |
| Requests.GoodRequestToPool | src/dispatch.go:101-107 | A good request leaves a live pool open exactly when it has a store, the state directory is the same and the save succeeds |
| Requests.GoodRequestCreates | src/dispatch.go:108-121 | Without a pool a good request creates one, open exactly when the directory could be locked and its file loads, and working on that file |
| Requests.InvalidRequest | src/dispatch.go:81-86 | A request that does not parse or names another schema changes nothing |
| Requests.EndExactly | src/dispatch.go:66-75 | When a pool goes away its directory keeps its file; a shutdown saves first, a crash does not |
| Requests.ShutUntilReopened | src/dispatch.go:76-123 | Over any history a faulted pool refuses all that concerns it exactly until a flawless save after a failed one, a good request that goes through, or its end |
| Requests.ShutRefusesAll | src/pool.go:234-236 | A pool with a fault refuses every request that concerns it |
| Requests.CallExactly | src/dispatch.go:124-125 | A call changes the live pool and no state directory that it does not hold |
| ApplicationObject.Application.Configure | src/dispatch.go:76-123 | In place: the pool is created, faulted, reconfigured or left exactly as the lifecycle says |
| ApplicationObject.ReadRequest | src/dispatch.go:87-90 | A lifecycle request built with the configuration reader is always an event to which the theorems about histories apply |
| ApplicationObject.Application.MarkFault | src/dispatch.go:57-65 | Only the fault of a live pool changes |
| ApplicationObject.Application.Shutdown | src/dispatch.go:66-75 | The pool is closed and dropped |

## Left out

- The C ABI, cgo buffers and libyaml: the parsed document is an array of nodes, whose references may be nil, shared or cyclic.
- JSON encoding, envelopes, registration metadata and the management HTTP interface; the state file is a faithful copy of the fields, or garbage.
- File system calls, permissions, locking and path expansion: a save has ten outcomes, a directory can be locked or not, a file readable or not; the 8 MiB limit on the state file is part of `readable`.
- The in-memory store: it is the file store without the failures after encoding.
- The error of releasing the lock when a pool is closed; the pool is closed and dropped all the same.
- SHA-256, regular expressions, number, duration and date parsing: their results are part of the input, and blanks are already trimmed. A body over 64 KiB or not parsed to its end is the object that the decoder left.
- Floating-point rounding: amounts are reals, with infinities and NaN kept apart.
- Saturation of `time.Duration` and the range of `time.Time`: times are unbounded integers.
- `last_action`, reason, window and status texts, and the other fields of the status report.
- Proxy URL checks (their verdict is an input), header forwarding (likewise), model lists and model name normalisation, prefix and header readers, typed field readers: the configuration reader starts from options and providers of the right types.
- The `cfg` that a failed read returns is an arbitrary partial configuration.
- Memory sharing below the level of a call: the pool's records are separate objects, and each call is atomic under its mutex.
- Silence.SuccessesDoNotInterfere: whole runs with failing saves are not covered, because there the claim is false; `SuccessInterferesExactly` says when, one record at a time.
- Blocks.BlocksNeverShrink: for fixed durations, as the source promises nothing across a change of them; `CreditShortensExactly` covers changed ones one observation at a time.
- Histories.BlocksSurviveRestarts: a process that ends while a fault is set, or without the key in its configuration, may lose what was not saved; `CrashFindsEarlierState` says what is left.
