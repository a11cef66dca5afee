/** Model of the account-building loop of `readConfiguration` (src/config.go:261-392) over typed
    fields: which configurations are accepted, and what the accounts are. */
module ConfigurationReader {
  import opened Basics
  import opened Accounts
  import opened AuthIDs

  /** One key entry. `proxyValid` is the verdict of the proxy check. */
  datatype Entry = Entry(key: string, proxy: string, proxyValid: bool)

  /** One provider, its name lower-cased and defaulted. */
  datatype Provider = Provider(name: string, baseURL: string, off: bool, entries: seq<Entry>)

  const ZEN := "https://opencode.ai/zen/v1"

  function TrimSlashes(s: string): string {
    if s != [] && s[|s| - 1] == '/' then TrimSlashes(s[..|s| - 1]) else s
  }

  /** `strings.Contains(s, "${")`. */
  predicate HasPlaceholder(s: string) {
    exists i :: 0 <= i < |s| - 1 && s[i] == '$' && s[i + 1] == '{'
  }

  predicate GoodEntry(e: Entry) {
    e.key != "" && !HasPlaceholder(e.key) && !HasPlaceholder(e.proxy) && e.proxyValid
  }

  function Kind(p: Provider): string {
    "openai-compatibility:" + p.name
  }

  ghost function EntryBase(sha: string -> string, p: Provider, e: Entry): string
    requires IsHashFunction(sha)
  {
    BaseIsBase(sha, Kind(p), [e.key, p.baseURL, e.proxy]);
    BaseOf(sha, Kind(p), [e.key, p.baseURL, e.proxy])
  }

  ghost function EmptyBase(sha: string -> string, p: Provider): string
    requires IsHashFunction(sha)
  {
    BaseIsBase(sha, Kind(p), [p.baseURL]);
    BaseOf(sha, Kind(p), [p.baseURL])
  }

  /** The bases of the first `n` entries of a provider that is switched on. */
  ghost function EntryBases(sha: string -> string, p: Provider, n: nat): (r: seq<string>)
    requires IsHashFunction(sha) && n <= |p.entries|
    ensures |r| == n
  {
    seq(n, j requires 0 <= j < n => EntryBase(sha, p, p.entries[j]))
  }

  /** What a provider has issued: nothing when off, one ID when it has no entries. */
  ghost function Issues(sha: string -> string, p: Provider): seq<string>
    requires IsHashFunction(sha)
  {
    if p.off then [] else if p.entries == [] then [EmptyBase(sha, p)] else EntryBases(sha, p, |p.entries|)
  }

  ghost function AllIssues(sha: string -> string, ps: seq<Provider>): seq<string>
    requires IsHashFunction(sha)
  {
    if ps == [] then [] else AllIssues(sha, ps[..|ps| - 1]) + Issues(sha, ps[|ps| - 1])
  }

  /** The account of entry `j`, given what was issued before its provider. */
  ghost function AccountFor(sha: string -> string, history: seq<string>, p: Provider, off: set<string>, j: nat): Account
    requires IsHashFunction(sha) && j < |p.entries|
  {
    var hash := sha(p.entries[j].key);
    assert IsHash(hash);
    var name := "zen-" + hash[..16];
    Account(hash, if p.off then "" else IdAfter(history + EntryBases(sha, p, j), EntryBase(sha, p, p.entries[j])),
            name, p.off || name in off)
  }

  ghost function AccountsFor(sha: string -> string, history: seq<string>, p: Provider, off: set<string>, n: nat): (r: seq<Account>)
    requires IsHashFunction(sha) && n <= |p.entries|
    ensures |r| == n
  {
    seq(n, j requires 0 <= j < n => AccountFor(sha, history, p, off, j))
  }

  /** The accounts of the managed providers, in order. */
  ghost function AccountsOf(sha: string -> string, ps: seq<Provider>, name: string, off: set<string>): seq<Account>
    requires IsHashFunction(sha)
  {
    if ps == [] then []
    else
      var n := |ps| - 1;
      AccountsOf(sha, ps[..n], name, off)
      + (if ps[n].name == name then AccountsFor(sha, AllIssues(sha, ps[..n]), ps[n], off, |ps[n].entries|) else [])
  }

  /** At most one of the first `n` providers has the managed name. */
  ghost predicate AtMostOne(ps: seq<Provider>, name: string, n: nat)
    requires n <= |ps|
  {
    forall i, j :: 0 <= i < j < n ==> !(ps[i].name == name && ps[j].name == name)
  }

  /** A configuration that is accepted: at most one managed provider, at Zen's address, whose entries
      are literal, valid and pairwise different keys, at most 1024 of them. */
  ghost predicate Acceptable(sha: string -> string, ps: seq<Provider>, name: string) {
    && AtMostOne(ps, name, |ps|)
    && (forall i :: 0 <= i < |ps| && ps[i].name == name ==> GoodProvider(sha, ps[i], |ps[i].entries|) && |ps[i].entries| <= 1024)
  }

  /** The first `n` entries of a managed provider are in order. */
  ghost predicate GoodProvider(sha: string -> string, p: Provider, n: nat)
    requires n <= |p.entries|
  {
    && TrimSlashes(p.baseURL) == ZEN
    && (forall j :: 0 <= j < n ==> GoodEntry(p.entries[j]))
    && (forall i, j :: 0 <= i < j < n ==> sha(p.entries[i].key) != sha(p.entries[j].key))
  }

  lemma AccountsForAt(sha: string -> string, history: seq<string>, p: Provider, off: set<string>, n: nat, j: nat)
    requires IsHashFunction(sha) && j < n <= |p.entries|
    ensures AccountsFor(sha, history, p, off, n)[j] == AccountFor(sha, history, p, off, j)
  {
  }

  lemma EntryBasesAt(sha: string -> string, p: Provider, n: nat, j: nat)
    requires IsHashFunction(sha) && j < n <= |p.entries|
    ensures EntryBases(sha, p, n)[j] == EntryBase(sha, p, p.entries[j])
    ensures EntryBases(sha, p, n)[..j] == EntryBases(sha, p, j)
  {
  }

  lemma EntryBaseIsBase(sha: string -> string, p: Provider, e: Entry)
    requires IsHashFunction(sha)
    ensures IsBase(EntryBase(sha, p, e))
  {
    BaseIsBase(sha, Kind(p), [e.key, p.baseURL, e.proxy]);
  }

  /** The accounts of one provider meet everything that the scheduler relies on. */
  lemma AccountsAreGood(sha: string -> string, history: seq<string>, p: Provider, off: set<string>)
    requires IsHashFunction(sha) && |p.entries| <= 1024 && GoodProvider(sha, p, |p.entries|)
    requires forall k :: 0 <= k < |history| ==> IsBase(history[k])
    ensures GoodAccounts(AccountsFor(sha, history, p, off, |p.entries|))
  {
    var n := |p.entries|;
    var accounts := AccountsFor(sha, history, p, off, n);
    forall i, j | 0 <= i < j < n
      ensures accounts[i].fingerprint != accounts[j].fingerprint
      ensures accounts[i].authID != "" ==> accounts[i].authID != accounts[j].authID
    {
      AccountsForAt(sha, history, p, off, n, i);
      AccountsForAt(sha, history, p, off, n, j);
      AccountsDiffer(sha, history, p, off, i, j);
    }
    forall i | 0 <= i < n
      ensures IsHash(accounts[i].fingerprint) && (!accounts[i].disabled ==> accounts[i].authID != "")
    {
      AccountsForAt(sha, history, p, off, n, i);
      AccountIsNamed(sha, history, p, off, i);
    }
  }

  lemma AccountIsNamed(sha: string -> string, history: seq<string>, p: Provider, off: set<string>, i: nat)
    requires IsHashFunction(sha) && i < |p.entries|
    ensures var a := AccountFor(sha, history, p, off, i); IsHash(a.fingerprint) && (!a.disabled ==> a.authID != "")
  {
    EntryBaseIsBase(sha, p, p.entries[i]);
  }

  lemma AccountsDiffer(sha: string -> string, history: seq<string>, p: Provider, off: set<string>, i: nat, j: nat)
    requires IsHashFunction(sha) && i < j < |p.entries| && sha(p.entries[i].key) != sha(p.entries[j].key)
    requires forall k :: 0 <= k < |history| ==> IsBase(history[k])
    ensures var a, b := AccountFor(sha, history, p, off, i), AccountFor(sha, history, p, off, j);
            a.fingerprint != b.fingerprint && (a.authID != "" ==> a.authID != b.authID)
  {
    IDsDiffer(sha, history, p, i, j);
  }

  lemma IDsDiffer(sha: string -> string, history: seq<string>, p: Provider, i: nat, j: nat)
    requires IsHashFunction(sha) && i < j < |p.entries|
    requires forall k :: 0 <= k < |history| ==> IsBase(history[k])
    ensures IdAfter(history + EntryBases(sha, p, i), EntryBase(sha, p, p.entries[i])) !=
            IdAfter(history + EntryBases(sha, p, j), EntryBase(sha, p, p.entries[j]))
  {
    var n, h := |p.entries|, |history|;
    var bases := EntryBases(sha, p, n);
    forall k | 0 <= k < n
      ensures IsBase(bases[k])
    {
      EntryBasesAt(sha, p, n, k);
      EntryBaseIsBase(sha, p, p.entries[k]);
    }
    EntryBasesAt(sha, p, n, i);
    EntryBasesAt(sha, p, n, j);
    LaterIDsDiffer(history, bases, i, j);
  }

  lemma LaterIDsDiffer(history: seq<string>, bases: seq<string>, i: nat, j: nat)
    requires i < j < |bases|
    requires forall k :: 0 <= k < |history| ==> IsBase(history[k])
    requires forall k :: 0 <= k < |bases| ==> IsBase(bases[k])
    ensures IdAfter(history + bases[..i], bases[i]) != IdAfter(history + bases[..j], bases[j])
  {
    var all, h := history + bases, |history|;
    IssuedIDsDiffer(all, h + i, h + j);
    assert all[..h + i] == history + bases[..i];
    assert all[..h + j] == history + bases[..j];
  }

  // ---------------------------------------------------------------- the loop itself

  /** One entry: its ID is issued even for a provider that is not managed, so that the numbering
      follows the host's. */
  method ReadEntry(sha: string -> string, p: Provider, j: nat, counts: Counts, ghost history: seq<string>) returns (id: string)
    requires IsHashFunction(sha) && j < |p.entries| && counts.Valid()
    requires counts.issued == history + (if p.off then [] else EntryBases(sha, p, j))
    modifies counts
    ensures counts.Valid()
    ensures counts.issued == history + (if p.off then [] else EntryBases(sha, p, j + 1))
    ensures id == if p.off then "" else IdAfter(history + EntryBases(sha, p, j), EntryBase(sha, p, p.entries[j]))
  {
    id := "";
    if !p.off {
      var e := p.entries[j];
      id := counts.Next(sha, Kind(p), [e.key, p.baseURL, e.proxy]);
      EntryBasesStep(sha, history, p, j);
    }
  }

  lemma EntryBasesStep(sha: string -> string, history: seq<string>, p: Provider, j: nat)
    requires IsHashFunction(sha) && j < |p.entries|
    ensures history + EntryBases(sha, p, j + 1) == history + EntryBases(sha, p, j) + [EntryBase(sha, p, p.entries[j])]
  {
  }

  /** The accounts that the first `n` entries have added. */
  ghost function Added(sha: string -> string, history: seq<string>, p: Provider, managed: bool, off: set<string>, n: nat): seq<Account>
    requires IsHashFunction(sha) && n <= |p.entries|
  {
    if managed then AccountsFor(sha, history, p, off, n) else []
  }

  /** The checks on one managed entry: literal key and proxy, a new key, a valid proxy. */
  method CheckEntry(sha: string -> string, e: Entry, seen: set<string>) returns (ok: bool)
    ensures ok <==> GoodEntry(e) && sha(e.key) !in seen
  {
    if e.key == "" || HasPlaceholder(e.key) || HasPlaceholder(e.proxy) {
      return false;
    }
    if sha(e.key) in seen {
      return false;
    }
    return e.proxyValid;
  }

  /** The fingerprints of the first `n` entries. */
  ghost function Seen(sha: string -> string, p: Provider, n: nat): set<string>
    requires n <= |p.entries|
  {
    set i | 0 <= i < n :: sha(p.entries[i].key)
  }

  lemma GoodProviderStep(sha: string -> string, p: Provider, j: nat)
    requires j < |p.entries|
    ensures GoodProvider(sha, p, j + 1) <==>
            GoodProvider(sha, p, j) && GoodEntry(p.entries[j]) && sha(p.entries[j].key) !in Seen(sha, p, j)
    ensures Seen(sha, p, j + 1) == Seen(sha, p, j) + {sha(p.entries[j].key)}
  {
  }

  lemma GoodPrefix(sha: string -> string, p: Provider, j: nat)
    requires j <= |p.entries|
    ensures GoodProvider(sha, p, |p.entries|) ==> GoodProvider(sha, p, j)
  {
  }

  method ReadProvider(sha: string -> string, p: Provider, managed: bool, off: set<string>, counts: Counts)
    returns (ok: bool, added: seq<Account>)
    requires IsHashFunction(sha) && counts.Valid()
    modifies counts
    ensures ok <==> (managed ==> GoodProvider(sha, p, |p.entries|))
    ensures ok ==> counts.Valid() && counts.issued == old(counts.issued) + Issues(sha, p)
    ensures ok ==> added == Added(sha, old(counts.issued), p, managed, off, |p.entries|)
  {
    if managed && TrimSlashes(p.baseURL) != ZEN {
      return false, [];
    }
    if p.entries == [] {
      if !p.off {
        var _ := counts.Next(sha, Kind(p), [p.baseURL]);
      }
      return true, [];
    }
    ok, added := ReadEntries(sha, p, managed, off, counts);
  }

  /** The loop over the entries of a provider. */
  method ReadEntries(sha: string -> string, p: Provider, managed: bool, off: set<string>, counts: Counts)
    returns (ok: bool, added: seq<Account>)
    requires IsHashFunction(sha) && counts.Valid() && (managed ==> TrimSlashes(p.baseURL) == ZEN)
    modifies counts
    ensures ok <==> (managed ==> GoodProvider(sha, p, |p.entries|))
    ensures ok ==> counts.Valid() && counts.issued == old(counts.issued) + (if p.off then [] else EntryBases(sha, p, |p.entries|))
    ensures ok ==> added == Added(sha, old(counts.issued), p, managed, off, |p.entries|)
  {
    ghost var history := counts.issued;
    added := [];
    var seen: set<string> := {};
    for j := 0 to |p.entries|
      invariant counts.Valid() && counts.issued == history + (if p.off then [] else EntryBases(sha, p, j))
      invariant added == Added(sha, history, p, managed, off, j)
      invariant managed ==> GoodProvider(sha, p, j) && seen == Seen(sha, p, j)
    {
      var id := ReadEntry(sha, p, j, counts, history);
      if managed {
        GoodProviderStep(sha, p, j);
        ok := CheckEntry(sha, p.entries[j], seen);
        if !ok {
          GoodPrefix(sha, p, j + 1);
          return false, added;
        }
        seen := seen + {sha(p.entries[j].key)};
        added := AddAccount(sha, history, p, off, j, id, added);
      }
    }
    return true, added;
  }

  method AddAccount(sha: string -> string, ghost history: seq<string>, p: Provider, off: set<string>, j: nat, id: string, added: seq<Account>)
    returns (added': seq<Account>)
    requires IsHashFunction(sha) && j < |p.entries| && added == AccountsFor(sha, history, p, off, j)
    requires id == if p.off then "" else IdAfter(history + EntryBases(sha, p, j), EntryBase(sha, p, p.entries[j]))
    ensures added' == AccountsFor(sha, history, p, off, j + 1)
  {
    var hash := sha(p.entries[j].key);
    assert IsHash(hash);
    var name := "zen-" + hash[..16];
    var a := Account(hash, id, name, p.off || name in off);
    assert a == AccountFor(sha, history, p, off, j);
    AccountsForStep(sha, history, p, off, j);
    added' := added + [a];
  }

  lemma AccountsForStep(sha: string -> string, history: seq<string>, p: Provider, off: set<string>, j: nat)
    requires IsHashFunction(sha) && j < |p.entries|
    ensures AccountsFor(sha, history, p, off, j + 1) == AccountsFor(sha, history, p, off, j) + [AccountFor(sha, history, p, off, j)]
  {
    var before, after := AccountsFor(sha, history, p, off, j), AccountsFor(sha, history, p, off, j + 1);
    AccountsForAt(sha, history, p, off, j + 1, j);
    forall k | 0 <= k < j
      ensures after[k] == before[k]
    {
      AccountsForAt(sha, history, p, off, j, k);
      AccountsForAt(sha, history, p, off, j + 1, k);
    }
    IsAppended(before, after, AccountFor(sha, history, p, off, j));
  }

  lemma IsAppended<T>(before: seq<T>, after: seq<T>, x: T)
    requires |after| == |before| + 1 && after[|before|] == x
    requires forall k :: 0 <= k < |before| ==> after[k] == before[k]
    ensures after == before + [x]
  {
  }

  /** What the first `n` providers have to be for the loop to get past them. */
  ghost predicate AcceptableUpTo(sha: string -> string, ps: seq<Provider>, name: string, n: nat)
    requires n <= |ps|
  {
    && AtMostOne(ps, name, n)
    && (forall i :: 0 <= i < n && ps[i].name == name ==> GoodProvider(sha, ps[i], |ps[i].entries|))
  }

  /** Some provider among the first `n` is managed. */
  ghost predicate AnyManaged(ps: seq<Provider>, name: string, n: nat)
    requires n <= |ps|
  {
    exists j :: 0 <= j < n && ps[j].name == name
  }

  lemma AcceptStep(sha: string -> string, ps: seq<Provider>, name: string, i: nat)
    requires i < |ps| && AcceptableUpTo(sha, ps, name, i)
    ensures AcceptableUpTo(sha, ps, name, i + 1) <==>
            (ps[i].name == name ==> !AnyManaged(ps, name, i) && GoodProvider(sha, ps[i], |ps[i].entries|))
    ensures AcceptableUpTo(sha, ps, name, |ps|) ==> AcceptableUpTo(sha, ps, name, i + 1)
    ensures AnyManaged(ps, name, i + 1) <==> AnyManaged(ps, name, i) || ps[i].name == name
  {
  }

  lemma {:induction false} NoManagedProvider(sha: string -> string, ps: seq<Provider>, name: string, off: set<string>)
    requires IsHashFunction(sha) && !AnyManaged(ps, name, |ps|)
    ensures AccountsOf(sha, ps, name, off) == []
    decreases |ps|
  {
    if ps != [] {
      NoManagedProvider(sha, ps[..|ps| - 1], name, off);
    }
  }

  /** With at most one managed provider the accounts are those of that provider. */
  lemma {:induction false} OneManagedProvider(sha: string -> string, ps: seq<Provider>, name: string, off: set<string>, i: nat)
    requires IsHashFunction(sha) && i < |ps| && ps[i].name == name && AtMostOne(ps, name, |ps|)
    ensures AccountsOf(sha, ps, name, off) == AccountsFor(sha, AllIssues(sha, ps[..i]), ps[i], off, |ps[i].entries|)
    decreases |ps|
  {
    var n := |ps| - 1;
    var front := ps[..n];
    if i == n {
      NoManagedProvider(sha, front, name, off);
    } else {
      OneManagedProvider(sha, front, name, off, i);
      assert front[..i] == ps[..i] && front[i] == ps[i];
    }
  }

  lemma ProviderIssuesBases(sha: string -> string, p: Provider)
    requires IsHashFunction(sha)
    ensures forall k :: 0 <= k < |Issues(sha, p)| ==> IsBase(Issues(sha, p)[k])
  {
    BaseIsBase(sha, Kind(p), [p.baseURL]);
    forall j | 0 <= j < |p.entries|
      ensures IsBase(EntryBases(sha, p, |p.entries|)[j])
    {
      EntryBasesAt(sha, p, |p.entries|, j);
      EntryBaseIsBase(sha, p, p.entries[j]);
    }
  }

  lemma {:induction false} IssuesAreBases(sha: string -> string, ps: seq<Provider>)
    requires IsHashFunction(sha)
    ensures forall k :: 0 <= k < |AllIssues(sha, ps)| ==> IsBase(AllIssues(sha, ps)[k])
    decreases |ps|
  {
    if ps != [] {
      IssuesAreBases(sha, ps[..|ps| - 1]);
      ProviderIssuesBases(sha, ps[|ps| - 1]);
    }
  }

  /** Accepted configurations have good accounts: distinct keys, and distinct IDs for all of them. */
  lemma AcceptedAccountsAreGood(sha: string -> string, ps: seq<Provider>, name: string, off: set<string>)
    requires IsHashFunction(sha) && Acceptable(sha, ps, name)
    ensures GoodAccounts(AccountsOf(sha, ps, name, off))
  {
    if i :| 0 <= i < |ps| && ps[i].name == name {
      OneManagedProvider(sha, ps, name, off, i);
      IssuesAreBases(sha, ps[..i]);
      AccountsAreGood(sha, AllIssues(sha, ps[..i]), ps[i], off);
    } else {
      NoManagedProvider(sha, ps, name, off);
    }
  }

  lemma AccountsStep(sha: string -> string, ps: seq<Provider>, name: string, off: set<string>, i: nat)
    requires IsHashFunction(sha) && i < |ps|
    ensures AllIssues(sha, ps[..i + 1]) == AllIssues(sha, ps[..i]) + Issues(sha, ps[i])
    ensures AccountsOf(sha, ps[..i + 1], name, off) ==
            AccountsOf(sha, ps[..i], name, off) + Added(sha, AllIssues(sha, ps[..i]), ps[i], ps[i].name == name, off, |ps[i].entries|)
  {
    assert ps[..i + 1][..i] == ps[..i];
  }

  lemma LimitIsLast(sha: string -> string, ps: seq<Provider>, name: string, off: set<string>)
    requires IsHashFunction(sha) && AcceptableUpTo(sha, ps, name, |ps|)
    ensures |AccountsOf(sha, ps, name, off)| <= 1024 <==> Acceptable(sha, ps, name)
  {
    if i :| 0 <= i < |ps| && ps[i].name == name {
      OneManagedProvider(sha, ps, name, off, i);
      assert forall j :: 0 <= j < |ps| && ps[j].name == name ==> j == i;
    } else {
      NoManagedProvider(sha, ps, name, off);
    }
  }

  /** The loop accepts exactly the acceptable configurations. */
  method ReadAccounts(sha: string -> string, ps: seq<Provider>, name: string, off: set<string>)
    returns (ok: bool, accounts: seq<Account>)
    requires IsHashFunction(sha)
    ensures ok <==> Acceptable(sha, ps, name)
    ensures ok ==> accounts == AccountsOf(sha, ps, name, off) && GoodAccounts(accounts)
  {
    ok, accounts := ReadProviders(sha, ps, name, off);
    if !ok {
      return false, accounts;
    }
    LimitIsLast(sha, ps, name, off);
    if |accounts| > 1024 {
      return false, accounts;
    }
    AcceptedAccountsAreGood(sha, ps, name, off);
    return true, accounts;
  }

  /** The loop over the providers. */
  method ReadProviders(sha: string -> string, ps: seq<Provider>, name: string, off: set<string>)
    returns (ok: bool, accounts: seq<Account>)
    requires IsHashFunction(sha)
    ensures ok <==> AcceptableUpTo(sha, ps, name, |ps|)
    ensures ok ==> accounts == AccountsOf(sha, ps, name, off)
  {
    accounts := [];
    var counts := new Counts();
    var matches := 0;
    for i := 0 to |ps|
      invariant counts.Valid() && counts.issued == AllIssues(sha, ps[..i])
      invariant fresh(counts)
      invariant accounts == AccountsOf(sha, ps[..i], name, off)
      invariant AcceptableUpTo(sha, ps, name, i)
      invariant matches == if AnyManaged(ps, name, i) then 1 else 0
    {
      AcceptStep(sha, ps, name, i);
      var managed := ps[i].name == name;
      if managed {
        matches := matches + 1;
        if matches > 1 {
          return false, accounts;
        }
      }
      var added;
      ok, added := ReadProvider(sha, ps[i], managed, off, counts);
      if !ok {
        return false, accounts;
      }
      AccountsStep(sha, ps, name, off, i);
      accounts := accounts + added;
    }
    assert ps[..|ps|] == ps;
    return true, accounts;
  }
  // ---------------------------------------------------------------- durations

  const FALLBACK := 1800 * SECOND
  const AUTH_SUSPENSION := 900 * SECOND
  const RATE_FALLBACK := SECOND
  const TRANSIENT_FALLBACK := 30 * SECOND

  /** The text of a duration option and what Go's duration parser makes of it. */
  datatype DurationOption = DurationOption(text: string, parsed: Option<int>)

  /** `durationValue`: the default for an absent option, otherwise a duration of one second to 366
      days or an error. */
  function DurationValue(o: DurationOption, default_: int): (r: Option<int>)
    requires GoodDuration(default_)
    ensures r.Some? ==> GoodDuration(r.value) && r == (if o.text == "" then Some(default_) else o.parsed)
    ensures r.None? <==> o.text != "" && (o.parsed.None? || !GoodDuration(o.parsed.value))
  {
    if o.text == "" then Some(default_)
    else if o.parsed.None? || o.parsed.value < SECOND || o.parsed.value > LONGEST then None
    else o.parsed
  }

  // ---------------------------------------------------------------- the whole configuration

  const AllowedOptions := {"enabled", "priority", "cpa-config-path", "state-dir", "provider-name", "fallback-cooldown",
                           "auth-suspension", "rate-limit-fallback", "transient-fallback", "disabled-accounts"}

  /** The plugin's own options. `parsed` is that they are a mapping whose values have the right types;
      texts are trimmed, the provider name lower-cased, and the state directory expanded. */
  datatype Options = Options(parsed: bool, names: set<string>, fallback: DurationOption, authSuspension: DurationOption,
                             rateFallback: DurationOption, transientFallback: DurationOption,
                             providerName: string, disabled: seq<string>, stateDir: string)

  /** The host's file: whether it can be read and is a mapping, its providers, and the model names of
      the managed one. */
  datatype HostFile = HostFile(readable: bool, providers: seq<Provider>, models: set<string>)

  function ManagedName(o: Options): string {
    if o.providerName == "" then "opencode-zen" else o.providerName
  }

  const PREFIX := "openai-compatible-"

  function ProviderID(name: string): string {
    if PREFIX <= name then name else PREFIX + name
  }

  predicate IsNameChar(c: char) {
    'a' <= c <= 'z' || '0' <= c <= '9' || c == '_' || c == '-'
  }

  /** The pattern of a provider name. */
  predicate IsSafeName(s: string) {
    s != "" && s[0] != '_' && s[0] != '-' && forall i :: 0 <= i < |s| ==> IsNameChar(s[i])
  }

  /** The pattern of an account label. */
  predicate IsLabel(s: string) {
    |s| == 20 && s[..4] == "zen-" && forall i :: 4 <= i < 20 ==> IsHexDigit(s[i])
  }

  predicate GoodOption(o: DurationOption) {
    o.text == "" || (o.parsed.Some? && GoodDuration(o.parsed.value))
  }

  /** What a configuration has to be to be read without an error. */
  ghost predicate Accepted(sha: string -> string, o: Options, host: HostFile) {
    && o.parsed && o.names <= AllowedOptions
    && GoodOption(o.fallback) && GoodOption(o.authSuspension) && GoodOption(o.rateFallback) && GoodOption(o.transientFallback)
    && IsSafeName(ManagedName(o)) && (forall i :: 0 <= i < |o.disabled| ==> IsLabel(o.disabled[i]))
    && host.readable && Acceptable(sha, host.providers, ManagedName(o))
  }

  /** The four durations, in the order in which they are read. */
  method ReadTimes(o: Options, cfg: Configuration) returns (ok: bool, cfg': Configuration)
    ensures ok <==> GoodOption(o.fallback) && GoodOption(o.authSuspension) && GoodOption(o.rateFallback) && GoodOption(o.transientFallback)
    ensures ok ==> cfg' == cfg.(fallback := cfg'.fallback, authSuspension := cfg'.authSuspension,
                                rateFallback := cfg'.rateFallback, transientFallback := cfg'.transientFallback)
    ensures ok ==> && Some(cfg'.fallback) == DurationValue(o.fallback, FALLBACK)
                   && Some(cfg'.authSuspension) == DurationValue(o.authSuspension, AUTH_SUSPENSION)
                   && Some(cfg'.rateFallback) == DurationValue(o.rateFallback, RATE_FALLBACK)
                   && Some(cfg'.transientFallback) == DurationValue(o.transientFallback, TRANSIENT_FALLBACK)
  {
    cfg' := cfg;
    var d := DurationValue(o.fallback, FALLBACK);
    if d.None? {
      return false, cfg';
    }
    cfg' := cfg'.(fallback := d.value);
    d := DurationValue(o.authSuspension, AUTH_SUSPENSION);
    if d.None? {
      return false, cfg';
    }
    cfg' := cfg'.(authSuspension := d.value);
    d := DurationValue(o.rateFallback, RATE_FALLBACK);
    if d.None? {
      return false, cfg';
    }
    cfg' := cfg'.(rateFallback := d.value);
    d := DurationValue(o.transientFallback, TRANSIENT_FALLBACK);
    if d.None? {
      return false, cfg';
    }
    return true, cfg'.(transientFallback := d.value);
  }

  /** The labels of the accounts that the plugin disables. */
  method ReadDisabled(labels: seq<string>) returns (ok: bool, off: set<string>)
    ensures ok <==> forall i :: 0 <= i < |labels| ==> IsLabel(labels[i])
    ensures ok ==> off == set s | s in labels
  {
    off := {};
    for i := 0 to |labels|
      invariant forall j :: 0 <= j < i ==> IsLabel(labels[j])
      invariant off == set s | s in labels[..i]
    {
      if !IsLabel(labels[i]) {
        return false, off;
      }
      off := off + {labels[i]};
    }
    assert labels[..|labels|] == labels;
    return true, off;
  }

  /** `readConfiguration`, in the order of the source. What it returns together with an error is a partial
      configuration; without an error it is one that the scheduler can rely on. */
  method ReadConfiguration(sha: string -> string, o: Options, host: HostFile) returns (good: bool, cfg: Configuration)
    requires IsHashFunction(sha)
    ensures good <==> Accepted(sha, o, host)
    ensures good ==> GoodConfiguration(cfg)
    ensures good ==> cfg.accounts == AccountsOf(sha, host.providers, ManagedName(o), set s | s in o.disabled)
    ensures good ==> cfg.stateDir == o.stateDir && cfg.models == host.models
    ensures good ==> cfg.provider == if o.providerName == "" then "openai-compatible-opencode-zen"
                                     else if "openai-compatible-" <= o.providerName then o.providerName
                                     else "openai-compatible-" + o.providerName
    ensures good ==> && cfg.fallback == (if o.fallback.text == "" then 30 * 60 * 1000000000 else o.fallback.parsed.value)
                     && cfg.authSuspension == (if o.authSuspension.text == "" then 15 * 60 * 1000000000 else o.authSuspension.parsed.value)
                     && cfg.rateFallback == (if o.rateFallback.text == "" then 1000000000 else o.rateFallback.parsed.value)
                     && cfg.transientFallback == (if o.transientFallback.text == "" then 30 * 1000000000 else o.transientFallback.parsed.value)
  {
    cfg := Configuration("", "", [], {}, 0, 0, 0, 0);
    if !o.parsed || !(o.names <= AllowedOptions) {
      return false, cfg;
    }
    good, cfg := ReadTimes(o, cfg);
    if !good {
      return;
    }
    good, cfg := ReadNamesAndAccounts(sha, o, host, cfg);
  }

  /** The rest of `readConfiguration`, after the durations. */
  method ReadNamesAndAccounts(sha: string -> string, o: Options, host: HostFile, times: Configuration) returns (good: bool, cfg: Configuration)
    requires IsHashFunction(sha)
    requires GoodDuration(times.fallback) && GoodDuration(times.authSuspension)
    requires GoodDuration(times.rateFallback) && GoodDuration(times.transientFallback)
    ensures good <==> IsSafeName(ManagedName(o)) && (forall i :: 0 <= i < |o.disabled| ==> IsLabel(o.disabled[i]))
                      && host.readable && Acceptable(sha, host.providers, ManagedName(o))
    ensures good ==> GoodConfiguration(cfg)
    ensures good ==> cfg.accounts == AccountsOf(sha, host.providers, ManagedName(o), set s | s in o.disabled)
    ensures good ==> cfg.provider == ProviderID(ManagedName(o)) && cfg.stateDir == o.stateDir && cfg.models == host.models
    ensures good ==> cfg == times.(provider := cfg.provider, stateDir := cfg.stateDir, models := cfg.models, accounts := cfg.accounts)
  {
    cfg := times;
    var name := ManagedName(o);
    if !IsSafeName(name) {
      return false, cfg;
    }
    cfg := cfg.(provider := ProviderID(name));
    var off;
    good, off := ReadDisabled(o.disabled);
    if !good || !host.readable {
      return false, cfg;
    }
    cfg := cfg.(stateDir := o.stateDir, models := host.models);
    var accounts;
    good, accounts := ReadAccounts(sha, host.providers, name, off);
    cfg := cfg.(accounts := accounts);
  }
}
