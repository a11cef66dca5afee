/** The configuration as the scheduler receives it: src/config.go:25-46. */
module Accounts {
  import opened Basics

  /** One key of the managed provider; `name` is its safe `zen-` label. The proxy label only serves the status report. */
  datatype Account = Account(fingerprint: string, authID: string, name: string, disabled: bool)

  datatype Configuration = Configuration(
    stateDir: string, provider: string, accounts: seq<Account>, models: set<string>,
    fallback: int, authSuspension: int, rateFallback: int, transientFallback: int)

  /** What the account-building loop promises (proved in module ConfigurationReader). */
  ghost predicate GoodAccounts(accounts: seq<Account>) {
    && |accounts| <= 1024
    && (forall i :: 0 <= i < |accounts| ==> IsHash(accounts[i].fingerprint))
    && (forall i, j :: 0 <= i < j < |accounts| ==> accounts[i].fingerprint != accounts[j].fingerprint)
    && (forall i, j :: 0 <= i < j < |accounts| && accounts[i].authID != "" ==> accounts[i].authID != accounts[j].authID)
    && (forall i :: 0 <= i < |accounts| && !accounts[i].disabled ==> accounts[i].authID != "")
  }

  predicate GoodDuration(d: int) {
    SECOND <= d <= LONGEST
  }

  ghost predicate GoodConfiguration(cfg: Configuration) {
    && GoodAccounts(cfg.accounts)
    && GoodDuration(cfg.fallback) && GoodDuration(cfg.authSuspension)
    && GoodDuration(cfg.rateFallback) && GoodDuration(cfg.transientFallback)
  }

  /** The two durations that bound what a failure blocks are the same. */
  predicate SameDurations(cfg: Configuration, d: Configuration) {
    cfg.authSuspension == d.authSuspension && cfg.transientFallback == d.transientFallback
  }

  /** The fingerprints of the configured keys. */
  function Fingerprints(accounts: seq<Account>): set<string> {
    set i | 0 <= i < |accounts| :: accounts[i].fingerprint
  }

  lemma FingerprintsAppend(accounts: seq<Account>, a: Account)
    ensures Fingerprints(accounts + [a]) == Fingerprints(accounts) + {a.fingerprint}
  {
    var all := accounts + [a];
    assert all[|accounts|] == a && forall i :: 0 <= i < |accounts| ==> all[i] == accounts[i];
    forall h | h in Fingerprints(accounts) + {a.fingerprint}
      ensures h in Fingerprints(all)
    {
      if h == a.fingerprint {
        assert all[|accounts|].fingerprint == h;
      } else {
        var i :| 0 <= i < |accounts| && accounts[i].fingerprint == h;
        assert all[i].fingerprint == h;
      }
    }
  }

  /** Position of the first account with a fingerprint, or the number of accounts. */
  function IndexOf(accounts: seq<Account>, hash: string): (i: nat)
    ensures i <= |accounts|
  {
    IndexFrom(accounts, hash, 0)
  }

  function IndexFrom(accounts: seq<Account>, hash: string, start: nat): (i: nat)
    requires start <= |accounts|
    ensures start <= i <= |accounts|
    decreases |accounts| - start
  {
    if start == |accounts| || accounts[start].fingerprint == hash then start
    else IndexFrom(accounts, hash, start + 1)
  }

  lemma {:induction false} IndexFromIsFirst(accounts: seq<Account>, hash: string, start: nat)
    requires start <= |accounts|
    ensures var i := IndexFrom(accounts, hash, start);
            && (i < |accounts| ==> accounts[i].fingerprint == hash)
            && (forall j :: start <= j < i ==> accounts[j].fingerprint != hash)
    decreases |accounts| - start
  {
    if start < |accounts| && accounts[start].fingerprint != hash {
      IndexFromIsFirst(accounts, hash, start + 1);
    }
  }

  /** The lookup finds the first account with the fingerprint, exactly when there is one. */
  lemma IndexOfIsFirst(accounts: seq<Account>, hash: string)
    ensures var i := IndexOf(accounts, hash);
            && (i < |accounts| ==> accounts[i].fingerprint == hash)
            && (forall j :: 0 <= j < i ==> accounts[j].fingerprint != hash)
            && (i < |accounts| <==> hash in Fingerprints(accounts))
  {
    IndexFromIsFirst(accounts, hash, 0);
  }

  /** With distinct fingerprints the lookup inverts the indexing. */
  lemma IndexOfUnique(accounts: seq<Account>, i: nat)
    requires GoodAccounts(accounts) && i < |accounts|
    ensures IndexOf(accounts, accounts[i].fingerprint) == i
  {
    IndexFromIsFirst(accounts, accounts[i].fingerprint, 0);
  }
}
