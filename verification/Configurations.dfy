/** What a configuration has to be to be accepted, and what its accounts are, in the fields of the two files
    alone. */
module Configurations {
  import opened Basics
  import opened Accounts
  import opened AuthIDs
  import opened ConfigurationReader

  // ---------------------------------------------------------------- acceptance

  /** `s` is `base`, with any number of slashes behind it. */
  predicate IsSlashed(s: string, base: string) {
    |base| <= |s| && s[..|base|] == base && forall i :: |base| <= i < |s| ==> s[i] == '/'
  }

  lemma {:induction false} TrimExactly(s: string, base: string)
    requires base != "" && base[|base| - 1] != '/'
    ensures TrimSlashes(s) == base <==> IsSlashed(s, base)
    decreases |s|
  {
    if s != "" && s[|s| - 1] == '/' {
      var front := s[..|s| - 1];
      TrimExactly(front, base);
      if IsSlashed(s, base) {
        assert |s| > |base|;
        assert front[..|base|] == s[..|base|];
      }
      if IsSlashed(front, base) {
        assert s[..|base|] == front[..|base|];
      }
    } else if s == base {
      assert s[..|base|] == base;
    } else if IsSlashed(s, base) {
      assert s[..|base|] == base;
    }
  }

  /** The text is meant to be replaced from the environment. */
  predicate IsPlaceholder(s: string) {
    exists i :: 0 <= i < |s| - 1 && s[i] == '$' && s[i + 1] == '{'
  }

  /** An entry with a literal key, and a literal proxy that is valid. */
  predicate IsLiteral(e: Entry) {
    e.key != "" && !IsPlaceholder(e.key) && !IsPlaceholder(e.proxy) && e.proxyValid
  }

  ghost predicate IsZenProvider(sha: string -> string, p: Provider) {
    && IsSlashed(p.baseURL, "https://opencode.ai/zen/v1") && |p.entries| <= 1024
    && (forall j :: 0 <= j < |p.entries| ==> IsLiteral(p.entries[j]))
    && (forall j, k :: 0 <= j < k < |p.entries| ==> sha(p.entries[j].key) != sha(p.entries[k].key))
  }

  /** Providers are accepted exactly when at most one has the managed name, and that is at Zen's address, with
      at most 1024 literal entries and no key twice. */
  lemma AcceptableExactly(sha: string -> string, ps: seq<Provider>, name: string)
    ensures Acceptable(sha, ps, name) <==>
            && (forall i, j :: 0 <= i < j < |ps| && ps[i].name == name ==> ps[j].name != name)
            && (forall i :: 0 <= i < |ps| && ps[i].name == name ==> IsZenProvider(sha, ps[i]))
  {
    forall i | 0 <= i < |ps|
      ensures IsZenProvider(sha, ps[i]) <==> GoodProvider(sha, ps[i], |ps[i].entries|) && |ps[i].entries| <= 1024
    {
      ZenProviderExactly(sha, ps[i]);
    }
  }

  lemma ZenProviderExactly(sha: string -> string, p: Provider)
    ensures IsZenProvider(sha, p) <==> GoodProvider(sha, p, |p.entries|) && |p.entries| <= 1024
  {
    ZenHasNoSlash();
    TrimExactly(p.baseURL, "https://opencode.ai/zen/v1");
    forall j | 0 <= j < |p.entries|
      ensures IsLiteral(p.entries[j]) <==> GoodEntry(p.entries[j])
    {
    }
  }

  lemma ZenHasNoSlash()
    ensures var base := "https://opencode.ai/zen/v1"; base != "" && base[|base| - 1] != '/' && ZEN == base
  {
  }

  /** The names of options that may be given. */
  predicate IsOption(s: string) {
    || s == "enabled" || s == "priority" || s == "cpa-config-path" || s == "state-dir" || s == "provider-name"
    || s == "fallback-cooldown" || s == "auth-suspension" || s == "rate-limit-fallback" || s == "transient-fallback"
    || s == "disabled-accounts"
  }

  /** Absent, or a duration from one second to 366 days. */
  predicate IsDuration(o: DurationOption) {
    o.text == "" || (o.parsed.Some? && 1000000000 <= o.parsed.value <= 366 * 86400 * 1000000000)
  }

  predicate IsLowerOrDigit(c: char) {
    ('a' <= c && c <= 'z') || ('0' <= c && c <= '9')
  }

  /** A provider name: lower-case letters, digits, dashes and underscores, not starting with one of these two. */
  predicate IsName(s: string) {
    |s| > 0 && IsLowerOrDigit(s[0]) && forall i :: 0 < i < |s| ==> IsLowerOrDigit(s[i]) || s[i] == '-' || s[i] == '_'
  }

  /** An account label: "zen-" and 16 lower-case hex digits. */
  predicate IsAccountLabel(s: string) {
    |s| == 20 && s[..4] == "zen-" && forall i :: 4 <= i < 20 ==> ('0' <= s[i] && s[i] <= '9') || ('a' <= s[i] && s[i] <= 'f')
  }

  /** What is read without an error, in the fields of the two files. */
  lemma AcceptedExactly(sha: string -> string, o: Options, host: HostFile, name: string)
    requires name == if o.providerName == "" then "opencode-zen" else o.providerName
    ensures Accepted(sha, o, host) <==>
            && o.parsed && host.readable && (forall s :: s in o.names ==> IsOption(s))
            && IsDuration(o.fallback) && IsDuration(o.authSuspension) && IsDuration(o.rateFallback) && IsDuration(o.transientFallback)
            && IsName(name) && (forall i :: 0 <= i < |o.disabled| ==> IsAccountLabel(o.disabled[i]))
            && (forall i, j :: 0 <= i < j < |host.providers| && host.providers[i].name == name ==> host.providers[j].name != name)
            && (forall i :: 0 <= i < |host.providers| && host.providers[i].name == name ==> IsZenProvider(sha, host.providers[i]))
  {
    AcceptableExactly(sha, host.providers, name);
    OptionsExactly(o.names);
    NameExactly(name);
    forall i | 0 <= i < |o.disabled|
      ensures IsLabel(o.disabled[i]) <==> IsAccountLabel(o.disabled[i])
    {
    }
  }

  lemma OptionsExactly(names: set<string>)
    ensures names <= AllowedOptions <==> forall s :: s in names ==> IsOption(s)
  {
  }

  lemma NameExactly(s: string)
    ensures IsSafeName(s) <==> IsName(s)
  {
  }

  // ---------------------------------------------------------------- accounts

  /** What is hashed for an ID: kind and parts, with a zero byte before each part. */
  lemma HashInputExactly(kind: string, a: string, b: string, c: string)
    ensures HashInput(kind, [a]) == kind + "\0" + a
    ensures HashInput(kind, [a, b, c]) == kind + "\0" + a + "\0" + b + "\0" + c
  {
    assert [a, b, c][..2] == [a, b] && [a, b][..1] == [a] && [a][..0] == [];
    assert HashInput(kind, []) == kind;
    assert HashInput(kind, [a]) == kind + "\0" + a;
    assert HashInput(kind, [a, b]) == HashInput(kind, [a]) + "\0" + b;
  }

  /** The base of the ID of an entry: the kind of its provider, and twelve digits of a hash over kind, key, address
      and proxy. */
  ghost predicate IsEntryBase(sha: string -> string, p: Provider, e: Entry, base: string) {
    var kind := "openai-compatibility:" + p.name;
    var digits := sha(kind + "\0" + e.key + "\0" + p.baseURL + "\0" + e.proxy);
    |digits| >= 12 && base == kind + ":" + digits[..12]
  }

  lemma EntryBaseExactly(sha: string -> string, p: Provider, e: Entry)
    requires IsHashFunction(sha)
    ensures IsEntryBase(sha, p, e, EntryBase(sha, p, e))
  {
    HashInputExactly(Kind(p), e.key, p.baseURL, e.proxy);
    BaseIsBase(sha, Kind(p), [e.key, p.baseURL, e.proxy]);
  }

  /** What a provider issues: one ID for each entry, in their order; one for a provider without entries; none for
      one that is switched off. */
  lemma IssuesExactly(sha: string -> string, p: Provider, j: nat)
    requires IsHashFunction(sha)
    ensures |Issues(sha, p)| == if p.off then 0 else if |p.entries| == 0 then 1 else |p.entries|
    ensures !p.off && j < |p.entries| ==> IsEntryBase(sha, p, p.entries[j], Issues(sha, p)[j])
    ensures !p.off && |p.entries| == 0 ==>
              var kind := "openai-compatibility:" + p.name;
              var digits := sha(kind + "\0" + p.baseURL);
              |digits| >= 12 && Issues(sha, p)[0] == kind + ":" + digits[..12]
  {
    if j < |p.entries| {
      EntryBaseExactly(sha, p, p.entries[j]);
      EntryBasesAt(sha, p, |p.entries|, j);
    }
    HashInputExactly(Kind(p), p.baseURL, "", "");
    BaseIsBase(sha, Kind(p), [p.baseURL]);
  }

  /** The account of an entry. Its ID is the base if that was not issued before, and otherwise the base, a dash and
      how often it was. */
  ghost predicate IsAccountOf(sha: string -> string, p: Provider, e: Entry, issued: seq<string>, off: set<string>, a: Account) {
    && a.fingerprint == sha(e.key)
    && |sha(e.key)| >= 16 && a.name == "zen-" + sha(e.key)[..16]
    && (a.disabled <==> p.off || a.name in off)
    && (p.off ==> a.authID == "")
    && (!p.off ==> exists base :: IsEntryBase(sha, p, e, base) && a.authID == IdAfter(issued, base))
  }

  /** What was issued before entry `j` of a provider that is switched on: everything of the providers before
      it, and its own entries before that one. */
  ghost function IssuedBefore(sha: string -> string, ps: seq<Provider>, i: nat, j: nat): seq<string>
    requires IsHashFunction(sha) && i < |ps| && j <= |ps[i].entries|
  {
    AllIssues(sha, ps[..i]) + EntryBases(sha, ps[i], j)
  }

  /** The accounts are those of the managed provider, one for each entry, in their order; a label that the plugin
      disables, or a provider that is off, disables them. */
  lemma AccountsExactly(sha: string -> string, ps: seq<Provider>, name: string, off: set<string>, i: nat)
    requires IsHashFunction(sha) && Acceptable(sha, ps, name) && i < |ps| && ps[i].name == name
    ensures var accounts := AccountsOf(sha, ps, name, off);
            && |accounts| == |ps[i].entries|
            && forall j :: 0 <= j < |accounts| ==> IsAccountOf(sha, ps[i], ps[i].entries[j], IssuedBefore(sha, ps, i, j), off, accounts[j])
  {
    OneManagedProvider(sha, ps, name, off, i);
    var p := ps[i];
    forall j | 0 <= j < |p.entries|
      ensures IsAccountOf(sha, p, p.entries[j], IssuedBefore(sha, ps, i, j), off, AccountsOf(sha, ps, name, off)[j])
    {
      AccountsForAt(sha, AllIssues(sha, ps[..i]), p, off, |p.entries|, j);
      AccountExactly(sha, AllIssues(sha, ps[..i]), p, off, j);
    }
  }

  lemma AccountExactly(sha: string -> string, history: seq<string>, p: Provider, off: set<string>, j: nat)
    requires IsHashFunction(sha) && j < |p.entries|
    ensures IsAccountOf(sha, p, p.entries[j], history + EntryBases(sha, p, j), off, AccountFor(sha, history, p, off, j))
  {
    EntryBaseExactly(sha, p, p.entries[j]);
    assert IsHash(sha(p.entries[j].key));
  }

  /** Without a managed provider there are no accounts. */
  lemma NoAccounts(sha: string -> string, ps: seq<Provider>, name: string, off: set<string>)
    requires IsHashFunction(sha) && forall i :: 0 <= i < |ps| ==> ps[i].name != name
    ensures AccountsOf(sha, ps, name, off) == []
  {
    NoManagedProvider(sha, ps, name, off);
  }
}
