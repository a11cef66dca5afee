/** What a response means, in its fields alone: which class its status and labels give it, and which resets it
    announces, where and in which form. */
module Responses {
  import opened Basics
  import opened Failures
  import opened Classifier
  import opened Accounts
  import opened Scheduler
  import opened Observations

  // ---------------------------------------------------------------- labels

  /** The field is a text; `t` is its trimmed lower-case form. */
  predicate HasText(m: Fields, name: string, t: string) {
    name in m && m[name].Str? && m[name].token.normal == t
  }

  /** The field is an object; `e` are its fields. */
  predicate HasObject(m: Fields, name: string, e: Fields) {
    name in m && m[name].Obj? && m[name].fields == e
  }

  predicate LacksText(m: Fields, name: string) {
    name !in m || !m[name].Str? || m[name].token.normal == ""
  }

  /** The label of the error object, or else the one at the top. */
  ghost predicate IsLabel(root: Fields, name: string, t: string) {
    || (t != "" && exists e :: HasObject(root, "error", e) && HasText(e, name, t))
    || ((forall e :: HasObject(root, "error", e) ==> LacksText(e, name))
        && (HasText(root, name, t) || (t == "" && LacksText(root, name))))
  }

  /** The message of the error object, or else the one at the top, or else an error that is itself a text. */
  ghost predicate IsMessage(root: Fields, t: string) {
    || (t != "" && IsLabel(root, "message", t))
    || (IsLabel(root, "message", "") && (HasText(root, "error", t) || (t == "" && LacksText(root, "error"))))
  }

  lemma LabelExactly(root: Fields, name: string, t: string)
    ensures IsLabel(root, name, t) <==> t == Label(root, name)
  {
    if "error" in root && root["error"].Obj? {
      assert HasObject(root, "error", root["error"].fields);
    }
  }

  lemma MessageExactly(root: Fields, t: string)
    ensures IsMessage(root, t) <==> t == Message(root)
  {
    LabelExactly(root, "message", t);
    LabelExactly(root, "message", "");
  }

  // ---------------------------------------------------------------- sentences

  predicate SaysAt(s: string, word: string, i: int) {
    0 <= i <= |s| - |word| && s[i..i + |word|] == word
  }

  /** The word occurs in the text. */
  ghost predicate Says(s: string, word: string) {
    exists i :: SaysAt(s, word, i)
  }

  lemma SaysAtStart(s: string, word: string)
    requires |word| <= |s|
    ensures SaysAt(s, word, 0) <==> s[..|word|] == word
  {
  }

  lemma SaysTail(s: string, word: string)
    requires s != [] && |word| <= |s| && s[..|word|] != word
    ensures Says(s, word) <==> Says(s[1..], word)
  {
    if i :| SaysAt(s[1..], word, i) {
      assert s[i + 1..i + 1 + |word|] == s[1..][i..i + |word|];
      assert SaysAt(s, word, i + 1);
    }
    if i :| SaysAt(s, word, i) {
      SaysAtStart(s, word);
      if i > 0 {
        assert s[1..][i - 1..i - 1 + |word|] == s[i..i + |word|];
        assert SaysAt(s[1..], word, i - 1);
      }
    }
  }

  lemma {:induction false} ContainsExactly(s: string, word: string)
    ensures Contains(s, word) <==> Says(s, word)
    decreases |s|
  {
    if |word| <= |s| {
      if s[..|word|] == word {
        assert SaysAt(s, word, 0);
      } else if s != [] {
        SaysTail(s, word);
        ContainsExactly(s[1..], word);
      }
    }
  }

  /** `t` is `s` with blanks for its dashes and underscores. */
  predicate IsSpaced(s: string, t: string) {
    |t| == |s| && forall i :: 0 <= i < |s| ==> t[i] == (if s[i] == '-' || s[i] == '_' then ' ' else s[i])
  }

  /** A sentence about a quota that is used up, and not about a rate. */
  ghost predicate IsQuotaSentence(s: string, spaced: string) {
    && (Says(s, "quota") || Says(s, "usage limit"))
    && (Says(s, "exhausted") || Says(s, "exceeded") || Says(s, "depleted") || Says(s, "reached"))
    && !Says(spaced, "rate limit") && !Says(spaced, "per minute") && !Says(spaced, "per second") && !Says(spaced, "concurren")
  }

  lemma SentenceExactly(s: string, spaced: string)
    requires IsSpaced(s, spaced)
    ensures IsExplicitQuota(s) <==> IsQuotaSentence(s, spaced)
  {
    assert spaced == Spaced(s);
    ContainsExactly(s, "quota");
    ContainsExactly(s, "usage limit");
    ContainsExactly(s, "exhausted");
    ContainsExactly(s, "exceeded");
    ContainsExactly(s, "depleted");
    ContainsExactly(s, "reached");
    ContainsExactly(spaced, "rate limit");
    ContainsExactly(spaced, "per minute");
    ContainsExactly(spaced, "per second");
    ContainsExactly(spaced, "concurren");
  }

  // ---------------------------------------------------------------- the decision tree

  /** Zen's own error types for used-up credits and limits. */
  predicate IsZenType(t: string) {
    t == "creditserror" || t == "monthlylimiterror" || t == "userlimiterror" || t == "freeusagelimiterror" || t == "blackusagelimiterror"
  }

  predicate IsRate(t: string) {
    || t == "ratelimiterror" || t == "rate_limit_error" || t == "rate_limit_exceeded"
    || t == "requests_per_minute" || t == "tokens_per_minute" || t == "concurrency_limit_exceeded"
  }

  predicate IsQuota(t: string) {
    || t == "insufficient_quota" || t == "quota_exceeded" || t == "quota_exhausted"
    || t == "usage_limit_exceeded" || t == "usage_limit_reached"
  }

  lemma LabelSets(t: string)
    ensures IsZenQuotaType(t) <==> IsZenType(t)
    ensures IsRateLabel(t) <==> IsRate(t)
    ensures IsQuotaLabel(t) <==> IsQuota(t)
  {
  }

  /** A Go error, which this pool does not count. */
  predicate IsForeign(typ: string, code: string) {
    typ == "gousagelimiterror" || code == "gousagelimiterror"
  }

  /** The class by status, for all but the answers that a label decides. */
  lemma KindByStatus(r: Response, observed: Time, fallback: int, typ: string, code: string)
    requires IsLabel(r.root, "type", typ) && IsLabel(r.root, "code", code)
    ensures var kind := Classified(r, observed, fallback).kind;
            && (200 <= r.status < 300 ==> kind == Success)
            && (!(200 <= r.status < 300) && IsForeign(typ, code) ==> kind == Failure)
            && (!IsForeign(typ, code) && (r.status == 403 || (r.status == 401 && !IsZenType(typ))) ==> kind == Auth)
            && (!IsForeign(typ, code) && (r.status >= 500 || r.status == 0) ==> kind == Transient)
            && ((!IsForeign(typ, code) && !(200 <= r.status < 300) && r.status != 0 && r.status < 500 && r.status !in {401, 402, 403, 429})
                ==> kind == Failure)
            && (!IsForeign(typ, code) && r.status == 402 && !IsZenType(typ) ==> kind == Failure)
  {
    LabelExactly(r.root, "type", typ);
    LabelExactly(r.root, "code", code);
    LabelSets(typ);
  }

  /** Zen's own types at 401, 402 and 429 are quota. */
  lemma ZenTypesAreQuota(r: Response, observed: Time, fallback: int, typ: string, code: string)
    requires IsLabel(r.root, "type", typ) && IsLabel(r.root, "code", code) && !IsForeign(typ, code)
    requires IsZenType(typ) && (r.status == 401 || r.status == 402 || r.status == 429)
    ensures Classified(r, observed, fallback).kind == Quota
  {
    LabelExactly(r.root, "type", typ);
    LabelExactly(r.root, "code", code);
    LabelSets(typ);
  }

  /** Every other 429: a rate label makes it a rate limit, also beside a quota label; else a quota label or an
      explicit sentence makes it quota; and anything else is a rate limit. */
  lemma KindOf429(r: Response, observed: Time, fallback: int, typ: string, code: string, message: string, spaced: string)
    requires IsLabel(r.root, "type", typ) && IsLabel(r.root, "code", code) && IsMessage(r.root, message) && IsSpaced(message, spaced)
    requires r.status == 429 && !IsForeign(typ, code) && !IsZenType(typ)
    ensures var kind := Classified(r, observed, fallback).kind;
            && (IsRate(typ) || IsRate(code) ==> kind == RateLimit)
            && (!IsRate(typ) && !IsRate(code) ==>
                  kind == if IsQuota(typ) || IsQuota(code) || IsQuotaSentence(message, spaced) then Quota else RateLimit)
  {
    LabelExactly(r.root, "type", typ);
    LabelExactly(r.root, "code", code);
    MessageExactly(r.root, message);
    SentenceExactly(message, spaced);
    LabelSets(typ);
    LabelSets(code);
  }

  // ---------------------------------------------------------------- resets

  /** A number, given as such or as a text. */
  predicate HasNumber(v: Json, x: real) {
    v == Num(Some(Finite(x))) || (v.Str? && v.token.number == Some(Finite(x)))
  }

  predicate HasNoNumber(v: Json) {
    match v
    case Num(n) => n == None
    case Str(t) => t.number == None
    case _ => true
  }

  /** `t` is what `v` announces as a wait from `now`: a positive number of seconds or a positive duration, of at
      most 366 days. */
  ghost predicate IsWait(v: Json, now: Time, t: Time) {
    || (exists x: real :: HasNumber(v, x) && 0.0 < x <= 366.0 * 86400.0 && t == now + (x * 1000000000.0).Floor)
    || (v.Str? && HasNoNumber(v) && v.token.duration.Some? && 0 < v.token.duration.value <= 366 * 86400 * 1000000000
        && t == now + v.token.duration.value)
  }

  lemma RelativeExactly(v: Json, now: Time, t: Time)
    ensures RelativeReset(v, now) == Some(t) <==> IsWait(v, now, t)
  {
    if RelativeReset(v, now) == Some(t) && Seconds(v).Some? {
      var x := Seconds(v).value.value;
      assert HasNumber(v, x);
    }
  }

  /** `t` is the instant of a date, or of a Unix time in seconds or in milliseconds. */
  ghost predicate IsInstant(v: Json, t: Time) {
    || (v.Str? && v.token.instant != 0 && t == v.token.instant)
    || (!(v.Str? && v.token.instant != 0)
        && exists x: real ::
             && HasNumber(v, x)
             && var seconds := if x > 1000000000000.0 then x / 1000.0 else x;
             && 1000000000.0 <= seconds < 100000000000.0
             && t == (62135596800 + seconds.Floor) * 1000000000 + ((seconds - seconds.Floor as real) * 1000000000.0).Floor)
  }

  lemma AbsoluteExactly(v: Json, now: Time, t: Time)
    ensures AbsoluteReset(v, now) == Some(t) <==> IsInstant(v, t) && now < t <= now + 366 * 86400 * 1000000000 && t != 0
  {
    if AbsoluteReset(v, now) == Some(t) && !(v.Str? && v.token.instant != 0) {
      var x := Seconds(v).value.value;
      assert HasNumber(v, x);
    }
  }

  /** The amounts of a unit, added up. */
  function Amount(parts: seq<Part>, unit: char): real {
    if parts == [] then 0.0
    else (if parts[0].unit == unit && parts[0].amount.Finite? then parts[0].amount.value else 0.0) + Amount(parts[1..], unit)
  }

  lemma {:induction false} AmountSnoc(parts: seq<Part>, p: Part, unit: char)
    ensures Amount(parts + [p], unit) == Amount(parts, unit) + Amount([p], unit)
  {
    if parts != [] {
      AmountSnoc(parts[1..], p, unit);
      assert (parts + [p])[1..] == parts[1..] + [p];
    } else {
      assert parts + [p] == [p];
    }
  }

  /** A sentence such as "1 hour 30 minutes" names the sum of its parts, in seconds. */
  lemma {:induction false} SentenceAddsUp(parts: seq<Part>)
    requires forall i :: 0 <= i < |parts| ==> parts[i].amount.Finite? && parts[i].unit in {'s', 'm', 'h', 'd'}
    ensures Total(parts) ==
            Finite(Amount(parts, 's') + 60.0 * Amount(parts, 'm') + 3600.0 * Amount(parts, 'h') + 86400.0 * Amount(parts, 'd'))
  {
    if parts != [] {
      var front, last := parts[..|parts| - 1], parts[|parts| - 1];
      SentenceAddsUp(front);
      assert parts == front + [last];
      AmountSnoc(front, last, 's');
      AmountSnoc(front, last, 'm');
      AmountSnoc(front, last, 'h');
      AmountSnoc(front, last, 'd');
    }
  }

  // ---------------------------------------------------------------- where resets are looked for

  /** The four scopes of a body: itself, its error, its metadata, and the metadata of its error. */
  ghost predicate IsScope(root: Fields, m: Fields) {
    || m == root
    || HasObject(root, "error", m)
    || HasObject(root, "metadata", m)
    || (exists e :: HasObject(root, "error", e) && HasObject(e, "metadata", m))
  }

  predicate IsDurationName(name: string) {
    name == "retry_after" || name == "retryAfter" || name == "reset_in" || name == "resetIn" || name == "reset_after" || name == "resetAfter"
  }

  predicate IsTimestampName(name: string) {
    name == "reset_at" || name == "resetAt" || name == "resets_at" || name == "reset_time" || name == "resetTime" || name == "reset_timestamp"
  }

  /** The header announces `t`: a wait, or else a date. */
  ghost predicate HeaderSays(header: Token, now: Time, t: Time) {
    && header.raw != ""
    && (IsWait(Str(header), now, t)
        || ((forall u :: !IsWait(Str(header), now, u)) && AbsoluteReset(Str(header), now) == Some(t)))
  }

  /** The scope announces `t` in a field for waits, in a field for instants, or, for quota, in its message. */
  ghost predicate ScopeSays(kind: Kind, m: Fields, now: Time, t: Time, source: Source) {
    || (source == BodyDuration && exists name :: IsDurationName(name) && name in m && IsWait(m[name], now, t))
    || (source == BodyTimestamp && exists name :: IsTimestampName(name) && name in m && AbsoluteReset(m[name], now) == Some(t))
    || (source == BodyMessage && kind == Quota && "message" in m && m["message"].Str? && m["message"].token.raw != ""
        && m["message"].token.retry.Some? && IsWait(Num(Some(Total(m["message"].token.retry.value))), now, t))
  }

  /** The response announces `t`. */
  ghost predicate Announces(kind: Kind, header: Token, root: Fields, now: Time, t: Time, source: Source) {
    || (source == RetryAfterHeader && HeaderSays(header, now, t))
    || (exists m :: IsScope(root, m) && ScopeSays(kind, m, now, t, source))
  }

  lemma {:induction false} DurationSignalsExactly(m: Fields, names: seq<string>, now: Time, s: Signal)
    ensures s in DurationSignals(m, names, now) <==>
            s.source == BodyDuration && exists i :: 0 <= i < |names| && names[i] in m && RelativeReset(m[names[i]], now) == Some(s.until)
  {
    if names != [] {
      var n := |names| - 1;
      DurationSignalsExactly(m, names[..n], now, s);
      assert forall i :: 0 <= i < n ==> names[..n][i] == names[i];
    }
  }

  lemma {:induction false} TimestampSignalsExactly(m: Fields, names: seq<string>, now: Time, s: Signal)
    ensures s in TimestampSignals(m, names, now) <==>
            s.source == BodyTimestamp && exists i :: 0 <= i < |names| && names[i] in m && AbsoluteReset(m[names[i]], now) == Some(s.until)
  {
    if names != [] {
      var n := |names| - 1;
      TimestampSignalsExactly(m, names[..n], now, s);
      assert forall i :: 0 <= i < n ==> names[..n][i] == names[i];
    }
  }

  lemma NamesExactly(name: string)
    ensures IsDurationName(name) <==> exists i :: 0 <= i < |DurationNames| && DurationNames[i] == name
    ensures IsTimestampName(name) <==> exists i :: 0 <= i < |TimestampNames| && TimestampNames[i] == name
  {
    assert DurationNames[0] == "retry_after" && DurationNames[1] == "retryAfter" && DurationNames[2] == "reset_in";
    assert DurationNames[3] == "resetIn" && DurationNames[4] == "reset_after" && DurationNames[5] == "resetAfter";
    assert TimestampNames[0] == "reset_at" && TimestampNames[1] == "resetAt" && TimestampNames[2] == "resets_at";
    assert TimestampNames[3] == "reset_time" && TimestampNames[4] == "resetTime" && TimestampNames[5] == "reset_timestamp";
  }

  lemma ScopeSaysDuration(m: Fields, now: Time, s: Signal)
    ensures s in DurationSignals(m, DurationNames, now) <==>
            s.source == BodyDuration && exists name :: IsDurationName(name) && name in m && IsWait(m[name], now, s.until)
  {
    DurationSignalsExactly(m, DurationNames, now, s);
    if i :| 0 <= i < |DurationNames| && DurationNames[i] in m && RelativeReset(m[DurationNames[i]], now) == Some(s.until) {
      NamesExactly(DurationNames[i]);
      RelativeExactly(m[DurationNames[i]], now, s.until);
    }
    if name :| IsDurationName(name) && name in m && IsWait(m[name], now, s.until) {
      NamesExactly(name);
      RelativeExactly(m[name], now, s.until);
    }
  }

  lemma ScopeSaysTimestamp(m: Fields, now: Time, s: Signal)
    ensures s in TimestampSignals(m, TimestampNames, now) <==>
            s.source == BodyTimestamp && exists name :: IsTimestampName(name) && name in m && AbsoluteReset(m[name], now) == Some(s.until)
  {
    TimestampSignalsExactly(m, TimestampNames, now, s);
    if i :| 0 <= i < |TimestampNames| && TimestampNames[i] in m && AbsoluteReset(m[TimestampNames[i]], now) == Some(s.until) {
      NamesExactly(TimestampNames[i]);
    }
    if name :| IsTimestampName(name) && name in m && AbsoluteReset(m[name], now) == Some(s.until) {
      NamesExactly(name);
    }
  }

  lemma ScopeExactly(kind: Kind, m: Fields, now: Time, s: Signal)
    ensures s in ScopeSignals(kind, m, now) <==> ScopeSays(kind, m, now, s.until, s.source)
  {
    ScopeSaysDuration(m, now, s);
    ScopeSaysTimestamp(m, now, s);
    if "message" in m && m["message"].Str? && m["message"].token.retry.Some? {
      RelativeExactly(Num(Some(Total(m["message"].token.retry.value))), now, s.until);
    }
  }

  ghost predicate SaidIn(kind: Kind, scopes: seq<Fields>, now: Time, s: Signal, i: int) {
    0 <= i < |scopes| && ScopeSays(kind, scopes[i], now, s.until, s.source)
  }

  lemma {:induction false} BodyExactly(kind: Kind, scopes: seq<Fields>, now: Time, s: Signal)
    ensures s in BodySignals(kind, scopes, now) <==> exists i :: SaidIn(kind, scopes, now, s, i)
    decreases |scopes|
  {
    if scopes != [] {
      var n := |scopes| - 1;
      var front := scopes[..n];
      BodyExactly(kind, front, now, s);
      ScopeExactly(kind, scopes[n], now, s);
      if i :| SaidIn(kind, front, now, s, i) {
        assert SaidIn(kind, scopes, now, s, i);
      }
      if ScopeSays(kind, scopes[n], now, s.until, s.source) {
        assert SaidIn(kind, scopes, now, s, n);
      }
      if i :| SaidIn(kind, scopes, now, s, i) {
        assert i < n ==> SaidIn(kind, front, now, s, i);
      }
    }
  }

  /** A scope that is not there announces nothing. */
  lemma EmptyScopeIsSilent(kind: Kind, now: Time, t: Time, source: Source)
    ensures !ScopeSays(kind, map[], now, t, source)
  {
  }

  lemma ScopesExactly(kind: Kind, root: Fields, now: Time, s: Signal)
    ensures (exists i :: SaidIn(kind, Scopes(root), now, s, i)) <==>
            (exists m :: IsScope(root, m) && ScopeSays(kind, m, now, s.until, s.source))
  {
    EmptyScopeIsSilent(kind, now, s.until, s.source);
    if i :| SaidIn(kind, Scopes(root), now, s, i) {
      ScopeIsThere(root, i);
    }
    if m :| IsScope(root, m) && ScopeSays(kind, m, now, s.until, s.source) {
      var i := ScopeAt(root, m);
      assert SaidIn(kind, Scopes(root), now, s, i);
    }
  }

  ghost function ScopeAt(root: Fields, m: Fields): (i: nat)
    requires IsScope(root, m)
    ensures i < 4 && Scopes(root)[i] == m
  {
    if m == root then 0 else if HasObject(root, "error", m) then 1 else if HasObject(root, "metadata", m) then 2 else 3
  }

  lemma ScopeIsThere(root: Fields, i: nat)
    requires i < 4
    ensures IsScope(root, Scopes(root)[i]) || Scopes(root)[i] == map[]
  {
    if "error" in root && root["error"].Obj? {
      assert HasObject(root, "error", root["error"].fields);
    }
  }

  /** The signals that are folded are exactly the resets that the response announces: in its header, and in the
      named fields and the messages of its four scopes. */
  lemma SignalsExactly(kind: Kind, header: Token, root: Fields, now: Time, s: Signal)
    ensures s in Signals(kind, header, root, now) <==> Announces(kind, header, root, now, s.until, s.source)
  {
    BodyExactly(kind, Scopes(root), now, s);
    ScopesExactly(kind, root, now, s);
    HeaderExactly(header, now, s);
  }

  lemma HeaderExactly(header: Token, now: Time, s: Signal)
    ensures s in HeaderSignals(header, now) <==> s.source == RetryAfterHeader && HeaderSays(header, now, s.until)
  {
    RelativeExactly(Str(header), now, s.until);
    var r := RelativeReset(Str(header), now);
    if r.Some? {
      RelativeExactly(Str(header), now, r.value);
    } else {
      forall u
        ensures !IsWait(Str(header), now, u)
      {
        RelativeExactly(Str(header), now, u);
      }
    }
  }

  // ---------------------------------------------------------------- the expiry of a class

  /** The response names a reset somewhere, whether it is valid or not. */
  ghost predicate Names(header: Token, root: Fields) {
    header.raw != "" || exists m, name :: IsScope(root, m) && (IsDurationName(name) || IsTimestampName(name)) && name in m
  }

  ghost predicate NamesIn(m: Fields) {
    exists name :: (IsDurationName(name) || IsTimestampName(name)) && name in m
  }

  lemma NamesResetExactly(m: Fields)
    ensures NamesReset(m) <==> NamesIn(m)
  {
    if i :| 0 <= i < |DurationNames| && DurationNames[i] in m {
      NamesExactly(DurationNames[i]);
    }
    if i :| 0 <= i < |TimestampNames| && TimestampNames[i] in m {
      NamesExactly(TimestampNames[i]);
    }
    if name :| (IsDurationName(name) || IsTimestampName(name)) && name in m {
      NamesExactly(name);
    }
  }

  lemma FourScopes(root: Fields)
    ensures var s := Scopes(root); AnyNames(s) <==> NamesReset(s[0]) || NamesReset(s[1]) || NamesReset(s[2]) || NamesReset(s[3])
  {
    var s := Scopes(root);
    assert s[..3][..2] == s[..2] && s[..2][..1] == s[..1] && s[..1][..0] == [];
    assert AnyNames(s[..1]) <==> NamesReset(s[0]);
    assert AnyNames(s[..2]) <==> AnyNames(s[..1]) || NamesReset(s[1]);
    assert AnyNames(s[..3]) <==> AnyNames(s[..2]) || NamesReset(s[2]);
  }

  lemma AttemptedExactly(header: Token, root: Fields)
    ensures Attempted(header, root) <==> Names(header, root)
  {
    FourScopes(root);
    var s := Scopes(root);
    forall i | 0 <= i < 4
      ensures NamesReset(s[i]) <==> NamesIn(s[i])
      ensures IsScope(root, s[i]) || s[i] == map[]
    {
      NamesResetExactly(s[i]);
      ScopeIsThere(root, i);
    }
    if m, name :| IsScope(root, m) && (IsDurationName(name) || IsTimestampName(name)) && name in m {
      var i := ScopeAt(root, m);
      assert NamesIn(s[i]);
    }
  }

  /** Nothing that the response announces is a reset. */
  ghost predicate AnnouncesNothing(kind: Kind, header: Token, root: Fields, now: Time) {
    forall v, w :: !Announces(kind, header, root, now, v, w)
  }

  /** The expiry of a reset is the latest announced one, or else the fallback if there is one. */
  lemma ResetExactly(kind: Kind, header: Token, root: Fields, now: Time, fallback: int, u: Time, source: Source)
    requires now > 0 && 0 <= fallback <= LONGEST
    ensures var c := Reset(kind, header, root, now, fallback);
            && (Announces(kind, header, root, now, u, source) ==> u <= c.until && Announces(kind, header, root, now, c.until, c.source))
            && (AnnouncesNothing(kind, header, root, now) ==> c.until == if fallback > 0 then now + fallback else 0)
            && (c.source == QuotaFallback ==>
                  c.fallback == if Names(header, root) then InvalidOrExpiredReset else NoResetProvided)
  {
    AttemptedExactly(header, root);
    var xs, c := Signals(kind, header, root, now), Reset(kind, header, root, now, fallback);
    ResetIsLatestOrFallback(kind, header, root, now, fallback);
    SignalsExactly(kind, header, root, now, Signal(u, source));
    SignalsExactly(kind, header, root, now, Signal(c.until, c.source));
    if xs != [] {
      SignalsExactly(kind, header, root, now, xs[0]);
    }
  }

  /** `t` is the instant that the record is dated to: the end of its request, if that is known and past. */
  predicate IsDate(rec: Usage, now: Time, t: Time) {
    if rec.requestedAt != 0 && 0 <= rec.latency && rec.requestedAt + rec.latency <= now
    then t == rec.requestedAt + rec.latency
    else t == now
  }

  lemma DateExactly(rec: Usage, now: Time, t: Time)
    requires IsDate(rec, now, t)
    ensures ObservedAt(rec, now) == t
  {
  }

  lemma ClassExactly(r: Response, t: Time, fallback: int)
    ensures var c := Classified(r, t, fallback);
            && (c.kind == Quota ==> c == Reset(Quota, r.retryAfter, r.root, t, fallback))
            && (c.kind == RateLimit ==> c == Reset(RateLimit, r.retryAfter, r.root, t, 0))
            && (c.kind !in {Quota, RateLimit} ==> c == Classification(c.kind, 0, NoSource, NoFallback))
  {
  }

  /** `c` expires at the latest reset that the response announces at `t`, or else at `otherwise`; `u` is any
      announced reset. */
  ghost predicate ExpiresAt(c: Classification, r: Response, t: Time, u: Time, source: Source, otherwise: Time) {
    && (Announces(c.kind, r.retryAfter, r.root, t, u, source) ==>
          u <= c.until && Announces(c.kind, r.retryAfter, r.root, t, c.until, c.source))
    && (AnnouncesNothing(c.kind, r.retryAfter, r.root, t) ==> c.until == otherwise)
  }

  /** The class of a record, in terms of what its response announces at the instant `t` to which it is dated: the
      latest announced reset; without one, quota is over after the configured cooldown, and a rate limit has no
      expiry. Other classes have none. */
  lemma ExpiryExactly(cfg: Configuration, rec: Usage, now: Time, t: Time, u: Time, source: Source)
    requires GoodDuration(cfg.fallback) && t > 0 && IsDate(rec, now, t)
    ensures var c := ClassOf(cfg, rec, now);
            && (c.kind == Quota ==> ExpiresAt(c, rec.response, t, u, source, t + cfg.fallback))
            && (c.kind == RateLimit ==> ExpiresAt(c, rec.response, t, u, source, 0))
            && (c.kind !in {Quota, RateLimit} ==> c.until == 0)
  {
    var c, r := ClassOf(cfg, rec, now), rec.response;
    DateExactly(rec, now, t);
    ClassExactly(r, t, cfg.fallback);
    if c.kind == Quota {
      QuotaExpires(r, t, cfg.fallback, u, source);
    } else if c.kind == RateLimit {
      RateLimitExpires(r, t, u, source);
    }
  }

  lemma QuotaExpires(r: Response, t: Time, fallback: int, u: Time, source: Source)
    requires t > 0 && GoodDuration(fallback)
    ensures ExpiresAt(Reset(Quota, r.retryAfter, r.root, t, fallback), r, t, u, source, t + fallback)
  {
    ResetExactly(Quota, r.retryAfter, r.root, t, fallback, u, source);
  }

  lemma RateLimitExpires(r: Response, t: Time, u: Time, source: Source)
    requires t > 0
    ensures ExpiresAt(Reset(RateLimit, r.retryAfter, r.root, t, 0), r, t, u, source, 0)
  {
    ResetExactly(RateLimit, r.retryAfter, r.root, t, 0, u, source);
  }
}
