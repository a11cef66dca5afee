/** Model of src/classifier.go: which kind of failure a response is, and when its key resets. */
module Classifier {
  import opened Basics
  import opened Failures

  /** One reset announced by the response. */
  datatype Signal = Signal(until: Time, source: Source)

  // ---------------------------------------------------------------- reading single values

  function Object(fields: Fields, name: string): Fields {
    if name in fields && fields[name].Obj? then fields[name].fields else map[]
  }

  function Text(fields: Fields, name: string): Token {
    if name in fields && fields[name].Str? then fields[name].token else NoText
  }

  function Seconds(v: Json): Option<Number> {
    match v
    case Num(n) => n
    case Str(t) => t.number
    case _ => None
  }

  /** A positive number of seconds, or a Go duration, of at most 366 days. */
  function RelativeReset(v: Json, now: Time): (r: Option<Time>)
    ensures r.Some? ==> now <= r.value <= now + LONGEST
  {
    match Seconds(v)
    case Some(n) =>
      if !n.Finite? || n.value <= 0.0 || n.value > 31622400.0 then None
      else Some(now + (n.value * 1000000000.0).Floor)
    case None =>
      if v.Str? && v.token.duration.Some? && 0 < v.token.duration.value <= LONGEST
      then Some(now + v.token.duration.value)
      else None
  }

  /** The instant of a date string or of a Unix number of seconds or milliseconds; 0 for neither. */
  function Instant(v: Json): Time {
    if v.Str? && v.token.instant != 0 then v.token.instant
    else match Seconds(v)
      case Some(Finite(x)) =>
        var n := if x > 1000000000000.0 then x / 1000.0 else x;
        if 1000000000.0 <= n < 100000000000.0 then
          (UNIX_EPOCH + n.Floor) * SECOND + ((n - n.Floor as real) * 1000000000.0).Floor
        else 0
      case _ => 0
  }

  function AbsoluteReset(v: Json, now: Time): (r: Option<Time>)
    ensures r.Some? ==> now < r.value <= now + LONGEST
  {
    var t := Instant(v);
    if t != 0 && now < t <= now + LONGEST then Some(t) else None
  }

  function UnitSeconds(unit: char): real {
    match unit
    case 'm' => 60.0
    case 'h' => 3600.0
    case 'd' => 86400.0
    case _ => 1.0
  }

  function Plus(a: Number, b: Number): Number {
    if a.NaN? || b.NaN? then NaN
    else if a.Infinite? || b.Infinite? then Infinite
    else Finite(a.value + b.value)
  }

  function InSeconds(p: Part): Number {
    if p.amount.Finite? then Finite(p.amount.value * UnitSeconds(p.unit)) else p.amount
  }

  /** The whole wait named by a sentence such as "1 hour 30 minutes". */
  function Total(parts: seq<Part>): Number {
    if parts == [] then Finite(0.0)
    else Plus(Total(parts[..|parts| - 1]), InSeconds(parts[|parts| - 1]))
  }

  function MessageReset(s: Token, now: Time): (r: Option<Time>)
    ensures r.Some? ==> now <= r.value <= now + LONGEST
  {
    match s.retry
    case None => None
    case Some(parts) => RelativeReset(Num(Some(Total(parts))), now)
  }

  /** `messageReset` as the program computes it, adding the parts up in a loop. */
  method ReadMessage(s: Token, now: Time) returns (r: Option<Time>)
    ensures r == MessageReset(s, now)
  {
    if s.retry.None? {
      return None;
    }
    var parts := s.retry.value;
    var seconds := Finite(0.0);
    for i := 0 to |parts|
      invariant seconds == Total(parts[..i])
    {
      assert parts[..i + 1][..i] == parts[..i];
      seconds := Plus(seconds, InSeconds(parts[i]));
    }
    assert parts[..|parts|] == parts;
    r := RelativeReset(Num(Some(seconds)), now);
  }

  // ---------------------------------------------------------------- collecting the signals

  const DurationNames := ["retry_after", "retryAfter", "reset_in", "resetIn", "reset_after", "resetAfter"]
  const TimestampNames := ["reset_at", "resetAt", "resets_at", "reset_time", "resetTime", "reset_timestamp"]

  function Scopes(root: Fields): (r: seq<Fields>)
    ensures |r| == 4
  {
    [root, Object(root, "error"), Object(root, "metadata"), Object(Object(root, "error"), "metadata")]
  }

  function AsSignal(t: Option<Time>, source: Source): seq<Signal> {
    if t.Some? then [Signal(t.value, source)] else []
  }

  function HeaderReset(header: Token, now: Time): Option<Time> {
    var t := RelativeReset(Str(header), now);
    if t.Some? then t else AbsoluteReset(Str(header), now)
  }

  function HeaderSignals(header: Token, now: Time): seq<Signal> {
    if header.raw == "" then [] else AsSignal(HeaderReset(header, now), RetryAfterHeader)
  }

  function DurationSignals(m: Fields, names: seq<string>, now: Time): seq<Signal> {
    if names == [] then []
    else
      var last := names[|names| - 1];
      DurationSignals(m, names[..|names| - 1], now)
      + (if last in m then AsSignal(RelativeReset(m[last], now), BodyDuration) else [])
  }

  function TimestampSignals(m: Fields, names: seq<string>, now: Time): seq<Signal> {
    if names == [] then []
    else
      var last := names[|names| - 1];
      TimestampSignals(m, names[..|names| - 1], now)
      + (if last in m then AsSignal(AbsoluteReset(m[last], now), BodyTimestamp) else [])
  }

  function MessageSignals(kind: Kind, m: Fields, now: Time): seq<Signal> {
    if kind == Quota && Text(m, "message").raw != "" then
      AsSignal(MessageReset(Text(m, "message"), now), BodyMessage)
    else []
  }

  function ScopeSignals(kind: Kind, m: Fields, now: Time): seq<Signal> {
    DurationSignals(m, DurationNames, now) + TimestampSignals(m, TimestampNames, now) + MessageSignals(kind, m, now)
  }

  function BodySignals(kind: Kind, scopes: seq<Fields>, now: Time): seq<Signal> {
    if scopes == [] then []
    else BodySignals(kind, scopes[..|scopes| - 1], now) + ScopeSignals(kind, scopes[|scopes| - 1], now)
  }

  /** Every valid reset of a response, in the order in which the program meets them. */
  function Signals(kind: Kind, header: Token, root: Fields, now: Time): seq<Signal> {
    HeaderSignals(header, now) + BodySignals(kind, Scopes(root), now)
  }

  /** The response names a reset somewhere, valid or not. */
  ghost predicate Attempted(header: Token, root: Fields) {
    header.raw != "" || AnyNames(Scopes(root))
  }

  ghost predicate AnyNames(scopes: seq<Fields>) {
    scopes != [] && (AnyNames(scopes[..|scopes| - 1]) || NamesReset(scopes[|scopes| - 1]))
  }

  ghost predicate NamesReset(m: Fields) {
    Named(m, DurationNames) || Named(m, TimestampNames)
  }

  ghost predicate Named(m: Fields, names: seq<string>) {
    exists i :: 0 <= i < |names| && names[i] in m
  }

  // ---------------------------------------------------------------- folding the signals

  /** Keep the later of two signals, the earlier one met on a tie. */
  function Later(a: Signal, b: Signal): Signal {
    if b.until > a.until then b else a
  }

  function Fold(first: Signal, xs: seq<Signal>): Signal {
    if xs == [] then first else Later(Fold(first, xs[..|xs| - 1]), xs[|xs| - 1])
  }

  function Latest(xs: seq<Signal>): Signal {
    Fold(Signal(0, NoSource), xs)
  }

  lemma {:induction false} FoldAppend(first: Signal, xs: seq<Signal>, ys: seq<Signal>)
    ensures Fold(first, xs + ys) == Fold(Fold(first, xs), ys)
  {
    if ys == [] {
      assert xs + ys == xs;
    } else {
      var n := |ys| - 1;
      assert (xs + ys)[..|xs| + n] == xs + ys[..n];
      FoldAppend(first, xs, ys[..n]);
    }
  }

  /** The fold keeps the maximum: nothing is later than the result, and a result that is set is
      the first signal, in the order met, that attains the maximum. */
  lemma {:induction false} LatestIsFirstMaximum(xs: seq<Signal>)
    ensures Latest(xs).until >= 0
    ensures forall i :: 0 <= i < |xs| ==> xs[i].until <= Latest(xs).until
    ensures Latest(xs).until > 0 ==>
              exists i :: 0 <= i < |xs| && xs[i] == Latest(xs) && forall j :: 0 <= j < i ==> xs[j].until < xs[i].until
    ensures Latest(xs).until == 0 ==> Latest(xs) == Signal(0, NoSource)
  {
    if xs != [] {
      var n := |xs| - 1;
      var front := xs[..n];
      LatestIsFirstMaximum(front);
      if xs[n].until > Latest(front).until {
        assert forall j :: 0 <= j < n ==> xs[j] == front[j];
        assert xs[n] == Latest(xs) && forall j :: 0 <= j < n ==> xs[j].until < xs[n].until;
      } else if Latest(front).until > 0 {
        var i :| 0 <= i < n && front[i] == Latest(front) && forall j :: 0 <= j < i ==> front[j].until < front[i].until;
        assert xs[i] == Latest(xs) && forall j :: 0 <= j < i ==> xs[j] == front[j];
      }
    }
  }

  /** The order in which a response spells its resets does not matter for the expiry. */
  lemma LatestIgnoresOrder(xs: seq<Signal>, ys: seq<Signal>)
    requires multiset(xs) == multiset(ys)
    ensures Latest(xs).until == Latest(ys).until
  {
    LatestIsFirstMaximum(xs);
    LatestIsFirstMaximum(ys);
    forall i | 0 <= i < |xs|
      ensures xs[i].until <= Latest(ys).until
    {
      assert xs[i] in multiset(ys);
    }
    forall i | 0 <= i < |ys|
      ensures ys[i].until <= Latest(xs).until
    {
      assert ys[i] in multiset(xs);
    }
  }

  /** What `withReset` returns: the latest signal, or the fallback when there is none. */
  ghost function Reset(kind: Kind, header: Token, root: Fields, now: Time, fallback: int): Classification {
    var best := Latest(Signals(kind, header, root, now));
    if best.until == 0 && fallback > 0 then
      Classification(kind, now + fallback, QuotaFallback,
                     if Attempted(header, root) then InvalidOrExpiredReset else NoResetProvided)
    else Classification(kind, best.until, best.source, NoFallback)
  }

  lemma {:induction false} NamedSignalsBounded(m: Fields, names: seq<string>, now: Time, s: Signal)
    requires s in DurationSignals(m, names, now) || s in TimestampSignals(m, names, now)
    ensures now <= s.until <= now + LONGEST
  {
    if names != [] {
      var front := names[..|names| - 1];
      if s in DurationSignals(m, front, now) || s in TimestampSignals(m, front, now) {
        NamedSignalsBounded(m, front, now, s);
      }
    }
  }

  lemma {:induction false} BodySignalsBounded(kind: Kind, scopes: seq<Fields>, now: Time, s: Signal)
    requires s in BodySignals(kind, scopes, now)
    ensures now <= s.until <= now + LONGEST
  {
    var n := |scopes| - 1;
    if s in BodySignals(kind, scopes[..n], now) {
      BodySignalsBounded(kind, scopes[..n], now, s);
    } else if s in DurationSignals(scopes[n], DurationNames, now) {
      NamedSignalsBounded(scopes[n], DurationNames, now, s);
    } else if s in TimestampSignals(scopes[n], TimestampNames, now) {
      NamedSignalsBounded(scopes[n], TimestampNames, now, s);
    }
  }

  /** Every valid signal lies between the observation and 366 days later. */
  lemma SignalsBounded(kind: Kind, header: Token, root: Fields, now: Time, s: Signal)
    requires s in Signals(kind, header, root, now)
    ensures now <= s.until <= now + LONGEST
  {
    if s in BodySignals(kind, Scopes(root), now) {
      BodySignalsBounded(kind, Scopes(root), now, s);
    }
  }

  /** `withReset` against its documentation, for every response: the expiry is the maximum of the valid
      signals with the source of the first one attaining it; the fallback is used exactly when no
      signal is valid and the fallback is positive; an expiry that is set stays within 366 days. */
  lemma ResetIsLatestOrFallback(kind: Kind, header: Token, root: Fields, now: Time, fallback: int)
    requires now > 0
    requires fallback <= LONGEST
    ensures var c := Reset(kind, header, root, now, fallback);
            var xs := Signals(kind, header, root, now);
            && c.kind == kind
            && (xs != [] ==>
                  && (forall i :: 0 <= i < |xs| ==> xs[i].until <= c.until)
                  && (exists i :: 0 <= i < |xs| && xs[i] == Signal(c.until, c.source)
                                  && forall j :: 0 <= j < i ==> xs[j].until < c.until))
            && (c.source == QuotaFallback <==> xs == [] && fallback > 0)
            && (c.source == QuotaFallback ==> c.until == now + fallback)
            && (c.fallback == InvalidOrExpiredReset <==> c.source == QuotaFallback && Attempted(header, root))
            && (c.until != 0 <==> xs != [] || fallback > 0)
            && (c.until != 0 ==> now <= c.until <= now + LONGEST)
  {
    var xs := Signals(kind, header, root, now);
    LatestIsFirstMaximum(xs);
    SourcesAreSignals(kind, header, root, now);
    if xs != [] {
      SignalsBounded(kind, header, root, now, xs[0]);
      var i :| 0 <= i < |xs| && xs[i] == Latest(xs) && forall j :: 0 <= j < i ==> xs[j].until < xs[i].until;
      SignalsBounded(kind, header, root, now, xs[i]);
      assert xs[i].source != QuotaFallback;
    }
  }

  lemma {:induction false} NamedSources(m: Fields, names: seq<string>, now: Time)
    ensures forall s :: s in DurationSignals(m, names, now) ==> s.source == BodyDuration
    ensures forall s :: s in TimestampSignals(m, names, now) ==> s.source == BodyTimestamp
  {
    if names != [] {
      NamedSources(m, names[..|names| - 1], now);
    }
  }

  lemma {:induction false} BodySources(kind: Kind, scopes: seq<Fields>, now: Time)
    ensures forall s :: s in BodySignals(kind, scopes, now) ==> s.source in {BodyDuration, BodyTimestamp, BodyMessage}
  {
    if scopes != [] {
      var m := scopes[|scopes| - 1];
      BodySources(kind, scopes[..|scopes| - 1], now);
      NamedSources(m, DurationNames, now);
      NamedSources(m, TimestampNames, now);
    }
  }

  lemma SourcesAreSignals(kind: Kind, header: Token, root: Fields, now: Time)
    ensures forall s :: s in Signals(kind, header, root, now) ==>
                          s.source in {RetryAfterHeader, BodyDuration, BodyTimestamp, BodyMessage}
  {
    BodySources(kind, Scopes(root), now);
  }

  /** The smallest signals: a positive duration below one nanosecond is valid and resets at once. */
  lemma SubNanosecondResetsAtOnce(x: real, now: Time)
    requires 0.0 < x < 0.000000001
    ensures RelativeReset(Num(Some(Finite(x))), now) == Some(now)
  {
  }

  /** `withReset` as the program computes it. */
  method WithReset(kind: Kind, header: Token, root: Fields, now: Time, fallback: int) returns (c: Classification)
    ensures c == Reset(kind, header, root, now, fallback)
  {
    var best := Signal(0, NoSource);
    if header.raw != "" {
      var t := RelativeReset(Str(header), now);
      if t.None? {
        t := AbsoluteReset(Str(header), now);
      }
      best := Add(best, t, RetryAfterHeader);
    }
    FoldAppend(Signal(0, NoSource), HeaderSignals(header, now), BodySignals(kind, Scopes(root), now));
    var attempted;
    best, attempted := ReadBody(kind, Scopes(root), now, best, header.raw != "");
    c := Classification(kind, best.until, best.source, NoFallback);
    if c.until == 0 && fallback > 0 {
      c := c.(until := now + fallback, source := QuotaFallback,
              fallback := if attempted then InvalidOrExpiredReset else NoResetProvided);
    }
  }

  /** The loop over the scopes of the body. */
  method ReadBody(kind: Kind, scopes: seq<Fields>, now: Time, best: Signal, attempted: bool)
    returns (best': Signal, attempted': bool)
    ensures best' == Fold(best, BodySignals(kind, scopes, now))
    ensures attempted' <==> attempted || AnyNames(scopes)
  {
    best', attempted' := best, attempted;
    for i := 0 to |scopes|
      invariant best' == Fold(best, BodySignals(kind, scopes[..i], now))
      invariant attempted' <==> attempted || AnyNames(scopes[..i])
    {
      best', attempted' := ReadScope(kind, scopes[i], now, best', attempted');
      FoldScope(kind, scopes, i, now, best);
    }
    assert scopes[..|scopes|] == scopes;
  }

  lemma FoldScope(kind: Kind, scopes: seq<Fields>, i: nat, now: Time, best: Signal)
    requires i < |scopes|
    ensures Fold(best, BodySignals(kind, scopes[..i + 1], now)) ==
            Fold(Fold(best, BodySignals(kind, scopes[..i], now)), ScopeSignals(kind, scopes[i], now))
    ensures AnyNames(scopes[..i + 1]) <==> AnyNames(scopes[..i]) || NamesReset(scopes[i])
  {
    FoldAppend(best, BodySignals(kind, scopes[..i], now), ScopeSignals(kind, scopes[i], now));
    assert scopes[..i + 1][..i] == scopes[..i];
  }

  method ReadScope(kind: Kind, m: Fields, now: Time, best: Signal, attempted: bool)
    returns (best': Signal, attempted': bool)
    ensures best' == Fold(best, ScopeSignals(kind, m, now))
    ensures attempted' <==> attempted || NamesReset(m)
  {
    best', attempted' := ReadDurations(m, DurationNames, now, best, attempted);
    best', attempted' := ReadTimestamps(m, TimestampNames, now, best', attempted');
    var t := None;
    if kind == Quota && Text(m, "message").raw != "" {
      t := ReadMessage(Text(m, "message"), now);
    }
    best' := Add(best', t, BodyMessage);
    var durations, timestamps := DurationSignals(m, DurationNames, now), TimestampSignals(m, TimestampNames, now);
    FoldAppend(best, durations, timestamps);
    FoldAppend(best, durations + timestamps, MessageSignals(kind, m, now));
  }

  /** The loop over the relative fields of one scope. */
  method ReadDurations(m: Fields, names: seq<string>, now: Time, best: Signal, attempted: bool)
    returns (best': Signal, attempted': bool)
    ensures best' == Fold(best, DurationSignals(m, names, now))
    ensures attempted' <==> attempted || Named(m, names)
  {
    best', attempted' := best, attempted;
    for j := 0 to |names|
      invariant best' == Fold(best, DurationSignals(m, names[..j], now))
      invariant attempted' <==> attempted || exists i :: 0 <= i < j && names[i] in m
    {
      assert names[..j + 1][..j] == names[..j];
      if names[j] in m {
        attempted' := true;
        var t := RelativeReset(m[names[j]], now);
        best' := Add(best', t, BodyDuration);
        FoldAppend(best, DurationSignals(m, names[..j], now), AsSignal(t, BodyDuration));
      } else {
        assert DurationSignals(m, names[..j + 1], now) == DurationSignals(m, names[..j], now);
      }
    }
    assert names[..|names|] == names;
  }

  /** The loop over the absolute fields of one scope. */
  method ReadTimestamps(m: Fields, names: seq<string>, now: Time, best: Signal, attempted: bool)
    returns (best': Signal, attempted': bool)
    ensures best' == Fold(best, TimestampSignals(m, names, now))
    ensures attempted' <==> attempted || Named(m, names)
  {
    best', attempted' := best, attempted;
    for j := 0 to |names|
      invariant best' == Fold(best, TimestampSignals(m, names[..j], now))
      invariant attempted' <==> attempted || exists i :: 0 <= i < j && names[i] in m
    {
      assert names[..j + 1][..j] == names[..j];
      if names[j] in m {
        attempted' := true;
        var t := AbsoluteReset(m[names[j]], now);
        best' := Add(best', t, BodyTimestamp);
        FoldAppend(best, TimestampSignals(m, names[..j], now), AsSignal(t, BodyTimestamp));
      } else {
        assert TimestampSignals(m, names[..j + 1], now) == TimestampSignals(m, names[..j], now);
      }
    }
    assert names[..|names|] == names;
  }

  /** The `add` closure of `withReset`. */
  method Add(best: Signal, t: Option<Time>, source: Source) returns (best': Signal)
    ensures best' == Fold(best, AsSignal(t, source))
  {
    best' := best;
    if t.Some? && t.value > best.until {
      best' := Signal(t.value, source);
    }
    assert t.Some? ==> AsSignal(t, source)[..0] == [];
  }

  // ---------------------------------------------------------------- the decision tree

  predicate Contains(s: string, sub: string) {
    |sub| <= |s| && (s[..|sub|] == sub || (s != [] && Contains(s[1..], sub)))
  }

  function OrElse(a: string, b: string): string {
    if a == "" then b else a
  }

  /** The error type or error code: the nested field wins over the top-level one. */
  function Label(root: Fields, name: string): string {
    OrElse(Text(Object(root, "error"), name).normal, Text(root, name).normal)
  }

  function Message(root: Fields): string {
    OrElse(Label(root, "message"), Text(root, "error").normal)
  }

  predicate IsZenQuotaType(t: string) {
    t in ["creditserror", "monthlylimiterror", "userlimiterror", "freeusagelimiterror", "blackusagelimiterror"]
  }

  predicate IsRateLabel(t: string) {
    t in ["ratelimiterror", "rate_limit_error", "rate_limit_exceeded", "requests_per_minute",
          "tokens_per_minute", "concurrency_limit_exceeded"]
  }

  predicate IsQuotaLabel(t: string) {
    t in ["insufficient_quota", "quota_exceeded", "quota_exhausted", "usage_limit_exceeded", "usage_limit_reached"]
  }

  /** The replacer that spells "-" and "_" as blanks. */
  function Spaced(s: string): string {
    seq(|s|, i requires 0 <= i < |s| => if s[i] == '-' || s[i] == '_' then ' ' else s[i])
  }

  predicate IsExplicitQuota(message: string) {
    && (Contains(message, "quota") || Contains(message, "usage limit"))
    && (Contains(message, "exhausted") || Contains(message, "exceeded")
        || Contains(message, "depleted") || Contains(message, "reached"))
    && !Contains(Spaced(message), "rate limit") && !Contains(Spaced(message), "per minute")
    && !Contains(Spaced(message), "per second") && !Contains(Spaced(message), "concurren")
  }

  /** The branches of `classify`, without the reset. */
  function KindOf(status: int, root: Fields): Kind {
    var typ, code := Label(root, "type"), Label(root, "code");
    if 200 <= status < 300 then Success
    else if typ == "gousagelimiterror" || code == "gousagelimiterror" then Failure
    else if (status == 401 || status == 402 || status == 429) && IsZenQuotaType(typ) then Quota
    else if status == 429 then
      if IsRateLabel(typ) || IsRateLabel(code) then RateLimit
      else if IsQuotaLabel(code) || IsQuotaLabel(typ) || IsExplicitQuota(Message(root)) then Quota
      else RateLimit
    else if status == 401 || status == 403 then Auth
    else if status >= 500 || status == 0 then Transient
    else Failure
  }

  /** `classify`: only quota and rate-limit answers read a reset, and only quota has a fallback. */
  ghost function Classified(r: Response, observed: Time, fallback: int): Classification {
    var kind := KindOf(r.status, r.root);
    if kind == Quota then Reset(kind, r.retryAfter, r.root, observed, fallback)
    else if kind == RateLimit then Reset(kind, r.retryAfter, r.root, observed, 0)
    else Classification(kind, 0, NoSource, NoFallback)
  }

  method Classify(r: Response, observed: Time, fallback: int) returns (c: Classification)
    ensures c == Classified(r, observed, fallback)
  {
    var kind := KindOf(r.status, r.root);
    if kind == Quota {
      c := WithReset(kind, r.retryAfter, r.root, observed, fallback);
    } else if kind == RateLimit {
      c := WithReset(kind, r.retryAfter, r.root, observed, 0);
    } else {
      c := Classification(kind, 0, NoSource, NoFallback);
    }
  }

  /** What the scheduler relies on. Quota needs status 401, 402 or 429, and a plain 401 without one
      of Zen's own error types is never quota; 403 is auth unless it is the foreign Go error. An
      expiry that is set lies within 366 days of the observation, and for quota with a configured
      fallback it is always set. */
  lemma ClassificationBounds(r: Response, observed: Time, fallback: int)
    requires 0 < fallback <= LONGEST
    ensures var c := Classified(r, observed, fallback);
            && (c.until != 0 ==> c.kind in {Quota, RateLimit} && observed <= c.until <= observed + LONGEST)
            && (c.kind == Quota ==> r.status in {401, 402, 429})
            && (r.status in {401, 402} && !IsZenQuotaType(Label(r.root, "type")) ==> c.kind != Quota)
            && (c.kind == RateLimit ==> r.status == 429)
            && (r.status == 403 ==> c.kind == Auth || Label(r.root, "type") == "gousagelimiterror" || Label(r.root, "code") == "gousagelimiterror")
            && (c.kind == Auth ==> r.status in {401, 403})
            && (observed > 0 && c.kind == Quota ==> c.until >= observed)
  {
    var c := Classified(r, observed, fallback);
    if c.kind == Quota || c.kind == RateLimit {
      var xs := Signals(c.kind, r.retryAfter, r.root, observed);
      LatestIsFirstMaximum(xs);
      if Latest(xs).until > 0 {
        SignalsBounded(c.kind, r.retryAfter, r.root, observed, Latest(xs));
      }
    }
  }
}
