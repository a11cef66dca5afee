/** Model of `nextAuthID` (src/config.go:124-141): the IDs that one count map issues are pairwise
    different, whatever the hash function does. */
module AuthIDs {
  import opened Basics

  // ---------------------------------------------------------------- rendering an ID

  function Digit(d: nat): (c: char)
    requires d < 10
    ensures '0' <= c <= '9'
  {
    '0' + d as char
  }

  function DigitValue(c: char): nat {
    if '0' <= c <= '9' then c as int - '0' as int else 0
  }

  function Decimal(n: nat): (s: string)
    ensures s != [] && forall i :: 0 <= i < |s| ==> '0' <= s[i] <= '9'
  {
    if n < 10 then [Digit(n)] else Decimal(n / 10) + [Digit(n % 10)]
  }

  function Value(s: string): nat {
    if s == [] then 0 else 10 * Value(s[..|s| - 1]) + DigitValue(s[|s| - 1])
  }

  lemma DigitRoundTrip(d: nat)
    requires d < 10
    ensures DigitValue(Digit(d)) == d
  {
  }

  lemma ValueAppend(s: string, c: char)
    ensures Value(s + [c]) == 10 * Value(s) + DigitValue(c)
  {
  }

  lemma {:induction false} DecimalRoundTrip(n: nat)
    ensures Value(Decimal(n)) == n
  {
    DigitRoundTrip(n % 10);
    if n >= 10 {
      DecimalRoundTrip(n / 10);
      ValueAppend(Decimal(n / 10), Digit(n % 10));
    } else {
      ValueAppend("", Digit(n));
    }
  }

  function Render(base: string, n: nat): string {
    if n == 0 then base else base + "-" + Decimal(n)
  }

  /** A base ends in a colon and twelve hex digits. */
  predicate IsBase(s: string) {
    && |s| >= 13 && s[|s| - 13] == ':'
    && forall i :: |s| - 12 <= i < |s| ==> IsHexDigit(s[i])
  }

  lemma NumberedIsNoBase(base: string, n: nat)
    requires n > 0
    ensures !IsBase(Render(base, n))
  {
    var s, d := Render(base, n), Decimal(n);
    assert s[|base|] == '-' && forall i :: 0 <= i < |d| ==> s[|base| + 1 + i] == d[i];
  }

  lemma SameSplit(b1: string, d1: string, b2: string, d2: string)
    requires b1 + "-" + d1 == b2 + "-" + d2
    requires forall i :: 0 <= i < |d1| ==> d1[i] != '-'
    requires forall i :: 0 <= i < |d2| ==> d2[i] != '-'
    ensures b1 == b2 && d1 == d2
  {
    var s, t := b1 + "-" + d1, b2 + "-" + d2;
    assert s[|b1|] == '-' && t[|b2|] == '-';
    assert forall k :: |b1| < k < |s| ==> s[k] != '-';
    assert forall k :: |b2| < k < |t| ==> t[k] != '-';
    assert b1 == s[..|b1|] && b2 == t[..|b2|];
    assert d1 == s[|b1| + 1..] && d2 == t[|b2| + 1..];
  }

  /** An ID determines its base and its number. */
  lemma RenderInjective(b1: string, n1: nat, b2: string, n2: nat)
    requires IsBase(b1) && IsBase(b2) && Render(b1, n1) == Render(b2, n2)
    ensures b1 == b2 && n1 == n2
  {
    if n1 > 0 {
      NumberedIsNoBase(b1, n1);
    }
    if n2 > 0 {
      NumberedIsNoBase(b2, n2);
    }
    if n1 > 0 && n2 > 0 {
      SameSplit(b1, Decimal(n1), b2, Decimal(n2));
      DecimalRoundTrip(n1);
      DecimalRoundTrip(n2);
    }
  }

  /** The first ID of a base is the base itself; the one after `n` others is the base, a dash and `n`. */
  lemma RenderExactly(base: string, n: nat)
    ensures n == 0 ==> Render(base, n) == base
    ensures n > 0 ==> exists d :: Render(base, n) == base + "-" + d && Value(d) == n
  {
    DecimalRoundTrip(n);
  }

  // ---------------------------------------------------------------- a history of issues

  function Occurrences(bases: seq<string>, base: string): nat {
    if bases == [] then 0
    else Occurrences(bases[..|bases| - 1], base) + (if bases[|bases| - 1] == base then 1 else 0)
  }

  /** The ID issued for `base` after the bases of `history`. */
  function IdAfter(history: seq<string>, base: string): string {
    Render(base, Occurrences(history, base))
  }

  /** It counts how often the base was issued. */
  lemma {:induction false} OccurrencesExactly(bases: seq<string>, base: string)
    ensures Occurrences(bases, base) == multiset(bases)[base]
  {
    if bases != [] {
      var front, last := bases[..|bases| - 1], bases[|bases| - 1];
      OccurrencesExactly(front, base);
      assert bases == front + [last];
    }
  }

  lemma {:induction false} OccurrencesGrow(bases: seq<string>, i: nat, base: string)
    requires i < |bases| && bases[i] == base
    ensures Occurrences(bases[..i], base) < Occurrences(bases, base)
  {
    var n := |bases| - 1;
    if i < n {
      OccurrencesGrow(bases[..n], i, base);
      assert bases[..n][..i] == bases[..i];
    }
  }

  /** All IDs issued from one count map are pairwise different. */
  lemma IssuedIDsDiffer(bases: seq<string>, i: nat, j: nat)
    requires i < j < |bases| && forall k :: 0 <= k < |bases| ==> IsBase(bases[k])
    ensures IdAfter(bases[..i], bases[i]) != IdAfter(bases[..j], bases[j])
  {
    assert bases[..j][..i] == bases[..i];
    OccurrencesGrow(bases[..j], i, bases[i]);
    if IdAfter(bases[..i], bases[i]) == IdAfter(bases[..j], bases[j]) {
      RenderInjective(bases[i], Occurrences(bases[..i], bases[i]), bases[j], Occurrences(bases[..j], bases[j]));
    }
  }

  // ---------------------------------------------------------------- the hash input

  /** What is hashed: the kind, then a zero byte before each (already trimmed) part. */
  function HashInput(kind: string, parts: seq<string>): string {
    if parts == [] then kind else HashInput(kind, parts[..|parts| - 1]) + "\0" + parts[|parts| - 1]
  }

  predicate HasZero(s: string) {
    exists i :: 0 <= i < |s| && s[i] == '\0'
  }

  ghost predicate NoZeros(parts: seq<string>) {
    forall i :: 0 <= i < |parts| ==> !HasZero(parts[i])
  }

  lemma LastPart(kind: string, parts: seq<string>)
    requires parts != [] && NoZeros(parts)
    ensures var front, last := parts[..|parts| - 1], parts[|parts| - 1];
            && NoZeros(front) && !HasZero(last) && parts == front + [last]
            && HashInput(kind, parts) == HashInput(kind, front) + "\0" + last
            && HasZero(HashInput(kind, parts))
  {
    ZeroInside(HashInput(kind, parts[..|parts| - 1]), parts[|parts| - 1]);
  }

  /** The zero bytes keep the parts apart: as long as no part holds one, different parts are hashed
      differently. */
  lemma {:induction false} HashInputInjective(kind: string, parts: seq<string>, kind': string, parts': seq<string>)
    requires !HasZero(kind) && !HasZero(kind') && NoZeros(parts) && NoZeros(parts')
    requires HashInput(kind, parts) == HashInput(kind', parts')
    ensures kind == kind' && parts == parts'
    decreases |parts|
  {
    if parts != [] {
      LastPart(kind, parts);
    }
    if parts' != [] {
      LastPart(kind', parts');
    }
    if parts != [] && parts' != [] {
      var front, last := parts[..|parts| - 1], parts[|parts| - 1];
      var front', last' := parts'[..|parts'| - 1], parts'[|parts'| - 1];
      LastZero(HashInput(kind, front), last, HashInput(kind', front'), last');
      HashInputInjective(kind, front, kind', front');
    }
  }

  lemma ZeroInside(a: string, b: string)
    ensures HasZero(a + "\0" + b)
  {
    assert (a + "\0" + b)[|a|] == '\0';
  }

  lemma LastZero(a: string, b: string, a': string, b': string)
    requires !HasZero(b) && !HasZero(b') && a + "\0" + b == a' + "\0" + b'
    ensures a == a' && b == b'
  {
    var s, t := a + "\0" + b, a' + "\0" + b';
    assert s[|a|] == '\0' && t[|a'|] == '\0';
    assert forall k :: |a| < k < |s| ==> s[k] == b[k - |a| - 1];
    assert forall k :: |a'| < k < |t| ==> t[k] == b'[k - |a'| - 1];
    assert a == s[..|a|] && a' == t[..|a'|];
    assert b == s[|a| + 1..] && b' == t[|a'| + 1..];
  }

  ghost predicate IsHashFunction(sha: string -> string) {
    forall x :: IsHash(sha(x))
  }

  function BaseOf(sha: string -> string, kind: string, parts: seq<string>): string
    requires |sha(HashInput(kind, parts))| >= 12
  {
    kind + ":" + sha(HashInput(kind, parts))[..12]
  }

  lemma BaseIsBase(sha: string -> string, kind: string, parts: seq<string>)
    requires IsHashFunction(sha)
    ensures |sha(HashInput(kind, parts))| >= 12 && IsBase(BaseOf(sha, kind, parts))
  {
  }

  /** The count map of one configuration read. */
  class Counts {
    var count: map<string, nat>

    /** The bases issued so far. */
    ghost var issued: seq<string>

    ghost predicate Valid()
      reads this
    {
      && (forall k :: 0 <= k < |issued| ==> IsBase(issued[k]))
      && (forall b :: (if b in count then count[b] else 0) == Occurrences(issued, b))
    }

    constructor ()
      ensures Valid() && issued == []
    {
      count, issued := map[], [];
    }

    /** `nextAuthID`: the ID is new. */
    method Next(sha: string -> string, kind: string, parts: seq<string>) returns (id: string)
      requires Valid() && IsHashFunction(sha)
      modifies this
      ensures Valid()
      ensures |sha(HashInput(kind, parts))| >= 12
      ensures id == IdAfter(old(issued), BaseOf(sha, kind, parts))
      ensures issued == old(issued) + [BaseOf(sha, kind, parts)]
      ensures forall k :: 0 <= k < |old(issued)| ==> id != IdAfter(old(issued)[..k], old(issued)[k])
    {
      BaseIsBase(sha, kind, parts);
      var base := BaseOf(sha, kind, parts);
      var n := if base in count then count[base] else 0;
      count := count[base := n + 1];
      ghost var before := issued;
      issued := issued + [base];
      assert issued[..|before|] == before;
      forall k | 0 <= k < |before|
        ensures IdAfter(before, base) != IdAfter(before[..k], before[k])
      {
        IssuedIDsDiffer(issued, k, |before|);
        assert issued[..k] == before[..k];
      }
      if n > 0 {
        return base + "-" + Decimal(n);
      }
      return base;
    }
  }
}
