/** Model of the inner `decode` of src/yaml_native.go:68-153: the unfolding of a node graph, which may
    share nodes and may be cyclic, under a budget and a depth limit. */
module Yaml {
  import opened Basics

  // ---------------------------------------------------------------- documents and values

  /** A parsed node. References are positions in the document; a position outside is a nil node. */
  datatype Node =
    | Scalar(tag: string, text: string)
    | Sequence(tag: string, items: seq<int>)
    | Mapping(tag: string, pairs: seq<(int, int)>)
    | Unknown(tag: string)

  type Document = seq<Node>

  datatype Value = Text(text: string) | List(items: seq<Value>) | Dict(entries: map<string, Value>)

  const DEPTH_LIMIT := 64
  const BUDGET := 100000
  const MERGE := "<<"
  const CORE_TAG := "tag:yaml.org,2002:"

  predicate GoodTag(tag: string) {
    tag == "" || CORE_TAG <= tag
  }

  // ---------------------------------------------------------------- the denotation

  /** The unfolding of a node: its value and how many nodes it has, or `Bad`. */
  datatype Unfolding = Bad | Tree(value: Value, size: nat)
  datatype Unfoldings = BadList | Trees(values: seq<Value>, size: nat)

  /** The unfolded pairs of a mapping: its keys, the entries written in it, the mappings it merges. */
  datatype Gathering = BadPairs | Gathered(keys: set<string>, written: map<string, Value>, merges: seq<map<string, Value>>, size: nat)

  /** What a merge key contributes: one mapping, or a list of mappings. */
  function MergesOf(v: Value): Option<seq<map<string, Value>>> {
    match v
    case Dict(m) => Some([m])
    case List(items) => Dicts(items)
    case Text(_) => None
  }

  function Dicts(items: seq<Value>): Option<seq<map<string, Value>>> {
    if items == [] then Some([])
    else
      var front, last := Dicts(items[..|items| - 1]), items[|items| - 1];
      if front.None? || !last.Dict? then None else Some(front.value + [last.entries])
  }

  /** What is already there wins over what is merged later. */
  function MergeAll(m: map<string, Value>, merges: seq<map<string, Value>>): map<string, Value> {
    if merges == [] then m else merges[|merges| - 1] + MergeAll(m, merges[..|merges| - 1])
  }

  function AddPair(g: Gathering, key: Value, v: Value, size: nat): Gathering {
    if g.BadPairs? || !key.Text? || key.text in g.keys then BadPairs
    else if key.text != MERGE then
      Gathered(g.keys + {key.text}, g.written[key.text := v], g.merges, g.size + size)
    else
      var merges := MergesOf(v);
      if merges.None? then BadPairs else Gathered(g.keys + {key.text}, g.written, g.merges + merges.value, g.size + size)
  }

  function Unfold(doc: Document, i: int, depth: nat): Unfolding
    decreases DEPTH_LIMIT + 1 - depth, 0, 0
  {
    if depth > DEPTH_LIMIT || !(0 <= i < |doc|) || !GoodTag(doc[i].tag) then Bad
    else match doc[i]
      case Scalar(_, text) => Tree(Text(text), 1)
      case Sequence(_, items) =>
        var r := UnfoldItems(doc, items, depth + 1);
        if r.BadList? then Bad else Tree(List(r.values), 1 + r.size)
      case Mapping(_, pairs) =>
        var r := UnfoldPairs(doc, pairs, depth + 1);
        if r.BadPairs? then Bad else Tree(Dict(MergeAll(r.written, r.merges)), 1 + r.size)
      case Unknown(_) => Bad
  }

  function UnfoldItems(doc: Document, items: seq<int>, depth: nat): Unfoldings
    decreases DEPTH_LIMIT + 1 - depth, 1, |items|
  {
    if items == [] then Trees([], 0)
    else
      var front := UnfoldItems(doc, items[..|items| - 1], depth);
      var last := Unfold(doc, items[|items| - 1], depth);
      if front.BadList? || last.Bad? then BadList else Trees(front.values + [last.value], front.size + last.size)
  }

  function UnfoldPairs(doc: Document, pairs: seq<(int, int)>, depth: nat): Gathering
    decreases DEPTH_LIMIT + 1 - depth, 1, |pairs|
  {
    if pairs == [] then Gathered({}, map[], [], 0)
    else
      var front := UnfoldPairs(doc, pairs[..|pairs| - 1], depth);
      var key := Unfold(doc, pairs[|pairs| - 1].0, depth);
      var v := Unfold(doc, pairs[|pairs| - 1].1, depth);
      if key.Bad? || v.Bad? then BadPairs else AddPair(front, key.value, v.value, key.size + v.size)
  }

  /** The value of a sequence is the list of the values of its items, in their order, and its size counts them
      all and itself. */
  lemma {:induction false} ItemsExactly(doc: Document, items: seq<int>, depth: nat, k: nat)
    requires k < |items|
    ensures var r := UnfoldItems(doc, items, depth);
            r.Trees? ==> |r.values| == |items| && Unfold(doc, items[k], depth).Tree? && Unfold(doc, items[k], depth).value == r.values[k]
    ensures UnfoldItems(doc, items, depth).BadList? ==> exists i :: 0 <= i < |items| && Unfold(doc, items[i], depth).Bad?
    decreases |items|
  {
    var n := |items| - 1;
    if n > 0 {
      ItemsExactly(doc, items[..n], depth, if k < n then k else 0);
      if i :| 0 <= i < n && Unfold(doc, items[..n][i], depth).Bad? {
        assert Unfold(doc, items[i], depth).Bad?;
      }
    } else {
      assert items[..n] == [];
    }
    assert UnfoldItems(doc, items, depth).BadList? && Unfold(doc, items[n], depth).Bad? ==>
           exists i :: 0 <= i < |items| && Unfold(doc, items[i], depth).Bad?;
  }

  /** The value of a mapping has, for each of its pairs but a merge, the value written there, and nothing else beats
      it; keys are texts, and no two are the same. */
  lemma {:induction false} PairsExactly(doc: Document, pairs: seq<(int, int)>, depth: nat, k: nat)
    requires k < |pairs| && UnfoldPairs(doc, pairs, depth).Gathered?
    ensures var g, key, v := UnfoldPairs(doc, pairs, depth), Unfold(doc, pairs[k].0, depth), Unfold(doc, pairs[k].1, depth);
            && key.Tree? && key.value.Text? && v.Tree? && key.value.text in g.keys
            && (key.value.text != "<<" ==> key.value.text in g.written && g.written[key.value.text] == v.value
                                           && key.value.text in MergeAll(g.written, g.merges)
                                           && MergeAll(g.written, g.merges)[key.value.text] == v.value)
    decreases |pairs|
  {
    var n := |pairs| - 1;
    var g := UnfoldPairs(doc, pairs, depth);
    if k < n {
      PairsExactly(doc, pairs[..n], depth, k);
    }
    var key := Unfold(doc, pairs[k].0, depth);
    if key.value.text != "<<" {
      MergePrecedence(g.written, g.merges, key.value.text);
    }
  }

  /** The merges of a mapping are those of its one merge key. */
  lemma {:induction false} MergeKeyExactly(doc: Document, pairs: seq<(int, int)>, depth: nat)
    requires UnfoldPairs(doc, pairs, depth).Gathered?
    ensures var g := UnfoldPairs(doc, pairs, depth);
            && ("<<" !in g.keys ==> g.merges == [])
            && forall k :: 0 <= k < |pairs| && IsTextOf(doc, pairs[k].0, depth, "<<") ==>
                             Unfold(doc, pairs[k].1, depth).Tree? && MergesOf(Unfold(doc, pairs[k].1, depth).value) == Some(g.merges)
    decreases |pairs|
  {
    if pairs != [] {
      var n := |pairs| - 1;
      var front := pairs[..n];
      MergeKeyExactly(doc, front, depth);
      var g, before := UnfoldPairs(doc, pairs, depth), UnfoldPairs(doc, front, depth);
      forall k | 0 <= k < |pairs| && IsTextOf(doc, pairs[k].0, depth, "<<")
        ensures Unfold(doc, pairs[k].1, depth).Tree? && MergesOf(Unfold(doc, pairs[k].1, depth).value) == Some(g.merges)
      {
        if k < n {
          PairsExactly(doc, front, depth, k);
          assert front[k] == pairs[k] && "<<" in before.keys;
          assert g.merges == before.merges;
        } else {
          assert before.merges == [] && g.merges == MergesOf(Unfold(doc, pairs[n].1, depth).value).value;
        }
      }
    }
  }

  /** What a merge key contributes: one mapping, or the mappings of a list in their order; nothing else is
      allowed. */
  lemma MergesExactly(v: Value)
    ensures MergesOf(v).Some? <==> v.Dict? || (v.List? && forall i :: 0 <= i < |v.items| ==> v.items[i].Dict?)
    ensures v.Dict? ==> MergesOf(v) == Some([v.entries])
    ensures v.List? && MergesOf(v).Some? ==>
              |MergesOf(v).value| == |v.items| && forall i :: 0 <= i < |v.items| ==> MergesOf(v).value[i] == v.items[i].entries
  {
    if v.List? {
      DictsExactly(v.items);
    }
  }

  lemma {:induction false} DictsExactly(items: seq<Value>)
    ensures Dicts(items).Some? <==> forall i :: 0 <= i < |items| ==> items[i].Dict?
    ensures Dicts(items).Some? ==>
              |Dicts(items).value| == |items| && forall i :: 0 <= i < |items| ==> Dicts(items).value[i] == items[i].entries
  {
    if items != [] {
      DictsExactly(items[..|items| - 1]);
    }
  }

  /** Why the pairs of a mapping are refused: a child does not unfold, a key is no text or was there before, or
      a merge is no mapping or list of mappings. */
  ghost predicate RefusedPair(doc: Document, pairs: seq<(int, int)>, depth: nat, k: nat)
    requires k < |pairs|
  {
    var key, v := Unfold(doc, pairs[k].0, depth), Unfold(doc, pairs[k].1, depth);
    || key.Bad? || v.Bad? || !key.value.Text?
    || (key.value.text == "<<" && MergesOf(v.value).None?)
    || HasKey(doc, pairs, depth, k, key.value.text)
  }

  ghost predicate IsTextOf(doc: Document, i: int, depth: nat, text: string) {
    Unfold(doc, i, depth).Tree? && Unfold(doc, i, depth).value == Text(text)
  }

  /** A text is among the keys of the first `n` pairs. */
  ghost predicate HasKey(doc: Document, pairs: seq<(int, int)>, depth: nat, n: nat, text: string)
    requires n <= |pairs|
  {
    exists j :: 0 <= j < n && IsTextOf(doc, pairs[j].0, depth, text)
  }

  ghost predicate AnyRefused(doc: Document, pairs: seq<(int, int)>, depth: nat, n: nat)
    requires n <= |pairs|
  {
    exists k :: 0 <= k < n && RefusedPair(doc, pairs, depth, k)
  }

  lemma {:induction false} KeysExactly(doc: Document, pairs: seq<(int, int)>, depth: nat, n: nat, text: string)
    requires n <= |pairs| && UnfoldPairs(doc, pairs[..n], depth).Gathered?
    ensures text in UnfoldPairs(doc, pairs[..n], depth).keys <==> HasKey(doc, pairs, depth, n, text)
    decreases n
  {
    if n > 0 {
      PairsStep(doc, pairs, n - 1, depth);
      KeysExactly(doc, pairs, depth, n - 1, text);
      assert HasKey(doc, pairs, depth, n, text) <==> HasKey(doc, pairs, depth, n - 1, text) || IsTextOf(doc, pairs[n - 1].0, depth, text);
    }
  }

  lemma {:induction false} RefusedUpTo(doc: Document, pairs: seq<(int, int)>, depth: nat, n: nat)
    requires n <= |pairs|
    ensures UnfoldPairs(doc, pairs[..n], depth).BadPairs? <==> AnyRefused(doc, pairs, depth, n)
    decreases n
  {
    if n > 0 {
      RefusedUpTo(doc, pairs, depth, n - 1);
      PairsStep(doc, pairs, n - 1, depth);
      assert AnyRefused(doc, pairs, depth, n) <==> AnyRefused(doc, pairs, depth, n - 1) || RefusedPair(doc, pairs, depth, n - 1);
      var key := Unfold(doc, pairs[n - 1].0, depth);
      if UnfoldPairs(doc, pairs[..n - 1], depth).Gathered? && key.Tree? && key.value.Text? {
        KeysExactly(doc, pairs, depth, n - 1, key.value.text);
      }
    }
  }

  lemma RefusedPairsExactly(doc: Document, pairs: seq<(int, int)>, depth: nat)
    ensures UnfoldPairs(doc, pairs, depth).BadPairs? <==> exists k :: 0 <= k < |pairs| && RefusedPair(doc, pairs, depth, k)
  {
    RefusedUpTo(doc, pairs, depth, |pairs|);
    assert pairs[..|pairs|] == pairs;
  }

  /** Each kind of node: a scalar is its text, a sequence a list, a mapping its own entries with its merges, and
      anything else is refused. */
  lemma NodesExactly(doc: Document, i: int, depth: nat)
    requires 0 <= i < |doc| && depth <= 64 && (doc[i].tag == "" || "tag:yaml.org,2002:" <= doc[i].tag)
    ensures var u := Unfold(doc, i, depth);
            match doc[i]
            case Scalar(_, text) => u == Tree(Text(text), 1)
            case Sequence(_, items) =>
              var r := UnfoldItems(doc, items, depth + 1);
              if r.Trees? then u == Tree(List(r.values), r.size + 1) else u == Bad
            case Mapping(_, pairs) =>
              var g := UnfoldPairs(doc, pairs, depth + 1);
              if g.Gathered? then u == Tree(Dict(MergeAll(g.written, g.merges)), g.size + 1) else u == Bad
            case Unknown(_) => u == Bad
  {
  }

  /** Only nodes without a tag, or with one of the core tags, unfold. */
  lemma TagsExactly(doc: Document, i: int, depth: nat)
    ensures Unfold(doc, i, depth).Tree? ==> 0 <= i < |doc| && (doc[i].tag == "" || "tag:yaml.org,2002:" <= doc[i].tag)
  {
  }

  /** `n` sequences inside each other, around a scalar. */
  function Nest(n: nat): Document {
    seq(n + 1, i requires 0 <= i <= n => if i < n then Sequence("", [i + 1]) else Scalar("", "x"))
  }

  lemma {:induction false} NestFrom(n: nat, i: nat, depth: nat)
    requires i <= n
    ensures Unfold(Nest(n), i, depth).Tree? <==> depth + (n - i) <= 64
    ensures Unfold(Nest(n), i, depth).Tree? ==> Unfold(Nest(n), i, depth).size == n - i + 1
    decreases n - i
  {
    if i < n {
      NestFrom(n, i + 1, depth + 1);
      assert Nest(n)[i] == Sequence("", [i + 1]);
      assert [i + 1][..0] == [] && UnfoldItems(Nest(n), [], depth + 1) == Trees([], 0);
    }
  }

  /** The depth limit, from both sides: 64 levels below the root unfold, 65 do not; and the size counts nodes. */
  lemma DepthLimitExactly(n: nat)
    ensures Unfold(Nest(n), 0, 0).Tree? <==> n <= 64
    ensures n <= 64 ==> Unfold(Nest(n), 0, 0).size == n + 1
  {
    NestFrom(n, 0, 0);
  }

  // ---------------------------------------------------------------- merge keys

  /** A mapping's own entries win over merged ones, and an earlier merge wins over a later one. */
  lemma {:induction false} MergePrecedence(m: map<string, Value>, merges: seq<map<string, Value>>, k: string)
    ensures k in MergeAll(m, merges) <==> k in m || exists i :: 0 <= i < |merges| && k in merges[i]
    ensures k in m ==> MergeAll(m, merges)[k] == m[k]
    ensures forall i :: 0 <= i < |merges| && k !in m && k in merges[i] && (forall j :: 0 <= j < i ==> k !in merges[j]) ==>
                          MergeAll(m, merges)[k] == merges[i][k]
  {
    if merges != [] {
      var n := |merges| - 1;
      var front := merges[..n];
      MergePrecedence(m, front, k);
      assert forall i :: 0 <= i < n ==> front[i] == merges[i];
      assert MergeAll(m, merges) == merges[n] + MergeAll(m, front);
    }
  }

  /** The merge key itself never shows up in a decoded mapping. */
  lemma {:induction false} MergeKeyIsNoEntry(doc: Document, pairs: seq<(int, int)>, depth: nat)
    ensures var g := UnfoldPairs(doc, pairs, depth);
            g.Gathered? ==> MERGE !in g.written && g.written.Keys == g.keys - {MERGE} && |g.keys| == |pairs|
    decreases |pairs|
  {
    if pairs != [] {
      MergeKeyIsNoEntry(doc, pairs[..|pairs| - 1], depth);
    }
  }

  // ---------------------------------------------------------------- cycles

  predicate Child(doc: Document, a: int, b: int) {
    && 0 <= a < |doc|
    && match doc[a]
       case Sequence(_, items) => b in items
       case Mapping(_, pairs) => exists p :: p in pairs && (p.0 == b || p.1 == b)
       case _ => false
  }

  lemma {:induction false} GoodItems(doc: Document, items: seq<int>, depth: nat, b: int)
    requires UnfoldItems(doc, items, depth).Trees? && b in items
    ensures Unfold(doc, b, depth).Tree?
    decreases |items|
  {
    if b != items[|items| - 1] {
      GoodItems(doc, items[..|items| - 1], depth, b);
    }
  }

  lemma {:induction false} GoodPairs(doc: Document, pairs: seq<(int, int)>, depth: nat, p: (int, int))
    requires UnfoldPairs(doc, pairs, depth).Gathered? && p in pairs
    ensures Unfold(doc, p.0, depth).Tree? && Unfold(doc, p.1, depth).Tree?
    decreases |pairs|
  {
    if p != pairs[|pairs| - 1] {
      GoodPairs(doc, pairs[..|pairs| - 1], depth, p);
    }
  }

  /** The children of a good node are good, one level down. */
  lemma GoodChild(doc: Document, a: int, b: int, depth: nat)
    requires Unfold(doc, a, depth).Tree? && Child(doc, a, b)
    ensures Unfold(doc, b, depth + 1).Tree?
  {
    match doc[a]
    case Sequence(_, items) => GoodItems(doc, items, depth + 1, b);
    case Mapping(_, pairs) =>
      var p :| p in pairs && (p.0 == b || p.1 == b);
      GoodPairs(doc, pairs, depth + 1, p);
  }

  /** Each node of a path is a child of the one before it, and `i` is a child of the last. */
  predicate IsPath(doc: Document, path: seq<int>, i: int) {
    && (forall k :: 0 <= k < |path| - 1 ==> Child(doc, path[k], path[k + 1]))
    && (path != [] ==> Child(doc, path[|path| - 1], i))
  }

  lemma {:induction false} GoodPath(doc: Document, path: seq<int>, i: int, depth: nat)
    requires path != [] && IsPath(doc, path, i) && Unfold(doc, path[0], depth).Tree?
    ensures Unfold(doc, i, depth + |path|).Tree?
    decreases |path|
  {
    if |path| == 1 {
      GoodChild(doc, path[0], i, depth);
    } else {
      GoodChild(doc, path[0], path[1], depth);
      GoodPath(doc, path[1..], i, depth + 1);
    }
  }

  /** A node on a cycle has no unfolding at any depth: it would be too deep. */
  lemma {:induction false} CycleIsBad(doc: Document, cycle: seq<int>, depth: nat)
    requires cycle != [] && IsPath(doc, cycle, cycle[0])
    ensures Unfold(doc, cycle[0], depth).Bad?
    decreases DEPTH_LIMIT + 1 - depth
  {
    if depth <= DEPTH_LIMIT {
      CycleIsBad(doc, cycle, depth + |cycle|);
      if Unfold(doc, cycle[0], depth).Tree? {
        GoodPath(doc, cycle, cycle[0], depth);
      }
    }
  }

  /** A node that is met again below itself has no unfolding. */
  lemma RevisitIsBad(doc: Document, path: seq<int>, i: int, depth: nat)
    requires IsPath(doc, path, i) && i in path
    ensures Unfold(doc, i, depth).Bad?
  {
    var j :| 0 <= j < |path| && path[j] == i;
    CycleIsBad(doc, path[j..], depth);
  }

  /** The depth only limits: where a node unfolds at two depths, it unfolds to the same tree, and it
      unfolds at every smaller depth. */
  lemma {:induction false} DepthOnlyLimits(doc: Document, i: int, depth: nat, d: nat)
    requires Unfold(doc, i, depth).Tree? && d <= depth
    ensures Unfold(doc, i, d) == Unfold(doc, i, depth)
    decreases DEPTH_LIMIT + 1 - depth, 0, 0
  {
    match doc[i]
    case Sequence(_, items) => ItemsDepthOnlyLimits(doc, items, depth + 1, d + 1);
    case Mapping(_, pairs) => PairsDepthOnlyLimits(doc, pairs, depth + 1, d + 1);
    case _ =>
  }

  lemma {:induction false} ItemsDepthOnlyLimits(doc: Document, items: seq<int>, depth: nat, d: nat)
    requires UnfoldItems(doc, items, depth).Trees? && d <= depth
    ensures UnfoldItems(doc, items, d) == UnfoldItems(doc, items, depth)
    decreases DEPTH_LIMIT + 1 - depth, 1, |items|
  {
    if items != [] {
      ItemsDepthOnlyLimits(doc, items[..|items| - 1], depth, d);
      DepthOnlyLimits(doc, items[|items| - 1], depth, d);
    }
  }

  lemma {:induction false} PairsDepthOnlyLimits(doc: Document, pairs: seq<(int, int)>, depth: nat, d: nat)
    requires UnfoldPairs(doc, pairs, depth).Gathered? && d <= depth
    ensures UnfoldPairs(doc, pairs, d) == UnfoldPairs(doc, pairs, depth)
    decreases DEPTH_LIMIT + 1 - depth, 1, |pairs|
  {
    if pairs != [] {
      PairsDepthOnlyLimits(doc, pairs[..|pairs| - 1], depth, d);
      DepthOnlyLimits(doc, pairs[|pairs| - 1].0, depth, d);
      DepthOnlyLimits(doc, pairs[|pairs| - 1].1, depth, d);
    }
  }

  // ---------------------------------------------------------------- the decoder

  class Decoder {
    const doc: Document
    var budget: int
    var visiting: set<int>

    /** The calls made so far. */
    ghost var calls: nat

    constructor (d: Document)
      ensures doc == d && budget == BUDGET && visiting == {} && calls == 0
    {
      doc, budget, visiting, calls := d, BUDGET, {}, 0;
    }

    /** `decode`, below the nodes of `path`: it succeeds exactly when the node has an unfolding that
        fits the remaining budget, and then returns the value of that unfolding. */
    method Decode(i: int, depth: nat, ghost path: seq<int>) returns (r: Option<Value>)
      requires depth <= DEPTH_LIMIT + 1 && budget >= 0
      requires IsPath(doc, path, i) && visiting == set n | n in path
      modifies this`budget, this`visiting, this`calls
      ensures visiting == old(visiting)
      ensures budget >= -1 && calls - old(calls) == old(budget) - budget
      ensures var u := Unfold(doc, i, depth);
              && (r.Some? <==> u.Tree? && u.size <= old(budget))
              && (r.Some? ==> r.value == u.value && budget == old(budget) - u.size)
      decreases DEPTH_LIMIT + 1 - depth, 0, 0
    {
      budget := budget - 1;
      calls := calls + 1;
      if i in visiting {
        RevisitIsBad(doc, path, i, depth);
        return None;
      }
      if !(0 <= i < |doc|) || depth > DEPTH_LIMIT || budget < 0 {
        UnfoldingIsNotEmpty(doc, i, depth);
        return None;
      }
      if !GoodTag(doc[i].tag) {
        return None;
      }
      visiting := visiting + {i};
      r := DecodeNode(i, depth, path);
      visiting := visiting - {i};
    }

    method DecodeNode(i: int, depth: nat, ghost path: seq<int>) returns (r: Option<Value>)
      requires 0 <= i < |doc| && depth <= DEPTH_LIMIT && budget >= 0 && GoodTag(doc[i].tag)
      requires IsPath(doc, path, i) && visiting == set n | n in path + [i]
      modifies this`budget, this`visiting, this`calls
      ensures visiting == old(visiting)
      ensures budget >= -1 && calls - old(calls) == old(budget) - budget
      ensures var u := Unfold(doc, i, depth);
              && (r.Some? <==> u.Tree? && u.size - 1 <= old(budget))
              && (r.Some? ==> r.value == u.value && budget == old(budget) - (u.size - 1))
      decreases DEPTH_LIMIT - depth, 2, 0
    {
      match doc[i] {
        case Scalar(_, text) =>
          r := Some(Text(text));
        case Sequence(_, items) =>
          var values := DecodeItems(i, items, depth + 1, path + [i]);
          r := if values.None? then None else Some(List(values.value));
        case Mapping(_, pairs) =>
          var g := DecodePairs(i, pairs, depth + 1, path + [i]);
          if g.BadPairs? {
            return None;
          }
          var m := MergeInOrder(g.written, g.merges);
          r := Some(Dict(m));
        case Unknown(_) =>
          r := None;
      }
    }

    /** The loop over the items of a sequence. */
    method DecodeItems(parent: int, items: seq<int>, depth: nat, ghost path: seq<int>) returns (r: Option<seq<Value>>)
      requires depth <= DEPTH_LIMIT + 1 && budget >= 0
      requires 0 <= parent < |doc| && doc[parent].Sequence? && doc[parent].items == items
      requires path != [] && path[|path| - 1] == parent && IsPath(doc, path[..|path| - 1], parent)
      requires visiting == set n | n in path
      modifies this`budget, this`visiting, this`calls
      ensures visiting == old(visiting)
      ensures budget >= -1 && calls - old(calls) == old(budget) - budget
      ensures var u := UnfoldItems(doc, items, depth);
              && (r.Some? <==> u.Trees? && u.size <= old(budget))
              && (r.Some? ==> r.value == u.values && budget == old(budget) - u.size)
      decreases DEPTH_LIMIT + 1 - depth, 1, 0
    {
      var values: seq<Value> := [];
      for k := 0 to |items|
        invariant visiting == old(visiting)
        invariant budget >= 0 && calls - old(calls) == old(budget) - budget
        invariant var u := UnfoldItems(doc, items[..k], depth); u.Trees? && u.values == values && budget == old(budget) - u.size
      {
        ItemsStep(doc, items, k, depth);
        ItemsPrefix(doc, items, k + 1, depth);
        PathStep(doc, path, parent, items[k]);
        var v := Decode(items[k], depth, path);
        if v.None? {
          return None;
        }
        values := values + [v.value];
      }
      assert items[..|items|] == items;
      r := Some(values);
    }

    /** The loop over the pairs of a mapping. */
    method DecodePairs(parent: int, pairs: seq<(int, int)>, depth: nat, ghost path: seq<int>) returns (g: Gathering)
      requires depth <= DEPTH_LIMIT + 1 && budget >= 0
      requires 0 <= parent < |doc| && doc[parent].Mapping? && doc[parent].pairs == pairs
      requires path != [] && path[|path| - 1] == parent && IsPath(doc, path[..|path| - 1], parent)
      requires visiting == set n | n in path
      modifies this`budget, this`visiting, this`calls
      ensures visiting == old(visiting)
      ensures budget >= -1 && calls - old(calls) == old(budget) - budget
      ensures var u := UnfoldPairs(doc, pairs, depth);
              && (g.Gathered? <==> u.Gathered? && u.size <= old(budget))
              && (g.Gathered? ==> g == u && budget == old(budget) - u.size)
      decreases DEPTH_LIMIT + 1 - depth, 1, 1
    {
      g := Gathered({}, map[], [], 0);
      for k := 0 to |pairs|
        invariant visiting == old(visiting)
        invariant budget >= 0 && calls - old(calls) == old(budget) - budget
        invariant g.Gathered? && g == UnfoldPairs(doc, pairs[..k], depth) && budget == old(budget) - g.size
      {
        PairsStep(doc, pairs, k, depth);
        PairsPrefix(doc, pairs, k + 1, depth);
        g := DecodePair(parent, pairs, k, g, depth, path);
        if g.BadPairs? {
          return;
        }
      }
      assert pairs[..|pairs|] == pairs;
    }

    /** One round of that loop: the key, then its checks, then the value. */
    method DecodePair(parent: int, pairs: seq<(int, int)>, k: nat, before: Gathering, depth: nat, ghost path: seq<int>) returns (g: Gathering)
      requires depth <= DEPTH_LIMIT + 1 && budget >= 0 && k < |pairs| && before.Gathered?
      requires 0 <= parent < |doc| && doc[parent].Mapping? && doc[parent].pairs == pairs
      requires path != [] && path[|path| - 1] == parent && IsPath(doc, path[..|path| - 1], parent)
      requires visiting == set n | n in path
      modifies this`budget, this`visiting, this`calls
      ensures visiting == old(visiting)
      ensures budget >= -1 && calls - old(calls) == old(budget) - budget
      ensures var u := PairAdded(doc, before, pairs[k], depth);
              && (g.Gathered? <==> u.Gathered? && u.size - before.size <= old(budget))
              && (g.Gathered? ==> g == u && budget == old(budget) - (u.size - before.size) && budget >= 0)
      decreases DEPTH_LIMIT + 1 - depth, 1, 0
    {
      assert pairs[k] in pairs;
      PathStep(doc, path, parent, pairs[k].0);
      PathStep(doc, path, parent, pairs[k].1);
      var key := Decode(pairs[k].0, depth, path);
      if key.None? {
        return BadPairs;
      }
      if !key.value.Text? || key.value.text in before.keys {
        return BadPairs;
      }
      var v := Decode(pairs[k].1, depth, path);
      if v.None? {
        return BadPairs;
      }
      g := AddPair(before, key.value, v.value, Unfold(doc, pairs[k].0, depth).size + Unfold(doc, pairs[k].1, depth).size);
    }

    /** The final loop over the merges: a key that exists is not overwritten. */
    method MergeInOrder(written: map<string, Value>, merges: seq<map<string, Value>>) returns (m: map<string, Value>)
      ensures m == MergeAll(written, merges)
    {
      m := written;
      for i := 0 to |merges|
        invariant m == MergeAll(written, merges[..i])
      {
        m := MergeOne(m, merges[i]);
        assert merges[..i + 1][..i] == merges[..i];
      }
      assert merges[..|merges|] == merges;
    }

    /** The loop over one merged mapping, in any order. */
    method MergeOne(m: map<string, Value>, mm: map<string, Value>) returns (r: map<string, Value>)
      ensures r == mm + m
    {
      r := m;
      var todo := mm.Keys;
      while todo != {}
        invariant todo <= mm.Keys
        invariant r == (map k | k in mm.Keys - todo :: mm[k]) + m
        decreases |todo|
      {
        var k :| k in todo;
        todo := todo - {k};
        if k !in r {
          r := r[k := mm[k]];
        }
      }
    }
  }

  lemma UnfoldingIsNotEmpty(doc: Document, i: int, depth: nat)
    ensures Unfold(doc, i, depth).Tree? ==> Unfold(doc, i, depth).size >= 1
  {
  }

  lemma PathStep(doc: Document, path: seq<int>, parent: int, child: int)
    requires path != [] && path[|path| - 1] == parent && IsPath(doc, path[..|path| - 1], parent) && Child(doc, parent, child)
    ensures IsPath(doc, path, child)
  {
  }

  lemma ItemsStep(doc: Document, items: seq<int>, k: nat, depth: nat)
    requires k < |items|
    ensures var front, last := UnfoldItems(doc, items[..k], depth), Unfold(doc, items[k], depth);
            UnfoldItems(doc, items[..k + 1], depth) ==
            if front.BadList? || last.Bad? then BadList else Trees(front.values + [last.value], front.size + last.size)
  {
    assert items[..k + 1][..k] == items[..k];
  }

  /** A sequence is no smaller than a part of it. */
  lemma {:induction false} ItemsPrefix(doc: Document, items: seq<int>, k: nat, depth: nat)
    requires k <= |items|
    ensures var all, front := UnfoldItems(doc, items, depth), UnfoldItems(doc, items[..k], depth);
            all.Trees? ==> front.Trees? && front.size <= all.size
    decreases |items|
  {
    if k < |items| {
      var n := |items| - 1;
      ItemsPrefix(doc, items[..n], k, depth);
      assert items[..n][..k] == items[..k];
    } else {
      assert items[..k] == items;
    }
  }

  function PairAdded(doc: Document, before: Gathering, p: (int, int), depth: nat): Gathering {
    var key, v := Unfold(doc, p.0, depth), Unfold(doc, p.1, depth);
    if key.Bad? || v.Bad? then BadPairs else AddPair(before, key.value, v.value, key.size + v.size)
  }

  lemma PairsStep(doc: Document, pairs: seq<(int, int)>, k: nat, depth: nat)
    requires k < |pairs|
    ensures UnfoldPairs(doc, pairs[..k + 1], depth) == PairAdded(doc, UnfoldPairs(doc, pairs[..k], depth), pairs[k], depth)
  {
    assert pairs[..k + 1][..k] == pairs[..k];
  }

  lemma {:induction false} PairsPrefix(doc: Document, pairs: seq<(int, int)>, k: nat, depth: nat)
    requires k <= |pairs|
    ensures var all, front := UnfoldPairs(doc, pairs, depth), UnfoldPairs(doc, pairs[..k], depth);
            all.Gathered? ==> front.Gathered? && front.size <= all.size
    decreases |pairs|
  {
    if k < |pairs| {
      var n := |pairs| - 1;
      PairsPrefix(doc, pairs[..n], k, depth);
      assert pairs[..n][..k] == pairs[..k];
    } else {
      assert pairs[..k] == pairs;
    }
  }

  /** Decoding a document from its root, an empty document counting as an empty mapping: for every
      node graph, cyclic or not, at most 100001 calls are made, and the decoder accepts exactly the
      documents whose root unfolds to a mapping of at most 100000 nodes, and returns that mapping.
      The `visiting` set does not appear here: it never changes what is accepted. */
  method YamlMap(doc: Document, root: Option<int>) returns (r: Option<map<string, Value>>, ghost calls: nat)
    ensures root.None? ==> r == Some(map[])
    ensures root.Some? ==>
              var u := Unfold(doc, root.value, 0);
              && (r.Some? <==> u.Tree? && u.size <= 100000 && u.value.Dict?)
              && (r.Some? ==> Dict(r.value) == u.value)
    ensures calls <= 100001
  {
    if root.None? {
      return Some(map[]), 0;
    }
    var decoder := new Decoder(doc);
    var v := decoder.Decode(root.value, 0, []);
    calls := decoder.calls;
    if v.None? || !v.value.Dict? {
      return None, calls;
    }
    return Some(v.value.entries), calls;
  }
}
