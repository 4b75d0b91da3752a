/**
 * Filling platform values under a chart's own (deepMergeUnder in
 * internal/appservice/chartrewrite.go), on nested maps in the heap.
 */
module ValuesMerge {
  import opened Wrappers

  /** Nested values: what a heap tree of maps denotes. */
  datatype Tree = Scalar(value: string) | Table(entries: map<string, Tree>)

  /** The recursive left-biased union: chart values win, missing keys are filled. */
  function Merge(d: Tree, s: Tree): Tree {
    if !d.Table? || !s.Table? then d
    else
      Table(map k | k in d.entries.Keys + s.entries.Keys ::
              if k !in d.entries then s.entries[k]
              else if k !in s.entries then d.entries[k]
              else Merge(d.entries[k], s.entries[k]))
  }

  // ---------------------------------------------------------------- what merging means

  function Find(t: Tree, path: seq<string>): Option<Tree>
    decreases |path|
  {
    if path == [] then Some(t)
    else if t.Table? && path[0] in t.entries then Find(t.entries[path[0]], path[1..])
    else None
  }

  /** The path leaves `t` at a table that lacks its next key, not at a scalar. */
  predicate Missing(t: Tree, path: seq<string>)
    decreases |path|
  {
    path != [] && t.Table? && (path[0] in t.entries ==> Missing(t.entries[path[0]], path[1..]))
  }

  /**
   * What stands at a path: what the chart has there, with the platform's filled under it, and where the chart
   * misses the path, what the platform has.
   */
  lemma {:induction false} MergedAt(d: Tree, s: Tree, path: seq<string>)
    ensures var chart, platform := Find(d, path), Find(s, path);
      Find(Merge(d, s), path)
      == if chart.Some? then Some(if platform.Some? then Merge(chart.value, platform.value) else chart.value)
         else if Missing(d, path) then platform
         else None
    decreases |path|
  {
    if path != [] && d.Table? && s.Table? && path[0] in d.entries && path[0] in s.entries {
      MergedAt(d.entries[path[0]], s.entries[path[0]], path[1..]);
    }
  }

  /** A value of the chart that is no table stays, and so does a table where the platform has none. */
  lemma ChartWins(d: Tree, s: Tree, path: seq<string>)
    requires Find(d, path).Some?
    requires Find(d, path).value.Table? ==> !(Find(s, path).Some? && Find(s, path).value.Table?)
    ensures Find(Merge(d, s), path) == Find(d, path)
  {
    MergedAt(d, s, path);
  }

  /** Where both have a table stands one with the keys of both, and below a key that one lacks what the other has. */
  lemma TablesUnite(d: Tree, s: Tree, path: seq<string>)
    requires Find(d, path).Some? && Find(d, path).value.Table? && Find(s, path).Some? && Find(s, path).value.Table?
    ensures var chart, platform, merged := Find(d, path).value, Find(s, path).value, Find(Merge(d, s), path);
      && merged.Some? && merged.value.Table?
      && merged.value.entries.Keys == chart.entries.Keys + platform.entries.Keys
      && (forall k :: k in chart.entries && k !in platform.entries ==> merged.value.entries[k] == chart.entries[k])
      && (forall k :: k in platform.entries && k !in chart.entries ==> merged.value.entries[k] == platform.entries[k])
  {
    MergedAt(d, s, path);
  }

  /** Merging the same values again changes nothing. */
  lemma {:induction false} MergeIdempotent(d: Tree, s: Tree)
    ensures Merge(Merge(d, s), s) == Merge(d, s)
  {
    if d.Table? && s.Table? {
      var once := Merge(d, s);
      forall k | k in once.entries && k in s.entries ensures Merge(once.entries[k], s.entries[k]) == once.entries[k] {
        if k in d.entries { MergeIdempotent(d.entries[k], s.entries[k]); } else { MergeSelf(s.entries[k]); }
      }
      assert Merge(once, s).entries == once.entries;
    }
  }

  lemma {:induction false} MergeSelf(t: Tree)
    ensures Merge(t, t) == t
  {
    if t.Table? {
      forall k | k in t.entries ensures Merge(t.entries[k], t.entries[k]) == t.entries[k] { MergeSelf(t.entries[k]); }
      assert Merge(t, t).entries == t.entries;
    }
  }

  // ---------------------------------------------------------------- maps on the heap

  datatype Val = Leaf(value: string) | Sub(node: Node)

  class Node {
    var entries: map<string, Val>
    ghost var repr: set<Node>

    /** The maps below form a tree. */
    ghost predicate Valid()
      reads this, repr
      decreases repr
    {
      && this in repr
      && (forall k :: k in entries && entries[k].Sub? ==>
            entries[k].node in repr && entries[k].node.repr <= repr && this !in entries[k].node.repr
                && entries[k].node.Valid())
      && (forall k, l :: k in entries && l in entries && k != l && entries[k].Sub? && entries[l].Sub? ==>
            entries[k].node.repr !! entries[l].node.repr)
    }

    ghost function Value(): Tree
      requires Valid()
      reads this, repr
      decreases repr
    {
      Table(map k | k in entries :: match entries[k] case Leaf(v) => Scalar(v) case Sub(n) => n.Value())
    }

    ghost function At(k: string): Tree
      requires Valid() && k in entries
      reads this, repr
      ensures Value().entries[k] == At(k)
    {
      match entries[k] case Leaf(v) => Scalar(v) case Sub(n) => n.Value()
    }

    /** The nodes below one key. */
    ghost function Below(k: string): set<Node>
      requires k in entries
      reads this, if entries[k].Sub? then {entries[k].node} else {}
    {
      if entries[k].Sub? then entries[k].node.repr else {}
    }
  }

  /** Merge `src` under `dst`, taking the keys of `src` in any order. */
  method DeepMergeUnder(dst: Node, src: Node)
    requires dst.Valid() && src.Valid() && dst.repr !! src.repr
    modifies dst.repr
    ensures dst.Valid() && dst.repr <= old(dst.repr) + src.repr
    ensures src.Valid() && src.Value() == old(src.Value())
    ensures dst.Value() == Merge(old(dst.Value()), old(src.Value()))
    decreases src.repr, 2
  {
    ghost var d0, s0, r0 := dst.Value(), src.Value(), dst.repr;
    var todo := src.entries.Keys;
    while todo != {}
      invariant todo <= src.entries.Keys && src.entries == old(src.entries) && src.repr == old(src.repr)
      invariant Progress(dst, src, d0, s0, r0, todo)
      decreases todo
    {
      var k :| k in todo;
      MergeOne(dst, src, k, todo, d0, s0, r0);
      todo := todo - {k};
    }
    MergedAll(d0, s0);
    DenotesValue(dst, MergedSoFar(d0, s0, {}));
  }

  /** The loop invariant: the keys in `todo` are still to come. */
  ghost predicate Progress(dst: Node, src: Node, d0: Tree, s0: Tree, r0: set<Node>, todo: set<string>)
    reads dst, dst.repr, src, src.repr
  {
    && d0.Table? && s0.Table? && r0 !! src.repr && dst in r0 && todo <= src.entries.Keys
    && dst.Valid() && src.Valid() && src.Value() == s0 && dst.repr <= r0 + src.repr && src !in dst.repr
    && (forall k :: k in todo ==> Untouched(dst, src, k, d0, r0))
    && Denotes(dst, MergedSoFar(d0, s0, todo))
  }

  /** The key that was done now has its merged value, the others what they had. */
  lemma DenotesOneMore(dst: Node, before: map<string, Tree>, d0: Tree, s0: Tree, todo: set<string>, k: string)
    requires dst.Valid() && d0.Table? && s0.Table? && todo <= s0.entries.Keys && k in todo
    requires before == MergedSoFar(d0, s0, todo).entries && dst.entries.Keys == before.Keys + {k}
    requires forall l :: l in before && l != k ==> dst.At(l) == before[l]
    requires dst.At(k) == if k in d0.entries then Merge(d0.entries[k], s0.entries[k]) else s0.entries[k]
    ensures Denotes(dst, MergedSoFar(d0, s0, todo - {k}))
  {
    MergedOneMore(d0, s0, todo, k);
  }

  /** One iteration keeps the invariant. */
  method MergeOne(dst: Node, src: Node, k: string, ghost todo: set<string>, ghost d0: Tree, ghost s0: Tree,
      ghost r0: set<Node>)
    requires Progress(dst, src, d0, s0, r0, todo) && k in todo
    modifies {dst} + if k in dst.entries then dst.Below(k) else {}
    ensures src.entries == old(src.entries) && src.repr == old(src.repr)
    ensures Progress(dst, src, d0, s0, r0, todo - {k})
    decreases src.repr, 1, 1
  {
    assert Untouched(dst, src, k, d0, r0) && src.At(k) == s0.entries[k];
    ghost var before := MergedSoFar(d0, s0, todo).entries;
    MergeKey(dst, src, k, todo - {k}, d0, r0);
    DenotesOneMore(dst, before, d0, s0, todo, k);
  }

  /** A key whose turn has not come: what `dst` has under it is as at the start, and shares nothing with `src`. */
  ghost predicate Untouched(dst: Node, src: Node, k: string, d0: Tree, r0: set<Node>)
    requires dst.Valid() && src.Valid() && k in src.entries && d0.Table?
    reads dst, dst.repr, src, src.repr
  {
    && dst.repr !! src.Below(k)
    && (k in dst.entries <==> k in d0.entries)
    && (k in dst.entries ==> dst.Below(k) <= r0 && dst.At(k) == d0.entries[k])
  }

  /** `n` has exactly the keys of the table, with its values. */
  ghost predicate Denotes(n: Node, t: Tree)
    requires n.Valid() && t.Table?
    reads n, n.repr
  {
    n.entries.Keys == t.entries.Keys && forall k :: k in n.entries ==> n.At(k) == t.entries[k]
  }

  lemma DenotesValue(n: Node, t: Tree)
    requires n.Valid() && t.Table? && Denotes(n, t)
    ensures n.Value() == t
  {
    assert n.Value().entries == t.entries by {
      forall k | k in n.entries ensures n.Value().entries[k] == t.entries[k] {
        assert n.At(k) == t.entries[k];
      }
    }
  }

  lemma MergedAll(d: Tree, s: Tree)
    requires d.Table? && s.Table?
    ensures MergedSoFar(d, s, {}) == Merge(d, s)
  {
    assert MergedSoFar(d, s, {}).entries == Merge(d, s).entries;
  }

  /** The merge with the keys in `todo` of the platform values still to come. */
  ghost function MergedSoFar(d: Tree, s: Tree, todo: set<string>): Tree
    requires d.Table? && s.Table?
  {
    Table(map k | k in d.entries.Keys + (s.entries.Keys - todo) ::
            if k in todo || k !in s.entries then d.entries[k]
            else if k !in d.entries then s.entries[k]
            else Merge(d.entries[k], s.entries[k]))
  }

  lemma MergedOneMore(d: Tree, s: Tree, todo: set<string>, k: string)
    requires d.Table? && s.Table? && todo <= s.entries.Keys && k in todo
    ensures var v := if k in d.entries then Merge(d.entries[k], s.entries[k]) else s.entries[k];
      MergedSoFar(d, s, todo - {k}).entries == MergedSoFar(d, s, todo).entries[k := v]
  {
  }

  /** The body of the loop for one key. */
  method MergeKey(dst: Node, src: Node, k: string, ghost todo: set<string>, ghost d0: Tree, ghost r0: set<Node>)
    requires dst.Valid() && src.Valid() && src !in dst.repr && k in src.entries && d0.Table? && r0 !! src.repr
             && dst in r0
    requires todo <= src.entries.Keys && k !in todo && Untouched(dst, src, k, d0, r0)
    requires forall l :: l in todo ==> Untouched(dst, src, l, d0, r0)
    modifies {dst} + if k in dst.entries then dst.Below(k) else {}
    ensures dst.Valid() && src.Valid() && src.Value() == old(src.Value()) && src.entries == old(src.entries)
            && src.repr == old(src.repr)
    ensures dst.repr <= old(dst.repr) + src.repr && src !in dst.repr
    ensures dst.entries.Keys == old(dst.entries.Keys) + {k}
    ensures forall l :: l in old(dst.entries) && l != k ==> dst.At(l) == old(dst.At(l))
    ensures dst.At(k) == if k in old(dst.entries) then Merge(d0.entries[k], old(src.At(k))) else old(src.At(k))
    ensures forall l :: l in todo ==> Untouched(dst, src, l, d0, r0)
    decreases src.repr, 1, 0
  {
    var srcVal := src.entries[k];
    if k !in dst.entries {
      AddKey(dst, src, k);
    } else {
      var dstVal := dst.entries[k];
      if srcVal.Sub? && dstVal.Sub? {
        MergeChild(dst, src, k);
      }
    }
    NodesKept(src);
  }

  /** A key missing in dst is added wholesale. */
  method AddKey(dst: Node, src: Node, k: string)
    requires dst.Valid() && src.Valid() && src !in dst.repr && k in src.entries && dst.repr !! src.Below(k)
    requires dst !in src.repr && k !in dst.entries
    modifies dst
    ensures dst.Valid() && dst.repr == old(dst.repr) + src.Below(k)
    ensures dst.entries == old(dst.entries)[k := src.entries[k]]
    ensures forall l :: l in old(dst.entries) ==> dst.Below(l) == old(dst.Below(l)) && dst.At(l) == old(dst.At(l))
    ensures dst.At(k) == old(src.At(k))
  {
    dst.entries := dst.entries[k := src.entries[k]];
    dst.repr := dst.repr + src.Below(k);
  }

  /** Both values are maps: recurse. */
  method MergeChild(dst: Node, src: Node, k: string)
    requires dst.Valid() && src.Valid() && src !in dst.repr && k in src.entries && dst.repr !! src.Below(k)
    requires dst !in src.repr && k in dst.entries && dst.Below(k) !! src.repr
    requires src.entries[k].Sub? && dst.entries[k].Sub?
    modifies {dst} + dst.Below(k)
    ensures dst.Valid() && dst.repr <= old(dst.repr) + src.Below(k) && dst.entries == old(dst.entries)
    ensures forall l :: l in dst.entries && l != k ==> dst.Below(l) == old(dst.Below(l)) && dst.At(l) == old(dst.At(l))
    ensures dst.At(k) == Merge(old(dst.At(k)), old(src.At(k)))
    decreases src.repr, 0
  {
    var child := dst.entries[k].node;
    DeepMergeUnder(child, src.entries[k].node);
    Regraft(dst, k);
  }

  ghost predicate Apart(a: Val, b: Val)
    reads if a.Sub? then {a.node} else {}, if b.Sub? then {b.node} else {}
  {
    a.Sub? && b.Sub? ==> a.node.repr !! b.node.repr
  }

  /** All of Valid but that the map below `k` may have outgrown this node's footprint. */
  ghost predicate ValidUpTo(n: Node, k: string)
    requires k in n.entries && n.entries[k].Sub?
    reads n, n.repr, n.entries[k].node, n.entries[k].node.repr
  {
    var child := n.entries[k].node;
    && n in n.repr && n !in child.repr && child.Valid()
    && (forall l :: l in n.entries && l != k && n.entries[l].Sub? ==>
          var c := n.entries[l].node;
          c in n.repr && c.repr <= n.repr && n !in c.repr && c.Valid() && c.repr !! child.repr)
    && (forall l, m :: l in n.entries && m in n.entries && l != m && l != k && m != k ==>
          Apart(n.entries[l], n.entries[m]))
  }

  /** Store the merged map back under its key. */
  method Regraft(dst: Node, k: string)
    requires k in dst.entries && dst.entries[k].Sub? && ValidUpTo(dst, k)
    modifies dst
    ensures dst.Valid() && dst.entries == old(dst.entries) && dst.repr == old(dst.repr) + dst.Below(k)
    ensures forall l :: l in dst.entries ==> dst.Below(l) == old(dst.Below(l))
    ensures forall l :: l in dst.entries && dst.entries[l].Sub? ==> dst.At(l) == old(dst.entries[l].node.Value())
  {
    dst.entries := dst.entries[k := Sub(dst.entries[k].node)];
    dst.repr := dst.repr + dst.entries[k].node.repr;
  }

  // ---------------------------------------------------------------- merging again

  /** Nothing of the platform's values is missing. */
  predicate Covered(d: Tree, s: Tree) {
    Merge(d, s) == d
  }

  lemma CoveredBelow(d: Tree, s: Tree, k: string)
    requires d.Table? && s.Table? && Covered(d, s) && k in s.entries
    ensures k in d.entries && Covered(d.entries[k], s.entries[k])
  {
    assert k in Merge(d, s).entries;
  }

  /** A tree whose nodes are as they were denotes what it did. */
  twostate lemma NodesKept(n: Node)
    requires old(n.Valid()) && forall m :: m in old(n.repr) ==> m.entries == old(m.entries) && m.repr == old(m.repr)
    ensures n.Valid() && n.Value() == old(n.Value())
    decreases old(n.repr)
  {
    var before, now := old(n.Value()).entries, n.Value().entries;
    forall k | k in n.entries ensures now[k] == before[k] {
      assert now[k] == n.At(k) && before[k] == old(n.At(k));
      if n.entries[k].Sub? { NodesKept(n.entries[k].node); }
    }
    assert now == before;
  }

  /**
   * The same loop where nothing is missing. The maps may be shared between the two, as a first merge leaves
   * them: no node changes.
   */
  method MergeAgain(dst: Node, src: Node)
    requires dst.Valid() && src.Valid() && Covered(dst.Value(), src.Value())
    modifies dst.repr
    ensures forall n :: n in old(dst.repr + src.repr) ==> n.entries == old(n.entries) && n.repr == old(n.repr)
    decreases src.repr, 1
  {
    var todo := src.entries.Keys;
    while todo != {}
      invariant todo <= src.entries.Keys
      invariant forall n :: n in old(dst.repr + src.repr) ==> n.entries == old(n.entries) && n.repr == old(n.repr)
      decreases todo
    {
      NodesKept(dst);
      NodesKept(src);
      var k :| k in todo;
      todo := todo - {k};
      MergeKeyAgain(dst, src, k);
    }
  }

  method MergeKeyAgain(dst: Node, src: Node, k: string)
    requires dst.Valid() && src.Valid() && Covered(dst.Value(), src.Value()) && k in src.entries
    modifies dst.repr
    ensures forall n :: n in old(dst.repr + src.repr) ==> n.entries == old(n.entries) && n.repr == old(n.repr)
    decreases src.repr, 0
  {
    CoveredBelow(dst.Value(), src.Value(), k); // so no key is missing in dst
    if src.entries[k].Sub? && dst.entries[k].Sub? {
      var child := dst.entries[k].node;
      assert Covered(dst.At(k), src.At(k));
      MergeAgain(child, src.entries[k].node);
      dst.entries := dst.entries[k := Sub(child)];
    }
  }

  /** Heap idempotence: a second merge right after the first changes no map of either tree, shared or not. */
  method MergeTwice(dst: Node, src: Node)
    requires dst.Valid() && src.Valid() && dst.repr !! src.repr
    modifies dst.repr, src.repr
    ensures dst.Valid() && dst.Value() == Merge(old(dst.Value()), old(src.Value()))
    ensures src.Valid() && src.Value() == old(src.Value())
  {
    DeepMergeUnder(dst, src);
    MergeIdempotent(old(dst.Value()), old(src.Value()));
    label once:
    MergeAgain(dst, src);
    assert forall n :: n in old@once(dst.repr + src.repr) ==>
        n.entries == old@once(n.entries) && n.repr == old@once(n.repr);
    NodesKept@once(dst);
    NodesKept@once(src);
  }
}
