/**
 * The three local steps of the link-cut tree, as functions on node snapshots:
 * `pushUp` (recompute an aggregate), `pushDown` (hand a pending reversal to
 * the children) and `rotate` (lift a node above its parent).  Each comes with
 * the facts the splay and access loops rely on.
 */
module LctSteps {
  import opened LctNodes

  /** `pushUp(x)`; the size bookkeeping follows the same rule. */
  function PushUpF(t: Nodes, x: int): (t': Nodes)
    requires Shaped(t) && Node(t, x)
    ensures Shaped(t') && |t'.parent| == |t.parent|
    ensures t'.sum[x] == t.val[x] + SumAt(t, t.left[x]) + SumAt(t, t.right[x])
    ensures forall y :: y != x && 0 <= y < |t.sum| ==> t'.sum[y] == t.sum[y]
    ensures t'.parent == t.parent && t'.left == t.left && t'.right == t.right
    ensures t'.val == t.val && t'.rev == t.rev
    ensures t'.size == t.size[x := 1 + Sz(t, t.left[x]) + Sz(t, t.right[x])]
  {
    t.(sum := t.sum[x := t.val[x] + SumAt(t, t.left[x]) + SumAt(t, t.right[x])],
       size := t.size[x := 1 + Sz(t, t.left[x]) + Sz(t, t.right[x])])
  }

  /** `pushDown(x)`. */
  function PushDownF(t: Nodes, x: int): (t': Nodes)
    requires Wf(t) && Node(t, x)
    ensures Shaped(t') && |t'.parent| == |t.parent|
    ensures !t.rev[x] ==> t' == t
    ensures t.rev[x] ==> t'.left[x] == t.right[x] && t'.right[x] == t.left[x] && !t'.rev[x]
    ensures t.rev[x] ==> forall y :: y != x && 0 <= y < |t.parent| ==>
      t'.left[y] == t.left[y] && t'.right[y] == t.right[y]
      && t'.rev[y] == (if y != 0 && (y == t.left[x] || y == t.right[x]) then !t.rev[y] else t.rev[y])
    ensures t'.parent == t.parent && t'.val == t.val && t'.sum == t.sum && t'.size == t.size
  {
    if t.rev[x] then
      var t1 := t.(left := t.left[x := t.right[x]], right := t.right[x := t.left[x]]);
      var t2 := if t1.left[x] != 0 then t1.(rev := t1.rev[t1.left[x] := !t1.rev[t1.left[x]]]) else t1;
      var t3 := if t2.right[x] != 0 then t2.(rev := t2.rev[t2.right[x] := !t2.rev[t2.right[x]]]) else t2;
      t3.(rev := t3.rev[x := false])
    else t
  }

  /** `pushDown` keeps the structure well formed and the aggregates consistent. */
  lemma PushDownWf(t: Nodes, x: int)
    requires Wf(t) && Node(t, x)
    ensures Wf(PushDownF(t, x))
    ensures Summed(t) ==> Summed(PushDownF(t, x))
  {
    var t' := PushDownF(t, x);
    if t.rev[x] {
      assert Linked(t') by {
        forall y | 1 <= y < |t'.parent|
          ensures (t'.left[y] != 0 ==> t'.parent[t'.left[y]] == y && t'.left[y] != t'.right[y])
                  && (t'.right[y] != 0 ==> t'.parent[t'.right[y]] == y)
        {
          if y != x {
            assert t'.left[y] == t.left[y] && t'.right[y] == t.right[y];
          }
        }
      }
      assert Sized(t') by {
        forall y | 1 <= y < |t'.parent|
          ensures t'.size[y] == 1 + Sz(t', t'.left[y]) + Sz(t', t'.right[y])
        {
          if y != x {
            assert t'.left[y] == t.left[y] && t'.right[y] == t.right[y];
          }
        }
      }
      if Summed(t) {
        forall y | 1 <= y < |t'.parent|
          ensures t'.sum[y] == t'.val[y] + SumAt(t', t'.left[y]) + SumAt(t', t'.right[y])
        {
          if y != x {
            assert t'.left[y] == t.left[y] && t'.right[y] == t.right[y];
          }
        }
      }
    }
  }

  /** `pushDown(x)` leaves the sequence at `x` as it was. */
  lemma PushDownSelf(t: Nodes, x: int, h: bool)
    requires Wf(t) && Node(t, x)
    ensures Wf(PushDownF(t, x)) && Seq(PushDownF(t, x), x, h) == Seq(t, x, h)
  {
    PushDownWf(t, x);
    var t' := PushDownF(t, x);
    if t.rev[x] {
      var l, r := t.left[x], t.right[x];
      NotBelowSelf(t, x);
      ChildrenDisjoint(t, x);
      var g := h != t.rev[x];
      if l != 0 {
        SeqToggled(t, t', l, !g);
      }
      if r != 0 {
        SeqToggled(t, t', r, !g);
      }
      if g {
        assert Seq(t', x, h) == Seq(t', r, !g) + [x] + Seq(t', l, !g);
      } else {
        assert Seq(t', x, h) == Seq(t', l, !g) + [x] + Seq(t', r, !g);
      }
    }
  }

  /** `pushDown(x)` changes no sequence read from `x` or from outside its
      subtree, and changes no node's splay-root status. */
  lemma PushDownKeeps(t: Nodes, x: int, y: int, f: bool)
    requires Wf(t) && Node(t, x) && Ref(t, y) && (y == x || y !in Sub(t, x))
    ensures Wf(PushDownF(t, x)) && Seq(PushDownF(t, x), y, f) == Seq(t, y, f)
  {
    var t' := PushDownF(t, x);
    PushDownSelf(t, x, false);
    PushDownSelf(t, x, true);
    assert Swap(y, x, x) == y;
    SeqReplace(t, t', y, x, x, f);
  }

  lemma PushDownRoots(t: Nodes, x: int, z: int)
    requires Wf(t) && Node(t, x) && Node(t, z)
    ensures IsRoot(PushDownF(t, x), z) == IsRoot(t, z)
  {
  }

  /** The second loop of `splay`: `pushDown` on each node of `s`, from the
      last to the first. */
  function PushDownAllF(t: Nodes, s: seq<int>): (t': Nodes)
    requires Wf(t) && forall j :: 0 <= j < |s| ==> Node(t, s[j])
    ensures Wf(t') && |t'.parent| == |t.parent|
    decreases |s|
  {
    if |s| == 0 then t
    else
      assert Node(t, s[0]);
      var t1 := PushDownAllF(t, s[1..]);
      PushDownWf(t1, s[0]);
      PushDownF(t1, s[0])
  }

  /** The pointer assignments of `rotate(x)`: when `p` is a child of `g`,
      `g` adopts `x` in its place; `x` takes `p`'s parent pointer; `x`'s
      inner child `c` moves to `p`; `p` becomes `x`'s child. */
  function RotatePointers(t: Nodes, x: int): (t': Nodes)
    requires Shaped(t) && Node(t, x) && !IsRoot(t, x)
    ensures Shaped(t') && |t'.parent| == |t.parent|
  {
    var p := t.parent[x];
    var g := t.parent[p];
    var atLeft := t.left[p] == x;
    var c := if atLeft then t.right[x] else t.left[x];
    var gl := if !IsRoot(t, p) && t.left[g] == p then t.left[g := x] else t.left;
    var gr := if !IsRoot(t, p) && t.left[g] != p then t.right[g := x] else t.right;
    t.(parent := (if c != 0 then t.parent[x := g][c := p] else t.parent[x := g])[p := x],
       left := if atLeft then gl[p := c] else gl[x := p],
       right := if atLeft then gr[x := p] else gr[p := c])
  }

  /** `rotate(x)`: the pointer assignments, then `pushUp(p)` and
      `pushUp(x)`, which give `p` and `x` the sizes and aggregates of their
      new subtrees. */
  function RotateF(t: Nodes, x: int): (t': Nodes)
    requires Shaped(t) && Node(t, x) && !IsRoot(t, x)
    ensures Shaped(t') && |t'.parent| == |t.parent|
  {
    var p := t.parent[x];
    var g := t.parent[p];
    var atLeft := t.left[p] == x;
    var c := if atLeft then t.right[x] else t.left[x];
    var o := if atLeft then t.right[p] else t.left[p];
    var k := if atLeft then t.left[x] else t.right[x];
    var gl := if !IsRoot(t, p) && t.left[g] == p then t.left[g := x] else t.left;
    var gr := if !IsRoot(t, p) && t.left[g] != p then t.right[g := x] else t.right;
    var sp := 1 + Sz(t, c) + Sz(t, o);
    var up := t.val[p] + SumAt(t, c) + SumAt(t, o);
    t.(parent := (if c != 0 then t.parent[x := g][c := p] else t.parent[x := g])[p := x],
       left := if atLeft then gl[p := c] else gl[x := p],
       right := if atLeft then gr[x := p] else gr[p := c],
       size := t.size[p := sp][x := 1 + Sz(t, k) + sp],
       sum := t.sum[p := up][x := t.val[x] + SumAt(t, k) + up])
  }

  /** Two `pushUp` calls, on `p` and then on its new parent `x`, over any
      pointer layout in which `p` holds the subtrees `c` and `o` and `x`
      holds `k` and `p`. */
  lemma PushUpTwice(t: Nodes, t2: Nodes, x: int, p: int, c: int, o: int, k: int)
    requires Shaped(t) && Shaped(t2) && |t2.parent| == |t.parent|
    requires Node(t, x) && Node(t, p) && x != p && Ref(t, c) && Ref(t, o) && Ref(t, k) && k != p
    requires t2.size == t.size && t2.sum == t.sum && t2.val == t.val
    requires (t2.left[p] == c && t2.right[p] == o) || (t2.left[p] == o && t2.right[p] == c)
    requires (t2.left[x] == k && t2.right[x] == p) || (t2.left[x] == p && t2.right[x] == k)
    ensures var t4 := PushUpF(PushUpF(t2, p), x);
      var sp := 1 + Sz(t, c) + Sz(t, o);
      var up := t.val[p] + SumAt(t, c) + SumAt(t, o);
      && t4.size == t.size[p := sp][x := 1 + Sz(t, k) + sp]
      && t4.sum == t.sum[p := up][x := t.val[x] + SumAt(t, k) + up]
      && t4.parent == t2.parent && t4.left == t2.left && t4.right == t2.right
      && t4.val == t2.val && t4.rev == t2.rev
  {
    var t3 := PushUpF(t2, p);
    assert Sz(t3, k) == Sz(t, k) && SumAt(t3, k) == SumAt(t, k);
  }

  /** The pointer assignments of `rotate(x)` are those of `RotateF`, and
      they touch no size, aggregate, value or flag. */
  lemma RotatePointersFields(t: Nodes, x: int)
    requires Shaped(t) && Node(t, x) && !IsRoot(t, x)
    ensures var t2, t' := RotatePointers(t, x), RotateF(t, x);
      && t2.parent == t'.parent && t2.left == t'.left && t2.right == t'.right
      && t2.size == t.size && t2.sum == t.sum && t2.val == t.val && t2.rev == t.rev
      && t'.val == t.val && t'.rev == t.rev
  {
  }

  /** The sizes and aggregates `RotateF` gives `p` and `x` when `x` is the
      left child of `p`. */
  lemma RotateFAggLeft(t: Nodes, x: int)
    requires Shaped(t) && Node(t, x) && !IsRoot(t, x) && t.left[t.parent[x]] == x
    ensures var p := t.parent[x];
      var sp := 1 + Sz(t, t.right[x]) + Sz(t, t.right[p]);
      var up := t.val[p] + SumAt(t, t.right[x]) + SumAt(t, t.right[p]);
      && RotateF(t, x).size == t.size[p := sp][x := 1 + Sz(t, t.left[x]) + sp]
      && RotateF(t, x).sum == t.sum[p := up][x := t.val[x] + SumAt(t, t.left[x]) + up]
  {
  }

  /** The same when `x` is the right child of `p`. */
  lemma RotateFAggRight(t: Nodes, x: int)
    requires Shaped(t) && Node(t, x) && !IsRoot(t, x) && t.left[t.parent[x]] != x
    ensures var p := t.parent[x];
      var sp := 1 + Sz(t, t.left[x]) + Sz(t, t.left[p]);
      var up := t.val[p] + SumAt(t, t.left[x]) + SumAt(t, t.left[p]);
      && RotateF(t, x).size == t.size[p := sp][x := 1 + Sz(t, t.right[x]) + sp]
      && RotateF(t, x).sum == t.sum[p := up][x := t.val[x] + SumAt(t, t.right[x]) + up]
  {
  }

  /** `rotate(x)` is its pointer assignments followed by `pushUp(p)` and
      `pushUp(x)`. */
  lemma RotateThenPushUp(t: Nodes, x: int)
    requires Wf(t) && Node(t, x) && !IsRoot(t, x)
    requires t.parent[t.parent[x]] !in Sub(t, t.parent[x])
    ensures var p := t.parent[x];
      && Node(RotatePointers(t, x), p)
      && RotateF(t, x) == PushUpF(PushUpF(RotatePointers(t, x), p), x)
  {
    RotateDistinct(t, x);
    if t.left[t.parent[x]] == x {
      RotateThenPushUpLeft(t, x);
    } else {
      RotateThenPushUpRight(t, x);
    }
  }

  lemma RotateThenPushUpLeft(t: Nodes, x: int)
    requires Shaped(t) && Node(t, x) && !IsRoot(t, x) && t.left[t.parent[x]] == x
    requires var p := t.parent[x];
      && p != x && t.parent[p] != p && t.parent[p] != x && t.right[x] != p && t.left[x] != p
      && t.right[x] != x && (t.right[x] != t.parent[p] || t.right[x] == 0)
    ensures var p := t.parent[x];
      && Node(RotatePointers(t, x), p)
      && RotateF(t, x) == PushUpF(PushUpF(RotatePointers(t, x), p), x)
  {
    var p := t.parent[x];
    var t2 := RotatePointers(t, x);
    RotatePointersFields(t, x);
    assert t2.left[p] == t.right[x] && t2.right[p] == t.right[p];
    assert t2.left[x] == t.left[x] && t2.right[x] == p;
    PushUpTwice(t, t2, x, p, t.right[x], t.right[p], t.left[x]);
    RotateFAggLeft(t, x);
    SameFields(RotateF(t, x), PushUpF(PushUpF(t2, p), x));
  }

  lemma RotateThenPushUpRight(t: Nodes, x: int)
    requires Shaped(t) && Node(t, x) && !IsRoot(t, x) && t.left[t.parent[x]] != x
    requires var p := t.parent[x];
      && p != x && t.parent[p] != p && t.parent[p] != x && t.right[x] != p && t.left[x] != p
      && t.left[x] != x && (t.left[x] != t.parent[p] || t.left[x] == 0)
    ensures var p := t.parent[x];
      && Node(RotatePointers(t, x), p)
      && RotateF(t, x) == PushUpF(PushUpF(RotatePointers(t, x), p), x)
  {
    var p := t.parent[x];
    var t2 := RotatePointers(t, x);
    RotatePointersFields(t, x);
    assert t2.right[p] == t.left[x] && t2.left[p] == t.left[p];
    assert t2.right[x] == t.right[x] && t2.left[x] == p;
    PushUpTwice(t, t2, x, p, t.left[x], t.left[p], t.right[x]);
    RotateFAggRight(t, x);
    SameFields(RotateF(t, x), PushUpF(PushUpF(t2, p), x));
  }

  lemma SameFields(a: Nodes, b: Nodes)
    requires a.parent == b.parent && a.left == b.left && a.right == b.right
    requires a.val == b.val && a.sum == b.sum && a.rev == b.rev && a.size == b.size
    ensures a == b
  {
  }

  /** The nodes `rotate(x)` touches are distinct: `x`, its parent `p`, the
      grandparent `g` (or 0) and the child `c` of `x` that moves to `p`. */
  lemma RotateDistinct(t: Nodes, x: int)
    requires Wf(t) && Node(t, x) && !IsRoot(t, x)
    requires t.parent[t.parent[x]] !in Sub(t, t.parent[x])
    ensures var p, g := t.parent[x], t.parent[t.parent[x]];
      var c := if t.left[p] == x then t.right[x] else t.left[x];
      var o := if t.left[p] == x then t.right[p] else t.left[p];
      var k := if t.left[p] == x then t.left[x] else t.right[x];
      && Node(t, p) && x != p && p != g && x != g && c != x && c != p && (c != g || c == 0)
      && k != p && k != x && o != x && o != p && x in Sub(t, p)
  {
    var p, g := t.parent[x], t.parent[t.parent[x]];
    assert x in Sub(t, p);
    NotBelowSelf(t, p);
    NotBelowSelf(t, x);
    ChildSub(t, x);
    ChildSub(t, p);
  }

  /** The fields of one node after `rotate(x)` when `x` is a left child:
      only `x`, `p` and `g` get new children, only `x`, `p` and `c` a new
      parent, only `x` and `p` new aggregates. */
  lemma RotateAtLeft(t: Nodes, x: int, y: int)
    requires Wf(t) && Node(t, x) && !IsRoot(t, x) && Ref(t, y)
    requires t.parent[t.parent[x]] !in Sub(t, t.parent[x])
    requires t.left[t.parent[x]] == x
    ensures var t', p, g := RotateF(t, x), t.parent[x], t.parent[t.parent[x]];
      var c, o, k := t.right[x], t.right[p], t.left[x];
      && (y != x && y != p && y != g ==> t'.left[y] == t.left[y] && t'.right[y] == t.right[y])
      && (y == g && g != 0 ==> t'.left[y] == Swap(t.left[y], p, x) && t'.right[y] == Swap(t.right[y], p, x))
      && (y == p ==> t'.left[y] == c && t'.right[y] == o)
      && (y == x ==> t'.left[y] == k && t'.right[y] == p)
      && t'.parent[y] == (if y == p then x else if y == x then g else if y == c && c != 0 then p else t.parent[y])
      && t'.val[y] == t.val[y] && t'.rev[y] == t.rev[y]
      && t'.size[y] == (if y == x then 1 + Sz(t, k) + 1 + Sz(t, c) + Sz(t, o) else if y == p then 1 + Sz(t, c) + Sz(t, o) else t.size[y])
      && t'.sum[y] == (if y == x then t.val[x] + SumAt(t, k) + (t.val[p] + SumAt(t, c) + SumAt(t, o))
                       else if y == p then t.val[p] + SumAt(t, c) + SumAt(t, o) else t.sum[y])
  {
    RotateDistinct(t, x);
  }

  /** The same when `x` is a right child. */
  lemma RotateAtRight(t: Nodes, x: int, y: int)
    requires Wf(t) && Node(t, x) && !IsRoot(t, x) && Ref(t, y)
    requires t.parent[t.parent[x]] !in Sub(t, t.parent[x])
    requires t.left[t.parent[x]] != x
    ensures var t', p, g := RotateF(t, x), t.parent[x], t.parent[t.parent[x]];
      var c, o, k := t.left[x], t.left[p], t.right[x];
      && (y != x && y != p && y != g ==> t'.left[y] == t.left[y] && t'.right[y] == t.right[y])
      && (y == g && g != 0 ==> t'.left[y] == Swap(t.left[y], p, x) && t'.right[y] == Swap(t.right[y], p, x))
      && (y == p ==> t'.left[y] == o && t'.right[y] == c)
      && (y == x ==> t'.left[y] == p && t'.right[y] == k)
      && t'.parent[y] == (if y == p then x else if y == x then g else if y == c && c != 0 then p else t.parent[y])
      && t'.val[y] == t.val[y] && t'.rev[y] == t.rev[y]
      && t'.size[y] == (if y == x then 1 + Sz(t, k) + 1 + Sz(t, c) + Sz(t, o) else if y == p then 1 + Sz(t, c) + Sz(t, o) else t.size[y])
      && t'.sum[y] == (if y == x then t.val[x] + SumAt(t, k) + (t.val[p] + SumAt(t, c) + SumAt(t, o))
                       else if y == p then t.val[p] + SumAt(t, c) + SumAt(t, o) else t.sum[y])
  {
    RotateDistinct(t, x);
  }

  /** `rotate` keeps the pointers consistent and the sizes and aggregates
      right; `x` ends up with `p`'s old size. */
  lemma RotateWf(t: Nodes, x: int)
    requires Wf(t) && Node(t, x) && !IsRoot(t, x)
    requires t.parent[t.parent[x]] !in Sub(t, t.parent[x])
    ensures Wf(RotateF(t, x)) && Sz(RotateF(t, x), x) == Sz(t, t.parent[x])
    ensures Summed(t) ==> Summed(RotateF(t, x))
  {
    var t' := RotateF(t, x);
    forall y | 1 <= y < |t'.parent|
      ensures (t'.left[y] != 0 ==> t'.parent[t'.left[y]] == y && t'.left[y] != t'.right[y])
              && (t'.right[y] != 0 ==> t'.parent[t'.right[y]] == y)
      ensures t'.size[y] == 1 + Sz(t', t'.left[y]) + Sz(t', t'.right[y])
      ensures Summed(t) ==> t'.sum[y] == t'.val[y] + SumAt(t', t'.left[y]) + SumAt(t', t'.right[y])
    {
      if t.left[t.parent[x]] == x {
        RotateStepLeft(t, x, y);
      } else {
        RotateStepRight(t, x, y);
      }
    }
    RotateSize(t, x);
  }

  /** `x` takes over the size of its old parent. */
  lemma RotateSize(t: Nodes, x: int)
    requires Wf(t) && Node(t, x) && !IsRoot(t, x)
    requires t.parent[t.parent[x]] !in Sub(t, t.parent[x])
    ensures RotateF(t, x).size[x] == t.size[t.parent[x]]
  {
    if t.left[t.parent[x]] == x {
      RotateAtLeft(t, x, x);
      RotateAtLeft(t, x, t.parent[x]);
    } else {
      RotateAtRight(t, x, x);
      RotateAtRight(t, x, t.parent[x]);
    }
  }

  /** A node other than `x` and `p` keeps its size, aggregate and value;
      it keeps its children unless it is `g` with `p` as a child, and its
      parent pointer unless it hangs from `x`. */
  lemma RotateFar(t: Nodes, x: int, z: int)
    requires Wf(t) && Node(t, x) && !IsRoot(t, x) && Ref(t, z)
    requires z != x && z != t.parent[x]
    ensures var t', p, g := RotateF(t, x), t.parent[x], t.parent[t.parent[x]];
      && t'.size[z] == t.size[z] && t'.sum[z] == t.sum[z] && t'.val[z] == t.val[z]
      && (z != g || (t.left[z] != p && t.right[z] != p) ==> t'.left[z] == t.left[z] && t'.right[z] == t.right[z])
      && (t.parent[z] != x ==> t'.parent[z] == t.parent[z])
  {
  }

  /** A node away from the rotation: neither `x` nor `p`, nor `g` with `p`
      as a child. */
  lemma RotateStepFar(t: Nodes, x: int, y: int)
    requires Wf(t) && Node(t, x) && !IsRoot(t, x) && Node(t, y)
    requires y != x && y != t.parent[x]
    requires y == t.parent[t.parent[x]] ==> t.left[y] != t.parent[x] && t.right[y] != t.parent[x]
    ensures var t' := RotateF(t, x);
      && (t'.left[y] != 0 ==> t'.parent[t'.left[y]] == y && t'.left[y] != t'.right[y])
      && (t'.right[y] != 0 ==> t'.parent[t'.right[y]] == y)
      && t'.size[y] == 1 + Sz(t', t'.left[y]) + Sz(t', t'.right[y])
      && (Summed(t) ==> t'.sum[y] == t'.val[y] + SumAt(t', t'.left[y]) + SumAt(t', t'.right[y]))
  {
    RotateFar(t, x, y);
    RotateFar(t, x, t.left[y]);
    RotateFar(t, x, t.right[y]);
  }

  /** One node's pointers, size and aggregate after `rotate(x)` when `x`
      is a left child. */
  lemma RotateStepLeft(t: Nodes, x: int, y: int)
    requires Wf(t) && Node(t, x) && !IsRoot(t, x) && Node(t, y)
    requires t.parent[t.parent[x]] !in Sub(t, t.parent[x])
    requires t.left[t.parent[x]] == x
    ensures var t' := RotateF(t, x);
      && (t'.left[y] != 0 ==> t'.parent[t'.left[y]] == y && t'.left[y] != t'.right[y])
      && (t'.right[y] != 0 ==> t'.parent[t'.right[y]] == y)
      && t'.size[y] == 1 + Sz(t', t'.left[y]) + Sz(t', t'.right[y])
      && (Summed(t) ==> t'.sum[y] == t'.val[y] + SumAt(t', t'.left[y]) + SumAt(t', t'.right[y]))
  {
    var p, g := t.parent[x], t.parent[t.parent[x]];
    if y == x {
      RotateStepLeftX(t, x, y);
    } else if y == p {
      RotateStepLeftP(t, x, y);
    } else if y == g && t.left[y] == p {
      RotateStepLeftUnderLeft(t, x, y);
    } else if y == g && t.right[y] == p {
      RotateStepLeftUnderRight(t, x, y);
    } else {
      RotateStepFar(t, x, y);
    }
  }

  /** One node's pointers, size and aggregate after `rotate(x)` when `x`
      is a right child. */
  lemma RotateStepRight(t: Nodes, x: int, y: int)
    requires Wf(t) && Node(t, x) && !IsRoot(t, x) && Node(t, y)
    requires t.parent[t.parent[x]] !in Sub(t, t.parent[x])
    requires t.left[t.parent[x]] != x
    ensures var t' := RotateF(t, x);
      && (t'.left[y] != 0 ==> t'.parent[t'.left[y]] == y && t'.left[y] != t'.right[y])
      && (t'.right[y] != 0 ==> t'.parent[t'.right[y]] == y)
      && t'.size[y] == 1 + Sz(t', t'.left[y]) + Sz(t', t'.right[y])
      && (Summed(t) ==> t'.sum[y] == t'.val[y] + SumAt(t', t'.left[y]) + SumAt(t', t'.right[y]))
  {
    var p, g := t.parent[x], t.parent[t.parent[x]];
    if y == x {
      RotateStepRightX(t, x, y);
    } else if y == p {
      RotateStepRightP(t, x, y);
    } else if y == g && t.left[y] == p {
      RotateStepRightUnderLeft(t, x, y);
    } else if y == g && t.right[y] == p {
      RotateStepRightUnderRight(t, x, y);
    } else {
      RotateStepFar(t, x, y);
    }
  }

  lemma RotateStepLeftP(t: Nodes, x: int, y: int)
    requires Wf(t) && Node(t, x) && !IsRoot(t, x) && Node(t, y)
    requires t.parent[t.parent[x]] !in Sub(t, t.parent[x])
    requires t.left[t.parent[x]] == x && y == t.parent[x]
    ensures var t' := RotateF(t, x);
      && (t'.left[y] != 0 ==> t'.parent[t'.left[y]] == y && t'.left[y] != t'.right[y])
      && (t'.right[y] != 0 ==> t'.parent[t'.right[y]] == y)
      && t'.size[y] == 1 + Sz(t', t'.left[y]) + Sz(t', t'.right[y])
      && (Summed(t) ==> t'.sum[y] == t'.val[y] + SumAt(t', t'.left[y]) + SumAt(t', t'.right[y]))
  {
    var p, g := t.parent[x], t.parent[t.parent[x]];
    var c, o, k := t.right[x], t.right[p], t.left[x];
    RotateDistinct(t, x);
    RotateAtLeft(t, x, y);
    RotateAtLeft(t, x, c);
    RotateAtLeft(t, x, o);
    if c != 0 {
      ChildSub(t, x);
      ChildrenDisjoint(t, p);
    }
  }

  lemma RotateStepLeftX(t: Nodes, x: int, y: int)
    requires Wf(t) && Node(t, x) && !IsRoot(t, x) && Node(t, y)
    requires t.parent[t.parent[x]] !in Sub(t, t.parent[x])
    requires t.left[t.parent[x]] == x && y == x
    ensures var t' := RotateF(t, x);
      && (t'.left[y] != 0 ==> t'.parent[t'.left[y]] == y && t'.left[y] != t'.right[y])
      && (t'.right[y] != 0 ==> t'.parent[t'.right[y]] == y)
      && t'.size[y] == 1 + Sz(t', t'.left[y]) + Sz(t', t'.right[y])
      && (Summed(t) ==> t'.sum[y] == t'.val[y] + SumAt(t', t'.left[y]) + SumAt(t', t'.right[y]))
  {
    var p, g := t.parent[x], t.parent[t.parent[x]];
    var c, o, k := t.right[x], t.right[p], t.left[x];
    RotateDistinct(t, x);
    RotateAtLeft(t, x, y);
    RotateAtLeft(t, x, k);
    RotateAtLeft(t, x, p);
  }

  lemma RotateStepLeftUnderLeft(t: Nodes, x: int, y: int)
    requires Wf(t) && Node(t, x) && !IsRoot(t, x) && Node(t, y)
    requires t.parent[t.parent[x]] !in Sub(t, t.parent[x])
    requires t.left[t.parent[x]] == x && y == t.parent[t.parent[x]] && t.left[y] == t.parent[x]
    ensures var t' := RotateF(t, x);
      && (t'.left[y] != 0 ==> t'.parent[t'.left[y]] == y && t'.left[y] != t'.right[y])
      && (t'.right[y] != 0 ==> t'.parent[t'.right[y]] == y)
      && t'.size[y] == 1 + Sz(t', t'.left[y]) + Sz(t', t'.right[y])
      && (Summed(t) ==> t'.sum[y] == t'.val[y] + SumAt(t', t'.left[y]) + SumAt(t', t'.right[y]))
  {
    RotateDistinct(t, x);
    RotateAtLeft(t, x, y);
    RotateAtLeft(t, x, x);
    RotateAtLeft(t, x, t.right[y]);
  }

  lemma RotateStepLeftUnderRight(t: Nodes, x: int, y: int)
    requires Wf(t) && Node(t, x) && !IsRoot(t, x) && Node(t, y)
    requires t.parent[t.parent[x]] !in Sub(t, t.parent[x])
    requires t.left[t.parent[x]] == x && y == t.parent[t.parent[x]] && t.right[y] == t.parent[x]
    ensures var t' := RotateF(t, x);
      && (t'.left[y] != 0 ==> t'.parent[t'.left[y]] == y && t'.left[y] != t'.right[y])
      && (t'.right[y] != 0 ==> t'.parent[t'.right[y]] == y)
      && t'.size[y] == 1 + Sz(t', t'.left[y]) + Sz(t', t'.right[y])
      && (Summed(t) ==> t'.sum[y] == t'.val[y] + SumAt(t', t'.left[y]) + SumAt(t', t'.right[y]))
  {
    RotateDistinct(t, x);
    RotateAtLeft(t, x, y);
    RotateAtLeft(t, x, t.left[y]);
    RotateAtLeft(t, x, x);
  }

  lemma RotateStepRightP(t: Nodes, x: int, y: int)
    requires Wf(t) && Node(t, x) && !IsRoot(t, x) && Node(t, y)
    requires t.parent[t.parent[x]] !in Sub(t, t.parent[x])
    requires t.left[t.parent[x]] != x && y == t.parent[x]
    ensures var t' := RotateF(t, x);
      && (t'.left[y] != 0 ==> t'.parent[t'.left[y]] == y && t'.left[y] != t'.right[y])
      && (t'.right[y] != 0 ==> t'.parent[t'.right[y]] == y)
      && t'.size[y] == 1 + Sz(t', t'.left[y]) + Sz(t', t'.right[y])
      && (Summed(t) ==> t'.sum[y] == t'.val[y] + SumAt(t', t'.left[y]) + SumAt(t', t'.right[y]))
  {
    var p, g := t.parent[x], t.parent[t.parent[x]];
    var c, o, k := t.left[x], t.left[p], t.right[x];
    RotateDistinct(t, x);
    RotateAtRight(t, x, y);
    RotateAtRight(t, x, c);
    RotateAtRight(t, x, o);
    if c != 0 {
      ChildSub(t, x);
      ChildrenDisjoint(t, p);
    }
  }

  lemma RotateStepRightX(t: Nodes, x: int, y: int)
    requires Wf(t) && Node(t, x) && !IsRoot(t, x) && Node(t, y)
    requires t.parent[t.parent[x]] !in Sub(t, t.parent[x])
    requires t.left[t.parent[x]] != x && y == x
    ensures var t' := RotateF(t, x);
      && (t'.left[y] != 0 ==> t'.parent[t'.left[y]] == y && t'.left[y] != t'.right[y])
      && (t'.right[y] != 0 ==> t'.parent[t'.right[y]] == y)
      && t'.size[y] == 1 + Sz(t', t'.left[y]) + Sz(t', t'.right[y])
      && (Summed(t) ==> t'.sum[y] == t'.val[y] + SumAt(t', t'.left[y]) + SumAt(t', t'.right[y]))
  {
    var p, g := t.parent[x], t.parent[t.parent[x]];
    var c, o, k := t.left[x], t.left[p], t.right[x];
    RotateDistinct(t, x);
    RotateAtRight(t, x, y);
    RotateAtRight(t, x, k);
    RotateAtRight(t, x, p);
  }

  lemma RotateStepRightUnderLeft(t: Nodes, x: int, y: int)
    requires Wf(t) && Node(t, x) && !IsRoot(t, x) && Node(t, y)
    requires t.parent[t.parent[x]] !in Sub(t, t.parent[x])
    requires t.left[t.parent[x]] != x && y == t.parent[t.parent[x]] && t.left[y] == t.parent[x]
    ensures var t' := RotateF(t, x);
      && (t'.left[y] != 0 ==> t'.parent[t'.left[y]] == y && t'.left[y] != t'.right[y])
      && (t'.right[y] != 0 ==> t'.parent[t'.right[y]] == y)
      && t'.size[y] == 1 + Sz(t', t'.left[y]) + Sz(t', t'.right[y])
      && (Summed(t) ==> t'.sum[y] == t'.val[y] + SumAt(t', t'.left[y]) + SumAt(t', t'.right[y]))
  {
    RotateDistinct(t, x);
    RotateAtRight(t, x, y);
    RotateAtRight(t, x, x);
    RotateAtRight(t, x, t.right[y]);
  }

  lemma RotateStepRightUnderRight(t: Nodes, x: int, y: int)
    requires Wf(t) && Node(t, x) && !IsRoot(t, x) && Node(t, y)
    requires t.parent[t.parent[x]] !in Sub(t, t.parent[x])
    requires t.left[t.parent[x]] != x && y == t.parent[t.parent[x]] && t.right[y] == t.parent[x]
    ensures var t' := RotateF(t, x);
      && (t'.left[y] != 0 ==> t'.parent[t'.left[y]] == y && t'.left[y] != t'.right[y])
      && (t'.right[y] != 0 ==> t'.parent[t'.right[y]] == y)
      && t'.size[y] == 1 + Sz(t', t'.left[y]) + Sz(t', t'.right[y])
      && (Summed(t) ==> t'.sum[y] == t'.val[y] + SumAt(t', t'.left[y]) + SumAt(t', t'.right[y]))
  {
    RotateDistinct(t, x);
    RotateAtRight(t, x, y);
    RotateAtRight(t, x, t.left[y]);
    RotateAtRight(t, x, x);
  }

  /** With no reversal pending at `x` or `p`, `rotate(x)` gives `x` the
      sequence `p` had. */
  lemma RotateSeq(t: Nodes, x: int, h: bool)
    requires Wf(t) && Node(t, x) && !IsRoot(t, x)
    requires t.parent[t.parent[x]] !in Sub(t, t.parent[x])
    requires !t.rev[x] && !t.rev[t.parent[x]]
    ensures Wf(RotateF(t, x)) && Seq(RotateF(t, x), x, h) == Seq(t, t.parent[x], h)
  {
    if t.left[t.parent[x]] == x {
      RotateSeqLeft(t, x, h);
    } else {
      RotateSeqRight(t, x, h);
    }
  }

  lemma RotateSeqLeft(t: Nodes, x: int, h: bool)
    requires Wf(t) && Node(t, x) && !IsRoot(t, x)
    requires t.parent[t.parent[x]] !in Sub(t, t.parent[x])
    requires !t.rev[x] && !t.rev[t.parent[x]] && t.left[t.parent[x]] == x
    ensures Wf(RotateF(t, x)) && Seq(RotateF(t, x), x, h) == Seq(t, t.parent[x], h)
  {
    RotateSeqBeforeLeft(t, x, h);
    RotateSeqAfterLeft(t, x, h);
  }

  lemma RotateSeqBeforeLeft(t: Nodes, x: int, h: bool)
    requires Wf(t) && Node(t, x) && !IsRoot(t, x)
    requires t.parent[t.parent[x]] !in Sub(t, t.parent[x])
    requires !t.rev[x] && !t.rev[t.parent[x]] && t.left[t.parent[x]] == x
    ensures var p := t.parent[x];
      var c, o, k := t.right[x], t.right[p], t.left[x];
      var C, O, K := Seq(t, c, h), Seq(t, o, h), Seq(t, k, h);
      Seq(t, p, h) == if h then O + [p] + (C + [x] + K) else (K + [x] + C) + [p] + O
  {
    var p := t.parent[x];
    var c, o, k := t.right[x], t.right[p], t.left[x];
    RotateDistinct(t, x);
    var C, O, K := Seq(t, c, h), Seq(t, o, h), Seq(t, k, h);
    var X := Seq(t, x, h);
    assert X == if h then C + [x] + K else K + [x] + C;
    assert Seq(t, p, h) == if h then O + [p] + X else X + [p] + O;
  }

  lemma RotateSeqAfterLeft(t: Nodes, x: int, h: bool)
    requires Wf(t) && Node(t, x) && !IsRoot(t, x)
    requires t.parent[t.parent[x]] !in Sub(t, t.parent[x])
    requires !t.rev[x] && !t.rev[t.parent[x]] && t.left[t.parent[x]] == x
    ensures var p := t.parent[x];
      var c, o, k := t.right[x], t.right[p], t.left[x];
      var C, O, K := Seq(t, c, h), Seq(t, o, h), Seq(t, k, h);
      Wf(RotateF(t, x)) && Seq(RotateF(t, x), x, h) == if h then O + [p] + (C + [x] + K) else (K + [x] + C) + [p] + O
  {
    var t' := RotateF(t, x);
    var p := t.parent[x];
    RotateWf(t, x);
    RotateDistinct(t, x);
    RotateKids(t, x);
    RotateParts(t, x, h);
    LiftedSeqRight(t', x, p, h);
  }

  lemma RotateSeqRight(t: Nodes, x: int, h: bool)
    requires Wf(t) && Node(t, x) && !IsRoot(t, x)
    requires t.parent[t.parent[x]] !in Sub(t, t.parent[x])
    requires !t.rev[x] && !t.rev[t.parent[x]] && t.left[t.parent[x]] != x
    ensures Wf(RotateF(t, x)) && Seq(RotateF(t, x), x, h) == Seq(t, t.parent[x], h)
  {
    RotateSeqBeforeRight(t, x, h);
    RotateSeqAfterRight(t, x, h);
  }

  lemma RotateSeqBeforeRight(t: Nodes, x: int, h: bool)
    requires Wf(t) && Node(t, x) && !IsRoot(t, x)
    requires t.parent[t.parent[x]] !in Sub(t, t.parent[x])
    requires !t.rev[x] && !t.rev[t.parent[x]] && t.left[t.parent[x]] != x
    ensures var p := t.parent[x];
      var c, o, k := t.left[x], t.left[p], t.right[x];
      var C, O, K := Seq(t, c, h), Seq(t, o, h), Seq(t, k, h);
      Seq(t, p, h) == if h then (K + [x] + C) + [p] + O else O + [p] + (C + [x] + K)
  {
    var p := t.parent[x];
    var c, o, k := t.left[x], t.left[p], t.right[x];
    RotateDistinct(t, x);
    var C, O, K := Seq(t, c, h), Seq(t, o, h), Seq(t, k, h);
    var X := Seq(t, x, h);
    assert X == if h then K + [x] + C else C + [x] + K;
    assert Seq(t, p, h) == if h then X + [p] + O else O + [p] + X;
  }

  lemma RotateSeqAfterRight(t: Nodes, x: int, h: bool)
    requires Wf(t) && Node(t, x) && !IsRoot(t, x)
    requires t.parent[t.parent[x]] !in Sub(t, t.parent[x])
    requires !t.rev[x] && !t.rev[t.parent[x]] && t.left[t.parent[x]] != x
    ensures var p := t.parent[x];
      var c, o, k := t.left[x], t.left[p], t.right[x];
      var C, O, K := Seq(t, c, h), Seq(t, o, h), Seq(t, k, h);
      Wf(RotateF(t, x)) && Seq(RotateF(t, x), x, h) == if h then (K + [x] + C) + [p] + O else O + [p] + (C + [x] + K)
  {
    var t' := RotateF(t, x);
    var p := t.parent[x];
    RotateWf(t, x);
    RotateDistinct(t, x);
    RotateKids(t, x);
    RotateParts(t, x, h);
    LiftedSeqLeft(t', x, p, h);
  }

  /** Reading a node `x` whose right child is `p`, neither with a pending
      reversal. */
  lemma LiftedSeqRight(t: Nodes, x: int, p: int, h: bool)
    requires Wf(t) && Node(t, x) && Node(t, p) && t.right[x] == p && !t.rev[x] && !t.rev[p]
    ensures var C, O, K := Seq(t, t.left[p], h), Seq(t, t.right[p], h), Seq(t, t.left[x], h);
      Seq(t, x, h) == if h then O + [p] + (C + [x] + K) else (K + [x] + C) + [p] + O
  {
    var C, O, K := Seq(t, t.left[p], h), Seq(t, t.right[p], h), Seq(t, t.left[x], h);
    var P := Seq(t, p, h);
    assert P == if h then O + [p] + C else C + [p] + O;
    if h {
      assert Seq(t, x, h) == P + [x] + K;
      assert (O + [p] + C) + [x] + K == O + [p] + (C + [x] + K);
    } else {
      assert Seq(t, x, h) == K + [x] + P;
      assert K + [x] + (C + [p] + O) == (K + [x] + C) + [p] + O;
    }
  }

  /** Reading a node `x` whose left child is `p`, neither with a pending
      reversal. */
  lemma LiftedSeqLeft(t: Nodes, x: int, p: int, h: bool)
    requires Wf(t) && Node(t, x) && Node(t, p) && t.left[x] == p && !t.rev[x] && !t.rev[p]
    ensures var C, O, K := Seq(t, t.right[p], h), Seq(t, t.left[p], h), Seq(t, t.right[x], h);
      Seq(t, x, h) == if h then (K + [x] + C) + [p] + O else O + [p] + (C + [x] + K)
  {
    var C, O, K := Seq(t, t.right[p], h), Seq(t, t.left[p], h), Seq(t, t.right[x], h);
    var P := Seq(t, p, h);
    assert P == if h then C + [p] + O else O + [p] + C;
    if h {
      assert Seq(t, x, h) == K + [x] + P;
      assert K + [x] + (C + [p] + O) == (K + [x] + C) + [p] + O;
    } else {
      assert Seq(t, x, h) == P + [x] + K;
      assert (O + [p] + C) + [x] + K == O + [p] + (C + [x] + K);
    }
  }

  /** The children and flags of `x` and `p` after `rotate(x)`. */
  lemma RotateKids(t: Nodes, x: int)
    requires Wf(t) && Node(t, x) && !IsRoot(t, x)
    requires t.parent[t.parent[x]] !in Sub(t, t.parent[x])
    ensures var t', p := RotateF(t, x), t.parent[x];
      && t'.rev[x] == t.rev[x] && t'.rev[p] == t.rev[p]
      && (t.left[p] == x ==>
           t'.left[x] == t.left[x] && t'.right[x] == p && t'.left[p] == t.right[x] && t'.right[p] == t.right[p])
      && (t.left[p] != x ==>
           t'.right[x] == t.right[x] && t'.left[x] == p && t'.right[p] == t.left[x] && t'.left[p] == t.left[p])
  {
    RotateDistinct(t, x);
  }

  /** The three subtrees `rotate(x)` moves around keep their sequences:
      `x`'s inner child `c`, `p`'s other child `o` and `x`'s outer child `k`. */
  lemma RotateParts(t: Nodes, x: int, h: bool)
    requires Wf(t) && Node(t, x) && !IsRoot(t, x)
    requires t.parent[t.parent[x]] !in Sub(t, t.parent[x])
    ensures var p := t.parent[x];
      var c := if t.left[p] == x then t.right[x] else t.left[x];
      var o := if t.left[p] == x then t.right[p] else t.left[p];
      var k := if t.left[p] == x then t.left[x] else t.right[x];
      && Wf(RotateF(t, x))
      && Seq(RotateF(t, x), c, h) == Seq(t, c, h)
      && Seq(RotateF(t, x), o, h) == Seq(t, o, h)
      && Seq(RotateF(t, x), k, h) == Seq(t, k, h)
      && Sub(RotateF(t, x), c) == Sub(t, c) && Sub(RotateF(t, x), o) == Sub(t, o)
  {
    var p := t.parent[x];
    var c := if t.left[p] == x then t.right[x] else t.left[x];
    var o := if t.left[p] == x then t.right[p] else t.left[p];
    var k := if t.left[p] == x then t.left[x] else t.right[x];
    RotateDistinct(t, x);
    ChildSub(t, x);
    ChildSub(t, p);
    NotBelowSelf(t, x);
    NotBelowSelf(t, p);
    ChildrenDisjoint(t, p);
    assert p !in Sub(t, x);
    if p in Sub(t, c) {
      SubTrans(t, x, c, p);
    }
    if p in Sub(t, k) {
      SubTrans(t, x, k, p);
    }
    RotateKeepsBelow(t, x, c, h);
    RotateKeepsBelow(t, x, o, h);
    RotateKeepsBelow(t, x, k, h);
  }

  /** A subtree that hangs below `x` or `p` and holds neither keeps its
      sequence and its node set. */
  lemma RotateKeepsBelow(t: Nodes, x: int, y: int, h: bool)
    requires Wf(t) && Node(t, x) && !IsRoot(t, x) && Ref(t, y)
    requires t.parent[t.parent[x]] !in Sub(t, t.parent[x])
    requires y in Sub(t, t.parent[x]) || y == 0
    requires x !in Sub(t, y) && t.parent[x] !in Sub(t, y)
    ensures Wf(RotateF(t, x)) && Seq(RotateF(t, x), y, h) == Seq(t, y, h)
    ensures Sub(RotateF(t, x), y) == Sub(t, y)
  {
    var t' := RotateF(t, x);
    var p, g := t.parent[x], t.parent[t.parent[x]];
    RotateWf(t, x);
    forall z | 1 <= z < |t.parent| && z in Sub(t, y)
      ensures t'.left[z] == t.left[z] && t'.right[z] == t.right[z] && t'.rev[z] == t.rev[z] && t'.size[z] == t.size[z]
    {
      if y != 0 {
        SubTrans(t, p, y, z);
      }
      if t.left[p] == x {
        RotateAtLeft(t, x, z);
      } else {
        RotateAtRight(t, x, z);
      }
    }
    SeqFrame(t, t', y, h);
  }

  /** Outside the subtree of `p`, `rotate(x)` only redirects `g`'s pointer
      from `p` to `x`, and leaves every flag alone. */
  lemma RotateSwapAt(t: Nodes, x: int, z: int)
    requires Wf(t) && Node(t, x) && !IsRoot(t, x) && Node(t, z)
    requires t.parent[t.parent[x]] !in Sub(t, t.parent[x])
    requires z !in Sub(t, t.parent[x])
    ensures var t', p := RotateF(t, x), t.parent[x];
      && t'.rev[z] == t.rev[z]
      && t'.left[z] == Swap(t.left[z], p, x) && t'.right[z] == Swap(t.right[z], p, x)
  {
    var p := t.parent[x];
    RotateDistinct(t, x);
    if t.left[p] == x {
      RotateAtLeft(t, x, z);
    } else {
      RotateAtRight(t, x, z);
    }
  }

  /** Every splay tree that does not hang below `p` reads as before, with `x`
      standing where `p` stood. */
  lemma RotateSeqOther(t: Nodes, x: int, y: int, f: bool)
    requires Wf(t) && Node(t, x) && !IsRoot(t, x) && Ref(t, y)
    requires t.parent[t.parent[x]] !in Sub(t, t.parent[x])
    requires !t.rev[x] && !t.rev[t.parent[x]]
    requires y == t.parent[x] || y !in Sub(t, t.parent[x])
    ensures Wf(RotateF(t, x)) && Seq(RotateF(t, x), Swap(y, t.parent[x], x), f) == Seq(t, y, f)
  {
    var t', p := RotateF(t, x), t.parent[x];
    RotateDistinct(t, x);
    RotateSeq(t, x, false);
    RotateSeq(t, x, true);
    forall z | 1 <= z < |t.parent| && z in Sub(t, y) && z !in Sub(t, p)
      ensures t'.rev[z] == t.rev[z] && t'.left[z] == Swap(t.left[z], p, x) && t'.right[z] == Swap(t.right[z], p, x)
    {
      RotateSwapAt(t, x, z);
    }
    SeqReplace(t, t', y, p, x, f);
  }

  /** After `rotate(x)`, `x` is a splay root exactly when `p` was; `p` no
      longer is; every other node keeps its status, and every root other
      than `x` keeps its parent pointer.  `x` inherits `p`'s pointer. */
  lemma RotateRoots(t: Nodes, x: int, z: int)
    requires Wf(t) && Node(t, x) && !IsRoot(t, x) && Node(t, z)
    requires t.parent[t.parent[x]] !in Sub(t, t.parent[x])
    ensures var t', p := RotateF(t, x), t.parent[x];
      && (IsRoot(t', z) <==> (IsRoot(t, z) && z != p) || (z == x && IsRoot(t, p)))
      && (IsRoot(t, z) && z != p ==> t'.parent[z] == t.parent[z])
      && t'.parent[x] == t.parent[p]
  {
    if t.left[t.parent[x]] == x {
      RotateRootsLeft(t, x, z);
    } else {
      RotateRootsRight(t, x, z);
    }
  }

  lemma RotateRootsLeft(t: Nodes, x: int, z: int)
    requires Wf(t) && Node(t, x) && !IsRoot(t, x) && Node(t, z)
    requires t.parent[t.parent[x]] !in Sub(t, t.parent[x]) && t.left[t.parent[x]] == x
    ensures var t', p := RotateF(t, x), t.parent[x];
      && (IsRoot(t', z) <==> (IsRoot(t, z) && z != p) || (z == x && IsRoot(t, p)))
      && (IsRoot(t, z) && z != p ==> t'.parent[z] == t.parent[z])
      && t'.parent[x] == t.parent[p]
  {
    var t', p := RotateF(t, x), t.parent[x];
    RotateDistinct(t, x);
    RotateAtLeft(t, x, z);
    RotateAtLeft(t, x, x);
    var q := t'.parent[z];
    if q == t.parent[z] {
      RotateAtLeft(t, x, q);
    } else {
      RotateAtLeft(t, x, q);
      RotateAtLeft(t, x, t.parent[z]);
    }
  }

  lemma RotateRootsRight(t: Nodes, x: int, z: int)
    requires Wf(t) && Node(t, x) && !IsRoot(t, x) && Node(t, z)
    requires t.parent[t.parent[x]] !in Sub(t, t.parent[x]) && t.left[t.parent[x]] != x
    ensures var t', p := RotateF(t, x), t.parent[x];
      && (IsRoot(t', z) <==> (IsRoot(t, z) && z != p) || (z == x && IsRoot(t, p)))
      && (IsRoot(t, z) && z != p ==> t'.parent[z] == t.parent[z])
      && t'.parent[x] == t.parent[p]
  {
    var t', p := RotateF(t, x), t.parent[x];
    RotateDistinct(t, x);
    RotateAtRight(t, x, z);
    RotateAtRight(t, x, x);
    var q := t'.parent[z];
    if q == t.parent[z] {
      RotateAtRight(t, x, q);
    } else {
      RotateAtRight(t, x, q);
      RotateAtRight(t, x, t.parent[z]);
    }
  }

  /** `x` takes over `p`'s node set; no other subtree gains a node. */
  lemma RotateSub(t: Nodes, x: int, z: int)
    requires Wf(t) && Node(t, x) && !IsRoot(t, x) && Ref(t, z)
    requires t.parent[t.parent[x]] !in Sub(t, t.parent[x])
    requires !t.rev[x] && !t.rev[t.parent[x]]
    ensures Wf(RotateF(t, x))
    ensures z == x ==> Sub(RotateF(t, x), z) == Sub(t, t.parent[x])
    ensures z != x ==> Sub(RotateF(t, x), z) <= Sub(t, z)
  {
    var t', p := RotateF(t, x), t.parent[x];
    RotateWf(t, x);
    RotateDistinct(t, x);
    if z == x {
      RotateSeq(t, x, false);
      SubOfSeq(t', t, x, p);
    } else if z == p {
      RotateKids(t, x);
      ChildSub(t, p);
      RotateParts(t, x, false);
    } else if z !in Sub(t, p) {
      RotateSeqOther(t, x, z, false);
      SubOfSeq(t', t, z, z);
    } else {
      RotateInside(t, x, z);
      RotateKeepsBelow(t, x, z, false);
    }
  }

  /** A node strictly inside `p`'s subtree, other than `x`, is an ancestor
      of neither `x` nor `p`. */
  lemma RotateInside(t: Nodes, x: int, z: int)
    requires Wf(t) && Node(t, x) && !IsRoot(t, x) && Ref(t, z)
    requires z in Sub(t, t.parent[x]) && z != x && z != t.parent[x]
    ensures x !in Sub(t, z) && t.parent[x] !in Sub(t, z)
  {
    var p := t.parent[x];
    assert x in Sub(t, p);
    ChildrenDisjoint(t, p);
    if p in Sub(t, z) {
      SubAntisym(t, p, z);
    }
    if x in Sub(t, z) {
      if z in Sub(t, x) {
        SubAntisym(t, x, z);
      } else {
        var o := if t.left[p] == x then t.right[p] else t.left[p];
        assert z in Sub(t, o);
        SubTrans(t, o, z, x);
      }
    }
  }

  /** Two subtrees that hold each other's roots are the same subtree. */
  lemma SubAntisym(t: Nodes, a: int, b: int)
    requires Wf(t) && Ref(t, a) && Ref(t, b) && a in Sub(t, b) && b in Sub(t, a)
    ensures a == b
  {
    if a != b {
      SubStrict(t, b, a);
      SubBounds(t, a, b);
    }
  }
}
