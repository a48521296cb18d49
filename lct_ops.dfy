/**
 * The facts behind the public operations of the link-cut tree: what
 * `makeRoot`, `findRoot`, `link`, `cut` and `updateValue` do to the splay
 * trees and to the forest they stand for.
 */
module LctOps {
  import opened LctNodes
  import opened LctForest
  import opened LctSteps
  import opened LctRepr
  import opened LctAccess

  /** `x.rev ^= True` on a snapshot. */
  function Flip(t: Nodes, x: int): (t': Nodes)
    requires Shaped(t) && Node(t, x)
    ensures Shaped(t') && |t'.parent| == |t.parent| && t'.rev[x] == !t.rev[x]
    ensures forall z :: 0 <= z < |t.parent| && z != x ==> t'.rev[z] == t.rev[z]
    ensures t'.parent == t.parent && t'.left == t.left && t'.right == t.right
    ensures t'.val == t.val && t'.sum == t.sum && t'.size == t.size
  {
    t.(rev := t.rev[x := !t.rev[x]])
  }

  /** Flipping a flag keeps the shape and the aggregates, reads the flipped
      subtree backwards and leaves every subtree without the flipped node. */
  lemma FlipSeq(t: Nodes, x: int, y: int)
    requires Wf(t) && Node(t, x) && Ref(t, y)
    ensures Wf(Flip(t, x)) && (Summed(t) ==> Summed(Flip(t, x)))
    ensures Seq(Flip(t, x), x, false) == Reverse(Seq(t, x, false))
    ensures x !in Sub(t, y) ==> Seq(Flip(t, x), y, false) == Seq(t, y, false)
  {
    var t1 := Flip(t, x);
    assert Wf(t1);
    NotBelowSelf(t, x);
    SeqToggled(t, t1, x, false);
    SeqFlip(t, x, false);
    if x !in Sub(t, y) {
      SeqFrame(t, t1, y, false);
    }
  }

  /** After `access(x)`, flipping `x` reads its splay tree as the path of
      the forest rerooted at `x`; the other splay trees read as before and
      now stand for their part of the rerooted forest. */
  lemma FlipRepresents(t: Nodes, F: Forest, x: int)
    requires Wf(t) && Represents(t, F) && Node(t, x)
    requires IsRoot(t, x) && t.parent[x] == 0 && Seq(t, x, false) == Path(F, x)
    ensures Wf(Flip(t, x)) && Represents(Flip(t, x), Reroot(F, x))
  {
    var t1 := Flip(t, x);
    var F1 := Reroot(F, x);
    FlipSeq(t, x, x);
    RerootOk(F, x);
    forall r | Node(t1, r) && IsRoot(t1, r)
      ensures Chain(F1.up, Seq(t1, r, false), t1.parent[r])
    {
      if r == x {
        RerootChain(F, x);
      } else {
        FlipOther(t, F, x, r);
      }
    }
  }

  lemma FlipOther(t: Nodes, F: Forest, x: int, r: int)
    requires Wf(t) && Represents(t, F) && Node(t, x) && Node(t, r) && r != x
    requires IsRoot(t, x) && IsRoot(t, r) && Seq(t, x, false) == Path(F, x)
    ensures Ok(Reroot(F, x)) && Wf(Flip(t, x))
    ensures Chain(Reroot(F, x).up, Seq(Flip(t, x), r, false), t.parent[r])
  {
    RerootOk(F, x);
    RootsDisjoint(t, x, r);
    FlipSeq(t, x, r);
    var s := Seq(t, r, false);
    assert Chain(F.up, s, t.parent[r]);
    SeqBasics(t, r, false);
    SeqBasics(t, x, false);
    forall i | 0 <= i < |s|
      ensures Reroot(F, x).up[s[i]] == F.up[s[i]]
    {
      assert s[i] in Sub(t, r);
      RerootOff(F, x, s[i]);
    }
    ChainFrame(F.up, Reroot(F, x).up, s, t.parent[r]);
  }

  /** `makeRoot(x)` after `access(x)`: flip `x`, then push the flip down.
      `x` is left a splay root without a pending reversal whose splay tree
      runs from `x` to the old root, and the structure stands for the
      forest rerooted at `x`. */
  lemma MakeRootDone(t: Nodes, t2: Nodes, F: Forest, x: int)
    requires Wf(t) && Summed(t) && Represents(t, F) && Node(t, x)
    requires IsRoot(t, x) && t.parent[x] == 0 && !t.rev[x] && Seq(t, x, false) == Path(F, x)
    requires Wf(Flip(t, x)) && t2 == PushDownF(Flip(t, x), x)
    ensures Wf(t2) && Summed(t2) && Represents(t2, Reroot(F, x))
    ensures t2.parent == t.parent && t2.val == t.val
    ensures IsRoot(t2, x) && !t2.rev[x] && Seq(t2, x, false) == Reverse(Path(F, x))
  {
    var t1 := Flip(t, x);
    FlipSeq(t, x, x);
    FlipRepresents(t, F, x);
    PushDownWf(t1, x);
    PushDownKeepsRepresents(t1, Reroot(F, x), x);
    PushDownSelf(t1, x, false);
    PushDownRoots(t1, x, x);
  }

  /** The state of the leftmost walk of `findRoot(x)`, started from `ta`
      (the state `access(x)` left): only `pushDown` has run, so every splay
      tree reads as before. */
  ghost predicate FindState(ta: Nodes, t: Nodes, F: Forest, x: int)
    requires Wf(ta) && Node(ta, x)
  {
    Wf(t) && Summed(t) && Represents(t, F) && t.parent == ta.parent && t.val == ta.val
    && KeepsRoots(ta, t, 0) && IsRoot(t, x)
  }

  /** ... and `cur` is a node of `x`'s splay tree whose subtree starts
      where the whole tree starts. */
  ghost predicate FindInv(ta: Nodes, t: Nodes, F: Forest, x: int, cur: int)
    requires Wf(ta) && Node(ta, x)
  {
    FindState(ta, t, F, x) && Node(t, cur) && cur in Sub(t, x)
    && Seq(t, cur, false)[0] == Seq(ta, x, false)[0]
  }

  /** The walk starts at `x`. */
  lemma FindStart(ta: Nodes, F: Forest, x: int)
    requires Wf(ta) && Summed(ta) && Represents(ta, F) && Node(ta, x) && IsRoot(ta, x)
    ensures FindInv(ta, ta, F, x, x)
  {
    SeqBasics(ta, x, false);
  }

  /** `pushDown` keeps the walk's state. */
  lemma FindPush(ta: Nodes, t: Nodes, F: Forest, x: int, cur: int)
    requires Wf(ta) && Node(ta, x) && FindState(ta, t, F, x) && Node(t, cur)
    ensures FindState(ta, PushDownF(t, cur), F, x)
  {
    var t1 := PushDownF(t, cur);
    PushDownWf(t, cur);
    PushDownKeepsRepresents(t, F, cur);
    PushDownRootSeq(t, cur, x);
    forall r | Node(ta, r) && IsRoot(ta, r)
      ensures IsRoot(t1, r) && t1.parent[r] == ta.parent[r] && Seq(t1, r, false) == Seq(ta, r, false)
    {
      PushDownRootSeq(t, cur, r);
    }
  }

  /** One round of the walk: push `cur`'s flag down, then either step to its
      left child, a smaller subtree that starts at the same place, or stop
      at the first node of `x`'s splay tree. */
  lemma FindStep(ta: Nodes, t: Nodes, F: Forest, x: int, cur: int)
    requires Wf(ta) && Node(ta, x) && FindInv(ta, t, F, x, cur)
    ensures var t1 := PushDownF(t, cur);
      && Wf(t1) && Node(t1, cur)
      && (t1.left[cur] != 0 ==> FindInv(ta, t1, F, x, t1.left[cur]) && Sz(t1, t1.left[cur]) < Sz(t, cur))
      && (t1.left[cur] == 0 ==> FindInv(ta, t1, F, x, cur) && cur == Seq(ta, x, false)[0])
  {
    var t1 := PushDownF(t, cur);
    FindPush(ta, t, F, x, cur);
    PushDownSelf(t, cur, false);
    PushDownSub(t, cur, x);
    assert !t1.rev[cur];
    var l := t1.left[cur];
    assert Seq(t1, cur, false) == Seq(t1, l, false) + [cur] + Seq(t1, t1.right[cur], false);
    if l != 0 {
      SeqBasics(t1, l, false);
      assert l in Sub(t1, cur);
      SubTrans(t1, x, cur, l);
    }
  }

  /** `findRoot(x)` changes no splay tree outside `x`'s tree of the forest:
      `access(x)` keeps them, the walk only pushes flags down, and the final
      splay works inside `x`'s splay tree. */
  lemma FindRootOutside(t0: Nodes, ta: Nodes, t: Nodes, t': Nodes, F: Forest, x: int)
    requires Wf(t0) && Represents(t0, F) && Node(t0, x)
    requires Wf(ta) && Wf(t) && Wf(t') && Node(ta, x)
    requires |ta.parent| == |t0.parent| && |t.parent| == |t0.parent| && |t'.parent| == |t0.parent|
    requires KeepsOutside(t0, ta, F, x) && KeepsRoots(ta, t, 0) && KeepsRoots(t, t', x)
    ensures KeepsOutside(t0, t', F, x)
  {
    forall r | Node(t0, r) && IsRoot(t0, r) && Root(F, r) != Root(F, x)
      ensures IsRoot(t', r) && t'.parent[r] == t0.parent[r] && Seq(t', r, false) == Seq(t0, r, false)
    {
      assert IsRoot(ta, r);
      assert IsRoot(t, r) && r != x;
    }
  }

  /** `link(u, v)` when `v` is not in `u`'s tree: `u`, a splay root without
      a parent after `makeRoot(u)`, gets `v` as its path-parent, and the
      structure stands for the linked forest. */
  lemma LinkStep(t: Nodes, F: Forest, u: int, v: int)
    requires Ok(F) && IsNode(F, u) && IsNode(F, v)
    requires Wf(t) && Summed(t) && Represents(t, Reroot(F, u)) && Node(t, u)
    requires IsRoot(t, u) && t.parent[u] == 0 && Root(Reroot(F, u), v) != u
    ensures var t' := t.(parent := t.parent[u := v]);
      Wf(t') && Summed(t') && Represents(t', Link(F, u, v))
  {
    var t' := t.(parent := t.parent[u := v]);
    var F1 := Reroot(F, u);
    var L := Link(F, u, v);
    RerootOk(F, u);
    LinkOk(F, u, v);
    assert Wf(t');
    forall r | Node(t', r) && IsRoot(t', r)
      ensures Chain(L.up, Seq(t', r, false), t'.parent[r])
    {
      SeqFrame(t, t', r, false);
      assert IsRoot(t, r);
      if r == u {
        LinkTop(t, F, u, v);
      } else {
        LinkOther(t, F, u, v, r);
      }
    }
  }

  /** `findRoot(v)` after `makeRoot(u)` leaves `u` a splay root without a
      parent when `v` lies in another tree. */
  lemma LinkReady(t1: Nodes, t: Nodes, F: Forest, u: int, v: int)
    requires Ok(F) && IsNode(F, u) && IsNode(F, v)
    requires Wf(t1) && Represents(t1, Reroot(F, u)) && Node(t1, u) && IsRoot(t1, u) && t1.parent[u] == 0
    requires Wf(t) && |t.parent| == |t1.parent| && KeepsOutside(t1, t, Reroot(F, u), v)
    requires Root(Reroot(F, u), v) != u
    ensures IsRoot(t, u) && t.parent[u] == 0
  {
    RerootRoot(F, u, u);
  }

  lemma LinkTop(t: Nodes, F: Forest, u: int, v: int)
    requires Ok(F) && IsNode(F, u) && IsNode(F, v)
    requires Wf(t) && Represents(t, Reroot(F, u)) && Node(t, u)
    requires IsRoot(t, u) && t.parent[u] == 0 && Root(Reroot(F, u), v) != u
    ensures Chain(Link(F, u, v).up, Seq(t, u, false), v)
  {
    var F1 := Reroot(F, u);
    var L := Link(F, u, v);
    RerootOk(F, u);
    var s := Seq(t, u, false);
    assert Chain(F1.up, s, 0);
    SeqBasics(t, u, false);
    var j := IndexOf(s, u);
    ChainRoot(F1, s, 0, j);
    RerootRoot(F, u, u);
    RootStep(F1, s[0]);
    ChainRanks(F1, s, 0);
    forall i | 0 <= i < |s|
      ensures L.up[s[i]] == if i == 0 then v else s[i - 1]
    {
      LinkAt(F, u, v, s[i]);
    }
  }

  lemma LinkOther(t: Nodes, F: Forest, u: int, v: int, r: int)
    requires Ok(F) && IsNode(F, u) && IsNode(F, v)
    requires Wf(t) && Represents(t, Reroot(F, u)) && Node(t, u) && Node(t, r) && r != u
    requires IsRoot(t, u) && IsRoot(t, r) && Root(Reroot(F, u), v) != u
    ensures Chain(Link(F, u, v).up, Seq(t, r, false), t.parent[r])
  {
    var F1 := Reroot(F, u);
    var L := Link(F, u, v);
    RerootOk(F, u);
    var s := Seq(t, r, false);
    assert Chain(F1.up, s, t.parent[r]);
    RootsDisjoint(t, u, r);
    SeqBasics(t, r, false);
    forall i | 0 <= i < |s|
      ensures L.up[s[i]] == F1.up[s[i]]
    {
      assert s[i] in Sub(t, r);
      LinkAt(F, u, v, s[i]);
    }
  }

  /** The detachment `cut(u, v)` performs: `v.left.parent = None`,
      `v.left = None`, then `pushUp(v)`. */
  function Detach(t: Nodes, u: int, v: int): (t': Nodes)
    requires Shaped(t) && Node(t, u) && Node(t, v)
    ensures Shaped(t') && |t'.parent| == |t.parent| && t'.parent[u] == 0 && t'.left[v] == 0
    ensures t'.val == t.val && t'.right == t.right && t'.rev == t.rev
    ensures t'.parent == t.parent[u := 0] && t'.left == t.left[v := 0]
    ensures forall z :: 0 <= z < |t.parent| && z != v ==> t'.size[z] == t.size[z]
  {
    PushUpF(t.(parent := t.parent[u := 0], left := t.left[v := 0]), v)
  }

  /** When `u` is the left child of `v`, a splay root without a parent,
      without a pending reversal and without a right child, detaching `u`
      leaves `u`'s subtree as a splay tree of its own and `v` alone: the
      structure then stands for the forest in which `v` hangs from nothing.
      That needs nothing about `u`'s own right child. */
  lemma DetachRepresents(t: Nodes, F: Forest, u: int, v: int)
    requires Wf(t) && Summed(t) && Represents(t, F) && Node(t, u) && Node(t, v)
    requires IsRoot(t, v) && t.parent[v] == 0 && !t.rev[v] && t.right[v] == 0 && t.left[v] == u
    ensures var t' := Detach(t, u, v);
      Wf(t') && Summed(t') && Represents(t', Forest(F.up[v := 0], F.rank))
  {
    var t' := Detach(t, u, v);
    var C := Forest(F.up[v := 0], F.rank);
    NotBelowSelf(t, v);
    ChildSub(t, v);
    DetachWf(t, u, v);
    assert Ok(C);
    forall r | Node(t', r) && IsRoot(t', r)
      ensures Chain(C.up, Seq(t', r, false), t'.parent[r])
    {
      DetachChain(t, F, u, v, r);
    }
  }

  lemma DetachWf(t: Nodes, u: int, v: int)
    requires Wf(t) && Summed(t) && Node(t, u) && Node(t, v)
    requires IsRoot(t, v) && t.right[v] == 0 && t.left[v] == u
    ensures Wf(Detach(t, u, v)) && Summed(Detach(t, u, v))
    ensures forall z :: Node(t, z) && z != v ==>
      IsRoot(Detach(t, u, v), z) == (IsRoot(t, z) || z == u)
  {
    DetachShape(t, u, v);
    DetachRoots(t, u, v);
  }

  lemma DetachShape(t: Nodes, u: int, v: int)
    requires Wf(t) && Summed(t) && Node(t, u) && Node(t, v)
    requires IsRoot(t, v) && t.right[v] == 0 && t.left[v] == u
    ensures Wf(Detach(t, u, v)) && Summed(Detach(t, u, v))
  {
    var t' := Detach(t, u, v);
    forall z | 1 <= z < |t.parent|
      ensures t'.left[z] != 0 ==> t'.parent[t'.left[z]] == z && t'.left[z] != t'.right[z]
      ensures t'.right[z] != 0 ==> t'.parent[t'.right[z]] == z
      ensures t'.size[z] == 1 + Sz(t', t'.left[z]) + Sz(t', t'.right[z])
      ensures t'.sum[z] == t'.val[z] + SumAt(t', t'.left[z]) + SumAt(t', t'.right[z])
    {
      DetachAt(t, u, v, z);
    }
  }

  /** Detaching touches the links and aggregates of `v` only: no other
      node has `u` or `v` as a child. */
  lemma DetachAt(t: Nodes, u: int, v: int, z: int)
    requires Wf(t) && Summed(t) && Node(t, u) && Node(t, v) && Node(t, z)
    requires IsRoot(t, v) && t.right[v] == 0 && t.left[v] == u
    ensures var t' := Detach(t, u, v);
      && (t'.left[z] != 0 ==> t'.parent[t'.left[z]] == z && t'.left[z] != t'.right[z])
      && (t'.right[z] != 0 ==> t'.parent[t'.right[z]] == z)
      && t'.size[z] == 1 + Sz(t', t'.left[z]) + Sz(t', t'.right[z])
      && t'.sum[z] == t'.val[z] + SumAt(t', t'.left[z]) + SumAt(t', t'.right[z])
  {
    if z != v {
      assert t.left[z] != v && t.right[z] != v;
      assert t.left[z] != u && t.right[z] != u;
    }
  }

  lemma DetachRoots(t: Nodes, u: int, v: int)
    requires Wf(t) && Node(t, u) && Node(t, v) && t.left[v] == u
    ensures forall z :: Node(t, z) && z != v ==>
      IsRoot(Detach(t, u, v), z) == (IsRoot(t, z) || z == u)
  {
    var t' := Detach(t, u, v);
    forall z | Node(t, z) && z != v
      ensures IsRoot(t', z) == (IsRoot(t, z) || z == u)
    {
      if z != u && t.parent[z] == v {
        assert t.left[v] != z;
      }
    }
  }

  lemma DetachChain(t: Nodes, F: Forest, u: int, v: int, r: int)
    requires Wf(t) && Summed(t) && Represents(t, F) && Node(t, u) && Node(t, v)
    requires IsRoot(t, v) && t.parent[v] == 0 && !t.rev[v] && t.right[v] == 0 && t.left[v] == u
    requires Wf(Detach(t, u, v)) && Node(t, r) && IsRoot(Detach(t, u, v), r)
    ensures Ok(Forest(F.up[v := 0], F.rank))
    ensures Chain(F.up[v := 0], Seq(Detach(t, u, v), r, false), Detach(t, u, v).parent[r])
  {
    var t' := Detach(t, u, v);
    if r == v {
      assert Seq(t', v, false) == [v] by {
        assert t'.left[v] == 0 && t'.right[v] == 0;
        assert Seq(t', 0, false) == [];
      }
    } else if r == u {
      assert Chain(F.up, Seq(t, v, false), 0);
      DetachLeft(t, F, u, v);
    } else {
      DetachWf(t, u, v);
      assert IsRoot(t, r);
      assert Chain(F.up, Seq(t, r, false), t.parent[r]);
      RootsDisjoint(t, r, v);
      ChildSub(t, v);
      DetachOther(t, F, u, v, r);
    }
  }

  /** `u`'s subtree, cut loose, is the path down to `v`'s parent. */
  lemma DetachLeft(t: Nodes, F: Forest, u: int, v: int)
    requires Wf(t) && Ok(F) && |F.up| == |t.parent| && Node(t, u) && Node(t, v)
    requires !t.rev[v] && t.right[v] == 0 && t.left[v] == u
    requires Chain(F.up, Seq(t, v, false), 0)
    requires Wf(Detach(t, u, v))
    ensures Chain(F.up[v := 0], Seq(Detach(t, u, v), u, false), 0)
  {
    var s := Seq(t, u, false);
    DetachLeftSeq(t, u, v);
    VisitLeft(t, u, v);
    ChainSplit(F.up, s, [v], 0);
    ChainFrame(F.up, F.up[v := 0], s, 0);
  }

  lemma VisitLeft(t: Nodes, u: int, v: int)
    requires Wf(t) && Node(t, v) && !t.rev[v] && t.right[v] == 0 && t.left[v] == u
    ensures Seq(t, v, false) == Seq(t, u, false) + [v]
  {
    assert Seq(t, 0, false) == [];
  }

  lemma DetachLeftSeq(t: Nodes, u: int, v: int)
    requires Wf(t) && Node(t, u) && Node(t, v) && t.left[v] == u
    requires Wf(Detach(t, u, v))
    ensures Seq(Detach(t, u, v), u, false) == Seq(t, u, false)
    ensures forall i :: 0 <= i < |Seq(t, u, false)| ==> Seq(t, u, false)[i] != v
  {
    NotBelowSelf(t, v);
    SeqFrame(t, Detach(t, u, v), u, false);
    SeqBasics(t, u, false);
  }

  /** Any other splay tree holds neither `u` nor `v` and is untouched. */
  lemma DetachOther(t: Nodes, F: Forest, u: int, v: int, r: int)
    requires Wf(t) && Ok(F) && |F.up| == |t.parent| && Node(t, u) && Node(t, v) && Node(t, r)
    requires r != u && r != v && t.left[v] == u && v !in Sub(t, r) && u !in Sub(t, r)
    requires Chain(F.up, Seq(t, r, false), t.parent[r])
    requires Wf(Detach(t, u, v))
    ensures Chain(F.up[v := 0], Seq(Detach(t, u, v), r, false), Detach(t, u, v).parent[r])
  {
    var t' := Detach(t, u, v);
    SeqFrame(t, t', r, false);
    var s := Seq(t, r, false);
    SeqBasics(t, r, false);
    ChainFrame(F.up, F.up[v := 0], s, t.parent[r]);
  }

  /** When `u`–`v` is an edge, after `makeRoot(u)` and `access(v)` the
      splay tree of `v` reads `u, v`: `u` is `v`'s left child without a right
      child, so the test of `cut` succeeds. */
  lemma CutTest(t: Nodes, F: Forest, u: int, v: int)
    requires Ok(F) && IsNode(F, u) && IsNode(F, v) && Edge(F, u, v) && Ok(Reroot(F, u))
    requires Wf(t) && Node(t, v) && IsRoot(t, v) && !t.rev[v] && t.right[v] == 0
    requires Seq(t, v, false) == Path(Reroot(F, u), v)
    ensures t.left[v] == u && Node(t, u) && t.right[u] == 0
  {
    CutPath(F, u, v);
    var l := t.left[v];
    assert Seq(t, v, false) == Seq(t, l, false) + [v] by {
      assert Seq(t, 0, false) == [];
    }
    var sl := Seq(t, l, false);
    assert sl + [v] == [u, v];
    assert |sl| == 1 && sl[0] == (sl + [v])[0];
    SeqBasics(t, l, false);
    assert l in Sub(t, l);
    assert t.size[u] == 1;
  }

  /** After rerooting at `u`, the path down to a neighbour `v` is `u, v`. */
  lemma CutPath(F: Forest, u: int, v: int)
    requires Ok(F) && IsNode(F, u) && IsNode(F, v) && Edge(F, u, v)
    ensures Ok(Reroot(F, u)) && Path(Reroot(F, u), v) == [u, v]
  {
    var F1 := Reroot(F, u);
    RerootOk(F, u);
    RerootEdges(F, u, u, v);
    RerootAt(F, u, u);
    assert F1.up[v] == u;
    assert Path(F1, u) == [u];
  }

  lemma CutTestIf(t: Nodes, F: Forest, u: int, v: int)
    requires Ok(F) && IsNode(F, u) && IsNode(F, v) && Ok(Reroot(F, u))
    requires Wf(t) && Node(t, v) && IsRoot(t, v) && !t.rev[v] && t.right[v] == 0
    requires Seq(t, v, false) == Path(Reroot(F, u), v)
    ensures Edge(F, u, v) ==> t.left[v] == u && Node(t, u) && t.right[u] == 0
  {
    if Edge(F, u, v) {
      CutTest(t, F, u, v);
    }
  }

  /** `updateValue(x, nv)` after `splay(x)`: with `x` a splay root, no other
      aggregate counts `x`'s value, so `pushUp(x)` makes them all consistent
      again; the splay trees read as before. */
  lemma UpdateStep(t: Nodes, F: Forest, x: int, nv: int)
    requires Wf(t) && Summed(t) && Represents(t, F) && Node(t, x) && IsRoot(t, x)
    ensures var t' := PushUpF(t.(val := t.val[x := nv]), x);
      Wf(t') && Summed(t') && Represents(t', F) && t'.val == t.val[x := nv]
  {
    var t' := PushUpF(t.(val := t.val[x := nv]), x);
    UpdateSummed(t, x, nv);
    RepresentsFrame(t, t', F);
  }

  /** The correspondence depends on the pointers, flags and sizes only. */
  lemma RepresentsFrame(t: Nodes, t': Nodes, F: Forest)
    requires Wf(t) && Wf(t') && Represents(t, F)
    requires t'.parent == t.parent && t'.left == t.left && t'.right == t.right
    requires t'.rev == t.rev && t'.size == t.size
    ensures Represents(t', F)
  {
    forall r | Node(t', r) && IsRoot(t', r)
      ensures Chain(F.up, Seq(t', r, false), t'.parent[r])
    {
      SeqFrame(t, t', r, false);
    }
  }

  lemma UpdateSummed(t: Nodes, x: int, nv: int)
    requires Wf(t) && Summed(t) && Node(t, x) && IsRoot(t, x)
    ensures var t' := PushUpF(t.(val := t.val[x := nv]), x);
      Wf(t') && Summed(t') && t'.size == t.size
  {
    var t' := PushUpF(t.(val := t.val[x := nv]), x);
    assert t'.size == t.size;
    forall y | 1 <= y < |t.parent|
      ensures t'.sum[y] == t'.val[y] + SumAt(t', t'.left[y]) + SumAt(t', t'.right[y])
    {
      if y != x {
        assert t.left[y] != x && t.right[y] != x;
      }
    }
  }

  /** `buildNodes(values)`: node `i` holds `values[i - 1]`, alone in its
      splay tree and in its tree of the forest. */
  function Singletons(values: seq<int>): (t: Nodes)
    ensures |t.parent| == |values| + 1 && t.val == [0] + values
  {
    var n := |values| + 1;
    Nodes(seq(n, _ => 0), seq(n, _ => 0), seq(n, _ => 0), [0] + values, [0] + values,
      seq(n, _ => false), seq(n, _ => 1))
  }

  /** The forest of `n` roots. */
  function Roots(n: nat): (F: Forest)
    ensures |F.up| == n + 1
  {
    Forest(seq(n + 1, _ => 0), seq(n + 1, _ => 0))
  }

  /** The nodes `buildNodes` makes are consistent and stand for the forest
      in which every node is a tree of its own. */
  lemma SingletonsValid(values: seq<int>)
    ensures Wf(Singletons(values)) && Summed(Singletons(values))
    ensures Represents(Singletons(values), Roots(|values|))
  {
    var t := Singletons(values);
    var F := Roots(|values|);
    assert Wf(t);
    forall r | Node(t, r)
      ensures IsRoot(t, r) && Chain(F.up, Seq(t, r, false), t.parent[r])
    {
      assert Seq(t, r, false) == [r] by {
        assert Seq(t, 0, false) == [];
      }
    }
  }
}
