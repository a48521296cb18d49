/**
 * What `splay(x)` keeps and what it achieves, stated over node snapshots:
 * the invariant of its rotation loop, how the loop starts, and what one
 * rotation does to the invariant.
 */
module LctSplay {
  import opened LctNodes
  import opened LctForest
  import opened LctSteps
  import opened LctRepr

  /** The invariant of the rotation loop of `splay(x)`, started from `t0`:
      the structure still stands for `F` with consistent aggregates; nothing
      above `x` has a pending reversal; every other splay tree is as it was;
      and `x`'s splay tree reads as before and hangs from the same node. */
  ghost predicate SplayInv(t0: Nodes, t: Nodes, F: Forest, x: int)
    requires Wf(t0) && Node(t0, x)
  {
    Wf(t) && Summed(t) && Represents(t, F) && |t.parent| == |t0.parent|
    && AncClear(t, x) && KeepsRoots(t0, t, RootOf(t0, x))
    && Seq(t, RootOf(t, x), false) == Seq(t0, RootOf(t0, x), false)
    && t.parent[RootOf(t, x)] == t0.parent[RootOf(t0, x)]
    && t.val == t0.val
  }

  /** After the climb and the `pushDown` loop the rotation loop may start. */
  lemma SplayStart(t0: Nodes, F: Forest, anc: seq<int>, x: int)
    requires Wf(t0) && Summed(t0) && Represents(t0, F) && Node(t0, x)
    requires forall j :: 0 <= j < |anc| ==> Node(t0, anc[j])
    requires forall z :: Node(t0, z) && x in Sub(t0, z) ==> z in anc
    requires forall j, j' :: 0 <= j < j' < |anc| && x in Sub(t0, anc[j']) ==> Sz(t0, anc[j]) < Sz(t0, anc[j'])
    ensures SplayInv(t0, PushDownAllF(t0, anc), F, x)
  {
    var t1 := PushDownAllF(t0, anc);
    var R := RootOf(t0, x);
    PushDownAllKeeps(t0, F, anc, x);
    StartClear(t0, t1, anc, x);
    assert IsRoot(t1, R) && Sub(t1, R) == Sub(t0, R);
    RootOfUnique(t1, x, R);
    assert Wf(t1) && Summed(t1) && Represents(t1, F) && |t1.parent| == |t0.parent|;
    assert KeepsRoots(t0, t1, R);
    assert Seq(t1, R, false) == Seq(t0, R, false);
    assert t1.parent[R] == t0.parent[R] && t1.val == t0.val;
  }

  lemma StartClear(t0: Nodes, t1: Nodes, anc: seq<int>, x: int)
    requires Wf(t0) && Wf(t1) && |t1.parent| == |t0.parent| && Node(t0, x)
    requires forall z :: Node(t0, z) && x in Sub(t0, z) ==> z in anc
    requires forall z :: Ref(t0, z) ==> Sub(t1, z) == Sub(t0, z)
    requires forall j :: 0 <= j < |anc| ==> Node(t0, anc[j])
    requires forall j :: 0 <= j < |anc| && Node(t0, anc[j]) && x in Sub(t0, anc[j]) ==> !t1.rev[anc[j]]
    ensures AncClear(t1, x)
  {
    forall z | Node(t1, z) && x in Sub(t1, z)
      ensures !t1.rev[z]
    {
      assert Sub(t1, z) == Sub(t0, z);
      var j :| 0 <= j < |anc| && anc[j] == z;
    }
  }

  /** One rotation of the loop, of `x` or of its parent, keeps the invariant,
      never shrinks `x`'s subtree and grows it when `x` itself rotates. */
  lemma SplayRotate(t0: Nodes, t: Nodes, F: Forest, x: int, y: int)
    requires Wf(t0) && Node(t0, x) && SplayInv(t0, t, F, x)
    requires Node(t, y) && !IsRoot(t, y) && (y == x || (y == t.parent[x] && !IsRoot(t, x)))
    ensures t.parent[t.parent[y]] !in Sub(t, t.parent[y])
    ensures var t' := RotateF(t, y);
      && SplayInv(t0, t', F, x)
      && Sz(t, x) <= Sz(t', x) <= |t.parent| - 1
      && (y == x ==> Sz(t, x) < Sz(t', x))
      && (y != x || !IsRoot(t, t.parent[x]) ==> !IsRoot(t', x))
  {
    if y != x {
      assert x in Sub(t, y);
    }
    assert CanRotate(t, F, x, y);
    CanRotateFacts(t, F, x, y);
    var t' := RotateF(t, y);
    RotateRepresents(t, F, x, y);
    RotateKeepsRoots(t, F, x, y);
    RotateKeepsClear(t, F, x, y);
    KeepsRootsTrans(t0, t, t', x);
    SizeBound(t', x);
  }
}
