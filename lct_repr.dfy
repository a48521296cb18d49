/**
 * How the splay trees stand for the forest.  Each splay tree holds one
 * preferred path: read in order it is a downward run of the forest, and the
 * parent pointer of its splay root is the forest parent of the run's first
 * node (the path-parent pointer).  The facts here say which local steps keep
 * that correspondence and what the splay and access loops may rely on.
 */
module LctRepr {
  import opened LctNodes
  import opened LctForest
  import opened LctSteps

  /** Every splay tree reads as a chain of `F` hanging from its root's
      parent pointer. */
  ghost predicate Represents(t: Nodes, F: Forest)
    requires Wf(t)
  {
    Ok(F) && |F.up| == |t.parent|
    && forall r :: Node(t, r) && IsRoot(t, r) ==> Chain(F.up, Seq(t, r, false), t.parent[r])
  }

  /** No splay tree holds its own root's parent. */
  lemma RootParentOutside(t: Nodes, F: Forest, r: int)
    requires Wf(t) && Represents(t, F) && Node(t, r) && IsRoot(t, r)
    ensures t.parent[r] !in Sub(t, r)
  {
    var s := Seq(t, r, false);
    var q := t.parent[r];
    assert Chain(F.up, s, q);
    if q in Sub(t, r) {
      SeqBasics(t, r, false);
      ChainHead(F, s, q, q);
    }
  }

  /** No subtree holds its root's parent. */
  lemma ParentNotBelow(t: Nodes, F: Forest, y: int)
    requires Wf(t) && Represents(t, F) && Node(t, y)
    ensures t.parent[y] !in Sub(t, y)
  {
    if IsRoot(t, y) {
      RootParentOutside(t, F, y);
    } else {
      var q := t.parent[y];
      assert y in Sub(t, q);
      assert t.size[q] == 1 + Sz(t, t.left[q]) + Sz(t, t.right[q]);
      if q in Sub(t, y) {
        SubAntisym(t, q, y);
      }
    }
  }

  /** A splay tree lies within one tree of the forest, and so do a node and
      its parent pointer. */
  lemma SameComponent(t: Nodes, F: Forest, z: int)
    requires Wf(t) && Represents(t, F) && Node(t, z)
    ensures IsNode(F, RootOf(t, z)) && Root(F, RootOf(t, z)) == Root(F, z)
    ensures t.parent[z] != 0 ==> IsNode(F, t.parent[z]) && Root(F, t.parent[z]) == Root(F, z)
  {
    var r := RootOf(t, z);
    var s := Seq(t, r, false);
    assert Chain(F.up, s, t.parent[r]);
    SeqBasics(t, r, false);
    SubBounds(t, r, r);
    var i, j := IndexOf(s, r), IndexOf(s, z);
    ChainRoot(F, s, t.parent[r], i);
    ChainRoot(F, s, t.parent[r], j);
    if t.parent[z] != 0 {
      if IsRoot(t, z) {
        RootOfUnique(t, z, z);
        RootStep(F, s[0]);
      } else {
        var q := t.parent[z];
        assert z in Sub(t, q);
        UpClosed(t, r, z);
        ChainRoot(F, s, t.parent[r], IndexOf(s, q));
      }
    }
  }

  /** `pushDown` keeps every splay root, its parent pointer and its
      sequence. */
  lemma PushDownRootSeq(t: Nodes, x: int, r: int)
    requires Wf(t) && Node(t, x) && Node(t, r) && IsRoot(t, r)
    ensures Wf(PushDownF(t, x)) && IsRoot(PushDownF(t, x), r)
    ensures PushDownF(t, x).parent == t.parent
    ensures Seq(PushDownF(t, x), r, false) == Seq(t, r, false)
  {
    if r != x && r in Sub(t, x) {
      UpClosed(t, x, r);
    }
    PushDownKeeps(t, x, r, false);
  }

  lemma PushDownKeepsRepresents(t: Nodes, F: Forest, x: int)
    requires Wf(t) && Represents(t, F) && Node(t, x)
    ensures Wf(PushDownF(t, x)) && Represents(PushDownF(t, x), F)
  {
    PushDownWf(t, x);
    var t' := PushDownF(t, x);
    forall r | Node(t', r) && IsRoot(t', r)
      ensures Chain(F.up, Seq(t', r, false), t'.parent[r])
    {
      PushDownRoots(t, x, r);
      PushDownRootSeq(t, x, r);
    }
  }

  /** `pushDown` moves no node between subtrees. */
  lemma {:induction false} PushDownSub(t: Nodes, x: int, z: int)
    requires Wf(t) && Node(t, x) && Ref(t, z)
    ensures Wf(PushDownF(t, x)) && Sub(PushDownF(t, x), z) == Sub(t, z)
    decreases Sz(t, z)
  {
    PushDownWf(t, x);
    var t' := PushDownF(t, x);
    if t.rev[x] && z != 0 {
      SubBounds(t, z, z);
      ChildSub(t, z);
      PushDownSub(t, x, t.left[z]);
      PushDownSub(t, x, t.right[z]);
      if z == x {
        assert Sub(t', z) == {z} + Sub(t', t.right[z]) + Sub(t', t.left[z]);
      } else {
        assert t'.left[z] == t.left[z] && t'.right[z] == t.right[z];
      }
    }
  }

  /** Every node above `x` in its splay tree has no pending reversal (the
      state the first two loops of `splay` establish). */
  ghost predicate AncClear(t: Nodes, x: int)
    requires Wf(t) && Node(t, x)
  {
    forall z :: Node(t, z) && x in Sub(t, z) ==> !t.rev[z]
  }

  /** Every splay root of `t0` other than `R` is still a root in `t`, with
      the same parent pointer and the same sequence. */
  ghost predicate KeepsRoots(t0: Nodes, t: Nodes, R: int)
    requires Wf(t0) && Wf(t) && |t.parent| == |t0.parent|
  {
    forall r :: Node(t0, r) && IsRoot(t0, r) && r != R ==>
      IsRoot(t, r) && t.parent[r] == t0.parent[r] && Seq(t, r, false) == Seq(t0, r, false)
  }

  /** The conditions under which `splay(x)` may rotate `y` (`x` itself, or
      `x`'s parent in the zig-zig case). */
  ghost predicate CanRotate(t: Nodes, F: Forest, x: int, y: int)
  {
    Wf(t) && Represents(t, F) && Node(t, x) && Node(t, y) && !IsRoot(t, y)
    && x in Sub(t, y) && AncClear(t, x)
  }

  lemma CanRotateFacts(t: Nodes, F: Forest, x: int, y: int)
    requires CanRotate(t, F, x, y)
    ensures var p := t.parent[y];
      && Node(t, p) && t.parent[p] !in Sub(t, p) && !t.rev[y] && !t.rev[p]
      && x in Sub(t, p) && x != p && RootOf(t, y) == RootOf(t, x)
  {
    var p := t.parent[y];
    assert y in Sub(t, p);
    ParentNotBelow(t, F, p);
    SubTrans(t, p, y, x);
    var r := RootOf(t, y);
    SubTrans(t, r, y, x);
    RootOfUnique(t, x, r);
    if x == p {
      SubAntisym(t, y, p);
    }
  }

  /** A rotation inside `x`'s splay tree keeps the correspondence. */
  lemma RotateRepresents(t: Nodes, F: Forest, x: int, y: int)
    requires CanRotate(t, F, x, y)
    ensures Wf(RotateF(t, y)) && Represents(RotateF(t, y), F)
    ensures Summed(t) ==> Summed(RotateF(t, y))
  {
    CanRotateFacts(t, F, x, y);
    var t', p := RotateF(t, y), t.parent[y];
    RotateWf(t, y);
    forall r | Node(t', r) && IsRoot(t', r)
      ensures Chain(F.up, Seq(t', r, false), t'.parent[r])
    {
      RotateRoots(t, y, r);
      if r == y {
        RotateSeq(t, y, false);
      } else {
        if r in Sub(t, p) {
          UpClosed(t, p, r);
        }
        RotateSeqOther(t, y, r, false);
      }
    }
  }

  /** A rotation inside `x`'s splay tree keeps every other splay tree, and
      keeps the sequence and the parent pointer of `x`'s splay root. */
  lemma RotateKeepsRoots(t: Nodes, F: Forest, x: int, y: int)
    requires CanRotate(t, F, x, y)
    ensures var t' := RotateF(t, y);
      && Wf(t') && KeepsRoots(t, t', RootOf(t, x))
      && Seq(t', RootOf(t', x), false) == Seq(t, RootOf(t, x), false)
      && t'.parent[RootOf(t', x)] == t.parent[RootOf(t, x)]
  {
    CanRotateFacts(t, F, x, y);
    var t', p := RotateF(t, y), t.parent[y];
    var R := RootOf(t, x);
    RotateWf(t, y);
    forall r | Node(t, r) && IsRoot(t, r) && r != R
      ensures IsRoot(t', r) && t'.parent[r] == t.parent[r] && Seq(t', r, false) == Seq(t, r, false)
    {
      RotateRoots(t, y, r);
      if r == p {
        RootOfUnique(t, x, p);
      }
      if r in Sub(t, p) {
        UpClosed(t, p, r);
      }
      RotateSeqOther(t, y, r, false);
    }
    RotateRoots(t, y, R);
    RotateRoots(t, y, y);
    if R == p {
      RotateSub(t, y, y);
      RootOfUnique(t', x, y);
      RotateSeq(t, y, false);
    } else {
      if R in Sub(t, p) {
        UpClosed(t, p, R);
      }
      RotateSeqOther(t, y, R, false);
      SubOfSeq(t', t, R, R);
      RootOfUnique(t', x, R);
    }
  }

  /** A rotation inside `x`'s splay tree keeps every node above `x` free of
      pending reversals, never shrinks `x`'s subtree, and grows it when `x`
      itself rotates. */
  lemma RotateKeepsClear(t: Nodes, F: Forest, x: int, y: int)
    requires CanRotate(t, F, x, y)
    ensures var t' := RotateF(t, y);
      && Wf(t') && AncClear(t', x)
      && Sz(t', x) >= Sz(t, x) && (y == x ==> Sz(t', x) > Sz(t, x))
      && (y != x || !IsRoot(t, t.parent[x]) ==> !IsRoot(t', x))
      && t'.val == t.val
  {
    CanRotateFacts(t, F, x, y);
    var t', p := RotateF(t, y), t.parent[y];
    RotateWf(t, y);
    forall z | Node(t', z) && x in Sub(t', z)
      ensures !t'.rev[z]
    {
      RotateSub(t, y, z);
      if t.left[p] == y {
        RotateAtLeft(t, y, z);
      } else {
        RotateAtRight(t, y, z);
      }
    }
    RotateRoots(t, y, x);
    if t.left[p] == y {
      RotateAtLeft(t, y, x);
    } else {
      RotateAtRight(t, y, x);
    }
    if y == x {
      assert x in Sub(t, p);
      SubStrict(t, p, x);
    } else {
      RotateDistinct(t, y);
      UpClosed(t, y, x);
    }
  }

  /** The first node of the preferred path held by `y`'s splay tree. */
  ghost function Head(t: Nodes, y: int): int
    requires Wf(t) && Node(t, y)
  {
    var r := RootOf(t, y);
    SeqBasics(t, r, false);
    Seq(t, r, false)[0]
  }

  /** Nodes of one subtree share their splay root. */
  lemma SameRoot(t: Nodes, y: int, z: int)
    requires Wf(t) && Node(t, y) && z in Sub(t, y)
    ensures Node(t, z) && RootOf(t, z) == RootOf(t, y)
  {
    SubBounds(t, y, z);
    var r := RootOf(t, y);
    SubTrans(t, r, y, z);
    RootOfUnique(t, z, r);
  }

  /** One step of the climb in `splay`: inside a splay tree the climb goes
      to a strictly larger subtree; from a splay root it follows the
      path-parent pointer to a path whose first node lies higher in the
      forest. */
  lemma WalkStep(t: Nodes, F: Forest, y: int)
    requires Wf(t) && Represents(t, F) && Node(t, y) && t.parent[y] != 0
    ensures Node(t, t.parent[y])
    ensures IsRoot(t, y) ==> F.rank[Head(t, t.parent[y])] < F.rank[Head(t, y)]
    ensures !IsRoot(t, y) ==> y in Sub(t, t.parent[y]) && Sz(t, y) < Sz(t, t.parent[y])
    ensures !IsRoot(t, y) ==> RootOf(t, t.parent[y]) == RootOf(t, y)
  {
    var q := t.parent[y];
    if IsRoot(t, y) {
      var s := Seq(t, y, false);
      SeqBasics(t, y, false);
      assert Chain(F.up, s, q);
      var r := RootOf(t, q);
      var s' := Seq(t, r, false);
      assert Chain(F.up, s', t.parent[r]);
      SeqBasics(t, r, false);
      ChainHead(F, s', t.parent[r], q);
    } else {
      assert y in Sub(t, q);
      SubStrict(t, q, y);
      SameRoot(t, q, y);
    }
  }

  /** `pushUp` changes nothing while the aggregates are up to date. */
  lemma PushUpNoop(t: Nodes, x: int)
    requires Wf(t) && Summed(t) && Node(t, x)
    ensures PushUpF(t, x) == t
  {
    var t' := PushUpF(t, x);
    assert t'.sum == t.sum;
    assert t'.size == t.size;
  }

  /** Keeping roots composes. */
  lemma KeepsRootsTrans(t0: Nodes, t: Nodes, t': Nodes, x: int)
    requires Wf(t0) && Wf(t) && Wf(t') && |t.parent| == |t0.parent| && |t'.parent| == |t0.parent|
    requires Node(t0, x)
    requires KeepsRoots(t0, t, RootOf(t0, x)) && KeepsRoots(t, t', RootOf(t, x))
    requires Seq(t, RootOf(t, x), false) == Seq(t0, RootOf(t0, x), false)
    ensures KeepsRoots(t0, t', RootOf(t0, x))
  {
    var R := RootOf(t0, x);
    forall r | Node(t0, r) && IsRoot(t0, r) && r != R
      ensures IsRoot(t', r) && t'.parent[r] == t0.parent[r] && Seq(t', r, false) == Seq(t0, r, false)
    {
      if r == RootOf(t, x) {
        SeqBasics(t0, R, false);
        SeqBasics(t0, r, false);
        assert x in Seq(t0, r, false);
        RootOfUnique(t0, x, r);
      }
    }
  }

  /** The `pushDown` loop of `splay` moves no node between subtrees, keeps
      every splay tree with its sequence, and leaves no pending reversal on
      the nodes of `s` above `x`, provided those come in order of growing
      subtrees. */
  lemma PushDownAllKeeps(t: Nodes, F: Forest, s: seq<int>, x: int)
    requires Wf(t) && Represents(t, F) && Node(t, x)
    requires forall j :: 0 <= j < |s| ==> Node(t, s[j])
    requires forall j, j' :: 0 <= j < j' < |s| && x in Sub(t, s[j']) ==> Sz(t, s[j]) < Sz(t, s[j'])
    ensures var t' := PushDownAllF(t, s);
      && Represents(t', F) && (Summed(t) ==> Summed(t'))
      && t'.parent == t.parent && t'.val == t.val && t'.sum == t.sum && t'.size == t.size
      && (forall z :: Ref(t, z) ==> Sub(t', z) == Sub(t, z))
      && KeepsRoots(t, t', 0)
      && (forall j :: 0 <= j < |s| && x in Sub(t, s[j]) ==> !t'.rev[s[j]])
  {
    var t' := PushDownAllF(t, s);
    PushDownAllShape(t, s);
    PushDownAllClears(t, s, x);
    forall r | Node(t', r) && IsRoot(t', r)
      ensures Chain(F.up, Seq(t', r, false), t'.parent[r])
    {
      assert IsRoot(t, r);
    }
  }

  /** The `pushDown` loop changes no parent pointer, size or aggregate,
      moves no node between subtrees and keeps every splay root with its
      sequence. */
  lemma {:induction false} PushDownAllShape(t: Nodes, s: seq<int>)
    requires Wf(t) && forall j :: 0 <= j < |s| ==> Node(t, s[j])
    ensures var t' := PushDownAllF(t, s);
      && (Summed(t) ==> Summed(t'))
      && t'.parent == t.parent && t'.val == t.val && t'.sum == t.sum && t'.size == t.size
      && (forall z :: Ref(t, z) ==> Sub(t', z) == Sub(t, z))
      && (forall r :: Node(t, r) ==> IsRoot(t', r) == IsRoot(t, r))
      && (forall r :: Node(t, r) && IsRoot(t, r) ==> Seq(t', r, false) == Seq(t, r, false))
    decreases |s|
  {
    if |s| > 0 {
      var t1 := PushDownAllF(t, s[1..]);
      PushDownAllShape(t, s[1..]);
      var w := s[0];
      var t' := PushDownF(t1, w);
      assert t' == PushDownAllF(t, s);
      PushDownWf(t1, w);
      forall z | Ref(t, z)
        ensures Sub(t', z) == Sub(t, z)
      {
        PushDownSub(t1, w, z);
      }
      forall r | Node(t, r)
        ensures IsRoot(t', r) == IsRoot(t, r)
      {
        PushDownRoots(t1, w, r);
      }
      forall r | Node(t, r) && IsRoot(t, r)
        ensures Seq(t', r, false) == Seq(t, r, false)
      {
        PushDownRootSeq(t1, w, r);
      }
    }
  }

  /** The `pushDown` loop leaves no pending reversal on the nodes of `s`
      above `x` when those come in order of growing subtrees. */
  lemma {:induction false} PushDownAllClears(t: Nodes, s: seq<int>, x: int)
    requires Wf(t) && Node(t, x)
    requires forall j :: 0 <= j < |s| ==> 1 <= s[j] < |t.parent|
    requires forall j, j' :: 0 <= j < j' < |s| && x in Sub(t, s[j']) ==> Sz(t, s[j]) < Sz(t, s[j'])
    ensures forall j :: 0 <= j < |s| && x in Sub(t, s[j]) ==> !PushDownAllF(t, s).rev[s[j]]
    decreases |s|
  {
    if |s| > 0 {
      var s1 := s[1..];
      var t1 := PushDownAllF(t, s1);
      PushDownAllClears(t, s1, x);
      PushDownAllShape(t, s1);
      var w := s[0];
      var t' := PushDownF(t1, w);
      assert t' == PushDownAllF(t, s);
      forall j | 0 <= j < |s| && x in Sub(t, s[j])
        ensures !t'.rev[s[j]]
      {
        if j > 0 {
          assert s[j] == s1[j - 1];
          PushDownClearBelow(t1, w, s[j], x);
        }
      }
    }
  }

  /** `pushDown(w)` leaves the flag of `z` alone when `z` holds `x` and `w`'s
      subtree is not larger than `z`'s. */
  lemma PushDownClearBelow(t: Nodes, w: int, z: int, x: int)
    requires Wf(t) && Node(t, w) && Node(t, z) && Node(t, x) && x in Sub(t, z)
    requires x in Sub(t, w) ==> Sz(t, w) < Sz(t, z)
    ensures PushDownF(t, w).rev[z] == t.rev[z]
  {
    if t.rev[w] && (z == t.left[w] || z == t.right[w]) {
      assert false;
    }
  }

  /** The climb in `splay(x)` has listed `anc` and goes on with `y`: the
      listed nodes follow parent pointers from `x`. */
  ghost predicate ClimbLinks(t: Nodes, x: int, anc: seq<int>, y: int)
    requires Shaped(t)
  {
    Node(t, x) && Node(t, y)
    && (forall j :: 0 <= j < |anc| ==> Node(t, anc[j]))
    && (|anc| == 0 ==> y == x)
    && (|anc| >= 1 ==> anc[0] == x && y == t.parent[anc[|anc| - 1]])
    && (forall j :: 0 <= j < |anc| - 1 ==> anc[j + 1] == t.parent[anc[j]])
  }

  /** Every node above `x` in its splay tree is listed or lies above `y`. */
  ghost predicate ClimbCovers(t: Nodes, x: int, anc: seq<int>, y: int)
    requires Wf(t)
  {
    forall z :: Node(t, z) && x in Sub(t, z) ==> z in anc || y in Sub(t, z)
  }

  /** Listed nodes above `x` come in order of growing subtrees, below `y`
      when `y` is above `x`. */
  ghost predicate ClimbOrdered(t: Nodes, x: int, anc: seq<int>, y: int)
    requires Wf(t) && Ref(t, y) && forall j :: 0 <= j < |anc| ==> Node(t, anc[j])
  {
    (forall j, j' :: 0 <= j < j' < |anc| && Node(t, anc[j]) && Node(t, anc[j']) && x in Sub(t, anc[j']) ==>
       Sz(t, anc[j]) < Sz(t, anc[j']))
    && (x in Sub(t, y) ==> forall j :: 0 <= j < |anc| && Node(t, anc[j]) ==> Sz(t, anc[j]) < Sz(t, y))
  }

  /** Once the climb has left `x`'s splay tree, it is on a path higher in
      the forest. */
  ghost predicate ClimbRank(t: Nodes, F: Forest, x: int, y: int)
    requires Wf(t) && Represents(t, F) && Node(t, x) && Node(t, y)
  {
    x !in Sub(t, y) ==> F.rank[Head(t, y)] < F.rank[Head(t, x)]
  }

  lemma ClimbLinksStep(t: Nodes, x: int, anc: seq<int>, y: int)
    requires Shaped(t) && ClimbLinks(t, x, anc, y) && t.parent[y] != 0
    ensures ClimbLinks(t, x, anc + [y], t.parent[y])
  {
    var anc' := anc + [y];
    assert forall j :: 0 <= j < |anc'| - 1 ==> anc'[j + 1] == t.parent[anc'[j]];
  }

  lemma ClimbOrderedStep(t: Nodes, x: int, anc: seq<int>, y: int)
    requires Wf(t) && Node(t, y) && Node(t, t.parent[y]) && forall j :: 0 <= j < |anc| ==> Node(t, anc[j])
    requires ClimbOrdered(t, x, anc, y)
    requires x in Sub(t, t.parent[y]) ==> x in Sub(t, y) && Sz(t, y) < Sz(t, t.parent[y])
    ensures ClimbOrdered(t, x, anc + [y], t.parent[y])
  {
    var anc' := anc + [y];
    assert forall j, j' :: 0 <= j < j' < |anc'| && x in Sub(t, anc'[j']) ==> Sz(t, anc'[j]) < Sz(t, anc'[j']);
  }

  /** Where one step of the climb leads: back into `x`'s splay tree only
      from inside it, and otherwise to a path higher in the forest. */
  lemma ClimbHeads(t: Nodes, F: Forest, x: int, y: int)
    requires Wf(t) && Represents(t, F) && Node(t, x) && Node(t, y) && t.parent[y] != 0
    requires x !in Sub(t, y) ==> F.rank[Head(t, y)] < F.rank[Head(t, x)]
    ensures Node(t, t.parent[y]) && Sz(t, t.parent[y]) <= |t.parent| - 1
    ensures x in Sub(t, t.parent[y]) ==> x in Sub(t, y) && Sz(t, y) < Sz(t, t.parent[y])
    ensures x !in Sub(t, t.parent[y]) ==> F.rank[Head(t, t.parent[y])] < F.rank[Head(t, x)]
    ensures || F.rank[Head(t, t.parent[y])] < F.rank[Head(t, y)]
            || (Head(t, t.parent[y]) == Head(t, y) && Sz(t, y) < Sz(t, t.parent[y]))
  {
    var q := t.parent[y];
    WalkStep(t, F, y);
    SizeBound(t, q);
    SameRoot(t, x, x);
    if x in Sub(t, y) {
      SameRoot(t, y, x);
    }
    if x in Sub(t, q) {
      SameRoot(t, q, x);
      if x !in Sub(t, y) {
        assert false;
      }
    }
  }

  /** Every node above `x` in its splay tree is listed or lies above the
      next node of the climb. */
  lemma ClimbCoversStep(t: Nodes, x: int, anc: seq<int>, y: int)
    requires Wf(t) && Node(t, y) && t.parent[y] != 0 && ClimbCovers(t, x, anc, y)
    ensures ClimbCovers(t, x, anc + [y], t.parent[y])
  {
    forall z | Node(t, z) && x in Sub(t, z)
      ensures z in anc + [y] || t.parent[y] in Sub(t, z)
    {
      if z !in anc + [y] {
        UpClosed(t, z, y);
      }
    }
  }

  /** When the climb reaches a node without a parent, it has listed every
      node above `x` in its splay tree. */
  lemma ClimbDone(t: Nodes, x: int, anc: seq<int>, y: int)
    requires Wf(t) && Node(t, y) && t.parent[y] == 0 && ClimbCovers(t, x, anc, y)
    ensures forall z :: Node(t, z) && x in Sub(t, z) ==> z in anc + [y]
  {
    forall z | Node(t, z) && x in Sub(t, z)
      ensures z in anc + [y]
    {
      if z !in anc + [y] {
        UpClosed(t, z, y);
      }
    }
  }

  lemma ClimbOrderedLast(t: Nodes, x: int, anc: seq<int>, y: int)
    requires Wf(t) && Node(t, y) && forall j :: 0 <= j < |anc| ==> Node(t, anc[j])
    requires ClimbOrdered(t, x, anc, y)
    ensures forall j, j' :: 0 <= j < j' < |anc + [y]| && x in Sub(t, (anc + [y])[j']) ==>
      Sz(t, (anc + [y])[j]) < Sz(t, (anc + [y])[j'])
  {
    var anc' := anc + [y];
    forall j, j' | 0 <= j < j' < |anc'| && x in Sub(t, anc'[j'])
      ensures Sz(t, anc'[j]) < Sz(t, anc'[j'])
    {
      assert Node(t, anc'[j]) && Node(t, anc'[j']);
    }
  }

  lemma ClimbLinksLast(t: Nodes, x: int, anc: seq<int>, y: int)
    requires Shaped(t) && ClimbLinks(t, x, anc, y)
    ensures var anc' := anc + [y];
      && (forall j :: 0 <= j < |anc'| ==> Node(t, anc'[j]))
      && anc'[0] == x && anc'[|anc'| - 1] == y
      && (forall j :: 0 <= j < |anc'| - 1 ==> anc'[j + 1] == t.parent[anc'[j]])
  {
    var anc' := anc + [y];
    assert forall j :: 0 <= j < |anc'| - 1 ==> anc'[j + 1] == t.parent[anc'[j]];
  }
}
