/**
 * The link-cut tree itself: a store of nodes 1..n whose fields the
 * operations update in place, one sequence per field (`parent`, `left`,
 * `right`, `val`, `sum`, `rev`), with the number 0 standing for `None`.
 * Two ghost fields carry what the proofs need: the subtree sizes, and the
 * forest the structure stands for.
 */
module LinkCut {
  import opened LctNodes
  import opened LctForest
  import opened LctSteps
  import opened LctRepr
  import opened LctSplay
  import opened LctAccess
  import opened LctOps

  class LinkCutTree {
    var parent: seq<int>
    var left: seq<int>
    var right: seq<int>
    var val: seq<int>
    var sum: seq<int>
    var rev: seq<bool>
    ghost var size: seq<nat>
    ghost var forest: Forest

    /** `buildNodes(values)`: nodes 1..n carry the given values, each one a
        tree of the forest on its own. */
    constructor (values: seq<int>)
      ensures Valid() && forest == Roots(|values|)
      ensures |parent| == |values| + 1 && val == [0] + values
    {
      var n := |values| + 1;
      parent := seq(n, _ => 0);
      left := seq(n, _ => 0);
      right := seq(n, _ => 0);
      val := [0] + values;
      sum := [0] + values;
      rev := seq(n, _ => false);
      size := seq(n, _ => 1);
      forest := Roots(|values|);
      SingletonsValid(values);
    }

    /** The current fields as one value. */
    ghost function Snap(): Nodes
      reads this
    {
      Nodes(parent, left, right, val, sum, rev, size)
    }

    /** The splay trees are well formed, their aggregates are up to date, and
        they stand for `forest`. */
    ghost predicate Valid()
      reads this
    {
      Wf(Snap()) && Summed(Snap()) && Represents(Snap(), forest)
    }

    /** `isRoot(x)` on the fields themselves: the compiled twin of the ghost
        `IsRoot` on a snapshot, which the loop of `splay` tests. */
    predicate IsRootNode(x: int)
      reads this
      requires Shaped(Snap()) && Node(Snap(), x)
      ensures IsRootNode(x) <==> IsRoot(Snap(), x)
    {
      parent[x] == 0 || (left[parent[x]] != x && right[parent[x]] != x)
    }

    /** `pushUp(x)`: recompute the aggregate of `x` from its children. */
    method PushUp(x: int)
      requires Shaped(Snap()) && Node(Snap(), x)
      modifies this
      ensures Snap() == PushUpF(old(Snap()), x) && forest == old(forest)
    {
      var s := val[x];
      if left[x] != 0 {
        s := s + sum[left[x]];
      }
      if right[x] != 0 {
        s := s + sum[right[x]];
      }
      size := size[x := 1 + Sz(Snap(), left[x]) + Sz(Snap(), right[x])];
      sum := sum[x := s];
    }

    /** `pushDown(x)`: hand a pending reversal of `x` on to its children. */
    method PushDown(x: int)
      requires Wf(Snap()) && Node(Snap(), x)
      modifies this
      ensures Snap() == PushDownF(old(Snap()), x) && forest == old(forest)
    {
      if rev[x] {
        var l, r := left[x], right[x];
        left, right := left[x := r], right[x := l];
        if left[x] != 0 {
          rev := rev[left[x] := !rev[left[x]]];
        }
        if right[x] != 0 {
          rev := rev[right[x] := !rev[right[x]]];
        }
        rev := rev[x := false];
      }
    }

    /** `rotate(x)`: lift `x` above its parent `p`, then recompute `p` and
        `x`, in that order. */
    method Rotate(x: int)
      requires Wf(Snap()) && Node(Snap(), x) && !IsRoot(Snap(), x)
      requires parent[parent[x]] !in Sub(Snap(), parent[x])
      modifies this
      ensures Snap() == RotateF(old(Snap()), x) && forest == old(forest)
    {
      ghost var t := Snap();
      RotateDistinct(t, x);
      RotateThenPushUp(t, x);
      var p := parent[x];
      Relink(x);
      PushUp(p);
      PushUp(x);
    }

    /** The pointer assignments of `rotate(x)`. */
    method Relink(x: int)
      requires Shaped(Snap()) && Node(Snap(), x) && !IsRoot(Snap(), x)
      requires var p := parent[x];
        && p != x && parent[p] != p && parent[p] != x && right[x] != p && left[x] != p
        && (left[p] == x ==> right[x] != x && (right[x] != parent[p] || right[x] == 0))
        && (left[p] != x ==> left[x] != x && (left[x] != parent[p] || left[x] == 0))
      modifies this
      ensures Snap() == RotatePointers(old(Snap()), x) && forest == old(forest)
    {
      var p := parent[x];
      var g := parent[p];
      if !IsRootNode(p) {
        if left[g] == p {
          left := left[g := x];
        } else {
          right := right[g := x];
        }
      }
      parent := parent[x := g];
      if left[p] == x {
        left := left[p := right[x]];
        if right[x] != 0 {
          parent := parent[right[x] := p];
        }
        right := right[x := p];
        parent := parent[p := x];
      } else {
        right := right[p := left[x]];
        if left[x] != 0 {
          parent := parent[left[x] := p];
        }
        left := left[x := p];
        parent := parent[p := x];
      }
    }

    /** The climb at the start of `splay(x)`: `x`, its parent, its parent's
        parent and so on, through path-parent pointers too, up to a node
        without a parent.  It lists every node above `x` in its splay tree,
        in order of growing subtrees. */
    method Ancestors(x: int) returns (anc: seq<int>)
      requires Valid() && Node(Snap(), x)
      ensures forall j :: 0 <= j < |anc| ==> Node(Snap(), anc[j])
      ensures |anc| >= 1 && anc[0] == x && parent[anc[|anc| - 1]] == 0
      ensures forall j :: 0 <= j < |anc| - 1 ==> anc[j + 1] == parent[anc[j]]
      ensures forall z :: Node(Snap(), z) && x in Sub(Snap(), z) ==> z in anc
      ensures forall j, j' :: 0 <= j < j' < |anc| && x in Sub(Snap(), anc[j']) ==>
        Sz(Snap(), anc[j]) < Sz(Snap(), anc[j'])
    {
      ghost var t := Snap();
      ghost var F := forest;
      anc := [];
      var y := x;
      while true
        invariant ClimbLinks(t, x, anc, y) && ClimbCovers(t, x, anc, y)
        invariant ClimbOrdered(t, x, anc, y) && ClimbRank(t, F, x, y)
        decreases F.rank[Head(t, y)], |parent| - Sz(t, y)
      {
        if parent[y] == 0 {
          ClimbDone(t, x, anc, y);
          ClimbOrderedLast(t, x, anc, y);
          ClimbLinksLast(t, x, anc, y);
          anc := anc + [y];
          break;
        }
        ClimbHeads(t, F, x, y);
        ClimbLinksStep(t, x, anc, y);
        ClimbCoversStep(t, x, anc, y);
        ClimbOrderedStep(t, x, anc, y);
        anc := anc + [y];
        y := parent[y];
      }
    }

    /** The second loop of `splay(x)`: `pushDown` on the climbed nodes, from
        the top down. */
    method PushDownPath(anc: seq<int>)
      requires Wf(Snap()) && forall j :: 0 <= j < |anc| ==> Node(Snap(), anc[j])
      modifies this
      ensures Snap() == PushDownAllF(old(Snap()), anc) && forest == old(forest)
    {
      ghost var t := Snap();
      var i := |anc|;
      while i > 0
        invariant 0 <= i <= |anc|
        invariant Snap() == PushDownAllF(t, anc[i..]) && forest == old(forest)
      {
        i := i - 1;
        assert anc[i..][1..] == anc[i + 1..];
        PushDown(anc[i]);
      }
    }

    /** `splay(x)`: bring `x` to the top of its splay tree.  Afterwards `x`
        is a splay root without a pending reversal, its splay tree reads as
        the one that held it, hangs from the same node, and every other
        splay tree is untouched. */
    method Splay(x: int)
      requires Valid() && Node(Snap(), x)
      modifies this
      ensures Valid() && forest == old(forest) && |parent| == |old(parent)|
      ensures IsRoot(Snap(), x) && !rev[x] && val == old(val)
      ensures Seq(Snap(), x, false) == Seq(old(Snap()), RootOf(old(Snap()), x), false)
      ensures parent[x] == old(parent)[RootOf(old(Snap()), x)]
      ensures KeepsRoots(old(Snap()), Snap(), RootOf(old(Snap()), x))
    {
      ghost var t0 := Snap();
      var anc := Ancestors(x);
      PushDownPath(anc);
      SplayStart(t0, forest, anc, x);
      while !IsRootNode(x)
        invariant SplayInv(t0, Snap(), forest, x) && forest == old(forest)
        decreases |parent| - Sz(Snap(), x)
      {
        ghost var t := Snap();
        var p := parent[x];
        var g := parent[p];
        if !IsRootNode(p) {
          if (left[g] == p) == (left[p] == x) {
            SplayRotate(t0, t, forest, x, p);
            Rotate(p);
          } else {
            SplayRotate(t0, t, forest, x, x);
            Rotate(x);
          }
        }
        SplayRotate(t0, Snap(), forest, x, x);
        Rotate(x);
      }
      PushUpNoop(Snap(), x);
      PushUp(x);
    }

    /** `access(x)`: make the path from the root of `x`'s tree of the forest
        down to `x` one splay tree, rooted at `x` and ending with it, and
        leave every other tree of the forest as it was.  The result is the
        last splay root met on the way up, a node of that path. */
    method Access(x: int) returns (last: int)
      requires Valid() && Node(Snap(), x)
      modifies this
      ensures Valid() && forest == old(forest) && |parent| == |old(parent)| && val == old(val)
      ensures IsRoot(Snap(), x) && !rev[x] && parent[x] == 0 && right[x] == 0
      ensures Seq(Snap(), x, false) == Path(forest, x) && last in Path(forest, x)
      ensures KeepsOutside(old(Snap()), Snap(), forest, x)
    {
      ghost var t0 := Snap();
      last := Expose(x);
      ghost var t := Snap();
      AccessDone(t0, t, forest, x, last);
      Splay(x);
      AccessEnd(t0, t, Snap(), forest, x, last);
      AccessEndOutside(t0, t, Snap(), forest, x, last);
    }

    /** The loop of `access(x)`: splay the splay tree holding `cur` and
        replace its right part by the splay tree built so far, climbing
        until no node is left above. */
    method Expose(x: int) returns (last: int)
      requires Valid() && Node(Snap(), x)
      modifies this
      ensures forest == old(forest) && AccessInv(old(Snap()), Snap(), forest, x, 0, last)
    {
      ghost var t0 := Snap();
      AccessStart(t0, forest, x);
      last := 0;
      var cur := x;
      while cur != 0
        invariant forest == old(forest) && AccessInv(t0, Snap(), forest, x, cur, last)
        decreases if cur == 0 then 0 else forest.rank[cur] + 1
      {
        ghost var t := Snap();
        Splay(cur);
        ghost var t1 := Snap();
        SetRight(cur, last);
        AccessStep(t0, t, t1, forest, x, cur, last);
        last := cur;
        cur := parent[cur];
      }
    }

    /** `cur.right = last` and `pushUp(cur)`, one round of `access`. */
    method SetRight(cur: int, last: int)
      requires Shaped(Snap()) && Node(Snap(), cur) && Ref(Snap(), last)
      modifies this
      ensures Snap() == Switch(old(Snap()), cur, last) && forest == old(forest)
    {
      right := right[cur := last];
      PushUp(cur);
    }

    /** `makeRoot(x)`: make `x` the root of its tree of the forest.  `x` is
        left a splay root without a parent whose splay tree runs from `x`
        down to the old root. */
    method MakeRoot(x: int)
      requires Valid() && Node(Snap(), x)
      modifies this
      ensures Valid() && forest == Reroot(old(forest), x)
      ensures |parent| == |old(parent)| && val == old(val)
      ensures IsRoot(Snap(), x) && parent[x] == 0 && !rev[x]
      ensures Seq(Snap(), x, false) == Reverse(Path(old(forest), x))
    {
      var last := Access(x);
      Evert(x);
    }

    /** The rest of `makeRoot(x)` once `access(x)` has run: flip `x`, then
        push the flip down. */
    method Evert(x: int)
      requires Valid() && Node(Snap(), x)
      requires IsRoot(Snap(), x) && parent[x] == 0 && !rev[x] && Seq(Snap(), x, false) == Path(forest, x)
      modifies this
      ensures Valid() && forest == Reroot(old(forest), x)
      ensures |parent| == |old(parent)| && val == old(val)
      ensures IsRoot(Snap(), x) && parent[x] == 0 && !rev[x]
      ensures Seq(Snap(), x, false) == Reverse(Path(old(forest), x))
    {
      ghost var t := Snap();
      ghost var F := forest;
      forest := Reroot(F, x);
      Toggle(x);
      FlipSeq(t, x, x);
      PushDown(x);
      MakeRootDone(t, Snap(), F, x);
    }

    /** `x.rev ^= True`: set, or clear, the pending reversal of `x`. */
    method Toggle(x: int)
      requires Shaped(Snap()) && Node(Snap(), x)
      modifies this
      ensures Snap() == Flip(old(Snap()), x) && forest == old(forest)
    {
      rev := rev[x := !rev[x]];
    }

    /** `findRoot(x)`: the root of `x`'s tree of the forest, the first node
        of the path `access(x)` exposes.  No other tree is touched. */
    method FindRoot(x: int) returns (r: int)
      requires Valid() && Node(Snap(), x)
      modifies this
      ensures Valid() && forest == old(forest) && |parent| == |old(parent)| && val == old(val)
      ensures r == Root(forest, x)
      ensures KeepsOutside(old(Snap()), Snap(), forest, x)
    {
      ghost var t0 := Snap();
      var last := Access(x);
      ghost var ta := Snap();
      FindStart(ta, forest, x);
      var cur := x;
      while true
        invariant forest == old(forest) && FindInv(ta, Snap(), forest, x, cur)
        decreases Sz(Snap(), cur)
      {
        ghost var t := Snap();
        FindStep(ta, t, forest, x, cur);
        PushDown(cur);
        if left[cur] != 0 {
          cur := left[cur];
        } else {
          break;
        }
      }
      ghost var t := Snap();
      RootOfUnique(t, cur, x);
      Splay(cur);
      FindRootOutside(t0, ta, t, Snap(), forest, x);
      r := cur;
    }

    /** `connected(u, v)`: whether `u` and `v` are in one tree. */
    method Connected(u: int, v: int) returns (c: bool)
      requires Valid() && Node(Snap(), u) && Node(Snap(), v)
      modifies this
      ensures Valid() && forest == old(forest) && |parent| == |old(parent)| && val == old(val)
      ensures c == LctForest.Connected(forest, u, v)
    {
      if u == v {
        return true;
      }
      var ru := FindRoot(u);
      var rv := FindRoot(v);
      c := ru == rv;
    }

    /** `link(u, v)`: reroot `u`'s tree at `u` and, unless `v` is in it,
        hang it below `v`. */
    method Link(u: int, v: int)
      requires Valid() && Node(Snap(), u) && Node(Snap(), v)
      modifies this
      ensures Valid() && forest == LctForest.Link(old(forest), u, v)
      ensures |parent| == |old(parent)| && val == old(val)
    {
      ghost var F := forest;
      MakeRoot(u);
      ghost var t1 := Snap();
      var r := FindRoot(v);
      LinkAt(F, u, v, u);
      if r != u {
        LinkReady(t1, Snap(), F, u, v);
        ghost var t := Snap();
        Hang(u, v);
        LinkStep(t, F, u, v);
        forest := LctForest.Link(F, u, v);
      }
    }

    /** `u.parent = v`: hang the splay tree rooted at `u` from `v` by a
        path-parent pointer. */
    method Hang(u: int, v: int)
      requires Shaped(Snap()) && Node(Snap(), u)
      modifies this
      ensures Snap() == old(Snap()).(parent := old(parent)[u := v]) && forest == old(forest)
    {
      parent := parent[u := v];
    }

    /** `cut(u, v)`: reroot at `u`, expose the path to `v`, and detach `v`
        from the node before it when that node is `u` alone.  When `u`–`v`
        is an edge, exactly that edge goes. */
    method Cut(u: int, v: int)
      requires Valid() && Node(Snap(), u) && Node(Snap(), v)
      modifies this
      ensures Valid() && |parent| == |old(parent)| && val == old(val)
      ensures forest == Reroot(old(forest), u) || forest == LctForest.Cut(old(forest), u, v)
      ensures Edge(old(forest), u, v) ==> forest == LctForest.Cut(old(forest), u, v)
    {
      ghost var F := forest;
      MakeRoot(u);
      var last := Access(v);
      RerootOk(F, u);
      CutTestIf(Snap(), F, u, v);
      if left[v] == u && right[u] == 0 {
        ghost var t := Snap();
        ghost var F1 := forest;
        DropLeft(u, v);
        DetachRepresents(t, F1, u, v);
      }
    }

    /** `v.left.parent = None`, `v.left = None` and `pushUp(v)`, the end of
        `cut`; in the forest `v` no longer hangs from anything. */
    method DropLeft(u: int, v: int)
      requires Shaped(Snap()) && Node(Snap(), u) && Node(Snap(), v) && left[v] == u
      requires |forest.up| == |parent|
      modifies this
      ensures Snap() == Detach(old(Snap()), u, v)
      ensures forest == Forest(old(forest).up[v := 0], old(forest).rank)
    {
      forest := Forest(forest.up[v := 0], forest.rank);
      parent := parent[left[v] := 0];
      left := left[v := 0];
      PushUp(v);
    }

    /** `updateValue(x, nv)`: give `x` the value `nv`. */
    method UpdateValue(x: int, nv: int)
      requires Valid() && Node(Snap(), x)
      modifies this
      ensures Valid() && forest == old(forest) && |parent| == |old(parent)|
      ensures val == old(val)[x := nv]
    {
      Splay(x);
      ghost var t := Snap();
      val := val[x := nv];
      PushUp(x);
      UpdateStep(t, forest, x, nv);
    }

    /** `pathSum(u, v)`: reroot at `u`, expose the path to `v` and read the
        aggregate of `v`: the sum of the values on the path from `u` to `v`
        in the rerooted forest. */
    method PathSum(u: int, v: int) returns (s: int)
      requires Valid() && Node(Snap(), u) && Node(Snap(), v)
      modifies this
      ensures Valid() && forest == Reroot(old(forest), u) && |parent| == |old(parent)| && val == old(val)
      ensures s == SumVals(val, Path(forest, v))
    {
      MakeRoot(u);
      var last := Access(v);
      SumIsPathSum(Snap(), v, false);
      s := sum[v];
    }
  }
}
