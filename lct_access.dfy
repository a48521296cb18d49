/**
 * The loop of `access(x)`.  Each round splays `cur`, makes the splay tree
 * built so far (rooted at `last`) its right subtree in place of the old one,
 * and climbs to the path-parent.  The old right subtree becomes a splay tree
 * of its own, hanging from `cur` by its path-parent pointer.
 */
module LctAccess {
  import opened LctNodes
  import opened LctForest
  import opened LctSteps
  import opened LctRepr

  /** `cur.right = last` followed by `pushUp(cur)`. */
  function Switch(t: Nodes, cur: int, last: int): (t': Nodes)
    requires Shaped(t) && Node(t, cur) && Ref(t, last)
    ensures Shaped(t') && |t'.parent| == |t.parent|
  {
    PushUpF(t.(right := t.right[cur := last]), cur)
  }

  /** When `access` may switch: `cur` is a splay root with no pending
      reversal, and `last` is 0 or a splay root hanging from `cur`. */
  ghost predicate CanSwitch(t: Nodes, F: Forest, cur: int, last: int)
  {
    Wf(t) && Summed(t) && Represents(t, F) && Node(t, cur) && IsRoot(t, cur) && !t.rev[cur]
    && Ref(t, last) && (last != 0 ==> IsRoot(t, last) && t.parent[last] == cur)
  }

  /** What the switch changes: the right child of `cur`, and its size and
      aggregate. */
  lemma SwitchFields(t: Nodes, cur: int, last: int)
    requires Shaped(t) && Node(t, cur) && Ref(t, last)
    ensures var t' := Switch(t, cur, last);
      && t'.parent == t.parent && t'.left == t.left && t'.right == t.right[cur := last]
      && t'.val == t.val && t'.rev == t.rev
      && t'.size == t.size[cur := 1 + Sz(t, t.left[cur]) + Sz(t, last)]
      && t'.sum == t.sum[cur := t.val[cur] + SumAt(t, t.left[cur]) + SumAt(t, last)]
  {
  }

  /** The switch keeps the structure well formed and the aggregates
      consistent. */
  lemma SwitchWf(t: Nodes, F: Forest, cur: int, last: int)
    requires CanSwitch(t, F, cur, last)
    ensures Wf(Switch(t, cur, last)) && Summed(Switch(t, cur, last))
  {
    var t' := Switch(t, cur, last);
    forall z | 1 <= z < |t.parent|
      ensures t'.left[z] != 0 ==> t'.parent[t'.left[z]] == z && t'.left[z] != t'.right[z]
      ensures t'.right[z] != 0 ==> t'.parent[t'.right[z]] == z
      ensures t'.size[z] == 1 + Sz(t', t'.left[z]) + Sz(t', t'.right[z])
      ensures t'.sum[z] == t'.val[z] + SumAt(t', t'.left[z]) + SumAt(t', t'.right[z])
    {
      SwitchAt(t, F, cur, last, z);
    }
  }

  /** One node's pointers, size and aggregate after the switch. */
  lemma SwitchAt(t: Nodes, F: Forest, cur: int, last: int, z: int)
    requires CanSwitch(t, F, cur, last) && Node(t, z)
    ensures var t' := Switch(t, cur, last);
      && (t'.left[z] != 0 ==> t'.parent[t'.left[z]] == z && t'.left[z] != t'.right[z])
      && (t'.right[z] != 0 ==> t'.parent[t'.right[z]] == z)
      && t'.size[z] == 1 + Sz(t', t'.left[z]) + Sz(t', t'.right[z])
      && t'.sum[z] == t'.val[z] + SumAt(t', t'.left[z]) + SumAt(t', t'.right[z])
  {
    if z != cur {
      SwitchOther(t, cur, last, z);
    } else {
      SwitchCur(t, F, cur, last);
    }
  }

  /** A node other than `cur` keeps its children, and they keep their
      sizes and aggregates. */
  lemma SwitchOther(t: Nodes, cur: int, last: int, z: int)
    requires Wf(t) && Summed(t) && Node(t, cur) && IsRoot(t, cur) && Ref(t, last)
    requires Node(t, z) && z != cur
    ensures var t' := Switch(t, cur, last);
      && (t'.left[z] != 0 ==> t'.parent[t'.left[z]] == z && t'.left[z] != t'.right[z])
      && (t'.right[z] != 0 ==> t'.parent[t'.right[z]] == z)
      && t'.size[z] == 1 + Sz(t', t'.left[z]) + Sz(t', t'.right[z])
      && t'.sum[z] == t'.val[z] + SumAt(t', t'.left[z]) + SumAt(t', t'.right[z])
  {
    var t' := Switch(t, cur, last);
    SwitchFields(t, cur, last);
    if t.left[z] == cur || t.right[z] == cur {
      assert t.parent[cur] == z;
    }
    assert Sz(t', t'.left[z]) == Sz(t, t.left[z]) && Sz(t', t'.right[z]) == Sz(t, t.right[z]);
    assert SumAt(t', t'.left[z]) == SumAt(t, t.left[z]) && SumAt(t', t'.right[z]) == SumAt(t, t.right[z]);
  }

  /** `cur` gets `last` as its right child, with the size and aggregate
      that go with it. */
  lemma SwitchCur(t: Nodes, F: Forest, cur: int, last: int)
    requires CanSwitch(t, F, cur, last)
    ensures var t' := Switch(t, cur, last);
      && (t'.left[cur] != 0 ==> t'.parent[t'.left[cur]] == cur && t'.left[cur] != t'.right[cur])
      && (t'.right[cur] != 0 ==> t'.parent[t'.right[cur]] == cur)
      && t'.size[cur] == 1 + Sz(t', t'.left[cur]) + Sz(t', t'.right[cur])
      && t'.sum[cur] == t'.val[cur] + SumAt(t', t'.left[cur]) + SumAt(t', t'.right[cur])
  {
    SwitchFields(t, cur, last);
    if last != 0 {
      RootParentOutside(t, F, last);
    }
    assert t.left[cur] != last || last == 0;
  }

  /** The switch changes no sequence read from a subtree without `cur`. */
  lemma SwitchFrame(t: Nodes, F: Forest, cur: int, last: int, y: int)
    requires CanSwitch(t, F, cur, last) && Ref(t, y) && cur !in Sub(t, y)
    ensures Wf(Switch(t, cur, last)) && Seq(Switch(t, cur, last), y, false) == Seq(t, y, false)
  {
    SwitchWf(t, F, cur, last);
    SwitchFields(t, cur, last);
    SeqFrame(t, Switch(t, cur, last), y, false);
  }

  /** After the switch `cur` is still a splay root, and its sequence is its
      old left part, then `cur`, then `last`'s sequence. */
  lemma SwitchSeq(t: Nodes, F: Forest, cur: int, last: int)
    requires CanSwitch(t, F, cur, last)
    ensures Wf(Switch(t, cur, last)) && IsRoot(Switch(t, cur, last), cur)
    ensures Seq(Switch(t, cur, last), cur, false) == Seq(t, t.left[cur], false) + [cur] + Seq(t, last, false)
  {
    var t' := Switch(t, cur, last);
    SwitchWf(t, F, cur, last);
    SwitchFields(t, cur, last);
    NotBelowSelf(t, cur);
    SwitchFrame(t, F, cur, last, t.left[cur]);
    if last != 0 {
      RootParentOutside(t, F, last);
    }
    SwitchFrame(t, F, cur, last, last);
    assert Seq(t', cur, false) == Seq(t', t.left[cur], false) + [cur] + Seq(t', last, false);
  }

  /** Which nodes are splay roots after the switch: those that were, except
      `last`, and the old right child of `cur`. */
  lemma SwitchRoots(t: Nodes, F: Forest, cur: int, last: int, r: int)
    requires CanSwitch(t, F, cur, last) && Node(t, r)
    ensures IsRoot(Switch(t, cur, last), r) <==>
      (IsRoot(t, r) && r != last) || r == t.right[cur]
  {
  }

  /** Every splay root after the switch other than `cur` reads as before. */
  lemma SwitchKeeps(t: Nodes, F: Forest, cur: int, last: int, r: int)
    requires CanSwitch(t, F, cur, last) && Node(t, r) && r != cur
    requires IsRoot(t, r) || r == t.right[cur]
    ensures Wf(Switch(t, cur, last)) && Seq(Switch(t, cur, last), r, false) == Seq(t, r, false)
  {
    if IsRoot(t, r) {
      RootsDisjoint(t, cur, r);
    } else {
      NotBelowSelf(t, cur);
    }
    SwitchFrame(t, F, cur, last, r);
  }

  /** The switch keeps the correspondence with the forest. */
  lemma SwitchRepresents(t: Nodes, F: Forest, cur: int, last: int)
    requires CanSwitch(t, F, cur, last)
    ensures Wf(Switch(t, cur, last)) && Represents(Switch(t, cur, last), F)
  {
    var t' := Switch(t, cur, last);
    SwitchWf(t, F, cur, last);
    var L, R := Seq(t, t.left[cur], false), Seq(t, t.right[cur], false);
    assert Seq(t, cur, false) == L + [cur] + R;
    assert Chain(F.up, L + [cur] + R, t.parent[cur]);
    ChainSplit(F.up, L + [cur], R, t.parent[cur]);
    forall r | Node(t', r) && IsRoot(t', r)
      ensures Chain(F.up, Seq(t', r, false), t'.parent[r])
    {
      SwitchRoots(t, F, cur, last, r);
      if r == cur {
        SwitchSeq(t, F, cur, last);
        if last != 0 {
          assert Chain(F.up, Seq(t, last, false), cur);
          ChainConcat(F.up, L + [cur], Seq(t, last, false), t.parent[cur]);
        } else {
          assert Seq(t, last, false) == [];
          assert L + [cur] + [] == L + [cur];
        }
      } else {
        SwitchKeeps(t, F, cur, last, r);
        if r == t.right[cur] {
          SeqBasics(t, r, false);
        }
      }
    }
  }

  /** Every splay root of `t0` outside `x`'s tree of the forest is still a
      splay root in `t`, with the same parent pointer and sequence. */
  ghost predicate KeepsOutside(t0: Nodes, t: Nodes, F: Forest, x: int)
    requires Wf(t0) && Wf(t) && |t.parent| == |t0.parent| && Ok(F) && |F.up| == |t0.parent|
    requires IsNode(F, x)
  {
    forall r :: Node(t0, r) && IsRoot(t0, r) && Root(F, r) != Root(F, x) ==>
      IsRoot(t, r) && t.parent[r] == t0.parent[r] && Seq(t, r, false) == Seq(t0, r, false)
  }

  /** The invariant of the loop of `access(x)` started from `t0`: the
      splay tree built so far is rooted at `last`, hangs from `cur` and ends
      with `x` (before the first round `cur` is `x`); `cur` is in `x`'s tree
      of the forest; and nothing outside that tree has changed. */
  ghost predicate AccessInv(t0: Nodes, t: Nodes, F: Forest, x: int, cur: int, last: int)
    requires Wf(t0) && Represents(t0, F) && Node(t0, x)
  {
    Wf(t) && Summed(t) && Represents(t, F) && |t.parent| == |t0.parent| && t.val == t0.val
    && Ref(t, cur) && Ref(t, last)
    && (last == 0 ==> cur == x)
    && (last != 0 ==>
          && IsRoot(t, last) && t.parent[last] == cur
          && x in Seq(t, last, false) && Seq(t, last, false)[|Seq(t, last, false)| - 1] == x)
    && (cur != 0 ==> Root(F, cur) == Root(F, x))
    && KeepsOutside(t0, t, F, x)
  }

  /** The first round of the loop starts in the invariant. */
  lemma AccessStart(t0: Nodes, F: Forest, x: int)
    requires Wf(t0) && Summed(t0) && Represents(t0, F) && Node(t0, x)
    ensures AccessInv(t0, t0, F, x, x, 0)
  {
  }

  /** A splay tree of `t` that `splay(cur)` turned into `t1`, and the round
      that follows, keep the invariant and climb higher in the forest. */
  lemma AccessStep(t0: Nodes, t: Nodes, t1: Nodes, F: Forest, x: int, cur: int, last: int)
    requires Wf(t0) && Represents(t0, F) && Node(t0, x)
    requires AccessInv(t0, t, F, x, cur, last) && cur != 0
    requires Wf(t1) && Summed(t1) && Represents(t1, F) && |t1.parent| == |t.parent| && t1.val == t.val
    requires IsRoot(t1, cur) && !t1.rev[cur]
    requires Seq(t1, cur, false) == Seq(t, RootOf(t, cur), false)
    requires t1.parent[cur] == t.parent[RootOf(t, cur)]
    requires KeepsRoots(t, t1, RootOf(t, cur))
    ensures AccessInv(t0, Switch(t1, cur, last), F, x, t1.parent[cur], cur)
    ensures t1.parent[cur] != 0 ==> F.rank[t1.parent[cur]] < F.rank[cur]
  {
    AccessCanSwitch(t0, t, t1, F, x, cur, last);
    var t2 := Switch(t1, cur, last);
    SwitchWf(t1, F, cur, last);
    SwitchSeq(t1, F, cur, last);
    SwitchRepresents(t1, F, cur, last);
    SwitchFields(t1, cur, last);
    AccessClimb(t1, F, x, cur, last);
    AccessOutside(t0, t, t1, F, x, cur, last);
    AccessInvIntro(t0, t2, F, x, t1.parent[cur], cur);
  }

  /** The invariant, from its parts, once a round has made `last` the new
      splay tree hanging from `cur`. */
  lemma AccessInvIntro(t0: Nodes, t: Nodes, F: Forest, x: int, cur: int, last: int)
    requires Wf(t0) && Represents(t0, F) && Node(t0, x)
    requires Wf(t) && Summed(t) && Represents(t, F) && |t.parent| == |t0.parent| && t.val == t0.val
    requires Ref(t, cur) && Node(t, last) && IsRoot(t, last) && t.parent[last] == cur
    requires var s := Seq(t, last, false); x in s && s[|s| - 1] == x
    requires cur != 0 ==> Root(F, cur) == Root(F, x)
    requires KeepsOutside(t0, t, F, x)
    ensures AccessInv(t0, t, F, x, cur, last)
  {
  }

  /** After `splay(cur)` the switch may go ahead: the tree built so far
      still hangs from `cur`, unchanged. */
  lemma AccessCanSwitch(t0: Nodes, t: Nodes, t1: Nodes, F: Forest, x: int, cur: int, last: int)
    requires Wf(t0) && Represents(t0, F) && Node(t0, x)
    requires AccessInv(t0, t, F, x, cur, last) && cur != 0
    requires Wf(t1) && Summed(t1) && Represents(t1, F) && |t1.parent| == |t.parent|
    requires IsRoot(t1, cur) && !t1.rev[cur]
    requires KeepsRoots(t, t1, RootOf(t, cur))
    ensures CanSwitch(t1, F, cur, last)
    ensures last != 0 ==> Seq(t1, last, false) == Seq(t, last, false)
  {
    if last != 0 {
      RootParentOutside(t, F, last);
      assert last != RootOf(t, cur);
    }
  }

  /** After a round, the splay tree rooted at the old `cur` ends with `x`,
      and the node it hangs from lies higher in `x`'s tree of the forest. */
  lemma AccessClimb(t: Nodes, F: Forest, x: int, cur: int, last: int)
    requires CanSwitch(t, F, cur, last) && Node(t, x)
    requires last == 0 ==> cur == x
    requires last != 0 ==> x in Seq(t, last, false) && Seq(t, last, false)[|Seq(t, last, false)| - 1] == x
    ensures Wf(Switch(t, cur, last))
    ensures var s := Seq(Switch(t, cur, last), cur, false);
      x in s && s[|s| - 1] == x
    ensures t.parent[cur] != 0 ==> Root(F, t.parent[cur]) == Root(F, x) && F.rank[t.parent[cur]] < F.rank[cur]
  {
    var t2 := Switch(t, cur, last);
    SwitchSeq(t, F, cur, last);
    SwitchRepresents(t, F, cur, last);
    SwitchFields(t, cur, last);
    var L := Seq(t, t.left[cur], false);
    var s := Seq(t2, cur, false);
    var q := t.parent[cur];
    if last == 0 {
      assert s == L + [cur] + [];
    }
    assert s[|s| - 1] == x;
    assert Chain(F.up, s, q);
    ChainRoot(F, s, q, |s| - 1);
    if q != 0 {
      RootStep(F, s[0]);
      assert cur in s;
      ChainHead(F, s, q, cur);
    }
  }

  /** A round changes no splay tree outside `x`'s tree of the forest. */
  lemma AccessOutside(t0: Nodes, t: Nodes, t1: Nodes, F: Forest, x: int, cur: int, last: int)
    requires Wf(t0) && Represents(t0, F) && Node(t0, x)
    requires AccessInv(t0, t, F, x, cur, last) && cur != 0
    requires Wf(t1) && |t1.parent| == |t.parent| && KeepsRoots(t, t1, RootOf(t, cur))
    requires CanSwitch(t1, F, cur, last)
    ensures Wf(Switch(t1, cur, last)) && KeepsOutside(t0, Switch(t1, cur, last), F, x)
  {
    var t2 := Switch(t1, cur, last);
    SwitchWf(t1, F, cur, last);
    SwitchFields(t1, cur, last);
    SameComponent(t, F, cur);
    if last != 0 {
      SeqBasics(t, last, false);
      RootOfUnique(t, x, last);
      SameComponent(t, F, x);
    }
    forall r | Node(t0, r) && IsRoot(t0, r) && Root(F, r) != Root(F, x)
      ensures IsRoot(t2, r) && t2.parent[r] == t0.parent[r] && Seq(t2, r, false) == Seq(t0, r, false)
    {
      SwitchRoots(t1, F, cur, last, r);
      SwitchKeeps(t1, F, cur, last, r);
    }
  }

  /** When the climb ends, the splay tree built holds exactly the path from
      the root of `x`'s tree of the forest down to `x`. */
  lemma AccessDone(t0: Nodes, t: Nodes, F: Forest, x: int, last: int)
    requires Wf(t0) && Represents(t0, F) && Node(t0, x)
    requires AccessInv(t0, t, F, x, 0, last)
    ensures last != 0 && RootOf(t, x) == last && t.parent[last] == 0
    ensures Seq(t, last, false) == Path(F, x) && last in Path(F, x)
  {
    var s := Seq(t, last, false);
    assert Chain(F.up, s, 0);
    ChainIsPath(F, s);
    SeqBasics(t, last, false);
    RootOfUnique(t, x, last);
  }

  /** A splay root without a pending reversal that ends its own sequence has
      no right child. */
  lemma LastHasNoRight(t: Nodes, x: int)
    requires Wf(t) && Node(t, x) && !t.rev[x]
    requires Seq(t, x, false)[|Seq(t, x, false)| - 1] == x
    ensures t.right[x] == 0
  {
    var r := t.right[x];
    var R := Seq(t, r, false);
    assert Seq(t, x, false) == Seq(t, t.left[x], false) + [x] + R;
    if r != 0 {
      SeqBasics(t, r, false);
      assert R[|R| - 1] == x;
      NotBelowSelf(t, x);
    }
  }

  /** `access(x)` ends with `splay(x)`: `x` then roots a splay tree holding
      exactly the path from its forest root down to `x`, ending with `x`. */
  lemma AccessEnd(t0: Nodes, t: Nodes, t': Nodes, F: Forest, x: int, last: int)
    requires Wf(t0) && Represents(t0, F) && Node(t0, x)
    requires AccessInv(t0, t, F, x, 0, last)
    requires Wf(t') && |t'.parent| == |t.parent| && IsRoot(t', x) && !t'.rev[x]
    requires Seq(t', x, false) == Seq(t, RootOf(t, x), false)
    requires t'.parent[x] == t.parent[RootOf(t, x)]
    ensures Seq(t', x, false) == Path(F, x) && t'.parent[x] == 0 && t'.right[x] == 0
  {
    AccessDone(t0, t, F, x, last);
    LastHasNoRight(t', x);
  }

  /** Nor does that final `splay(x)` touch the other trees of the forest. */
  lemma AccessEndOutside(t0: Nodes, t: Nodes, t': Nodes, F: Forest, x: int, last: int)
    requires Wf(t0) && Represents(t0, F) && Node(t0, x)
    requires AccessInv(t0, t, F, x, 0, last)
    requires Wf(t') && |t'.parent| == |t.parent|
    requires KeepsRoots(t, t', RootOf(t, x))
    ensures KeepsOutside(t0, t', F, x)
  {
    SameComponent(t, F, x);
    forall r | Node(t0, r) && IsRoot(t0, r) && Root(F, r) != Root(F, x)
      ensures IsRoot(t', r) && t'.parent[r] == t0.parent[r] && Seq(t', r, false) == Seq(t0, r, false)
    {
      assert IsRoot(t, r) && r != RootOf(t, x);
    }
  }
}
