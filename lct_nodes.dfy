/**
 * The node store of the link-cut tree and the meaning of its splay trees.
 *
 * Nodes are numbered 1..n; the number 0 stands for "no node" (the `None`
 * that heads the list built by `buildNodes`).  A `Nodes` value is a snapshot
 * of every node's fields, plus the subtree sizes, which the program does not
 * keep but which the proofs use as a measure.
 *
 * A splay tree stands for a sequence of nodes (a preferred path), read in
 * order, where a set `rev` flag reverses the sequence of the subtree below it.
 */
module LctNodes {

  datatype Nodes = Nodes(
    parent: seq<int>,
    left: seq<int>,
    right: seq<int>,
    val: seq<int>,
    sum: seq<int>,
    rev: seq<bool>,
    size: seq<nat>)

  /** `x` is a reference: a node or 0. */
  predicate Ref(t: Nodes, x: int)
  {
    0 <= x < |t.parent|
  }

  /** `x` is a node. */
  predicate Node(t: Nodes, x: int)
  {
    1 <= x < |t.parent|
  }

  /** All fields have one entry per reference, and every pointer is a reference. */
  predicate Shaped(t: Nodes)
  {
    |t.parent| >= 1
    && |t.left| == |t.parent| && |t.right| == |t.parent| && |t.val| == |t.parent|
    && |t.sum| == |t.parent| && |t.rev| == |t.parent| && |t.size| == |t.parent|
    && (forall x :: 0 <= x < |t.parent| ==> 0 <= t.parent[x] < |t.parent|)
    && (forall x :: 0 <= x < |t.parent| ==> 0 <= t.left[x] < |t.parent|)
    && (forall x :: 0 <= x < |t.parent| ==> 0 <= t.right[x] < |t.parent|)
  }

  /** The size of the subtree at a reference (0 for no node). */
  function Sz(t: Nodes, x: int): nat
    requires Shaped(t) && Ref(t, x)
  {
    if x == 0 then 0 else t.size[x]
  }

  /** Children point back to their parent, and the two children differ. */
  predicate Linked(t: Nodes)
    requires Shaped(t)
  {
    forall x :: 1 <= x < |t.parent| ==>
      (t.left[x] != 0 ==> t.parent[t.left[x]] == x && t.left[x] != t.right[x])
      && (t.right[x] != 0 ==> t.parent[t.right[x]] == x)
  }

  /** Each size counts the node and its two subtrees, so child pointers
      never form a cycle. */
  predicate Sized(t: Nodes)
    requires Shaped(t)
  {
    forall x {:trigger t.left[x]} :: 1 <= x < |t.parent| ==> t.size[x] == 1 + Sz(t, t.left[x]) + Sz(t, t.right[x])
  }

  predicate Wf(t: Nodes)
  {
    Shaped(t) && Linked(t) && Sized(t)
  }

  /** The in-order node sequence of the subtree at `x`, reversed when `f`
      (the flips pending above `x`) combined with `x`'s own flag is set. */
  function Seq(t: Nodes, x: int, f: bool): seq<int>
    requires Wf(t) && Ref(t, x)
    decreases Sz(t, x)
  {
    if x == 0 then []
    else
      var g := f != t.rev[x];
      if g then Seq(t, t.right[x], g) + [x] + Seq(t, t.left[x], g)
      else Seq(t, t.left[x], g) + [x] + Seq(t, t.right[x], g)
  }

  /** The set of nodes in the subtree at `x`. */
  function Sub(t: Nodes, x: int): set<int>
    requires Wf(t) && Ref(t, x)
    decreases Sz(t, x)
  {
    if x == 0 then {} else {x} + Sub(t, t.left[x]) + Sub(t, t.right[x])
  }

  /** `isRoot`: `x` has no parent, or its parent does not have it as a child;
      in the second case `parent` is a path-parent pointer. */
  predicate IsRoot(t: Nodes, x: int)
    requires Shaped(t) && Node(t, x)
  {
    t.parent[x] == 0 || (t.left[t.parent[x]] != x && t.right[t.parent[x]] != x)
  }

  function Reverse(s: seq<int>): (r: seq<int>)
    ensures |r| == |s|
    ensures forall i :: 0 <= i < |s| ==> r[i] == s[|s| - 1 - i]
  {
    if s == [] then [] else Reverse(s[1..]) + [s[0]]
  }

  lemma ReverseAppend(a: seq<int>, b: seq<int>)
    ensures Reverse(a + b) == Reverse(b) + Reverse(a)
  {
  }

  /** Flipping the pending flag reverses the sequence. */
  lemma {:induction false} SeqFlip(t: Nodes, x: int, f: bool)
    requires Wf(t) && Ref(t, x)
    ensures Seq(t, x, !f) == Reverse(Seq(t, x, f))
    decreases Sz(t, x)
  {
    if x != 0 {
      var l, r := t.left[x], t.right[x];
      var g := f != t.rev[x];
      SeqFlip(t, l, g);
      SeqFlip(t, r, g);
      var L, R := Seq(t, l, g), Seq(t, r, g);
      assert Reverse([x]) == [x];
      if g {
        assert Seq(t, x, f) == R + [x] + L;
        assert Seq(t, x, !f) == Reverse(L) + [x] + Reverse(R);
        ReverseAppend(R + [x], L);
        ReverseAppend(R, [x]);
      } else {
        assert Seq(t, x, f) == L + [x] + R;
        assert Seq(t, x, !f) == Reverse(R) + [x] + Reverse(L);
        ReverseAppend(L + [x], R);
        ReverseAppend(L, [x]);
      }
    }
  }

  /** The sequence lists exactly the subtree's nodes, once each per size unit. */
  lemma {:induction false} SeqBasics(t: Nodes, x: int, f: bool)
    requires Wf(t) && Ref(t, x)
    ensures |Seq(t, x, f)| == Sz(t, x)
    ensures forall z :: z in Seq(t, x, f) <==> z in Sub(t, x)
    decreases Sz(t, x)
  {
    if x != 0 {
      var g := f != t.rev[x];
      SeqBasics(t, t.left[x], g);
      SeqBasics(t, t.right[x], g);
    }
  }

  /** Subtrees hold nodes only, each no larger than the subtree's root. */
  lemma {:induction false} SubBounds(t: Nodes, x: int, z: int)
    requires Wf(t) && Ref(t, x) && z in Sub(t, x)
    ensures Node(t, z) && Sz(t, z) <= Sz(t, x)
    decreases Sz(t, x)
  {
    if z != x {
      if z in Sub(t, t.left[x]) {
        SubBounds(t, t.left[x], z);
      } else {
        SubBounds(t, t.right[x], z);
      }
    }
  }

  /** Inside a subtree, every node but its root hangs, as a child, from a
      parent in the same subtree. */
  lemma {:induction false} UpClosed(t: Nodes, y: int, z: int)
    requires Wf(t) && Ref(t, y) && z in Sub(t, y) && z != y
    ensures Node(t, z)
    ensures t.parent[z] != 0 && t.parent[z] in Sub(t, y)
    ensures t.left[t.parent[z]] == z || t.right[t.parent[z]] == z
    decreases Sz(t, y)
  {
    var l, r := t.left[y], t.right[y];
    if z in Sub(t, l) {
      if z != l {
        UpClosed(t, l, z);
      }
    } else {
      if z != r {
        UpClosed(t, r, z);
      }
    }
  }

  /** A child's subtree lies inside its parent's. */
  lemma ChildSub(t: Nodes, x: int)
    requires Wf(t) && Node(t, x)
    ensures Sub(t, t.left[x]) <= Sub(t, x) && Sub(t, t.right[x]) <= Sub(t, x)
  {
  }

  /** Subtree membership is transitive. */
  lemma {:induction false} SubTrans(t: Nodes, x: int, y: int, z: int)
    requires Wf(t) && Ref(t, x) && Ref(t, y) && y in Sub(t, x) && z in Sub(t, y)
    ensures z in Sub(t, x)
    decreases Sz(t, x)
  {
    SubBounds(t, x, y);
    if y != x {
      if y in Sub(t, t.left[x]) {
        SubTrans(t, t.left[x], y, z);
      } else {
        SubTrans(t, t.right[x], y, z);
      }
    }
  }

  /** Two subtrees that share a node are nested. */
  lemma {:induction false} Nested(t: Nodes, a: int, b: int, z: int)
    requires Wf(t) && Ref(t, a) && Ref(t, b) && Ref(t, z) && z in Sub(t, a) && z in Sub(t, b)
    ensures a in Sub(t, b) || b in Sub(t, a)
    decreases Sz(t, a) + Sz(t, b) - 2 * Sz(t, z)
  {
    SubBounds(t, a, z);
    SubBounds(t, b, z);
    if z != a && z != b {
      UpClosed(t, a, z);
      UpClosed(t, b, z);
      Nested(t, a, b, t.parent[z]);
    }
  }

  /** A node is in neither child's subtree. */
  lemma NotBelowSelf(t: Nodes, x: int)
    requires Wf(t) && Node(t, x)
    ensures x !in Sub(t, t.left[x]) && x !in Sub(t, t.right[x])
  {
    if x in Sub(t, t.left[x]) {
      SubBounds(t, t.left[x], x);
    }
    if x in Sub(t, t.right[x]) {
      SubBounds(t, t.right[x], x);
    }
  }

  /** The two children's subtrees are disjoint. */
  lemma ChildrenDisjoint(t: Nodes, x: int)
    requires Wf(t) && Node(t, x)
    ensures Sub(t, t.left[x]) !! Sub(t, t.right[x])
  {
    var l, r := t.left[x], t.right[x];
    forall z | z in Sub(t, l) && z in Sub(t, r)
      ensures false
    {
      SubBounds(t, l, z);
      Nested(t, l, r, z);
      if l in Sub(t, r) {
        UpClosed(t, r, l);
        SubBounds(t, r, x);
      } else {
        UpClosed(t, l, r);
        SubBounds(t, l, x);
      }
    }
  }

  /** Distinct splay roots have disjoint subtrees. */
  lemma RootsDisjoint(t: Nodes, a: int, b: int)
    requires Wf(t) && Node(t, a) && Node(t, b) && a != b && IsRoot(t, a) && IsRoot(t, b)
    ensures Sub(t, a) !! Sub(t, b)
  {
    forall z | z in Sub(t, a) && z in Sub(t, b)
      ensures false
    {
      SubBounds(t, a, z);
      Nested(t, a, b, z);
      if a in Sub(t, b) {
        UpClosed(t, b, a);
      } else {
        UpClosed(t, a, b);
      }
    }
  }

  /** A subtree has as many nodes as its size says. */
  lemma {:induction false} SubCard(t: Nodes, x: int)
    requires Wf(t) && Ref(t, x)
    ensures |Sub(t, x)| == Sz(t, x)
    decreases Sz(t, x)
  {
    if x != 0 {
      var l, r := t.left[x], t.right[x];
      SubCard(t, l);
      SubCard(t, r);
      NotBelowSelf(t, x);
      ChildrenDisjoint(t, x);
      assert Sub(t, x) == {x} + Sub(t, l) + Sub(t, r);
      assert |Sub(t, l) + Sub(t, r)| == |Sub(t, l)| + |Sub(t, r)|;
    }
  }

  /** The nodes 1..n. */
  function AllNodes(n: int): set<int>
    decreases n
  {
    if n <= 0 then {} else AllNodes(n - 1) + {n}
  }

  lemma {:induction false} AllNodesCard(n: nat)
    ensures |AllNodes(n)| == n
    decreases n
  {
    if n > 0 {
      AllNodesCard(n - 1);
      InAllNodesIff(n - 1, n);
    }
  }

  lemma {:induction false} InAllNodesIff(n: int, z: int)
    ensures z in AllNodes(n) <==> 1 <= z <= n
    decreases n
  {
    if n > 0 {
      InAllNodesIff(n - 1, z);
    }
  }

  /** A subtree's nodes are among 1..n. */
  lemma SubWithinNodes(t: Nodes, x: int, n: int)
    requires Wf(t) && Ref(t, x) && n == |t.parent| - 1
    ensures Sub(t, x) <= AllNodes(n)
  {
    var S := Sub(t, x);
    forall z | z in S
      ensures z in AllNodes(n)
    {
      SubBounds(t, x, z);
      InAllNodesIff(n, z);
    }
  }

  /** No subtree is larger than the number of nodes. */
  lemma SizeBound(t: Nodes, x: int)
    requires Wf(t) && Ref(t, x)
    ensures Sz(t, x) <= |t.parent| - 1
  {
    var n := |t.parent| - 1;
    SubCard(t, x);
    SubWithinNodes(t, x, n);
    AllNodesCard(n);
    SetCardMono(Sub(t, x), AllNodes(n));
  }

  lemma SetCardMono(a: set<int>, b: set<int>)
    requires a <= b
    ensures |a| <= |b|
  {
    assert b == a + (b - a);
  }

  predicate Distinct(s: seq<int>)
  {
    forall i, j :: 0 <= i < j < |s| ==> s[i] != s[j]
  }

  lemma DistinctConcat(a: seq<int>, b: seq<int>)
    requires Distinct(a) && Distinct(b)
    requires forall z :: z in a ==> z !in b
    ensures Distinct(a + b)
  {
    var s := a + b;
    forall i, j | 0 <= i < j < |s|
      ensures s[i] != s[j]
    {
      if i < |a| && j >= |a| {
        assert s[i] in a && s[j] == b[j - |a|];
      }
    }
  }

  /** A splay tree's sequence lists no node twice. */
  lemma {:induction false} SeqDistinct(t: Nodes, x: int, f: bool)
    requires Wf(t) && Ref(t, x)
    ensures Distinct(Seq(t, x, f))
    decreases Sz(t, x)
  {
    if x != 0 {
      var l, r := t.left[x], t.right[x];
      var g := f != t.rev[x];
      SeqDistinct(t, l, g);
      SeqDistinct(t, r, g);
      SeqBasics(t, l, g);
      SeqBasics(t, r, g);
      NotBelowSelf(t, x);
      ChildrenDisjoint(t, x);
      var L, R := Seq(t, l, g), Seq(t, r, g);
      if g {
        DistinctConcat(R, [x]);
        DistinctConcat(R + [x], L);
      } else {
        DistinctConcat(L, [x]);
        DistinctConcat(L + [x], R);
      }
    }
  }

  /** Two snapshots that agree on the shape fields of a subtree's nodes give
      that subtree the same sequence and the same node set. */
  lemma {:induction false} SeqFrame(t: Nodes, t': Nodes, y: int, f: bool)
    requires Wf(t) && Wf(t') && |t'.parent| == |t.parent| && Ref(t, y)
    requires forall z :: 1 <= z < |t.parent| && z in Sub(t, y) ==>
      t'.left[z] == t.left[z] && t'.right[z] == t.right[z] && t'.rev[z] == t.rev[z] && t'.size[z] == t.size[z]
    ensures Seq(t', y, f) == Seq(t, y, f)
    ensures Sub(t', y) == Sub(t, y)
    decreases Sz(t, y)
  {
    if y != 0 {
      var g := f != t.rev[y];
      ChildSub(t, y);
      SubBounds(t, y, y);
      SeqFrame(t, t', t.left[y], g);
      SeqFrame(t, t', t.right[y], g);
    }
  }

  /** The value of a node (0 for anything else). */
  function ValAt(val: seq<int>, x: int): int
  {
    if 0 <= x < |val| then val[x] else 0
  }

  /** The sum of the values of the nodes listed in `s`. */
  function SumVals(val: seq<int>, s: seq<int>): int
  {
    if s == [] then 0 else ValAt(val, s[0]) + SumVals(val, s[1..])
  }

  lemma {:induction false} SumValsConcat(val: seq<int>, a: seq<int>, b: seq<int>)
    ensures SumVals(val, a + b) == SumVals(val, a) + SumVals(val, b)
    decreases |a|
  {
    if a == [] {
      assert a + b == b;
    } else {
      assert (a + b)[1..] == a[1..] + b;
      SumValsConcat(val, a[1..], b);
    }
  }

  /** The stored aggregate of a reference (0 for no node). */
  function SumAt(t: Nodes, x: int): int
    requires Shaped(t) && Ref(t, x)
  {
    if x == 0 then 0 else t.sum[x]
  }

  /** Every node's aggregate is its value plus its children's aggregates
      (the state `pushUp` establishes). */
  predicate Summed(t: Nodes)
    requires Shaped(t)
  {
    forall x {:trigger t.left[x]} :: 1 <= x < |t.parent| ==> t.sum[x] == t.val[x] + SumAt(t, t.left[x]) + SumAt(t, t.right[x])
  }

  /** Sequence elements are nodes. */
  lemma SeqInRange(t: Nodes, x: int, f: bool)
    requires Wf(t) && Ref(t, x)
    ensures forall i :: 0 <= i < |Seq(t, x, f)| ==> 1 <= Seq(t, x, f)[i] < |t.val|
  {
    SeqBasics(t, x, f);
    forall i | 0 <= i < |Seq(t, x, f)|
      ensures 1 <= Seq(t, x, f)[i] < |t.val|
    {
      SubBounds(t, x, Seq(t, x, f)[i]);
    }
  }

  /** With consistent aggregates, a node's aggregate is the sum of the values
      along its splay tree's sequence, whichever way it is read. */
  lemma {:induction false} SumIsPathSum(t: Nodes, x: int, f: bool)
    requires Wf(t) && Summed(t) && Ref(t, x)
    ensures SumAt(t, x) == SumVals(t.val, Seq(t, x, f))
    decreases Sz(t, x)
  {
    if x != 0 {
      var l, r := t.left[x], t.right[x];
      var g := f != t.rev[x];
      SumIsPathSum(t, l, g);
      SumIsPathSum(t, r, g);
      var L, R := Seq(t, l, g), Seq(t, r, g);
      if g {
        SumValsConcat(t.val, R, [x]);
        SumValsConcat(t.val, R + [x], L);
      } else {
        SumValsConcat(t.val, L, [x]);
        SumValsConcat(t.val, L + [x], R);
      }
    }
  }

  /** A node strictly inside a subtree is strictly smaller than its root. */
  lemma SubStrict(t: Nodes, y: int, z: int)
    requires Wf(t) && Node(t, y) && Ref(t, z) && z in Sub(t, y) && z != y
    ensures Sz(t, z) < Sz(t, y)
  {
    if z in Sub(t, t.left[y]) {
      SubBounds(t, t.left[y], z);
    } else {
      SubBounds(t, t.right[y], z);
    }
  }

  /** `c` with `p` replaced by `x`. */
  function Swap(c: int, p: int, x: int): int
  {
    if c == p then x else c
  }

  /** Replacing one subtree by another with the same sequences, and leaving
      every other node's shape fields alone except for the pointer to the
      replaced subtree, leaves every sequence as it was. */
  lemma {:induction false} SeqReplace(t: Nodes, t': Nodes, y: int, p: int, x: int, f: bool)
    requires Wf(t) && Wf(t') && |t'.parent| == |t.parent| && Ref(t, y) && Node(t, p) && Node(t, x)
    requires y == p || y !in Sub(t, p)
    requires Seq(t', x, false) == Seq(t, p, false) && Seq(t', x, true) == Seq(t, p, true)
    requires forall z :: 1 <= z < |t.parent| && z in Sub(t, y) && z !in Sub(t, p) ==>
      t'.rev[z] == t.rev[z] && t'.left[z] == Swap(t.left[z], p, x) && t'.right[z] == Swap(t.right[z], p, x)
    ensures Seq(t', Swap(y, p, x), f) == Seq(t, y, f)
    decreases Sz(t, y)
  {
    if y == p {
      if f {
        assert Seq(t', x, true) == Seq(t, p, true);
      } else {
        assert Seq(t', x, false) == Seq(t, p, false);
      }
    } else if y != 0 {
      SubBounds(t, y, y);
      var l, r := t.left[y], t.right[y];
      var g := f != t.rev[y];
      ChildSub(t, y);
      if l != p && l in Sub(t, p) {
        UpClosed(t, p, l);
      }
      if r != p && r in Sub(t, p) {
        UpClosed(t, p, r);
      }
      SeqReplace(t, t', l, p, x, g);
      SeqReplace(t, t', r, p, x, g);
      var l', r' := Swap(l, p, x), Swap(r, p, x);
      assert t'.rev[y] == t.rev[y] && t'.left[y] == l' && t'.right[y] == r';
      if g {
        assert Seq(t', y, f) == Seq(t', r', g) + [y] + Seq(t', l', g);
      } else {
        assert Seq(t', y, f) == Seq(t', l', g) + [y] + Seq(t', r', g);
      }
    }
  }

  /** Toggling the flag of a subtree's root, with nothing else in the subtree
      changed, reads the subtree the other way round. */
  lemma SeqToggled(t: Nodes, t': Nodes, y: int, k: bool)
    requires Wf(t) && Wf(t') && |t'.parent| == |t.parent| && Node(t, y)
    requires t'.rev[y] == !t.rev[y] && t'.left[y] == t.left[y] && t'.right[y] == t.right[y]
    requires forall z :: 1 <= z < |t.parent| && z in Sub(t, y) && z != y ==>
      t'.left[z] == t.left[z] && t'.right[z] == t.right[z] && t'.rev[z] == t.rev[z] && t'.size[z] == t.size[z]
    ensures Seq(t', y, k) == Seq(t, y, !k)
  {
    var g := !k != t.rev[y];
    NotBelowSelf(t, y);
    ChildSub(t, y);
    SeqFrame(t, t', t.left[y], g);
    SeqFrame(t, t', t.right[y], g);
  }

  /** The root of the splay tree holding `x`: climb while `x` is a child. */
  function RootOf(t: Nodes, x: int): (r: int)
    requires Wf(t) && Node(t, x)
    ensures Node(t, r) && IsRoot(t, r) && x in Sub(t, r)
    decreases |t.parent| - Sz(t, x)
  {
    if IsRoot(t, x) then x
    else
      var p := t.parent[x];
      SizeBound(t, p);
      var r := RootOf(t, p);
      SubTrans(t, r, p, x);
      r
  }

  /** A splay root whose subtree holds `x` is `x`'s root. */
  lemma RootOfUnique(t: Nodes, x: int, r: int)
    requires Wf(t) && Node(t, x) && Node(t, r) && IsRoot(t, r) && x in Sub(t, r)
    ensures RootOf(t, x) == r
  {
    if RootOf(t, x) != r {
      RootsDisjoint(t, r, RootOf(t, x));
    }
  }

  /** Subtrees read as the same sequence hold the same nodes. */
  lemma SubOfSeq(t: Nodes, t': Nodes, a: int, b: int)
    requires Wf(t) && Wf(t') && Ref(t, a) && Ref(t', b) && Seq(t, a, false) == Seq(t', b, false)
    ensures Sub(t, a) == Sub(t', b)
  {
    SeqBasics(t, a, false);
    SeqBasics(t', b, false);
    forall w
      ensures w in Sub(t, a) <==> w in Sub(t', b)
    {
      assert w in Sub(t, a) <==> w in Seq(t, a, false);
      assert w in Sub(t', b) <==> w in Seq(t', b, false);
    }
  }
}
