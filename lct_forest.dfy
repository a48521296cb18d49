/**
 * The forest a link-cut tree stands for.  Each node records its parent in
 * its rooted tree (`up`, 0 at a root); `rank` grows strictly from parent to
 * child, which rules out cycles and gives recursion over paths a measure.
 * The effect of `makeRoot`, `link` and `cut` is stated here, on this forest,
 * together with what those effects mean for edges and connectivity.
 */
module LctForest {
  import opened LctNodes

  datatype Forest = Forest(up: seq<int>, rank: seq<nat>)

  predicate IsNode(F: Forest, z: int)
  {
    1 <= z < |F.up|
  }

  /** Every parent pointer names a node or 0, and ranks grow towards the leaves. */
  predicate Ok(F: Forest)
  {
    |F.up| >= 1 && |F.rank| == |F.up|
    && (forall z :: 0 <= z < |F.up| ==> 0 <= F.up[z] < |F.up|)
    && (forall z :: 1 <= z < |F.up| && F.up[z] != 0 ==> F.rank[F.up[z]] < F.rank[z])
  }

  /** The path from the root of `x`'s tree down to `x`. */
  function Path(F: Forest, x: int): (s: seq<int>)
    requires Ok(F) && IsNode(F, x)
    ensures |s| >= 1 && s[|s| - 1] == x
    ensures forall i :: 0 <= i < |s| ==> 1 <= s[i] < |F.up|
    decreases F.rank[x]
  {
    if F.up[x] == 0 then [x] else Path(F, F.up[x]) + [x]
  }

  /** The root of `x`'s tree. */
  function Root(F: Forest, x: int): int
    requires Ok(F) && IsNode(F, x)
  {
    Path(F, x)[0]
  }

  predicate Connected(F: Forest, u: int, v: int)
    requires Ok(F) && IsNode(F, u) && IsNode(F, v)
  {
    Root(F, u) == Root(F, v)
  }

  /** An (undirected) edge of the forest. */
  predicate Edge(F: Forest, a: int, b: int)
  {
    IsNode(F, a) && IsNode(F, b) && (F.up[a] == b || F.up[b] == a)
  }

  /** `s` runs down one tree: its first node hangs from `top` (0: it is a
      root), and every later node hangs from the one before it. */
  predicate Chain(up: seq<int>, s: seq<int>, top: int)
  {
    |s| >= 1
    && (forall i :: 0 <= i < |s| ==> 1 <= s[i] < |up|)
    && up[s[0]] == top
    && (forall i :: 1 <= i < |s| ==> up[s[i]] == s[i - 1])
  }

  /** Ranks grow strictly along a chain. */
  lemma {:induction false} ChainRankStep(F: Forest, s: seq<int>, top: int, i: int, j: int)
    requires Ok(F) && Chain(F.up, s, top) && 0 <= i < j < |s|
    ensures F.rank[s[i]] < F.rank[s[j]]
    decreases j - i
  {
    assert F.up[s[j]] == s[j - 1];
    if i < j - 1 {
      ChainRankStep(F, s, top, i, j - 1);
    }
  }

  lemma ChainRanks(F: Forest, s: seq<int>, top: int)
    requires Ok(F) && Chain(F.up, s, top)
    ensures forall i, j :: 0 <= i < j < |s| ==> F.rank[s[i]] < F.rank[s[j]]
    ensures Distinct(s)
  {
    forall i, j | 0 <= i < j < |s|
      ensures F.rank[s[i]] < F.rank[s[j]]
    {
      ChainRankStep(F, s, top, i, j);
    }
  }

  /** A chain's first node has the smallest rank on it. */
  lemma ChainHead(F: Forest, s: seq<int>, top: int, z: int)
    requires Ok(F) && Chain(F.up, s, top) && z in s
    ensures F.rank[s[0]] <= F.rank[z]
  {
    ChainRanks(F, s, top);
  }

  /** The path to `x` is a chain from a root. */
  lemma {:induction false} PathChain(F: Forest, x: int)
    requires Ok(F) && IsNode(F, x)
    ensures Chain(F.up, Path(F, x), 0)
    decreases F.rank[x]
  {
    if F.up[x] != 0 {
      PathChain(F, F.up[x]);
    }
  }

  /** A chain from a root is the path to its last node. */
  lemma {:induction false} ChainIsPath(F: Forest, s: seq<int>)
    requires Ok(F) && Chain(F.up, s, 0)
    ensures s == Path(F, s[|s| - 1])
    decreases |s|
  {
    var x := s[|s| - 1];
    if |s| > 1 {
      var s' := s[..|s| - 1];
      assert Chain(F.up, s', 0);
      ChainIsPath(F, s');
      assert F.up[x] == s'[|s'| - 1];
      assert s == s' + [x];
    }
  }

  lemma ChainConcat(up: seq<int>, a: seq<int>, b: seq<int>, top: int)
    requires Chain(up, a, top) && Chain(up, b, a[|a| - 1])
    ensures Chain(up, a + b, top)
  {
    var s := a + b;
    forall i | 1 <= i < |s|
      ensures up[s[i]] == s[i - 1]
    {
      if i > |a| {
        assert s[i] == b[i - |a|] && s[i - 1] == b[i - |a| - 1];
      } else if i == |a| {
        assert s[i] == b[0];
      }
    }
  }

  /** A chain split in two is two chains, the second hanging from the end of
      the first. */
  lemma ChainSplit(up: seq<int>, a: seq<int>, b: seq<int>, top: int)
    requires Chain(up, a + b, top) && |a| >= 1
    ensures Chain(up, a, top)
    ensures |b| >= 1 ==> Chain(up, b, a[|a| - 1])
  {
    var s := a + b;
    assert forall i :: 0 <= i < |a| ==> a[i] == s[i];
    assert forall i :: 0 <= i < |b| ==> b[i] == s[|a| + i];
    if |b| >= 1 {
      forall i | 1 <= i < |b|
        ensures up[b[i]] == b[i - 1]
      {
        assert up[s[|a| + i]] == s[|a| + i - 1];
      }
      assert up[s[|a|]] == s[|a| - 1];
    }
  }

  /** A chain only depends on the parents of its own nodes. */
  lemma ChainFrame(up: seq<int>, up': seq<int>, s: seq<int>, top: int)
    requires Chain(up, s, top) && |up'| == |up|
    requires forall i :: 0 <= i < |s| ==> up'[s[i]] == up[s[i]]
    ensures Chain(up', s, top)
  {
  }

  /** A chain's root is the root of each of its nodes. */
  lemma {:induction false} ChainRoot(F: Forest, s: seq<int>, top: int, i: int)
    requires Ok(F) && Chain(F.up, s, top) && 0 <= i < |s|
    ensures Root(F, s[i]) == Root(F, s[0])
    decreases i
  {
    if i > 0 {
      ChainRoot(F, s, top, i - 1);
      RootStep(F, s[i]);
    }
  }

  lemma RootStep(F: Forest, x: int)
    requires Ok(F) && IsNode(F, x)
    ensures F.up[x] == 0 ==> Root(F, x) == x
    ensures F.up[x] != 0 ==> Root(F, x) == Root(F, F.up[x])
  {
    if F.up[x] != 0 {
      assert Path(F, x) == Path(F, F.up[x]) + [x];
    }
  }

  /** A root is a node without a parent. */
  lemma RootIsRoot(F: Forest, x: int)
    requires Ok(F) && IsNode(F, x)
    ensures IsNode(F, Root(F, x)) && F.up[Root(F, x)] == 0
  {
    PathChain(F, x);
  }

  /** The position of `z` in `s`. */
  function IndexOf(s: seq<int>, z: int): (i: int)
    requires z in s
    ensures 0 <= i < |s| && s[i] == z
    ensures Distinct(s) ==> forall j :: 0 <= j < |s| && s[j] == z ==> j == i
  {
    if s[0] == z then 0 else 1 + IndexOf(s[1..], z)
  }

  /** `up` with every node of `s` pointing to its successor on `s`, and the
      last one to nothing. */
  function Redirect(up: seq<int>, s: seq<int>): (r: seq<int>)
    requires |s| >= 1 && forall i :: 0 <= i < |s| ==> 0 <= s[i] < |up|
    ensures |r| == |up|
    decreases |s|
  {
    if |s| == 1 then up[s[0] := 0] else Redirect(up, s[1..])[s[0] := s[1]]
  }

  lemma {:induction false} RedirectOff(up: seq<int>, s: seq<int>, z: int)
    requires |s| >= 1 && forall i :: 0 <= i < |s| ==> 0 <= s[i] < |up|
    requires 0 <= z < |up| && z !in s
    ensures Redirect(up, s)[z] == up[z]
    decreases |s|
  {
    if |s| > 1 {
      RedirectOff(up, s[1..], z);
    }
  }

  lemma {:induction false} RedirectOn(up: seq<int>, s: seq<int>, i: int)
    requires |s| >= 1 && forall i :: 0 <= i < |s| ==> 0 <= s[i] < |up|
    requires Distinct(s) && 0 <= i < |s|
    ensures Redirect(up, s)[s[i]] == if i < |s| - 1 then s[i + 1] else 0
    decreases |s|
  {
    if |s| > 1 && i > 0 {
      RedirectOn(up, s[1..], i - 1);
      assert s[1..][i - 1] == s[i];
    }
  }

  /** `base` with the nodes of `s` numbered down to 0 along `s`. */
  function Renumber(base: seq<nat>, s: seq<int>): (r: seq<nat>)
    requires forall i :: 0 <= i < |s| ==> 0 <= s[i] < |base|
    ensures |r| == |base|
    decreases |s|
  {
    if s == [] then base else Renumber(base, s[1..])[s[0] := |s| - 1]
  }

  lemma {:induction false} RenumberOff(base: seq<nat>, s: seq<int>, z: int)
    requires forall i :: 0 <= i < |s| ==> 0 <= s[i] < |base|
    requires 0 <= z < |base| && z !in s
    ensures Renumber(base, s)[z] == base[z]
    decreases |s|
  {
    if s != [] {
      RenumberOff(base, s[1..], z);
    }
  }

  lemma {:induction false} RenumberOn(base: seq<nat>, s: seq<int>, i: int)
    requires forall i :: 0 <= i < |s| ==> 0 <= s[i] < |base|
    requires Distinct(s) && 0 <= i < |s|
    ensures Renumber(base, s)[s[i]] == |s| - 1 - i
    decreases |s|
  {
    if i > 0 {
      RenumberOn(base, s[1..], i - 1);
      assert s[1..][i - 1] == s[i];
    }
  }

  /** `makeRoot(x)`: the path from the root to `x` is turned around, so that
      `x` becomes the root; `rank` counts down along the old path and moves
      every other node above it. */
  function Reroot(F: Forest, x: int): (F': Forest)
    requires Ok(F) && IsNode(F, x)
    ensures |F'.up| == |F.up| && |F'.rank| == |F.up|
  {
    var s := Path(F, x);
    Forest(Redirect(F.up, s),
      Renumber(seq(|F.rank|, z requires 0 <= z < |F.rank| => F.rank[z] + |s|), s))
  }

  /** The parent and rank `Reroot` gives a node off the path. */
  lemma RerootOff(F: Forest, x: int, z: int)
    requires Ok(F) && IsNode(F, x) && 0 <= z < |F.up| && z !in Path(F, x)
    ensures Reroot(F, x).up[z] == F.up[z] && Reroot(F, x).rank[z] == F.rank[z] + |Path(F, x)|
  {
    var s := Path(F, x);
    RedirectOff(F.up, s, z);
    RenumberOff(seq(|F.rank|, z requires 0 <= z < |F.rank| => F.rank[z] + |s|), s, z);
  }

  /** The parent and rank `Reroot` gives the `i`-th node of the path: its
      successor on the path, or nothing for `x` itself. */
  lemma RerootOn(F: Forest, x: int, i: int)
    requires Ok(F) && IsNode(F, x) && 0 <= i < |Path(F, x)|
    ensures var s := Path(F, x);
      Reroot(F, x).up[s[i]] == (if i < |s| - 1 then s[i + 1] else 0)
      && Reroot(F, x).rank[s[i]] == |s| - 1 - i
  {
    var s := Path(F, x);
    PathChain(F, x);
    ChainRanks(F, s, 0);
    RedirectOn(F.up, s, i);
    RenumberOn(seq(|F.rank|, z requires 0 <= z < |F.rank| => F.rank[z] + |s|), s, i);
  }

  /** The parent and rank `Reroot` gives any node. */
  lemma RerootAt(F: Forest, x: int, z: int)
    requires Ok(F) && IsNode(F, x) && 0 <= z < |F.up|
    ensures var s := Path(F, x);
      && (z !in s ==> Reroot(F, x).up[z] == F.up[z] && Reroot(F, x).rank[z] == F.rank[z] + |s|)
      && (z == x ==> Reroot(F, x).up[z] == 0 && Reroot(F, x).rank[z] == 0)
      && (forall i :: 0 <= i < |s| - 1 && s[i] == z ==>
            Reroot(F, x).up[z] == s[i + 1] && Reroot(F, x).rank[z] == |s| - 1 - i)
  {
    var s := Path(F, x);
    if z !in s {
      RerootOff(F, x, z);
    } else {
      var j := IndexOf(s, z);
      RerootOn(F, x, j);
      PathChain(F, x);
      ChainRanks(F, s, 0);
      RerootOn(F, x, |s| - 1);
    }
  }

  /** One node's parent pointer and rank after rerooting. */
  lemma RerootOkAt(F: Forest, x: int, z: int)
    requires Ok(F) && IsNode(F, x) && 0 <= z < |F.up|
    ensures 0 <= Reroot(F, x).up[z] < |F.up|
    ensures z != 0 && Reroot(F, x).up[z] != 0 ==> Reroot(F, x).rank[Reroot(F, x).up[z]] < Reroot(F, x).rank[z]
  {
    var F' := Reroot(F, x);
    var s := Path(F, x);
    if z in s {
      var i := IndexOf(s, z);
      RerootOn(F, x, i);
      if i < |s| - 1 {
        RerootOn(F, x, i + 1);
      }
    } else {
      RerootOff(F, x, z);
      var q := F.up[z];
      if q in s {
        RerootOn(F, x, IndexOf(s, q));
      } else {
        RerootOff(F, x, q);
      }
    }
  }

  /** The rerooted forest is again a forest. */
  lemma RerootOk(F: Forest, x: int)
    requires Ok(F) && IsNode(F, x)
    ensures Ok(Reroot(F, x))
  {
    var F' := Reroot(F, x);
    forall z | 0 <= z < |F.up|
      ensures 0 <= F'.up[z] < |F.up|
      ensures z != 0 && F'.up[z] != 0 ==> F'.rank[F'.up[z]] < F'.rank[z]
    {
      RerootOkAt(F, x, z);
    }
  }

  /** After rerooting, the old path read backwards is the chain from the new root `x`. */
  lemma RerootChain(F: Forest, x: int)
    requires Ok(F) && IsNode(F, x)
    ensures Chain(Reroot(F, x).up, Reverse(Path(F, x)), 0)
  {
    var F' := Reroot(F, x);
    var s := Path(F, x);
    var r := Reverse(s);
    var k := |s| - 1;
    PathChain(F, x);
    RerootAt(F, x, x);
    forall i | 0 <= i < |r|
      ensures 1 <= r[i] < |F'.up|
    {
      assert r[i] == s[k - i];
    }
    forall i | 1 <= i < |r|
      ensures F'.up[r[i]] == r[i - 1]
    {
      RerootChainAt(F, x, i);
    }
  }

  /** One link of that chain: the `i`-th node from `x` hangs from the one
      before it. */
  lemma RerootChainAt(F: Forest, x: int, i: int)
    requires Ok(F) && IsNode(F, x) && 1 <= i < |Path(F, x)|
    ensures var r := Reverse(Path(F, x));
      Reroot(F, x).up[r[i]] == r[i - 1]
  {
    var s := Path(F, x);
    var k := |s| - 1;
    assert Reverse(s)[i] == s[k - i] && Reverse(s)[i - 1] == s[k - i + 1];
    RerootOn(F, x, k - i);
  }

  /** Rerooting moves the root of `x`'s tree to `x` and changes no other tree's root. */
  lemma {:induction false} RerootRoot(F: Forest, x: int, z: int)
    requires Ok(F) && IsNode(F, x) && IsNode(F, z)
    ensures Ok(Reroot(F, x))
    ensures Root(Reroot(F, x), z) == if Root(F, z) == Root(F, x) then x else Root(F, z)
    decreases Reroot(F, x).rank[z]
  {
    RerootOk(F, x);
    var F' := Reroot(F, x);
    var s := Path(F, x);
    PathChain(F, x);
    RerootAt(F, x, z);
    RootStep(F', z);
    RootStep(F, z);
    if z in s {
      var i := IndexOf(s, z);
      ChainRoot(F, s, 0, i);
      RerootChain(F, x);
      var r := Reverse(s);
      var j := |s| - 1 - i;
      assert r[j] == z && r[0] == x;
      ChainRoot(F', r, 0, j);
      RootStep(F', x);
    } else if F.up[z] != 0 {
      RerootRoot(F, x, F.up[z]);
    }
  }

  /** Rerooting keeps the connectivity of every pair of nodes. */
  lemma RerootConnected(F: Forest, x: int, a: int, b: int)
    requires Ok(F) && IsNode(F, x) && IsNode(F, a) && IsNode(F, b)
    ensures Ok(Reroot(F, x))
    ensures Connected(Reroot(F, x), a, b) <==> Connected(F, a, b)
  {
    RerootRoot(F, x, a);
    RerootRoot(F, x, b);
    RerootRoot(F, x, x);
    RootIsRoot(F, a);
    RootIsRoot(F, b);
  }

  /** Rerooting turns edges around but keeps every one of them, and adds none. */
  lemma RerootEdges(F: Forest, x: int, a: int, b: int)
    requires Ok(F) && IsNode(F, x)
    ensures Edge(Reroot(F, x), a, b) <==> Edge(F, a, b)
  {
    if IsNode(F, a) && IsNode(F, b) {
      RerootUp(F, x, a, b);
      RerootUp(F, x, b, a);
    }
  }

  /** One direction of an edge, before and after rerooting. */
  lemma RerootUp(F: Forest, x: int, a: int, b: int)
    requires Ok(F) && IsNode(F, x) && IsNode(F, a) && IsNode(F, b)
    ensures Reroot(F, x).up[a] == b ==> F.up[a] == b || F.up[b] == a
    ensures F.up[a] == b ==> Reroot(F, x).up[a] == b || Reroot(F, x).up[b] == a
  {
    var F' := Reroot(F, x);
    var s := Path(F, x);
    PathChain(F, x);
    ChainRanks(F, s, 0);
    RerootAt(F, x, a);
    RerootAt(F, x, b);
    if a in s {
      var i := IndexOf(s, a);
      if i < |s| - 1 {
        assert F.up[s[i + 1]] == s[i];
      }
      if F.up[a] == b {
        assert i > 0;
        assert s[i - 1] == b;
      }
    }
  }

  /** `link(u, v)`: after rerooting at `u`, `u` hangs from `v` unless `v` is
      already in `u`'s tree.  Ranks in `u`'s tree move above `v`'s. */
  function Link(F: Forest, u: int, v: int): (F': Forest)
    requires Ok(F) && IsNode(F, u) && IsNode(F, v)
    ensures |F'.up| == |F.up|
  {
    var F1 := Reroot(F, u);
    RerootOk(F, u);
    if Root(F1, v) == u then F1
    else
      Forest(F1.up[u := v],
        seq(|F1.up|, z requires 0 <= z < |F1.up| =>
          if z != 0 && Root(F1, z) == u then F1.rank[z] + F1.rank[v] + 1 else F1.rank[z]))
  }

  /** One node's parent pointer and rank after a link that joins two trees. */
  lemma LinkAt(F: Forest, u: int, v: int, z: int)
    requires Ok(F) && IsNode(F, u) && IsNode(F, v) && 1 <= z < |F.up|
    ensures Ok(Reroot(F, u))
    ensures Root(Reroot(F, u), v) != u ==>
      Link(F, u, v).up[z] == (if z == u then v else Reroot(F, u).up[z])
      && Link(F, u, v).rank[z] ==
        if Root(Reroot(F, u), z) == u then Reroot(F, u).rank[z] + Reroot(F, u).rank[v] + 1
        else Reroot(F, u).rank[z]
    ensures Root(Reroot(F, u), v) == u ==> Link(F, u, v) == Reroot(F, u)
  {
    RerootOk(F, u);
  }

  lemma LinkOk(F: Forest, u: int, v: int)
    requires Ok(F) && IsNode(F, u) && IsNode(F, v)
    ensures Ok(Link(F, u, v))
  {
    var F1 := Reroot(F, u);
    RerootOk(F, u);
    var L := Link(F, u, v);
    if Root(F1, v) != u {
      assert L.up[0] == F1.up[0];
      forall z | 1 <= z < |L.up|
        ensures 0 <= L.up[z] < |L.up|
        ensures L.up[z] != 0 ==> L.rank[L.up[z]] < L.rank[z]
      {
        LinkAt(F, u, v, z);
        if z == u {
          RerootRoot(F, u, u);
          LinkAt(F, u, v, v);
        } else if F1.up[z] != 0 {
          RootStep(F1, z);
          LinkAt(F, u, v, F1.up[z]);
        }
      }
    }
  }

  /** The roots after a link, in terms of the forest rerooted at `u`: when
      `u` hangs from `v`, `u`'s tree takes `v`'s root. */
  lemma {:induction false} LinkRoot(F: Forest, u: int, v: int, z: int)
    requires Ok(F) && IsNode(F, u) && IsNode(F, v) && IsNode(F, z)
    ensures Ok(Link(F, u, v)) && Ok(Reroot(F, u))
    ensures Root(Link(F, u, v), z) ==
      var F1 := Reroot(F, u);
      if Root(F1, z) == u && Root(F1, v) != u then Root(F1, v) else Root(F1, z)
    decreases Link(F, u, v).rank[z]
  {
    LinkOk(F, u, v);
    var F1 := Reroot(F, u);
    RerootOk(F, u);
    var L := Link(F, u, v);
    LinkAt(F, u, v, z);
    if Root(F1, v) != u {
      RootStep(L, z);
      RootStep(F1, z);
      RerootRoot(F, u, u);
      if z == u {
        LinkAt(F, u, v, v);
        LinkRoot(F, u, v, v);
        RootStep(F1, u);
      } else if F1.up[z] != 0 {
        var q := F1.up[z];
        LinkAt(F, u, v, q);
        LinkRoot(F, u, v, q);
      }
    }
  }

  /** Linking joins the trees of `u` and `v` when they were apart, and
      changes nothing else about connectivity. */
  lemma LinkConnected(F: Forest, u: int, v: int, a: int, b: int)
    requires Ok(F) && IsNode(F, u) && IsNode(F, v) && IsNode(F, a) && IsNode(F, b)
    ensures Ok(Link(F, u, v))
    ensures Connected(Link(F, u, v), a, b) <==>
      Connected(F, a, b)
      || (!Connected(F, u, v)
          && ((Connected(F, a, u) && Connected(F, b, v)) || (Connected(F, a, v) && Connected(F, b, u))))
  {
    LinkRoot(F, u, v, a);
    LinkRoot(F, u, v, b);
    RerootRoot(F, u, a);
    RerootRoot(F, u, b);
    RerootRoot(F, u, v);
    RerootRoot(F, u, u);
    RootIsRoot(F, a);
    RootIsRoot(F, b);
    RootIsRoot(F, v);
    RootStep(F, u);
  }

  /** Linking adds exactly the edge `u`–`v` when `u` and `v` were apart, and
      otherwise keeps the edges as they are. */
  lemma LinkEdges(F: Forest, u: int, v: int, a: int, b: int)
    requires Ok(F) && IsNode(F, u) && IsNode(F, v)
    ensures Edge(Link(F, u, v), a, b) <==>
      Edge(F, a, b) || (!Connected(F, u, v) && ((a == u && b == v) || (a == v && b == u)))
  {
    RerootEdges(F, u, a, b);
    LinkTest(F, u, v);
    if IsNode(F, a) && IsNode(F, b) {
      LinkAt(F, u, v, a);
      LinkAt(F, u, v, b);
    }
  }

  /** After rerooting at `u`, `v` lies under `u` exactly when the two were
      connected, and `u` has no parent. */
  lemma LinkTest(F: Forest, u: int, v: int)
    requires Ok(F) && IsNode(F, u) && IsNode(F, v)
    ensures Ok(Reroot(F, u)) && Reroot(F, u).up[u] == 0
    ensures Root(Reroot(F, u), v) == u <==> Connected(F, u, v)
  {
    RerootOk(F, u);
    RerootRoot(F, u, v);
    RerootRoot(F, u, u);
    RootIsRoot(F, v);
    RootStep(F, u);
    RerootAt(F, u, u);
  }

  /** `cut(u, v)` when its test succeeds: after rerooting at `u`, `v` is
      detached from its parent, which is `u` when `u`–`v` is an edge. */
  function Cut(F: Forest, u: int, v: int): (F': Forest)
    requires Ok(F) && IsNode(F, u) && IsNode(F, v)
    ensures |F'.up| == |F.up|
  {
    var F1 := Reroot(F, u);
    Forest(F1.up[v := 0], F1.rank)
  }

  lemma CutOk(F: Forest, u: int, v: int)
    requires Ok(F) && IsNode(F, u) && IsNode(F, v)
    ensures Ok(Cut(F, u, v))
  {
    RerootOk(F, u);
  }

  /** Cutting at an edge `u`–`v` removes exactly that edge. */
  lemma CutEdges(F: Forest, u: int, v: int, a: int, b: int)
    requires Ok(F) && IsNode(F, u) && IsNode(F, v) && Edge(F, u, v)
    ensures Edge(Cut(F, u, v), a, b) <==>
      Edge(F, a, b) && !((a == u && b == v) || (a == v && b == u))
  {
    var F1 := Reroot(F, u);
    RerootOk(F, u);
    RerootEdges(F, u, u, v);
    RerootEdges(F, u, a, b);
    RerootAt(F, u, u);
    assert F1.up[v] == u;
    RerootEdges(F, u, u, v);
  }

  /** In a rerooted tree, the path from the new root `u` to `v` is the
      tree path between them: it starts at `u`, ends at `v`, repeats no node
      and steps along edges only. */
  lemma TreePath(F: Forest, u: int, v: int)
    requires Ok(F) && IsNode(F, u) && IsNode(F, v) && Connected(F, u, v)
    ensures Ok(Reroot(F, u))
    ensures var s := Path(Reroot(F, u), v);
      s[0] == u && s[|s| - 1] == v && Distinct(s)
      && forall i :: 0 <= i < |s| - 1 ==> Edge(F, s[i], s[i + 1])
  {
    RerootOk(F, u);
    var F1 := Reroot(F, u);
    RerootRoot(F, u, v);
    var s := Path(F1, v);
    PathChain(F1, v);
    ChainRanks(F1, s, 0);
    forall i | 0 <= i < |s| - 1
      ensures Edge(F, s[i], s[i + 1])
    {
      assert F1.up[s[i + 1]] == s[i];
      RerootEdges(F, u, s[i], s[i + 1]);
    }
  }

  /** When `v` is not in `u`'s tree, rerooting at `u` leaves `v`'s path alone. */
  lemma PathElsewhere(F: Forest, u: int, v: int)
    requires Ok(F) && IsNode(F, u) && IsNode(F, v) && !Connected(F, u, v)
    ensures Ok(Reroot(F, u)) && Path(Reroot(F, u), v) == Path(F, v)
  {
    RerootOk(F, u);
    var F1 := Reroot(F, u);
    var s := Path(F, v);
    var p := Path(F, u);
    PathChain(F, v);
    PathChain(F, u);
    forall i | 0 <= i < |s|
      ensures F1.up[s[i]] == F.up[s[i]]
    {
      ChainRoot(F, s, 0, i);
      if s[i] in p {
        var j := IndexOf(p, s[i]);
        ChainRoot(F, p, 0, j);
        ChainRoot(F, p, 0, |p| - 1);
        ChainRoot(F, s, 0, |s| - 1);
      }
      RerootAt(F, u, s[i]);
    }
    assert Chain(F1.up, s, 0);
    ChainIsPath(F1, s);
  }
}
