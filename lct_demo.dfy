/**
 * The example run at the end of the program: seven nodes valued 1..7,
 * linked into a tree, queried, updated, cut and relinked.  The forest is
 * worked out step by step, one parent pointer per node.
 */
module LctDemo {
  import opened LctNodes
  import opened LctForest
  import opened LinkCut
  import LctOps

  /** `x`'s path from its root is `s`, and turning the pointers along `s`
      round (with `x` the new root) gives `up'`; nothing else changes. */
  predicate Turned(up: seq<int>, x: int, s: seq<int>, up': seq<int>)
  {
    Chain(up, s, 0) && s[|s| - 1] == x
    && |up'| == |up| && up'[x] == 0
    && (forall i :: 0 <= i < |s| - 1 ==> up'[s[i]] == s[i + 1])
    && (forall z :: 0 <= z < |up'| && z !in s ==> up'[z] == up[z])
  }

  /** Rerooting at `x` turns the pointers along `x`'s path round. */
  lemma RerootIs(F: Forest, x: int, s: seq<int>, up': seq<int>)
    requires Ok(F) && Turned(F.up, x, s, up')
    ensures IsNode(F, x) && Ok(Reroot(F, x)) && Reroot(F, x).up == up'
  {
    ChainIsPath(F, s);
    ChainRanks(F, s, 0);
    RerootOk(F, x);
    forall z | 0 <= z < |F.up|
      ensures Reroot(F, x).up[z] == up'[z]
    {
      RerootAt(F, x, z);
      if z in s && z != x {
        var i := IndexOf(s, z);
        assert i < |s| - 1 && s[i] == z;
        assert Reroot(F, x).up[z] == s[i + 1];
      }
    }
  }

  /** Linking `u` below `v` when `v`'s path in the forest rerooted at `u` is
      `pv`, which does not start at `u`. */
  lemma LinkIs(F: Forest, u: int, v: int, pv: seq<int>)
    requires Ok(F) && IsNode(F, u) && IsNode(F, v) && Ok(Reroot(F, u))
    requires Chain(Reroot(F, u).up, pv, 0) && pv[|pv| - 1] == v && pv[0] != u
    ensures Link(F, u, v).up == Reroot(F, u).up[u := v]
  {
    ChainIsPath(Reroot(F, u), pv);
  }

  /** The root of `x` when its path is `s`. */
  lemma PathIs(F: Forest, s: seq<int>)
    requires Ok(F) && Chain(F.up, s, 0)
    ensures IsNode(F, s[|s| - 1]) && Path(F, s[|s| - 1]) == s && Root(F, s[|s| - 1]) == s[0]
  {
    ChainIsPath(F, s);
  }

  /** `link(u, v)` where rerooting at `u` along `su` gives `up1`, and `v`'s
      path there is `pv`. */
  method LinkVia(t: LinkCutTree, u: int, v: int, su: seq<int>, up1: seq<int>, pv: seq<int>)
    requires t.Valid() && Node(t.Snap(), u) && Node(t.Snap(), v)
    requires Turned(t.forest.up, u, su, up1)
    requires Chain(up1, pv, 0) && pv[|pv| - 1] == v && pv[0] != u
    modifies t
    ensures t.Valid() && t.forest.up == up1[u := v]
    ensures t.val == old(t.val) && |t.parent| == |old(t.parent)|
  {
    RerootIs(t.forest, u, su, up1);
    LinkIs(t.forest, u, v, pv);
    t.Link(u, v);
  }

  /** `pathSum(u, v)` where rerooting at `u` along `su` gives `up1`, and
      `v`'s path there is `pv`. */
  method PathSumVia(t: LinkCutTree, u: int, v: int, su: seq<int>, up1: seq<int>, pv: seq<int>)
    returns (s: int)
    requires t.Valid() && Node(t.Snap(), u) && Node(t.Snap(), v)
    requires Turned(t.forest.up, u, su, up1)
    requires Chain(up1, pv, 0) && pv[|pv| - 1] == v
    modifies t
    ensures t.Valid() && t.forest.up == up1 && s == SumVals(t.val, pv)
    ensures t.val == old(t.val) && |t.parent| == |old(t.parent)|
  {
    RerootIs(t.forest, u, su, up1);
    s := t.PathSum(u, v);
    PathIs(t.forest, pv);
  }

  /** `cut(u, v)` on an edge, where rerooting at `u` along `su` gives
      `up1`. */
  method CutVia(t: LinkCutTree, u: int, v: int, su: seq<int>, up1: seq<int>)
    requires t.Valid() && Node(t.Snap(), u) && Node(t.Snap(), v) && Edge(t.forest, u, v)
    requires Turned(t.forest.up, u, su, up1)
    modifies t
    ensures t.Valid() && t.forest.up == up1[v := 0]
    ensures t.val == old(t.val) && |t.parent| == |old(t.parent)|
  {
    RerootIs(t.forest, u, su, up1);
    t.Cut(u, v);
  }

  /** `connected(u, v)` where the paths of `u` and `v` are `pu` and `pv`. */
  method ConnectedVia(t: LinkCutTree, u: int, v: int, pu: seq<int>, pv: seq<int>) returns (c: bool)
    requires t.Valid() && Node(t.Snap(), u) && Node(t.Snap(), v)
    requires Chain(t.forest.up, pu, 0) && pu[|pu| - 1] == u
    requires Chain(t.forest.up, pv, 0) && pv[|pv| - 1] == v
    modifies t
    ensures t.Valid() && t.forest.up == old(t.forest.up) && c == (pu[0] == pv[0])
    ensures t.val == old(t.val) && |t.parent| == |old(t.parent)|
  {
    PathIs(t.forest, pu);
    PathIs(t.forest, pv);
    c := t.Connected(u, v);
  }

  /** The tree holds the seven nodes with values `vals` and the forest
      with parent pointers `up`. */
  ghost predicate At(t: LinkCutTree, up: seq<int>, vals: seq<int>)
    reads t
  {
    t.Valid() && |t.parent| == 8 && t.forest.up == up && t.val == vals
  }

  /** The pointer facts behind `Build`. */
  lemma BuildPlan()
    ensures LctOps.Roots(7).up == [0, 0, 0, 0, 0, 0, 0, 0]
    ensures Turned([0, 0, 0, 0, 0, 0, 0, 0], 1, [1], [0, 0, 0, 0, 0, 0, 0, 0])
    ensures Chain([0, 0, 0, 0, 0, 0, 0, 0], [2], 0)
    ensures [0, 0, 0, 0, 0, 0, 0, 0][1 := 2] == [0, 2, 0, 0, 0, 0, 0, 0]
    ensures Turned([0, 2, 0, 0, 0, 0, 0, 0], 2, [2], [0, 2, 0, 0, 0, 0, 0, 0])
    ensures Chain([0, 2, 0, 0, 0, 0, 0, 0], [3], 0)
    ensures [0, 2, 0, 0, 0, 0, 0, 0][2 := 3] == [0, 2, 3, 0, 0, 0, 0, 0]
  {
  }

  /** Builds the seven nodes and links 1 below 2 and 2 below 3. */
  method Build() returns (t: LinkCutTree)
    ensures fresh(t) && At(t, [0, 2, 3, 0, 0, 0, 0, 0], [0, 1, 2, 3, 4, 5, 6, 7])
  {
    t := new LinkCutTree([1, 2, 3, 4, 5, 6, 7]);
    BuildPlan();
    LinkVia(t, 1, 2, [1], [0, 0, 0, 0, 0, 0, 0, 0], [2]);
    LinkVia(t, 2, 3, [2], [0, 2, 0, 0, 0, 0, 0, 0], [3]);
  }

  /** The pointer facts behind `Grow`. */
  lemma GrowPlan()
    ensures Turned([0, 2, 3, 0, 0, 0, 0, 0], 3, [3], [0, 2, 3, 0, 0, 0, 0, 0])
    ensures Chain([0, 2, 3, 0, 0, 0, 0, 0], [4], 0)
    ensures [0, 2, 3, 0, 0, 0, 0, 0][3 := 4] == [0, 2, 3, 4, 0, 0, 0, 0]
    ensures Turned([0, 2, 3, 4, 0, 0, 0, 0], 3, [4, 3], [0, 2, 3, 0, 3, 0, 0, 0])
    ensures Chain([0, 2, 3, 0, 3, 0, 0, 0], [5], 0)
    ensures [0, 2, 3, 0, 3, 0, 0, 0][3 := 5] == [0, 2, 3, 5, 3, 0, 0, 0]
  {
  }

  /** Links 3 below 4 and then 3 below 5. */
  method Grow(t: LinkCutTree)
    requires At(t, [0, 2, 3, 0, 0, 0, 0, 0], [0, 1, 2, 3, 4, 5, 6, 7])
    modifies t
    ensures At(t, [0, 2, 3, 5, 3, 0, 0, 0], [0, 1, 2, 3, 4, 5, 6, 7])
  {
    GrowPlan();
    LinkVia(t, 3, 4, [3], [0, 2, 3, 0, 0, 0, 0, 0], [4]);
    LinkVia(t, 3, 5, [4, 3], [0, 2, 3, 0, 3, 0, 0, 0], [5]);
  }

  /** The pointer facts behind `Complete`. */
  lemma CompletePlan()
    ensures Turned([0, 2, 3, 5, 3, 0, 0, 0], 5, [5], [0, 2, 3, 5, 3, 0, 0, 0])
    ensures Chain([0, 2, 3, 5, 3, 0, 0, 0], [6], 0)
    ensures [0, 2, 3, 5, 3, 0, 0, 0][5 := 6] == [0, 2, 3, 5, 3, 6, 0, 0]
    ensures Turned([0, 2, 3, 5, 3, 6, 0, 0], 2, [6, 5, 3, 2], [0, 2, 0, 2, 3, 3, 5, 0])
    ensures Chain([0, 2, 0, 2, 3, 3, 5, 0], [7], 0)
    ensures [0, 2, 0, 2, 3, 3, 5, 0][2 := 7] == [0, 2, 7, 2, 3, 3, 5, 0]
  {
  }

  /** Links 5 below 6 and then 2 below 7. */
  method Complete(t: LinkCutTree)
    requires At(t, [0, 2, 3, 5, 3, 0, 0, 0], [0, 1, 2, 3, 4, 5, 6, 7])
    modifies t
    ensures At(t, [0, 2, 7, 2, 3, 3, 5, 0], [0, 1, 2, 3, 4, 5, 6, 7])
  {
    CompletePlan();
    LinkVia(t, 5, 6, [5], [0, 2, 3, 5, 3, 0, 0, 0], [6]);
    LinkVia(t, 2, 7, [6, 5, 3, 2], [0, 2, 0, 2, 3, 3, 5, 0], [7]);
  }

  /** The values along the path 1–4. */
  lemma SumOneFourIs(vals: seq<int>)
    requires |vals| == 8
    ensures SumVals(vals, [1, 2, 3, 4]) == vals[1] + vals[2] + vals[3] + vals[4]
  {
    assert SumVals(vals, [4]) == vals[4] by { assert [4][1..] == []; }
    assert SumVals(vals, [3, 4]) == vals[3] + vals[4] by { assert [3, 4][1..] == [4]; }
    assert SumVals(vals, [2, 3, 4]) == vals[2] + vals[3] + vals[4] by { assert [2, 3, 4][1..] == [3, 4]; }
    assert [1, 2, 3, 4][1..] == [2, 3, 4];
  }

  /** The values along the path 6–7. */
  lemma SumSixSevenIs(vals: seq<int>)
    requires |vals| == 8
    ensures SumVals(vals, [6, 5, 3, 2, 7]) == vals[6] + vals[5] + vals[3] + vals[2] + vals[7]
  {
    assert SumVals(vals, [7]) == vals[7] by { assert [7][1..] == []; }
    assert SumVals(vals, [2, 7]) == vals[2] + vals[7] by { assert [2, 7][1..] == [7]; }
    assert SumVals(vals, [3, 2, 7]) == vals[3] + vals[2] + vals[7] by { assert [3, 2, 7][1..] == [2, 7]; }
    assert SumVals(vals, [5, 3, 2, 7]) == vals[5] + vals[3] + vals[2] + vals[7] by { assert [5, 3, 2, 7][1..] == [3, 2, 7]; }
    assert [6, 5, 3, 2, 7][1..] == [5, 3, 2, 7];
  }

  /** The pointer facts behind `FirstSumOneFour`. */
  lemma FirstSumPlan()
    ensures Turned([0, 2, 7, 2, 3, 3, 5, 0], 1, [7, 2, 1], [0, 0, 1, 2, 3, 3, 5, 2])
    ensures Chain([0, 0, 1, 2, 3, 3, 5, 2], [1, 2, 3, 4], 0)
  {
  }

  /** The pointer facts behind `SecondSumOneFour`. */
  lemma SecondSumPlan()
    ensures Turned([0, 2, 3, 5, 3, 6, 0, 2], 1, [6, 5, 3, 2, 1], [0, 0, 1, 2, 3, 3, 5, 2])
    ensures Chain([0, 0, 1, 2, 3, 3, 5, 2], [1, 2, 3, 4], 0)
  {
  }

  /** The pointer facts behind `SumSixSeven`. */
  lemma SumSixSevenPlan()
    ensures Turned([0, 0, 1, 2, 3, 3, 5, 2], 6, [1, 2, 3, 5, 6], [0, 2, 3, 5, 3, 6, 0, 2])
    ensures Chain([0, 2, 3, 5, 3, 6, 0, 2], [6, 5, 3, 2, 7], 0)
  {
  }

  /** The pointer facts behind `Split`. */
  lemma SplitPlan()
    ensures Turned([0, 2, 3, 5, 3, 6, 0, 2], 3, [6, 5, 3], [0, 2, 3, 0, 3, 3, 5, 2])
    ensures [0, 2, 3, 0, 3, 3, 5, 2][5 := 0] == [0, 2, 3, 0, 3, 0, 5, 2]
    ensures Chain([0, 2, 3, 0, 3, 0, 5, 2], [5, 6], 0) && Chain([0, 2, 3, 0, 3, 0, 5, 2], [3, 2, 1], 0)
  {
  }

  /** The pointer facts behind `Rejoin`. */
  lemma RejoinPlan()
    ensures Turned([0, 2, 3, 0, 3, 0, 5, 2], 6, [5, 6], [0, 2, 3, 0, 3, 6, 0, 2])
    ensures Chain([0, 2, 3, 0, 3, 6, 0, 2], [3, 4], 0)
    ensures [0, 2, 3, 0, 3, 6, 0, 2][6 := 4] == [0, 2, 3, 0, 3, 6, 4, 2]
    ensures Chain([0, 2, 3, 0, 3, 6, 4, 2], [3, 4, 6], 0) && Chain([0, 2, 3, 0, 3, 6, 4, 2], [3, 2, 1], 0)
  {
  }

  /** The pointer facts behind `SumSixOne`. */
  lemma SumSixOnePlan()
    ensures Turned([0, 2, 3, 0, 3, 6, 4, 2], 6, [3, 4, 6], [0, 2, 3, 4, 6, 6, 0, 2])
    ensures Chain([0, 2, 3, 4, 6, 6, 0, 2], [6, 4, 3, 2, 1], 0)
  {
  }

  /** The values along the path 6–1. */
  lemma SumSixOneIs(vals: seq<int>)
    requires |vals| == 8
    ensures SumVals(vals, [6, 4, 3, 2, 1]) == vals[6] + vals[4] + vals[3] + vals[2] + vals[1]
  {
    assert SumVals(vals, [1]) == vals[1] by { assert [1][1..] == []; }
    assert SumVals(vals, [2, 1]) == vals[2] + vals[1] by { assert [2, 1][1..] == [1]; }
    assert SumVals(vals, [3, 2, 1]) == vals[3] + vals[2] + vals[1] by { assert [3, 2, 1][1..] == [2, 1]; }
    assert SumVals(vals, [4, 3, 2, 1]) == vals[4] + vals[3] + vals[2] + vals[1] by { assert [4, 3, 2, 1][1..] == [3, 2, 1]; }
    assert [6, 4, 3, 2, 1][1..] == [4, 3, 2, 1];
  }

  /** The first path sum 1–4, which reroots at 1. */
  method FirstSumOneFour(t: LinkCutTree) returns (s: int)
    requires At(t, [0, 2, 7, 2, 3, 3, 5, 0], [0, 1, 2, 3, 4, 5, 6, 7])
    modifies t
    ensures At(t, [0, 0, 1, 2, 3, 3, 5, 2], [0, 1, 2, 3, 4, 5, 6, 7])
    ensures s == 10
  {
    FirstSumPlan();
    s := PathSumVia(t, 1, 4, [7, 2, 1], [0, 0, 1, 2, 3, 3, 5, 2], [1, 2, 3, 4]);
    SumOneFourIs(t.val);
  }

  /** The second path sum 1–4, after 6–7 has rerooted at 6. */
  method SecondSumOneFour(t: LinkCutTree) returns (s: int)
    requires At(t, [0, 2, 3, 5, 3, 6, 0, 2], [0, 1, 2, 30, 4, 5, 6, 7])
    modifies t
    ensures At(t, [0, 0, 1, 2, 3, 3, 5, 2], [0, 1, 2, 30, 4, 5, 6, 7])
    ensures s == 37
  {
    SecondSumPlan();
    s := PathSumVia(t, 1, 4, [6, 5, 3, 2, 1], [0, 0, 1, 2, 3, 3, 5, 2], [1, 2, 3, 4]);
    SumOneFourIs(t.val);
  }

  /** The path sum 6–7, which reroots at 6. */
  method SumSixSeven(t: LinkCutTree, vals: seq<int>) returns (s: int)
    requires At(t, [0, 0, 1, 2, 3, 3, 5, 2], vals) && |vals| == 8
    modifies t
    ensures At(t, [0, 2, 3, 5, 3, 6, 0, 2], vals)
    ensures s == vals[6] + vals[5] + vals[3] + vals[2] + vals[7]
  {
    SumSixSevenPlan();
    s := PathSumVia(t, 6, 7, [1, 2, 3, 5, 6], [0, 2, 3, 5, 3, 6, 0, 2], [6, 5, 3, 2, 7]);
    SumSixSevenIs(vals);
  }

  /** Node 3 takes the value 30. */
  method SetThree(t: LinkCutTree)
    requires At(t, [0, 2, 3, 5, 3, 6, 0, 2], [0, 1, 2, 3, 4, 5, 6, 7])
    modifies t
    ensures At(t, [0, 2, 3, 5, 3, 6, 0, 2], [0, 1, 2, 30, 4, 5, 6, 7])
  {
    t.UpdateValue(3, 30);
  }

  /** Cutting 3–5 separates 6 from 1. */
  method Split(t: LinkCutTree) returns (c1: bool)
    requires At(t, [0, 2, 3, 5, 3, 6, 0, 2], [0, 1, 2, 30, 4, 5, 6, 7])
    modifies t
    ensures At(t, [0, 2, 3, 0, 3, 0, 5, 2], [0, 1, 2, 30, 4, 5, 6, 7])
    ensures !c1
  {
    SplitPlan();
    CutVia(t, 3, 5, [6, 5, 3], [0, 2, 3, 0, 3, 3, 5, 2]);
    c1 := ConnectedVia(t, 6, 1, [5, 6], [3, 2, 1]);
  }

  /** Linking 6 below 4 joins 6 and 1 again. */
  method Rejoin(t: LinkCutTree) returns (c2: bool)
    requires At(t, [0, 2, 3, 0, 3, 0, 5, 2], [0, 1, 2, 30, 4, 5, 6, 7])
    modifies t
    ensures At(t, [0, 2, 3, 0, 3, 6, 4, 2], [0, 1, 2, 30, 4, 5, 6, 7])
    ensures c2
  {
    RejoinPlan();
    LinkVia(t, 6, 4, [5, 6], [0, 2, 3, 0, 3, 6, 0, 2], [3, 4]);
    c2 := ConnectedVia(t, 6, 1, [3, 4, 6], [3, 2, 1]);
  }

  /** The path sums 1–4 and 6–7, before and after node 3 takes the value 30. */
  method Sums(t: LinkCutTree) returns (s1: int, s2: int, s3: int, s4: int)
    requires At(t, [0, 2, 7, 2, 3, 3, 5, 0], [0, 1, 2, 3, 4, 5, 6, 7])
    modifies t
    ensures At(t, [0, 2, 3, 5, 3, 6, 0, 2], [0, 1, 2, 30, 4, 5, 6, 7])
    ensures s1 == 10 && s2 == 23 && s3 == 37 && s4 == 50
  {
    s1 := FirstSumOneFour(t);
    s2 := SumSixSeven(t, [0, 1, 2, 3, 4, 5, 6, 7]);
    SetThree(t);
    s3 := SecondSumOneFour(t);
    s4 := SumSixSeven(t, [0, 1, 2, 30, 4, 5, 6, 7]);
  }

  /** The path sum 6–1 once 6 hangs below 4, which reroots at 6. */
  method SumSixOne(t: LinkCutTree) returns (s: int)
    requires At(t, [0, 2, 3, 0, 3, 6, 4, 2], [0, 1, 2, 30, 4, 5, 6, 7])
    modifies t
    ensures s == 43
  {
    SumSixOnePlan();
    s := PathSumVia(t, 6, 1, [3, 4, 6], [0, 2, 3, 4, 6, 6, 0, 2], [6, 4, 3, 2, 1]);
    SumSixOneIs(t.val);
  }

  /** The run of the example: the path sums are 10 and 23, then 37 and 50
      once node 3 holds 30; cutting 3–5 separates 6 from 1, linking 6 below
      4 joins them again, and the path from 6 to 1 then sums to 43. */
  method Example() returns (s1: int, s2: int, s3: int, s4: int, c1: bool, c2: bool, s5: int)
    ensures s1 == 10 && s2 == 23 && s3 == 37 && s4 == 50
    ensures !c1 && c2 && s5 == 43
  {
    var t := Build();
    Grow(t);
    Complete(t);
    s1, s2, s3, s4 := Sums(t);
    c1 := Split(t);
    c2 := Rejoin(t);
    s5 := SumSixOne(t);
  }
}
