/**
 Paths, dominance and dominance frontiers of a control flow graph, by their textbook definitions,
 and the fact phi placement rests on: where a live variable needs no phi, every path to the block
 meets the same last definition of it.
 */
module Dominance {
  import opened Options
  import opened Ir

  ghost predicate IsPath(p: Program, path: seq<Node>) {
    && path != []
    && forall i :: 0 <= i < |path| - 1 ==> (path[i], path[i + 1]) in p.edges
  }

  ghost predicate PathTo(p: Program, path: seq<Node>, b: Node) {
    IsPath(p, path) && path[0] == p.root && path[|path| - 1] == b
  }

  ghost predicate Reachable(p: Program, b: Node) {
    exists path :: PathTo(p, path, b)
  }

  ghost predicate Dominates(p: Program, d: Node, b: Node) {
    forall path :: PathTo(p, path, b) ==> d in path
  }

  ghost predicate StrictlyDominates(p: Program, d: Node, b: Node) {
    d != b && Dominates(p, d, b)
  }

  /** `y` is where the dominance of `x` ends: `x` dominates a predecessor of `y` but not strictly `y`. */
  ghost predicate InFrontier(p: Program, x: Node, y: Node) {
    && !StrictlyDominates(p, x, y)
    && exists pred :: (pred, y) in p.edges && Reachable(p, pred) && Dominates(p, x, pred)
  }

  lemma PathPrefix(p: Program, path: seq<Node>, b: Node, n: nat)
    requires PathTo(p, path, b) && 0 < n <= |path|
    ensures PathTo(p, path[..n], path[n - 1])
  {
  }

  lemma PathExtend(p: Program, path: seq<Node>, b: Node, t: Node)
    requires PathTo(p, path, b) && (b, t) in p.edges
    ensures PathTo(p, path + [t], t)
  {
    var q := path + [t];
    forall i | 0 <= i < |q| - 1
      ensures (q[i], q[i + 1]) in p.edges
    {
      if i == |path| - 1 {
        assert q[i] == b && q[i + 1] == t;
      } else {
        assert q[i] == path[i] && q[i + 1] == path[i + 1];
      }
    }
  }

  lemma ReachableNext(p: Program, b: Node, t: Node)
    requires Reachable(p, b) && (b, t) in p.edges
    ensures Reachable(p, t)
  {
    var path :| PathTo(p, path, b);
    PathExtend(p, path, b, t);
  }

  /** Two paths that meet can be spliced at the meeting point. */
  lemma Splice(p: Program, first: seq<Node>, b: Node, f: nat, second: seq<Node>, i: nat, t: Node)
    requires PathTo(p, first, b) && PathTo(p, second, t)
    requires f < |first| && i < |second| && first[f] == second[i]
    ensures PathTo(p, first[..f] + second[i..], t)
  {
    var q := first[..f] + second[i..];
    forall k | 0 <= k < |q| - 1
      ensures (q[k], q[k + 1]) in p.edges
    {
      if k < f {
        assert q[k] == first[k] && q[k + 1] == first[k + 1];
      } else {
        assert q[k] == second[i + (k - f)] && q[k + 1] == second[i + (k - f) + 1];
      }
    }
  }

  /** Two different blocks cannot each be avoided after the other on the way to a block both dominate. */
  lemma DominatorsAreOrdered(p: Program, t: Node, x: Node, y: Node, left: seq<Node>, i: nat, right: seq<Node>, j: nat)
    requires Dominates(p, x, t) && Dominates(p, y, t)
    requires PathTo(p, left, t) && i < |left| && left[i] == x && y !in left[i + 1..]
    requires PathTo(p, right, t) && j < |right| && right[j] == y && x !in right[j + 1..]
    ensures x == y
  {
    if x != y {
      var f := 0;
      while right[f] != x && right[f] != y
        invariant f <= j
        invariant x !in right[..f] && y !in right[..f]
        decreases j - f
      {
        f := f + 1;
      }
      if right[f] == y {
        Splice(p, right, t, f, right, j, t);  // a path to t that avoids x
      } else {
        Splice(p, right, t, f, left, i, t);  // a path to t that avoids y
      }
    }
  }

  // ---------------------------------------------------------------------------------------
  // Last definitions
  // ---------------------------------------------------------------------------------------

  /** Where one variable is written, is live on entry, and has a phi. */
  datatype VarSites = VarSites(writes: set<Node>, live: set<Node>, phis: set<Node>) {
    ghost function Definers(): set<Node> {
      writes + phis
    }
  }

  /** Liveness flows backwards through reachable blocks that do not write the variable. */
  ghost predicate LiveFlowsBack(p: Program, v: VarSites) {
    forall e :: e in p.edges && Reachable(p, e.0) && e.1 in v.live && e.0 !in v.writes ==> e.0 in v.live
  }

  /** Every live frontier block of a definition has a phi. */
  ghost predicate PhisCoverFrontiers(p: Program, v: VarSites) {
    forall x, y ::
      && (x in v.writes || (x in v.phis && x in v.live)) && InFrontier(p, x, y) && y in v.live && Reachable(p, x)
      ==> y in v.phis
  }

  /** The index of the last element of `s` in `d`, or -1. */
  ghost function LastIn(s: seq<Node>, d: set<Node>): (i: int)
    ensures -1 <= i < |s|
    ensures i >= 0 ==> s[i] in d
    ensures forall k :: i < k < |s| ==> s[k] !in d
  {
    if s == [] then -1
    else if s[|s| - 1] in d then |s| - 1
    else LastIn(s[..|s| - 1], d)
  }

  /** The block that last defines the variable along `path`, if any. */
  ghost function LastDefinition(path: seq<Node>, v: VarSites): Option<Node> {
    var i := LastIn(path, v.Definers());
    if i < 0 then None else Some(path[i])
  }

  lemma {:induction false} LiveAlong(p: Program, v: VarSites, path: seq<Node>, t: Node, j: nat)
    requires PathTo(p, path, t) && j < |path| && t in v.live && LiveFlowsBack(p, v)
    requires forall k :: j <= k < |path| - 1 ==> path[k] !in v.writes
    ensures path[j] in v.live
    decreases |path| - j
  {
    if j < |path| - 1 {
      LiveAlong(p, v, path, t, j + 1);
      PathPrefix(p, path, t, j + 1);
      assert (path[j], path[j + 1]) in p.edges;
    }
  }

  /** A path that leaves the region `q[i]` strictly dominates crosses the frontier of `q[i]`. */
  lemma FrontierCrossing(p: Program, q: seq<Node>, t: Node, i: nat) returns (j: nat)
    requires PathTo(p, q, t) && i < |q| - 1 && !StrictlyDominates(p, q[i], t)
    ensures i < j < |q| && InFrontier(p, q[i], q[j])
  {
    var x := q[i];
    j := i + 1;
    while StrictlyDominates(p, x, q[j])
      invariant i < j < |q|
      invariant j == i + 1 || StrictlyDominates(p, x, q[j - 1])
      decreases |q| - j
    {
      j := j + 1;
    }
    PathPrefix(p, q, t, j);
    assert (q[j - 1], q[j]) in p.edges;
    assert Dominates(p, x, q[j - 1]) by {
      assert forall r :: PathTo(p, r, x) ==> r[|r| - 1] == x;
    }
  }

  /** Where a live variable has no phi, its last definition on any path strictly dominates the block. */
  lemma LastDefinitionDominates(p: Program, v: VarSites, path: seq<Node>, b: Node, t: Node, i: nat)
    requires LiveFlowsBack(p, v) && PhisCoverFrontiers(p, v)
    requires PathTo(p, path, b) && (b, t) in p.edges
    requires t in v.live && t !in v.phis
    requires i < |path| && i == LastIn(path, v.Definers())
    ensures StrictlyDominates(p, path[i], t)
  {
    var q := path + [t];
    PathExtend(p, path, b, t);
    if !StrictlyDominates(p, q[i], t) {
      var j := FrontierCrossing(p, q, t, i);
      PathPrefix(p, q, t, i + 1);
      LiveAlong(p, v, q, t, j);
      if q[i] !in v.writes {
        LiveAlong(p, v, q, t, i);
      }
    }
  }

  /** All paths into a block without a phi agree on the last definition of a live variable. */
  lemma LastDefinitionIsUnique(p: Program, v: VarSites, left: seq<Node>, b: Node, right: seq<Node>, c: Node, t: Node)
    requires LiveFlowsBack(p, v) && PhisCoverFrontiers(p, v)
    requires PathTo(p, left, b) && (b, t) in p.edges
    requires PathTo(p, right, c) && (c, t) in p.edges
    requires t in v.live && t !in v.phis
    ensures LastDefinition(left, v) == LastDefinition(right, v)
  {
    var i, j := LastIn(left, v.Definers()), LastIn(right, v.Definers());
    var l, r := left + [t], right + [t];
    PathExtend(p, left, b, t);
    PathExtend(p, right, c, t);
    if i >= 0 {
      LastDefinitionDominates(p, v, left, b, t, i);
      assert left[i] in r;
      assert left[i] in right;
      assert j >= 0;
    }
    if j >= 0 {
      LastDefinitionDominates(p, v, right, c, t, j);
      assert right[j] in l;
      assert right[j] in left;
      assert i >= 0;
    }
    if i >= 0 && j >= 0 {
      var x, y := left[i], right[j];
      forall k | i + 1 <= k < |l|
        ensures l[k] == y ==> x == y
      {
        assert k < |left| ==> left[k] !in v.Definers();
        assert y in v.Definers() && y != t;
      }
      forall k | j + 1 <= k < |r|
        ensures r[k] == x ==> x == y
      {
        assert k < |right| ==> right[k] !in v.Definers();
        assert x in v.Definers() && x != t;
      }
      if x != y {
        DominatorsAreOrdered(p, t, x, y, l, i, r, j);
      }
    }
  }

  /** A path to `y` on which `x` does not occur before the end, if `x` does not strictly dominate `y`. */
  lemma WayAround(p: Program, x: Node, y: Node) returns (path: seq<Node>)
    requires Reachable(p, y) && !StrictlyDominates(p, x, y)
    ensures PathTo(p, path, y) && x !in path[..|path| - 1]
  {
    if x != y {
      path :| PathTo(p, path, y) && x !in path;
    } else {
      var any :| PathTo(p, any, y);
      var i := 0;
      while any[i] != y
        invariant i < |any| && y !in any[..i]
        decreases |any| - i
      {
        i := i + 1;
      }
      PathPrefix(p, any, y, i + 1);
      path := any[..i + 1];
      assert path[..|path| - 1] == any[..i];
    }
  }

  /** On the frontier of a definition two ways meet that come from different last definitions. */
  lemma FrontierMeetsTwo(p: Program, v: VarSites, x: Node, y: Node) returns (left: seq<Node>, right: seq<Node>)
    requires x in v.Definers() && InFrontier(p, x, y)
    ensures PathTo(p, left, y) && PathTo(p, right, y) && |left| > 1
    ensures LastDefinition(left[..|left| - 1], v).Some?
    ensures LastDefinition(left[..|left| - 1], v) != LastDefinition(right[..|right| - 1], v)
  {
    var pred: Node :| (pred, y) in p.edges && Reachable(p, pred) && Dominates(p, x, pred);
    var way :| PathTo(p, way, pred);
    PathExtend(p, way, pred, y);
    left := way + [y];
    assert left[..|left| - 1] == way;
    right := WayAround(p, x, y);
    var short := right[..|right| - 1];
    var i, j := LastIn(way, v.Definers()), LastIn(short, v.Definers());
    assert x in way;
    if j >= 0 && way[i] == short[j] {
      assert right[j] == short[j] && right[..j] == short[..j];
      Splice(p, right, y, j, way, i, pred);
    }
  }
}
