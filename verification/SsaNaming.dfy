/**
 The exact reach of the transform: a use names the version defined last on every way to it if and
 only if the phis the code places suffice.
 */
module SsaNaming {
  import opened Options
  import opened Ir
  import opened Dominance
  import DomFrontiers
  import opened Liveness
  import opened Naming
  import opened Version
  import opened Renaming
  import opened SsaForm
  import opened SsaCorrect
  import opened SsaTransform
  import opened PhiDemand

  /** The version of `v` that is defined last along `path`, 0 if none is. */
  ghost function VersionAlong(p: Program, e: Evidence, path: seq<Node>, v: Id): nat {
    match LastDefinition(path, SitesOf(e.placed, TrueLive(p), v))
    case None => 0
    case Some(x) => if x in e.marks && v in e.marks[x].end.cur then e.marks[x].end.cur[v] else 0
  }

  /** Along `path` a block without a phi for `v` starts with the version defined last. */
  ghost predicate NamedAlong(p: Program, e: Evidence, path: seq<Node>, b: Node, v: Id) {
    b in e.marks && v in e.marks[b].start.cur && path != []
    && e.marks[b].start.cur[v] == VersionAlong(p, e, path[..|path| - 1], v)
  }

  /** Every truly live variable is named right on every way to every block; where there is a phi, it merges. */
  ghost predicate NamingIsRight(p: Program, e: Evidence) {
    forall path: seq<Node>, b: Node, v: Id ::
      PathTo(p, path, b) && b < |e.placed.blocks| && v in p.variables && TrulyLiveIn(p, b, v) &&
        !HasPhi(e.placed.blocks[b], v)
      ==> NamedAlong(p, e, path, b, v)
  }

  // ---------------------------------------------------------------------------------------
  // Enough phis: every name is right
  // ---------------------------------------------------------------------------------------

  lemma NamedWherePhisCover(p: Program, q: Program, e: Evidence, path: seq<Node>, b: Node, v: Id)
    requires TransformInput(p) && PlacedAndRenamed(p, q, e) && forall u: Id :: u in e.sites ==> Covers(p, u, e.sites[u])
    requires PathTo(p, path, b) && b < |e.placed.blocks| && v in p.variables && TrulyLiveIn(p, b, v)
    requires !HasPhi(e.placed.blocks[b], v)
    ensures NamedAlong(p, e, path, b, v)
  {
    var orig, marks, live := e.placed, e.marks, TrueLive(p);
    var sites := SitesOf(orig, live, v);
    PlacementIsWellFormed(p, orig, e.sites, e.a);
    CoverIsReady(p, orig, e.sites);
    SameGraph(p, orig);
    ReachableIsMarked(orig, e.now, marks, e.max, b);
    assert MarkedChild(orig, marks, b) && MarkedBlock(orig, e.now, marks, b);
    if |path| == 1 {
      assert path[..0] == [] && b == p.root;
    } else {
      var s, way, parent := path[|path| - 2], path[..|path| - 1], marks[b].parent;
      PathPrefix(p, path, b, |path| - 1);
      assert (path[|path| - 2], path[|path| - 2 + 1]) in p.edges;
      TreePathIsPath(orig, marks, parent);
      TrueLiveOn(p, b, v);
      LastDefinitionIsUnique(orig, sites, way, s, TreePath(orig, marks, parent), parent, b);
      VersionFollowsTree(orig, e.now, marks, e.max, live, parent, v);
    }
  }

  // ---------------------------------------------------------------------------------------
  // Right names: enough phis
  // ---------------------------------------------------------------------------------------

  /** After a list of writes to `v` its version is its newest. */
  lemma {:induction false} NewestVersion(vars: set<Id>, ids: seq<Option<Id>>, n: Names, v: Id)
    requires NamesFor(vars, n) && v in vars && Some(v) in ids
    requires forall k :: 0 <= k < |ids| && ids[k].Some? ==> ids[k].value in vars
    ensures var r := AfterWrites(vars, ids, n); r.cur[v] == Wrap(r.max[v]) && r.max[v] > n.max[v]
  {
    var last := |ids| - 1;
    if ids[last] != Some(v) {
      assert Some(v) in ids[..last];
      NewestVersion(vars, ids[..last], n, v);
    }
  }

  lemma DefinerIds(vars: set<Id>, block: BasicBlock, v: Id)
    requires v in vars && (HasPhi(block, v) || Killed(block.ops, v))
    ensures Some(v) in DefinedIds(vars, block)
  {
    var phis, ops := PhiIds(vars, block.phis), OpIds(vars, block.ops);
    if HasPhi(block, v) {
      var i :| 0 <= i < |block.phis| && block.phis[i].out.Versioned? && block.phis[i].out.id == v;
      assert (phis + ops)[i] == phis[i] == Some(v);
    } else {
      var i :| 0 <= i < |block.ops| && WritesLocal(block.ops[i], v);
      assert (phis + ops)[|phis| + i] == ops[i] == Some(v);
    }
  }

  /** A block that defines `v` ends with a version of its own. */
  lemma DefinerEnds(orig: Program, now: Program, marks: map<Node, Mark>, b: Node, v: Id)
    requires b in marks && MarkedBlock(orig, now, marks, b) && v in orig.variables
    requires HasPhi(orig.blocks[b], v) || Killed(orig.blocks[b].ops, v)
    ensures NamesFor(orig.variables, marks[b].end)
    ensures marks[b].end.cur[v] == Wrap(marks[b].end.max[v]) && marks[b].end.max[v] > marks[b].start.max[v]
  {
    var vars, block, start := orig.variables, orig.blocks[b], marks[b].start;
    DefinerIds(vars, block, v);
    AfterWritesConcat(vars, PhiIds(vars, block.phis), OpIds(vars, block.ops), start);
    NewestVersion(vars, DefinedIds(vars, block), start, v);
  }

  /** Different definers end with different versions, none of them 0. */
  lemma DefinersDiffer(orig: Program, now: Program, marks: map<Node, Mark>, max: Versions, b: Node, c: Node, v: Id)
    requires IsSsaForm(orig, now, marks, max) && v in orig.variables && max[v] < U16
    requires b in marks && b < |orig.blocks| && (HasPhi(orig.blocks[b], v) || Killed(orig.blocks[b].ops, v))
    requires c in marks && c < |orig.blocks| && (HasPhi(orig.blocks[c], v) || Killed(orig.blocks[c].ops, v))
    ensures v in marks[b].end.cur && v in marks[c].end.cur
    ensures marks[b].end.cur[v] > 0 && (marks[b].end.cur[v] == marks[c].end.cur[v] ==> b == c)
  {
    DefinerRange(orig, now, marks, max, b, v);
    DefinerRange(orig, now, marks, max, c, v);
    assert PairApart(orig.variables, marks, b, c);
  }

  /** The version a definer ends with lies in the range of numbers its block was given. */
  lemma DefinerRange(orig: Program, now: Program, marks: map<Node, Mark>, max: Versions, b: Node, v: Id)
    requires IsSsaForm(orig, now, marks, max) && v in orig.variables && max[v] < U16
    requires b in marks && b < |orig.blocks| && (HasPhi(orig.blocks[b], v) || Killed(orig.blocks[b].ops, v))
    ensures NamesFor(orig.variables, marks[b].start) && NamesFor(orig.variables, marks[b].end)
    ensures marks[b].start.max[v] < marks[b].end.cur[v] == marks[b].end.max[v]
  {
    assert MarkedBlock(orig, now, marks, b) && CounterBelow(orig.variables, marks, max, b);
    DefinerEnds(orig, now, marks, b, v);
  }

  /** Where every name is right, a frontier block on which the variable is truly live has a phi. */
  lemma RightNamesMerge(p: Program, q: Program, e: Evidence, v: Id, x: Node, y: Node)
    requires TransformInput(p) && PlacedAndRenamed(p, q, e) && NamingIsRight(p, e) && v in p.variables && e.max[v] < U16
    requires InFrontier(p, x, y) && TrulyLiveIn(p, y, v)
    requires x < |p.blocks| && (Killed(p.blocks[x].ops, v) || Merges(p, v, e.sites[v], x))
    ensures Merges(p, v, e.sites[v], y)
  {
    var orig := e.placed;
    var sites := SitesOf(orig, TrueLive(p), v);
    FrontierIsInside(p, x, y);
    SameGraph(p, orig);
    PlacedBlock(p, orig, e.sites, x);
    PhiSites(p, orig, e.sites, x, v);
    PhiSites(p, orig, e.sites, y, v);
    if !HasPhi(orig.blocks[y], v) {
      var left, right := FrontierMeetsTwo(p, sites, x, y);
      SameNameSameDefinition(p, q, e, left, right, y, v);
    }
  }

  /** Ways along which a block is named right come from the same last definition. */
  lemma SameNameSameDefinition(p: Program, q: Program, e: Evidence, left: seq<Node>, right: seq<Node>, y: Node, v: Id)
    requires TransformInput(p) && PlacedAndRenamed(p, q, e) && v in p.variables && e.max[v] < U16
    requires PathTo(p, left, y) && PathTo(p, right, y) && NamedAlong(p, e, left, y, v) && NamedAlong(p, e, right, y, v)
    requires LastDefinition(left[..|left| - 1], SitesOf(e.placed, TrueLive(p), v)).Some?
    ensures var sites := SitesOf(e.placed, TrueLive(p), v);
            LastDefinition(left[..|left| - 1], sites) == LastDefinition(right[..|right| - 1], sites)
  {
    var sites := SitesOf(e.placed, TrueLive(p), v);
    DefinedOnWay(p, q, e, left, y, v);
    DefinedOnWay(p, q, e, right, y, v);
    var d, d' := LastDefinition(left[..|left| - 1], sites).value, LastDefinition(right[..|right| - 1], sites);
    DefinersDiffer(e.placed, e.now, e.marks, e.max, d, if d'.Some? then d'.value else d, v);
  }

  lemma LastDefinitionIsReachable(p: Program, path: seq<Node>, b: Node, sites: VarSites)
    requires PathTo(p, path, b)
    ensures var d := LastDefinition(path[..|path| - 1], sites);
            d.Some? ==> Reachable(p, d.value) && d.value in sites.Definers()
  {
    var way := path[..|path| - 1];
    var i := LastIn(way, sites.Definers());
    if i >= 0 {
      PathPrefix(p, path, b, i + 1);
    }
  }

  /** The last definition on a way is a marked block that defines the variable. */
  lemma DefinedOnWay(p: Program, q: Program, e: Evidence, path: seq<Node>, b: Node, v: Id)
    requires TransformInput(p) && PlacedAndRenamed(p, q, e) && PathTo(p, path, b)
    ensures var d := LastDefinition(path[..|path| - 1], SitesOf(e.placed, TrueLive(p), v));
            d.Some? ==> d.value in e.marks && d.value < |e.placed.blocks|
                        && (HasPhi(e.placed.blocks[d.value], v) || Killed(e.placed.blocks[d.value].ops, v))
  {
    assert IsPath(e.placed, path);
    var sites := SitesOf(e.placed, TrueLive(p), v);
    LastDefinitionIsReachable(e.placed, path, b, sites);
    var d := LastDefinition(path[..|path| - 1], sites);
    if d.Some? {
      ReachableIsMarked(e.placed, e.now, e.marks, e.max, d.value);
    }
  }

  /**
   As long as the 16-bit counters do not overflow: every truly live variable is named right on every
   way to every block if and only if the phis the code places suffice.
   */
  lemma NamingIsRightIffPhisSuffice(p: Program, q: Program, e: Evidence)
    requires TransformInput(p) && Transformed(p, q, e)
    requires forall v: Id :: v in p.variables ==> v in e.max && e.max[v] < U16
    ensures NamingIsRight(p, e) <==> PhisSuffice(p)
  {
    if PhisSuffice(p) {
      forall v: Id | v in e.sites
        ensures Covers(p, v, e.sites[v])
      {
        SitesAreFound(p, e.a, v, e.sites[v]);
      }
      forall path: seq<Node>, b: Node, v: Id |
        PathTo(p, path, b) && b < |e.placed.blocks| && v in p.variables && TrulyLiveIn(p, b, v) &&
          !HasPhi(e.placed.blocks[b], v)
        ensures NamedAlong(p, e, path, b, v)
      {
        NamedWherePhisCover(p, q, e, path, b, v);
      }
    }
    if NamingIsRight(p, e) {
      forall v: Id, s: set<Node> | v in p.variables && FoundLeast(p, v, s)
        ensures Covers(p, v, s)
      {
        SitesAreFound(p, e.a, v, e.sites[v]);
        assert s == e.sites[v];
        forall x: Node, y: Node |
          && InFrontier(p, x, y) && TrulyLiveIn(p, y, v) && x < |p.blocks|
          && (Killed(p.blocks[x].ops, v) || (Merges(p, v, s, x) && TrulyLiveIn(p, x, v)))
          ensures Merges(p, v, s, y)
        {
          RightNamesMerge(p, q, e, v, x, y);
        }
      }
    }
  }
}
