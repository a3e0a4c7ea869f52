/**
 Where phis are needed and when the code places enough of them. The code prunes phis by a liveness
 that ignores terminators; what it places suffices exactly if it covers the frontiers on which a
 variable is truly live.
 */
module PhiDemand {
  import opened Ir
  import opened Dominance
  import DomFrontiers
  import opened Liveness
  import opened PhiFrontiers
  import opened Version
  import opened SsaForm
  import opened SsaCorrect
  import opened SsaTransform

  /** The textbook live sets of the tracked variables. */
  ghost function TrueLive(p: Program): LiveVars {
    map b: Node | b in NodeIds(p) :: set v: Id | v in p.variables && TrulyLiveIn(p, b, v)
  }

  /** A block with a phi for `v` once phis are placed at `s`. */
  ghost predicate Merges(p: Program, v: Id, s: set<Node>, b: Node) {
    b < |p.blocks| && (b in s || HasPhi(p.blocks[b], v))
  }

  /** Phis at `s` cover what needs one: every truly live frontier of a write or of a truly live phi. */
  ghost predicate Covers(p: Program, v: Id, s: set<Node>) {
    forall x: Node, y: Node ::
      && InFrontier(p, x, y) && TrulyLiveIn(p, y, v) && x < |p.blocks|
      && (Killed(p.blocks[x].ops, v) || (Merges(p, v, s, x) && TrulyLiveIn(p, x, v)))
      ==> Merges(p, v, s, y)
  }

  /** Closed under the frontiers on which `v` is live for the reads of instructions. */
  ghost predicate FoundClosed(p: Program, v: Id, s: set<Node>) {
    forall x: Node, y: Node ::
      InFrontier(p, x, y) && LiveIn(p, y, v) && ((x < |p.blocks| && Killed(p.blocks[x].ops, v)) || x in s) ==> y in s
  }

  /** What placement finds for `v`, in terms of the graph alone. */
  ghost predicate FoundLeast(p: Program, v: Id, s: set<Node>) {
    FoundClosed(p, v, s) && forall t: set<Node> :: FoundClosed(p, v, t) ==> s <= t
  }

  /** The phis the code places suffice. */
  ghost predicate PhisSuffice(p: Program) {
    forall v: Id, s: set<Node> :: v in p.variables && FoundLeast(p, v, s) ==> Covers(p, v, s)
  }

  // ---------------------------------------------------------------------------------------
  // Placement in terms of the graph
  // ---------------------------------------------------------------------------------------

  lemma FrontierIsInside(p: Program, x: Node, y: Node)
    requires ValidGraph(p) && InFrontier(p, x, y)
    ensures x < |p.blocks| && y < |p.blocks| && Reachable(p, x) && Reachable(p, y)
  {
    DomFrontiers.FrontierOfReachable(p, x, y);
    DomFrontiers.ReachableIsBlock(p, x);
    DomFrontiers.ReachableIsBlock(p, y);
  }

  lemma ClosedIsFoundClosed(p: Program, a: Analyses, v: Id, s: set<Node>)
    requires ValidGraph(p) && AnalysesExact(p, a)
    ensures PhiClosed(a, v, s) <==> FoundClosed(p, v, s)
  {
    forall x: Node, y: Node
      ensures LiveFrontier(a, v, x, y) <==> InFrontier(p, x, y) && LiveIn(p, y, v)
      ensures InFrontier(p, x, y) ==> (Writes(a, v, x) <==> x < |p.blocks| && Killed(p.blocks[x].ops, v))
    {
      if InFrontier(p, x, y) {
        FrontierIsInside(p, x, y);
      }
    }
    if PhiClosed(a, v, s) {
      forall x: Node, y: Node | InFrontier(p, x, y) && LiveIn(p, y, v) &&
        ((x < |p.blocks| && Killed(p.blocks[x].ops, v)) || x in s)
        ensures y in s
      {
        assert LiveFrontier(a, v, x, y);
      }
    }
    if FoundClosed(p, v, s) {
      forall x: Node, y: Node | (Writes(a, v, x) || x in s) && LiveFrontier(a, v, x, y)
        ensures y in s
      {
        assert InFrontier(p, x, y);
      }
    }
  }

  /** The code's sites are what the graph says. */
  lemma SitesAreFound(p: Program, a: Analyses, v: Id, s: set<Node>)
    requires ValidGraph(p) && AnalysesExact(p, a) && LeastPhiClosed(a, v, s)
    ensures FoundLeast(p, v, s)
  {
    ClosedIsFoundClosed(p, a, v, s);
    forall t: set<Node> | FoundClosed(p, v, t)
      ensures s <= t
    {
      ClosedIsFoundClosed(p, a, v, t);
    }
  }

  // ---------------------------------------------------------------------------------------
  // Covering placement supports the renaming
  // ---------------------------------------------------------------------------------------

  lemma TrueLiveOn(p: Program, b: Node, v: Id)
    requires b < |p.blocks| && v in p.variables
    ensures LiveOn(TrueLive(p), b, v) <==> TrulyLiveIn(p, b, v)
  {
  }

  lemma TrueLiveSupportsAt(p: Program, q: Program, placed: map<Id, set<Node>>, b: Node, v: Id)
    requires ValidGraph(p) && Placed(p, q, placed) && b < |p.blocks| && v in p.variables
    ensures SupportedAt(q, TrueLive(p), b, v)
  {
    PlacedBlock(p, q, placed, b);
    TrueLiveOn(p, b, v);
    if Exposed(p.blocks[b].ops, v) {
      ExposedIsLive(p, b, v);
      LiveIsTrulyLive(p, b, v);
    }
    if ReadByTerminator(p, b, v) && !Killed(p.blocks[b].ops, v) {
      assert ClearUntilEnd(p, [b], v) && UsedAtEnd(p, [b], v) && [b][0] == b;
    }
    forall t: Node | (b, t) in q.edges && LiveOn(TrueLive(p), t, v)
      ensures LiveOn(TrueLive(p), b, v) || Killed(q.blocks[b].ops, v)
    {
      TrueLiveOn(p, t, v);
      if !Killed(p.blocks[b].ops, v) {
        TrulyLiveInStep(p, b, t, v);
      }
    }
  }

  lemma CoverFrontiers(p: Program, q: Program, placed: map<Id, set<Node>>, v: Id)
    requires ValidGraph(p) && Placed(p, q, placed) && placed.Keys == p.variables && v in p.variables
    requires Covers(p, v, placed[v])
    ensures PhisCoverFrontiers(q, SitesOf(q, TrueLive(p), v))
  {
    SameGraph(p, q);
    var sites := SitesOf(q, TrueLive(p), v);
    forall x: Node, y: Node | (x in sites.writes || (x in sites.phis && x in sites.live)) && InFrontier(q, x, y) &&
      y in sites.live && Reachable(q, x)
      ensures y in sites.phis
    {
      PlacedBlock(p, q, placed, x);
      PhiSites(p, q, placed, x, v);
      PhiSites(p, q, placed, y, v);
      TrueLiveOn(p, x, v);
      TrueLiveOn(p, y, v);
      assert InFrontier(p, x, y);
    }
  }

  lemma CoverIsReady(p: Program, q: Program, placed: map<Id, set<Node>>)
    requires ValidGraph(p) && Placed(p, q, placed) && placed.Keys == p.variables
    requires forall v: Id :: v in placed ==> Covers(p, v, placed[v])
    ensures LiveSupports(q, TrueLive(p)) && PhisPlaced(q, TrueLive(p))
  {
    forall b: Node, v: Id | b < |q.blocks| && Reachable(q, b) && v in q.variables
      ensures SupportedAt(q, TrueLive(p), b, v)
    {
      TrueLiveSupportsAt(p, q, placed, b, v);
    }
    forall v: Id | v in q.variables
      ensures LiveFlowsBack(q, SitesOf(q, TrueLive(p), v)) && PhisCoverFrontiers(q, SitesOf(q, TrueLive(p), v))
    {
      CoverFrontiers(p, q, placed, v);
      var sites := SitesOf(q, TrueLive(p), v);
      forall e | e in q.edges && Reachable(q, e.0) && e.1 in sites.live && e.0 !in sites.writes
        ensures e.0 in sites.live
      {
        assert (e.0, e.1) in q.edges;
        TrueLiveSupportsAt(p, q, placed, e.0, v);
      }
    }
  }

  // ---------------------------------------------------------------------------------------
  // When phis suffice
  // ---------------------------------------------------------------------------------------

  /** A phi present before placement sits on the frontier of a write, where placement wants one anyway. */
  ghost predicate ExistingPhisAreDue(p: Program) {
    forall b: Node, v: Id ::
      b < |p.blocks| && Reachable(p, b) && v in p.variables && HasPhi(p.blocks[b], v) ==> DueAt(p, b, v)
  }

  ghost predicate DueAt(p: Program, b: Node, v: Id) {
    exists x: Node :: x < |p.blocks| && Killed(p.blocks[x].ops, v) && InFrontier(p, x, b)
  }

  /** A set closed under the truly live frontiers of writes and of its members covers. */
  lemma ClosedCovers(p: Program, v: Id, s: set<Node>)
    requires ValidGraph(p) && ExistingPhisAreDue(p) && v in p.variables
    requires forall x: Node, y: Node ::
               && InFrontier(p, x, y) && TrulyLiveIn(p, y, v)
               && ((x < |p.blocks| && Killed(p.blocks[x].ops, v)) || x in s)
               ==> y in s
    ensures Covers(p, v, s)
  {
    forall x: Node | x < |p.blocks| && Reachable(p, x) && HasPhi(p.blocks[x], v) && TrulyLiveIn(p, x, v)
      ensures x in s
    {
      var w: Node :| w < |p.blocks| && Killed(p.blocks[w].ops, v) && InFrontier(p, w, x);
    }
    forall x: Node, y: Node |
      && InFrontier(p, x, y) && TrulyLiveIn(p, y, v) && x < |p.blocks|
      && (Killed(p.blocks[x].ops, v) || (Merges(p, v, s, x) && TrulyLiveIn(p, x, v)))
      ensures Merges(p, v, s, y)
    {
      FrontierIsInside(p, x, y);
    }
  }

  /** If the analysis covers what terminators read, the phis suffice. */
  lemma CoveredTerminatorsSuffice(p: Program, live: LiveVars)
    requires ValidGraph(p) && ExistingPhisAreDue(p) && Exact(p, live) && TerminatorsCovered(p, live)
    ensures PhisSuffice(p)
  {
    LivenessIsTrueIffTerminatorsCovered(p, live);
    forall v: Id, s: set<Node> | v in p.variables && FoundLeast(p, v, s)
      ensures Covers(p, v, s)
    {
      forall x: Node, y: Node | InFrontier(p, x, y) && TrulyLiveIn(p, y, v) &&
        ((x < |p.blocks| && Killed(p.blocks[x].ops, v)) || x in s)
        ensures y in s
      {
        FrontierIsInside(p, x, y);
        assert y in live;
      }
      ClosedCovers(p, v, s);
    }
  }

  // ---------------------------------------------------------------------------------------
  // The transform preserves runs
  // ---------------------------------------------------------------------------------------

  /**
   Wherever phis were placed, if they cover what needs one, the renamed program runs step for step
   like the original.
   */
  lemma CoveredRunsAgree(p: Program, q: Program, e: Evidence, o: Oracle, st: State, st': State, n: nat)
    requires TransformInput(p) && PlacedAndRenamed(p, q, e) && InitialStates(p, st, st')
    requires forall v: Id :: v in e.sites ==> Covers(p, v, e.sites[v])
    ensures Agree(e.placed, e.marks, TrueLive(p), Run(p, o, At(p.root, 0, st), n), Run(q, o, At(q.root, 0, st'), n))
  {
    PlacedPhisAreTrivial(p, e.placed, e.sites);
    PlacementIsWellFormed(p, e.placed, e.sites, e.a);
    CoverIsReady(p, e.placed, e.sites);
    SsaPreservesRuns(e.placed, e.now, e.marks, e.max, TrueLive(p), o, st, st', n);
    PlacementKeepsRuns(p, e.placed, e.sites, o, At(p.root, 0, st), n);
  }

  /**
   Main theorem: if the phis the code places suffice, the transformed program runs step for step like
   the original, and the current version of every variable that is truly live holds its value.
   */
  lemma TransformPreservesRuns(p: Program, q: Program, e: Evidence, o: Oracle, st: State, st': State, n: nat)
    requires TransformInput(p) && Transformed(p, q, e) && PhisSuffice(p) && InitialStates(p, st, st')
    ensures Agree(e.placed, e.marks, TrueLive(p), Run(p, o, At(p.root, 0, st), n), Run(q, o, At(q.root, 0, st'), n))
  {
    forall v: Id | v in e.sites
      ensures Covers(p, v, e.sites[v])
    {
      SitesAreFound(p, e.a, v, e.sites[v]);
    }
    CoveredRunsAgree(p, q, e, o, st, st', n);
  }

  /** The analysis with the textbook liveness, which counts the reads of terminators. */
  ghost predicate TextbookAnalyses(p: Program, a: Analyses) {
    && GraphAnalyses(p, a) && a.live.Keys == NodeIds(p)
    && forall b: Node, v: Id :: b in a.live && Reachable(p, b) ==> (v in a.live[b] <==> TrulyLiveIn(p, b, v))
  }

  /** With textbook liveness, placement and renaming preserve every run of every program. */
  lemma TextbookLivenessPreservesRuns(p: Program, q: Program, e: Evidence, o: Oracle, st: State, st': State, n: nat)
    requires TransformInput(p) && ExistingPhisAreDue(p) && InitialStates(p, st, st')
    requires TextbookAnalyses(p, e.a) && PlacedAndRenamed(p, q, e)
    ensures Agree(e.placed, e.marks, TrueLive(p), Run(p, o, At(p.root, 0, st), n), Run(q, o, At(q.root, 0, st'), n))
  {
    forall v: Id | v in e.sites
      ensures Covers(p, v, e.sites[v])
    {
      forall x: Node, y: Node |
        InFrontier(p, x, y) && TrulyLiveIn(p, y, v) &&
          ((x < |p.blocks| && Killed(p.blocks[x].ops, v)) || x in e.sites[v])
        ensures y in e.sites[v]
      {
        FrontierIsInside(p, x, y);
        assert LiveFrontier(e.a, v, x, y);
        assert Killed(p.blocks[x].ops, v) ==> Writes(e.a, v, x);
      }
      ClosedCovers(p, v, e.sites[v]);
    }
    CoveredRunsAgree(p, q, e, o, st, st', n);
  }

  /** Graph and SSA program stop together, in states that differ only in tracked variables. */
  ghost predicate SsaFollowsGraph(p: Program, q: Program, o: Oracle, st: State, st': State) {
    forall mid: State :: Halts(p, o, st, mid) ==>
      exists final: State ::
        Halts(q, o, st', final) && final.trace == mid.trace && SameUntracked(p.variables, mid.store, final.store)
  }

  ghost predicate GraphFollowsSsa(p: Program, q: Program, o: Oracle, st: State, st': State) {
    forall final: State :: Halts(q, o, st', final) ==>
      exists mid: State ::
        Halts(p, o, st, mid) && final.trace == mid.trace && SameUntracked(p.variables, mid.store, final.store)
  }

  /** The two programs stop together, having done the same operations. */
  lemma TransformPreservesHalting(p: Program, q: Program, e: Evidence, o: Oracle, st: State, st': State)
    requires TransformInput(p) && Transformed(p, q, e) && PhisSuffice(p) && InitialStates(p, st, st')
    ensures SsaFollowsGraph(p, q, o, st, st') && GraphFollowsSsa(p, q, o, st, st')
  {
    forall mid: State | Halts(p, o, st, mid)
      ensures exists final: State ::
              Halts(q, o, st', final) && final.trace == mid.trace && SameUntracked(p.variables, mid.store, final.store)
    {
      var n: nat :| Run(p, o, At(p.root, 0, st), n) == Halted(mid);
      TransformPreservesRuns(p, q, e, o, st, st', n);
      var final := Run(q, o, At(q.root, 0, st'), n).st;
      assert Halts(q, o, st', final);
    }
    forall final: State | Halts(q, o, st', final)
      ensures exists mid: State ::
              Halts(p, o, st, mid) && final.trace == mid.trace && SameUntracked(p.variables, mid.store, final.store)
    {
      var n: nat :| Run(q, o, At(q.root, 0, st'), n) == Halted(final);
      TransformPreservesRuns(p, q, e, o, st, st', n);
      var mid := Run(p, o, At(p.root, 0, st), n).st;
      assert Halts(p, o, st, mid);
    }
  }
}
