/** Placement of phi nodes on the live part of the iterated dominance frontier of every variable. */
module PhiFrontiers {
  import opened Ir
  import opened OptimizerState

  type Frontiers = map<Node, set<Node>>
  type VarSets = map<Node, set<Id>>

  /** Everything the placement reads besides the graph. */
  datatype Analyses = Analyses(writes: VarSets, live: VarSets, frontiers: Frontiers)

  ghost predicate Fits(p: Program, a: Analyses) {
    && a.writes.Keys == a.live.Keys == a.frontiers.Keys == NodeIds(p)
    && forall x: Node :: x in a.frontiers ==> a.frontiers[x] <= NodeIds(p)
  }

  ghost predicate Writes(a: Analyses, v: Id, x: Node) {
    x in a.writes && v in a.writes[x]
  }

  ghost predicate LiveFrontier(a: Analyses, v: Id, x: Node, y: Node) {
    x in a.frontiers && y in a.frontiers[x] && y in a.live && v in a.live[y]
  }

  /** Closed under the live frontiers of writers and of members. */
  ghost predicate PhiClosed(a: Analyses, v: Id, s: set<Node>) {
    forall x: Node, y: Node :: (Writes(a, v, x) || x in s) && LiveFrontier(a, v, x, y) ==> y in s
  }

  ghost predicate LeastPhiClosed(a: Analyses, v: Id, s: set<Node>) {
    PhiClosed(a, v, s) && forall t: set<Node> :: PhiClosed(a, v, t) ==> s <= t
  }

  /** The phis `added` to block `b` are one fresh phi for each variable placed there. */
  ghost predicate AddedPhis(p: Program, b: Node, added: seq<PhiInstruction>, placed: map<Id, set<Node>>) {
    && (forall i :: 0 <= i < |added| ==>
          added[i].out.Versioned? && IsFreshPhi(p, b, added[i].out.id, added[i])
          && added[i].out.id in placed && b in placed[added[i].out.id])
    && (forall v: Id :: v in placed && b in placed[v] ==> exists i ::
       0 <= i < |added| && added[i].out == Versioned(v, 0))
    && (forall i, j :: 0 <= i < j < |added| ==> added[i].out != added[j].out)
  }

  /** `q` is `p` with phis appended where `placed` says. */
  ghost predicate Placed(p: Program, q: Program, placed: map<Id, set<Node>>) {
    && q == p.(blocks := q.blocks) && |q.blocks| == |p.blocks|
    && forall b: Node :: b < |p.blocks| ==>
         && q.blocks[b] == p.blocks[b].(phis := q.blocks[b].phis)
         && p.blocks[b].phis <= q.blocks[b].phis
         && AddedPhis(p, b, q.blocks[b].phis[|p.blocks[b].phis|..], placed)
  }

  lemma PlaceOne(p: Program, q: Program, placed: map<Id, set<Node>>, v: Id, b: Node, phi: PhiInstruction)
    requires Placed(p, q, placed) && b < |p.blocks| && v in placed && b !in placed[v]
    requires IsFreshPhi(q, b, v, phi)
    ensures Placed(p, AddPhi(q, b, phi), placed[v := placed[v] + {b}])
  {
    var r, placed' := AddPhi(q, b, phi), placed[v := placed[v] + {b}];
    assert IsFreshPhi(p, b, v, phi);
    forall c: Node | c < |p.blocks|
      ensures p.blocks[c].phis <= r.blocks[c].phis
      ensures AddedPhis(p, c, r.blocks[c].phis[|p.blocks[c].phis|..], placed')
    {
      var n := |p.blocks[c].phis|;
      var before, after := q.blocks[c].phis[n..], r.blocks[c].phis[n..];
      if c == b {
        assert after == before + [phi];
        forall u: Id | u in placed' && c in placed'[u]
          ensures exists i :: 0 <= i < |after| && after[i].out == Versioned(u, 0)
        {
          if u == v {
            assert after[|before|] == phi;
          } else {
            var i :| 0 <= i < |before| && before[i].out == Versioned(u, 0);
            assert after[i] == before[i];
          }
        }
      } else {
        assert after == before;
      }
    }
  }

  // ---------------------------------------------------------------------------------------
  // The worklist for one variable
  // ---------------------------------------------------------------------------------------

  ghost function Elements(s: seq<Node>): set<Node> {
    set x | x in s
  }

  datatype Worklist = Worklist(workset: seq<Node>, considered: seq<Node>, inserted: seq<Node>)

  function Insert(w: Worklist, frontier: Node): Worklist {
    if frontier in w.considered then w.(inserted := w.inserted + [frontier])
    else Worklist(w.workset + [frontier], w.considered + [frontier], w.inserted + [frontier])
  }

  /** `y` must hold a phi on account of the definition in `x`. */
  ghost predicate Served(a: Analyses, v: Id, w: Worklist, x: Node, y: Node) {
    LiveFrontier(a, v, x, y) ==> y in w.inserted
  }

  /**
   Blocks considered are writers or hold a phi; those not waiting have all their frontiers served
   but `todo` of `node`.
   */
  ghost predicate WorklistInvariant(p: Program, a: Analyses, v: Id, w: Worklist, node: Node, todo: set<Node>) {
    && (forall x: Node :: x in w.considered <==> Writes(a, v, x) || x in w.inserted)
    && (forall x :: x in w.workset ==> x in w.considered)
    && (forall x :: x in w.considered ==> x < |p.blocks|)
    && (forall x: Node, y: Node ::
       x in w.considered && x !in w.workset && !(x == node && y in todo) ==> Served(a, v, w, x, y))
    && (forall t: set<Node> :: PhiClosed(a, v, t) ==> Elements(w.inserted) <= t)
  }

  lemma InsertKeepsInvariant(p: Program, a: Analyses, v: Id, w: Worklist, node: Node, todo: set<Node>, frontier: Node)
    requires WorklistInvariant(p, a, v, w, node, todo) && node in w.considered
    requires LiveFrontier(a, v, node, frontier) && frontier < |p.blocks|
    ensures WorklistInvariant(p, a, v, Insert(w, frontier), node, todo - {frontier})
  {
    InsertedIsForced(a, v, node, frontier, w.inserted);
    var w' := Insert(w, frontier);
    forall x: Node, y: Node | x in w'.considered && x !in w'.workset && !(x == node && y in todo - {frontier})
      ensures Served(a, v, w', x, y)
    {
      assert x in w.considered && x !in w.workset;
      assert y == frontier || Served(a, v, w, x, y);
    }
  }

  lemma InsertedIsForced(a: Analyses, v: Id, node: Node, frontier: Node, inserted: seq<Node>)
    requires Writes(a, v, node) || node in inserted
    requires LiveFrontier(a, v, node, frontier)
    requires forall t: set<Node> :: PhiClosed(a, v, t) ==> Elements(inserted) <= t
    ensures forall t: set<Node> :: PhiClosed(a, v, t) ==> Elements(inserted + [frontier]) <= t
  {
    forall t: set<Node> | PhiClosed(a, v, t)
      ensures Elements(inserted + [frontier]) <= t
    {
      assert node in inserted ==> node in Elements(inserted);
    }
  }

  lemma SkipKeepsInvariant(p: Program, a: Analyses, v: Id, w: Worklist, node: Node, todo: set<Node>, frontier: Node)
    requires WorklistInvariant(p, a, v, w, node, todo)
    requires Served(a, v, w, node, frontier)
    ensures WorklistInvariant(p, a, v, w, node, todo - {frontier})
  {
  }

  lemma PopKeepsInvariant(p: Program, a: Analyses, v: Id, w: Worklist, node: Node, rest: seq<Node>)
    requires WorklistInvariant(p, a, v, w, 0, {}) && w.workset == rest + [node] && node in a.frontiers
    ensures WorklistInvariant(p, a, v, w.(workset := rest), node, a.frontiers[node])
    ensures node in w.considered
  {
    assert forall x :: x in w.workset <==> x in rest || x == node;
    forall x: Node, y: Node | x in w.considered && x !in rest && !(x == node && y in a.frontiers[node])
      ensures Served(a, v, w.(workset := rest), x, y)
    {
      assert x != node ==> Served(a, v, w, x, y);
    }
  }

  /** Inserts the phis a popped block calls for, its frontier taken in any order. */
  method ServeFrontier(opt: Optimizer, ghost start: Program, a: Analyses, v: Id, node: Node, w0: Worklist,
                       ghost placed: map<Id, set<Node>>)
    returns (w: Worklist)
    requires Fits(start, a) && Placed(start, opt.program, placed[v := Elements(w0.inserted)])
    requires node < |start.blocks| && node in w0.considered
    requires WorklistInvariant(start, a, v, w0, node, a.frontiers[node])
    modifies opt`program
    ensures Placed(start, opt.program, placed[v := Elements(w.inserted)])
    ensures WorklistInvariant(start, a, v, w, 0, {})
    ensures (w.considered == w0.considered && w.workset == w0.workset) ||
            Elements(w0.considered) < Elements(w.considered)
  {
    w := w0;
    var todo := a.frontiers[node];
    while todo != {}
      invariant todo <= a.frontiers[node]
      invariant Placed(start, opt.program, placed[v := Elements(w.inserted)])
      invariant node in w.considered && WorklistInvariant(start, a, v, w, node, todo)
      invariant (w.considered == w0.considered && w.workset == w0.workset) ||
                Elements(w0.considered) < Elements(w.considered)
      decreases todo
    {
      var frontier :| frontier in todo;
      if frontier in w.inserted || v !in a.live[frontier] {
        SkipKeepsInvariant(start, a, v, w, node, todo, frontier);
      } else {
        ghost var before := opt.program;
        InsertPhi(opt, frontier, v);
        ghost var phi :| IsFreshPhi(before, frontier, v, phi) && opt.program == AddPhi(before, frontier, phi);
        PlaceOne(start, before, placed[v := Elements(w.inserted)], v, frontier, phi);
        InsertKeepsInvariant(start, a, v, w, node, todo, frontier);
        InsertElements(w, frontier, placed, v);
        w := Insert(w, frontier);
      }
      todo := todo - {frontier};
    }
  }

  lemma InsertElements(w: Worklist, frontier: Node, placed: map<Id, set<Node>>, v: Id)
    ensures Elements(Insert(w, frontier).inserted) == Elements(w.inserted) + {frontier}
    ensures placed[v := Elements(w.inserted)][v := Elements(w.inserted) + {frontier}] ==
            placed[v := Elements(Insert(w, frontier).inserted)]
    ensures frontier !in w.considered ==> Elements(w.considered) < Elements(Insert(w, frontier).considered)
  {
    assert Elements(w.inserted + [frontier]) == Elements(w.inserted) + {frontier};
    assert Elements(w.considered + [frontier]) == Elements(w.considered) + {frontier};
    assert frontier !in w.considered ==> frontier !in Elements(w.considered);
  }

  lemma MeasureShrinks(p: Program, a: Analyses, v: Id, before: Worklist, now: Worklist)
    requires WorklistInvariant(p, a, v, now, 0, {})
    ensures Elements(before.considered) < Elements(now.considered)
            ==> NodeIds(p) - Elements(now.considered) < NodeIds(p) - Elements(before.considered)
  {
    assert Elements(now.considered) <= NodeIds(p);
    if Elements(before.considered) < Elements(now.considered) {
      var x :| x in Elements(now.considered) && x !in Elements(before.considered);
      assert x in NodeIds(p) - Elements(before.considered);
    }
  }

  /** Takes a block from the worklist and serves its frontier. */
  method ServeNext(opt: Optimizer, ghost start: Program, a: Analyses, v: Id, w: Worklist,
                   ghost placed: map<Id, set<Node>>)
    returns (r: Worklist)
    requires Fits(start, a) && Placed(start, opt.program, placed[v := Elements(w.inserted)])
    requires w.workset != [] && WorklistInvariant(start, a, v, w, 0, {})
    modifies opt`program
    ensures Placed(start, opt.program, placed[v := Elements(r.inserted)]) && WorklistInvariant(start, a, v, r, 0, {})
    ensures NodeIds(start) - Elements(r.considered) < NodeIds(start) - Elements(w.considered)
            || (NodeIds(start) - Elements(r.considered) == NodeIds(start) - Elements(w.considered) &&
               |r.workset| < |w.workset|)
  {
    var node, rest := w.workset[|w.workset| - 1], w.workset[..|w.workset| - 1];
    assert w.workset == rest + [node];
    assert node in w.workset;
    PopKeepsInvariant(start, a, v, w, node, rest);
    r := ServeFrontier(opt, start, a, v, node, w.(workset := rest), placed);
    MeasureShrinks(start, a, v, w, r);
  }

  method PlaceVariable(opt: Optimizer, ghost start: Program, a: Analyses, v: Id, ghost placed: map<Id, set<Node>>)
    returns (ghost sites: set<Node>)
    requires Fits(start, a) && Placed(start, opt.program, placed) && v !in placed
    modifies opt`program
    ensures LeastPhiClosed(a, v, sites)
    ensures Placed(start, opt.program, placed[v := sites])
  {
    var writers := set x | x in a.writes && v in a.writes[x];
    var list := ListOf(writers);
    var w := Worklist(list, list, []);
    assert Elements([]) == {};
    while w.workset != []
      invariant Placed(start, opt.program, placed[v := Elements(w.inserted)])
      invariant WorklistInvariant(start, a, v, w, 0, {})
      decreases NodeIds(start) - Elements(w.considered), |w.workset|
    {
      w := ServeNext(opt, start, a, v, w, placed);
    }
    sites := Elements(w.inserted);
    EmptyWorklistIsLeast(start, a, v, w);
  }

  lemma EmptyWorklistIsLeast(p: Program, a: Analyses, v: Id, w: Worklist)
    requires WorklistInvariant(p, a, v, w, 0, {}) && w.workset == []
    ensures LeastPhiClosed(a, v, Elements(w.inserted))
  {
    var sites := Elements(w.inserted);
    forall x: Node, y: Node | (Writes(a, v, x) || x in sites) && LiveFrontier(a, v, x, y)
      ensures y in sites
    {
      assert Served(a, v, w, x, y);
    }
  }

  /** Places phis for all variables, taken in any order. */
  method PlacePhiNodes(opt: Optimizer, a: Analyses) returns (ghost placed: map<Id, set<Node>>)
    requires Fits(opt.program, a)
    modifies opt`program
    ensures Placed(old(opt.program), opt.program, placed)
    ensures placed.Keys == opt.program.variables
    ensures forall v: Id :: v in placed ==> LeastPhiClosed(a, v, placed[v])
  {
    ghost var start := opt.program;
    var keys := opt.program.variables;
    placed := map[];
    while keys != {}
      invariant keys <= start.variables
      invariant placed.Keys == start.variables - keys
      invariant Placed(start, opt.program, placed)
      invariant forall v: Id :: v in placed ==> LeastPhiClosed(a, v, placed[v])
      decreases keys
    {
      var v :| v in keys;
      ghost var sites := PlaceVariable(opt, start, a, v, placed);
      placed := placed[v := sites];
      keys := keys - {v};
    }
  }
}
