/**
 Every run of the shared sum: the units of all cubes, their loads and stores, barriers and atomic
 additions interleave in any way, and whenever all cubes have finished, the output has grown by the
 sum of all elements.
 */
module SharedSumRuns {
  import opened Arithmetic
  import opened Folds
  import opened SharedTree
  import opened SharedSum

  /** A cube adds its lines, folds its shared memory, and has added the result to the output. */
  datatype CubeRun =
    | Adding(mem: seq<Line>, adders: seq<Adder>)
    | Folding(tree: Tree<Line>)
    | Finished

  datatype Grid = Grid(cubes: seq<CubeRun>, output: int)

  datatype GridStep =
    | AddStep(cube: nat, unitPos: nat)
    | Sync(cube: nat)
    | FoldStep(cube: nat, step: TreeStep)
    | AtomicAdd(cube: nat)

  ghost predicate AllAdded(l: Launch, cube: nat, adders: seq<Adder>) {
    forall u: nat {:trigger adders[u]} :: u < |adders| ==> AdderDone(l, cube, u, adders[u])
  }

  /** A step within a cube; a step that is not due changes nothing. */
  ghost function StepCube(l: Launch, run: CubeRun, s: GridStep): CubeRun {
    match (s, run)
    case (AddStep(cube, u), Adding(mem, adders)) =>
      if u < |adders| && u < |mem| && !AdderDone(l, cube, u, adders[u])
         && (adders[u].Added? ==> adders[u].lines <= BlockLines(l, l.position(cube, u))) then
        Adding(mem[u := NextSlot(l, cube, u, adders[u], mem[u])], adders[u := NextAdder(adders[u])])
      else run
    case (Sync(cube), Adding(mem, adders)) =>
      if AllAdded(l, cube, adders) then Folding(Tree(Phase(mem, Waiting(|mem|)), 1, |mem|)) else run
    case (FoldStep(_, step), Folding(tree)) => Folding(StepTree(AddLines, tree, step))
    case (AtomicAdd(_), Folding(tree)) => if tree.remaining == 1 then Finished else run
    case _ => run
  }

  /** What the step adds to the output: the elements of slot 0, once the cube has folded its memory. */
  function Contribution(run: CubeRun, s: GridStep): int {
    if s.AtomicAdd? && run.Folding? && run.tree.remaining == 1 &&
      run.tree.phase.mem != [] then Total(run.tree.phase.mem[0]) else 0
  }

  ghost function StepGrid(l: Launch, g: Grid, s: GridStep): Grid {
    if s.cube >= |g.cubes| then g
    else Grid(g.cubes[s.cube := StepCube(l, g.cubes[s.cube], s)], g.output + Contribution(g.cubes[s.cube], s))
  }

  ghost function RunGrid(l: Launch, g: Grid, schedule: seq<GridStep>): Grid {
    if schedule == [] then g else StepGrid(l, RunGrid(l, g, schedule[..|schedule| - 1]), schedule[|schedule| - 1])
  }

  /** Every slot holds the sum of its unit's block. */
  ghost predicate SlotsFilled(l: Launch, cube: nat, mem: seq<Line>) {
    && |mem| == l.Units()
    && forall u :: 0 <= u < |mem| ==> |mem[u]| == l.lineSize && Total(mem[u]) == UnitTotal(l, l.position(cube, u))
  }

  ghost predicate FoldsSlots(l: Launch, cube: nat, tree: Tree<Line>, mem: seq<Line>) {
    SlotsFilled(l, cube, mem) && TreeOnCourse(AddLines, mem, l.Units(), tree)
  }

  ghost predicate CubeOk(l: Launch, cube: nat, run: CubeRun) {
    match run
    case Adding(mem, adders) => AddersOk(l, cube, adders, mem)
    case Folding(tree) => exists mem: seq<Line> :: FoldsSlots(l, cube, tree, mem)
    case Finished => true
  }

  ghost function FinishedCubes(g: Grid): set<nat> {
    set cube: nat | cube < |g.cubes| && g.cubes[cube].Finished?
  }

  ghost predicate GridOk(l: Launch, before: int, g: Grid) {
    && |g.cubes| == l.cubes
    && (forall cube: nat {:trigger CubeOk(l, cube, g.cubes[cube])} :: cube < l.cubes ==> CubeOk(l, cube, g.cubes[cube]))
    && g.output == before + SetTotal(l, FinishedCubes(g), l.cubes)
  }

  lemma UnitsArePositive(l: Launch)
    ensures l.Units() > 0
  {
  }

  lemma AllAddedFillSlots(l: Launch, cube: nat, mem: seq<Line>, adders: seq<Adder>)
    requires AddersOk(l, cube, adders, mem) && AllAdded(l, cube, adders)
    ensures SlotsFilled(l, cube, mem)
  {
    forall u | 0 <= u < |mem|
      ensures |mem[u]| == l.lineSize && Total(mem[u]) == UnitTotal(l, l.position(cube, u))
    {
      assert AdderOk(l, cube, u, adders[u], mem[u]);
      DoneAdderHolds(l, cube, u, adders[u], mem[u]);
    }
  }

  lemma SyncStartsTree(l: Launch, cube: nat, mem: seq<Line>)
    requires SlotsFilled(l, cube, mem)
    ensures FoldsSlots(l, cube, Tree(Phase(mem, Waiting(|mem|)), 1, |mem|), mem)
  {
    UnitsArePositive(l);
    TreeStartsOnCourse(AddLines, mem, |mem|, Tree(Phase(mem, Waiting(|mem|)), 1, |mem|));
  }

  lemma StepKeepsCube(l: Launch, cube: nat, run: CubeRun, s: GridStep)
    requires l.Valid() && s.cube == cube && CubeOk(l, cube, run)
    ensures CubeOk(l, cube, StepCube(l, run, s))
  {
    match (s, run)
    case (AddStep(_, u), Adding(mem, adders)) =>
      if u < |adders| && !AdderDone(l, cube, u, adders[u]) {
        AddersStep(l, cube, adders, mem, u);
      }
    case (Sync(_), Adding(mem, adders)) =>
      if AllAdded(l, cube, adders) {
        AllAddedFillSlots(l, cube, mem, adders);
        SyncStartsTree(l, cube, mem);
      }
    case (FoldStep(_, step), Folding(tree)) =>
      var mem: seq<Line> :| FoldsSlots(l, cube, tree, mem);
      AddLinesAssociates();
      TreeStepKeepsCourse(AddLines, mem, l.Units(), tree, step);
      assert FoldsSlots(l, cube, StepTree(AddLines, tree, step), mem);
    case _ =>
  }

  /** What a cube adds to the output is the sum over its units. */
  lemma FoldedCubeHolds(l: Launch, cube: nat, tree: Tree<Line>)
    requires CubeOk(l, cube, Folding(tree)) && tree.remaining == 1
    ensures tree.phase.mem != [] && Total(tree.phase.mem[0]) == CubeTotal(l, cube)
  {
    var mem: seq<Line> :| FoldsSlots(l, cube, tree, mem);
    UnitsArePositive(l);
    FinishedTreeHolds(AddLines, mem, l.Units(), tree);
    assert mem[..l.Units()] == mem;
    FoldOfSlots(l, cube, mem);
  }

  lemma StepKeepsGrid(l: Launch, before: int, g: Grid, s: GridStep)
    requires l.Valid() && GridOk(l, before, g)
    ensures GridOk(l, before, StepGrid(l, g, s))
  {
    if s.cube < |g.cubes| {
      var cube, g' := s.cube, StepGrid(l, g, s);
      assert CubeOk(l, cube, g.cubes[cube]);
      StepKeepsCube(l, cube, g.cubes[cube], s);
      forall c: nat | c < l.cubes
        ensures CubeOk(l, c, g'.cubes[c])
      {
        assert CubeOk(l, c, g.cubes[c]);
      }
      if s.AtomicAdd? && g.cubes[cube].Folding? && g.cubes[cube].tree.remaining == 1 {
        FoldedCubeHolds(l, cube, g.cubes[cube].tree);
        assert FinishedCubes(g') == FinishedCubes(g) + {cube};
        SetTotalGrows(l, FinishedCubes(g), cube, l.cubes);
      } else {
        assert FinishedCubes(g') == FinishedCubes(g);
      }
    }
  }

  lemma {:induction false} ScheduleKeepsGrid(l: Launch, before: int, g: Grid, schedule: seq<GridStep>)
    requires l.Valid() && GridOk(l, before, g)
    ensures GridOk(l, before, RunGrid(l, g, schedule))
  {
    if schedule != [] {
      var last := |schedule| - 1;
      ScheduleKeepsGrid(l, before, g, schedule[..last]);
      StepKeepsGrid(l, before, RunGrid(l, g, schedule[..last]), schedule[last]);
    }
  }

  /** The launch: no unit of any cube has done anything. */
  ghost predicate GridStarts(l: Launch, g: Grid) {
    |g.cubes| == l.cubes && forall cube :: 0 <= cube < l.cubes ==> CubeStarts(l, g.cubes[cube])
  }

  ghost predicate CubeStarts(l: Launch, run: CubeRun) {
    run.Adding? && |run.mem| == |run.adders| == l.Units() && forall u :: 0 <= u < l.Units() ==> run.adders[u].Idle?
  }

  /** For every schedule of a launch: once all cubes have finished, the output has grown by the sum of all elements. */
  lemma EveryGridScheduleSums(l: Launch, g: Grid, schedule: seq<GridStep>)
    requires l.Valid() && GridStarts(l, g)
    requires forall cube ::
             0 <= cube < |RunGrid(l, g, schedule).cubes| ==> RunGrid(l, g, schedule).cubes[cube].Finished?
    ensures RunGrid(l, g, schedule).output == g.output + InputTotal(l.input)
  {
    GridStartsOk(l, g);
    ScheduleKeepsGrid(l, g.output, g, schedule);
    SetTotalOfAll(l, FinishedCubes(RunGrid(l, g, schedule)), l.cubes);
    CubesReadInput(l);
  }

  /** As long as a cube has not finished, some step makes progress: no schedule runs into a dead end. */
  lemma GridIsNeverStuck(l: Launch, before: int, g: Grid, cube: nat) returns (s: GridStep)
    requires l.Valid() && GridOk(l, before, g) && cube < l.cubes && !g.cubes[cube].Finished?
    ensures StepGrid(l, g, s) != g
  {
    assert CubeOk(l, cube, g.cubes[cube]);
    match g.cubes[cube]
    case Adding(mem, adders) =>
      if AllAdded(l, cube, adders) {
        s := Sync(cube);
        assert StepGrid(l, g, s).cubes[cube].Folding?;
      } else {
        var u: nat :| u < |adders| && !AdderDone(l, cube, u, adders[u]);
        assert AdderOk(l, cube, u, adders[u], mem[u]);
        s := AddStep(cube, u);
        assert StepGrid(l, g, s).cubes[cube].adders[u] != adders[u];
      }
    case Folding(tree) =>
      if tree.remaining == 1 {
        s := AtomicAdd(cube);
        assert StepGrid(l, g, s).cubes[cube].Finished?;
      } else {
        var mem: seq<Line> :| FoldsSlots(l, cube, tree, mem);
        assert tree.remaining > 1;
        TreeIsNeverStuck(AddLines, mem, l.Units(), tree);
        var step: TreeStep :| StepTree(AddLines, tree, step) != tree;
        s := FoldStep(cube, step);
        assert StepGrid(l, g, s).cubes[cube] != g.cubes[cube];
      }
  }

  /** The launch satisfies the invariant that every schedule keeps. */
  lemma GridStartsOk(l: Launch, g: Grid)
    requires l.Valid() && GridStarts(l, g)
    ensures GridOk(l, g.output, g)
  {
    assert FinishedCubes(g) == {};
    SetTotalOfNone(l, l.cubes);
    forall cube: nat | cube < l.cubes
      ensures CubeOk(l, cube, g.cubes[cube])
    {
      assert CubeStarts(l, g.cubes[cube]);
    }
  }
}
