/**
 Facts about a program in SSA form: every version is defined once, and where a live variable has
 no phi, all edges into the block carry the same version of it.
 */
module SsaForm {
  import opened Options
  import opened Ir
  import opened Dominance
  import opened Liveness
  import opened Naming
  import opened Version
  import opened Renaming

  lemma {:induction false} MarkedIfOnPath(orig: Program, now: Program, marks: map<Node, Mark>, max: Versions,
                                          path: seq<Node>, b: Node)
    requires IsSsaForm(orig, now, marks, max) && PathTo(orig, path, b)
    ensures b in marks
    decreases |path|
  {
    if |path| > 1 {
      PathPrefix(orig, path, b, |path| - 1);
      MarkedIfOnPath(orig, now, marks, max, path[..|path| - 1], path[|path| - 2]);
      assert (path[|path| - 2], path[|path| - 2 + 1]) in orig.edges;
    }
  }

  /** The renaming walk reaches every reachable block. */
  lemma ReachableIsMarked(orig: Program, now: Program, marks: map<Node, Mark>, max: Versions, b: Node)
    requires IsSsaForm(orig, now, marks, max) && Reachable(orig, b)
    ensures b in marks
  {
    var path :| PathTo(orig, path, b);
    MarkedIfOnPath(orig, now, marks, max, path, b);
  }

  // ---------------------------------------------------------------------------------------
  // Single assignment
  // ---------------------------------------------------------------------------------------

  /** The operands a block writes, phis first. */
  function Definitions(b: BasicBlock): (r: seq<Option<Variable>>)
    ensures |r| == |b.phis| + |b.ops|
    ensures forall i :: 0 <= i < |b.phis| ==> r[i] == Some(b.phis[i].out)
    ensures forall i :: 0 <= i < |b.ops| ==> r[|b.phis| + i] == b.ops[i].out
  {
    seq(|b.phis|, i requires 0 <= i < |b.phis| => Some(b.phis[i].out))
      + seq(|b.ops|, i requires 0 <= i < |b.ops| => b.ops[i].out)
  }

  ghost function DefinedIds(vars: set<Id>, b: BasicBlock): seq<Option<Id>> {
    PhiIds(vars, b.phis) + OpIds(vars, b.ops)
  }

  lemma {:induction false} AfterWritesConcat(vars: set<Id>, xs: seq<Option<Id>>, ys: seq<Option<Id>>, n: Names)
    requires NamesFor(vars, n)
    requires forall i :: 0 <= i < |xs| && xs[i].Some? ==> xs[i].value in vars
    requires forall i :: 0 <= i < |ys| && ys[i].Some? ==> ys[i].value in vars
    ensures AfterWrites(vars, xs + ys, n) == AfterWrites(vars, ys, AfterWrites(vars, xs, n))
  {
    if ys == [] {
      assert xs + ys == xs;
    } else {
      AfterWritesConcat(vars, xs, ys[..|ys| - 1], n);
      assert (xs + ys)[..|xs + ys| - 1] == xs + ys[..|ys| - 1];
    }
  }

  /** How many versions of `v` exist after the first `k` definitions of a block. */
  ghost function CountAfter(vars: set<Id>, ids: seq<Option<Id>>, n: Names, k: nat, v: Id): nat
    requires NamesFor(vars, n) && k <= |ids| && v in vars
    requires forall i :: 0 <= i < |ids| && ids[i].Some? ==> ids[i].value in vars
  {
    AfterWrites(vars, ids[..k], n).max[v]
  }

  lemma {:induction false} CountGrows(vars: set<Id>, ids: seq<Option<Id>>, n: Names, i: nat, j: nat, v: Id)
    requires NamesFor(vars, n) && i <= j <= |ids| && v in vars
    requires forall k :: 0 <= k < |ids| && ids[k].Some? ==> ids[k].value in vars
    ensures CountAfter(vars, ids, n, i, v) <= CountAfter(vars, ids, n, j, v)
    ensures i < j && ids[i] == Some(v) ==> CountAfter(vars, ids, n, i, v) < CountAfter(vars, ids, n, j, v)
    decreases j - i
  {
    if i < j {
      CountGrows(vars, ids, n, i + 1, j, v);
      assert ids[..i + 1][..i] == ids[..i];
    }
  }

  ghost predicate DefinesAt(b: BasicBlock, k: nat, v: Id, version: nat) {
    k < |Definitions(b)| && Definitions(b)[k] == Some(Versioned(v, version))
  }

  lemma PhiNumber(vars: set<Id>, orig: seq<PhiInstruction>, now: seq<PhiInstruction>, n: Names, k: nat, v: Id,
                  version: nat)
    requires NamesFor(vars, n) && PhisRenamed(vars, orig, now, n) && k < |orig| && v in vars
    requires SamePhi(vars, orig[k], now[k]) && now[k].out == Versioned(v, version)
    ensures PhiIds(vars, orig)[k] == Some(v)
    ensures version == Wrap(CountAfter(vars, PhiIds(vars, orig), n, k, v) + 1)
  {
    assert PhiRenamedAt(vars, orig, now, n, k);
    assert PhiIds(vars, orig)[..k] == PhiIds(vars, orig[..k]);
  }

  lemma OpNumber(vars: set<Id>, orig: seq<Instruction>, now: seq<Instruction>, n: Names, k: nat, v: Id, version: nat)
    requires NamesFor(vars, n) && OpsRenamed(vars, orig, now, n) && k < |orig| && v in vars
    requires SameInstruction(vars, orig[k], now[k]) && now[k].out == Some(Versioned(v, version))
    ensures OpIds(vars, orig)[k] == Some(v)
    ensures version == Wrap(CountAfter(vars, OpIds(vars, orig), n, k, v) + 1)
  {
    assert OpIds(vars, orig)[..k] == OpIds(vars, orig[..k]);
    assert OpRenamedAt(vars, orig, now, n, k);
  }

  /** A tracked definition carries the next free version number. */
  ghost predicate NumberedAt(vars: set<Id>, b: BasicBlock, n: Names, k: nat, v: Id, version: nat)
    requires NamesFor(vars, n) && v in vars
  {
    && k < |DefinedIds(vars, b)| && DefinedIds(vars, b)[k] == Some(v)
    && version == Wrap(CountAfter(vars, DefinedIds(vars, b), n, k, v) + 1)
  }

  lemma PhiNumbered(vars: set<Id>, orig: BasicBlock, now: seq<PhiInstruction>, n: Names, k: nat, v: Id, version: nat)
    requires NamesFor(vars, n) && PhisRenamed(vars, orig.phis, now, n) && k < |orig.phis| && v in vars
    requires SamePhi(vars, orig.phis[k], now[k]) && now[k].out == Versioned(v, version)
    ensures NumberedAt(vars, orig, n, k, v, version)
  {
    PhiNumber(vars, orig.phis, now, n, k, v, version);
    assert DefinedIds(vars, orig)[..k] == PhiIds(vars, orig.phis)[..k];
  }

  lemma DefinedByOp(vars: set<Id>, b: BasicBlock, k: nat, i: nat)
    requires i < |b.ops| && k == |b.phis| + i
    ensures k < |DefinedIds(vars, b)| && DefinedIds(vars, b)[k] == OpIds(vars, b.ops)[i]
  {
  }

  lemma OpNumbered(vars: set<Id>, orig: BasicBlock, now: seq<Instruction>, n: Names, k: nat, i: nat, v: Id,
                   version: nat)
    requires NamesFor(vars, n) && OpsRenamed(vars, orig.ops, now, AfterPhis(vars, orig.phis, n))
    requires i < |orig.ops| && k == |orig.phis| + i && v in vars
    requires SameInstruction(vars, orig.ops[i], now[i]) && now[i].out == Some(Versioned(v, version))
    ensures NumberedAt(vars, orig, n, k, v, version)
  {
    DefinedByOp(vars, orig, k, i);
    OpNumber(vars, orig.ops, now, AfterPhis(vars, orig.phis, n), i, v, version);
    CountAfterPhis(vars, orig, n, k, i, v);
  }

  lemma DefinitionNumber(vars: set<Id>, orig: BasicBlock, now: BasicBlock, n: Names, k: nat, v: Id, version: nat)
    requires NamesFor(vars, n) && BlockRenamed(vars, orig, now, n) && SameBlock(vars, orig, now)
    requires v in vars && DefinesAt(now, k, v, version)
    ensures NumberedAt(vars, orig, n, k, v, version)
  {
    if k < |now.phis| {
      assert Definitions(now)[k] == Some(now.phis[k].out);
      PhiNumbered(vars, orig, now.phis, n, k, v, version);
    } else {
      var i := k - |orig.phis|;
      assert Definitions(now)[k] == now.ops[i].out;
      OpNumbered(vars, orig, now.ops, n, k, i, v, version);
    }
  }

  lemma CountAfterPhis(vars: set<Id>, b: BasicBlock, n: Names, k: nat, i: nat, v: Id)
    requires NamesFor(vars, n) && v in vars && i <= |b.ops| && k == |b.phis| + i
    ensures CountAfter(vars, DefinedIds(vars, b), n, k, v)
            == CountAfter(vars, OpIds(vars, b.ops), AfterPhis(vars, b.phis, n), i, v)
  {
    var phis, ops := PhiIds(vars, b.phis), OpIds(vars, b.ops);
    assert (phis + ops)[..k] == phis + ops[..i];
    AfterWritesConcat(vars, phis, ops[..i], n);
  }

  /** A definition's number lies within the range its block was given. */
  lemma DefinitionInRange(vars: set<Id>, orig: BasicBlock, n: Names, k: nat, v: Id)
    requires NamesFor(vars, n) && v in vars && k < |DefinedIds(vars, orig)| && DefinedIds(vars, orig)[k] == Some(v)
    ensures n.max[v] <= CountAfter(vars, DefinedIds(vars, orig), n, k, v) < AfterBlock(vars, orig, n).max[v]
  {
    var ids := DefinedIds(vars, orig);
    CountGrows(vars, ids, n, 0, k, v);
    CountGrows(vars, ids, n, k, |ids|, v);
    assert ids[..|ids|] == ids;
    AfterWritesConcat(vars, PhiIds(vars, orig.phis), OpIds(vars, orig.ops), n);
  }

  /** The number of a definition, and the range of its block. */
  lemma DefinitionOfBlock(orig: Program, now: Program, marks: map<Node, Mark>, max: Versions, b: Node, k: nat, v: Id,
                          version: nat)
    requires IsSsaForm(orig, now, marks, max) && b in marks && v in orig.variables && max[v] < U16
    requires b < |now.blocks| && DefinesAt(now.blocks[b], k, v, version)
    ensures b < |orig.blocks| && NamesFor(orig.variables, marks[b].start) && NamesFor(orig.variables, marks[b].end)
    ensures k < |DefinedIds(orig.variables, orig.blocks[b])| && DefinedIds(orig.variables, orig.blocks[b])[k] == Some(v)
    ensures version == CountAfter(orig.variables, DefinedIds(orig.variables, orig.blocks[b]), marks[b].start, k, v) + 1
    ensures marks[b].start.max[v] < version <= marks[b].end.max[v]
  {
    assert MarkedBlock(orig, now, marks, b) && ShapeAt(orig, now, b) && CounterBelow(orig.variables, marks, max, b);
    DefinitionNumber(orig.variables, orig.blocks[b], now.blocks[b], marks[b].start, k, v, version);
    DefinitionInRange(orig.variables, orig.blocks[b], marks[b].start, k, v);
  }

  /** As long as its 16-bit counter does not overflow, no version of a variable is defined twice. */
  lemma DefinitionsAreUnique(orig: Program, now: Program, marks: map<Node, Mark>, max: Versions, b: Node, k: nat,
                             c: Node, l: nat, v: Id, version: nat)
    requires IsSsaForm(orig, now, marks, max) && b in marks && c in marks
    requires v in orig.variables && max[v] < U16
    requires b < |now.blocks| && DefinesAt(now.blocks[b], k, v, version)
    requires c < |now.blocks| && DefinesAt(now.blocks[c], l, v, version)
    ensures b == c && k == l
  {
    DefinitionOfBlock(orig, now, marks, max, b, k, v, version);
    DefinitionOfBlock(orig, now, marks, max, c, l, v, version);
    assert PairApart(orig.variables, marks, b, c);
    if b == c {
      var ids := DefinedIds(orig.variables, orig.blocks[b]);
      if k < l {
        CountGrows(orig.variables, ids, marks[b].start, k, l, v);
      } else if l < k {
        CountGrows(orig.variables, ids, marks[b].start, l, k, v);
      }
    }
  }

  // ---------------------------------------------------------------------------------------
  // Versions along edges
  // ---------------------------------------------------------------------------------------

  /** Tracked variables appear under their plain spelling in instructions and terminators. */
  ghost predicate PlainNames(p: Program) {
    forall b: Node :: b < |p.blocks| ==> PlainBlock(p.variables, p.blocks[b])
  }

  ghost predicate PlainBlock(vars: set<Id>, b: BasicBlock) {
    && (forall i, x :: 0 <= i < |b.ops| && x in b.ops[i].inputs && Tracked(vars, x) ==> x.LocalMut?)
    && (forall i ::
       0 <= i < |b.ops| && b.ops[i].out.Some? && Tracked(vars, b.ops[i].out.value) ==> b.ops[i].out.value.LocalMut?)
    && (TerminatorRead(b.flow).Some? && Tracked(vars, TerminatorRead(b.flow).value) ==>
       TerminatorRead(b.flow).value.LocalMut?)
  }

  ghost predicate HasPhi(b: BasicBlock, v: Id) {
    exists i :: 0 <= i < |b.phis| && b.phis[i].out.Versioned? && b.phis[i].out.id == v
  }

  /** Where `v` is written, live and merged. */
  ghost function SitesOf(p: Program, live: LiveVars, v: Id): VarSites {
    VarSites(
      set b: Node | b in NodeIds(p) && Killed(p.blocks[b].ops, v),
      set b: Node | b in NodeIds(p) && LiveOn(live, b, v),
      set b: Node | b in NodeIds(p) && HasPhi(p.blocks[b], v))
  }

  lemma {:induction false} UnwrittenKeepsVersion(vars: set<Id>, ids: seq<Option<Id>>, n: Names, v: Id)
    requires NamesFor(vars, n) && v in vars
    requires forall k :: 0 <= k < |ids| && ids[k].Some? ==> ids[k].value in vars
    requires forall k :: 0 <= k < |ids| ==> ids[k] != Some(v)
    ensures AfterWrites(vars, ids, n).cur[v] == n.cur[v]
  {
    if ids != [] {
      UnwrittenKeepsVersion(vars, ids[..|ids| - 1], n, v);
      assert ids[|ids| - 1] != Some(v);
    }
  }

  lemma UndefinedKeepsVersion(vars: set<Id>, b: BasicBlock, n: Names, v: Id)
    requires NamesFor(vars, n) && v in vars && PlainBlock(vars, b)
    requires !HasPhi(b, v) && !Killed(b.ops, v)
    ensures AfterBlock(vars, b, n).cur[v] == n.cur[v]
  {
    UnwrittenKeepsVersion(vars, PhiIds(vars, b.phis), n, v);
    assert forall k :: 0 <= k < |b.ops| ==> !WritesLocal(b.ops[k], v);
    UnwrittenKeepsVersion(vars, OpIds(vars, b.ops), AfterPhis(vars, b.phis, n), v);
  }

  /** The path along which the names of a block were handed down. */
  ghost function TreePath(orig: Program, marks: map<Node, Mark>, b: Node): seq<Node>
    requires MarkedTree(orig, marks) && b in marks
    decreases marks[b].depth
  {
    assert MarkedChild(orig, marks, b);
    if b == orig.root then [b] else TreePath(orig, marks, marks[b].parent) + [b]
  }

  lemma {:induction false} TreePathIsPath(orig: Program, marks: map<Node, Mark>, b: Node)
    requires MarkedTree(orig, marks) && b in marks
    ensures PathTo(orig, TreePath(orig, marks, b), b)
    decreases marks[b].depth
  {
    assert MarkedChild(orig, marks, b);
    if b != orig.root {
      TreePathIsPath(orig, marks, marks[b].parent);
      PathExtend(orig, TreePath(orig, marks, marks[b].parent), marks[b].parent, b);
    }
  }

  lemma LastDefinitionSnoc(path: seq<Node>, b: Node, v: VarSites)
    ensures LastDefinition(path + [b], v) == if b in v.Definers() then Some(b) else LastDefinition(path, v)
  {
    assert (path + [b])[..|path|] == path;
  }

  /** The version at the end of a block is the one its last definition on the tree path gave. */
  lemma {:induction false} VersionFollowsTree(orig: Program, now: Program, marks: map<Node, Mark>, max: Versions,
                                              live: LiveVars, b: Node, v: Id)
    requires IsSsaForm(orig, now, marks, max) && PlainNames(orig) && b in marks && v in orig.variables
    ensures v in marks[b].end.cur
    ensures match LastDefinition(TreePath(orig, marks, b), SitesOf(orig, live, v))
            case None => marks[b].end.cur[v] == 0
            case Some(x) => x in marks && v in marks[x].end.cur && marks[b].end.cur[v] == marks[x].end.cur[v]
    decreases marks[b].depth
  {
    var sites := SitesOf(orig, live, v);
    assert MarkedChild(orig, marks, b) && MarkedBlock(orig, now, marks, b);
    assert PlainBlock(orig.variables, orig.blocks[b]);
    if b !in sites.Definers() {
      UndefinedKeepsVersion(orig.variables, orig.blocks[b], marks[b].start, v);
    }
    if b == orig.root {
      assert TreePath(orig, marks, b) == [] + [b];
      LastDefinitionSnoc([], b, sites);
    } else {
      VersionFollowsTree(orig, now, marks, max, live, marks[b].parent, v);
      LastDefinitionSnoc(TreePath(orig, marks, marks[b].parent), b, sites);
    }
  }

  ghost predicate PhisPlaced(p: Program, live: LiveVars) {
    forall v: Id {:trigger SitesOf(p, live, v)} :: v in p.variables ==>
      LiveFlowsBack(p, SitesOf(p, live, v)) && PhisCoverFrontiers(p, SitesOf(p, live, v))
  }

  /** Where a live variable has no phi, every edge into the block carries the version the block was renamed from. */
  lemma EdgeKeepsVersion(orig: Program, now: Program, marks: map<Node, Mark>, max: Versions, live: LiveVars, s: Node,
                         t: Node, v: Id)
    requires ValidGraph(orig) && IsSsaForm(orig, now, marks, max) && PlainNames(orig) && PhisPlaced(orig, live)
    requires (s, t) in orig.edges && s in marks && v in orig.variables && LiveOn(live, t, v)
    requires !HasPhi(orig.blocks[t], v)
    ensures t in marks && v in marks[s].end.cur && v in marks[t].start.cur
    ensures marks[t].start.cur[v] == marks[s].end.cur[v]
  {
    assert MarkedChild(orig, marks, t) && MarkedBlock(orig, now, marks, t);
    var q := marks[t].parent;
    var sites := SitesOf(orig, live, v);
    TreePathIsPath(orig, marks, s);
    TreePathIsPath(orig, marks, q);
    LastDefinitionIsUnique(orig, sites, TreePath(orig, marks, s), s, TreePath(orig, marks, q), q, t);
    VersionFollowsTree(orig, now, marks, max, live, s, v);
    VersionFollowsTree(orig, now, marks, max, live, q, v);
  }
}
