/**
 Any number of processes that share one cache file under its lock: what holds in every state of
 every run, however their steps interleave. Holders release the lock and writes are complete.
 */
module CacheProtocol {
  import opened Options
  import opened CacheFraming

  datatype Operation<+K, +V> = Create | Insert(key: K, value: V) | Iterate

  /** How far a process has come in its operation. */
  datatype Phase<+K, +V> =
    | Idle
    | Waiting(op: Operation<K, V>)
    | Holding(op: Operation<K, V>)
    | Checked(op: Operation<K, V>, outOfSync: bool)
    | Leaving(op: Operation<K, V>, ok: bool)

  datatype Process<!K, V> = Process(inMemory: map<K, V>, cursor: nat, phase: Phase<K, V>)

  /** `accepted` records the insertions that were reported successful. */
  datatype World<!K, !V> = World(log: seq<Byte>, holder: Option<nat>, processes: map<nat, Process<K, V>>,
                                 accepted: seq<Entry<K, V>>)

  // ---------------------------------------------------------------------------------------
  // Steps
  // ---------------------------------------------------------------------------------------

  ghost predicate Moves<K, V>(w: World<K, V>, w': World<K, V>, p: nat, q: Process<K, V>) {
    p in w.processes && w'.processes == w.processes[p := q]
  }

  /** A process asks for the lock; creating a cache starts a new process without memory. */
  ghost predicate Begin<K, V>(w: World<K, V>, w': World<K, V>, p: nat, op: Operation<K, V>) {
    && w' == w.(processes := w'.processes)
    && if op.Create? then p !in w.processes && w'.processes == w.processes[p := Process(map[], 0, Waiting(op))]
       else p in w.processes && w.processes[p].phase.Idle? && Moves(w, w', p, w.processes[p].(phase := Waiting(op)))
  }

  ghost predicate Acquire<K, V>(w: World<K, V>, w': World<K, V>, p: nat) {
    && w' == w.(processes := w'.processes, holder := Some(p))
    && w.holder == None && p in w.processes && w.processes[p].phase.Waiting?
    && Moves(w, w', p, w.processes[p].(phase := Holding(w.processes[p].phase.op)))
  }

  /** One of the entries contradicts the insertion. */
  ghost predicate OutOfSync<K, V>(op: Operation<K, V>, entries: seq<Entry<K, V>>) {
    op.Insert? && exists i :: 0 <= i < |entries| && entries[i].key == op.key && entries[i].value != op.value
  }

  /** The holder reads what was written since its cursor. */
  ghost predicate Sync<K, V>(c: Codec<K, V>, w: World<K, V>, w': World<K, V>, p: nat) {
    && w' == w.(processes := w'.processes)
    && p in w.processes && w.processes[p].phase.Holding? && w.processes[p].cursor <= |w.log|
    && var r := w.processes[p];
       var news := Entries(c, w.log[r.cursor..]);
       Moves(w, w', p, Process(Apply(r.inMemory, news), |w.log|, Checked(r.phase.op, OutOfSync(r.phase.op, news))))
  }

  ghost predicate Refuses<K, V>(r: Process<K, V>, op: Operation<K, V>, outOfSync: bool) {
    op.Insert? && (outOfSync || (op.key in r.inMemory && r.inMemory[op.key] != op.value))
  }

  /** The holder decides, and appends an entry that is new. */
  ghost predicate Decide<K, V>(c: Codec<K, V>, w: World<K, V>, w': World<K, V>, p: nat) {
    && p in w.processes && w.processes[p].phase.Checked?
    && var r := w.processes[p];
       var op, refused := r.phase.op, Refuses(r, r.phase.op, r.phase.outOfSync);
       if op.Insert? && !refused && op.key !in r.inMemory then
         var bytes := FrameOne(c, Entry(op.key, op.value));
         && w' == w.(log := w.log + bytes, processes := w'.processes)
         && Moves(w, w', p, Process(r.inMemory[op.key := op.value], r.cursor + |bytes|, Leaving(op, true)))
       else
         w' == w.(processes := w'.processes) && Moves(w, w', p, r.(phase := Leaving(op, !refused)))
  }

  ghost predicate Release<K, V>(w: World<K, V>, w': World<K, V>, p: nat) {
    && p in w.processes && w.processes[p].phase.Leaving?
    && var r := w.processes[p];
       var done := if r.phase.op.Insert? && r.phase.ok then [Entry(r.phase.op.key, r.phase.op.value)] else [];
       w' == w.(processes := w'.processes, holder := None, accepted := w.accepted + done) &&
         Moves(w, w', p, r.(phase := Idle))
  }

  ghost predicate Step<K(!new), V(!new)>(c: Codec<K, V>, w: World<K, V>, w': World<K, V>) {
    exists p: nat :: StepOf(c, w, w', p)
  }

  ghost predicate StepOf<K(!new), V(!new)>(c: Codec<K, V>, w: World<K, V>, w': World<K, V>, p: nat) {
    || (exists op: Operation<K, V> :: Begin(w, w', p, op))
    || Acquire(w, w', p) || Sync(c, w, w', p) || Decide(c, w, w', p) || Release(w, w', p)
  }

  // ---------------------------------------------------------------------------------------
  // What every step keeps
  // ---------------------------------------------------------------------------------------

  predicate InCriticalSection<K, V>(phase: Phase<K, V>) {
    phase.Holding? || phase.Checked? || phase.Leaving?
  }

  /** A process knows the log up to its cursor, and holds the lock exactly while it is inside. */
  ghost predicate ProcessOk<K, V>(c: Codec<K, V>, w: World<K, V>, p: nat) {
    p in w.processes ==>
      var r := w.processes[p];
      && r.cursor <= |w.log| && Framed(c, w.log[..r.cursor]) && r.inMemory == MapOf(c, w.log[..r.cursor])
      && (InCriticalSection(r.phase) <==> w.holder == Some(p))
      && (r.phase.Checked? || r.phase.Leaving? ==> r.cursor == |w.log|)
      && (r.phase.Checked? && r.phase.outOfSync ==>
         r.phase.op.Insert? && r.phase.op.key in r.inMemory && r.inMemory[r.phase.op.key] != r.phase.op.value)
      && (r.phase.Leaving? && r.phase.op.Insert? ==>
            (r.phase.ok <==> r.phase.op.key in r.inMemory && r.inMemory[r.phase.op.key] == r.phase.op.value))
  }

  ghost predicate HoldsEntry<K, V>(m: map<K, V>, e: Entry<K, V>) {
    e.key in m && m[e.key] == e.value
  }

  ghost predicate LogOk<K, V>(c: Codec<K, V>, log: seq<Byte>) {
    Framed(c, log) && Consistent(Entries(c, log))
  }

  ghost predicate Inv<K(!new), V(!new)>(c: Codec<K, V>, w: World<K, V>) {
    && LogOk(c, w.log)
    && (w.holder.Some? ==> w.holder.value in w.processes)
    && (forall p: nat {:trigger ProcessOk(c, w, p)} :: ProcessOk(c, w, p))
    && (forall e: Entry<K, V> :: e in w.accepted ==> HoldsEntry(MapOf(c, w.log), e))
  }

  /** No process has opened the cache yet; the file may hold what earlier runs left. */
  ghost predicate Initial<K, V>(c: Codec<K, V>, w: World<K, V>) {
    w == World(w.log, None, map[], []) && LogOk(c, w.log)
  }

  lemma InitialOk<K(!new), V(!new)>(c: Codec<K, V>, w: World<K, V>)
    requires Initial(c, w)
    ensures Inv(c, w)
  {
  }

  /** The empty file is a good log. */
  lemma EmptyLogOk<K(!new), V(!new)>(c: Codec<K, V>)
    requires Sound(c)
    ensures LogOk(c, [])
  {
    FrameIsFramed(c, []);
  }

  /** Reading up to the end of a good log. */
  lemma SyncReadsAll<K(!new), V(!new)>(c: Codec<K, V>, log: seq<Byte>, cursor: nat)
    requires Sound(c) && LogOk(c, log) && cursor <= |log| && Framed(c, log[..cursor])
    ensures Apply(MapOf(c, log[..cursor]), Entries(c, log[cursor..])) == MapOf(c, log)
    ensures Entries(c, log) == Entries(c, log[..cursor]) + Entries(c, log[cursor..])
  {
    assert log[..cursor] + log[cursor..] == log;
    PiecesMakeTheWhole(c, log[..cursor], log[cursor..]);
    FramedConcat(c, log[..cursor], log[cursor..]);
  }

  /** A new key can be appended to a good log. */
  lemma AppendKeepsLog<K(!new), V(!new)>(c: Codec<K, V>, log: seq<Byte>, k: K, v: V)
    requires Sound(c) && LogOk(c, log) && k !in MapOf(c, log)
    ensures LogOk(c, log + FrameOne(c, Entry(k, v)))
    ensures MapOf(c, log + FrameOne(c, Entry(k, v))) == MapOf(c, log)[k := v]
  {
    var e := Entry(k, v);
    var one := FrameOne(c, e);
    assert Frame(c, [e]) == one + Frame(c, []) == one;
    FrameIsFramed(c, [e]);
    FramedConcat(c, log, one);
    PiecesMakeTheWhole(c, log, one);
    assert [e][..0] == [] && Apply(MapOf(c, log), [e]) == MapOf(c, log)[k := v];
    var entries := Entries(c, log);
    MapHoldsEntries(entries, k);
    assert Entries(c, log + one) == entries + [e];
  }

  /** Processes other than the one that moves, when the log stays. */
  lemma OthersKeep<K(!new), V(!new)>(c: Codec<K, V>, w: World<K, V>, w': World<K, V>, p: nat, q: nat)
    requires ProcessOk(c, w, q) && q != p && w'.log == w.log
    requires q in w'.processes <==> q in w.processes
    requires q in w.processes ==> w'.processes[q] == w.processes[q]
    requires w'.holder == w.holder || (w.holder == None && w'.holder == Some(p)) ||
             (w.holder == Some(p) && w'.holder == None)
    ensures ProcessOk(c, w', q)
  {
  }

  lemma BeginKeeps<K(!new), V(!new)>(c: Codec<K, V>, w: World<K, V>, w': World<K, V>, p: nat, op: Operation<K, V>)
    requires Sound(c) && Inv(c, w) && Begin(w, w', p, op)
    ensures Inv(c, w')
  {
    forall q: nat
      ensures ProcessOk(c, w', q)
    {
      assert ProcessOk(c, w, q);
      if q == p {
        assert w.log[..0] == [];
        FrameIsFramed(c, []);
      } else {
        OthersKeep(c, w, w', p, q);
      }
    }
  }

  lemma AcquireKeeps<K(!new), V(!new)>(c: Codec<K, V>, w: World<K, V>, w': World<K, V>, p: nat)
    requires Inv(c, w) && Acquire(w, w', p)
    ensures Inv(c, w')
  {
    forall q: nat
      ensures ProcessOk(c, w', q)
    {
      assert ProcessOk(c, w, q);
      if q != p {
        OthersKeep(c, w, w', p, q);
      }
    }
  }

  lemma ReleaseKeeps<K(!new), V(!new)>(c: Codec<K, V>, w: World<K, V>, w': World<K, V>, p: nat)
    requires Inv(c, w) && Release(w, w', p)
    ensures Inv(c, w')
  {
    assert ProcessOk(c, w, p);
    assert w.log[..|w.log|] == w.log;
    forall q: nat
      ensures ProcessOk(c, w', q)
    {
      assert ProcessOk(c, w, q);
      if q != p {
        OthersKeep(c, w, w', p, q);
      }
    }
  }

  /** An entry read out of sync is in the map that was read. */
  lemma OutOfSyncIsSeen<K(!new), V(!new)>(c: Codec<K, V>, log: seq<Byte>, cursor: nat, op: Operation<K, V>)
    requires Sound(c) && LogOk(c, log) && cursor <= |log| && Framed(c, log[..cursor])
    requires OutOfSync(op, Entries(c, log[cursor..]))
    ensures op.key in MapOf(c, log) && MapOf(c, log)[op.key] != op.value
  {
    SyncReadsAll(c, log, cursor);
    MapHoldsEntries(Entries(c, log), op.key);
    var news, before := Entries(c, log[cursor..]), Entries(c, log[..cursor]);
    var i :| 0 <= i < |news| && news[i].key == op.key && news[i].value != op.value;
    assert (before + news)[|before| + i] == news[i];
  }

  lemma SyncKeeps<K(!new), V(!new)>(c: Codec<K, V>, w: World<K, V>, w': World<K, V>, p: nat)
    requires Sound(c) && Inv(c, w) && Sync(c, w, w', p)
    ensures Inv(c, w')
  {
    assert ProcessOk(c, w, p);
    assert w.log[..|w.log|] == w.log;
    var r := w.processes[p];
    SyncReadsAll(c, w.log, r.cursor);
    if OutOfSync(r.phase.op, Entries(c, w.log[r.cursor..])) {
      OutOfSyncIsSeen(c, w.log, r.cursor, r.phase.op);
    }
    forall q: nat
      ensures ProcessOk(c, w', q)
    {
      assert ProcessOk(c, w, q);
      if q != p {
        OthersKeep(c, w, w', p, q);
      }
    }
  }

  /** The log grows while another process waits. */
  lemma OthersSeeLess<K(!new), V(!new)>(c: Codec<K, V>, w: World<K, V>, w': World<K, V>, p: nat, q: nat)
    requires ProcessOk(c, w, q) && q != p && w.log <= w'.log && w'.holder == w.holder == Some(p)
    requires q in w'.processes <==> q in w.processes
    requires q in w.processes ==> w'.processes[q] == w.processes[q]
    ensures ProcessOk(c, w', q)
  {
    if q in w.processes {
      assert w'.log[..w.processes[q].cursor] == w.log[..w.processes[q].cursor];
    }
  }

  lemma DecideKeeps<K(!new), V(!new)>(c: Codec<K, V>, w: World<K, V>, w': World<K, V>, p: nat)
    requires Sound(c) && Inv(c, w) && Decide(c, w, w', p)
    ensures Inv(c, w')
  {
    assert ProcessOk(c, w, p);
    assert w.log[..|w.log|] == w.log && w'.log[..|w'.log|] == w'.log;
    var op := w.processes[p].phase.op;
    if w'.log != w.log {
      AppendKeepsLog(c, w.log, op.key, op.value);
    }
    forall q: nat
      ensures ProcessOk(c, w', q)
    {
      assert ProcessOk(c, w, q);
      if q != p {
        OthersSeeLess(c, w, w', p, q);
      }
    }
  }

  lemma StepKeeps<K(!new), V(!new)>(c: Codec<K, V>, w: World<K, V>, w': World<K, V>)
    requires Sound(c) && Inv(c, w) && Step(c, w, w')
    ensures Inv(c, w')
  {
    var p: nat :| StepOf(c, w, w', p);
    if op: Operation<K, V> :| Begin(w, w', p, op) {
      BeginKeeps(c, w, w', p, op);
    } else if Acquire(w, w', p) {
      AcquireKeeps(c, w, w', p);
    } else if Sync(c, w, w', p) {
      SyncKeeps(c, w, w', p);
    } else if Decide(c, w, w', p) {
      DecideKeeps(c, w, w', p);
    } else {
      ReleaseKeeps(c, w, w', p);
    }
  }

  // ---------------------------------------------------------------------------------------
  // Runs
  // ---------------------------------------------------------------------------------------

  ghost predicate IsRun<K(!new), V(!new)>(c: Codec<K, V>, run: seq<World<K, V>>) {
    run != [] && Initial(c, run[0]) && forall i: nat {:trigger StepAt(c, run, i)} :: StepAt(c, run, i)
  }

  ghost predicate StepAt<K(!new), V(!new)>(c: Codec<K, V>, run: seq<World<K, V>>, i: nat) {
    0 < i < |run| ==> Step(c, run[i - 1], run[i])
  }

  /** Safety: in every state of every run the log is consistent and every process knows it up to its cursor. */
  lemma {:induction false} EveryStateIsOk<K(!new), V(!new)>(c: Codec<K, V>, run: seq<World<K, V>>, i: nat)
    requires Sound(c) && IsRun(c, run) && i < |run|
    ensures Inv(c, run[i])
  {
    if i == 0 {
      InitialOk(c, run[0]);
    } else {
      EveryStateIsOk(c, run, i - 1);
      assert StepAt(c, run, i);
      StepKeeps(c, run[i - 1], run[i]);
    }
  }

  /** Mutual exclusion: at most one process is inside. */
  lemma OneProcessInside<K(!new), V(!new)>(c: Codec<K, V>, run: seq<World<K, V>>, i: nat, p: nat, q: nat)
    requires Sound(c) && IsRun(c, run) && i < |run| && p in run[i].processes && q in run[i].processes
    requires InCriticalSection(run[i].processes[p].phase) && InCriticalSection(run[i].processes[q].phase)
    ensures p == q
  {
    EveryStateIsOk(c, run, i);
    assert ProcessOk(c, run[i], p) && ProcessOk(c, run[i], q);
  }

  ghost predicate Remembers<K, V>(w: World<K, V>, p: nat, k: K, v: V) {
    p in w.processes && k in w.processes[p].inMemory && w.processes[p].inMemory[k] == v
  }

  /** What a process sees is in the log. */
  lemma SeenIsLogged<K(!new), V(!new)>(c: Codec<K, V>, w: World<K, V>, p: nat, k: K, v: V)
    requires Sound(c) && Inv(c, w) && Remembers(w, p, k, v)
    ensures HoldsEntry(MapOf(c, w.log), Entry(k, v))
  {
    assert ProcessOk(c, w, p);
    var cursor := w.processes[p].cursor;
    SyncReadsAll(c, w.log, cursor);
    var before, all := Entries(c, w.log[..cursor]), Entries(c, w.log);
    assert forall i :: 0 <= i < |before| ==> before[i] == all[i];
    MapHoldsEntries(before, k);
    MapHoldsEntries(all, k);
  }

  lemma StepOnlyAppends<K(!new), V(!new)>(c: Codec<K, V>, w: World<K, V>, w': World<K, V>)
    requires Step(c, w, w')
    ensures w.log <= w'.log && w.accepted <= w'.accepted && w.processes.Keys <= w'.processes.Keys
    ensures forall p: nat :: p in w.processes ==> w.processes[p].cursor <= w'.processes[p].cursor
  {
    var p: nat :| StepOf(c, w, w', p);
  }

  lemma {:induction false} RunOnlyAppends<K(!new), V(!new)>(c: Codec<K, V>, run: seq<World<K, V>>, i: nat, j: nat)
    requires IsRun(c, run) && i <= j < |run|
    ensures run[i].log <= run[j].log && run[i].accepted <= run[j].accepted
    ensures run[i].processes.Keys <= run[j].processes.Keys
    ensures forall p: nat :: p in run[i].processes ==> run[i].processes[p].cursor <= run[j].processes[p].cursor
    decreases j
  {
    if i < j {
      RunOnlyAppends(c, run, i, j - 1);
      assert StepAt(c, run, j);
      StepOnlyAppends(c, run[j - 1], run[j]);
    }
  }

  /** A key of a good log keeps its value when the log grows to another good log. */
  lemma LogKeepsValues<K(!new), V(!new)>(c: Codec<K, V>, log: seq<Byte>, log': seq<Byte>, e: Entry<K, V>)
    requires Sound(c) && LogOk(c, log') && Framed(c, log) && log <= log' && HoldsEntry(MapOf(c, log), e)
    ensures HoldsEntry(MapOf(c, log'), e)
  {
    assert log'[..|log|] == log;
    SyncReadsAll(c, log', |log|);
    var before, all := Entries(c, log), Entries(c, log');
    assert forall i :: 0 <= i < |before| ==> before[i] == all[i];
    MapHoldsEntries(before, e.key);
    MapHoldsEntries(all, e.key);
  }

  /** Once visible to a process, a key never changes its value there. */
  lemma VisibleNeverChanges<K(!new), V(!new)>(c: Codec<K, V>, run: seq<World<K, V>>, i: nat, j: nat, p: nat, k: K, v: V)
    requires Sound(c) && IsRun(c, run) && i <= j < |run| && Remembers(run[i], p, k, v)
    ensures Remembers(run[j], p, k, v)
  {
    EveryStateIsOk(c, run, i);
    EveryStateIsOk(c, run, j);
    RunOnlyAppends(c, run, i, j);
    assert ProcessOk(c, run[i], p) && ProcessOk(c, run[j], p);
    var before, after := run[i].log[..run[i].processes[p].cursor], run[j].log[..run[j].processes[p].cursor];
    assert before <= after;
    PrefixIsOk(c, run[j].log, run[j].processes[p].cursor);
    LogKeepsValues(c, before, after, Entry(k, v));
  }

  lemma PrefixIsOk<K(!new), V(!new)>(c: Codec<K, V>, log: seq<Byte>, cursor: nat)
    requires Sound(c) && LogOk(c, log) && cursor <= |log| && Framed(c, log[..cursor])
    ensures LogOk(c, log[..cursor])
  {
    SyncReadsAll(c, log, cursor);
    var before, all := Entries(c, log[..cursor]), Entries(c, log);
    assert forall i :: 0 <= i < |before| ==> before[i] == all[i];
  }

  /** And no two processes ever see different values of one key, at whatever moments they look. */
  lemma ProcessesAgree<K(!new), V(!new)>(c: Codec<K, V>, run: seq<World<K, V>>, i: nat, j: nat, p: nat, q: nat, k: K,
                                         v: V, v': V)
    requires Sound(c) && IsRun(c, run) && i <= j < |run| && Remembers(run[i], p, k, v) && Remembers(run[j], q, k, v')
    ensures v == v'
  {
    EveryStateIsOk(c, run, i);
    EveryStateIsOk(c, run, j);
    SeenIsLogged(c, run[i], p, k, v);
    SeenIsLogged(c, run[j], q, k, v');
    RunOnlyAppends(c, run, i, j);
    LogKeepsValues(c, run[i].log, run[j].log, Entry(k, v));
  }

  /** A successful insertion is in the log from then on. */
  lemma AcceptedIsLogged<K(!new), V(!new)>(c: Codec<K, V>, run: seq<World<K, V>>, i: nat, j: nat, e: Entry<K, V>)
    requires Sound(c) && IsRun(c, run) && i <= j < |run| && e in run[i].accepted
    ensures HoldsEntry(MapOf(c, run[j].log), e)
  {
    EveryStateIsOk(c, run, j);
    RunOnlyAppends(c, run, i, j);
  }

  /** An insertion is refused exactly if the log holds another value for its key. */
  lemma RefusedIffOtherValue<K(!new), V(!new)>(c: Codec<K, V>, w: World<K, V>, w': World<K, V>, p: nat)
    requires Sound(c) && Inv(c, w) && Decide(c, w, w', p) && w.processes[p].phase.op.Insert?
    ensures var op := w.processes[p].phase.op;
            !w'.processes[p].phase.ok <==> op.key in MapOf(c, w.log) && MapOf(c, w.log)[op.key] != op.value
  {
    assert ProcessOk(c, w, p);
    assert w.log[..|w.log|] == w.log;
  }
}
