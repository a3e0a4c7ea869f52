/** The operations of a cache, as its methods perform them, are runs of steps of the protocol. */
module CacheSteps {
  import opened Options
  import opened CacheFraming
  import opened CacheProtocol
  import opened CacheStore

  /** Five steps of one process, one after the other: its whole operation. */
  ghost predicate OperationRuns<K(!new), V(!new)>(c: Codec<K, V>, ws: seq<World<K, V>>, p: nat, op: Operation<K, V>) {
    && |ws| == 6 && Begin(ws[0], ws[1], p, op) && Acquire(ws[1], ws[2], p) && Sync(c, ws[2], ws[3], p)
    && Decide(c, ws[3], ws[4], p) && Release(ws[4], ws[5], p)
  }

  /** The world in which process `p` of `w` has become `q`. */
  ghost function With<K, V>(w: World<K, V>, p: nat, q: Process<K, V>, holder: Option<nat>, log: seq<Byte>,
                            accepted: seq<Entry<K, V>>): World<K, V> {
    World(log, holder, w.processes[p := q], accepted)
  }

  lemma MovesOn<K, V>(w: World<K, V>, p: nat, q: Process<K, V>, q': Process<K, V>)
    ensures w.processes[p := q][p := q'] == w.processes[p := q']
  {
  }

  lemma BeginIsStep<K, V>(w: World<K, V>, p: nat, op: Operation<K, V>, r: Process<K, V>)
    requires w.holder == None
    requires op.Create? ==> p !in w.processes && r == Process(map[], 0, Idle)
    requires !op.Create? ==> p in w.processes && r == w.processes[p] && r.phase.Idle?
    ensures Begin(w, With(w, p, r.(phase := Waiting(op)), None, w.log, w.accepted), p, op)
  {
  }

  lemma AcquireIsStep<K, V>(w: World<K, V>, p: nat, op: Operation<K, V>, r: Process<K, V>)
    ensures Acquire(With(w, p, r.(phase := Waiting(op)), None, w.log, w.accepted),
                    With(w, p, r.(phase := Holding(op)), Some(p), w.log, w.accepted), p)
  {
    MovesOn(w, p, r.(phase := Waiting(op)), r.(phase := Holding(op)));
  }

  /** What reading up to the end of the log leaves of a process. */
  ghost function Synced<K, V>(c: Codec<K, V>, log: seq<Byte>, op: Operation<K, V>, cursor: nat): Process<K, V>
    requires cursor <= |log|
  {
    Process(MapOf(c, log), |log|, Checked(op, OutOfSync(op, Entries(c, log[cursor..]))))
  }

  lemma SyncIsStep<K(!new), V(!new)>(c: Codec<K, V>, w: World<K, V>, p: nat, op: Operation<K, V>, r: Process<K, V>)
    requires Sound(c) && LogOk(c, w.log)
    requires r.cursor <= |w.log| && Framed(c, w.log[..r.cursor]) && r.inMemory == MapOf(c, w.log[..r.cursor])
    ensures Sync(c, With(w, p, r.(phase := Holding(op)), Some(p), w.log, w.accepted),
                 With(w, p, Synced(c, w.log, op, r.cursor), Some(p), w.log, w.accepted), p)
  {
    SyncReadsAll(c, w.log, r.cursor);
    MovesOn(w, p, r.(phase := Holding(op)), Synced(c, w.log, op, r.cursor));
  }

  /** What a process that begins an operation knows. */
  ghost function Before<K, V>(w: World<K, V>, p: nat, op: Operation<K, V>): Process<K, V> {
    if !op.Create? && p in w.processes then w.processes[p] else Process(map[], 0, Idle)
  }

  ghost predicate CanBegin<K, V>(w: World<K, V>, p: nat, op: Operation<K, V>) {
    && w.holder == None
    && if op.Create? then p !in w.processes else p in w.processes && w.processes[p].phase.Idle?
  }

  lemma BeforeIsOk<K(!new), V(!new)>(c: Codec<K, V>, w: World<K, V>, p: nat, op: Operation<K, V>)
    requires Sound(c) && Inv(c, w) && CanBegin(w, p, op)
    ensures var r := Before(w, p, op);
            r.cursor <= |w.log| && Framed(c, w.log[..r.cursor]) && r.inMemory == MapOf(c, w.log[..r.cursor])
  {
    assert ProcessOk(c, w, p);
    if op.Create? {
      assert w.log[..0] == [];
      FrameIsFramed(c, []);
    }
  }

  /** The last two steps: the decision and the release. */
  lemma DecideAndRelease<K(!new), V(!new)>(c: Codec<K, V>, w: World<K, V>, p: nat, r: Process<K, V>, log: seq<Byte>,
                                           r': Process<K, V>)
    requires r.phase.Checked? && r'.phase.Leaving? && r'.phase.op == r.phase.op
    requires var op, refused := r.phase.op, Refuses(r, r.phase.op, r.phase.outOfSync);
             if op.Insert? && !refused && op.key !in r.inMemory then
               var bytes := FrameOne(c, Entry(op.key, op.value));
               log == w.log + bytes &&
                 r' == Process(r.inMemory[op.key := op.value], r.cursor + |bytes|, Leaving(op, true))
             else log == w.log && r' == r.(phase := Leaving(op, !refused))
    ensures var op := r.phase.op;
            var done := if op.Insert? && r'.phase.ok then [Entry(op.key, op.value)] else [];
            && Decide(c, With(w, p, r, Some(p), w.log, w.accepted), With(w, p, r', Some(p), log, w.accepted), p)
            && Release(With(w, p, r', Some(p), log, w.accepted),
               With(w, p, r'.(phase := Idle), None, log, w.accepted + done), p)
  {
    MovesOn(w, p, r, r');
    MovesOn(w, p, r', r'.(phase := Idle));
  }

  /** An operation is the five steps that lead to its decision and release. */
  lemma OperationIsSteps<K(!new), V(!new)>(c: Codec<K, V>, w: World<K, V>, p: nat, op: Operation<K, V>, w4: World<K, V>,
                                           w5: World<K, V>)
    returns (ws: seq<World<K, V>>)
    requires Sound(c) && Inv(c, w) && CanBegin(w, p, op) && Before(w, p, op).cursor <= |w.log|
    requires Decide(c, With(w, p, Synced(c, w.log, op, Before(w, p, op).cursor), Some(p), w.log, w.accepted), w4, p)
    requires Release(w4, w5, p)
    ensures OperationRuns(c, ws, p, op) && ws[0] == w && ws[5] == w5
  {
    var r := Before(w, p, op);
    BeforeIsOk(c, w, p, op);
    BeginIsStep(w, p, op, r);
    AcquireIsStep(w, p, op, r);
    SyncIsStep(c, w, p, op, r);
    ws := [w, With(w, p, r.(phase := Waiting(op)), None, w.log, w.accepted),
      With(w, p, r.(phase := Holding(op)), Some(p), w.log, w.accepted),
           With(w, p, Synced(c, w.log, op, r.cursor), Some(p), w.log, w.accepted), w4, w5];
  }

  /**
   Opening a cache and iterating over one, as `Cache.constructor` and `Cache.Snapshot` specify
   them, are five steps that leave the log.
   */
  lemma ReadingIsSteps<K(!new), V(!new)>(c: Codec<K, V>, w: World<K, V>, p: nat, op: Operation<K, V>)
    returns (ws: seq<World<K, V>>)
    requires Sound(c) && Inv(c, w) && CanBegin(w, p, op) && !op.Insert?
    ensures OperationRuns(c, ws, p, op) && ws[0] == w
    ensures ws[5] == With(w, p, Process(MapOf(c, w.log), |w.log|, Idle), None, w.log, w.accepted)
  {
    BeforeIsOk(c, w, p, op);
    var r := Synced(c, w.log, op, Before(w, p, op).cursor);
    var r' := r.(phase := Leaving(op, true));
    DecideAndRelease(c, w, p, r, w.log, r');
    assert w.accepted + [] == w.accepted;
    ws := OperationIsSteps(c, w, p, op, With(w, p, r', Some(p), w.log, w.accepted),
      With(w, p, r'.(phase := Idle), None, w.log, w.accepted));
  }

  /** The protocol refuses what `Cache.InsertEntry` refuses. */
  lemma RefusesAlike<K(!new), V(!new)>(c: Codec<K, V>, log: seq<Byte>, cursor: nat, key: K, value: V)
    requires Sound(c) && LogOk(c, log) && cursor <= |log| && Framed(c, log[..cursor])
    ensures var r := Synced(c, log, Insert(key, value), cursor);
            Refuses(r, Insert(key, value), r.phase.outOfSync) <==> key in MapOf(c, log) && MapOf(c, log)[key] != value
  {
    if OutOfSync(Insert(key, value), Entries(c, log[cursor..])) {
      OutOfSyncIsSeen(c, log, cursor, Insert(key, value));
    }
  }

  /** An insertion, as `Cache.InsertEntry` specifies it, is five steps with the same result, log and memory. */
  lemma InsertIsSteps<K(!new), V(!new)>(c: Codec<K, V>, w: World<K, V>, p: nat, key: K, value: V, r: InsertResult<K, V>,
                                        log: seq<Byte>, inMemory: map<K, V>)
    returns (ws: seq<World<K, V>>)
    requires Sound(c) && Inv(c, w) && CanBegin(w, p, Insert(key, value)) && w.processes[p].cursor <= |w.log|
    requires InsertSpec(c, w.log, w.processes[p].cursor, key, value, r, log, inMemory)
    ensures OperationRuns(c, ws, p, Insert(key, value)) && ws[0] == w
    ensures ws[5] == With(w, p, Process(inMemory, |log|, Idle), None, log, w.accepted +
            if r.Inserted? then [Entry(key, value)] else [])
  {
    var op, cursor := Insert(key, value), w.processes[p].cursor;
    BeforeIsOk(c, w, p, op);
    RefusesAlike(c, w.log, cursor, key, value);
    var s := Synced(c, w.log, op, cursor);
    var s' := Process(inMemory, |log|, Leaving(op, r.Inserted?));
    assert w.log + [] == w.log;
    DecideAndRelease(c, w, p, s, log, s');
    var done := if r.Inserted? then [Entry(key, value)] else [];
    ws := OperationIsSteps(c, w, p, op, With(w, p, s', Some(p), log, w.accepted),
      With(w, p, s'.(phase := Idle), None, log, w.accepted + done));
  }
}
