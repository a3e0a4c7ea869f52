/**
 The reentrant lock around profiling. Every thread has its own stream; profile calls nest, and the
 token an acquire returned is handed to the matching release.
 */
module ProfileLock {
  import opened Options

  type StreamId = nat

  /** A token names the stream for an outermost call and is `None` for a nested one. */
  type Token = Option<StreamId>

  /** One round of an acquire under the write lock: a token, or try again. */
  class Profiler {
    var current: Option<StreamId>

    constructor ()
      ensures current == None
    {
      current := None;
    }

    method TryAcquire(streamId: StreamId) returns (token: Option<Token>)
      modifies this
      ensures old(current) == None ==> current == Some(streamId) && token == Some(Some(streamId))
      ensures old(current) == Some(streamId) ==> current == old(current) && token == Some(None)
      ensures old(current).Some? && old(current) != Some(streamId) ==> current == old(current) && token == None
      ensures (current, token) == Acquired(old(current), streamId)
    {
      match current {
        case Some(holder) =>
          if holder == streamId {
            return Some(None);
          }
          return None;
        case None =>
          current := Some(streamId);
          return Some(Some(streamId));
      }
    }

    /** Returns false where the `profile_release` of the client panics. */
    method Release(token: Token) returns (ok: bool)
      modifies this
      ensures token == None ==> current == old(current) && ok
      ensures token.Some? && old(current) == token ==> current == None && ok
      ensures token.Some? && old(current) != token ==> current == old(current) && !ok
      ensures (current, ok) == Released(old(current), token)
    {
      if token.None? {
        return true;
      }
      match current {
        case Some(holder) =>
          if holder != token.value {
            return false;
          }
          current := None;
          return true;
        case None =>
          return false;
      }
    }
  }

  function Acquired(current: Option<StreamId>, streamId: StreamId): (Option<StreamId>, Option<Token>) {
    if current.None? then (Some(streamId), Some(Some(streamId)))
    else if current.value == streamId then (current, Some(None))
    else (current, None)
  }

  function Released(current: Option<StreamId>, token: Token): (Option<StreamId>, bool) {
    if token.None? then (current, true)
    else if current == token then (None, true)
    else (current, false)
  }

  // ---------------------------------------------------------------------------------------
  // Threads
  // ---------------------------------------------------------------------------------------

  /** The tokens each thread holds, innermost last; `panicked` once a release has failed. */
  datatype World = World(current: Option<StreamId>, tokens: map<StreamId, seq<Token>>, panicked: bool)

  function TokensOf(w: World, t: StreamId): seq<Token> {
    if t in w.tokens then w.tokens[t] else []
  }

  /** A thread enters a profile call; while another stream profiles it stays outside and tries again. */
  ghost predicate Enter(w: World, w': World, t: StreamId) {
    var (current, token) := Acquired(w.current, t);
    w' == if token.None? then w.(current := current)
      else w.(current := current, tokens := w.tokens[t := TokensOf(w, t) + [token.value]])
  }

  /** A thread leaves its innermost profile call. */
  ghost predicate Leave(w: World, w': World, t: StreamId) {
    var held := TokensOf(w, t);
    && held != []
    && var (current, ok) := Released(w.current, held[|held| - 1]);
       w' == World(current, w.tokens[t := held[..|held| - 1]], w.panicked || !ok)
  }

  ghost predicate Step(w: World, w': World) {
    exists t: StreamId :: Enter(w, w', t) || Leave(w, w', t)
  }

  /** The outermost token names the thread's stream, the others are nested. */
  ghost predicate Nested(t: StreamId, held: seq<Token>) {
    held != [] ==> held[0] == Some(t) && forall i :: 1 <= i < |held| ==> held[i] == None
  }

  ghost predicate ThreadOk(w: World, t: StreamId) {
    Nested(t, TokensOf(w, t)) && (TokensOf(w, t) != [] <==> w.current == Some(t))
  }

  ghost predicate Inv(w: World) {
    !w.panicked && forall t: StreamId {:trigger ThreadOk(w, t)} :: ThreadOk(w, t)
  }

  lemma EnterKeeps(w: World, w': World, t: StreamId)
    requires Inv(w) && Enter(w, w', t)
    ensures Inv(w')
  {
    forall u: StreamId
      ensures ThreadOk(w', u)
    {
      assert ThreadOk(w, u) && ThreadOk(w, t);
    }
  }

  lemma LeaveKeeps(w: World, w': World, t: StreamId)
    requires Inv(w) && Leave(w, w', t)
    ensures Inv(w')
  {
    assert ThreadOk(w, t);
    forall u: StreamId
      ensures ThreadOk(w', u)
    {
      assert ThreadOk(w, u);
    }
  }

  ghost predicate StepAt(run: seq<World>, i: nat) {
    0 < i < |run| ==> Step(run[i - 1], run[i])
  }

  ghost predicate IsRun(run: seq<World>) {
    run != [] && run[0] == World(None, map[], false) && forall i: nat {:trigger StepAt(run, i)} :: StepAt(run, i)
  }

  /**
   In every state of every run the lock is held exactly by the thread inside an outermost profile
   call, and no release has panicked.
   */
  lemma {:induction false} EveryStateIsOk(run: seq<World>, i: nat)
    requires IsRun(run) && i < |run|
    ensures Inv(run[i])
  {
    if i == 0 {
      forall t: StreamId
        ensures ThreadOk(run[0], t)
      {
      }
    } else {
      EveryStateIsOk(run, i - 1);
      assert StepAt(run, i);
      var t: StreamId :| Enter(run[i - 1], run[i], t) || Leave(run[i - 1], run[i], t);
      if Enter(run[i - 1], run[i], t) {
        EnterKeeps(run[i - 1], run[i], t);
      } else {
        LeaveKeeps(run[i - 1], run[i], t);
      }
    }
  }

  /** A thread that is already inside, or that finds nobody inside, gets a token at once. */
  ghost predicate MayEnter(w: World, t: StreamId) {
    TokensOf(w, t) != [] || w.current == None
  }

  /**
   A thread that tries to enter gets a token exactly if it is inside already, then a nested one, or
   if nobody is, then one that names it. Otherwise nothing changes and another thread is inside.
   */
  lemma EntersUnlessOtherInside(run: seq<World>, i: nat, w: World, t: StreamId)
    requires IsRun(run) && i < |run| && Enter(run[i], w, t)
    ensures MayEnter(run[i], t) ==>
              && |TokensOf(w, t)| == |TokensOf(run[i], t)| + 1 && w.current == Some(t)
              && TokensOf(w, t) == TokensOf(run[i], t) + [if TokensOf(run[i], t) == [] then Some(t) else None]
    ensures !MayEnter(run[i], t) ==> w == run[i] && exists u: StreamId :: u != t && TokensOf(run[i], u) != []
  {
    EveryStateIsOk(run, i);
    assert ThreadOk(run[i], t);
    if !MayEnter(run[i], t) {
      assert ThreadOk(run[i], run[i].current.value);
    }
  }

  /** A thread inside can always leave its innermost call, without panic. */
  lemma InsideMayLeave(run: seq<World>, i: nat, t: StreamId) returns (w: World)
    requires IsRun(run) && i < |run| && TokensOf(run[i], t) != []
    ensures Leave(run[i], w, t) && |TokensOf(w, t)| == |TokensOf(run[i], t)| - 1 && !w.panicked
  {
    EveryStateIsOk(run, i);
    var held := TokensOf(run[i], t);
    var (current, ok) := Released(run[i].current, held[|held| - 1]);
    w := World(current, run[i].tokens[t := held[..|held| - 1]], run[i].panicked || !ok);
    LeaveKeeps(run[i], w, t);
  }

  /** Leaving a nested call keeps the lock; leaving the outermost one frees it. */
  lemma OnlyOutermostFrees(run: seq<World>, i: nat, w: World, t: StreamId)
    requires IsRun(run) && i < |run| && Leave(run[i], w, t)
    ensures w.current == if |TokensOf(run[i], t)| > 1 then Some(t) else None
  {
    EveryStateIsOk(run, i);
    assert ThreadOk(run[i], t);
  }

  /** Two threads are never inside profile calls at the same time. */
  lemma OneThreadProfiles(run: seq<World>, i: nat, t: StreamId, u: StreamId)
    requires IsRun(run) && i < |run| && TokensOf(run[i], t) != [] && TokensOf(run[i], u) != []
    ensures t == u
  {
    EveryStateIsOk(run, i);
    assert ThreadOk(run[i], t) && ThreadOk(run[i], u);
  }
}
