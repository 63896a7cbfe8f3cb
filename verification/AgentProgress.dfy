/**
 Progress of the agent: what a stream's consumer owes the receive loop. Nothing is lost or stuck as long
 as the loop is not blocked on the full queue of a bridge that has ended; then it is blocked for good.
 */
module AgentProgress {
  import opened Prelude
  import opened Frames
  import opened TunnelMachine
  import opened Lanes
  import opened RequestBody
  import opened AgentBodies

  // ---------------------------------------------------------------------------
  // Who reads which stream
  // ---------------------------------------------------------------------------

  /** The handler of request id is still at its body, and its stream is the one in the table. */
  ghost predicate Active(a: Agent, id: Uuid) {
    && id in a.handlers && id in a.tunnel.table
    && a.tunnel.table[id] !in a.bridges && a.tunnel.table[id] !in a.departed
    && (a.handlers[id].Spawned? || (a.handlers[id].Reading? && a.handlers[id].stream == a.tunnel.table[id]))
  }

  /**
   While the connection is up: unfinished handlers are active, every tabled stream has a reader or lost its
   bridge.
   */
  ghost predicate Attended(a: Agent) {
    !a.tunnel.closed ==>
      && (forall id :: id in a.handlers ==> a.handlers[id].Finished? || Active(a, id))
      && (forall id :: id in a.tunnel.table ==>
            Active(a, id) || a.tunnel.table[id] in a.bridges || a.tunnel.table[id] in a.departed)
      && (forall i :: i in a.bridges ==>
            i < |a.tunnel.objs| && a.tunnel.objs[i].id in a.tunnel.table && a.tunnel.table[a.tunnel.objs[i].id] == i)
  }

  /** While the connection is up handlers and bridges never read the same stream. */
  ghost predicate Apart(a: Agent) {
    !a.tunnel.closed ==>
      && (forall i :: i in a.bridges ==> i < |a.tunnel.objs| && i !in a.departed)
      && (forall i :: i in a.departed ==> i < |a.tunnel.objs|)
      && (forall id :: id in a.handlers && a.handlers[id].Reading? ==>
            a.handlers[id].stream !in a.bridges && a.handlers[id].stream !in a.departed)
  }

  /** A stream with somebody to take from it. */
  ghost predicate HasReader(a: Agent, i: nat) {
    i in a.bridges ||
    (i < |a.tunnel.objs| && var id := a.tunnel.objs[i].id; Active(a, id) && a.tunnel.table[id] == i)
  }

  /** While the connection is up: a put on a full queue waits for a reader, or for one that has ended. */
  ghost predicate Awaited(a: Agent) {
    !a.tunnel.closed && a.tunnel.loop.Putting? && Full(a.tunnel, a.tunnel.loop.stream) ==>
      HasReader(a, a.tunnel.loop.stream) || a.tunnel.loop.stream in a.departed
  }

  ghost predicate Cared(a: Agent) {
    Sound(a.tunnel) && Attended(a) && Apart(a) && Awaited(a)
  }

  /** A stream was opened, for a handler or for a bridge. */
  ghost predicate Opened(a: Agent, a': Agent, id: Uuid) {
    var n := |a.tunnel.objs|;
    && id !in a.tunnel.table
    && a'.tunnel == a.tunnel.(objs := a.tunnel.objs + [NewStream(id)], table := a.tunnel.table[id := n])
    && a'.departed == a.departed && a'.dead == a.dead
    && ((a'.handlers == a.handlers[id := Spawned] && a'.bridges == a.bridges) ||
        (a'.handlers == a.handlers && a'.bridges == a.bridges + {n}))
  }

  lemma OpenedKeepsActive(a: Agent, a': Agent, id: Uuid)
    requires Opened(a, a', id) && forall x :: x in a.tunnel.table ==> a.tunnel.table[x] < |a.tunnel.objs|
    ensures forall x :: x != id ==> Active(a', x) == Active(a, x)
  {
    forall x | x != id ensures Active(a', x) == Active(a, x) {}
  }

  lemma OpenedKeepsCare(a: Agent, a': Agent, id: Uuid)
    requires Opened(a, a', id) && Attended(a) && Apart(a)
    requires forall x :: x in a.tunnel.table ==> a.tunnel.table[x] < |a.tunnel.objs|
    ensures Attended(a') && Apart(a')
  {
    OpenedKeepsActive(a, a', id);
    if !a.tunnel.closed && a'.bridges == a.bridges { assert Active(a', id); }
  }

  lemma OpenKeepsCared(a: Agent, f: Frame)
    requires Attended(a) && Apart(a) && !a.dead && a.tunnel.loop == Idle && (f.kind == OPEN || f.kind == WS_OPEN)
    requires forall id :: id in a.tunnel.table ==> a.tunnel.table[id] < |a.tunnel.objs|
    ensures Attended(ReceiveFrame(a, f, true)) && Apart(ReceiveFrame(a, f, true)) && Awaited(ReceiveFrame(a, f, true))
  {
    var a' := ReceiveFrame(a, f, true);
    if OpenError(a.tunnel, f.id).None? { OpenedKeepsCare(a, a', f.id); } else { SameReadersKeepCare(a, a'); }
  }

  /** Table, readers and stream ids as they were. */
  lemma SameReadersKeepActive(a: Agent, a': Agent, id: Uuid)
    requires a'.tunnel.table == a.tunnel.table && a'.handlers == a.handlers && a'.bridges == a.bridges
    requires a'.departed == a.departed
    ensures Active(a', id) == Active(a, id)
  {
  }

  lemma SameReadersKeepCare(a: Agent, a': Agent)
    requires a'.tunnel.table == a.tunnel.table && a'.handlers == a.handlers && a'.bridges == a.bridges
    requires a'.departed == a.departed
    requires a'.tunnel.closed == a.tunnel.closed && |a'.tunnel.objs| == |a.tunnel.objs|
    requires forall i :: 0 <= i < |a.tunnel.objs| ==> a'.tunnel.objs[i].id == a.tunnel.objs[i].id
    requires Attended(a) && Apart(a)
    ensures Attended(a') && Apart(a')
    ensures forall i: nat :: i < |a.tunnel.objs| ==> HasReader(a', i) == HasReader(a, i)
  {
    forall id ensures Active(a', id) == Active(a, id) { SameReadersKeepActive(a, a', id); }
  }

  lemma RouteKeepsCared(a: Agent, f: Frame, accept: bool)
    requires Cared(a) && !a.dead && a.tunnel.loop == Idle && f.kind != OPEN && f.kind != WS_OPEN
    ensures var a' := ReceiveFrame(a, f, accept); Attended(a') && Apart(a') && Awaited(a')
  {
    var a' := ReceiveFrame(a, f, accept);
    DispatchRoutes(a.tunnel, f);
    SameReadersKeepCare(a, a');
  }

  lemma ReceiveKeepsCared(inbox: Inbox, a: Agent, accept: bool)
    requires Cared(a)
    ensures Cared(ReceiveNext(inbox, a, accept))
  {
    var a' := ReceiveNext(inbox, a, accept);
    ReceiveKeepsSound(inbox, a, accept);
    if a.dead || a.tunnel.loop != Idle || a.position >= |inbox| {
    } else if inbox[a.position].Failure? {
      SameReadersKeepCare(a, a');
    } else {
      var f := inbox[a.position].value;
      if f.kind == OPEN || f.kind == WS_OPEN {
        if accept { OpenKeepsCared(a, f); } else { SameReadersKeepCare(a, a'); }
      } else {
        RouteKeepsCared(a, f, accept);
      }
    }
  }

  lemma StartKeepsCared(a: Agent, id: Uuid)
    requires Cared(a)
    ensures Cared(StartHandler(a, id))
  {
    var a' := StartHandler(a, id);
    forall x | Active(a, x) ensures Active(a', x) {}
  }

  /** The handler of id goes on reading. */
  lemma GoesOnReading(a: Agent, a': Agent, id: Uuid)
    requires Attended(a) && Apart(a) && id in a.handlers && a.handlers[id].Reading?
    requires SameStreams(a.tunnel, a'.tunnel) && a'.tunnel.table == a.tunnel.table
    requires a'.bridges == a.bridges && a'.departed == a.departed && a'.dead == a.dead
    requires exists parts :: a'.handlers == a.handlers[id := Reading(a.handlers[id].stream, parts)]
    ensures Attended(a') && Apart(a') && forall k: nat :: HasReader(a, k) ==> HasReader(a', k)
  {
    forall x ensures Active(a', x) == Active(a, x) {}
  }

  /** The handler of id has its body and its entry goes; nobody else is affected. */
  lemma FinishesReading(a: Agent, a': Agent, id: Uuid)
    requires Attended(a) && Apart(a) && id in a.handlers && a.handlers[id].Reading?
    requires SameStreams(a.tunnel, a'.tunnel) && a'.tunnel.table == a.tunnel.table - {id}
    requires a'.bridges == a.bridges && a'.departed == a.departed && a'.dead == a.dead
    requires exists content :: a'.handlers == a.handlers[id := Finished(content)]
    ensures Attended(a') && Apart(a')
    ensures !a.tunnel.closed ==> forall k: nat :: HasReader(a, k) && k != a.handlers[id].stream ==> HasReader(a', k)
  {
    forall x | x != id ensures Active(a', x) == Active(a, x) {}
    if !a.tunnel.closed { assert Active(a, id); }
  }

  /** A stream whose queue got shorter no longer blocks the loop; the others wait as before. */
  lemma ShorterKeepsAwaited(a: Agent, a': Agent, i: nat)
    requires Awaited(a) && SameStreams(a.tunnel, a'.tunnel) && a'.tunnel.loop == a.tunnel.loop
    requires a'.departed == a.departed && !Full(a'.tunnel, i)
    requires forall k :: 0 <= k < |a.tunnel.objs| && k != i ==> a'.tunnel.objs[k] == a.tunnel.objs[k]
    requires !a.tunnel.closed ==> forall k: nat :: HasReader(a, k) && k != i ==> HasReader(a', k)
    ensures Awaited(a')
  {
  }

  lemma TakenByHandler(a: Agent, id: Uuid)
    requires id in a.handlers && a.handlers[id].Reading? && CanTake(a.tunnel, a.handlers[id].stream)
    ensures var a' := TakeByHandler(a, id); var i := a.handlers[id].stream; var t' := Take(a.tunnel, i);
            && a'.bridges == a.bridges && a'.departed == a.departed && a'.dead == a.dead
            && a'.tunnel.objs == t'.objs && a'.tunnel.closed == t'.closed && a'.tunnel.loop == t'.loop
            && ((a'.tunnel.table == t'.table && exists parts :: a'.handlers == a.handlers[id := Reading(i, parts)]) ||
                (a'.tunnel.table == t'.table - {id}
                    && exists content :: a'.handlers == a.handlers[id := Finished(content)]))
  {
  }

  lemma HandlerTakeKeepsCared(a: Agent, id: Uuid)
    requires Cared(a)
    ensures Cared(TakeByHandler(a, id))
  {
    HandlerTakeKeepsSound(a, id);
    if id in a.handlers && a.handlers[id].Reading? && CanTake(a.tunnel, a.handlers[id].stream) {
      HandlerTakeKeepsReaders(a, TakeByHandler(a, id), id);
    }
  }

  lemma HandlerTakeKeepsReaders(a: Agent, a': Agent, id: Uuid)
    requires Sound(a.tunnel) && Attended(a) && Apart(a) && Awaited(a) && id in a.handlers && a.handlers[id].Reading?
    requires CanTake(a.tunnel, a.handlers[id].stream) && a' == TakeByHandler(a, id)
    ensures Attended(a') && Apart(a') && Awaited(a')
  {
    var i := a.handlers[id].stream;
    TakenByHandler(a, id);
    TakeShortens(a.tunnel, i);
    if a'.tunnel.table == a.tunnel.table && exists parts :: a'.handlers == a.handlers[id := Reading(i, parts)] {
      GoesOnReading(a, a', id);
    } else {
      FinishesReading(a, a', id);
    }
    ShorterKeepsAwaited(a, a', i);
  }

  lemma PutKeepsCare(a: Agent, a': Agent)
    requires Attended(a) && Apart(a) && Awaited(a) && a' == a.(tunnel := Put(a.tunnel))
    ensures Attended(a') && Apart(a') && Awaited(a')
  {
    SameReadersKeepCare(a, a');
  }

  lemma PutKeepsCared(a: Agent)
    requires Cared(a)
    ensures Cared(a.(tunnel := Put(a.tunnel)))
  {
    PutKeepsSound(a.tunnel);
    PutKeepsCare(a, a.(tunnel := Put(a.tunnel)));
  }

  lemma BridgeTakeKeepsCared(a: Agent, i: nat)
    requires Cared(a) && i in a.bridges
    ensures Cared(a.(tunnel := Take(a.tunnel, i)))
  {
    TakeKeepsSound(a.tunnel, i);
    if CanTake(a.tunnel, i) {
      TakeShortens(a.tunnel, i);
      SameReadersKeepCare(a, a.(tunnel := Take(a.tunnel, i)));
    }
  }

  /** The bridge of stream i has ended, with or without its entry in the table. */
  ghost predicate EndedBy(a: Agent, a': Agent, i: nat) {
    && i in a.bridges && i < |a.tunnel.objs|
    && a' == a.(tunnel := a'.tunnel, bridges := a.bridges - {i}, departed := a.departed + {i})
    && (a'.tunnel == a.tunnel || a'.tunnel == Remove(a.tunnel, a.tunnel.objs[i].id))
  }

  lemma EndKeepsActive(a: Agent, a': Agent, i: nat)
    requires EndedBy(a, a', i) && Attended(a) && !a.tunnel.closed && TableOwns(a.tunnel)
    ensures forall x :: Active(a', x) == Active(a, x)
  {
    forall x ensures Active(a', x) == Active(a, x) {}
  }

  lemma EndKeepsAttended(a: Agent, a': Agent, i: nat)
    requires EndedBy(a, a', i) && Attended(a) && TableOwns(a.tunnel)
    ensures Attended(a')
  {
    if !a.tunnel.closed { EndKeepsActive(a, a', i); }
  }

  lemma EndKeepsAwaited(a: Agent, a': Agent, i: nat)
    requires EndedBy(a, a', i) && Attended(a) && Awaited(a) && TableOwns(a.tunnel)
    ensures Awaited(a')
  {
    if !a.tunnel.closed { EndKeepsActive(a, a', i); }
  }

  lemma EndKeepsApart(a: Agent, a': Agent, i: nat)
    requires EndedBy(a, a', i) && Apart(a)
    ensures Apart(a')
  {
  }

  lemma BridgeEndKeepsCared(a: Agent, i: nat, removes: bool)
    requires Cared(a)
    ensures Cared(EndBridge(a, i, removes))
  {
    if i in a.bridges && i < |a.tunnel.objs| {
      var a' := EndBridge(a, i, removes);
      RemoveKeepsSound(a.tunnel, a.tunnel.objs[i].id);
      EndKeepsAttended(a, a', i);
      EndKeepsAwaited(a, a', i);
      EndKeepsApart(a, a', i);
    }
  }

  lemma TearDownKeepsCared(a: Agent)
    requires Cared(a)
    ensures Cared(a.(tunnel := TearDown(a.tunnel))) && Cared(a.(tunnel := TearDown(a.tunnel), dead := true))
  {
    TearDownKeepsSound(a.tunnel);
  }

  lemma StepKeepsCared(inbox: Inbox, a: Agent, action: AgentAction)
    requires Cared(a)
    ensures Cared(AgentStep(inbox, a, action))
  {
    AgentStepIs(inbox, a, action);
    match action
    case Receive(accept) => ReceiveKeepsCared(inbox, a, accept);
    case CompletePut => PutKeepsCared(a);
    case Start(id) => StartKeepsCared(a, id);
    case TakeChunk(id) => HandlerTakeKeepsCared(a, id);
    case BridgeTake(i) => if i in a.bridges { BridgeTakeKeepsCared(a, i); }
    case BridgeEnd(i, removes) => BridgeEndKeepsCared(a, i, removes);
    case GiveUpHeartbeat => TearDownKeepsCared(a);
    case Disconnect => TearDownKeepsCared(a);
  }

  lemma {:induction false} RunKeepsCared(inbox: Inbox, a: Agent, actions: seq<AgentAction>)
    requires Cared(a)
    ensures Cared(AgentRun(inbox, a, actions))
    decreases actions
  {
    if actions != [] {
      StepKeepsCared(inbox, a, actions[0]);
      RunKeepsCared(inbox, AgentStep(inbox, a, actions[0]), actions[1..]);
    }
  }

  lemma NewIsCared()
    ensures Cared(NEW_AGENT)
  {
  }

  // ---------------------------------------------------------------------------
  // Once the wire is read, every handler can finish
  // ---------------------------------------------------------------------------

  function Takes(r: Uuid, n: nat): seq<AgentAction> {
    seq(n, _ => TakeChunk(r))
  }

  /** The loop is between frames, has read all of request r, and r's handler is reading a tabled stream. */
  ghost predicate AllReceived(inbox: Inbox, a: Agent, r: Uuid, payloads: seq<Bytes>) {
    && a.tunnel.loop == Idle && a.position <= |inbox| && |Lane(inbox[..a.position], r, ToAgent)| == |payloads| + 1
    && r in a.tunnel.table && r in a.handlers && a.handlers[r].Reading?
  }

  /** What the handler has, and what its queue still holds, is the whole request. */
  lemma RestIsQueued(a: Agent, r: Uuid, payloads: seq<Bytes>, home: nat)
    requires Tracks(a, r, payloads, |payloads| + 1, home) && Sound(a.tunnel) && a.tunnel.loop == Idle
    requires EndsWithSentinel(payloads) && r in a.tunnel.table && r in a.handlers && a.handlers[r].Reading?
    ensures a.handlers[r].stream == home && CanTake(a.tunnel, home) && |a.handlers[r].parts| < |payloads|
  {
    var s := a.tunnel.objs[home];
    assert StreamSound(s, InFlight(a.tunnel, home));
    assert s.taken + s.queue + [] == s.taken + s.queue;
    assert s.dispatched == payloads;
    assert payloads[|payloads| - 1] in payloads;
  }

  lemma TakeKeepsReceived(inbox: Inbox, a: Agent, r: Uuid, payloads: seq<Bytes>)
    requires AllReceived(inbox, a, r, payloads) && CanTake(a.tunnel, a.handlers[r].stream)
    ensures var a' := TakeByHandler(a, r);
            r in a'.handlers && (a'.handlers[r].Finished? ||
                                 (AllReceived(inbox, a', r, payloads)
                                     && |a'.handlers[r].parts| == |a.handlers[r].parts| + 1))
  {
  }

  lemma TakeChunkStep(inbox: Inbox, a: Agent, r: Uuid)
    ensures AgentStep(inbox, a, TakeChunk(r)) == TakeByHandler(a, r)
  {
  }

  lemma TakesNext(inbox: Inbox, a: Agent, r: Uuid, n: nat)
    ensures AgentRun(inbox, a, Takes(r, n + 1)) == AgentRun(inbox, TakeByHandler(a, r), Takes(r, n))
  {
    TakeChunkStep(inbox, a, r);
    assert Takes(r, n + 1)[1..] == Takes(r, n);
  }

  /** The takes of `a` are one take and then those of `a'`. */
  ghost predicate TakesFollow(inbox: Inbox, a: Agent, a': Agent, r: Uuid) {
    forall n: nat :: AgentRun(inbox, a, Takes(r, n + 1)) == AgentRun(inbox, a', Takes(r, n))
  }

  lemma TakesFromFollow(inbox: Inbox, a: Agent, r: Uuid)
    ensures TakesFollow(inbox, a, TakeByHandler(a, r), r)
  {
    forall n: nat ensures AgentRun(inbox, a, Takes(r, n + 1)) == AgentRun(inbox, TakeByHandler(a, r), Takes(r, n)) {
      TakesNext(inbox, a, r, n);
    }
  }

  lemma FinishAfterTake(inbox: Inbox, a: Agent, a': Agent, r: Uuid, n: nat, content: Bytes)
    requires TakesFollow(inbox, a, a', r) && BodyIs(AgentRun(inbox, a', Takes(r, n)), r, content)
    ensures BodyIs(AgentRun(inbox, a, Takes(r, n + 1)), r, content)
  {
  }

  /** r's handler can still finish, with at most `left` payloads to take. */
  ghost predicate CanFinish(inbox: Inbox, a: Agent, r: Uuid, payloads: seq<Bytes>, home: nat, left: nat) {
    && Inv(inbox, a, r, payloads, home) && AllReceived(inbox, a, r, payloads)
    && |payloads| - |a.handlers[r].parts| <= left
  }

  /** One more take finishes the body or leaves less to take. */
  lemma TakeProgress(inbox: Inbox, a: Agent, r: Uuid, metadata: Bytes, payloads: seq<Bytes>, home: nat, left: nat)
    returns (a': Agent, home': nat)
    requires CanFinish(inbox, a, r, payloads, home, left) && LaneFits(inbox, r, metadata, payloads)
    requires EndsWithSentinel(payloads)
    ensures TakesFollow(inbox, a, a', r)
    ensures BodyIs(a', r, Concat(payloads)) || (left > 0 && CanFinish(inbox, a', r, payloads, home', left - 1))
  {
    a' := TakeByHandler(a, r);
    RestIsQueued(a, r, payloads, home);
    TakeKeepsReceived(inbox, a, r, payloads);
    TakeChunkStep(inbox, a, r);
    TakesFromFollow(inbox, a, r);
    home' := StepKeepsInv(inbox, a, TakeChunk(r), r, metadata, payloads, home);
  }

  lemma {:induction false} ReadingCompletes(inbox: Inbox, a: Agent, r: Uuid, metadata: Bytes, payloads: seq<Bytes>,
                                            home: nat, left: nat)
    returns (n: nat)
    requires CanFinish(inbox, a, r, payloads, home, left) && LaneFits(inbox, r, metadata, payloads)
    requires EndsWithSentinel(payloads)
    ensures BodyIs(AgentRun(inbox, a, Takes(r, n)), r, Concat(payloads))
    decreases left
  {
    var a', home' := TakeProgress(inbox, a, r, metadata, payloads, home, left);
    n := 0;
    if !BodyIs(a', r, Concat(payloads)) {
      n := ReadingCompletes(inbox, a', r, metadata, payloads, home', left - 1);
    }
    FinishAfterTake(inbox, a, a', r, n, Concat(payloads));
    n := n + 1;
  }

  ghost predicate BodyIs(a: Agent, r: Uuid, content: Bytes) {
    r in a.handlers && a.handlers[r] == Finished(content)
  }

  /** The handler has finished, or holds a stream that has received everything once it has started. */
  lemma StartedOrFinished(inbox: Inbox, a: Agent, r: Uuid, payloads: seq<Bytes>)
    requires Attended(a) && !a.tunnel.closed && r in a.handlers && a.tunnel.loop == Idle
    requires a.position <= |inbox| && |Lane(inbox[..a.position], r, ToAgent)| == |payloads| + 1
    ensures if a.handlers[r].Finished? then StartHandler(a, r) == a
            else AllReceived(inbox, StartHandler(a, r), r, payloads)
  {
  }

  lemma StartInv(inbox: Inbox, a: Agent, r: Uuid, payloads: seq<Bytes>, home: nat)
    requires Inv(inbox, a, r, payloads, home)
    ensures Inv(inbox, StartHandler(a, r), r, payloads, home)
  {
    StartKeepsReaders(a, r);
    StartKeepsTracks(a, r, payloads, |Lane(inbox[..a.position], r, ToAgent)|, home);
  }

  lemma FinishedOrCompletes(inbox: Inbox, a: Agent, r: Uuid, metadata: Bytes, payloads: seq<Bytes>, home: nat)
    returns (n: nat)
    requires Inv(inbox, a, r, payloads, home) && LaneFits(inbox, r, metadata, payloads) && EndsWithSentinel(payloads)
    requires Attended(a) && !a.tunnel.closed && r in a.handlers && a.tunnel.loop == Idle
    requires |Lane(inbox[..a.position], r, ToAgent)| == |payloads| + 1
    ensures BodyIs(AgentRun(inbox, StartHandler(a, r), Takes(r, n)), r, Concat(payloads))
  {
    StartedOrFinished(inbox, a, r, payloads);
    if a.handlers[r].Finished? {
      n := 0;
    } else {
      StartInv(inbox, a, r, payloads, home);
      n := ReadingCompletes(inbox, StartHandler(a, r), r, metadata, payloads, home, |payloads|);
    }
  }

  /**
   Whenever the loop has read a wire that carries the whole of request r and the connection is up, r's
   handler (if its OPEN was accepted) has finished with its body or finishes with it by its own steps alone.
   */
  lemma EveryBodyCompletes(inbox: Inbox, actions: seq<AgentAction>, r: Uuid, metadata: Bytes, chunks: seq<Bytes>)
    returns (n: nat)
    requires Lane(inbox, r, ToAgent) == RequestFrames(r, metadata, chunks)
    requires var a := AgentRun(inbox, NEW_AGENT, actions);
             a.position == |inbox| && a.tunnel.loop == Idle && !a.tunnel.closed && r in a.handlers
    ensures var a := AgentRun(inbox, NEW_AGENT, actions);
            BodyIs(AgentRun(inbox, a, [Start(r)] + Takes(r, n)), r, Concat(chunks))
  {
    var a := AgentRun(inbox, NEW_AGENT, actions);
    BodyPayloadsEnd(chunks);
    assert inbox[..0] == [] && inbox[..|inbox|] == inbox;
    var home := RunKeepsInv(inbox, NEW_AGENT, actions, r, metadata, BodyPayloads(chunks), 0);
    NewIsCared();
    RunKeepsCared(inbox, NEW_AGENT, actions);
    n := FinishedOrCompletes(inbox, a, r, metadata, BodyPayloads(chunks), home);
    StartFirst(inbox, a, r, Takes(r, n));
  }

  lemma StartFirst(inbox: Inbox, a: Agent, r: Uuid, rest: seq<AgentAction>)
    ensures AgentRun(inbox, a, [Start(r)] + rest) == AgentRun(inbox, StartHandler(a, r), rest)
  {
    assert ([Start(r)] + rest)[1..] == rest;
  }

  // ---------------------------------------------------------------------------
  // A blocked loop
  // ---------------------------------------------------------------------------

  /** The loop is blocked on the full queue of a stream whose bridge has ended. */
  ghost predicate Stuck(a: Agent) {
    a.tunnel.loop.Putting? && Full(a.tunnel, a.tunnel.loop.stream) && a.tunnel.loop.stream in a.departed
  }

  /** Nobody holds stream i or will look it up. */
  ghost predicate Unheld(a: Agent, i: nat) {
    && i !in a.bridges
    && forall id :: id in a.handlers ==>
         && !(a.handlers[id].Reading? && a.handlers[id].stream == i)
         && !(a.handlers[id].Spawned? && id in a.tunnel.table && a.tunnel.table[id] == i)
  }

  /** The loop is blocked on a full queue that nobody will ever take from. */
  ghost predicate Hopeless(a: Agent) {
    a.tunnel.loop.Putting? && Full(a.tunnel, a.tunnel.loop.stream) && Unheld(a, a.tunnel.loop.stream)
  }

  lemma StuckIsHopeless(a: Agent)
    requires Cared(a) && !a.tunnel.closed && Stuck(a)
    ensures Hopeless(a)
  {
    var i := a.tunnel.loop.stream;
    forall id | id in a.handlers && a.handlers[id].Spawned? && id in a.tunnel.table ensures a.tunnel.table[id] != i {
      assert Active(a, id);
    }
  }

  lemma HopelessTake(a: Agent, id: Uuid)
    requires Hopeless(a)
    ensures var a' := TakeByHandler(a, id);
            Hopeless(a') && a'.tunnel.loop == a.tunnel.loop && a'.position == a.position
  {
  }

  lemma HopelessStep(inbox: Inbox, a: Agent, action: AgentAction)
    requires Hopeless(a)
    ensures var a' := AgentStep(inbox, a, action);
            Hopeless(a') && a'.tunnel.loop == a.tunnel.loop && a'.position == a.position
  {
    AgentStepIs(inbox, a, action);
    if action.TakeChunk? { HopelessTake(a, action.id); }
  }

  /** Then it is blocked for good: no run of the agent frees it, tear-downs and what follows them included. */
  lemma {:induction false} StuckForever(inbox: Inbox, a: Agent, actions: seq<AgentAction>)
    requires Hopeless(a)
    ensures var b := AgentRun(inbox, a, actions); b.tunnel.loop == a.tunnel.loop && b.position == a.position
    decreases actions
  {
    if actions != [] {
      HopelessStep(inbox, a, actions[0]);
      StuckForever(inbox, AgentStep(inbox, a, actions[0]), actions[1..]);
    }
  }

  lemma {:induction false} RunAppend(inbox: Inbox, a: Agent, x: seq<AgentAction>, y: seq<AgentAction>)
    ensures AgentRun(inbox, a, x + y) == AgentRun(inbox, AgentRun(inbox, a, x), y)
    decreases x
  {
    if x == [] {
      assert x + y == y;
    } else {
      RunAppend(inbox, AgentStep(inbox, a, x[0]), x[1..], y);
      assert (x + y)[1..] == x[1..] + y;
    }
  }

  /** A step of the tasks that are there: no bridge ends and nothing is torn down. */
  predicate IsOwnStep(action: AgentAction) {
    !action.Disconnect? && !action.GiveUpHeartbeat? && !action.BridgeEnd?
  }

  /** A schedule of the agent's own tasks: no disconnect, no bridge ends, and the metadata decide on each OPEN. */
  ghost predicate Obeys(inbox: Inbox, a: Agent, actions: seq<AgentAction>, accepts: nat -> bool)
    decreases actions
  {
    actions == [] ||
    (IsOwnStep(actions[0]) && (actions[0].Receive? ==> actions[0].accept == accepts(a.position))
     && Obeys(inbox, AgentStep(inbox, a, actions[0]), actions[1..], accepts))
  }

  lemma ObeysCons(inbox: Inbox, a: Agent, action: AgentAction, rest: seq<AgentAction>, accepts: nat -> bool)
    requires IsOwnStep(action) && (action.Receive? ==> action.accept == accepts(a.position))
    requires Obeys(inbox, AgentStep(inbox, a, action), rest, accepts)
    ensures Obeys(inbox, a, [action] + rest, accepts)
    ensures AgentRun(inbox, a, [action] + rest) == AgentRun(inbox, AgentStep(inbox, a, action), rest)
  {
    assert ([action] + rest)[1..] == rest;
  }

  /** The blocked put of `a` can complete in `b`, and nothing else that matters to the loop has changed. */
  ghost predicate RoomMade(a: Agent, b: Agent) {
    && CanPut(b.tunnel) && b.tunnel.loop == a.tunnel.loop && b.position == a.position && b.dead == a.dead
    && b.tunnel.closed == a.tunnel.closed && b.departed == a.departed && b.tunnel.table.Values <= a.tunnel.table.Values
  }

  lemma BridgeMakesRoom(a: Agent, i: nat)
    requires Sound(a.tunnel) && i in a.bridges && Full(a.tunnel, i) && a.tunnel.loop.Putting?
    requires a.tunnel.loop.stream == i
    ensures RoomMade(a, a.(tunnel := Take(a.tunnel, i)))
  {
    TakeShortens(a.tunnel, i);
  }

  lemma StartLooksUp(a: Agent, id: Uuid)
    requires Active(a, id)
    ensures var b := StartHandler(a, id);
            && id in b.handlers && b.handlers[id].Reading? && b.handlers[id].stream == a.tunnel.table[id]
            && b == a.(handlers := b.handlers)
  {
  }

  /** The steps that make room for the blocked put: a bridge's or a handler's. */
  lemma MakeRoom(inbox: Inbox, a: Agent, accepts: nat -> bool) returns (actions: seq<AgentAction>)
    requires Cared(a) && !a.tunnel.closed && a.tunnel.loop.Putting? && !Stuck(a)
    ensures Obeys(inbox, a, actions, accepts) && RoomMade(a, AgentRun(inbox, a, actions))
  {
    var i := a.tunnel.loop.stream;
    if !Full(a.tunnel, i) {
      actions := [];
    } else if i in a.bridges {
      BridgeMakesRoom(a, i);
      ObeysCons(inbox, a, BridgeTake(i), [], accepts);
      actions := [BridgeTake(i)] + [];
    } else {
      actions := HandlerRoom(inbox, a, a.tunnel.objs[i].id, i, accepts);
    }
  }

  lemma HandlerRoom(inbox: Inbox, a: Agent, id: Uuid, i: nat, accepts: nat -> bool) returns (actions: seq<AgentAction>)
    requires Sound(a.tunnel) && Active(a, id) && a.tunnel.table[id] == i && Full(a.tunnel, i)
    requires a.tunnel.loop.Putting? && a.tunnel.loop.stream == i
    ensures Obeys(inbox, a, actions, accepts) && RoomMade(a, AgentRun(inbox, a, actions))
  {
    var b := StartHandler(a, id);
    StartLooksUp(a, id);
    HandlerMakesRoom(b, id, i);
    TakeChunkStep(inbox, b, id);
    ObeysCons(inbox, b, TakeChunk(id), [], accepts);
    ObeysCons(inbox, a, Start(id), [TakeChunk(id)] + [], accepts);
    actions := [Start(id)] + ([TakeChunk(id)] + []);
  }

  lemma HandlerMakesRoom(b: Agent, id: Uuid, i: nat)
    requires Sound(b.tunnel) && id in b.handlers && b.handlers[id].Reading? && b.handlers[id].stream == i
    requires Full(b.tunnel, i)
    requires b.tunnel.loop.Putting? && b.tunnel.loop.stream == i
    ensures RoomMade(b, TakeByHandler(b, id))
  {
    TakeShortens(b.tunnel, i);
    TakenByHandler(b, id);
  }

  /**
   The exact condition: a loop that is blocked on a full queue can be freed by some run of the agent if and
   only if that stream's bridge has not ended. A request handler never leaves the loop blocked.
   */
  lemma UnblockedExactlyWhen(inbox: Inbox, actions: seq<AgentAction>)
    requires var a := AgentRun(inbox, NEW_AGENT, actions);
             !a.tunnel.closed && a.tunnel.loop.Putting? && Full(a.tunnel, a.tunnel.loop.stream)
    ensures var a := AgentRun(inbox, NEW_AGENT, actions);
            (exists more :: AgentRun(inbox, a, more).tunnel.loop == Idle) <==> a.tunnel.loop.stream !in a.departed
  {
    var a := AgentRun(inbox, NEW_AGENT, actions);
    NewIsCared();
    RunKeepsCared(inbox, NEW_AGENT, actions);
    if a.tunnel.loop.stream in a.departed {
      StuckIsHopeless(a);
      forall more ensures AgentRun(inbox, a, more).tunnel.loop != Idle { StuckForever(inbox, a, more); }
    } else {
      var room := MakeRoom(inbox, a, _ => true);
      RunAppend(inbox, a, room, [CompletePut]);
      var b := AgentRun(inbox, a, room);
      assert [CompletePut][1..] == [] && AgentRun(inbox, b, [CompletePut]) == AgentStep(inbox, b, CompletePut);
      assert AgentRun(inbox, a, room + [CompletePut]).tunnel.loop == Idle;
    }
  }

  // ---------------------------------------------------------------------------
  // The wire is read
  // ---------------------------------------------------------------------------

  /** Every bridge that has ended has removed its entry from the table. */
  ghost predicate NoGhosts(a: Agent) {
    forall i :: i in a.tunnel.table.Values ==> i !in a.departed
  }

  /** The loop is dead because it could not decode a message or open a stream. */
  ghost predicate Refuses(inbox: Inbox, a: Agent) {
    && a.dead && a.position < |inbox|
    && (inbox[a.position].Failure? ||
        ((inbox[a.position].value.kind == OPEN || inbox[a.position].value.kind == WS_OPEN)
         && OpenError(a.tunnel, inbox[a.position].value.id).Some?))
  }

  ghost predicate Read(inbox: Inbox, a: Agent) {
    !a.tunnel.closed && (Refuses(inbox, a) || (a.position == |inbox| && a.tunnel.loop == Idle))
  }

  /** The loop is alive. */
  ghost predicate Going(inbox: Inbox, a: Agent) {
    Cared(a) && !a.tunnel.closed && !a.dead && a.position <= |inbox|
  }

  /** Nothing can make the loop stuck without another bridge ending. */
  ghost predicate Clear(a: Agent) {
    NoGhosts(a) && !Stuck(a)
  }

  lemma {:induction false} ObeysAppend(inbox: Inbox, a: Agent, x: seq<AgentAction>, y: seq<AgentAction>,
                                       accepts: nat -> bool)
    requires Obeys(inbox, a, x, accepts) && Obeys(inbox, AgentRun(inbox, a, x), y, accepts)
    ensures Obeys(inbox, a, x + y, accepts) && AgentRun(inbox, a, x + y) == AgentRun(inbox, AgentRun(inbox, a, x), y)
    decreases x
  {
    RunAppend(inbox, a, x, y);
    if x == [] {
      assert x + y == y;
    } else {
      ObeysAppend(inbox, AgentStep(inbox, a, x[0]), x[1..], y, accepts);
      assert (x + y)[1..] == x[1..] + y;
    }
  }

  lemma FrameKeepsClear(a: Agent, f: Frame, accept: bool)
    requires a.tunnel.loop == Idle && !a.dead && forall i :: i in a.departed ==> i < |a.tunnel.objs|
    ensures var b := ReceiveFrame(a, f, accept);
            && (Clear(a) ==> Clear(b)) && b.tunnel.closed == a.tunnel.closed
            && (b.dead ==>
                  OpenError(a.tunnel, f.id).Some? && b == a.(dead := true) && (f.kind == OPEN || f.kind == WS_OPEN))
            && (!b.dead ==> b.position == a.position + 1)
  {
    DispatchRoutes(a.tunnel, f);
  }

  /** One turn of the loop. */
  lemma ReceiveGoesOn(inbox: Inbox, a: Agent, accept: bool)
    requires Going(inbox, a) && a.tunnel.loop == Idle && a.position < |inbox|
    ensures var b := ReceiveNext(inbox, a, accept);
            && (if b.dead then Read(inbox, b) else Going(inbox, b) && b.position == a.position + 1)
            && (Clear(a) ==> Clear(b))
  {
    ReceiveKeepsCared(inbox, a, accept);
    if inbox[a.position].Success? { FrameKeepsClear(a, inbox[a.position].value, accept); }
  }

  /** The blocked put completes. */
  lemma PutGoesOn(inbox: Inbox, a: Agent, accepts: nat -> bool) returns (actions: seq<AgentAction>)
    requires Going(inbox, a) && a.tunnel.loop.Putting? && !Stuck(a)
    ensures Obeys(inbox, a, actions, accepts)
    ensures var b := AgentRun(inbox, a, actions);
            Going(inbox, b) && b.tunnel.loop == Idle && b.position == a.position && (Clear(a) ==> Clear(b))
  {
    var room := MakeRoom(inbox, a, accepts);
    var b := AgentRun(inbox, a, room);
    ObeysCons(inbox, b, CompletePut, [], accepts);
    ObeysAppend(inbox, a, room, [CompletePut] + [], accepts);
    RunKeepsCared(inbox, a, room);
    StepKeepsCared(inbox, b, CompletePut);
    actions := room + ([CompletePut] + []);
    assert AgentRun(inbox, a, actions) == b.(tunnel := Put(b.tunnel));
  }

  /** From here the agent's own tasks get the loop to the end of the wire, to a message it must refuse, or stuck. */
  lemma {:induction false} ReadsOn(inbox: Inbox, a: Agent, accepts: nat -> bool) returns (actions: seq<AgentAction>)
    requires Going(inbox, a)
    ensures Obeys(inbox, a, actions, accepts)
    ensures var b := AgentRun(inbox, a, actions); (Read(inbox, b) || Stuck(b)) && (Clear(a) ==> Read(inbox, b))
    decreases |inbox| - a.position, if a.tunnel.loop.Putting? then 1 else 0
  {
    if Stuck(a) {
      actions := [];
    } else if a.tunnel.loop.Putting? {
      var first := PutGoesOn(inbox, a, accepts);
      var rest := ReadsOn(inbox, AgentRun(inbox, a, first), accepts);
      ObeysAppend(inbox, a, first, rest, accepts);
      actions := first + rest;
    } else if a.position == |inbox| {
      actions := [];
    } else {
      var b := ReceiveNext(inbox, a, accepts(a.position));
      ReceiveGoesOn(inbox, a, accepts(a.position));
      var rest := [];
      if !b.dead { rest := ReadsOn(inbox, b, accepts); }
      ObeysCons(inbox, a, Receive(accepts(a.position)), rest, accepts);
      actions := [Receive(accepts(a.position))] + rest;
    }
  }

  /**
   Progress from any live state: the agent's own tasks bring the loop to a message it must refuse, through
   the whole wire, or to the full queue of a bridge that has ended. On a wire that was read, request r, if
   its OPEN was accepted, has exactly its own body; and when every ended bridge has removed its entry and
   the loop is not stuck now, it does not get stuck.
   */
  lemma BodyArrivesInTheEnd(inbox: Inbox, actions: seq<AgentAction>, r: Uuid, metadata: Bytes, chunks: seq<Bytes>,
                            accepts: nat -> bool)
    returns (more: seq<AgentAction>)
    requires Lane(inbox, r, ToAgent) == RequestFrames(r, metadata, chunks)
    requires var a := AgentRun(inbox, NEW_AGENT, actions); !a.tunnel.closed && !a.dead
    ensures var a := AgentRun(inbox, NEW_AGENT, actions); var b := AgentRun(inbox, a, more);
            && Obeys(inbox, a, more, accepts)
            && (Refuses(inbox, b) || (Stuck(b) && !Clear(a)) ||
                (b.position == |inbox| && (r in b.handlers ==> BodyIs(b, r, Concat(chunks)))))
  {
    var a := AgentRun(inbox, NEW_AGENT, actions);
    NewIsCared();
    RunKeepsCared(inbox, NEW_AGENT, actions);
    PositionInside(inbox, NEW_AGENT, actions);
    var first := ReadsOn(inbox, a, accepts);
    var b := AgentRun(inbox, a, first);
    more := first;
    if Read(inbox, b) && !Refuses(inbox, b) && r in b.handlers {
      RunAppend(inbox, NEW_AGENT, actions, first);
      var n := EveryBodyCompletes(inbox, actions + first, r, metadata, chunks);
      OwnStepsObey(inbox, b, r, n, accepts);
      ObeysAppend(inbox, a, first, [Start(r)] + Takes(r, n), accepts);
      more := first + ([Start(r)] + Takes(r, n));
    }
  }

  lemma {:induction false} PositionInside(inbox: Inbox, a: Agent, actions: seq<AgentAction>)
    requires a.position <= |inbox|
    ensures AgentRun(inbox, a, actions).position <= |inbox|
    decreases actions
  {
    if actions != [] {
      if !actions[0].Receive? { StepKeepsPosition(inbox, a, actions[0]); }
      PositionInside(inbox, AgentStep(inbox, a, actions[0]), actions[1..]);
    }
  }

  lemma {:induction false} TakesObey(inbox: Inbox, a: Agent, r: Uuid, n: nat, accepts: nat -> bool)
    ensures Obeys(inbox, a, Takes(r, n), accepts) && AgentRun(inbox, a, Takes(r, n)).position == a.position
    decreases n
  {
    if n > 0 {
      var b := AgentStep(inbox, a, TakeChunk(r));
      StepKeepsPosition(inbox, a, TakeChunk(r));
      TakesObey(inbox, b, r, n - 1, accepts);
      ObeysCons(inbox, a, TakeChunk(r), Takes(r, n - 1), accepts);
      assert Takes(r, n) == [TakeChunk(r)] + Takes(r, n - 1);
    }
  }

  lemma OwnStepsObey(inbox: Inbox, a: Agent, r: Uuid, n: nat, accepts: nat -> bool)
    ensures Obeys(inbox, a, [Start(r)] + Takes(r, n), accepts)
    ensures AgentRun(inbox, a, [Start(r)] + Takes(r, n)).position == a.position
  {
    var b := AgentStep(inbox, a, Start(r));
    StepKeepsPosition(inbox, a, Start(r));
    TakesObey(inbox, b, r, n, accepts);
    ObeysCons(inbox, a, Start(r), Takes(r, n), accepts);
  }

  // ---------------------------------------------------------------------------
  // A run that gets stuck
  // ---------------------------------------------------------------------------

  ghost predicate AgentReachable(inbox: Inbox, a: Agent) {
    exists actions :: a == AgentRun(inbox, NEW_AGENT, actions)
  }

  lemma AgentReachNext(inbox: Inbox, a: Agent, action: AgentAction)
    requires AgentReachable(inbox, a)
    ensures AgentReachable(inbox, AgentStep(inbox, a, action))
  {
    var actions :| a == AgentRun(inbox, NEW_AGENT, actions);
    RunAppend(inbox, NEW_AGENT, actions, [action]);
    assert [action][1..] == [];
  }

  /** A WebSocket stream with n messages on the wire. */
  function Chatter(id: Uuid, n: nat): Inbox {
    [Success(Frame(WS_OPEN, id, []))] + seq(n, _ => Success(Frame(WS_DATA, id, [1])))
  }

  /** The agent after n of them, none of which the bridge has taken. */
  function Queued(id: Uuid, n: nat): Agent {
    Agent(Tunnel([Stream(id, Unread(n), false, Unread(n), [], None)], map[id := 0], Idle, false), n + 1, false, map[],
        {0}, {})
  }

  lemma OpensBridge(id: Uuid, total: nat)
    ensures AgentReachable(Chatter(id, total), Queued(id, 0))
  {
    var inbox := Chatter(id, total);
    assert AgentRun(inbox, NEW_AGENT, []) == NEW_AGENT;
    AgentReachNext(inbox, NEW_AGENT, Receive(true));
    var a := AgentStep(inbox, NEW_AGENT, Receive(true));
    assert a == ReceiveFrame(NEW_AGENT, Frame(WS_OPEN, id, []), true);
    assert a.tunnel.objs == [NewStream(id)] && a.tunnel.table == map[id := 0] && a.bridges == {0};
    assert a == Queued(id, 0);
  }

  /** The next message: the put, completed while there is room. */
  lemma QueuesNext(id: Uuid, n: nat, total: nat)
    requires AgentReachable(Chatter(id, total), Queued(id, n)) && n < total
    ensures var b := AgentStep(Chatter(id, total), Queued(id, n), Receive(true));
            && AgentReachable(Chatter(id, total), b)
            && b.tunnel.loop == Putting(0, [1]) && |b.tunnel.objs| == 1 && |b.tunnel.objs[0].queue| == n
            && b.bridges == {0} && !b.tunnel.closed
            && (n < QUEUE_DEPTH ==> b.(tunnel := Put(b.tunnel)) == Queued(id, n + 1))
  {
    var inbox, a := Chatter(id, total), Queued(id, n);
    AgentReachNext(inbox, a, Receive(true));
    var b := AgentStep(inbox, a, Receive(true));
    assert inbox[n + 1] == Success(Frame(WS_DATA, id, [1]));
    assert b == a.(tunnel := RouteData(a.tunnel, id, [1]), position := n + 2);
    assert b.tunnel.objs == [Stream(id, Unread(n), false, Unread(n + 1), [], None)];
    if n < QUEUE_DEPTH {
      assert Put(b.tunnel).objs == [Stream(id, Unread(n + 1), false, Unread(n + 1), [], None)];
    }
  }

  lemma {:induction false} QueuesUp(id: Uuid, n: nat, total: nat)
    requires n <= QUEUE_DEPTH && n <= total
    ensures AgentReachable(Chatter(id, total), Queued(id, n))
  {
    if n == 0 {
      OpensBridge(id, total);
    } else {
      QueuesUp(id, n - 1, total);
      QueuesNext(id, n - 1, total);
      AgentReachNext(Chatter(id, total), AgentStep(Chatter(id, total), Queued(id, n - 1), Receive(true)), CompletePut);
    }
  }

  lemma EndsOnFullQueue(id: Uuid, n: nat)
    requires n == QUEUE_DEPTH
    ensures exists a :: AgentReachable(Chatter(id, n + 1), a) && Stuck(a) && !a.tunnel.closed
  {
    QueuesUp(id, n, n + 1);
    QueuesNext(id, n, n + 1);
    var inbox := Chatter(id, n + 1);
    var b := AgentStep(inbox, Queued(id, n), Receive(true));
    AgentReachNext(inbox, b, BridgeEnd(0, true));
    EndsStuck(inbox, b);
  }

  lemma EndsStuck(inbox: Inbox, b: Agent)
    requires b.tunnel.loop == Putting(0, [1]) && Full(b.tunnel, 0) && b.bridges == {0} && !b.tunnel.closed
    ensures var c := AgentStep(inbox, b, BridgeEnd(0, true)); Stuck(c) && !c.tunnel.closed
  {
    assert AgentStep(inbox, b, BridgeEnd(0, true)) == EndBridge(b, 0, true);
  }

  /** 65 unread messages, then the bridge ends: the receive loop of the whole tunnel is blocked for good. */
  lemma EndedBridgeBlocksTheTunnel(id: Uuid)
    ensures exists a :: AgentReachable(Chatter(id, QUEUE_DEPTH + 1), a) && Stuck(a) && !a.tunnel.closed
  {
    EndsOnFullQueue(id, QUEUE_DEPTH);
  }

  // ---------------------------------------------------------------------------
  // Any number of concurrent requests
  // ---------------------------------------------------------------------------

  datatype Request = Request(metadata: Bytes, chunks: seq<Bytes>)

  lemma RequestFramesInLane(r: Uuid, metadata: Bytes, chunks: seq<Bytes>)
    ensures forall f :: f in RequestFrames(r, metadata, chunks) ==> f.id == r && Relevant(ToAgent, f.kind)
  {
  }

  /** What the relay sent for a request, all of it or cut short, is its lane. */
  lemma SentIsLane(sent: seq<Bytes>, r: Uuid, metadata: Bytes, chunks: seq<Bytes>, n: nat)
    requires n <= |RequestFrames(r, metadata, chunks)| && Encodes(sent, RequestFrames(r, metadata, chunks)[..n])
    ensures Lane(Decoded(sent), r, ToAgent) == RequestFrames(r, metadata, chunks)[..n]
  {
    RequestFramesInLane(r, metadata, chunks);
    LaneOfDelivered(RequestFrames(r, metadata, chunks)[..n], r, ToAgent);
  }

  /**
   End to end for any set of concurrent requests, whole or cut short, next to lanes of any other traffic: each
   is sliced, serialised, interleaved with the others in any way, deserialised, dispatched and joined; every
   handler that finishes holds its own body.
   */
  lemma ConcurrentBodiesArrive(requests: map<Uuid, Request>, lanes: map<Uuid, seq<Bytes>>, wire: seq<Bytes>,
                               actions: seq<AgentAction>, r: Uuid)
    requires Interleaves(wire, lanes) && Tagged(lanes) && requests.Keys <= lanes.Keys && r in requests
    requires Lane(Decoded(lanes[r]), r, ToAgent) <= RequestFrames(r, requests[r].metadata, requests[r].chunks)
    ensures var a := AgentRun(Decoded(wire), NEW_AGENT, actions);
            r in a.handlers && a.handlers[r].Finished? ==> a.handlers[r].content == Concat(requests[r].chunks)
  {
    LaneOfWire(wire, lanes, r, ToAgent);
    BodyArrivesIntact(Decoded(wire), actions, r, requests[r].metadata, requests[r].chunks);
  }

  /** And from any live state a request that was sent whole gets its body in the end, with the same two exceptions. */
  lemma ConcurrentBodiesComplete(requests: map<Uuid, Request>, lanes: map<Uuid, seq<Bytes>>, wire: seq<Bytes>,
                                 actions: seq<AgentAction>, r: Uuid, accepts: nat -> bool)
    returns (more: seq<AgentAction>)
    requires Interleaves(wire, lanes) && Tagged(lanes) && requests.Keys <= lanes.Keys && r in requests
    requires Encodes(lanes[r], RequestFrames(r, requests[r].metadata, requests[r].chunks))
    requires var a := AgentRun(Decoded(wire), NEW_AGENT, actions); !a.tunnel.closed && !a.dead
    ensures var a := AgentRun(Decoded(wire), NEW_AGENT, actions);
            var b := AgentRun(Decoded(wire), a, more);
            && Obeys(Decoded(wire), a, more, accepts)
            && (Refuses(Decoded(wire), b) || (Stuck(b) && !Clear(a)) ||
                (b.position == |wire| && (r in b.handlers ==> BodyIs(b, r, Concat(requests[r].chunks)))))
  {
    var frames := RequestFrames(r, requests[r].metadata, requests[r].chunks);
    assert frames[..|frames|] == frames;
    SentIsLane(lanes[r], r, requests[r].metadata, requests[r].chunks, |frames|);
    LaneOfWire(wire, lanes, r, ToAgent);
    more := BodyArrivesInTheEnd(Decoded(wire), actions, r, requests[r].metadata, requests[r].chunks, accepts);
  }
}
