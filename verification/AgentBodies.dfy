/**
 The agent: its receive loop opens a stream for every request and routes the data frames; handlers
 reassemble the bodies and WebSocket bridges read their own streams, all interleaved.
 */
module AgentBodies {
  import opened Prelude
  import opened Frames
  import opened TunnelMachine
  import opened Lanes
  import opened RequestBody

  /** A request handler: spawned, reading its stream, done with the body, or without a stream. */
  datatype Handler = Spawned | Reading(stream: nat, parts: seq<Bytes>) | Finished(content: Bytes) | Lost

  /**
   `position` is the number of messages the receive loop has read; `dead` when an error ended it. `bridges`
   are the streams that a WebSocket bridge reads, `departed` those whose bridge has ended.
   */
  datatype Agent = Agent(
    tunnel: Tunnel,
    position: nat,
    dead: bool,
    handlers: map<Uuid, Handler>,
    bridges: set<nat>,
    departed: set<nat>)

  const NEW_AGENT := Agent(FRESH, 0, false, map[], {}, {})

  datatype AgentAction =
    | Receive(accept: bool)     // the loop reads a message; malformed OPEN metadata is not accepted
    | CompletePut               // the loop's blocked put completes
    | Start(id: Uuid)           // a spawned handler runs and looks its stream up
    | TakeChunk(id: Uuid)       // a handler takes one chunk
    | BridgeTake(stream: nat)   // a WebSocket bridge takes a payload from its own stream
    | BridgeEnd(stream: nat, removes: bool)  // it ends; one that never connected leaves its entry behind
    | GiveUpHeartbeat           // missed pongs tear the connection down; the loop goes on reading
    | Disconnect                // the socket is gone: tear-down, and the loop ends

  function ReceiveFrame(a: Agent, f: Frame, accept: bool): Agent {
    if f.kind == OPEN || f.kind == WS_OPEN then
      if !accept then a.(position := a.position + 1)
      else if OpenError(a.tunnel, f.id).Some? then a.(dead := true)
      else
        a.(tunnel := Open(a.tunnel, f.id), position := a.position + 1,
           handlers := if f.kind == OPEN then a.handlers[f.id := Spawned] else a.handlers,
           bridges := if f.kind == OPEN then a.bridges else a.bridges + {|a.tunnel.objs|})
    else a.(tunnel := Dispatch(a.tunnel, f), position := a.position + 1)
  }

  /** One turn of the receive loop; an undecodable message or a refused open ends it. */
  function ReceiveNext(inbox: Inbox, a: Agent, accept: bool): Agent {
    if a.dead || a.tunnel.loop != Idle || a.position >= |inbox| then a
    else if inbox[a.position].Failure? then a.(dead := true)
    else ReceiveFrame(a, inbox[a.position].value, accept)
  }

  /** A spawned handler looks its stream up. */
  function StartHandler(a: Agent, id: Uuid): Agent {
    if id !in a.handlers || !a.handlers[id].Spawned? then a
    else a.(handlers := a.handlers[id := if id in a.tunnel.table then Reading(a.tunnel.table[id], []) else Lost])
  }

  /** A reading handler takes a chunk; the empty one ends the body and the stream's registration. */
  function TakeByHandler(a: Agent, id: Uuid): Agent {
    if id !in a.handlers || !a.handlers[id].Reading? || !CanTake(a.tunnel, a.handlers[id].stream) then a
    else
      var h := a.handlers[id];
      var chunk := a.tunnel.objs[h.stream].queue[0];
      var t := Take(a.tunnel, h.stream);
      if chunk == [] then a.(tunnel := Remove(t, id), handlers := a.handlers[id := Finished(Concat(h.parts))])
      else a.(tunnel := t, handlers := a.handlers[id := Reading(h.stream, h.parts + [chunk])])
  }

  function EndBridge(a: Agent, i: nat, removes: bool): Agent {
    if i !in a.bridges || i >= |a.tunnel.objs| then a
    else
      a.(tunnel := if removes then Remove(a.tunnel, a.tunnel.objs[i].id) else a.tunnel,
         bridges := a.bridges - {i}, departed := a.departed + {i})
  }

  function AgentStep(inbox: Inbox, a: Agent, action: AgentAction): Agent {
    match action
    case Receive(accept) => ReceiveNext(inbox, a, accept)
    case CompletePut => a.(tunnel := Put(a.tunnel))
    case Start(id) => StartHandler(a, id)
    case TakeChunk(id) => TakeByHandler(a, id)
    case BridgeTake(i) => if i in a.bridges then a.(tunnel := Take(a.tunnel, i)) else a
    case BridgeEnd(i, removes) => EndBridge(a, i, removes)
    case GiveUpHeartbeat => a.(tunnel := TearDown(a.tunnel))
    case Disconnect => a.(tunnel := TearDown(a.tunnel), dead := true)
  }

  function AgentRun(inbox: Inbox, a: Agent, actions: seq<AgentAction>): Agent
    decreases actions
  {
    if actions == [] then a else AgentRun(inbox, AgentStep(inbox, a, actions[0]), actions[1..])
  }

  // ---------------------------------------------------------------------------
  // Which steps take and release a place in the stream table
  // ---------------------------------------------------------------------------

  /** The message read next opens a stream for `id`, and there is room for it. */
  ghost predicate Opens(inbox: Inbox, a: Agent, action: AgentAction, id: Uuid) {
    && action == Receive(true) && !a.dead && a.tunnel.loop == Idle && |a.tunnel.table| < 100
    && a.position < |inbox| && inbox[a.position].Success?
    && inbox[a.position].value.id == id && inbox[a.position].value.kind in {OPEN, WS_OPEN}
  }

  /** A handler takes the empty chunk, a bridge ends and removes its entry, or the connection goes down. */
  ghost predicate Releases(a: Agent, action: AgentAction, id: Uuid) {
    match action
    case TakeChunk(r) =>
      && r == id && id in a.handlers && a.handlers[id].Reading? && a.handlers[id].stream < |a.tunnel.objs|
      && |a.tunnel.objs[a.handlers[id].stream].queue| > 0 && a.tunnel.objs[a.handlers[id].stream].queue[0] == []
    case BridgeEnd(i, removes) => removes && i in a.bridges && i < |a.tunnel.objs| && a.tunnel.objs[i].id == id
    case GiveUpHeartbeat => !a.tunnel.closed
    case Disconnect => !a.tunnel.closed
    case _ => false
  }

  /** The agent's stream table changes at exactly these steps, and an entry never moves to another stream. */
  lemma TableChangesExactlyWhen(inbox: Inbox, a: Agent, action: AgentAction, id: Uuid)
    ensures var t, t' := a.tunnel.table, AgentStep(inbox, a, action).tunnel.table;
            && (id in t ==> (id !in t' <==> Releases(a, action, id)) && (id in t' ==> t'[id] == t[id]))
            && (id !in t ==> (id in t' <==> Opens(inbox, a, action, id)))
  {
  }

  // ---------------------------------------------------------------------------
  // The invariant of one request, whatever else is on the wire
  // ---------------------------------------------------------------------------

  /** How the handler of a request stands to the request's stream (object i). */
  ghost predicate HandlerMatches(h: Handler, i: nat, s: Stream) {
    match h
    case Spawned => s.taken == []
    case Reading(k, parts) => k == i && parts == s.taken && [] !in parts
    case _ => true
  }

  /** Readers hold a stream that was opened for their own request. */
  ghost predicate ReadersOwnStreams(a: Agent) {
    forall id :: id in a.handlers && a.handlers[id].Reading? ==>
      a.handlers[id].stream < |a.tunnel.objs| && a.tunnel.objs[a.handlers[id].stream].id == id
  }

  /**
   After `seen` frames of request r: object `home` is the only stream ever opened for r, it received a
   prefix of the request's payloads, and r's handler holds what was taken from it.
   */
  ghost predicate Tracks(a: Agent, r: Uuid, payloads: seq<Bytes>, seen: nat, home: nat) {
    var t := a.tunnel;
    && (forall i :: 0 <= i < |t.objs| && t.objs[i].id == r ==> i == home)
    && (home < |t.objs| && t.objs[home].id == r ==>
          seen > 0 && r in a.handlers && t.objs[home].dispatched <= payloads
          && HandlerMatches(a.handlers[r], home, t.objs[home]))
    && (r in a.handlers ==> seen > 0)
    && (forall i :: i in a.bridges ==> i < |t.objs| && t.objs[i].id != r)
    && seen <= |payloads| + 1
    && (r in t.table ==> t.table[r] == home < |t.objs| && t.objs[home].id == r)
    && (r in t.table && home < |t.objs| && seen > 0 ==> t.objs[home].dispatched == payloads[..seen - 1])
    && (r in a.handlers && a.handlers[r].Finished? ==> a.handlers[r].content == Concat(payloads))
  }

  /** The streams are the same up to events and queues, as far as request r can tell. */
  ghost predicate QuietFor(t: Tunnel, t': Tunnel, r: Uuid) {
    && |t'.objs| == |t.objs|
    && (forall i :: 0 <= i < |t.objs| ==> t'.objs[i].id == t.objs[i].id)
    && (forall i :: 0 <= i < |t.objs| && t.objs[i].id == r ==>
          t'.objs[i].dispatched == t.objs[i].dispatched && t'.objs[i].taken == t.objs[i].taken)
    && (r in t'.table ==> r in t.table && t'.table[r] == t.table[r])
  }

  lemma QuietKeepsTracks(a: Agent, a': Agent, r: Uuid, payloads: seq<Bytes>, seen: nat, home: nat)
    requires Tracks(a, r, payloads, seen, home) && QuietFor(a.tunnel, a'.tunnel, r)
    requires (r in a'.handlers <==> r in a.handlers) && (r in a.handlers ==> a'.handlers[r] == a.handlers[r])
    requires a'.bridges <= a.bridges
    ensures Tracks(a', r, payloads, seen, home)
  {
  }

  lemma TakeIsQuiet(t: Tunnel, i: nat, r: Uuid)
    requires i < |t.objs| ==> t.objs[i].id != r
    ensures QuietFor(t, Take(t, i), r)
  {
  }

  lemma PutIsQuiet(t: Tunnel, r: Uuid)
    ensures QuietFor(t, Put(t), r)
  {
  }

  lemma DispatchIsQuiet(t: Tunnel, f: Frame, r: Uuid)
    requires Sound(t) && !(f.id == r && CarriesData(f.kind))
    ensures QuietFor(t, Dispatch(t, f), r)
  {
  }

  lemma TearDownIsQuiet(t: Tunnel, r: Uuid)
    ensures QuietFor(t, TearDown(t), r)
  {
  }

  /** A step of another request's handler is quiet for r. */
  lemma OtherTakeIsQuiet(a: Agent, id: Uuid, r: Uuid)
    requires ReadersOwnStreams(a) && id != r
    ensures QuietFor(a.tunnel, TakeByHandler(a, id).tunnel, r)
  {
    if id in a.handlers && a.handlers[id].Reading? { TakeIsQuiet(a.tunnel, a.handlers[id].stream, r); }
  }

  // Steps that concern r itself

  /** The OPEN frame of r creates its home stream; that of another request does not matter. */
  lemma OpenKeepsTracks(a: Agent, f: Frame, r: Uuid, payloads: seq<Bytes>, seen: nat, home: nat)
    requires Tracks(a, r, payloads, seen, home) && OpenError(a.tunnel, f.id).None?
    requires f.kind == OPEN || f.kind == WS_OPEN
    requires f.id == r ==> seen == 0 && f.kind == OPEN
    requires f.id != r ==> home < |a.tunnel.objs| || seen == 0 || r !in a.tunnel.table
    ensures if f.id == r then Tracks(ReceiveFrame(a, f, true), r, payloads, 1, |a.tunnel.objs|)
            else Tracks(ReceiveFrame(a, f, true), r, payloads, seen, home)
  {
    var a' := ReceiveFrame(a, f, true);
    var n := |a.tunnel.objs|;
    assert forall i :: 0 <= i < n ==> a'.tunnel.objs[i] == a.tunnel.objs[i];
    assert a'.tunnel.objs[n] == NewStream(f.id);
    assert f.id == r ==> forall i :: 0 <= i < n ==> a.tunnel.objs[i].id != r;
  }

  /** A data frame of r carries the next payload. */
  lemma DataKeepsTracks(a: Agent, f: Frame, r: Uuid, payloads: seq<Bytes>, seen: nat, home: nat)
    requires Tracks(a, r, payloads, seen, home) && a.tunnel.loop == Idle
    requires f.id == r && f.kind == DATA && 0 < seen <= |payloads| && f.payload == payloads[seen - 1]
    ensures Tracks(ReceiveFrame(a, f, true), r, payloads, seen + 1, home)
  {
    assert payloads[..seen] == payloads[..seen - 1] + [payloads[seen - 1]];
  }

  lemma StartKeepsTracks(a: Agent, r: Uuid, payloads: seq<Bytes>, seen: nat, home: nat)
    requires Tracks(a, r, payloads, seen, home)
    ensures Tracks(StartHandler(a, r), r, payloads, seen, home)
  {
  }

  /** Taking from r's stream: the chunk is the next payload, and an empty one is the last. */
  lemma TakeKeepsTracks(a: Agent, r: Uuid, payloads: seq<Bytes>, seen: nat, home: nat)
    requires Tracks(a, r, payloads, seen, home) && EndsWithSentinel(payloads)
    requires Sound(a.tunnel) && ReadersOwnStreams(a)
    ensures Tracks(TakeByHandler(a, r), r, payloads, seen, home)
  {
    if r in a.handlers && a.handlers[r].Reading? && CanTake(a.tunnel, a.handlers[r].stream) {
      assert a.handlers[r].stream == home;
      var s := a.tunnel.objs[home];
      TakenIsPrefix(a.tunnel, home);
      PrefixOfPrefix(s.taken + [s.queue[0]], s.dispatched, payloads);
      NextPayload(s.taken, s.queue[0], payloads);
    }
  }

  lemma PrefixOfPrefix(a: seq<Bytes>, b: seq<Bytes>, c: seq<Bytes>)
    requires a <= b && b <= c
    ensures a <= c
  {
    assert a == b[..|a|] == c[..|a|];
  }

  /** Non-empty payloads, then an empty one. */
  ghost predicate EndsWithSentinel(payloads: seq<Bytes>) {
    && |payloads| > 0 && payloads[|payloads| - 1] == []
    && forall i :: 0 <= i < |payloads| - 1 ==> payloads[i] != []
  }

  lemma NextPayload(taken: seq<Bytes>, next: Bytes, payloads: seq<Bytes>)
    requires EndsWithSentinel(payloads) && taken + [next] <= payloads
    ensures next == [] ==> Concat(taken) == Concat(payloads)
  {
    var n := |taken|;
    assert payloads[n] == (taken + [next])[n] == next;
    if next == [] {
      assert payloads == taken + [next];
      ConcatSnoc(taken, []);
    }
  }

  lemma BridgeTakeIsQuiet(a: Agent, i: nat, r: Uuid, payloads: seq<Bytes>, seen: nat, home: nat)
    requires Tracks(a, r, payloads, seen, home)
    ensures i in a.bridges ==> QuietFor(a.tunnel, Take(a.tunnel, i), r)
  {
    if i in a.bridges { TakeIsQuiet(a.tunnel, i, r); }
  }

  /** Steps of other handlers, bridges, the loop's put and the connection. */
  lemma OtherStepKeepsTracks(inbox: Inbox, a: Agent, action: AgentAction, r: Uuid, payloads: seq<Bytes>, seen: nat,
                             home: nat)
    requires Tracks(a, r, payloads, seen, home) && ReadersOwnStreams(a)
    requires !action.Receive? && action != Start(r) && action != TakeChunk(r)
    ensures Tracks(AgentStep(inbox, a, action), r, payloads, seen, home)
  {
    match action {
      case CompletePut => PutIsQuiet(a.tunnel, r);
      case Start(id) =>
      case TakeChunk(id) => OtherTakeIsQuiet(a, id, r);
      case BridgeTake(i) => BridgeTakeIsQuiet(a, i, r, payloads, seen, home);
      case BridgeEnd(i, removes) =>
      case GiveUpHeartbeat => TearDownIsQuiet(a.tunnel, r);
      case Disconnect => TearDownIsQuiet(a.tunnel, r);
    }
    QuietKeepsTracks(a, AgentStep(inbox, a, action), r, payloads, seen, home);
  }

  // What holds of every agent

  lemma HandlerTakeKeepsSound(a: Agent, id: Uuid)
    requires Sound(a.tunnel)
    ensures Sound(TakeByHandler(a, id).tunnel)
  {
    if id in a.handlers && a.handlers[id].Reading? {
      TakeKeepsSound(a.tunnel, a.handlers[id].stream);
      RemoveKeepsSound(Take(a.tunnel, a.handlers[id].stream), id);
    }
  }

  lemma ReceiveKeepsSound(inbox: Inbox, a: Agent, accept: bool)
    requires Sound(a.tunnel)
    ensures Sound(ReceiveNext(inbox, a, accept).tunnel)
  {
    if a.position < |inbox| && inbox[a.position].Success? {
      OpenKeepsSound(a.tunnel, inbox[a.position].value.id);
      DispatchKeepsSound(a.tunnel, inbox[a.position].value);
    }
  }

  /** What each step comes down to. */
  lemma AgentStepIs(inbox: Inbox, a: Agent, action: AgentAction)
    ensures var a' := AgentStep(inbox, a, action);
            && (action.Receive? ==> a' == ReceiveNext(inbox, a, action.accept))
            && (action.CompletePut? ==> a' == a.(tunnel := Put(a.tunnel)))
            && (action.Start? ==> a' == StartHandler(a, action.id))
            && (action.TakeChunk? ==> a' == TakeByHandler(a, action.id))
            && (action.BridgeTake? ==> a' == if action.stream in a.bridges
                  then a.(tunnel := Take(a.tunnel, action.stream)) else a)
            && (action.BridgeEnd? ==> a' == EndBridge(a, action.stream, action.removes))
            && (action.GiveUpHeartbeat? ==> a' == a.(tunnel := TearDown(a.tunnel)))
            && (action.Disconnect? ==> a' == a.(tunnel := TearDown(a.tunnel), dead := true))
  {
  }

  lemma StepKeepsTunnelSound(inbox: Inbox, a: Agent, action: AgentAction)
    requires Sound(a.tunnel)
    ensures Sound(AgentStep(inbox, a, action).tunnel)
  {
    AgentStepIs(inbox, a, action);
    match action
    case Receive(accept) => ReceiveKeepsSound(inbox, a, accept);
    case CompletePut => PutKeepsSound(a.tunnel);
    case Start(id) =>
    case TakeChunk(id) => HandlerTakeKeepsSound(a, id);
    case BridgeTake(i) => TakeKeepsSound(a.tunnel, i);
    case BridgeEnd(i, _) => if i < |a.tunnel.objs| { RemoveKeepsSound(a.tunnel, a.tunnel.objs[i].id); }
    case GiveUpHeartbeat => TearDownKeepsSound(a.tunnel);
    case Disconnect => TearDownKeepsSound(a.tunnel);
  }

  lemma ReceiveKeepsIds(inbox: Inbox, a: Agent, accept: bool)
    ensures KeepsIds(a.tunnel, ReceiveNext(inbox, a, accept).tunnel)
  {
  }

  lemma StepKeepsIds(inbox: Inbox, a: Agent, action: AgentAction)
    ensures KeepsIds(a.tunnel, AgentStep(inbox, a, action).tunnel)
  {
    if action.Receive? { ReceiveKeepsIds(inbox, a, action.accept); }
  }

  lemma SameIdsKeepReaders(a: Agent, a': Agent)
    requires ReadersOwnStreams(a) && KeepsIds(a.tunnel, a'.tunnel)
    requires forall id :: id in a'.handlers && a'.handlers[id].Reading? ==>
               id in a.handlers && a.handlers[id].Reading? && a.handlers[id].stream == a'.handlers[id].stream
    ensures ReadersOwnStreams(a')
  {
  }

  lemma StartKeepsReaders(a: Agent, id: Uuid)
    requires TableOwns(a.tunnel) && ReadersOwnStreams(a)
    ensures ReadersOwnStreams(StartHandler(a, id))
  {
  }

  /** Only a starting handler begins to read; the others keep their streams. */
  lemma StepKeepsReaderStreams(inbox: Inbox, a: Agent, action: AgentAction)
    requires !action.Start?
    ensures var a' := AgentStep(inbox, a, action);
            forall id :: id in a'.handlers && a'.handlers[id].Reading? ==>
              id in a.handlers && a.handlers[id].Reading? && a.handlers[id].stream == a'.handlers[id].stream
  {
  }

  lemma StepKeepsReaders(inbox: Inbox, a: Agent, action: AgentAction)
    requires TableOwns(a.tunnel) && ReadersOwnStreams(a)
    ensures ReadersOwnStreams(AgentStep(inbox, a, action))
  {
    if action.Start? {
      StartKeepsReaders(a, action.id);
    } else {
      StepKeepsIds(inbox, a, action);
      StepKeepsReaderStreams(inbox, a, action);
      SameIdsKeepReaders(a, AgentStep(inbox, a, action));
    }
  }

  /** One frame read by the receive loop. */
  lemma ReceiveOneKeepsTracks(a: Agent, f: Frame, accept: bool, r: Uuid, metadata: Bytes, payloads: seq<Bytes>,
                              seen: nat, home: nat)
    returns (home': nat)
    requires Tracks(a, r, payloads, seen, home) && Sound(a.tunnel) && a.tunnel.loop == Idle
    requires !ReceiveFrame(a, f, accept).dead
    requires InLane(Success(f), r, ToAgent) ==>
               seen <= |payloads| && f == if seen == 0
                   then Frame(OPEN, r, metadata) else Frame(DATA, r, payloads[seen - 1])
    ensures Tracks(ReceiveFrame(a, f, accept), r, payloads, if InLane(Success(f), r, ToAgent)
            then seen + 1 else seen, home')
  {
    home' := home;
    if f.kind == OPEN || f.kind == WS_OPEN {
      if accept {
        OpenKeepsTracks(a, f, r, payloads, seen, home);
        if f.id == r { home' := |a.tunnel.objs|; }
      }
    } else if f.id == r && CarriesData(f.kind) {
      DataKeepsTracks(a, f, r, payloads, seen, home);
    } else {
      DispatchIsQuiet(a.tunnel, f, r);
      QuietKeepsTracks(a, ReceiveFrame(a, f, accept), r, payloads, seen, home);
    }
  }

  /** Request r's part of the wire is (a prefix of) what the relay sends for it. */
  ghost predicate LaneFits(inbox: Inbox, r: Uuid, metadata: Bytes, payloads: seq<Bytes>) {
    Lane(inbox, r, ToAgent) <= [Frame(OPEN, r, metadata)] + DataFrames(r, payloads)
  }

  /** The next frame of the lane is the next frame the relay sent. */
  lemma NextRequestFrame(inbox: Inbox, k: nat, r: Uuid, metadata: Bytes, payloads: seq<Bytes>)
    requires k < |inbox| && LaneFits(inbox, r, metadata, payloads) && InLane(inbox[k], r, ToAgent)
    ensures var seen := |Lane(inbox[..k], r, ToAgent)|;
            && seen <= |payloads|
            && inbox[k].value == if seen == 0 then Frame(OPEN, r, metadata) else Frame(DATA, r, payloads[seen - 1])
  {
    NextInLane(inbox, k, r, ToAgent, [Frame(OPEN, r, metadata)] + DataFrames(r, payloads));
  }

  ghost predicate Inv(inbox: Inbox, a: Agent, r: Uuid, payloads: seq<Bytes>, home: nat) {
    && Sound(a.tunnel) && ReadersOwnStreams(a)
    && a.position <= |inbox| && Tracks(a, r, payloads, |Lane(inbox[..a.position], r, ToAgent)|, home)
  }

  lemma ReceiveKeepsTracks(inbox: Inbox, a: Agent, accept: bool, r: Uuid, metadata: Bytes, payloads: seq<Bytes>,
                           home: nat)
    returns (home': nat)
    requires a.tunnel.loop == Idle && a.position < |inbox| && inbox[a.position].Success?
    requires !ReceiveFrame(a, inbox[a.position].value, accept).dead
    requires Sound(a.tunnel) && LaneFits(inbox, r, metadata, payloads)
    requires Tracks(a, r, payloads, |Lane(inbox[..a.position], r, ToAgent)|, home)
    ensures Tracks(ReceiveFrame(a, inbox[a.position].value, accept), r, payloads,
            |Lane(inbox[..a.position + 1], r, ToAgent)|, home')
  {
    var k := a.position;
    LaneNext(inbox, k, r, ToAgent);
    if InLane(inbox[k], r, ToAgent) { NextRequestFrame(inbox, k, r, metadata, payloads); }
    home' := ReceiveOneKeepsTracks(a, inbox[k].value, accept, r, metadata, payloads, |Lane(inbox[..k], r, ToAgent)|,
        home);
  }

  lemma ReceiveStepKeepsTracks(inbox: Inbox, a: Agent, accept: bool, r: Uuid, metadata: Bytes, payloads: seq<Bytes>,
                               home: nat)
    returns (home': nat)
    requires a.position <= |inbox| && Tracks(a, r, payloads, |Lane(inbox[..a.position], r, ToAgent)|, home)
    requires Sound(a.tunnel) && LaneFits(inbox, r, metadata, payloads)
    ensures var a' := ReceiveNext(inbox, a, accept);
            a'.position <= |inbox| && Tracks(a', r, payloads, |Lane(inbox[..a'.position], r, ToAgent)|, home')
  {
    var a' := ReceiveNext(inbox, a, accept);
    if a'.position == a.position {
      home' := home;
      assert a'.tunnel == a.tunnel && a'.handlers == a.handlers;
      QuietKeepsTracks(a, a', r, payloads, |Lane(inbox[..a.position], r, ToAgent)|, home);
    } else {
      home' := ReceiveKeepsTracks(inbox, a, accept, r, metadata, payloads, home);
    }
  }

  lemma StepKeepsInv(inbox: Inbox, a: Agent, action: AgentAction, r: Uuid, metadata: Bytes, payloads: seq<Bytes>,
                     home: nat)
    returns (home': nat)
    requires Inv(inbox, a, r, payloads, home) && LaneFits(inbox, r, metadata, payloads) && EndsWithSentinel(payloads)
    ensures Inv(inbox, AgentStep(inbox, a, action), r, payloads, home')
  {
    StepKeepsTunnelSound(inbox, a, action);
    StepKeepsReaders(inbox, a, action);
    if action.Receive? {
      home' := ReceiveStepKeepsTracks(inbox, a, action.accept, r, metadata, payloads, home);
    } else {
      home' := home;
      var seen := |Lane(inbox[..a.position], r, ToAgent)|;
      if action == Start(r) { StartKeepsTracks(a, r, payloads, seen, home); }
      else if action == TakeChunk(r) { TakeKeepsTracks(a, r, payloads, seen, home); }
      else { OtherStepKeepsTracks(inbox, a, action, r, payloads, seen, home); }
      StepKeepsPosition(inbox, a, action);
    }
  }

  lemma StepKeepsPosition(inbox: Inbox, a: Agent, action: AgentAction)
    requires !action.Receive?
    ensures AgentStep(inbox, a, action).position == a.position
  {
  }

  lemma {:induction false} RunKeepsInv(inbox: Inbox, a: Agent, actions: seq<AgentAction>, r: Uuid, metadata: Bytes,
                                       payloads: seq<Bytes>, home: nat)
    returns (home': nat)
    requires Inv(inbox, a, r, payloads, home) && LaneFits(inbox, r, metadata, payloads) && EndsWithSentinel(payloads)
    ensures Inv(inbox, AgentRun(inbox, a, actions), r, payloads, home')
    decreases actions
  {
    if actions == [] {
      home' := home;
    } else {
      home' := StepKeepsInv(inbox, a, actions[0], r, metadata, payloads, home);
      home' := RunKeepsInv(inbox, AgentStep(inbox, a, actions[0]), actions[1..], r, metadata, payloads, home');
    }
  }

  lemma BodyPayloadsEnd(chunks: seq<Bytes>)
    ensures EndsWithSentinel(BodyPayloads(chunks)) && Concat(BodyPayloads(chunks)) == Concat(chunks)
  {
    var payloads := BodyPayloads(chunks);
    BodySlicesAreFaithful(chunks);
    ConcatSnoc(BodySlices(chunks), []);
    forall i | 0 <= i < |payloads| - 1 ensures payloads[i] != [] { assert payloads[i] in BodySlices(chunks); }
  }

  /**
   Whatever else travels on the wire, and however loop, handlers and bridges interleave: a handler that
   has read its body to the end holds exactly the concatenation of its own request's chunks.
   */
  lemma BodyArrivesIntact(inbox: Inbox, actions: seq<AgentAction>, r: Uuid, metadata: Bytes, chunks: seq<Bytes>)
    requires Lane(inbox, r, ToAgent) <= RequestFrames(r, metadata, chunks)
    ensures var a := AgentRun(inbox, NEW_AGENT, actions);
            r in a.handlers && a.handlers[r].Finished? ==> a.handlers[r].content == Concat(chunks)
  {
    BodyPayloadsEnd(chunks);
    assert inbox[..0] == [];
    var _ := RunKeepsInv(inbox, NEW_AGENT, actions, r, metadata, BodyPayloads(chunks), 0);
  }
}
