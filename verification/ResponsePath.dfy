/**
 Responses from the agent to the browser: one metadata frame, the body frames, CLOSE. The relay reads
 the first payload, then iterates over the stream while the receive loop keeps dispatching.
 */
module ResponsePath {
  import opened Prelude
  import opened Frames
  import opened TunnelMachine
  import opened Lanes

  /** What the agent sends for one response; empty body chunks are skipped. */
  function ResponseFrames(r: Uuid, payloads: seq<Bytes>): seq<Frame> {
    DataFrames(r, payloads) + [Frame(CLOSE, r, [])]
  }

  /** Where the stream iterator stands: at its wait, just resumed after a yield, or draining after close. */
  datatype IterPhase = Waiting | AfterYield | Draining

  /** The proxy's handling of one request. `first` is the metadata payload, `yielded` what the iterator gave. */
  datatype Reader =
    | Sending
    | AwaitFirst(stream: nat)
    | HaveFirst(first: Bytes)
    | Iterating(stream: nat, first: Bytes, yielded: seq<Bytes>, phase: IterPhase)
    | Ended(first: Bytes, yielded: seq<Bytes>)
    | Gone

  /**
   `bridges` are the streams that a WebSocket bridge reads; `departed` those that an ended bridge or an
   abandoned request has left.
   */
  datatype Relay = Relay(tunnel: Tunnel, position: nat, readers: map<Uuid, Reader>, bridges: set<nat>,
      departed: set<nat>)

  const NEW_RELAY := Relay(FRESH, 0, map[], {}, {})

  datatype RelayAction =
    | Begin(id: Uuid)           // open_stream for a fresh request id
    | BridgeOpen(id: Uuid)      // open_stream for a fresh WebSocket id
    | Receive                   // the loop reads a message
    | CompletePut
    | LookupFirst(id: Uuid)     // read_stream looks the stream up
    | TakeFirst(id: Uuid)       // read_stream gets the first payload
    | Abandon(id: Uuid, removes: bool)  // send failure, time-out, disconnect; an unforeseen exception leaves the entry
    | StartIteration(id: Uuid)  // read_stream_iter looks the stream up
    | IterGet(id: Uuid)         // the pending get completes, or a drained payload is yielded
    | IterCheck(id: Uuid)       // the closed event completes, or the consumer resumes after a yield
    | BridgeTake(stream: nat)
    | BridgeEnd(stream: nat)    // a bridge ends and removes its stream
    | Disconnect

  /** Reads the next message and dispatches it; the loop never gets past an undecodable one. */
  function ReceiveNext(inbox: Inbox, w: Relay): Relay {
    if w.tunnel.loop != Idle || w.position >= |inbox| || inbox[w.position].Failure? then w
    else w.(tunnel := Dispatch(w.tunnel, inbox[w.position].value), position := w.position + 1)
  }

  function Set(w: Relay, id: Uuid, h: Reader): Relay {
    w.(readers := w.readers[id := h])
  }

  /** A new uuid: no stream has it, no request has it, and no frame has carried it. */
  predicate IsFresh(inbox: Inbox, w: Relay, id: Uuid) {
    && id !in w.readers && w.position <= |inbox| && Lane(inbox[..w.position], id, ToRelay) == []
    && forall i :: 0 <= i < |w.tunnel.objs| ==> w.tunnel.objs[i].id != id
  }

  function BeginRequest(inbox: Inbox, w: Relay, id: Uuid): Relay {
    if OpenError(w.tunnel, id).Some? || !IsFresh(inbox, w, id) then w
    else Set(w, id, Sending).(tunnel := Open(w.tunnel, id))
  }

  function BeginBridge(inbox: Inbox, w: Relay, id: Uuid): Relay {
    if OpenError(w.tunnel, id).Some? || !IsFresh(inbox, w, id) then w
    else w.(tunnel := Open(w.tunnel, id), bridges := w.bridges + {|w.tunnel.objs|})
  }

  function EndBridge(w: Relay, i: nat): Relay {
    if i !in w.bridges || i >= |w.tunnel.objs| then w
    else w.(tunnel := Remove(w.tunnel, w.tunnel.objs[i].id), bridges := w.bridges - {i}, departed := w.departed + {i})
  }

  /** A request that is given up before its end leaves its stream. */
  function GiveUp(w: Relay, id: Uuid, removes: bool): Relay {
    if id !in w.readers || w.readers[id].Ended? || w.readers[id].Gone? then w
    else
      Set(w, id, Gone)
        .(tunnel := if removes then Remove(w.tunnel, id) else w.tunnel,
          departed := if id in w.tunnel.table then w.departed + {w.tunnel.table[id]} else w.departed)
  }

  /** read_stream and read_stream_iter look their stream up; a torn-down connection has none. */
  function Lookup(w: Relay, id: Uuid): Relay {
    if id !in w.readers || !(w.readers[id].Sending? || w.readers[id].HaveFirst?) then w
    else if id !in w.tunnel.table then Set(w, id, Gone)
    else if w.readers[id].Sending? then Set(w, id, AwaitFirst(w.tunnel.table[id]))
    else Set(w, id, Iterating(w.tunnel.table[id], w.readers[id].first, [], Waiting))
  }

  function TakeFirstPayload(w: Relay, id: Uuid): Relay {
    if id !in w.readers || !w.readers[id].AwaitFirst? || !CanTake(w.tunnel, w.readers[id].stream) then w
    else
      var i := w.readers[id].stream;
      Set(w, id, HaveFirst(w.tunnel.objs[i].queue[0])).(tunnel := Take(w.tunnel, i))
  }

  /** A payload leaves the queue and is yielded: at the wait when the get completes, or while draining. */
  function YieldOne(w: Relay, id: Uuid): Relay {
    if id !in w.readers || !w.readers[id].Iterating? || w.readers[id].phase == AfterYield
       || !CanTake(w.tunnel, w.readers[id].stream) then w
    else
      var h := w.readers[id];
      var y := w.tunnel.objs[h.stream].queue[0];
      Set(w, id, h.(yielded := h.yielded + [y], phase := if h.phase == Draining then Draining else AfterYield))
        .(tunnel := Take(w.tunnel, h.stream))
  }

  /** The iterator returns when it finds the stream closed and its queue empty. */
  function FinishOrWait(w: Relay, id: Uuid): Relay {
    if id !in w.readers || !w.readers[id].Iterating? || w.readers[id].stream >= |w.tunnel.objs| then w
    else
      var h := w.readers[id];
      var s := w.tunnel.objs[h.stream];
      if h.phase != Waiting && s.closed && s.queue == [] then
        Set(w, id, Ended(h.first, h.yielded)).(tunnel := Remove(w.tunnel, id))
      else if h.phase == AfterYield then Set(w, id, h.(phase := Waiting))
      else if h.phase == Waiting && s.closed then Set(w, id, h.(phase := Draining))
      else w
  }

  function RelayStep(inbox: Inbox, w: Relay, action: RelayAction): Relay {
    match action
    case Begin(id) => BeginRequest(inbox, w, id)
    case BridgeOpen(id) => BeginBridge(inbox, w, id)
    case Receive => ReceiveNext(inbox, w)
    case CompletePut => w.(tunnel := Put(w.tunnel))
    case LookupFirst(id) => Lookup(w, id)
    case TakeFirst(id) => TakeFirstPayload(w, id)
    case Abandon(id, removes) => GiveUp(w, id, removes)
    case StartIteration(id) => Lookup(w, id)
    case IterGet(id) => YieldOne(w, id)
    case IterCheck(id) => FinishOrWait(w, id)
    case BridgeTake(i) => if i in w.bridges then w.(tunnel := Take(w.tunnel, i)) else w
    case BridgeEnd(i) => EndBridge(w, i)
    case Disconnect => w.(tunnel := TearDown(w.tunnel))
  }

  function RelayRun(inbox: Inbox, w: Relay, actions: seq<RelayAction>): Relay
    decreases actions
  {
    if actions == [] then w else RelayRun(inbox, RelayStep(inbox, w, actions[0]), actions[1..])
  }

  // ---------------------------------------------------------------------------
  // Which steps take and release a place in the stream table
  // ---------------------------------------------------------------------------

  /** An iterator ends, a request is given up, a bridge ends, or the connection goes down. */
  ghost predicate Releases(w: Relay, action: RelayAction, id: Uuid) {
    match action
    case IterCheck(r) =>
      && r == id && id in w.readers && w.readers[id].Iterating? && w.readers[id].phase != Waiting
      && w.readers[id].stream < |w.tunnel.objs|
      && w.tunnel.objs[w.readers[id].stream].closed && w.tunnel.objs[w.readers[id].stream].queue == []
    case Abandon(r, removes) =>
      removes && r == id && id in w.readers && !w.readers[id].Ended? && !w.readers[id].Gone?
    case BridgeEnd(i) => i in w.bridges && i < |w.tunnel.objs| && w.tunnel.objs[i].id == id
    case Disconnect => !w.tunnel.closed
    case _ => false
  }

  /** The relay's stream table changes at exactly these steps, and an entry never moves to another stream. */
  lemma TableChangesExactlyWhen(inbox: Inbox, w: Relay, action: RelayAction, id: Uuid)
    ensures var t, t' := w.tunnel.table, RelayStep(inbox, w, action).tunnel.table;
            && (id in t ==> (id !in t' <==> Releases(w, action, id)) && (id in t' ==> t'[id] == t[id]))
            && (id !in t ==>
                  (id in t' <==>
                     (action == Begin(id) || action == BridgeOpen(id)) && |t| < 100 && IsFresh(inbox, w, id)))
  {
  }

  // ---------------------------------------------------------------------------
  // The invariant of one response, whatever else is on the wire
  // ---------------------------------------------------------------------------

  /** How a reader stands to its stream (object i): everything taken is in the reader's hands, in order. */
  ghost predicate ReaderMatches(h: Reader, i: nat, s: Stream, payloads: seq<Bytes>) {
    match h
    case Sending => s.taken == []
    case AwaitFirst(k) => k == i && s.taken == []
    case HaveFirst(first) => s.taken == [first]
    case Iterating(k, first, yielded, _) => k == i && s.taken == [first] + yielded
    case Ended(first, yielded) => s.taken == [first] + yielded && s.closed && (s.closeAt.Some? ==> s.taken == payloads)
    case Gone => true
  }

  /** A reader that holds a stream holds one opened for its own request. */
  ghost predicate ReadersOwnStreams(w: Relay) {
    forall id :: id in w.readers && (w.readers[id].AwaitFirst? || w.readers[id].Iterating?) ==>
      w.readers[id].stream < |w.tunnel.objs| && w.tunnel.objs[w.readers[id].stream].id == id
  }

  /** The stream received a prefix of the response; a closing frame came after all of it, or the tunnel went down. */
  ghost predicate StreamFollows(t: Tunnel, s: Stream, payloads: seq<Bytes>) {
    && s.dispatched <= payloads
    && (s.closeAt.Some? ==> s.closeAt.value == |payloads| && s.dispatched == payloads)
    && (s.closed ==> s.closeAt.Some? || t.closed)
  }

  /** After `seen` frames of response r: `home` is the only stream of r, and r's reader holds what was taken. */
  ghost predicate Follows(w: Relay, r: Uuid, payloads: seq<Bytes>, seen: nat, home: nat) {
    var t := w.tunnel;
    && seen <= |payloads| + 1
    && (r in w.readers ==>
          && home < |t.objs| && t.objs[home].id == r && home !in w.bridges
          && (forall i :: 0 <= i < |t.objs| && t.objs[i].id == r ==> i == home)
          && StreamFollows(t, t.objs[home], payloads)
          && ReaderMatches(w.readers[r], home, t.objs[home], payloads)
          && (r in t.table ==>
                && t.table[r] == home && !w.readers[r].Ended?
                && t.objs[home].dispatched == payloads[..if seen <= |payloads| then seen else |payloads|]
                && (t.objs[home].closeAt.Some? <==> seen == |payloads| + 1)))
  }

  /** Stream objects are the same up to their queues, as far as r can tell. */
  ghost predicate Calm(t: Tunnel, t': Tunnel, r: Uuid) {
    && |t'.objs| == |t.objs| && (t.closed ==> t'.closed)
    && (forall i :: 0 <= i < |t.objs| ==> t'.objs[i].id == t.objs[i].id)
    && (forall i :: 0 <= i < |t.objs| && t.objs[i].id == r ==> t'.objs[i].(queue := []) == t.objs[i].(queue := []))
    && (r in t'.table ==> r in t.table && t'.table[r] == t.table[r])
  }

  lemma CalmKeepsFollows(w: Relay, w': Relay, r: Uuid, payloads: seq<Bytes>, seen: nat, home: nat)
    requires Follows(w, r, payloads, seen, home) && Calm(w.tunnel, w'.tunnel, r)
    requires (r in w'.readers <==> r in w.readers) && (r in w.readers ==> w'.readers[r] == w.readers[r])
    requires w'.bridges <= w.bridges
    ensures Follows(w', r, payloads, seen, home)
  {
    if r in w.readers {
      SameStream(w.tunnel.objs[home], w'.tunnel.objs[home]);
    }
  }

  lemma SameStream(s: Stream, s': Stream)
    requires s'.(queue := []) == s.(queue := [])
    ensures s'.closed == s.closed && s'.dispatched == s.dispatched && s'.taken == s.taken && s'.closeAt == s.closeAt
  {
    assert s'.(queue := []).closed == s'.closed && s'.(queue := []).dispatched == s'.dispatched;
    assert s'.(queue := []).taken == s'.taken && s'.(queue := []).closeAt == s'.closeAt;
  }

  lemma TakeIsCalm(t: Tunnel, i: nat, r: Uuid)
    requires i < |t.objs| ==> t.objs[i].id != r
    ensures Calm(t, Take(t, i), r)
  {
  }

  lemma PutIsCalm(t: Tunnel, r: Uuid)
    ensures Calm(t, Put(t), r)
  {
  }

  lemma DispatchIsCalm(t: Tunnel, f: Frame, r: Uuid)
    requires TableOwns(t) && (f.id == r ==> !CarriesData(f.kind) && !EndsStream(f.kind))
    ensures Calm(t, Dispatch(t, f), r)
  {
  }

  lemma OtherYieldIsCalm(w: Relay, id: Uuid, r: Uuid)
    requires ReadersOwnStreams(w) && id != r
    ensures Calm(w.tunnel, YieldOne(w, id).tunnel, r) && Calm(w.tunnel, TakeFirstPayload(w, id).tunnel, r)
  {
    if id in w.readers && (w.readers[id].AwaitFirst? || w.readers[id].Iterating?) {
      TakeIsCalm(w.tunnel, w.readers[id].stream, r);
    }
  }

  lemma TearDownKeepsFollows(w: Relay, r: Uuid, payloads: seq<Bytes>, seen: nat, home: nat)
    requires Follows(w, r, payloads, seen, home)
    ensures Follows(w.(tunnel := TearDown(w.tunnel)), r, payloads, seen, home)
  {
  }

  // Steps that concern r itself

  lemma BeginKeepsFollows(inbox: Inbox, w: Relay, id: Uuid, r: Uuid, payloads: seq<Bytes>, seen: nat, home: nat)
    returns (home': nat)
    requires Follows(w, r, payloads, seen, home) && forall i :: i in w.bridges ==> i < |w.tunnel.objs|
    requires id == r && w.position <= |inbox| ==> seen == |Lane(inbox[..w.position], r, ToRelay)|
    ensures Follows(BeginRequest(inbox, w, id), r, payloads, seen, home')
    ensures Follows(BeginBridge(inbox, w, id), r, payloads, seen, home)
  {
    var w' := BeginRequest(inbox, w, id);
    var n := |w.tunnel.objs|;
    home' := home;
    if w' != w {
      assert forall i :: 0 <= i < n ==> w'.tunnel.objs[i] == w.tunnel.objs[i];
      assert w'.tunnel.objs[n] == NewStream(id);
      if id == r { home' := n; }
    }
  }

  /** A data frame of r carries the next payload; the closing frame comes after the last one. */
  lemma FrameKeepsFollows(w: Relay, f: Frame, r: Uuid, payloads: seq<Bytes>, seen: nat, home: nat)
    requires Follows(w, r, payloads, seen, home) && w.tunnel.loop == Idle && seen <= |payloads|
    requires f == if seen < |payloads| then Frame(DATA, r, payloads[seen]) else Frame(CLOSE, r, [])
    ensures Follows(w.(tunnel := Dispatch(w.tunnel, f)), r, payloads, seen + 1, home)
  {
    if seen < |payloads| {
      assert payloads[..seen + 1] == payloads[..seen] + [payloads[seen]];
    }
    assert payloads[..|payloads|] == payloads;
  }

  lemma LookupKeepsFollows(w: Relay, r: Uuid, payloads: seq<Bytes>, seen: nat, home: nat)
    requires Follows(w, r, payloads, seen, home)
    ensures Follows(Lookup(w, r), r, payloads, seen, home)
  {
  }

  lemma TakeFirstKeepsFollows(w: Relay, r: Uuid, payloads: seq<Bytes>, seen: nat, home: nat)
    requires Follows(w, r, payloads, seen, home)
    ensures Follows(TakeFirstPayload(w, r), r, payloads, seen, home)
  {
  }

  lemma YieldKeepsFollows(w: Relay, r: Uuid, payloads: seq<Bytes>, seen: nat, home: nat)
    requires Follows(w, r, payloads, seen, home)
    ensures Follows(YieldOne(w, r), r, payloads, seen, home)
  {
    if r in w.readers && w.readers[r].Iterating? && CanTake(w.tunnel, home) {
      var h, y := w.readers[r], w.tunnel.objs[home].queue[0];
      assert [h.first] + h.yielded + [y] == [h.first] + (h.yielded + [y]);
    }
  }

  /** An iterator that ends after a closing frame has yielded everything dispatched before it. */
  lemma NothingLeftBehind(t: Tunnel, i: nat, payloads: seq<Bytes>)
    requires Sound(t) && i < |t.objs| && StreamFollows(t, t.objs[i], payloads)
    ensures t.objs[i].queue == [] && t.objs[i].closeAt.Some? ==> t.objs[i].taken == payloads
  {
    var s := t.objs[i];
    if s.queue == [] && s.closeAt.Some? {
      DrainedAfterClose(t, i);
      assert s.dispatched[..|payloads|] == payloads && s.taken[..|payloads|] == s.taken;
    }
  }

  lemma FinishKeepsFollows(w: Relay, r: Uuid, payloads: seq<Bytes>, seen: nat, home: nat)
    requires Follows(w, r, payloads, seen, home)
    requires r in w.readers && w.tunnel.objs[home].queue == [] && w.tunnel.objs[home].closeAt.Some? ==>
               w.tunnel.objs[home].taken == payloads
    ensures Follows(FinishOrWait(w, r), r, payloads, seen, home)
  {
  }

  /** A step of the proxy of request action.id. */
  predicate IsReaderStep(action: RelayAction) {
    action.LookupFirst? || action.TakeFirst? || action.Abandon? || action.StartIteration? || action.IterGet?
        || action.IterCheck?
  }

  /** Steps of r's own proxy. */
  lemma OwnStepKeepsFollows(inbox: Inbox, w: Relay, action: RelayAction, r: Uuid, payloads: seq<Bytes>, seen: nat,
                            home: nat)
    requires Follows(w, r, payloads, seen, home) && Sound(w.tunnel)
    requires IsReaderStep(action) && action.id == r
    ensures Follows(RelayStep(inbox, w, action), r, payloads, seen, home)
  {
    match action
    case LookupFirst(_) => LookupKeepsFollows(w, r, payloads, seen, home);
    case StartIteration(_) => LookupKeepsFollows(w, r, payloads, seen, home);
    case TakeFirst(_) => TakeFirstKeepsFollows(w, r, payloads, seen, home);
    case IterGet(_) => YieldKeepsFollows(w, r, payloads, seen, home);
    case IterCheck(_) =>
      if r in w.readers { NothingLeftBehind(w.tunnel, home, payloads); }
      FinishKeepsFollows(w, r, payloads, seen, home);
    case Abandon(_, _) =>
  }

  lemma BridgeTakeIsCalm(w: Relay, i: nat, r: Uuid, payloads: seq<Bytes>, seen: nat, home: nat)
    requires Follows(w, r, payloads, seen, home)
    ensures i in w.bridges && r in w.readers ==> Calm(w.tunnel, Take(w.tunnel, i), r)
  {
    if i in w.bridges && r in w.readers { TakeIsCalm(w.tunnel, i, r); }
  }

  /** A step of another request's proxy is calm for r. */
  lemma OtherReaderIsCalm(inbox: Inbox, w: Relay, action: RelayAction, r: Uuid)
    requires ReadersOwnStreams(w)
    requires IsReaderStep(action) && action.id != r
    ensures Calm(w.tunnel, RelayStep(inbox, w, action).tunnel, r)
  {
    if action.TakeFirst? || action.IterGet? { OtherYieldIsCalm(w, action.id, r); }
  }

  lemma OtherStepKeepsReader(inbox: Inbox, w: Relay, action: RelayAction, r: Uuid)
    requires action.CompletePut? || action.BridgeTake? || action.BridgeEnd? || (IsReaderStep(action) && action.id != r)
    ensures var w' := RelayStep(inbox, w, action);
            (r in w'.readers <==> r in w.readers) && (r in w.readers ==> w'.readers[r] == w.readers[r])
                && w'.bridges <= w.bridges
  {
  }

  /** Steps of other proxies, bridges and the loop's put. */
  lemma OtherStepKeepsFollows(inbox: Inbox, w: Relay, action: RelayAction, r: Uuid, payloads: seq<Bytes>, seen: nat,
                              home: nat)
    requires Follows(w, r, payloads, seen, home) && ReadersOwnStreams(w)
    requires action.CompletePut? || action.BridgeTake? || action.BridgeEnd? || (IsReaderStep(action) && action.id != r)
    ensures Follows(RelayStep(inbox, w, action), r, payloads, seen, home)
  {
    OtherStepKeepsReader(inbox, w, action, r);
    if r in w.readers {
      match action {
        case CompletePut => PutIsCalm(w.tunnel, r);
        case BridgeTake(i) => BridgeTakeIsCalm(w, i, r, payloads, seen, home);
        case BridgeEnd(_) =>
        case _ => OtherReaderIsCalm(inbox, w, action, r);
      }
      CalmKeepsFollows(w, RelayStep(inbox, w, action), r, payloads, seen, home);
    }
  }

  // What holds of every relay

  lemma ReaderTakeKeepsSound(w: Relay, id: Uuid)
    requires Sound(w.tunnel)
    ensures Sound(TakeFirstPayload(w, id).tunnel) && Sound(YieldOne(w, id).tunnel)
  {
    if id in w.readers && (w.readers[id].AwaitFirst? || w.readers[id].Iterating?) {
      TakeKeepsSound(w.tunnel, w.readers[id].stream);
    }
  }

  lemma ReceiveKeepsSound(inbox: Inbox, w: Relay)
    requires Sound(w.tunnel)
    ensures Sound(ReceiveNext(inbox, w).tunnel)
  {
    if w.position < |inbox| && inbox[w.position].Success? { DispatchKeepsSound(w.tunnel, inbox[w.position].value); }
  }

  lemma RemovalRemoves(inbox: Inbox, w: Relay, action: RelayAction)
    requires action.Abandon? || action.IterCheck? || action.BridgeEnd?
    ensures var t' := RelayStep(inbox, w, action).tunnel; t' == w.tunnel || exists id :: t' == Remove(w.tunnel, id)
  {
  }

  lemma RemovalKeepsSound(inbox: Inbox, w: Relay, action: RelayAction)
    requires Sound(w.tunnel) && (action.Abandon? || action.IterCheck? || action.BridgeEnd?)
    ensures Sound(RelayStep(inbox, w, action).tunnel)
  {
    RemovalRemoves(inbox, w, action);
    if RelayStep(inbox, w, action).tunnel != w.tunnel {
      var id :| RelayStep(inbox, w, action).tunnel == Remove(w.tunnel, id);
      RemoveKeepsSound(w.tunnel, id);
    }
  }

  lemma StepKeepsTunnelSound(inbox: Inbox, w: Relay, action: RelayAction)
    requires Sound(w.tunnel)
    ensures Sound(RelayStep(inbox, w, action).tunnel)
  {
    match action
    case Begin(id) => OpenKeepsSound(w.tunnel, id);
    case BridgeOpen(id) => OpenKeepsSound(w.tunnel, id);
    case Receive => ReceiveKeepsSound(inbox, w);
    case CompletePut => PutKeepsSound(w.tunnel);
    case TakeFirst(id) => ReaderTakeKeepsSound(w, id);
    case IterGet(id) => ReaderTakeKeepsSound(w, id);
    case BridgeTake(i) => TakeKeepsSound(w.tunnel, i);
    case Disconnect => TearDownKeepsSound(w.tunnel);
    case LookupFirst(id) =>
    case StartIteration(id) =>
    case _ => RemovalKeepsSound(inbox, w, action);
  }

  lemma StepKeepsIds(inbox: Inbox, w: Relay, action: RelayAction)
    ensures KeepsIds(w.tunnel, RelayStep(inbox, w, action).tunnel)
  {
  }

  lemma LookupKeepsReaders(w: Relay, id: Uuid)
    requires TableOwns(w.tunnel) && ReadersOwnStreams(w)
    ensures ReadersOwnStreams(Lookup(w, id))
  {
  }

  /** Only a lookup gives a reader a stream; the others keep theirs. */
  lemma StepKeepsReaderStreams(inbox: Inbox, w: Relay, action: RelayAction)
    requires !action.LookupFirst? && !action.StartIteration?
    ensures var w' := RelayStep(inbox, w, action);
            forall id :: id in w'.readers && (w'.readers[id].AwaitFirst? || w'.readers[id].Iterating?) ==>
              && id in w.readers && (w.readers[id].AwaitFirst? || w.readers[id].Iterating?)
              && w.readers[id].stream == w'.readers[id].stream
  {
  }

  lemma StepKeepsReaders(inbox: Inbox, w: Relay, action: RelayAction)
    requires TableOwns(w.tunnel) && ReadersOwnStreams(w)
    ensures ReadersOwnStreams(RelayStep(inbox, w, action))
  {
    if action.LookupFirst? || action.StartIteration? {
      LookupKeepsReaders(w, action.id);
    } else {
      StepKeepsIds(inbox, w, action);
      StepKeepsReaderStreams(inbox, w, action);
    }
  }

  // The lane of r on the wire

  lemma NextResponseFrame(inbox: Inbox, k: nat, r: Uuid, payloads: seq<Bytes>)
    requires k < |inbox| && Lane(inbox, r, ToRelay) <= ResponseFrames(r, payloads) && InLane(inbox[k], r, ToRelay)
    ensures var seen := |Lane(inbox[..k], r, ToRelay)|;
            && seen <= |payloads|
            && inbox[k].value == if seen < |payloads| then Frame(DATA, r, payloads[seen]) else Frame(CLOSE, r, [])
  {
    NextInLane(inbox, k, r, ToRelay, ResponseFrames(r, payloads));
  }

  lemma ReceiveKeepsFollows(inbox: Inbox, w: Relay, r: Uuid, payloads: seq<Bytes>, home: nat)
    requires w.position <= |inbox| && Follows(w, r, payloads, |Lane(inbox[..w.position], r, ToRelay)|, home)
    requires TableOwns(w.tunnel) && Lane(inbox, r, ToRelay) <= ResponseFrames(r, payloads)
    ensures var w' := ReceiveNext(inbox, w);
            w'.position <= |inbox| && Follows(w', r, payloads, |Lane(inbox[..w'.position], r, ToRelay)|, home)
  {
    var k := w.position;
    var w' := ReceiveNext(inbox, w);
    if w' != w {
      var f := inbox[k].value;
      var seen := |Lane(inbox[..k], r, ToRelay)|;
      LaneNext(inbox, k, r, ToRelay);
      if InLane(inbox[k], r, ToRelay) {
        NextResponseFrame(inbox, k, r, payloads);
        FrameKeepsFollows(w, f, r, payloads, seen, home);
      } else {
        DispatchIsCalm(w.tunnel, f, r);
        CalmKeepsFollows(w, w', r, payloads, seen, home);
      }
    }
  }

  ghost predicate BridgesInside(w: Relay) {
    forall i :: i in w.bridges ==> i < |w.tunnel.objs|
  }

  lemma StepKeepsBridgesInside(inbox: Inbox, w: Relay, action: RelayAction)
    requires BridgesInside(w)
    ensures BridgesInside(RelayStep(inbox, w, action))
  {
    StepKeepsIds(inbox, w, action);
  }

  ghost predicate Inv(inbox: Inbox, w: Relay, r: Uuid, payloads: seq<Bytes>, home: nat) {
    && Sound(w.tunnel) && ReadersOwnStreams(w) && BridgesInside(w)
    && w.position <= |inbox| && Follows(w, r, payloads, |Lane(inbox[..w.position], r, ToRelay)|, home)
  }

  lemma StepKeepsPosition(inbox: Inbox, w: Relay, action: RelayAction)
    requires !action.Receive?
    ensures RelayStep(inbox, w, action).position == w.position
  {
  }

  lemma StepKeepsFollows(inbox: Inbox, w: Relay, action: RelayAction, r: Uuid, payloads: seq<Bytes>, seen: nat,
                         home: nat)
    returns (home': nat)
    requires Follows(w, r, payloads, seen, home) && Sound(w.tunnel) && ReadersOwnStreams(w) && BridgesInside(w)
    requires !action.Receive?
    requires w.position <= |inbox| && seen == |Lane(inbox[..w.position], r, ToRelay)|
    ensures Follows(RelayStep(inbox, w, action), r, payloads, seen, home')
  {
    home' := home;
    if action.Begin? {
      home' := BeginKeepsFollows(inbox, w, action.id, r, payloads, seen, home);
    } else if action.BridgeOpen? {
      var _ := BeginKeepsFollows(inbox, w, action.id, r, payloads, seen, home);
    } else if action.Disconnect? {
      TearDownKeepsFollows(w, r, payloads, seen, home);
    } else if IsReaderStep(action) && action.id == r {
      OwnStepKeepsFollows(inbox, w, action, r, payloads, seen, home);
    } else {
      OtherStepKeepsFollows(inbox, w, action, r, payloads, seen, home);
    }
  }

  lemma StepKeepsInv(inbox: Inbox, w: Relay, action: RelayAction, r: Uuid, payloads: seq<Bytes>, home: nat)
    returns (home': nat)
    requires Inv(inbox, w, r, payloads, home) && Lane(inbox, r, ToRelay) <= ResponseFrames(r, payloads)
    ensures Inv(inbox, RelayStep(inbox, w, action), r, payloads, home')
  {
    StepKeepsTunnelSound(inbox, w, action);
    StepKeepsReaders(inbox, w, action);
    StepKeepsBridgesInside(inbox, w, action);
    if action.Receive? {
      home' := home;
      ReceiveKeepsFollows(inbox, w, r, payloads, home);
    } else {
      StepKeepsPosition(inbox, w, action);
      home' := StepKeepsFollows(inbox, w, action, r, payloads, |Lane(inbox[..w.position], r, ToRelay)|, home);
    }
  }

  lemma {:induction false} RunKeepsInv(inbox: Inbox, w: Relay, actions: seq<RelayAction>, r: Uuid, payloads: seq<Bytes>,
                                       home: nat)
    returns (home': nat)
    requires Inv(inbox, w, r, payloads, home) && Lane(inbox, r, ToRelay) <= ResponseFrames(r, payloads)
    ensures Inv(inbox, RelayRun(inbox, w, actions), r, payloads, home')
    decreases actions
  {
    if actions == [] {
      home' := home;
    } else {
      home' := StepKeepsInv(inbox, w, actions[0], r, payloads, home);
      home' := RunKeepsInv(inbox, RelayStep(inbox, w, actions[0]), actions[1..], r, payloads, home');
    }
  }

  /**
   Whatever else travels on the wire: what the iterator of request r has yielded is always a prefix of the
   agent's body frames, in order, and an iterator that ended on a connection that is still up has yielded
   them all.
   */
  lemma ResponseArrivesIntact(inbox: Inbox, actions: seq<RelayAction>, r: Uuid, metadata: Bytes, body: seq<Bytes>)
    requires Lane(inbox, r, ToRelay) <= ResponseFrames(r, [metadata] + body)
    ensures var w := RelayRun(inbox, NEW_RELAY, actions);
            r in w.readers && (w.readers[r].Iterating? || w.readers[r].Ended?) ==>
              && w.readers[r].first == metadata
              && w.readers[r].yielded <= body
              && (w.readers[r].Ended? && !w.tunnel.closed ==> w.readers[r].yielded == body)
  {
    assert inbox[..0] == [];
    var home := RunKeepsInv(inbox, NEW_RELAY, actions, r, [metadata] + body, 0);
    var w := RelayRun(inbox, NEW_RELAY, actions);
    if r in w.readers && (w.readers[r].Iterating? || w.readers[r].Ended?) {
      TakenIsPrefix(w.tunnel, home);
      YieldedSoFar(w, r, metadata, body, |Lane(inbox[..w.position], r, ToRelay)|, home);
    }
  }

  lemma SplitFirst(first: Bytes, yielded: seq<Bytes>, metadata: Bytes, body: seq<Bytes>)
    requires [first] + yielded <= [metadata] + body
    ensures first == metadata && yielded <= body
    ensures [first] + yielded == [metadata] + body ==> yielded == body
  {
    var taken, payloads := [first] + yielded, [metadata] + body;
    assert taken[0] == payloads[0];
    assert taken[1..] == yielded && payloads[1..] == body;
    assert taken == payloads[..|taken|];
    assert taken[1..] == payloads[1..][..|yielded|];
  }

  lemma YieldedSoFar(w: Relay, r: Uuid, metadata: Bytes, body: seq<Bytes>, seen: nat, home: nat)
    requires Follows(w, r, [metadata] + body, seen, home) && r in w.readers
    requires w.readers[r].Iterating? || w.readers[r].Ended?
    requires w.tunnel.objs[home].taken <= w.tunnel.objs[home].dispatched
    ensures w.readers[r].first == metadata && w.readers[r].yielded <= body
    ensures w.readers[r].Ended? && !w.tunnel.closed ==> w.readers[r].yielded == body
  {
    var s := w.tunnel.objs[home];
    assert s.taken == s.dispatched[..|s.taken|] == ([metadata] + body)[..|s.taken|];
    SplitFirst(w.readers[r].first, w.readers[r].yielded, metadata, body);
  }
}
