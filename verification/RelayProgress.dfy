/**
 Progress of the relay: what the readers of streams owe the receive loop. It is blocked for good exactly
 when it is blocked on the full queue of a stream that its request or bridge has left.
 */
module RelayProgress {
  import opened Prelude
  import opened Frames
  import opened TunnelMachine
  import opened Lanes
  import opened ResponsePath

  // ---------------------------------------------------------------------------
  // Who reads which stream
  // ---------------------------------------------------------------------------

  /** The reader holds stream i, if it holds one at all. */
  predicate HoldsOnly(h: Reader, i: nat) {
    h.AwaitFirst? || h.Iterating? ==> h.stream == i
  }

  /** The proxy of request id is still at work, and its stream is the one in the table. */
  ghost predicate Active(w: Relay, id: Uuid) {
    && id in w.readers && id in w.tunnel.table && !w.readers[id].Gone? && !w.readers[id].Ended?
    && w.tunnel.table[id] !in w.bridges && w.tunnel.table[id] !in w.departed
    && HoldsOnly(w.readers[id], w.tunnel.table[id])
  }

  /** Every tabled stream has a reader, or was left; requests and bridges never share an id. */
  ghost predicate Tabled(w: Relay) {
    && (forall id :: id in w.tunnel.table ==>
          Active(w, id) || w.tunnel.table[id] in w.bridges || w.tunnel.table[id] in w.departed)
    && (forall id :: id in w.readers && id in w.tunnel.table ==> w.readers[id].Gone? || Active(w, id))
    && (forall i :: i in w.bridges ==>
          && i < |w.tunnel.objs| && w.tunnel.objs[i].id !in w.readers
          && (w.tunnel.objs[i].id in w.tunnel.table ==> w.tunnel.table[w.tunnel.objs[i].id] == i))
  }

  /** While the connection is up, requests at work and bridges have their streams in the table. */
  ghost predicate Attended(w: Relay) {
    !w.tunnel.closed ==>
      && (forall id :: id in w.readers ==> w.readers[id].Gone? || w.readers[id].Ended? || Active(w, id))
      && (forall i :: i in w.bridges && i < |w.tunnel.objs| ==> w.tunnel.objs[i].id in w.tunnel.table)
  }

  /** A reader never holds the stream of a bridge or one that was left. */
  ghost predicate Apart(w: Relay) {
    && (forall i :: i in w.bridges ==> i !in w.departed)
    && (forall i :: i in w.departed ==> i < |w.tunnel.objs|)
    && (forall id :: id in w.readers && (w.readers[id].AwaitFirst? || w.readers[id].Iterating?) ==>
          w.readers[id].stream !in w.bridges && w.readers[id].stream !in w.departed)
  }

  /** A stream with somebody to take from it. */
  ghost predicate HasReader(w: Relay, i: nat) {
    i in w.bridges ||
    (i < |w.tunnel.objs| && var id := w.tunnel.objs[i].id; Active(w, id) && w.tunnel.table[id] == i)
  }

  /** While the connection is up: a put on a full queue waits for a reader, or for one that has left. */
  ghost predicate Awaited(w: Relay) {
    !w.tunnel.closed && w.tunnel.loop.Putting? && Full(w.tunnel, w.tunnel.loop.stream) ==>
      HasReader(w, w.tunnel.loop.stream) || w.tunnel.loop.stream in w.departed
  }

  ghost predicate Care(w: Relay) {
    Tabled(w) && Attended(w) && Apart(w) && ReadersOwnStreams(w)
  }

  ghost predicate Cared(w: Relay) {
    Sound(w.tunnel) && Care(w) && Awaited(w)
  }

  // Steps that change no reader

  lemma SameReadersKeepCare(w: Relay, w': Relay)
    requires w'.readers == w.readers && w'.bridges == w.bridges && w'.departed == w.departed
    requires SameStreams(w.tunnel, w'.tunnel) && w'.tunnel.table == w.tunnel.table && Care(w)
    ensures Care(w') && forall i: nat :: HasReader(w', i) == HasReader(w, i)
  {
    forall id ensures Active(w', id) == Active(w, id) {}
  }

  lemma ReceiveKeepsCared(inbox: Inbox, w: Relay)
    requires Cared(w)
    ensures Cared(ReceiveNext(inbox, w))
  {
    var w' := ReceiveNext(inbox, w);
    ReceiveKeepsSound(inbox, w);
    if w.tunnel.loop == Idle && w.position < |inbox| && inbox[w.position].Success? {
      DispatchRoutes(w.tunnel, inbox[w.position].value);
      SameReadersKeepCare(w, w');
      RoutedIsAwaited(w, w', inbox[w.position].value);
    }
  }

  lemma RoutedIsAwaited(w: Relay, w': Relay, f: Frame)
    requires Tabled(w) && TableOwns(w.tunnel) && w.tunnel.loop == Idle
    requires w' == w.(tunnel := Dispatch(w.tunnel, f), position := w'.position)
    requires forall i: nat :: HasReader(w', i) == HasReader(w, i)
    ensures Awaited(w')
  {
    DispatchRoutes(w.tunnel, f);
    if w'.tunnel.loop.Putting? { assert HasReader(w, w.tunnel.table[f.id]) || w.tunnel.table[f.id] in w.departed; }
  }

  lemma PutKeepsCare(w: Relay, w': Relay)
    requires Care(w) && Awaited(w) && w' == w.(tunnel := Put(w.tunnel))
    ensures Care(w') && Awaited(w')
  {
    SameReadersKeepCare(w, w');
  }

  lemma PutKeepsCared(w: Relay)
    requires Cared(w)
    ensures Cared(w.(tunnel := Put(w.tunnel)))
  {
    PutKeepsSound(w.tunnel);
    PutKeepsCare(w, w.(tunnel := Put(w.tunnel)));
  }

  /** A stream whose queue got shorter no longer blocks the loop; the others wait as before. */
  lemma ShorterKeepsAwaited(w: Relay, w': Relay, i: nat)
    requires Awaited(w) && SameStreams(w.tunnel, w'.tunnel) && w'.tunnel.loop == w.tunnel.loop && !Full(w'.tunnel, i)
    requires forall k :: 0 <= k < |w.tunnel.objs| && k != i ==> w'.tunnel.objs[k] == w.tunnel.objs[k]
    requires w'.departed == w.departed && forall k: nat :: HasReader(w, k) && k != i ==> HasReader(w', k)
    ensures Awaited(w')
  {
  }

  lemma BridgeTakeKeepsCared(w: Relay, i: nat)
    requires Cared(w) && i in w.bridges
    ensures Cared(w.(tunnel := Take(w.tunnel, i)))
  {
    TakeKeepsSound(w.tunnel, i);
    if CanTake(w.tunnel, i) {
      TakeShortens(w.tunnel, i);
      SameReadersKeepCare(w, w.(tunnel := Take(w.tunnel, i)));
    }
  }

  // Steps of one reader

  /** The reader of id goes on as h, holding the same stream, the tabled one, or none. */
  ghost predicate GoesOn(w: Relay, w': Relay, id: Uuid, h: Reader) {
    && id in w.readers && !w.readers[id].Gone? && !w.readers[id].Ended? && !h.Gone? && !h.Ended?
    && w'.readers == w.readers[id := h] && w'.bridges == w.bridges && w'.departed == w.departed
    && SameStreams(w.tunnel, w'.tunnel) && w'.tunnel.table == w.tunnel.table
    && (h.AwaitFirst? || h.Iterating? ==>
          if w.readers[id].AwaitFirst? || w.readers[id].Iterating? then h.stream == w.readers[id].stream
          else id in w.tunnel.table && h.stream == w.tunnel.table[id])
  }

  lemma GoesOnActive(w: Relay, w': Relay, id: Uuid, h: Reader)
    requires GoesOn(w, w', id, h) && Tabled(w)
    ensures forall x :: Active(w', x) == Active(w, x)
  {
    forall x ensures Active(w', x) == Active(w, x) {}
  }

  lemma GoesOnHolding(w: Relay, w': Relay, id: Uuid, h: Reader)
    requires GoesOn(w, w', id, h) && Tabled(w) && Apart(w) && ReadersOwnStreams(w) && TableOwns(w.tunnel)
    ensures Apart(w') && ReadersOwnStreams(w')
  {
    if id in w.tunnel.table { assert Active(w, id); }
  }

  lemma ReaderGoesOn(w: Relay, w': Relay, id: Uuid, h: Reader)
    requires Care(w) && GoesOn(w, w', id, h) && TableOwns(w.tunnel)
    ensures Care(w') && forall i: nat :: HasReader(w', i) == HasReader(w, i)
  {
    GoesOnActive(w, w', id, h);
    GoesOnHolding(w, w', id, h);
  }

  /** The reader of id is over and its entry goes. */
  ghost predicate IsOver(w: Relay, w': Relay, id: Uuid) {
    && id in w.readers && w.readers[id].Iterating?
    && (exists first, yielded :: w'.readers == w.readers[id := Ended(first, yielded)])
          && w'.tunnel.table == w.tunnel.table - {id}
    && w'.bridges == w.bridges && w'.departed == w.departed && SameStreams(w.tunnel, w'.tunnel)
  }

  lemma OverKeepsActive(w: Relay, w': Relay, id: Uuid)
    requires IsOver(w, w', id)
    ensures forall x :: Active(w', x) == (x != id && Active(w, x))
  {
    forall x | x != id ensures Active(w', x) == Active(w, x) {}
  }

  lemma ReaderEnds(w: Relay, w': Relay, id: Uuid)
    requires Care(w) && IsOver(w, w', id)
    ensures Care(w')
    ensures !w.tunnel.closed ==> forall k: nat :: HasReader(w, k) && k != w.readers[id].stream ==> HasReader(w', k)
  {
    OverKeepsActive(w, w', id);
  }

  lemma LookupFails(w: Relay, id: Uuid)
    requires Care(w) && id in w.readers && id !in w.tunnel.table
    ensures Care(Set(w, id, Gone)) && forall i: nat :: HasReader(Set(w, id, Gone), i) == HasReader(w, i)
  {
    var w' := Set(w, id, Gone);
    forall x ensures Active(w', x) == Active(w, x) {}
  }

  lemma LookupKeepsCare(w: Relay, id: Uuid)
    requires Care(w) && Awaited(w) && TableOwns(w.tunnel)
    ensures Care(Lookup(w, id)) && Awaited(Lookup(w, id))
  {
    var w' := Lookup(w, id);
    if id in w.readers && (w.readers[id].Sending? || w.readers[id].HaveFirst?) {
      if id in w.tunnel.table { ReaderGoesOn(w, w', id, w'.readers[id]); } else { LookupFails(w, id); }
    }
  }

  lemma LookupKeepsCared(w: Relay, id: Uuid)
    requires Cared(w)
    ensures Cared(Lookup(w, id))
  {
    LookupKeepsCare(w, id);
  }

  /** A reader takes the oldest payload of its stream. */
  lemma ReaderTakeKeepsCared(w: Relay, w': Relay, id: Uuid, h: Reader)
    requires Cared(w) && id in w.readers && (w.readers[id].AwaitFirst? || w.readers[id].Iterating?)
    requires CanTake(w.tunnel, w.readers[id].stream)
    requires (h.HaveFirst? || (h.Iterating? && h.stream == w.readers[id].stream))
    requires w' == Set(w, id, h).(tunnel := Take(w.tunnel, w.readers[id].stream))
    ensures Cared(w')
  {
    var i := w.readers[id].stream;
    TakeKeepsSound(w.tunnel, i);
    TakeShortens(w.tunnel, i);
    ReaderGoesOn(w, w', id, h);
    ShorterKeepsAwaited(w, w', i);
  }

  lemma TakesKeepCared(w: Relay, id: Uuid)
    requires Cared(w)
    ensures Cared(TakeFirstPayload(w, id)) && Cared(YieldOne(w, id))
  {
    var a, b := TakeFirstPayload(w, id), YieldOne(w, id);
    if id in w.readers && w.readers[id].AwaitFirst? && CanTake(w.tunnel, w.readers[id].stream) {
      ReaderTakeKeepsCared(w, a, id, a.readers[id]);
    }
    if id in w.readers && w.readers[id].Iterating? && w.readers[id].phase != AfterYield
        && CanTake(w.tunnel, w.readers[id].stream) {
      ReaderTakeKeepsCared(w, b, id, b.readers[id]);
    }
  }

  lemma FinishKeepsCare(w: Relay, id: Uuid)
    requires Care(w) && Awaited(w) && TableOwns(w.tunnel)
    ensures Care(FinishOrWait(w, id)) && Awaited(FinishOrWait(w, id))
  {
    var w' := FinishOrWait(w, id);
    if id in w.readers && w.readers[id].Iterating? && w.readers[id].stream < |w.tunnel.objs| {
      if w'.readers[id].Ended? {
        ReaderEnds(w, w', id);
        EndedKeepsAwaited(w, w', w.readers[id].stream);
      } else {
        ReaderGoesOn(w, w', id, w'.readers[id]);
      }
    }
  }

  lemma FinishKeepsCared(w: Relay, id: Uuid)
    requires Cared(w)
    ensures Cared(FinishOrWait(w, id))
  {
    FinishKeepsCare(w, id);
    RemoveKeepsSound(w.tunnel, id);
  }

  /** Nothing waits for a stream with an empty queue. */
  lemma EndedKeepsAwaited(w: Relay, w': Relay, i: nat)
    requires Awaited(w) && w'.tunnel.objs == w.tunnel.objs && w'.tunnel.loop == w.tunnel.loop
    requires w'.tunnel.closed == w.tunnel.closed
    requires i < |w.tunnel.objs| && w.tunnel.objs[i].queue == [] && w'.departed == w.departed
    requires !w.tunnel.closed ==> forall k: nat :: HasReader(w, k) && k != i ==> HasReader(w', k)
    ensures Awaited(w')
  {
  }

  /** Request id has left its stream, with or without its entry in the table. */
  ghost predicate LeftBy(w: Relay, w': Relay, id: Uuid) {
    && id in w.readers && !w.readers[id].Gone? && !w.readers[id].Ended?
    && w'.readers == w.readers[id := Gone] && w'.bridges == w.bridges
    && w'.departed == (if id in w.tunnel.table then w.departed + {w.tunnel.table[id]} else w.departed)
    && w'.tunnel.objs == w.tunnel.objs && w'.tunnel.loop == w.tunnel.loop && w'.tunnel.closed == w.tunnel.closed
    && (w'.tunnel.table == w.tunnel.table || w'.tunnel.table == w.tunnel.table - {id})
  }

  /** Another request does not read the stream that is left. */
  lemma OtherStaysActive(w: Relay, w': Relay, id: Uuid, x: Uuid)
    requires TableOwns(w.tunnel) && x != id
    requires (x in w'.readers <==> x in w.readers) && (x in w.readers ==> w'.readers[x] == w.readers[x])
    requires w'.bridges == w.bridges
    requires (x in w'.tunnel.table <==> x in w.tunnel.table)
    requires (x in w.tunnel.table ==> w'.tunnel.table[x] == w.tunnel.table[x])
    requires w'.departed == if id in w.tunnel.table then w.departed + {w.tunnel.table[id]} else w.departed
    ensures Active(w', x) == Active(w, x)
  {
  }

  lemma OthersStayActive(w: Relay, w': Relay, id: Uuid)
    requires LeftBy(w, w', id) && TableOwns(w.tunnel)
    ensures forall x :: Active(w', x) == (x != id && Active(w, x))
  {
    forall x | x != id ensures Active(w', x) == Active(w, x) { OtherStaysActive(w, w', id, x); }
  }

  lemma LeavingKeepsTabled(w: Relay, w': Relay, id: Uuid)
    requires LeftBy(w, w', id) && TableOwns(w.tunnel) && Tabled(w)
    ensures Tabled(w')
  {
    OthersStayActive(w, w', id);
  }

  lemma LeavingKeepsAttended(w: Relay, w': Relay, id: Uuid)
    requires LeftBy(w, w', id) && TableOwns(w.tunnel) && Attended(w) && Tabled(w)
    ensures Attended(w')
  {
    OthersStayActive(w, w', id);
  }

  lemma LeavingKeepsApart(w: Relay, w': Relay, id: Uuid)
    requires LeftBy(w, w', id) && TableOwns(w.tunnel) && Tabled(w) && Apart(w) && ReadersOwnStreams(w)
    ensures Apart(w') && ReadersOwnStreams(w')
  {
    if id in w.tunnel.table { assert Active(w, id); }
  }

  lemma LeavingKeepsAwaited(w: Relay, w': Relay, id: Uuid)
    requires LeftBy(w, w', id) && TableOwns(w.tunnel) && Awaited(w)
    ensures Awaited(w')
  {
    OthersStayActive(w, w', id);
  }

  lemma GiveUpKeepsCared(w: Relay, id: Uuid, removes: bool)
    requires Cared(w)
    ensures Cared(GiveUp(w, id, removes))
  {
    var w' := GiveUp(w, id, removes);
    if id in w.readers && !w.readers[id].Gone? && !w.readers[id].Ended? {
      RemoveKeepsSound(w.tunnel, id);
      assert LeftBy(w, w', id);
      LeavingKeepsTabled(w, w', id);
      LeavingKeepsAttended(w, w', id);
      LeavingKeepsApart(w, w', id);
      LeavingKeepsAwaited(w, w', id);
    }
  }

  // Opening and ending

  /** A stream was opened under a fresh id. */
  ghost predicate Opened(w: Relay, w': Relay, id: Uuid) {
    && id !in w.tunnel.table && id !in w.readers && (forall i :: 0 <= i < |w.tunnel.objs| ==> w.tunnel.objs[i].id != id)
    && w'.tunnel == w.tunnel.(objs := w.tunnel.objs + [NewStream(id)], table := w.tunnel.table[id := |w.tunnel.objs|])
    && w'.departed == w.departed
  }

  lemma OpenedKeepsActive(w: Relay, w': Relay, id: Uuid, x: Uuid)
    requires Opened(w, w', id) && TableOwns(w.tunnel) && x != id
    requires (x in w'.readers <==> x in w.readers) && (x in w.readers ==> w'.readers[x] == w.readers[x])
    requires w'.bridges == w.bridges || w'.bridges == w.bridges + {|w.tunnel.objs|}
    ensures Active(w', x) == Active(w, x)
  {
  }

  lemma BeginKeepsCare(inbox: Inbox, w: Relay, id: Uuid)
    requires Care(w) && TableOwns(w.tunnel)
    ensures Care(BeginRequest(inbox, w, id)) && forall i: nat :: HasReader(w, i) ==>
            HasReader(BeginRequest(inbox, w, id), i)
  {
    var w' := BeginRequest(inbox, w, id);
    if w' != w {
      assert Opened(w, w', id);
      forall x | x != id ensures Active(w', x) == Active(w, x) { OpenedKeepsActive(w, w', id, x); }
      RequestOpened(w, w', id);
    }
  }

  lemma RequestOpened(w: Relay, w': Relay, id: Uuid)
    requires Opened(w, w', id) && Care(w) && TableOwns(w.tunnel) && w'.readers == w.readers[id := Sending]
    requires w'.bridges == w.bridges
    requires forall x :: x != id ==> Active(w', x) == Active(w, x)
    ensures Care(w') && forall i: nat :: HasReader(w, i) ==> HasReader(w', i)
  {
    assert Active(w', id);
  }

  lemma BridgeOpened(w: Relay, w': Relay, id: Uuid)
    requires Opened(w, w', id) && Care(w) && TableOwns(w.tunnel) && w'.readers == w.readers
    requires w'.bridges == w.bridges + {|w.tunnel.objs|}
    requires forall x :: Active(w', x) == Active(w, x)
    ensures Care(w') && forall i: nat :: HasReader(w, i) ==> HasReader(w', i)
  {
  }

  lemma BeginBridgeKeepsCare(inbox: Inbox, w: Relay, id: Uuid)
    requires Care(w) && TableOwns(w.tunnel)
    ensures Care(BeginBridge(inbox, w, id)) && forall i: nat :: HasReader(w, i) ==>
            HasReader(BeginBridge(inbox, w, id), i)
  {
    var w' := BeginBridge(inbox, w, id);
    if w' != w {
      assert Opened(w, w', id);
      forall x ensures Active(w', x) == Active(w, x) { if x != id { OpenedKeepsActive(w, w', id, x); } }
      BridgeOpened(w, w', id);
    }
  }

  lemma BeginKeepsCared(inbox: Inbox, w: Relay, id: Uuid)
    requires Cared(w)
    ensures Cared(BeginRequest(inbox, w, id)) && Cared(BeginBridge(inbox, w, id))
  {
    OpenKeepsSound(w.tunnel, id);
    BeginKeepsCare(inbox, w, id);
    BeginBridgeKeepsCare(inbox, w, id);
  }

  /** The bridge of stream i has ended and removed its entry. */
  ghost predicate EndedBy(w: Relay, w': Relay, i: nat) {
    && i in w.bridges && i < |w.tunnel.objs|
    && w' == w.(tunnel := Remove(w.tunnel, w.tunnel.objs[i].id), bridges := w.bridges - {i},
         departed := w.departed + {i})
  }

  lemma EndKeepsActive(w: Relay, w': Relay, i: nat)
    requires EndedBy(w, w', i) && Tabled(w) && TableOwns(w.tunnel)
    ensures forall x :: Active(w', x) == Active(w, x)
  {
    forall x ensures Active(w', x) == Active(w, x) {}
  }

  lemma EndKeepsTabled(w: Relay, w': Relay, i: nat)
    requires EndedBy(w, w', i) && Tabled(w) && Attended(w) && TableOwns(w.tunnel)
    ensures Tabled(w') && Attended(w')
  {
    EndKeepsActive(w, w', i);
  }

  lemma BridgeEndKeepsCare(w: Relay, i: nat)
    requires Care(w) && TableOwns(w.tunnel)
    ensures Care(EndBridge(w, i)) && forall k: nat :: HasReader(w, k) && k != i ==> HasReader(EndBridge(w, i), k)
  {
    var w' := EndBridge(w, i);
    if i in w.bridges && i < |w.tunnel.objs| {
      EndKeepsActive(w, w', i);
      EndKeepsTabled(w, w', i);
    }
  }

  lemma BridgeEndKeepsCared(w: Relay, i: nat)
    requires Cared(w)
    ensures Cared(EndBridge(w, i))
  {
    BridgeEndKeepsCare(w, i);
    if i < |w.tunnel.objs| { RemoveKeepsSound(w.tunnel, w.tunnel.objs[i].id); }
  }

  lemma TearDownKeepsCare(w: Relay, w': Relay)
    requires Care(w) && Awaited(w) && w' == w.(tunnel := TearDown(w.tunnel))
    ensures Care(w') && Awaited(w')
  {
  }

  lemma TearDownKeepsCared(w: Relay)
    requires Cared(w)
    ensures Cared(w.(tunnel := TearDown(w.tunnel)))
  {
    TearDownKeepsSound(w.tunnel);
    TearDownKeepsCare(w, w.(tunnel := TearDown(w.tunnel)));
  }

  /** What the steps of readers and bridges come down to. */
  lemma StepIs(inbox: Inbox, w: Relay, action: RelayAction)
    ensures var w' := RelayStep(inbox, w, action);
            && (action.LookupFirst? || action.StartIteration? ==> w' == Lookup(w, action.id))
            && (action.TakeFirst? ==> w' == TakeFirstPayload(w, action.id))
            && (action.IterGet? ==> w' == YieldOne(w, action.id))
            && (action.IterCheck? ==> w' == FinishOrWait(w, action.id))
            && (action.Abandon? ==> w' == GiveUp(w, action.id, action.removes))
            && (action.BridgeOpen? ==> w' == BeginBridge(inbox, w, action.id))
            && (action.BridgeEnd? ==> w' == EndBridge(w, action.stream))
            && (action.BridgeTake? ==> w' == if action.stream in w.bridges
                  then w.(tunnel := Take(w.tunnel, action.stream)) else w)
            && (action.Begin? ==> w' == BeginRequest(inbox, w, action.id))
            && (action.Receive? ==> w' == ReceiveNext(inbox, w))
            && (action.CompletePut? ==> w' == w.(tunnel := Put(w.tunnel)))
            && (action.Disconnect? ==> w' == w.(tunnel := TearDown(w.tunnel)))
  {
  }

  lemma StepKeepsCared(inbox: Inbox, w: Relay, action: RelayAction)
    requires Cared(w)
    ensures Cared(RelayStep(inbox, w, action))
  {
    StepIs(inbox, w, action);
    match action
    case Begin(id) => BeginKeepsCared(inbox, w, id);
    case BridgeOpen(id) => BeginKeepsCared(inbox, w, id);
    case Receive => ReceiveKeepsCared(inbox, w);
    case CompletePut => PutKeepsCared(w);
    case LookupFirst(id) => LookupKeepsCared(w, id);
    case TakeFirst(id) => TakesKeepCared(w, id);
    case Abandon(id, removes) => GiveUpKeepsCared(w, id, removes);
    case StartIteration(id) => LookupKeepsCared(w, id);
    case IterGet(id) => TakesKeepCared(w, id);
    case IterCheck(id) => FinishKeepsCared(w, id);
    case BridgeTake(i) => if i in w.bridges { BridgeTakeKeepsCared(w, i); }
    case BridgeEnd(i) => BridgeEndKeepsCared(w, i);
    case Disconnect => TearDownKeepsCared(w);
  }

  lemma {:induction false} RunKeepsCared(inbox: Inbox, w: Relay, actions: seq<RelayAction>)
    requires Cared(w)
    ensures Cared(RelayRun(inbox, w, actions))
    decreases actions
  {
    if actions != [] {
      StepKeepsCared(inbox, w, actions[0]);
      RunKeepsCared(inbox, RelayStep(inbox, w, actions[0]), actions[1..]);
    }
  }

  lemma NewIsCared()
    ensures Cared(NEW_RELAY)
  {
  }

  // ---------------------------------------------------------------------------
  // Once the wire is read, every reader can finish
  // ---------------------------------------------------------------------------

  /** The loop is between frames on a live connection and has read all of response r. */
  ghost predicate AllReceived(w: Relay, r: Uuid, payloads: seq<Bytes>, home: nat) {
    && Follows(w, r, payloads, |payloads| + 1, home) && Sound(w.tunnel) && payloads != []
    && w.tunnel.loop == Idle && !w.tunnel.closed && r in w.readers
    && (w.readers[r].Ended? || r in w.tunnel.table) && !w.readers[r].Gone?
  }

  /** Then the stream is closed, and what was not taken yet is in its queue. */
  lemma RestIsQueued(w: Relay, r: Uuid, payloads: seq<Bytes>, home: nat)
    requires AllReceived(w, r, payloads, home) && !w.readers[r].Ended?
    ensures home < |w.tunnel.objs| && w.tunnel.objs[home].closed
    ensures w.tunnel.objs[home].taken + w.tunnel.objs[home].queue == payloads
  {
    var s := w.tunnel.objs[home];
    assert StreamSound(s, InFlight(w.tunnel, home));
    assert s.taken + s.queue + [] == s.taken + s.queue;
  }

  lemma LookupProgress(w: Relay, r: Uuid, payloads: seq<Bytes>, home: nat)
    requires AllReceived(w, r, payloads, home)
    ensures var w' := Lookup(w, r);
            AllReceived(w', r, payloads, home) && !w'.readers[r].Sending? && !w'.readers[r].HaveFirst?
            && (w.readers[r].HaveFirst? ==> w'.readers[r].Iterating?)
            && (w.readers[r].Iterating? || w.readers[r].Ended? ==> w' == w)
  {
    LookupKeepsFollows(w, r, payloads, |payloads| + 1, home);
  }

  lemma TakeFirstProgress(w: Relay, r: Uuid, payloads: seq<Bytes>, home: nat)
    requires AllReceived(w, r, payloads, home) && !w.readers[r].Sending?
    ensures var w' := TakeFirstPayload(w, r);
            AllReceived(w', r, payloads, home) && !w'.readers[r].Sending? && !w'.readers[r].AwaitFirst?
  {
    TakeFirstKeepsFollows(w, r, payloads, |payloads| + 1, home);
    ReaderTakeKeepsSound(w, r);
    if w.readers[r].AwaitFirst? { RestIsQueued(w, r, payloads, home); }
  }

  lemma YieldProgress(w: Relay, r: Uuid, payloads: seq<Bytes>, home: nat)
    requires AllReceived(w, r, payloads, home) && w.readers[r].Iterating?
    ensures var w' := YieldOne(w, r);
            && AllReceived(w', r, payloads, home) && w'.readers[r].Iterating?
            && w.readers[r].stream == w'.readers[r].stream == home < |w.tunnel.objs| == |w'.tunnel.objs|
            && (w' == w || (|w'.tunnel.objs[home].queue| < |w.tunnel.objs[home].queue|
                            && w'.readers[r].phase == if w.readers[r].phase == Draining then Draining else AfterYield))
            && (w' == w ==> w.readers[r].phase == AfterYield || w.tunnel.objs[home].queue == [])
  {
    YieldKeepsFollows(w, r, payloads, |payloads| + 1, home);
    ReaderTakeKeepsSound(w, r);
  }

  /** Once everything is received, a check ends the iteration or goes on to what is queued. */
  lemma CheckMovesOn(w: Relay, r: Uuid, home: nat)
    requires r in w.readers && w.readers[r].Iterating? && w.readers[r].stream == home < |w.tunnel.objs|
    requires w.tunnel.objs[home].closed
    ensures var w' := FinishOrWait(w, r);
            && r in w'.readers && w'.tunnel.objs == w.tunnel.objs && w'.tunnel.loop == w.tunnel.loop
                 && w'.tunnel.closed == w.tunnel.closed
            && ((w'.readers[r].Ended? && w'.tunnel == Remove(w.tunnel, r)) ||
                (w'.readers[r].Iterating? && w'.tunnel == w.tunnel
                 && w'.readers[r].phase == (if w.readers[r].phase == AfterYield then Waiting else Draining)
                 && (w.readers[r].phase != Waiting ==> w.tunnel.objs[home].queue != [])))
  {
  }

  lemma FinishProgress(w: Relay, r: Uuid, payloads: seq<Bytes>, home: nat)
    requires AllReceived(w, r, payloads, home) && w.readers[r].Iterating?
    ensures var w' := FinishOrWait(w, r);
            && AllReceived(w', r, payloads, home)
            && |w'.tunnel.objs| == |w.tunnel.objs| && w'.tunnel.objs == w.tunnel.objs
            && (w'.readers[r].Ended? ||
                (w'.readers[r].Iterating? && home < |w.tunnel.objs|
                 && w'.readers[r].phase == (if w.readers[r].phase == AfterYield then Waiting else Draining)
                 && (w.readers[r].phase != Waiting ==> w.tunnel.objs[home].queue != [])))
  {
    RestIsQueued(w, r, payloads, home);
    NothingLeftBehind(w.tunnel, home, payloads);
    FinishKeepsFollows(w, r, payloads, |payloads| + 1, home);
    CheckMovesOn(w, r, home);
    RemoveKeepsSound(w.tunnel, r);
  }

  /** One round of the iterator: a get, then a check. */
  function Round(w: Relay, r: Uuid): Relay {
    FinishOrWait(YieldOne(w, r), r)
  }

  function Rounds(r: Uuid, n: nat): seq<RelayAction> {
    if n == 0 then [] else [IterGet(r), IterCheck(r)] + Rounds(r, n - 1)
  }

  lemma RoundsNext(inbox: Inbox, w: Relay, r: Uuid, n: nat)
    ensures RelayRun(inbox, w, Rounds(r, n + 1)) == RelayRun(inbox, Round(w, r), Rounds(r, n))
  {
    var actions := Rounds(r, n + 1);
    assert actions[0] == IterGet(r) && actions[1..][0] == IterCheck(r) && actions[1..][1..] == Rounds(r, n);
    assert RelayStep(inbox, w, IterGet(r)) == YieldOne(w, r);
    assert RelayStep(inbox, YieldOne(w, r), IterCheck(r)) == Round(w, r);
  }

  ghost function Left(w: Relay, r: Uuid, home: nat): nat
    requires r in w.readers && home < |w.tunnel.objs|
  {
    if !w.readers[r].Iterating? then 0
    else
      3 * |w.tunnel.objs[home].queue| +
        match w.readers[r].phase case Draining => 1 case Waiting => 2 case AfterYield => 3
  }

  lemma RoundProgress(w: Relay, r: Uuid, payloads: seq<Bytes>, home: nat)
    requires AllReceived(w, r, payloads, home) && w.readers[r].Iterating? && home < |w.tunnel.objs|
    ensures var w' := Round(w, r);
            && AllReceived(w', r, payloads, home) && home < |w'.tunnel.objs|
            && (w'.readers[r].Ended? || w'.readers[r].Iterating?) && Left(w', r, home) < Left(w, r, home)
  {
    YieldProgress(w, r, payloads, home);
    FinishProgress(YieldOne(w, r), r, payloads, home);
  }

  lemma {:induction false} IterationEnds(inbox: Inbox, w: Relay, r: Uuid, payloads: seq<Bytes>, home: nat)
    returns (n: nat)
    requires AllReceived(w, r, payloads, home) && (w.readers[r].Iterating? || w.readers[r].Ended?)
    requires home < |w.tunnel.objs|
    ensures var w' := RelayRun(inbox, w, Rounds(r, n)); AllReceived(w', r, payloads, home) && w'.readers[r].Ended?
    decreases Left(w, r, home)
  {
    n := 0;
    if w.readers[r].Iterating? {
      RoundProgress(w, r, payloads, home);
      n := IterationEnds(inbox, Round(w, r), r, payloads, home);
      RoundsNext(inbox, w, r, n);
      n := n + 1;
    }
  }

  /** The reads before the iteration: look up, take the metadata, look up again. */
  function Preamble(w: Relay, r: Uuid): Relay {
    Lookup(TakeFirstPayload(Lookup(w, r), r), r)
  }

  lemma PreambleProgress(w: Relay, r: Uuid, payloads: seq<Bytes>, home: nat)
    requires AllReceived(w, r, payloads, home)
    ensures var w' := Preamble(w, r);
            AllReceived(w', r, payloads, home) && (w'.readers[r].Iterating? || w'.readers[r].Ended?)
  {
    LookupProgress(w, r, payloads, home);
    TakeFirstProgress(Lookup(w, r), r, payloads, home);
    LookupProgress(TakeFirstPayload(Lookup(w, r), r), r, payloads, home);
  }

  lemma PreambleSteps(inbox: Inbox, w: Relay, r: Uuid)
    ensures RelayRun(inbox, w, [LookupFirst(r), TakeFirst(r), StartIteration(r)]) == Preamble(w, r)
  {
    var actions := [LookupFirst(r), TakeFirst(r), StartIteration(r)];
    assert actions[1..] == [TakeFirst(r), StartIteration(r)] && actions[1..][1..] == [StartIteration(r)];
    assert actions[1..][1..][1..] == [];
    var w1 := Lookup(w, r);
    var w2 := TakeFirstPayload(w1, r);
    assert RelayRun(inbox, w2, actions[1..][1..]) == RelayRun(inbox, Lookup(w2, r), []) == Lookup(w2, r);
    assert RelayRun(inbox, w1, actions[1..]) == RelayRun(inbox, w2, actions[1..][1..]);
  }

  /**
   Whenever the loop has read a wire that carries the whole of response r and the connection is up, r's
   reader (if it was not abandoned) ends with the metadata and exactly the agent's body frames, by its own
   steps alone.
   */
  lemma EveryResponseCompletes(inbox: Inbox, actions: seq<RelayAction>, r: Uuid, metadata: Bytes, body: seq<Bytes>)
    returns (n: nat)
    requires Lane(inbox, r, ToRelay) == ResponseFrames(r, [metadata] + body)
    requires var w := RelayRun(inbox, NEW_RELAY, actions);
             w.position == |inbox| && w.tunnel.loop == Idle && !w.tunnel.closed && r in w.readers && !w.readers[r].Gone?
    ensures var w := RelayRun(inbox, NEW_RELAY, actions);
            EndedWith(RelayRun(inbox, w, OwnSteps(r, n)), r, metadata, body)
  {
    var w := RelayRun(inbox, NEW_RELAY, actions);
    var payloads := [metadata] + body;
    assert inbox[..0] == [] && inbox[..|inbox|] == inbox;
    var home := RunKeepsInv(inbox, NEW_RELAY, actions, r, payloads, 0);
    NewIsCared();
    RunKeepsCared(inbox, NEW_RELAY, actions);
    assert AllReceived(w, r, payloads, home);
    PreambleProgress(w, r, payloads, home);
    PreambleSteps(inbox, w, r);
    n := IterationEnds(inbox, Preamble(w, r), r, payloads, home);
    EndedHasAll(RelayRun(inbox, Preamble(w, r), Rounds(r, n)), r, metadata, body, home);
    RunAppend(inbox, w, [LookupFirst(r), TakeFirst(r), StartIteration(r)], Rounds(r, n));
  }

  ghost predicate EndedWith(w: Relay, r: Uuid, metadata: Bytes, body: seq<Bytes>) {
    r in w.readers && w.readers[r] == Ended(metadata, body)
  }

  /** The steps of one request's proxy: the two reads, then n rounds of its iterator. */
  function OwnSteps(r: Uuid, n: nat): seq<RelayAction> {
    [LookupFirst(r), TakeFirst(r), StartIteration(r)] + Rounds(r, n)
  }

  lemma EndedHasAll(w: Relay, r: Uuid, metadata: Bytes, body: seq<Bytes>, home: nat)
    requires AllReceived(w, r, [metadata] + body, home) && w.readers[r].Ended?
    ensures w.readers[r] == Ended(metadata, body)
  {
    TakenIsPrefix(w.tunnel, home);
    YieldedSoFar(w, r, metadata, body, |body| + 2, home);
  }

  lemma {:induction false} RunAppend(inbox: Inbox, w: Relay, x: seq<RelayAction>, y: seq<RelayAction>)
    ensures RelayRun(inbox, w, x + y) == RelayRun(inbox, RelayRun(inbox, w, x), y)
    decreases x
  {
    if x == [] {
      assert x + y == y;
    } else {
      RunAppend(inbox, RelayStep(inbox, w, x[0]), x[1..], y);
      assert (x + y)[1..] == x[1..] + y;
    }
  }

  // ---------------------------------------------------------------------------
  // A closed stream ends its reader
  // ---------------------------------------------------------------------------

  lemma YieldMovesOn(w: Relay, r: Uuid, home: nat)
    requires r in w.readers && w.readers[r].Iterating? && w.readers[r].stream == home < |w.tunnel.objs|
    ensures var w' := YieldOne(w, r);
            && r in w'.readers && w'.readers[r].Iterating? && w'.readers[r].stream == home < |w'.tunnel.objs|
            && w'.tunnel.objs[home].closed == w.tunnel.objs[home].closed
            && (w' == w || (|w'.tunnel.objs[home].queue| < |w.tunnel.objs[home].queue|
                            && w'.readers[r].phase == if w.readers[r].phase == Draining then Draining else AfterYield))
            && (w' == w ==> w.readers[r].phase == AfterYield || w.tunnel.objs[home].queue == [])
  {
  }

  lemma ClosedRoundMovesOn(w: Relay, r: Uuid, home: nat)
    requires r in w.readers && w.readers[r].Iterating? && w.readers[r].stream == home < |w.tunnel.objs|
    requires w.tunnel.objs[home].closed
    ensures var w' := Round(w, r);
            && r in w'.readers && home < |w'.tunnel.objs| && w'.tunnel.objs[home].closed
            && (w'.readers[r].Ended? || (w'.readers[r].Iterating? && w'.readers[r].stream == home))
            && Left(w', r, home) < Left(w, r, home)
  {
    YieldMovesOn(w, r, home);
    CheckMovesOn(YieldOne(w, r), r, home);
  }

  /** The reader of a stream that is closed, by a frame or by a tear-down, comes to its end by its own steps. */
  lemma {:induction false} ClosedIterationEnds(inbox: Inbox, w: Relay, r: Uuid, home: nat) returns (n: nat)
    requires r in w.readers && w.readers[r].Iterating? && w.readers[r].stream == home < |w.tunnel.objs|
    requires w.tunnel.objs[home].closed
    ensures var w' := RelayRun(inbox, w, Rounds(r, n)); r in w'.readers && w'.readers[r].Ended?
    decreases Left(w, r, home)
  {
    ClosedRoundMovesOn(w, r, home);
    n := 0;
    if Round(w, r).readers[r].Iterating? { n := ClosedIterationEnds(inbox, Round(w, r), r, home); }
    RoundsNext(inbox, w, r, n);
    n := n + 1;
  }

  /** When the agent disconnects, every request that was iterating comes to its end. */
  lemma DisconnectEndsReaders(inbox: Inbox, actions: seq<RelayAction>, r: Uuid) returns (n: nat)
    requires var w := RelayRun(inbox, NEW_RELAY, actions);
             !w.tunnel.closed && r in w.readers && w.readers[r].Iterating?
    ensures var w := RelayRun(inbox, NEW_RELAY, actions);
            var w' := RelayRun(inbox, RelayStep(inbox, w, Disconnect), Rounds(r, n));
            r in w'.readers && w'.readers[r].Ended?
  {
    var w := RelayRun(inbox, NEW_RELAY, actions);
    NewIsCared();
    RunKeepsCared(inbox, NEW_RELAY, actions);
    var home := w.readers[r].stream;
    assert Active(w, r) && w.tunnel.table[r] == home;
    TearDownIsExact(w.tunnel, home);
    n := ClosedIterationEnds(inbox, RelayStep(inbox, w, Disconnect), r, home);
  }

  function BridgeTakes(i: nat, n: nat): seq<RelayAction> {
    seq(n, _ => BridgeTake(i))
  }

  /** A bridge on a closed stream can read what is queued and then sees the end. */
  lemma {:induction false} ClosedBridgeDrains(inbox: Inbox, w: Relay, i: nat)
    requires i in w.bridges && i < |w.tunnel.objs| && w.tunnel.objs[i].closed
    ensures var w' := RelayRun(inbox, w, BridgeTakes(i, |w.tunnel.objs[i].queue|));
            i in w'.bridges && i < |w'.tunnel.objs| && w'.tunnel.objs[i].closed && w'.tunnel.objs[i].queue == []
    decreases |w.tunnel.objs[i].queue|
  {
    var q := w.tunnel.objs[i].queue;
    if q != [] {
      var v := w.(tunnel := Take(w.tunnel, i));
      assert BridgeTakes(i, |q|)[0] == BridgeTake(i) && BridgeTakes(i, |q|)[1..] == BridgeTakes(i, |q| - 1);
      assert RelayStep(inbox, w, BridgeTake(i)) == v;
      ClosedBridgeDrains(inbox, v, i);
    }
  }

  /** A bridge whose peer sent WS_CLOSE reads what is queued and ends. */
  lemma PeerEndsBridge(inbox: Inbox, w: Relay, id: Uuid, payload: Bytes)
    requires TableOwns(w.tunnel) && w.tunnel.loop == Idle && w.position < |inbox|
    requires inbox[w.position] == Success(Frame(WS_CLOSE, id, payload))
    requires id in w.tunnel.table && w.tunnel.table[id] in w.bridges
    ensures var i := w.tunnel.table[id]; var v := RelayStep(inbox, w, Receive);
            && i < |v.tunnel.objs|
            && var w' := RelayRun(inbox, v, BridgeTakes(i, |v.tunnel.objs[i].queue|));
               i < |w'.tunnel.objs| && w'.tunnel.objs[i].closed && w'.tunnel.objs[i].queue == []
  {
    DispatchIsExact(w.tunnel, Frame(WS_CLOSE, id, payload));
    ClosedBridgeDrains(inbox, RelayStep(inbox, w, Receive), w.tunnel.table[id]);
  }

  // ---------------------------------------------------------------------------
  // A blocked loop
  // ---------------------------------------------------------------------------

  /** The loop is blocked on the full queue of a stream that was left. */
  ghost predicate Stuck(w: Relay) {
    w.tunnel.loop.Putting? && Full(w.tunnel, w.tunnel.loop.stream) && w.tunnel.loop.stream in w.departed
  }

  lemma StuckTakes(w: Relay, id: Uuid)
    requires Apart(w) && Stuck(w)
    ensures Stuck(TakeFirstPayload(w, id)) && TakeFirstPayload(w, id).tunnel.loop == w.tunnel.loop
    ensures Stuck(YieldOne(w, id)) && YieldOne(w, id).tunnel.loop == w.tunnel.loop
  {
  }

  lemma StuckStep(inbox: Inbox, w: Relay, action: RelayAction)
    requires Apart(w) && Stuck(w)
    ensures var w' := RelayStep(inbox, w, action);
            Stuck(w') && w'.tunnel.loop == w.tunnel.loop && w'.position == w.position
  {
    if action.TakeFirst? || action.IterGet? { StuckTakes(w, action.id); }
    if !action.Receive? { StepKeepsPosition(inbox, w, action); }
  }

  /** Then it is blocked for good: no run of the relay frees it, a tear-down included. */
  lemma {:induction false} StuckForever(inbox: Inbox, w: Relay, actions: seq<RelayAction>)
    requires Cared(w) && Stuck(w)
    ensures var v := RelayRun(inbox, w, actions); v.tunnel.loop == w.tunnel.loop && v.position == w.position
    decreases actions
  {
    if actions != [] {
      StuckStep(inbox, w, actions[0]);
      StepKeepsCared(inbox, w, actions[0]);
      StuckForever(inbox, RelayStep(inbox, w, actions[0]), actions[1..]);
    }
  }

  /** A step of the tasks that are there: nobody joins, leaves or disconnects. */
  predicate IsOwnStep(action: RelayAction) {
    !action.Begin? && !action.BridgeOpen? && !action.Abandon? && !action.BridgeEnd? && !action.Disconnect?
  }

  predicate OwnSchedule(actions: seq<RelayAction>) {
    forall i :: 0 <= i < |actions| ==> IsOwnStep(actions[i])
  }

  /** The blocked put of `w` can complete in `v`, and nothing else that matters to the loop has changed. */
  ghost predicate RoomMade(w: Relay, v: Relay) {
    && CanPut(v.tunnel) && v.tunnel.loop == w.tunnel.loop && v.position == w.position
    && v.tunnel.closed == w.tunnel.closed && v.departed == w.departed && v.tunnel.table == w.tunnel.table
  }

  lemma RunOne(inbox: Inbox, w: Relay, action: RelayAction)
    ensures RelayRun(inbox, w, [action]) == RelayStep(inbox, w, action)
  {
    assert [action][1..] == [];
  }

  lemma RunTwo(inbox: Inbox, w: Relay, a: RelayAction, b: RelayAction)
    ensures RelayRun(inbox, w, [a, b]) == RelayStep(inbox, RelayStep(inbox, w, a), b)
  {
    assert [a, b][1..] == [b];
    RunOne(inbox, RelayStep(inbox, w, a), b);
  }

  /** A reader that is ready takes a payload off the full queue. */
  lemma ReadyMakesRoom(inbox: Inbox, w: Relay, id: Uuid, i: nat) returns (action: RelayAction)
    requires Sound(w.tunnel) && id in w.readers && Full(w.tunnel, i) && w.tunnel.loop.Putting?
    requires w.tunnel.loop.stream == i
    requires w.readers[id].AwaitFirst? || (w.readers[id].Iterating? && w.readers[id].phase != AfterYield)
    requires w.readers[id].stream == i
    ensures IsOwnStep(action) && RoomMade(w, RelayStep(inbox, w, action))
  {
    TakeShortens(w.tunnel, i);
    action := if w.readers[id].AwaitFirst? then TakeFirst(id) else IterGet(id);
  }

  /** A reader gets ready: it looks its stream up, or comes back from a yield. */
  lemma GetsReady(inbox: Inbox, w: Relay, id: Uuid, i: nat) returns (action: RelayAction)
    requires Active(w, id) && w.tunnel.table[id] == i && Full(w.tunnel, i)
    requires !w.readers[id].AwaitFirst? && !(w.readers[id].Iterating? && w.readers[id].phase != AfterYield)
    ensures IsOwnStep(action)
    ensures var v := RelayStep(inbox, w, action);
            && id in v.readers && v.tunnel == w.tunnel && v.position == w.position && v.departed == w.departed
            && (v.readers[id].AwaitFirst? || (v.readers[id].Iterating? && v.readers[id].phase != AfterYield))
                  && v.readers[id].stream == i
  {
    action := if w.readers[id].Iterating? then IterCheck(id) else LookupFirst(id);
  }

  lemma ReaderRoom(inbox: Inbox, w: Relay, id: Uuid, i: nat) returns (actions: seq<RelayAction>)
    requires Sound(w.tunnel) && Active(w, id) && w.tunnel.table[id] == i && Full(w.tunnel, i)
    requires w.tunnel.loop.Putting? && w.tunnel.loop.stream == i
    ensures OwnSchedule(actions) && RoomMade(w, RelayRun(inbox, w, actions))
  {
    if w.readers[id].AwaitFirst? || (w.readers[id].Iterating? && w.readers[id].phase != AfterYield) {
      var take := ReadyMakesRoom(inbox, w, id, i);
      RunOne(inbox, w, take);
      actions := [take];
    } else {
      var ready := GetsReady(inbox, w, id, i);
      var take := ReadyMakesRoom(inbox, RelayStep(inbox, w, ready), id, i);
      RunTwo(inbox, w, ready, take);
      actions := [ready, take];
    }
  }

  lemma BridgeMakesRoom(inbox: Inbox, w: Relay, i: nat)
    requires Sound(w.tunnel) && i in w.bridges && Full(w.tunnel, i) && w.tunnel.loop.Putting?
    requires w.tunnel.loop.stream == i
    ensures RoomMade(w, RelayRun(inbox, w, [BridgeTake(i)]))
  {
    TakeShortens(w.tunnel, i);
    RunOne(inbox, w, BridgeTake(i));
  }

  lemma MakeRoom(inbox: Inbox, w: Relay) returns (actions: seq<RelayAction>)
    requires Cared(w) && !w.tunnel.closed && w.tunnel.loop.Putting? && !Stuck(w)
    ensures OwnSchedule(actions) && RoomMade(w, RelayRun(inbox, w, actions))
  {
    var i := w.tunnel.loop.stream;
    if !Full(w.tunnel, i) {
      actions := [];
    } else if i in w.bridges {
      BridgeMakesRoom(inbox, w, i);
      actions := [BridgeTake(i)];
    } else {
      actions := ReaderRoom(inbox, w, w.tunnel.objs[i].id, i);
    }
  }

  /** The blocked put completes by the readers' own steps. */
  lemma PutCompletes(inbox: Inbox, w: Relay) returns (actions: seq<RelayAction>)
    requires Cared(w) && !w.tunnel.closed && w.tunnel.loop.Putting? && !Stuck(w)
    ensures OwnSchedule(actions)
    ensures var v := RelayRun(inbox, w, actions);
            && v.tunnel.loop == Idle && v.position == w.position && !v.tunnel.closed && v.departed == w.departed
            && v.tunnel.table == w.tunnel.table
  {
    var room := MakeRoom(inbox, w);
    var v := RelayRun(inbox, w, room);
    RunOne(inbox, v, CompletePut);
    RunAppend(inbox, w, room, [CompletePut]);
    actions := room + [CompletePut];
  }

  /**
   The exact condition: a loop that is blocked on a full queue can be freed by some run of the relay if and
   only if neither its request nor its bridge has left that stream.
   */
  lemma UnblockedExactlyWhen(inbox: Inbox, actions: seq<RelayAction>)
    requires var w := RelayRun(inbox, NEW_RELAY, actions);
             !w.tunnel.closed && w.tunnel.loop.Putting? && Full(w.tunnel, w.tunnel.loop.stream)
    ensures var w := RelayRun(inbox, NEW_RELAY, actions);
            (exists more :: RelayRun(inbox, w, more).tunnel.loop == Idle) <==> w.tunnel.loop.stream !in w.departed
  {
    var w := RelayRun(inbox, NEW_RELAY, actions);
    NewIsCared();
    RunKeepsCared(inbox, NEW_RELAY, actions);
    if w.tunnel.loop.stream in w.departed {
      forall more ensures RelayRun(inbox, w, more).tunnel.loop != Idle { StuckForever(inbox, w, more); }
    } else {
      var more := PutCompletes(inbox, w);
      assert RelayRun(inbox, w, more).tunnel.loop == Idle;
    }
  }

  // ---------------------------------------------------------------------------
  // The wire is read
  // ---------------------------------------------------------------------------

  /** Whoever left a stream has removed its entry from the table. */
  ghost predicate NoGhosts(w: Relay) {
    forall id :: id in w.tunnel.table ==> w.tunnel.table[id] !in w.departed
  }

  /** The loop is at the end of the wire, or at a message it cannot decode. */
  ghost predicate Read(inbox: Inbox, w: Relay) {
    w.tunnel.loop == Idle && !w.tunnel.closed && w.position <= |inbox|
        && (w.position < |inbox| ==> inbox[w.position].Failure?)
  }

  ghost predicate Going(inbox: Inbox, w: Relay) {
    Cared(w) && !w.tunnel.closed && w.position <= |inbox|
  }

  /** Nothing can make the loop stuck without another request or bridge leaving its stream. */
  ghost predicate Clear(w: Relay) {
    NoGhosts(w) && !Stuck(w)
  }

  lemma ReceiveGoesOn(inbox: Inbox, w: Relay)
    requires Going(inbox, w) && w.tunnel.loop == Idle && w.position < |inbox| && inbox[w.position].Success?
    ensures Going(inbox, ReceiveNext(inbox, w)) && ReceiveNext(inbox, w).position == w.position + 1
    ensures Clear(w) ==> Clear(ReceiveNext(inbox, w))
  {
    ReceiveKeepsCared(inbox, w);
    DispatchRoutes(w.tunnel, inbox[w.position].value);
  }

  lemma PutGoesOn(inbox: Inbox, w: Relay) returns (actions: seq<RelayAction>)
    requires Going(inbox, w) && w.tunnel.loop.Putting? && !Stuck(w)
    ensures OwnSchedule(actions)
    ensures var v := RelayRun(inbox, w, actions);
            Going(inbox, v) && v.tunnel.loop == Idle && v.position == w.position && (Clear(w) ==> Clear(v))
  {
    actions := PutCompletes(inbox, w);
    RunKeepsCared(inbox, w, actions);
  }

  ghost function ToRead(inbox: Inbox, w: Relay): nat
    requires w.position <= |inbox|
  {
    2 * (|inbox| - w.position) + if w.tunnel.loop.Putting? then 1 else 0
  }

  /** One turn: the blocked put completes, or the next message is read. */
  lemma TakesATurn(inbox: Inbox, w: Relay) returns (actions: seq<RelayAction>)
    requires Going(inbox, w) && !Stuck(w) && !Read(inbox, w)
    ensures OwnSchedule(actions)
    ensures var v := RelayRun(inbox, w, actions);
            Going(inbox, v) && ToRead(inbox, v) < ToRead(inbox, w) && (Clear(w) ==> Clear(v))
  {
    if w.tunnel.loop.Putting? {
      actions := PutGoesOn(inbox, w);
    } else {
      ReceiveGoesOn(inbox, w);
      RunOne(inbox, w, Receive);
      actions := [Receive];
    }
  }

  lemma {:induction false} ReadsOn(inbox: Inbox, w: Relay) returns (actions: seq<RelayAction>)
    requires Going(inbox, w)
    ensures OwnSchedule(actions)
    ensures var v := RelayRun(inbox, w, actions);
            Going(inbox, v) && (Read(inbox, v) || Stuck(v)) && (Clear(w) ==> Read(inbox, v))
    decreases ToRead(inbox, w)
  {
    actions := [];
    if !Stuck(w) && !Read(inbox, w) {
      var first := TakesATurn(inbox, w);
      var rest := ReadsOn(inbox, RelayRun(inbox, w, first));
      RunAppend(inbox, w, first, rest);
      actions := first + rest;
    }
  }

  /** Nobody's own steps abandon a request while the connection is up. */
  lemma OwnStepKeepsReader(inbox: Inbox, w: Relay, action: RelayAction, r: Uuid)
    requires Attended(w) && !w.tunnel.closed && IsOwnStep(action) && r in w.readers && !w.readers[r].Gone?
    ensures var v := RelayStep(inbox, w, action); !v.tunnel.closed && r in v.readers && !v.readers[r].Gone?
  {
  }

  lemma {:induction false} OwnScheduleKeepsReader(inbox: Inbox, w: Relay, actions: seq<RelayAction>, r: Uuid)
    requires Cared(w) && !w.tunnel.closed && OwnSchedule(actions) && r in w.readers && !w.readers[r].Gone?
    ensures var v := RelayRun(inbox, w, actions); !v.tunnel.closed && r in v.readers && !v.readers[r].Gone?
    decreases actions
  {
    if actions != [] {
      OwnStepKeepsReader(inbox, w, actions[0], r);
      StepKeepsCared(inbox, w, actions[0]);
      OwnScheduleKeepsReader(inbox, RelayStep(inbox, w, actions[0]), actions[1..], r);
    }
  }

  /**
   Progress from any live state: the tasks that are there bring the loop through the wire, to a message it
   cannot decode, or to the full queue of a stream that was left. On a wire that was read, response r, if its
   request is not given up, has arrived whole; and when whoever left has removed its entry and the loop is
   not stuck now, it does not get stuck.
   */
  lemma ResponseArrivesInTheEnd(inbox: Inbox, actions: seq<RelayAction>, r: Uuid, metadata: Bytes, body: seq<Bytes>)
    returns (more: seq<RelayAction>)
    requires Lane(inbox, r, ToRelay) == ResponseFrames(r, [metadata] + body)
    requires var w := RelayRun(inbox, NEW_RELAY, actions); !w.tunnel.closed && r in w.readers && !w.readers[r].Gone?
    ensures var w := RelayRun(inbox, NEW_RELAY, actions); var v := RelayRun(inbox, w, more);
            && OwnSchedule(more)
            && ((v.position < |inbox| && inbox[v.position].Failure?) || (Stuck(v) && !Clear(w))
                  || EndedWith(v, r, metadata, body))
  {
    var w := RelayRun(inbox, NEW_RELAY, actions);
    NewIsCared();
    RunKeepsCared(inbox, NEW_RELAY, actions);
    PositionInside(inbox, NEW_RELAY, actions);
    var first := ReadsOn(inbox, w);
    var v := RelayRun(inbox, w, first);
    OwnScheduleKeepsReader(inbox, w, first, r);
    more := first;
    if Read(inbox, v) && v.position == |inbox| {
      RunAppend(inbox, NEW_RELAY, actions, first);
      var n := EveryResponseCompletes(inbox, actions + first, r, metadata, body);
      RoundsAreOwn(r, n);
      RunAppend(inbox, w, first, OwnSteps(r, n));
      more := first + OwnSteps(r, n);
    }
  }

  lemma {:induction false} RoundsAreOwn(r: Uuid, n: nat)
    ensures OwnSchedule(Rounds(r, n)) && OwnSchedule(OwnSteps(r, n))
    decreases n
  {
    if n > 0 { RoundsAreOwn(r, n - 1); }
  }

  lemma {:induction false} PositionInside(inbox: Inbox, w: Relay, actions: seq<RelayAction>)
    requires w.position <= |inbox|
    ensures RelayRun(inbox, w, actions).position <= |inbox|
    decreases actions
  {
    if actions != [] {
      if !actions[0].Receive? { StepKeepsPosition(inbox, w, actions[0]); }
      PositionInside(inbox, RelayStep(inbox, w, actions[0]), actions[1..]);
    }
  }

  // ---------------------------------------------------------------------------
  // A run that gets stuck
  // ---------------------------------------------------------------------------

  ghost predicate RelayReachable(inbox: Inbox, w: Relay) {
    exists actions :: w == RelayRun(inbox, NEW_RELAY, actions)
  }

  lemma RelayReachNext(inbox: Inbox, w: Relay, action: RelayAction)
    requires RelayReachable(inbox, w)
    ensures RelayReachable(inbox, RelayStep(inbox, w, action))
  {
    var actions :| w == RelayRun(inbox, NEW_RELAY, actions);
    RunAppend(inbox, NEW_RELAY, actions, [action]);
    RunOne(inbox, w, action);
  }

  /** A response of n frames on the wire. */
  function Answering(id: Uuid, n: nat): Inbox {
    seq(n, _ => Success(Frame(DATA, id, [1])))
  }

  /** A relay with one request, from whose stream `taken` were read and n frames are queued. */
  function Serving(id: Uuid, h: Reader, taken: seq<Bytes>, n: nat): Relay {
    var s := Stream(id, Unread(n), false, taken + Unread(n), taken, None);
    Relay(Tunnel([s], map[id := 0], Idle, false), |taken| + n, map[id := h], {}, {})
  }

  lemma OpensRequest(id: Uuid, total: nat)
    ensures RelayReachable(Answering(id, total), Serving(id, Sending, [], 0))
  {
    var inbox := Answering(id, total);
    assert RelayRun(inbox, NEW_RELAY, []) == NEW_RELAY;
    RelayReachNext(inbox, NEW_RELAY, Begin(id));
    assert inbox[..0] == [];
    var w := RelayStep(inbox, NEW_RELAY, Begin(id));
    assert w == BeginRequest(inbox, NEW_RELAY, id);
    var empty: seq<Bytes> := [];
    assert Unread(0) == empty && empty + Unread(0) == empty;
    assert w.tunnel.objs == [NewStream(id)] && w.tunnel.table == map[id := 0] && w.readers == map[id := Sending];
    assert Serving(id, Sending, [], 0).tunnel.objs == [NewStream(id)];
    assert w == Serving(id, Sending, [], 0);
  }

  /** The next frame is routed; its put is still to complete. */
  function Routed(id: Uuid, h: Reader, taken: seq<Bytes>, n: nat): Relay {
    var s := Stream(id, Unread(n), false, taken + Unread(n + 1), taken, None);
    Relay(Tunnel([s], map[id := 0], Putting(0, [1]), false), |taken| + n + 1, map[id := h], {}, {})
  }

  lemma RoutesNext(id: Uuid, h: Reader, taken: seq<Bytes>, n: nat, total: nat)
    requires RelayReachable(Answering(id, total), Serving(id, h, taken, n)) && |taken| + n < total
    ensures RelayReachable(Answering(id, total), Routed(id, h, taken, n))
  {
    var inbox, w := Answering(id, total), Serving(id, h, taken, n);
    RelayReachNext(inbox, w, Receive);
    var v := RelayStep(inbox, w, Receive);
    assert v == w.(tunnel := RouteData(w.tunnel, id, [1]), position := |taken| + n + 1);
    assert taken + Unread(n) + [[1]] == taken + Unread(n + 1);
    assert v.tunnel.objs == Routed(id, h, taken, n).tunnel.objs;
  }

  /** The put, completed while there is room. */
  lemma QueuesNext(id: Uuid, h: Reader, taken: seq<Bytes>, n: nat, total: nat)
    requires RelayReachable(Answering(id, total), Serving(id, h, taken, n)) && |taken| + n < total && n < QUEUE_DEPTH
    ensures RelayReachable(Answering(id, total), Serving(id, h, taken, n + 1))
  {
    var inbox, v := Answering(id, total), Routed(id, h, taken, n);
    RoutesNext(id, h, taken, n, total);
    RelayReachNext(inbox, v, CompletePut);
    assert Put(v.tunnel).objs == Serving(id, h, taken, n + 1).tunnel.objs;
  }

  /** A reader step that only changes the reader. */
  lemma ReaderReach(id: Uuid, h: Reader, taken: seq<Bytes>, n: nat, total: nat, action: RelayAction, h': Reader)
    requires RelayReachable(Answering(id, total), Serving(id, h, taken, n))
    requires action == LookupFirst(id) || action == StartIteration(id)
    requires Lookup(Serving(id, h, taken, n), id) == Set(Serving(id, h, taken, n), id, h')
    ensures RelayReachable(Answering(id, total), Serving(id, h', taken, n))
  {
    var w := Serving(id, h, taken, n);
    RelayReachNext(Answering(id, total), w, action);
    assert RelayStep(Answering(id, total), w, action) == Set(w, id, h');
    assert Set(w, id, h').readers == map[id := h'];
  }

  /** A reader step that takes the one queued frame. */
  lemma TakesOne(id: Uuid, h: Reader, taken: seq<Bytes>, total: nat, action: RelayAction, h': Reader)
    requires RelayReachable(Answering(id, total), Serving(id, h, taken, 1))
    requires RelayStep(Answering(id, total), Serving(id, h, taken, 1), action) ==
             Set(Serving(id, h, taken, 1), id, h').(tunnel := Take(Serving(id, h, taken, 1).tunnel, 0))
    ensures RelayReachable(Answering(id, total), Serving(id, h', taken + [[1]], 0))
  {
    var w, v := Serving(id, h, taken, 1), Serving(id, h', taken + [[1]], 0);
    RelayReachNext(Answering(id, total), w, action);
    assert Unread(1) == [[1]] && Unread(1)[1..] == Unread(0);
    assert taken + Unread(1) == taken + [[1]] + Unread(0);
    assert Take(w.tunnel, 0).objs == v.tunnel.objs;
    assert Set(w, id, h').readers == map[id := h'];
    assert Set(w, id, h').(tunnel := Take(w.tunnel, 0)) == v;
  }

  lemma FirstIsTaken(id: Uuid, inbox: Inbox)
    ensures var w := Serving(id, AwaitFirst(0), [], 1);
            RelayStep(inbox, w, TakeFirst(id)) == Set(w, id, HaveFirst([1])).(tunnel := Take(w.tunnel, 0))
  {
    var w := Serving(id, AwaitFirst(0), [], 1);
    assert Unread(1) == [[1]];
    assert RelayStep(inbox, w, TakeFirst(id)) == TakeFirstPayload(w, id);
  }

  lemma BodyIsYielded(id: Uuid, inbox: Inbox)
    ensures var w := Serving(id, Iterating(0, [1], [], Waiting), [[1]], 1);
            RelayStep(inbox, w, IterGet(id)) == Set(w, id, STREAMING).(tunnel := Take(w.tunnel, 0))
  {
    var w := Serving(id, Iterating(0, [1], [], Waiting), [[1]], 1);
    assert Unread(1) == [[1]];
    assert RelayStep(inbox, w, IterGet(id)) == YieldOne(w, id);
  }

  /** The proxy reads the first frame and looks its stream up for the generator. */
  lemma ReadsFirst(id: Uuid, total: nat)
    requires total >= 1
    ensures RelayReachable(Answering(id, total), Serving(id, Iterating(0, [1], [], Waiting), [[1]], 0))
  {
    OpensRequest(id, total);
    QueuesNext(id, Sending, [], 0, total);
    ReaderReach(id, Sending, [], 1, total, LookupFirst(id), AwaitFirst(0));
    FirstIsTaken(id, Answering(id, total));
    TakesOne(id, AwaitFirst(0), [], total, TakeFirst(id), HaveFirst([1]));
    assert [] + [[1]] == [[1]];
    ReaderReach(id, HaveFirst([1]), [[1]], 0, total, StartIteration(id), Iterating(0, [1], [], Waiting));
  }

  /** The generator has passed one frame on to the browser. */
  const STREAMING := Iterating(0, [1], [[1]], AfterYield)

  lemma StreamsOne(id: Uuid, total: nat)
    requires total >= 2
    ensures RelayReachable(Answering(id, total), Serving(id, STREAMING, [[1], [1]], 0))
  {
    var h := Iterating(0, [1], [], Waiting);
    ReadsFirst(id, total);
    QueuesNext(id, h, [[1]], 0, total);
    BodyIsYielded(id, Answering(id, total));
    TakesOne(id, h, [[1]], total, IterGet(id), STREAMING);
    assert [[1]] + [[1]] == [[1], [1]];
  }

  lemma {:induction false} QueuesUp(id: Uuid, n: nat, total: nat)
    requires n <= QUEUE_DEPTH && n + 2 <= total
    ensures RelayReachable(Answering(id, total), Serving(id, STREAMING, [[1], [1]], n))
  {
    if n == 0 {
      StreamsOne(id, total);
    } else {
      QueuesUp(id, n - 1, total);
      QueuesNext(id, STREAMING, [[1], [1]], n - 1, total);
    }
  }

  lemma LeavesFullQueue(id: Uuid, n: nat)
    requires n == QUEUE_DEPTH
    ensures exists w :: RelayReachable(Answering(id, n + 3), w) && Stuck(w) && !w.tunnel.closed
  {
    QueuesUp(id, n, n + 3);
    RoutesNext(id, STREAMING, [[1], [1]], n, n + 3);
    var inbox, v := Answering(id, n + 3), Routed(id, STREAMING, [[1], [1]], n);
    RelayReachNext(inbox, v, Abandon(id, true));
    LeavesStuck(inbox, v, id);
  }

  lemma LeavesStuck(inbox: Inbox, v: Relay, id: Uuid)
    requires v.tunnel.loop == Putting(0, [1]) && Full(v.tunnel, 0) && v.tunnel.table == map[id := 0]
    requires v.readers == map[id := STREAMING] && !v.tunnel.closed
    ensures var w := RelayStep(inbox, v, Abandon(id, true)); Stuck(w) && !w.tunnel.closed
  {
    assert RelayStep(inbox, v, Abandon(id, true)) == GiveUp(v, id, true);
  }

  /**
   The browser has got the first body frame, 65 more arrive unread, and then it leaves: the receive loop of
   the whole tunnel is blocked for good.
   */
  lemma LeavingBrowserBlocksTheTunnel(id: Uuid)
    ensures exists w :: RelayReachable(Answering(id, QUEUE_DEPTH + 3), w) && Stuck(w) && !w.tunnel.closed
  {
    LeavesFullQueue(id, QUEUE_DEPTH);
  }
}
