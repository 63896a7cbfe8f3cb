/**
 The connection object: a table of stream objects that its methods update in place. Each method does
 one step of the tunnel machine; an awaited put is split at the await.
 */
module TunnelConnection {
  import opened Prelude
  import opened Frames
  import opened TunnelMachine

  lemma TearDownIs(t: Tunnel, objs: seq<Stream>)
    requires !t.closed && |objs| == |t.objs|
    requires forall i :: 0 <= i < |objs| ==>
               objs[i] == if i in t.table.Values then t.objs[i].(closed := true) else t.objs[i]
    ensures TearDown(t) == t.(closed := true, table := map[], objs := objs)
  {
    assert TearDown(t).objs == objs;
  }

  class StreamState {
    const id: Uuid
    /** position in the order of opening, so that distinct objects are told apart */
    ghost const serial: nat
    var queue: seq<Bytes>
    var closed: bool
    ghost var dispatched: seq<Bytes>
    ghost var taken: seq<Bytes>
    ghost var closeAt: Option<nat>

    constructor (id: Uuid, ghost serial: nat)
      ensures this.id == id && this.serial == serial && View() == NewStream(id)
    {
      this.id, this.serial, queue, closed := id, serial, [], false;
      dispatched, taken, closeAt := [], [], None;
    }

    ghost function View(): Stream
      reads this
    {
      Stream(id, queue, closed, dispatched, taken, closeAt)
    }
  }

  class Connection {
    var streams: map<Uuid, StreamState>
    var closed: bool
    /** the put the receive loop is blocked on */
    var blocked: Option<(StreamState, Bytes)>
    ghost var everOpened: seq<StreamState>

    ghost predicate Known(s: StreamState)
      reads this
    {
      s.serial < |everOpened| && everOpened[s.serial] == s
    }

    ghost predicate Valid()
      reads this
    {
      && (forall i :: 0 <= i < |everOpened| ==> everOpened[i].serial == i)
      && (forall id :: id in streams ==> Known(streams[id]))
      && (blocked.Some? ==> Known(blocked.value.0))
    }

    ghost function Views(): (r: seq<Stream>)
      reads this, everOpened
      ensures |r| == |everOpened| && forall i :: 0 <= i < |r| ==> r[i] == everOpened[i].View()
    {
      seq(|everOpened|, i requires 0 <= i < |everOpened| reads this, everOpened => everOpened[i].View())
    }

    ghost function Table(): map<Uuid, nat>
      reads this
    {
      map id | id in streams :: streams[id].serial
    }

    lemma TableSize()
      ensures |Table()| == |streams|
    {
      assert Table().Keys == streams.Keys;
      assert |Table()| == |Table().Keys| && |streams| == |streams.Keys|;
    }

    ghost function Model(): Tunnel
      reads this, everOpened
    {
      Tunnel(Views(), Table(),
             if blocked.None? then Idle else Putting(blocked.value.0.serial, blocked.value.1), closed)
    }

    constructor ()
      ensures Valid() && Model() == FRESH
    {
      streams, closed, blocked, everOpened := map[], false, None, [];
    }

    /** Adds a fresh stream under an id that is not in the table. */
    method AddStream(id: Uuid) returns (state: StreamState)
      requires Valid() && id !in streams
      modifies this`streams, this`everOpened
      ensures Valid() && streams == old(streams)[id := state] && fresh(state)
      ensures state.id == id && state.queue == [] && !state.closed
      ensures Views() == old(Views()) + [NewStream(id)]
      ensures Table() == old(Table())[id := |old(everOpened)|]
    {
      state := new StreamState(id, |everOpened|);
      streams := streams[id := state];
      everOpened := everOpened + [state];
    }

    method OpenStream(id: Uuid) returns (r: Result<StreamState, TunnelError>)
      requires Valid()
      modifies this`streams, this`everOpened
      ensures Valid() && Model() == Open(old(Model()), id)
      ensures match OpenError(old(Model()), id)
              case Some(e) => r == Failure(e)
              case None => r.Success? && id in streams && streams[id] == r.value && fresh(r.value)
      ensures |old(streams)| >= 100 ==> r == Failure(StreamLimit)
      ensures |old(streams)| < 100 ==> (r.Success? <==> id !in old(streams)) && (r.Failure? ==> r.error == AlreadyOpen)
      ensures r.Success? ==>
                streams == old(streams)[id := r.value] && r.value.id == id && r.value.queue == [] && !r.value.closed
      ensures r.Failure? ==> streams == old(streams)
    {
      TableSize();
      if |streams| >= MAX_STREAMS {
        return Failure(StreamLimit);
      }
      if id in streams {
        return Failure(AlreadyOpen);
      }
      var state := AddStream(id);
      r := Success(state);
    }

    method GetStream(id: Uuid) returns (r: Result<StreamState, TunnelError>)
      ensures r == if id in streams then Success(streams[id]) else Failure(StreamNotFound)
    {
      r := if id in streams then Success(streams[id]) else Failure(StreamNotFound);
    }

    method RemoveStream(id: Uuid)
      requires Valid()
      modifies this`streams
      ensures Valid() && Model() == Remove(old(Model()), id)
      ensures streams == old(streams) - {id}
    {
      streams := streams - {id};
      assert Table() == old(Table()) - {id};
      assert Views() == old(Views());
    }

    /** Routes one inbound frame. A data frame only reaches its await here; `CompletePut` ends it. */
    method DispatchFrame(f: Frame)
      requires Valid() && blocked.None?
      modifies this`blocked, everOpened
      ensures Valid() && streams == old(streams) && everOpened == old(everOpened)
      ensures Model() == Dispatch(old(Model()), f)
      ensures f.id in streams && f.kind in {CLOSE, CANCEL, ERROR, WS_CLOSE} ==> streams[f.id].closed && blocked.None?
      ensures f.id in streams && f.kind in {DATA, WS_DATA} ==>
                blocked == Some((streams[f.id], f.payload)) && streams[f.id].closed == old(streams[f.id].closed)
      ensures f.id !in streams || f.kind in {OPEN, WS_OPEN, PING, PONG} ==> blocked.None?
      ensures forall s :: s in everOpened && !(f.id in streams && s == streams[f.id]) ==>
                s.closed == old(s.closed) && s.queue == old(s.queue)
    {
      if CarriesData(f.kind) {
        var state := GetStream(f.id);
        if state.Success? {
          assert Known(state.value);
          BeginPut(state.value, f.payload);
        }
      } else if EndsStream(f.kind) {
        var _ := CloseStream(f.id);
      }
    }

    /** The receive loop reaches the put of a payload into a stream's queue. */
    method BeginPut(s: StreamState, payload: Bytes)
      requires Valid() && blocked.None? && Known(s)
      modifies this`blocked, s
      ensures Valid() && blocked == Some((s, payload)) && s.closed == old(s.closed) && s.queue == old(s.queue)
      ensures var was := old(s.View());
              Model() == Update(old(Model()), s.serial, was.(dispatched := was.dispatched + [payload])).(
                           loop := Putting(s.serial, payload))
    {
      blocked := Some((s, payload));
      s.dispatched := s.dispatched + [payload];
      assert Views() == old(Views())[s.serial := s.View()];
    }

    /** Sets the closed event; the entry stays for the consumer to drain. */
    method CloseStream(id: Uuid) returns (r: Result<(), TunnelError>)
      requires Valid()
      modifies everOpened
      ensures Valid() && Model() == SignalClose(old(Model()), id)
      ensures r == if id in streams then Success(()) else Failure(StreamNotFound)
      ensures id in streams ==> streams[id].closed && streams[id].queue == old(streams[id].queue)
      ensures forall s :: s in everOpened && !(id in streams && s == streams[id]) ==>
                s.closed == old(s.closed) && s.queue == old(s.queue)
    {
      var state := GetStream(id);
      if state.Failure? {
        return Failure(state.error);
      }
      var s := state.value;
      assert Known(s);
      s.closed := true;
      s.closeAt := if s.closeAt.None? then Some(|s.dispatched|) else s.closeAt;
      assert Views() == old(Views())[s.serial := s.View()];
      assert Table() == old(Table());
      r := Success(());
    }

    /** The put completes if the queue has room; otherwise the receive loop stays blocked. */
    method CompletePut() returns (done: bool)
      requires Valid() && blocked.Some?
      modifies this`blocked, everOpened
      ensures Valid() && streams == old(streams) && everOpened == old(everOpened)
      ensures Model() == Put(old(Model())) && done == CanPut(old(Model()))
      ensures var (s, payload) := old(blocked.value);
              && (done <==> |old(s.queue)| < 64)
              && s.queue == (if done then old(s.queue) + [payload] else old(s.queue))
              && blocked == (if done then None else old(blocked))
    {
      var s := blocked.value.0;
      assert Known(s);
      if |s.queue| >= QUEUE_DEPTH {
        return false;
      }
      s.queue := s.queue + [blocked.value.1];
      blocked := None;
      assert Views() == old(Views())[s.serial := s.View()];
      done := true;
    }

    /** A consumer takes the oldest payload from a stream it holds, tabled or not. */
    method TakeFrom(s: StreamState) returns (r: Option<Bytes>)
      requires Valid() && Known(s)
      modifies s
      ensures Valid() && Model() == Take(old(Model()), s.serial)
      ensures r == if old(s.queue) == [] then None else Some(old(s.queue)[0])
      ensures s.queue == (if old(s.queue) == [] then [] else old(s.queue)[1..]) && s.closed == old(s.closed)
    {
      if s.queue == [] {
        return None;
      }
      r := Some(s.queue[0]);
      s.taken := s.taken + [s.queue[0]];
      s.queue := s.queue[1..];
      assert Views() == old(Views())[s.serial := s.View()];
    }

    method SetClosed(state: StreamState)
      requires Valid() && Known(state)
      modifies state
      ensures forall i :: 0 <= i < |everOpened| ==>
                everOpened[i].View() == if i == state.serial
                    then old(everOpened[i].View()).(closed := true) else old(everOpened[i].View())
    {
      state.closed := true;
    }

    lemma TabledAreClosed(done: set<nat>)
      requires Valid() && forall id :: id in streams ==> streams[id].serial in done
      requires forall i :: 0 <= i < |everOpened| && i in done ==> everOpened[i].View().closed
      ensures forall id :: id in streams ==> streams[id].closed
    {
      forall id | id in streams ensures streams[id].closed {
        assert Known(streams[id]);
        assert everOpened[streams[id].serial].View().closed;
      }
    }

    /** Sets the closed event of every tabled stream. */
    method CloseTabled()
      requires Valid()
      modifies everOpened
      ensures forall id :: id in streams ==> streams[id].closed
      ensures forall i :: 0 <= i < |everOpened| ==>
                Views()[i] == if i in Table().Values then old(Views())[i].(closed := true) else old(Views())[i]
    {
      var rids := streams.Keys;
      ghost var done: set<nat> := {};
      while exists rid :: rid in rids
        invariant rids <= streams.Keys && done <= Table().Values
        invariant forall rid :: rid in streams && rid !in rids ==> streams[rid].serial in done
        invariant forall i :: 0 <= i < |everOpened| ==>
                    everOpened[i].View() == if i in done
                        then old(everOpened[i].View()).(closed := true) else old(everOpened[i].View())
        decreases rids
      {
        var rid :| rid in rids;
        assert Known(streams[rid]);
        assert rid in Table() && Table()[rid] == streams[rid].serial;
        SetClosed(streams[rid]);
        done := done + {streams[rid].serial};
        rids := rids - {rid};
      }
      assert done == Table().Values;
      TabledAreClosed(done);
    }

    method CloseAll()
      requires Valid()
      modifies this`streams, this`closed, everOpened
      ensures Valid() && Model() == TearDown(old(Model()))
      ensures closed && (!old(closed) ==> streams == map[])
      ensures !old(closed) ==> forall id :: id in old(streams) ==> old(streams)[id].closed
    {
      if closed {
        return;
      }
      ghost var before := Model();
      closed := true;
      CloseTabled();
      TearDownIs(before, Views());
      streams := map[];
      assert Table() == map[];
    }
  }
}
