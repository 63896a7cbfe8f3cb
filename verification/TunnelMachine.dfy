/**
 The multiplexed tunnel as a state machine. Streams are objects that outlive their entry in the
 connection's table: a consumer or a blocked put keeps its reference. The receive loop and the
 consumers take atomic steps in any order; every await of the source is a step boundary.
 */
module TunnelMachine {
  import opened Prelude
  import opened Frames

  const MAX_STREAMS := 100
  const QUEUE_DEPTH := 64

  /**
   One stream object. `dispatched` and `taken` record the payloads routed to it and consumed from it;
   `closeAt` is the number dispatched when the first closing frame arrived.
   */
  datatype Stream = Stream(
    id: Uuid,
    queue: seq<Bytes>,
    closed: bool,
    dispatched: seq<Bytes>,
    taken: seq<Bytes>,
    closeAt: Option<nat>)

  /** The receive loop is between frames, or blocked putting a payload into a stream's queue. */
  datatype Loop = Idle | Putting(stream: nat, payload: Bytes)

  datatype Tunnel = Tunnel(objs: seq<Stream>, table: map<Uuid, nat>, loop: Loop, closed: bool)

  const FRESH := Tunnel([], map[], Idle, false)

  datatype TunnelError = StreamLimit | AlreadyOpen | StreamNotFound

  predicate CarriesData(k: FrameType) {
    k == DATA || k == WS_DATA
  }

  predicate EndsStream(k: FrameType) {
    k == CLOSE || k == CANCEL || k == ERROR || k == WS_CLOSE
  }

  function NewStream(id: Uuid): Stream {
    Stream(id, [], false, [], [], None)
  }

  // ---------------------------------------------------------------------------
  // Steps. A step that is not enabled leaves the tunnel as it is.
  // ---------------------------------------------------------------------------

  function OpenError(t: Tunnel, id: Uuid): Option<TunnelError> {
    if |t.table| >= MAX_STREAMS then Some(StreamLimit)
    else if id in t.table then Some(AlreadyOpen)
    else None
  }

  function Open(t: Tunnel, id: Uuid): Tunnel {
    if OpenError(t, id).Some? then t
    else t.(objs := t.objs + [NewStream(id)], table := t.table[id := |t.objs|])
  }

  function Update(t: Tunnel, i: nat, s: Stream): Tunnel
    requires i < |t.objs|
  {
    t.(objs := t.objs[i := s])
  }

  /** The payload is routed to its stream; the put that follows may block. */
  function RouteData(t: Tunnel, id: Uuid, payload: Bytes): Tunnel {
    if id !in t.table || t.table[id] >= |t.objs| then t
    else
      var i := t.table[id];
      Update(t, i, t.objs[i].(dispatched := t.objs[i].dispatched + [payload])).(loop := Putting(i, payload))
  }

  /** The stream's closed event is set; its entry stays until the consumer has drained it. */
  function SignalClose(t: Tunnel, id: Uuid): Tunnel {
    if id !in t.table || t.table[id] >= |t.objs| then t
    else
      var s := t.objs[t.table[id]];
      Update(t, t.table[id], s.(closed := true, closeAt := if s.closeAt.None? then Some(|s.dispatched|) else s.closeAt))
  }

  /** The receive loop routes one frame; an unknown stream drops it. */
  function Dispatch(t: Tunnel, f: Frame): Tunnel {
    if t.loop != Idle then t
    else if CarriesData(f.kind) then RouteData(t, f.id, f.payload)
    else if EndsStream(f.kind) then SignalClose(t, f.id)
    else t
  }

  predicate CanPut(t: Tunnel) {
    t.loop.Putting? && t.loop.stream < |t.objs| && |t.objs[t.loop.stream].queue| < QUEUE_DEPTH
  }

  /** The blocked put completes once the queue has room. */
  function Put(t: Tunnel): Tunnel {
    if !CanPut(t) then t
    else
      var s := t.objs[t.loop.stream];
      Update(t, t.loop.stream, s.(queue := s.queue + [t.loop.payload])).(loop := Idle)
  }

  predicate CanTake(t: Tunnel, i: nat) {
    i < |t.objs| && t.objs[i].queue != []
  }

  /** A consumer holding stream i takes the oldest queued payload. */
  function Take(t: Tunnel, i: nat): Tunnel {
    if !CanTake(t, i) then t
    else
      var s := t.objs[i];
      Update(t, i, s.(queue := s.queue[1..], taken := s.taken + [s.queue[0]]))
  }

  function Remove(t: Tunnel, id: Uuid): Tunnel {
    t.(table := t.table - {id})
  }

  /** Closing the connection closes every tabled stream and empties the table. */
  function TearDown(t: Tunnel): Tunnel {
    if t.closed then t
    else
      t.(closed := true, table := map[],
         objs := seq(|t.objs|, i requires 0 <= i < |t.objs| =>
                   if i in t.table.Values then t.objs[i].(closed := true) else t.objs[i]))
  }

  datatype Action =
    | DoOpen(id: Uuid)
    | DoDispatch(frame: Frame)
    | DoPut
    | DoTake(stream: nat)
    | DoRemove(id: Uuid)
    | DoTearDown

  function Step(t: Tunnel, a: Action): Tunnel {
    match a
    case DoOpen(id) => Open(t, id)
    case DoDispatch(f) => Dispatch(t, f)
    case DoPut => Put(t)
    case DoTake(i) => Take(t, i)
    case DoRemove(id) => Remove(t, id)
    case DoTearDown => TearDown(t)
  }

  function Run(t: Tunnel, actions: seq<Action>): Tunnel
    decreases actions
  {
    if actions == [] then t else Run(Step(t, actions[0]), actions[1..])
  }

  // ---------------------------------------------------------------------------
  // Conservation, order and bounds
  // ---------------------------------------------------------------------------

  /** The payload the blocked receive loop still has to put into stream i. */
  function InFlight(t: Tunnel, i: nat): seq<Bytes> {
    if t.loop.Putting? && t.loop.stream == i then [t.loop.payload] else []
  }

  predicate StreamSound(s: Stream, inFlight: seq<Bytes>) {
    && s.taken + s.queue + inFlight == s.dispatched
    && |s.queue| <= QUEUE_DEPTH
    && (s.closeAt.Some? ==> s.closed && s.closeAt.value <= |s.taken| + |s.queue|)
  }

  ghost predicate Sound(t: Tunnel) {
    && (forall i {:trigger t.objs[i]} :: 0 <= i < |t.objs| ==> StreamSound(t.objs[i], InFlight(t, i)))
    && (forall id :: id in t.table ==> t.table[id] < |t.objs| && t.objs[t.table[id]].id == id)
    && |t.table| <= MAX_STREAMS
    && (t.loop.Putting? ==> t.loop.stream < |t.objs|)
  }

  lemma OpenKeepsSound(t: Tunnel, id: Uuid)
    requires Sound(t)
    ensures Sound(Open(t, id))
  {
    var t' := Open(t, id);
    if OpenError(t, id).None? {
      assert t'.table.Keys == t.table.Keys + {id};
      assert |t'.table| == |t'.table.Keys| && |t.table| == |t.table.Keys|;
    }
  }

  lemma DispatchKeepsSound(t: Tunnel, f: Frame)
    requires Sound(t)
    ensures Sound(Dispatch(t, f))
  {
    if t.loop == Idle && f.id in t.table {
      var s := t.objs[t.table[f.id]];
      assert s.taken + s.queue + [] == s.taken + s.queue;
      assert CarriesData(f.kind) ==> s.taken + s.queue + [f.payload] == s.dispatched + [f.payload];
    }
  }

  lemma PutKeepsSound(t: Tunnel)
    requires Sound(t)
    ensures Sound(Put(t))
  {
    if CanPut(t) {
      var s := t.objs[t.loop.stream];
      assert s.taken + (s.queue + [t.loop.payload]) + [] == s.taken + s.queue + [t.loop.payload];
    }
  }

  lemma TakeKeepsSound(t: Tunnel, i: nat)
    requires Sound(t)
    ensures Sound(Take(t, i))
  {
    if CanTake(t, i) {
      var s := t.objs[i];
      assert s.taken + [s.queue[0]] + s.queue[1..] == s.taken + s.queue;
    }
  }

  lemma RemoveKeepsSound(t: Tunnel, id: Uuid)
    requires Sound(t)
    ensures Sound(Remove(t, id))
  {
    var t' := Remove(t, id);
    SmallerMap(t'.table, t.table);
  }

  lemma SmallerMap(a: map<Uuid, nat>, b: map<Uuid, nat>)
    requires a.Keys <= b.Keys
    ensures |a| <= |b|
  {
    SmallerSet(a.Keys, b.Keys);
  }

  lemma {:induction false} SmallerSet(a: set<Uuid>, b: set<Uuid>)
    requires a <= b
    ensures |a| <= |b|
  {
    if x :| x in a {
      SmallerSet(a - {x}, b - {x});
    }
  }

  lemma TearDownKeepsSound(t: Tunnel)
    requires Sound(t)
    ensures Sound(TearDown(t))
  {
    if !t.closed {
      var t' := TearDown(t);
      forall i | 0 <= i < |t'.objs| ensures StreamSound(t'.objs[i], InFlight(t', i)) {
        assert StreamSound(t.objs[i], InFlight(t, i));
      }
    }
  }

  /** What each step comes down to. */
  lemma TunnelStepIs(t: Tunnel, a: Action)
    ensures var t' := Step(t, a);
            && (a.DoOpen? ==> t' == Open(t, a.id))
            && (a.DoDispatch? ==> t' == Dispatch(t, a.frame))
            && (a.DoPut? ==> t' == Put(t))
            && (a.DoTake? ==> t' == Take(t, a.stream))
            && (a.DoRemove? ==> t' == Remove(t, a.id))
            && (a.DoTearDown? ==> t' == TearDown(t))
  {
  }

  lemma StepKeepsSound(t: Tunnel, a: Action)
    requires Sound(t)
    ensures Sound(Step(t, a))
  {
    TunnelStepIs(t, a);
    match a
    case DoOpen(id) => OpenKeepsSound(t, id);
    case DoDispatch(f) => DispatchKeepsSound(t, f);
    case DoPut => PutKeepsSound(t);
    case DoTake(i) => TakeKeepsSound(t, i);
    case DoRemove(id) => RemoveKeepsSound(t, id);
    case DoTearDown => TearDownKeepsSound(t);
  }

  lemma {:induction false} RunKeepsSound(t: Tunnel, actions: seq<Action>)
    requires Sound(t)
    ensures Sound(Run(t, actions))
    decreases actions
  {
    if actions != [] {
      StepKeepsSound(t, actions[0]);
      RunKeepsSound(Step(t, actions[0]), actions[1..]);
    }
  }

  /**
   In every interleaving, for every stream ever opened: what was taken, then what is queued, then what
   the loop is still putting is exactly what was dispatched, in order; and the bounds hold.
   */
  lemma EveryRunConserves(actions: seq<Action>, i: nat)
    requires i < |Run(FRESH, actions).objs|
    ensures var t := Run(FRESH, actions); var s := t.objs[i];
            && s.taken + s.queue + InFlight(t, i) == s.dispatched
            && |s.queue| <= QUEUE_DEPTH && |t.table| <= MAX_STREAMS
  {
    RunKeepsSound(FRESH, actions);
    assert StreamSound(Run(FRESH, actions).objs[i], InFlight(Run(FRESH, actions), i));
  }

  /** A consumer that finds the queue empty after a closing frame has taken everything dispatched before it. */
  lemma DrainedAfterClose(t: Tunnel, i: nat)
    requires Sound(t) && i < |t.objs| && t.objs[i].queue == [] && t.objs[i].closeAt.Some?
    ensures var s := t.objs[i];
            && s.closeAt.value <= |s.taken| && s.taken <= s.dispatched
            && s.dispatched[..s.closeAt.value] == s.taken[..s.closeAt.value]
  {
    var s := t.objs[i];
    assert StreamSound(s, InFlight(t, i));
    assert s.taken + s.queue == s.taken;
    assert s.dispatched[..|s.taken|] == s.taken;
  }

  /** What a consumer has taken, and what it would take next, is always a prefix of what was dispatched. */
  lemma TakenIsPrefix(t: Tunnel, i: nat)
    requires Sound(t) && i < |t.objs|
    ensures t.objs[i].taken <= t.objs[i].dispatched
    ensures t.objs[i].queue != [] ==> t.objs[i].taken + [t.objs[i].queue[0]] <= t.objs[i].dispatched
  {
    var s := t.objs[i];
    assert StreamSound(s, InFlight(t, i));
    assert s.dispatched == s.taken + (s.queue + InFlight(t, i));
    if s.queue != [] {
      assert s.dispatched == s.taken + [s.queue[0]] + (s.queue[1..] + InFlight(t, i));
    }
  }

  // ---------------------------------------------------------------------------
  // What frames and tear-downs do to a stream
  // ---------------------------------------------------------------------------

  /** No stream but number i differs. */
  ghost predicate OthersSame(t: Tunnel, t': Tunnel, i: nat) {
    |t'.objs| == |t.objs| && forall k :: 0 <= k < |t.objs| && k != i ==> t'.objs[k] == t.objs[k]
  }

  /**
   One frame on an idle loop, kind by kind: DATA and WS_DATA are routed to the stream, CLOSE, CANCEL, ERROR
   and WS_CLOSE close it, all other kinds do nothing; an unknown id is dropped.
   */
  lemma DispatchIsExact(t: Tunnel, f: Frame)
    requires t.loop == Idle && TableOwns(t)
    ensures var t' := Dispatch(t, f);
            && t'.table == t.table && t'.closed == t.closed
            && (f.id !in t.table ==> t' == t)
            && (f.id in t.table ==>
                  var i := t.table[f.id]; var s := t.objs[i];
                  && OthersSame(t, t', i)
                  && match f.kind
                     case DATA =>
                       t'.loop == Putting(i, f.payload) && t'.objs[i] == s.(dispatched := s.dispatched + [f.payload])
                     case WS_DATA =>
                       t'.loop == Putting(i, f.payload) && t'.objs[i] == s.(dispatched := s.dispatched + [f.payload])
                     case CLOSE => t'.loop == Idle && t'.objs[i] == ClosedByFrame(s)
                     case CANCEL => t'.loop == Idle && t'.objs[i] == ClosedByFrame(s)
                     case ERROR => t'.loop == Idle && t'.objs[i] == ClosedByFrame(s)
                     case WS_CLOSE => t'.loop == Idle && t'.objs[i] == ClosedByFrame(s)
                     case OPEN => t' == t
                     case WS_OPEN => t' == t
                     case PING => t' == t
                     case PONG => t' == t)
  {
  }

  /** The stream with its event set and the first closing frame noted. */
  ghost function ClosedByFrame(s: Stream): (r: Stream)
    ensures r.closed && r.closeAt == Some(if s.closeAt.Some? then s.closeAt.value else |s.dispatched|)
    ensures r.queue == s.queue && r.taken == s.taken && r.dispatched == s.dispatched && r.id == s.id
  {
    s.(closed := true, closeAt := Some(if s.closeAt.Some? then s.closeAt.value else |s.dispatched|))
  }

  /**
   A tear-down closes exactly the tabled streams, keeps their queues and empties the table; a second one does
   nothing.
   */
  lemma TearDownIsExact(t: Tunnel, i: nat)
    requires i < |t.objs|
    ensures var t' := TearDown(t);
            && t'.closed && |t'.objs| == |t.objs| && t'.loop == t.loop
            && (t.closed ==> t' == t)
            && (!t.closed ==> t'.table == map[])
            && t'.objs[i] ==
               if !t.closed && (exists id :: id in t.table && t.table[id] == i) then t.objs[i].(closed := true)
               else t.objs[i]
  {
  }

  /** This step closes stream i. */
  ghost predicate Closes(t: Tunnel, a: Action, i: nat) {
    || (a.DoDispatch? && t.loop == Idle && a.frame.kind in {CLOSE, CANCEL, ERROR, WS_CLOSE}
        && a.frame.id in t.table && t.table[a.frame.id] == i)
    || (a.DoTearDown? && !t.closed && exists id :: id in t.table && t.table[id] == i)
  }

  lemma StepCloses(t: Tunnel, a: Action, i: nat)
    requires Sound(t) && i < |Step(t, a).objs|
    ensures Step(t, a).objs[i].closed <==> (i < |t.objs| && t.objs[i].closed) || Closes(t, a, i)
  {
    TunnelStepIs(t, a);
    if a.DoDispatch? && t.loop == Idle { DispatchIsExact(t, a.frame); }
    if a.DoTearDown? { TearDownIsExact(t, i); }
  }

  lemma {:induction false} RunSnoc(t: Tunnel, actions: seq<Action>, a: Action)
    ensures Run(t, actions + [a]) == Step(Run(t, actions), a)
    decreases actions
  {
    if actions == [] {
      assert (actions + [a])[1..] == [];
    } else {
      RunSnoc(Step(t, actions[0]), actions[1..], a);
      assert (actions + [a])[1..] == actions[1..] + [a];
    }
  }

  /** The k-th step of the run closes stream i. */
  ghost predicate ClosesAt(actions: seq<Action>, k: nat, i: nat)
    requires k < |actions|
  {
    Closes(Run(FRESH, actions[..k]), actions[k], i)
  }

  ghost predicate EverCloses(actions: seq<Action>, i: nat) {
    exists k :: 0 <= k < |actions| && ClosesAt(actions, k, i)
  }

  lemma EverClosesSnoc(before: seq<Action>, a: Action, i: nat)
    ensures EverCloses(before + [a], i) <==> EverCloses(before, i) || Closes(Run(FRESH, before), a, i)
  {
    var actions, n := before + [a], |before|;
    assert actions[..n] == before && actions[n] == a;
    forall k | 0 <= k < n ensures ClosesAt(actions, k, i) == ClosesAt(before, k, i) {
      assert actions[..k] == before[..k];
    }
    if Closes(Run(FRESH, before), a, i) { assert ClosesAt(actions, n, i); }
    if EverCloses(before, i) {
      var k :| 0 <= k < n && ClosesAt(before, k, i);
      assert ClosesAt(actions, k, i);
    }
  }

  /**
   Over every run a stream is closed if and only if a CLOSE, CANCEL, ERROR or WS_CLOSE was dispatched to it, or
   the connection was torn down while it was in the table.
   */
  lemma {:induction false} ClosedExactlyWhen(actions: seq<Action>, i: nat)
    requires i < |Run(FRESH, actions).objs|
    ensures Run(FRESH, actions).objs[i].closed <==> EverCloses(actions, i)
    decreases |actions|
  {
    if actions != [] {
      var n := |actions| - 1;
      var before, a := actions[..n], actions[n];
      assert actions == before + [a];
      RunSnoc(FRESH, before, a);
      RunKeepsSound(FRESH, before);
      StepCloses(Run(FRESH, before), a, i);
      EverClosesSnoc(before, a, i);
      if i < |Run(FRESH, before).objs| { ClosedExactlyWhen(before, i); } else { NotClosedYet(before, i); }
    }
  }

  /** A stream that is not there yet was closed by no earlier step. */
  lemma NotClosedYet(actions: seq<Action>, i: nat)
    requires i >= |Run(FRESH, actions).objs|
    ensures !EverCloses(actions, i)
  {
    forall k | 0 <= k < |actions| ensures !ClosesAt(actions, k, i) {
      RunKeepsSound(FRESH, actions[..k]);
      StreamsStay(actions, k);
    }
  }

  lemma {:induction false} StreamsStay(actions: seq<Action>, k: nat)
    requires k <= |actions|
    ensures |Run(FRESH, actions[..k]).objs| <= |Run(FRESH, actions).objs|
    decreases |actions|
  {
    if k < |actions| {
      var n := |actions| - 1;
      StreamsStay(actions[..n], k);
      assert actions[..n][..k] == actions[..k] && actions == actions[..n] + [actions[n]];
      RunSnoc(FRESH, actions[..n], actions[n]);
      TunnelStepIs(Run(FRESH, actions[..n]), actions[n]);
    } else {
      assert actions[..k] == actions;
    }
  }

  function Takes(i: nat, n: nat): seq<Action> {
    seq(n, _ => DoTake(i))
  }

  /** Whoever reads a closed stream can empty its queue and so meet the end. */
  lemma {:induction false} ClosedStreamEnds(t: Tunnel, i: nat)
    requires i < |t.objs| && t.objs[i].closed
    ensures var t' := Run(t, Takes(i, |t.objs[i].queue|));
            && i < |t'.objs| && t'.objs[i].closed && t'.objs[i].queue == []
            && t'.objs[i].taken == t.objs[i].taken + t.objs[i].queue
    decreases |t.objs[i].queue|
  {
    var q := t.objs[i].queue;
    if q == [] {
      assert t.objs[i].taken + q == t.objs[i].taken;
    } else {
      ClosedStreamEnds(Take(t, i), i);
      assert Takes(i, |q|)[0] == DoTake(i) && Takes(i, |q|)[1..] == Takes(i, |q| - 1);
      assert t.objs[i].taken + [q[0]] + q[1..] == t.objs[i].taken + q;
    }
  }

  /** The limits: 100 streams in the table, 64 payloads in a queue. */
  lemma LimitsAreExact(t: Tunnel, id: Uuid)
    ensures OpenError(t, id) == if |t.table| >= 100 then Some(StreamLimit)
                                else if id in t.table then Some(AlreadyOpen) else None
    ensures t.loop.Putting? && t.loop.stream < |t.objs| ==> (CanPut(t) <==> |t.objs[t.loop.stream].queue| < 64)
  {
  }

  // ---------------------------------------------------------------------------
  // What the two ends of a tunnel need to know about single steps
  // ---------------------------------------------------------------------------

  /** Table entries lead to streams of their own id (part of soundness). */
  ghost predicate TableOwns(t: Tunnel) {
    forall id :: id in t.table ==> t.table[id] < |t.objs| && t.objs[t.table[id]].id == id
  }

  ghost predicate KeepsIds(t: Tunnel, t': Tunnel) {
    |t.objs| <= |t'.objs| && forall k :: 0 <= k < |t.objs| ==> t'.objs[k].id == t.objs[k].id
  }

  predicate Full(t: Tunnel, i: nat) {
    i < |t.objs| && |t.objs[i].queue| >= QUEUE_DEPTH
  }

  /** The same streams, up to their contents. */
  ghost predicate SameStreams(t: Tunnel, t': Tunnel) {
    && t'.closed == t.closed && |t'.objs| == |t.objs|
    && (forall k :: 0 <= k < |t.objs| ==> t'.objs[k].id == t.objs[k].id)
  }

  lemma TakeShortens(t: Tunnel, i: nat)
    requires Sound(t) && CanTake(t, i)
    ensures SameStreams(t, Take(t, i)) && Take(t, i).table == t.table && Take(t, i).loop == t.loop
    ensures !Full(Take(t, i), i)
    ensures forall k :: 0 <= k < |t.objs| && k != i ==> Take(t, i).objs[k] == t.objs[k]
  {
    assert StreamSound(t.objs[i], InFlight(t, i));
  }

  lemma DispatchRoutes(t: Tunnel, f: Frame)
    ensures var t' := Dispatch(t, f);
            && SameStreams(t, t') && t'.table == t.table
            && (forall i :: 0 <= i < |t.objs| ==> t'.objs[i].queue == t.objs[i].queue)
            && (t'.loop == t.loop || (f.id in t.table && t'.loop == Putting(t.table[f.id], f.payload)))
  {
  }

  /** n unread payloads of one byte each. */
  function Unread(n: nat): (r: seq<Bytes>)
    ensures |r| == n
  {
    if n == 0 then [] else Unread(n - 1) + [[1]]
  }
}
