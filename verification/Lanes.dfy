/**
 Many senders share one wire. A lane is what concerns one request id on it, for either direction; any
 interleaving of lanes gives every lane back.
 */
module Lanes {
  import opened Prelude
  import opened Frames
  import opened TunnelMachine

  // ---------------------------------------------------------------------------
  // Messages as a receive loop decodes them
  // ---------------------------------------------------------------------------

  type Inbox = seq<Result<Frame, FrameError>>

  function MapSeq<A, B>(f: A -> B, s: seq<A>): seq<B> {
    seq(|s|, i requires 0 <= i < |s| => f(s[i]))
  }

  function Decoded(wire: seq<Bytes>): Inbox {
    MapSeq(Deserialize, wire)
  }

  function Delivered(frames: seq<Frame>): Inbox {
    seq(|frames|, i requires 0 <= i < |frames| => Success(frames[i]))
  }

  /** `sent` is the wire form of `frames`, one message per frame. */
  ghost predicate Encodes(sent: seq<Bytes>, frames: seq<Frame>) {
    Decoded(sent) == Delivered(frames)
  }

  lemma MapSeqAppend<A, B>(f: A -> B, a: seq<A>, b: seq<A>)
    ensures MapSeq(f, a + b) == MapSeq(f, a) + MapSeq(f, b)
  {
  }

  lemma EncodesAppend(a: seq<Bytes>, fa: seq<Frame>, b: seq<Bytes>, fb: seq<Frame>)
    requires Encodes(a, fa) && Encodes(b, fb)
    ensures Encodes(a + b, fa + fb)
  {
    MapSeqAppend(Deserialize, a, b);
    assert Delivered(fa + fb) == Delivered(fa) + Delivered(fb);
  }

  lemma EncodesLength(sent: seq<Bytes>, frames: seq<Frame>)
    requires Encodes(sent, frames)
    ensures |sent| == |frames|
  {
    assert |Decoded(sent)| == |sent| && |Delivered(frames)| == |frames|;
  }

  lemma SerializedEncodes(f: Frame)
    requires |f.payload| <= MAX_PAYLOAD_BYTES
    ensures Serialize(f).Success? && Encodes([Serialize(f).value], [f])
  {
    DeserializeSerialize(f);
  }

  /** Sends one more frame after those already sent. */
  method SendFrame(f: Frame, sent: seq<Bytes>, ghost done: seq<Frame>) returns (more: seq<Bytes>)
    requires Encodes(sent, done) && |f.payload| <= MAX_PAYLOAD_BYTES
    ensures Encodes(more, done + [f])
  {
    SerializedEncodes(f);
    more := sent + [Serialize(f).value];
    EncodesAppend(sent, done, [Serialize(f).value], [f]);
  }

  function DataFrames(id: Uuid, payloads: seq<Bytes>): seq<Frame> {
    seq(|payloads|, i requires 0 <= i < |payloads| => Frame(DATA, id, payloads[i]))
  }

  function Payloads(frames: seq<Frame>): seq<Bytes> {
    seq(|frames|, i requires 0 <= i < |frames| => frames[i].payload)
  }

  lemma PayloadsOfData(id: Uuid, payloads: seq<Bytes>)
    ensures Payloads(DataFrames(id, payloads)) == payloads
    ensures forall f :: f in DataFrames(id, payloads) ==> f.kind == DATA && f.id == id && f.payload in payloads
  {
  }

  lemma DataFramesAppend(id: Uuid, a: seq<Bytes>, b: seq<Bytes>)
    ensures DataFrames(id, a + b) == DataFrames(id, a) + DataFrames(id, b)
  {
  }

  lemma DataFramesSnoc(id: Uuid, a: seq<Bytes>, p: Bytes)
    ensures DataFrames(id, a + [p]) == DataFrames(id, a) + [Frame(DATA, id, p)]
  {
  }

  // ---------------------------------------------------------------------------
  // Lanes
  // ---------------------------------------------------------------------------

  /** The two receive loops: the agent's, which opens streams, and the relay's, which closes them. */
  datatype Side = ToAgent | ToRelay

  /** The frames that matter to the body of a request (at the agent) or of a response (at the relay). */
  predicate Relevant(side: Side, k: FrameType) {
    match side
    case ToAgent => k == OPEN || k == WS_OPEN || CarriesData(k)
    case ToRelay => CarriesData(k) || EndsStream(k)
  }

  predicate InLane(m: Result<Frame, FrameError>, r: Uuid, side: Side) {
    m.Success? && m.value.id == r && Relevant(side, m.value.kind)
  }

  /** The relevant frames that carry request id r, in wire order. */
  function Lane(inbox: Inbox, r: Uuid, side: Side): seq<Frame> {
    if inbox == [] then []
    else
      var n := |inbox| - 1;
      Lane(inbox[..n], r, side) + if InLane(inbox[n], r, side) then [inbox[n].value] else []
  }

  lemma {:induction false} LanePrefix(inbox: Inbox, k: nat, r: Uuid, side: Side)
    requires k <= |inbox|
    ensures Lane(inbox[..k], r, side) <= Lane(inbox, r, side)
  {
    if k < |inbox| {
      var n := |inbox| - 1;
      LanePrefix(inbox[..n], k, r, side);
      assert inbox[..n][..k] == inbox[..k];
    } else {
      assert inbox[..k] == inbox;
    }
  }

  lemma LaneNext(inbox: Inbox, k: nat, r: Uuid, side: Side)
    requires k < |inbox|
    ensures Lane(inbox[..k + 1], r, side) ==
            Lane(inbox[..k], r, side) + if InLane(inbox[k], r, side) then [inbox[k].value] else []
  {
    assert inbox[..k + 1][..k] == inbox[..k];
  }

  /** The next frame of a lane is the next of the frames the lane is a prefix of. */
  lemma NextInLane(inbox: Inbox, k: nat, r: Uuid, side: Side, frames: seq<Frame>)
    requires k < |inbox| && Lane(inbox, r, side) <= frames && InLane(inbox[k], r, side)
    ensures var seen := |Lane(inbox[..k], r, side)|; seen < |frames| && inbox[k].value == frames[seen]
  {
    var seen := |Lane(inbox[..k], r, side)|;
    LaneNext(inbox, k, r, side);
    LanePrefix(inbox, k + 1, r, side);
    assert inbox[k].value == Lane(inbox[..k + 1], r, side)[seen] == Lane(inbox, r, side)[seen] == frames[seen];
  }

  lemma {:induction false} LaneOfDelivered(frames: seq<Frame>, r: Uuid, side: Side)
    requires forall i :: 0 <= i < |frames| ==> frames[i].id == r && Relevant(side, frames[i].kind)
    ensures Lane(Delivered(frames), r, side) == frames
    decreases |frames|
  {
    if frames != [] {
      var n := |frames| - 1;
      LaneOfDelivered(frames[..n], r, side);
      assert Delivered(frames)[..n] == Delivered(frames[..n]);
      assert frames == frames[..n] + [frames[n]];
    }
  }

  // ---------------------------------------------------------------------------
  // Interleavings
  // ---------------------------------------------------------------------------

  ghost predicate LastOf<M>(wire: seq<M>, lane: seq<M>) {
    wire != [] && lane != [] && lane[|lane| - 1] == wire[|wire| - 1]
  }

  ghost function DropLast<M>(lanes: map<Uuid, seq<M>>, x: Uuid): map<Uuid, seq<M>>
    requires x in lanes && lanes[x] != []
  {
    lanes[x := lanes[x][..|lanes[x]| - 1]]
  }

  /** `wire` is an interleaving of the lanes: its last message is the last one of some lane. */
  ghost predicate Interleaves<M(!new)>(wire: seq<M>, lanes: map<Uuid, seq<M>>)
    decreases |wire|
  {
    if wire == [] then forall x :: x in lanes ==> lanes[x] == []
    else exists x :: x in lanes && LastOf(wire, lanes[x]) && Interleaves(wire[..|wire| - 1], DropLast(lanes, x))
  }

  /** Nothing in the lane concerns request r. */
  ghost predicate Foreign(lane: Inbox, r: Uuid, side: Side) {
    forall i :: 0 <= i < |lane| ==> !InLane(lane[i], r, side)
  }

  ghost predicate OthersForeign(lanes: map<Uuid, Inbox>, r: Uuid, side: Side) {
    forall x :: x in lanes && x != r ==> Foreign(lanes[x], r, side)
  }

  lemma OthersStayForeign(lanes: map<Uuid, Inbox>, x: Uuid, r: Uuid, side: Side)
    requires OthersForeign(lanes, r, side) && x in lanes && lanes[x] != []
    ensures OthersForeign(DropLast(lanes, x), r, side)
  {
    forall y | y in DropLast(lanes, x) && y != r ensures Foreign(DropLast(lanes, x)[y], r, side) {
      assert Foreign(lanes[y], r, side);
    }
  }

  /** Whatever the other lanes carry: the lane of r is the same on the wire as at its sender. */
  lemma {:induction false} LaneOfInterleaving(inbox: Inbox, lanes: map<Uuid, Inbox>, r: Uuid, side: Side)
    requires Interleaves(inbox, lanes) && r in lanes && OthersForeign(lanes, r, side)
    ensures Lane(inbox, r, side) == Lane(lanes[r], r, side)
    decreases |inbox|
  {
    if inbox != [] {
      var n := |inbox| - 1;
      var x :| x in lanes && LastOf(inbox, lanes[x]) && Interleaves(inbox[..n], DropLast(lanes, x));
      OthersStayForeign(lanes, x, r, side);
      LaneOfInterleaving(inbox[..n], DropLast(lanes, x), r, side);
      if x != r { assert Foreign(lanes[x], r, side); }
    }
  }

  ghost function MapLanes<A, B>(f: A -> B, lanes: map<Uuid, seq<A>>): map<Uuid, seq<B>> {
    map x | x in lanes :: MapSeq(f, lanes[x])
  }

  lemma MapDropsLast<A, B>(f: A -> B, s: seq<A>)
    requires s != []
    ensures MapSeq(f, s)[..|s| - 1] == MapSeq(f, s[..|s| - 1])
  {
  }

  lemma MapLanesDropLast<A, B>(f: A -> B, lanes: map<Uuid, seq<A>>, x: Uuid)
    requires x in lanes && lanes[x] != []
    ensures MapLanes(f, DropLast(lanes, x)) == DropLast(MapLanes(f, lanes), x)
  {
    MapDropsLast(f, lanes[x]);
  }

  /** Mapping the messages of an interleaving gives an interleaving of the mapped lanes. */
  lemma {:induction false} MapInterleaves<A(!new), B(!new)>(f: A -> B, wire: seq<A>, lanes: map<Uuid, seq<A>>)
    requires Interleaves(wire, lanes)
    ensures Interleaves(MapSeq(f, wire), MapLanes(f, lanes))
    decreases |wire|
  {
    if wire != [] {
      var x :| x in lanes && LastOf(wire, lanes[x]) && Interleaves(wire[..|wire| - 1], DropLast(lanes, x));
      MapInterleaves(f, wire[..|wire| - 1], DropLast(lanes, x));
      MapDropsLast(f, wire);
      MapLanesDropLast(f, lanes, x);
      assert LastOf(MapSeq(f, wire), MapLanes(f, lanes)[x]);
    }
  }

  /**
   Every message of lane x that decodes at all carries id x; what it is, and whether the lane is complete, is
   open.
   */
  ghost predicate Tagged(lanes: map<Uuid, seq<Bytes>>) {
    forall x, i :: x in lanes && 0 <= i < |lanes[x]| ==> Deserialize(lanes[x][i]).Success? ==>
        Deserialize(lanes[x][i]).value.id == x
  }

  lemma TaggedIsForeign(lanes: map<Uuid, seq<Bytes>>, r: Uuid, side: Side)
    requires Tagged(lanes)
    ensures OthersForeign(MapLanes(Deserialize, lanes), r, side)
  {
    var decoded: map<Uuid, Inbox> := MapLanes(Deserialize, lanes);
    forall x | x in decoded && x != r ensures Foreign(decoded[x], r, side) {
      forall i | 0 <= i < |decoded[x]| ensures !InLane(decoded[x][i], r, side) {
        assert decoded[x][i] == Deserialize(lanes[x][i]);
      }
    }
  }

  /** From bytes on a shared wire to the frames of one request. */
  lemma LaneOfWire(wire: seq<Bytes>, lanes: map<Uuid, seq<Bytes>>, r: Uuid, side: Side)
    requires Interleaves(wire, lanes) && r in lanes && Tagged(lanes)
    ensures Lane(Decoded(wire), r, side) == Lane(Decoded(lanes[r]), r, side)
  {
    TaggedIsForeign(lanes, r, side);
    MapInterleaves(Deserialize, wire, lanes);
    LaneOfInterleaving(Decoded(wire), MapLanes(Deserialize, lanes), r, side);
  }
}
