/**
 The two ends of a response body: the agent's send loop, and the relay's generators that hand the
 iterator's payloads to the browser, streamed as they come or buffered for HTML rewriting.
 */
module BodyDelivery {
  import opened Prelude
  import opened Frames
  import opened Lanes
  import opened ResponsePath
  import opened RelayProgress
  import opened HtmlRewriter

  const HTML_REWRITE_MAX_BYTES := 5 * 1024 * 1024

  // ---------------------------------------------------------------------------
  // The agent
  // ---------------------------------------------------------------------------

  function NonEmpty(chunks: seq<Bytes>): seq<Bytes> {
    if chunks == [] then []
    else
      var n := |chunks| - 1;
      NonEmpty(chunks[..n]) + if chunks[n] == [] then [] else [chunks[n]]
  }

  /** Skipping empty chunks loses nothing. */
  lemma {:induction false} NonEmptyKeepsBytes(chunks: seq<Bytes>)
    ensures Concat(NonEmpty(chunks)) == Concat(chunks) && [] !in NonEmpty(chunks)
  {
    if chunks != [] {
      var n := |chunks| - 1;
      NonEmptyKeepsBytes(chunks[..n]);
      assert chunks == chunks[..n] + [chunks[n]];
      ConcatSnoc(chunks[..n], chunks[n]);
      if chunks[n] != [] {
        ConcatSnoc(NonEmpty(chunks[..n]), chunks[n]);
      } else {
        assert NonEmpty(chunks) == NonEmpty(chunks[..n]);
      }
    }
  }

  lemma NextNonEmpty(chunks: seq<Bytes>, k: nat)
    requires k < |chunks|
    ensures NonEmpty(chunks[..k + 1]) == NonEmpty(chunks[..k]) + if chunks[k] == [] then [] else [chunks[k]]
  {
    assert chunks[..k + 1][..k] == chunks[..k];
  }

  lemma {:induction false} NonEmptyPrefix(chunks: seq<Bytes>, k: nat)
    requires k <= |chunks|
    ensures NonEmpty(chunks[..k]) <= NonEmpty(chunks)
    decreases |chunks|
  {
    if k < |chunks| {
      var n := |chunks| - 1;
      NonEmptyPrefix(chunks[..n], k);
      assert chunks[..n][..k] == chunks[..k];
    } else {
      assert chunks[..k] == chunks;
    }
  }

  lemma {:induction false} NonEmptyFits(chunks: seq<Bytes>, k: nat)
    requires k <= |chunks| && forall i :: 0 <= i < k ==> |chunks[i]| <= MAX_PAYLOAD_BYTES
    ensures forall p :: p in NonEmpty(chunks[..k]) ==> |p| <= MAX_PAYLOAD_BYTES
  {
    if k > 0 {
      NonEmptyFits(chunks, k - 1);
      NextNonEmpty(chunks, k - 1);
    }
  }

  /** Exactly the payloads before the first one over the frame limit went out. */
  ghost predicate AbortedAtOversize(sent: seq<Bytes>, id: Uuid, payloads: seq<Bytes>) {
    exists n: nat :: n < |payloads| && |payloads[n]| > 65536 && (forall i :: 0 <= i < n ==> |payloads[i]| <= 65536)
                     && Encodes(sent, DataFrames(id, payloads[..n]))
  }

  lemma AbortsHere(sent: seq<Bytes>, id: Uuid, payloads: seq<Bytes>, n: nat)
    requires n < |payloads| && |payloads[n]| > 65536 && forall p :: p in payloads[..n] ==> |p| <= 65536
    requires Encodes(sent, DataFrames(id, payloads[..n]))
    ensures AbortedAtOversize(sent, id, payloads)
  {
    forall i | 0 <= i < n ensures |payloads[i]| <= 65536 {
      assert payloads[..n][i] in payloads[..n];
    }
  }

  lemma AbortsAtChunk(sent: seq<Bytes>, id: Uuid, metadata: Bytes, chunks: seq<Bytes>, k: nat)
    requires k < |chunks| && |chunks[k]| > 65536 && |metadata| <= 65536
    requires forall i :: 0 <= i < k ==> |chunks[i]| <= 65536
    requires Encodes(sent, DataFrames(id, [metadata] + NonEmpty(chunks[..k])))
    ensures AbortedAtOversize(sent, id, [metadata] + NonEmpty(chunks))
  {
    var before, all := [metadata] + NonEmpty(chunks[..k]), [metadata] + NonEmpty(chunks);
    NonEmptyFits(chunks, k);
    NonEmptyPrefix(chunks, k + 1);
    NextNonEmpty(chunks, k);
    assert before + [chunks[k]] <= all;
    assert all[..|before|] == before && all[|before|] == chunks[k];
    AbortsHere(sent, id, all, |before|);
  }

  /** Metadata frame, non-empty body chunks, CLOSE; a payload over the frame limit aborts the send. */
  method SendResponse(id: Uuid, metadata: Bytes, chunks: seq<Bytes>) returns (sent: seq<Bytes>, complete: bool)
    ensures complete <==> forall p :: p in [metadata] + chunks ==> |p| <= MAX_PAYLOAD_BYTES
    ensures complete ==> Encodes(sent, ResponseFrames(id, [metadata] + NonEmpty(chunks)))
    ensures !complete ==> AbortedAtOversize(sent, id, [metadata] + NonEmpty(chunks))
  {
    sent := [];
    if |metadata| > MAX_PAYLOAD_BYTES {
      assert metadata in [metadata] + chunks;
      AbortsHere(sent, id, [metadata] + NonEmpty(chunks), 0);
      return sent, false;
    }
    sent := SendFrame(Frame(DATA, id, metadata), sent, []);
    ghost var payloads := [metadata];
    DataFramesSnoc(id, [], metadata);
    assert [] + [metadata] == payloads == [metadata] + NonEmpty(chunks[..0]);
    for k := 0 to |chunks|
      invariant forall i :: 0 <= i < k ==> |chunks[i]| <= MAX_PAYLOAD_BYTES
      invariant payloads == [metadata] + NonEmpty(chunks[..k]) && Encodes(sent, DataFrames(id, payloads))
    {
      NextNonEmpty(chunks, k);
      if chunks[k] == [] {
        continue;
      }
      if |chunks[k]| > MAX_PAYLOAD_BYTES {
        assert chunks[k] in [metadata] + chunks;
        AbortsAtChunk(sent, id, metadata, chunks, k);
        return sent, false;
      }
      sent := SendFrame(Frame(DATA, id, chunks[k]), sent, DataFrames(id, payloads));
      DataFramesSnoc(id, payloads, chunks[k]);
      payloads := payloads + [chunks[k]];
    }
    assert chunks[..|chunks|] == chunks;
    sent := SendFrame(Frame(CLOSE, id, []), sent, DataFrames(id, payloads));
    complete := true;
  }

  // ---------------------------------------------------------------------------
  // What the browser is given, as a function of what the iterator yields
  // ---------------------------------------------------------------------------

  /** The codec of the declared charset; `decode` is None for bytes it rejects and for an unknown charset. */
  datatype Codec = Codec(decode: Bytes -> Option<string>, encode: string -> Bytes)

  /** Rewriting a body degrades to passing it through. */
  function RewriteBody(codec: Codec, body: Bytes, prefix: string): Bytes {
    if |body| > HTML_REWRITE_MAX_BYTES then body
    else
      var text := codec.decode(body);
      if text.None? then body else codec.encode(Rewrite(text.value, prefix))
  }

  /** The codec reads this text back after writing it. */
  ghost predicate ReadsBack(codec: Codec, text: string) {
    codec.decode(codec.encode(text)) == Some(text)
  }

  /** Rewriting a body twice is rewriting it once, if the charset can carry the rewritten text. */
  lemma BodyRewriteIsIdempotent(codec: Codec, body: Bytes, code: string)
    requires '=' !in code
    requires codec.decode(body).Some? ==> ReadsBack(codec, Rewrite(codec.decode(body).value, "/m/" + code))
    ensures var prefix := "/m/" + code;
            RewriteBody(codec, RewriteBody(codec, body, prefix), prefix) == RewriteBody(codec, body, prefix)
  {
    if codec.decode(body).Some? { MountRewriteIsIdempotent(codec.decode(body).value, code); }
  }

  /** The frames from `from` on that are passed to the browser; `gone(i)` answers the disconnect check on frame i. */
  function Forwarded(frames: seq<Bytes>, gone: nat -> bool, from: nat): (seq<Bytes>, bool)
    decreases |frames| - from
  {
    if from >= |frames| then ([], false)
    else if gone(from) then ([], true)
    else
      var (rest, cancelled) := Forwarded(frames, gone, from + 1);
      ([frames[from]] + rest, cancelled)
  }

  /** How many frames are buffered: up to and with the first that exceeds the cap. */
  function Buffered(frames: seq<Bytes>, k: nat): (n: nat)
    requires k <= |frames|
    ensures k <= n <= |frames|
    decreases |frames| - k
  {
    if k == |frames| || |Concat(frames[..k])| > HTML_REWRITE_MAX_BYTES then k else Buffered(frames, k + 1)
  }

  datatype Delivery = Whole(content: Bytes) | Parts(parts: seq<Bytes>, cancelled: bool)

  function PlainDelivery(frames: seq<Bytes>, gone: nat -> bool): Delivery {
    var (parts, cancelled) := Forwarded(frames, gone, 0);
    Parts(parts, cancelled)
  }

  function HtmlDelivery(frames: seq<Bytes>, codec: Codec, prefix: string, gone: nat -> bool): Delivery {
    var k := Buffered(frames, 0);
    if |Concat(frames[..k])| <= HTML_REWRITE_MAX_BYTES then Whole(RewriteBody(codec, Concat(frames), prefix))
    else
      var (rest, cancelled) := Forwarded(frames, gone, k);
      Parts(frames[..k] + rest, cancelled)
  }

  function BrowserBytes(d: Delivery): Bytes {
    match d
    case Whole(content) => content
    case Parts(parts, _) => Concat(parts)
  }

  // ---------------------------------------------------------------------------
  // The generators
  // ---------------------------------------------------------------------------

  /** The stream iterator of one response; it keeps its place when it is passed on. */
  class BodyIterator {
    const frames: seq<Bytes>
    var position: nat

    ghost predicate Valid()
      reads this
    {
      position <= |frames|
    }

    constructor (frames: seq<Bytes>)
      ensures Valid() && this.frames == frames && position == 0
    {
      this.frames, position := frames, 0;
    }

    method Next() returns (r: Option<Bytes>)
      requires Valid()
      modifies this
      ensures Valid()
      ensures old(position) == |frames| ==> r == None && position == old(position)
      ensures old(position) < |frames| ==> r == Some(frames[old(position)]) && position == old(position) + 1
    {
      if position == |frames| {
        return None;
      }
      r := Some(frames[position]);
      position := position + 1;
    }
  }

  /** Forwards the rest of the iterator, checking for a disconnect before each frame. */
  method StreamBody(it: BodyIterator, gone: nat -> bool) returns (delivered: seq<Bytes>, cancelled: bool)
    requires it.Valid()
    modifies it
    ensures (delivered, cancelled) == Forwarded(it.frames, gone, old(it.position))
  {
    delivered := [];
    ghost var all := Forwarded(it.frames, gone, it.position);
    assert [] + all.0 == all.0;
    while true
      invariant it.Valid()
      invariant all == (delivered + Forwarded(it.frames, gone, it.position).0,
                Forwarded(it.frames, gone, it.position).1)
      decreases |it.frames| - it.position
    {
      var k := it.position;
      var chunk := it.Next();
      if chunk.None? {
        assert delivered + [] == delivered;
        return delivered, false;
      }
      if gone(k) {
        assert delivered + [] == delivered;
        return delivered, true;
      }
      ForwardsNext(it.frames, gone, k, delivered);
      delivered := delivered + [chunk.value];
    }
  }

  lemma ForwardsNext(frames: seq<Bytes>, gone: nat -> bool, k: nat, delivered: seq<Bytes>)
    requires k < |frames| && !gone(k)
    ensures delivered + Forwarded(frames, gone, k).0 == delivered + [frames[k]] + Forwarded(frames, gone, k + 1).0
    ensures Forwarded(frames, gone, k).1 == Forwarded(frames, gone, k + 1).1
  {
  }

  lemma BuffersNext(frames: seq<Bytes>, k: nat)
    requires k < |frames| && |Concat(frames[..k])| <= HTML_REWRITE_MAX_BYTES
    ensures Buffered(frames, k) == Buffered(frames, k + 1)
    ensures |Concat(frames[..k + 1])| > HTML_REWRITE_MAX_BYTES ==> Buffered(frames, k + 1) == k + 1
  {
  }

  /** Collects frames until the end, or until they exceed the cap. */
  method BufferUpToCap(it: BodyIterator) returns (parts: seq<Bytes>, overCap: bool)
    requires it.Valid() && it.position == 0
    modifies it
    ensures it.Valid() && it.position == Buffered(it.frames, 0) && parts == it.frames[..it.position]
    ensures forall k :: 0 <= k < |parts| ==> |Concat(it.frames[..k])| <= 5242880
    ensures overCap == (|Concat(parts)| > HTML_REWRITE_MAX_BYTES) && (!overCap ==> parts == it.frames)
  {
    parts := [];
    var buffered := 0;
    while true
      invariant it.Valid() && parts == it.frames[..it.position]
      invariant buffered == |Concat(parts)| <= HTML_REWRITE_MAX_BYTES
      invariant Buffered(it.frames, 0) == Buffered(it.frames, it.position)
      invariant forall k :: 0 <= k <= |parts| ==> |Concat(it.frames[..k])| <= 5242880
      decreases |it.frames| - it.position
    {
      var chunk := it.Next();
      if chunk.None? {
        assert parts == it.frames;
        return parts, false;
      }
      ConcatSnoc(parts, chunk.value);
      BuffersNext(it.frames, |parts|);
      parts := parts + [chunk.value];
      assert parts == it.frames[..it.position];
      buffered := buffered + |chunk.value|;
      if buffered > HTML_REWRITE_MAX_BYTES {
        return parts, true;
      }
    }
  }

  /** A body that is not HTML is streamed. */
  method PlainBody(frames: seq<Bytes>, gone: nat -> bool) returns (r: Delivery)
    ensures r == PlainDelivery(frames, gone)
  {
    var it := new BodyIterator(frames);
    var parts, cancelled := StreamBody(it, gone);
    r := Parts(parts, cancelled);
  }

  /**
   HTML: a body within the cap is rewritten as a whole; a larger one is passed through by replaying the
   buffered prefix and resuming the same iterator.
   */
  method HtmlBody(frames: seq<Bytes>, codec: Codec, prefix: string, gone: nat -> bool) returns (r: Delivery)
    ensures r == HtmlDelivery(frames, codec, prefix, gone)
    ensures r.Whole? <==> |Concat(frames)| <= 5242880
    ensures r.Whole? ==> IsPage(true, Concat(frames), codec, prefix, r.content)
  {
    HtmlDeliveryIs(frames, codec, prefix, gone);
    var it := new BodyIterator(frames);
    var parts, overCap := BufferUpToCap(it);
    if !overCap {
      return Whole(RewriteBody(codec, Concat(parts), prefix));
    }
    var rest, cancelled := StreamBody(it, gone);
    r := Parts(parts + rest, cancelled);
  }

  // ---------------------------------------------------------------------------
  // What a delivery is worth
  // ---------------------------------------------------------------------------

  /** Forwarding passes on a run of frames: all that are left unless the browser is found gone. */
  lemma {:induction false} ForwardedIsARun(frames: seq<Bytes>, gone: nat -> bool, from: nat)
    requires from <= |frames|
    ensures var (parts, cancelled) := Forwarded(frames, gone, from);
            var end := from + |parts|;
            && end <= |frames| && parts == frames[from..end]
            && (if cancelled then end < |frames| && gone(end) else end == |frames|)
            && forall i :: from <= i < end ==> !gone(i)
    decreases |frames| - from
  {
    if from < |frames| && !gone(from) {
      ForwardedIsARun(frames, gone, from + 1);
      var (rest, _) := Forwarded(frames, gone, from + 1);
      assert [frames[from]] + rest == frames[from..from + 1 + |rest|];
    }
  }

  lemma {:induction false} BufferedStops(frames: seq<Bytes>, k: nat)
    requires k <= |frames|
    ensures var n := Buffered(frames, k); n == |frames| || |Concat(frames[..n])| > HTML_REWRITE_MAX_BYTES
    decreases |frames| - k
  {
    if k < |frames| && |Concat(frames[..k])| <= HTML_REWRITE_MAX_BYTES { BufferedStops(frames, k + 1); }
  }

  lemma PrefixBytes(frames: seq<Bytes>, k: nat)
    requires k <= |frames|
    ensures Concat(frames[..k]) <= Concat(frames)
  {
    assert frames == frames[..k] + frames[k..];
    ConcatAppend(frames[..k], frames[k..]);
  }

  /** The buffered frames exceed the cap exactly when the whole body does; otherwise they are the whole body. */
  lemma CapIsExact(frames: seq<Bytes>)
    ensures var k := Buffered(frames, 0);
            && (|Concat(frames[..k])| > HTML_REWRITE_MAX_BYTES <==> |Concat(frames)| > HTML_REWRITE_MAX_BYTES)
  {
    var k := Buffered(frames, 0);
    BufferedStops(frames, 0);
    PrefixBytes(frames, k);
    if k == |frames| { assert frames[..k] == frames; }
  }

  lemma ReplayedAndResumed(frames: seq<Bytes>, gone: nat -> bool, k: nat)
    requires k <= |frames|
    ensures var (rest, cancelled) := Forwarded(frames, gone, k); var parts := frames[..k] + rest;
            parts <= frames && (if cancelled then |parts| < |frames| && gone(|parts|) else parts == frames)
  {
    ForwardedIsARun(frames, gone, k);
    var rest := Forwarded(frames, gone, k).0;
    assert frames[..k] + rest == frames[..k + |rest|];
  }

  /**
   The over-cap path is taken exactly for bodies over the cap, and gives out a prefix of the frames, all of
   them if the browser stays.
   */
  lemma HtmlDeliveryIs(frames: seq<Bytes>, codec: Codec, prefix: string, gone: nat -> bool)
    ensures var d := HtmlDelivery(frames, codec, prefix, gone);
            && (d.Whole? <==> |Concat(frames)| <= 5242880)
            && (d.Whole? ==> IsPage(true, Concat(frames), codec, prefix, d.content))
            && (d.Parts? ==> d.parts <= frames && (if d.cancelled
                  then |d.parts| < |frames| && gone(|d.parts|) else d.parts == frames))
  {
    CapIsExact(frames);
    if |Concat(frames)| <= HTML_REWRITE_MAX_BYTES { RewrittenIsPage(codec, Concat(frames), prefix); }
    ReplayedAndResumed(frames, gone, Buffered(frames, 0));
  }

  lemma PlainDeliveryIs(frames: seq<Bytes>, gone: nat -> bool)
    ensures var d := PlainDelivery(frames, gone);
            d.Parts? && d.parts <= frames && (if d.cancelled
                then |d.parts| < |frames| && gone(|d.parts|) else d.parts == frames)
  {
    ForwardedIsARun(frames, gone, 0);
  }

  function Deliver(html: bool, frames: seq<Bytes>, codec: Codec, prefix: string, gone: nat -> bool): Delivery {
    if html then HtmlDelivery(frames, codec, prefix, gone) else PlainDelivery(frames, gone)
  }

  /** If the browser stays, it gets the page the body stands for. */
  lemma StayingBrowserGetsAll(html: bool, frames: seq<Bytes>, codec: Codec, prefix: string, gone: nat -> bool)
    requires forall i: nat :: i < |frames| ==> !gone(i)
    ensures IsPage(html, Concat(frames), codec, prefix, BrowserBytes(Deliver(html, frames, codec, prefix, gone)))
  {
    HtmlDeliveryIs(frames, codec, prefix, gone);
    PlainDeliveryIs(frames, gone);
    if html && |Concat(frames)| <= HTML_REWRITE_MAX_BYTES { RewrittenIsPage(codec, Concat(frames), prefix); }
  }

  /** Whatever the browser does, a streamed delivery is a prefix of the bytes. */
  lemma StreamedIsPrefix(html: bool, frames: seq<Bytes>, codec: Codec, prefix: string, gone: nat -> bool)
    ensures var d := Deliver(html, frames, codec, prefix, gone); d.Parts? ==> BrowserBytes(d) <= Concat(frames)
  {
    HtmlDeliveryIs(frames, codec, prefix, gone);
    PlainDeliveryIs(frames, gone);
    var d := Deliver(html, frames, codec, prefix, gone);
    if d.Parts? { assert d.parts == frames[..|d.parts|]; PrefixBytes(frames, |d.parts|); }
  }

  // ---------------------------------------------------------------------------
  // End to end
  // ---------------------------------------------------------------------------

  datatype Response = Response(metadata: Bytes, chunks: seq<Bytes>)

  function SentFor(r: Uuid, response: Response): seq<Frame> {
    ResponseFrames(r, [response.metadata] + NonEmpty(response.chunks))
  }

  /**
   What a browser that stays should get for a body: HTML of at most 5 MiB that decodes, with the prefix inserted
   before each matched slash and nothing else changed; everything else as it is.
   */
  ghost predicate IsPage(html: bool, body: Bytes, codec: Codec, prefix: string, out: Bytes) {
    if html && |body| <= 5242880 && codec.decode(body).Some?
    then out == codec.encode(Inserted(codec.decode(body).value, prefix, 0))
    else out == body
  }

  /** In terms of the text: if the charset reads the rewritten text back, that is what the bytes decode to. */
  lemma PageDecodes(html: bool, body: Bytes, codec: Codec, prefix: string, out: Bytes)
    requires IsPage(html, body, codec, prefix, out)
    ensures html && |body| <= 5242880 && codec.decode(body).Some?
            && ReadsBack(codec, Inserted(codec.decode(body).value, prefix, 0)) ==>
              codec.decode(out) == Some(Inserted(codec.decode(body).value, prefix, 0))
    ensures !html || |body| > 5242880 || codec.decode(body).None? ==> out == body
  {
  }

  lemma RewrittenIsPage(codec: Codec, body: Bytes, prefix: string)
    requires |body| <= HTML_REWRITE_MAX_BYTES
    ensures IsPage(true, body, codec, prefix, RewriteBody(codec, body, prefix))
  {
    if codec.decode(body).Some? { RewriteOnlyInserts(codec.decode(body).value, prefix); }
  }

  /** A response on the wire: DATA with the metadata, non-empty DATA frames that hold the body, and one CLOSE. */
  lemma ResponseLayout(r: Uuid, response: Response) returns (body: seq<Frame>)
    ensures SentFor(r, response) == [Frame(DATA, r, response.metadata)] + body + [Frame(CLOSE, r, [])]
    ensures forall f :: f in body ==> f.kind == DATA && f.id == r && f.payload != []
    ensures Concat(Payloads(body)) == Concat(response.chunks)
  {
    body := DataFrames(r, NonEmpty(response.chunks));
    NonEmptyKeepsBytes(response.chunks);
    PayloadsOfData(r, NonEmpty(response.chunks));
    DataFramesAppend(r, [response.metadata], NonEmpty(response.chunks));
    DataFramesSnoc(r, [], response.metadata);
    assert [] + [response.metadata] == [response.metadata];
  }

  /** What SendResponse sent is the lane of its request. */
  lemma SentIsLane(sent: seq<Bytes>, r: Uuid, response: Response)
    requires Encodes(sent, SentFor(r, response))
    ensures Lane(Decoded(sent), r, ToRelay) == SentFor(r, response)
  {
    LaneOfDelivered(SentFor(r, response), r, ToRelay);
  }

  lemma YieldsDeliverBody(html: bool, response: Response, codec: Codec, prefix: string, gone: nat -> bool)
    requires forall i: nat :: i < |NonEmpty(response.chunks)| ==> !gone(i)
    ensures IsPage(html, Concat(response.chunks), codec, prefix,
                   BrowserBytes(Deliver(html, NonEmpty(response.chunks), codec, prefix, gone)))
  {
    NonEmptyKeepsBytes(response.chunks);
    StayingBrowserGetsAll(html, NonEmpty(response.chunks), codec, prefix, gone);
  }

  /**
   End to end, for any number of concurrent responses and any other traffic: the agent skips empty chunks and
   frames the rest, the wire interleaves, the relay decodes, dispatches and iterates, and the generators
   stream plainly, rewrite within the cap or replay and resume above it. An iterator that ended on a live
   connection has given a browser that stayed exactly the body (rewritten within the cap); and at any time,
   whatever the browser does, what was streamed is a prefix of the body.
   */
  lemma DeliveredBytesAreTheBody(responses: map<Uuid, Response>, lanes: map<Uuid, seq<Bytes>>, wire: seq<Bytes>,
                                 actions: seq<RelayAction>, r: Uuid, html: bool, codec: Codec, prefix: string,
                                     gone: nat -> bool)
    requires Interleaves(wire, lanes) && Tagged(lanes) && r in responses && r in lanes
    requires Lane(Decoded(lanes[r]), r, ToRelay) <= SentFor(r, responses[r])
    ensures var w := RelayRun(Decoded(wire), NEW_RELAY, actions);
            r in w.readers && (w.readers[r].Iterating? || w.readers[r].Ended?) ==>
              var h := w.readers[r]; var d := Deliver(html, h.yielded, codec, prefix, gone);
              && h.first == responses[r].metadata
              && (h.Ended? && !w.tunnel.closed && (forall i: nat :: i < |h.yielded| ==> !gone(i)) ==>
                    IsPage(html, Concat(responses[r].chunks), codec, prefix, BrowserBytes(d)))
              && (d.Parts? ==> BrowserBytes(d) <= Concat(responses[r].chunks))
  {
    var body := NonEmpty(responses[r].chunks);
    var w := RelayRun(Decoded(wire), NEW_RELAY, actions);
    LaneOfWire(wire, lanes, r, ToRelay);
    ResponseArrivesIntact(Decoded(wire), actions, r, responses[r].metadata, body);
    if r in w.readers && (w.readers[r].Iterating? || w.readers[r].Ended?) {
      var y := w.readers[r].yielded;
      StreamedIsPrefix(html, y, codec, prefix, gone);
      NonEmptyKeepsBytes(responses[r].chunks);
      assert y == body[..|y|];
      PrefixBytes(body, |y|);
      if w.readers[r].Ended? && !w.tunnel.closed && forall i: nat :: i < |y| ==> !gone(i) {
        YieldsDeliverBody(html, responses[r], codec, prefix, gone);
      }
    }
  }

  /**
   And it gets there: from any live state the tasks that are there bring a request that is not given up to
   its end, with the expected bytes, unless the wire holds a message that does not decode or the loop gets
   stuck behind a stream that was left.
   */
  lemma ResponsesGetThere(responses: map<Uuid, Response>, lanes: map<Uuid, seq<Bytes>>, wire: seq<Bytes>,
                          actions: seq<RelayAction>, r: Uuid, html: bool, codec: Codec, prefix: string)
    returns (more: seq<RelayAction>)
    requires Interleaves(wire, lanes) && Tagged(lanes) && r in responses && r in lanes
    requires Encodes(lanes[r], SentFor(r, responses[r]))
    requires var w := RelayRun(Decoded(wire), NEW_RELAY, actions);
             !w.tunnel.closed && r in w.readers && !w.readers[r].Gone?
    ensures var w := RelayRun(Decoded(wire), NEW_RELAY, actions); var v := RelayRun(Decoded(wire), w, more);
            && OwnSchedule(more)
            && ((v.position < |wire| && Deserialize(wire[v.position]).Failure?) || (Stuck(v) && !Clear(w)) ||
                (r in v.readers && v.readers[r].Ended?
                 && IsPage(html, Concat(responses[r].chunks), codec, prefix,
                           BrowserBytes(Deliver(html, v.readers[r].yielded, codec, prefix, _ => false)))))
  {
    SentIsLane(lanes[r], r, responses[r]);
    LaneOfWire(wire, lanes, r, ToRelay);
    more := ResponseArrivesInTheEnd(Decoded(wire), actions, r, responses[r].metadata, NonEmpty(responses[r].chunks));
    YieldsDeliverBody(html, responses[r], codec, prefix, _ => false);
    var v := RelayRun(Decoded(wire), RelayRun(Decoded(wire), NEW_RELAY, actions), more);
    if v.position < |wire| { assert Decoded(wire)[v.position] == Deserialize(wire[v.position]); }
  }
}
