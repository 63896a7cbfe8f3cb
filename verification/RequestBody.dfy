/**
 Request bodies from the browser to the agent: the relay slices the chunks into DATA frames and ends
 them with an empty frame; the agent's handlers reassemble them while many requests share the wire.
 */
module RequestBody {
  import opened Prelude
  import opened Frames
  import opened TunnelMachine
  import opened Lanes

  const METADATA_MAX_BYTES := 16384

  // ---------------------------------------------------------------------------
  // The relay's side
  // ---------------------------------------------------------------------------

  /** The pieces one browser chunk is sent in. */
  function Slices(chunk: Bytes): seq<Bytes>
    decreases |chunk|
  {
    if chunk == [] then []
    else if |chunk| <= MAX_PAYLOAD_BYTES then [chunk]
    else [chunk[..MAX_PAYLOAD_BYTES]] + Slices(chunk[MAX_PAYLOAD_BYTES..])
  }

  function BodySlices(chunks: seq<Bytes>): seq<Bytes> {
    if chunks == [] then [] else BodySlices(chunks[..|chunks| - 1]) + Slices(chunks[|chunks| - 1])
  }

  /** Non-empty and small enough for a frame. */
  predicate FitsFrame(p: Bytes) {
    0 < |p| <= MAX_PAYLOAD_BYTES
  }

  lemma {:induction false} SlicesAreFaithful(chunk: Bytes)
    ensures Concat(Slices(chunk)) == chunk
    ensures forall p :: p in Slices(chunk) ==> FitsFrame(p)
    decreases |chunk|
  {
    if |chunk| > MAX_PAYLOAD_BYTES {
      var rest := chunk[MAX_PAYLOAD_BYTES..];
      SlicesAreFaithful(rest);
      assert Slices(chunk)[1..] == Slices(rest);
    } else if chunk != [] {
      assert [chunk][1..] == [];
    }
  }

  /** Every slice but the last of a chunk is full. */
  lemma {:induction false} SlicesAreFull(chunk: Bytes)
    ensures forall i :: 0 <= i < |Slices(chunk)| - 1 ==> |Slices(chunk)[i]| == 65536
    decreases |chunk|
  {
    if |chunk| > MAX_PAYLOAD_BYTES {
      var rest := chunk[MAX_PAYLOAD_BYTES..];
      SlicesAreFull(rest);
      assert Slices(chunk) == [chunk[..MAX_PAYLOAD_BYTES]] + Slices(rest);
    }
  }

  /** Every body frame before the sentinel is non-empty and fits, and together they are the body. */
  lemma {:induction false} BodySlicesAreFaithful(chunks: seq<Bytes>)
    ensures Concat(BodySlices(chunks)) == Concat(chunks)
    ensures forall p :: p in BodySlices(chunks) ==> 0 < |p| <= 65536
  {
    if chunks != [] {
      var n := |chunks| - 1;
      BodySlicesAreFaithful(chunks[..n]);
      SlicesAreFaithful(chunks[n]);
      ConcatAppend(BodySlices(chunks[..n]), Slices(chunks[n]));
      ConcatSnoc(chunks[..n], chunks[n]);
      assert chunks == chunks[..n] + [chunks[n]];
    }
  }

  /** The DATA payloads of a request: the slices, then the empty end-of-body sentinel. */
  function BodyPayloads(chunks: seq<Bytes>): seq<Bytes> {
    BodySlices(chunks) + [[]]
  }

  function RequestFrames(id: Uuid, metadata: Bytes, chunks: seq<Bytes>): seq<Frame> {
    [Frame(OPEN, id, metadata)] + DataFrames(id, BodyPayloads(chunks))
  }

  /**
   A request on the wire: OPEN with the metadata, DATA frames that are not empty and hold at most 65536 bytes and
   together the whole body, and one empty DATA frame, all with the request's id.
   */
  lemma RequestLayout(id: Uuid, metadata: Bytes, chunks: seq<Bytes>) returns (body: seq<Frame>)
    ensures RequestFrames(id, metadata, chunks) == [Frame(OPEN, id, metadata)] + body + [Frame(DATA, id, [])]
    ensures forall f :: f in body ==> f.kind == DATA && f.id == id && 0 < |f.payload| <= 65536
    ensures Concat(Payloads(body)) == Concat(chunks)
  {
    body := DataFrames(id, BodySlices(chunks));
    BodySlicesAreFaithful(chunks);
    PayloadsOfData(id, BodySlices(chunks));
    DataFramesSnoc(id, BodySlices(chunks), []);
  }

  /** The sends numbered from `from` up to `to` succeed. */
  ghost predicate AliveFor(alive: nat -> bool, from: nat, to: nat) {
    forall n: nat :: from <= n < to ==> alive(n)
  }

  /** Some send number n failed, and exactly the frames before it went out. */
  ghost predicate CutShort(sent: seq<Bytes>, frames: seq<Frame>, from: nat, alive: nat -> bool) {
    exists n: nat :: from <= n < |frames| && !alive(n) && Encodes(sent, frames[..n])
  }

  /** One send; `alive(n)` says whether the transport takes the n-th message. */
  method TrySend(f: Frame, sent: seq<Bytes>, ghost done: seq<Frame>,
                 alive: nat -> bool) returns (ok: bool, more: seq<Bytes>)
    requires Encodes(sent, done) && |f.payload| <= MAX_PAYLOAD_BYTES
    ensures ok == alive(|done|)
    ensures if ok then Encodes(more, done + [f]) else more == sent
  {
    EncodesLength(sent, done);
    ok, more := alive(|sent|), sent;
    if ok {
      more := SendFrame(f, sent, done);
    }
  }

  /** The slices of `chunk` before `offset` are done; the last one may reach past the end. */
  ghost predicate SlicedUpTo(chunk: Bytes, offset: nat, done: seq<Bytes>) {
    if offset <= |chunk| then done + Slices(chunk[offset..]) == Slices(chunk) else done == Slices(chunk)
  }

  lemma SliceNext(chunk: Bytes, offset: nat, done: seq<Bytes>)
    requires offset < |chunk| && SlicedUpTo(chunk, offset, done)
    ensures var end := offset + MAX_PAYLOAD_BYTES;
            SlicedUpTo(chunk, end, done + [if end <= |chunk| then chunk[offset..end] else chunk[offset..]])
  {
    NextSlice(chunk, offset);
  }

  lemma SlicedAll(chunk: Bytes, offset: nat, done: seq<Bytes>)
    requires offset >= |chunk| && SlicedUpTo(chunk, offset, done)
    ensures done == Slices(chunk)
  {
    assert offset == |chunk| ==> chunk[offset..] == [];
  }

  lemma SlicedNone(chunk: Bytes)
    ensures SlicedUpTo(chunk, 0, [])
  {
    assert chunk[0..] == chunk;
  }

  lemma CutHere(sent: seq<Bytes>, done: seq<Frame>, frames: seq<Frame>, from: nat, alive: nat -> bool)
    requires Encodes(sent, done) && done <= frames && from <= |done| < |frames| && !alive(|done|)
    ensures CutShort(sent, frames, from, alive)
  {
    assert frames[..|done|] == done;
  }

  lemma CutLater(sent: seq<Bytes>, part: seq<Frame>, frames: seq<Frame>, from: nat, later: nat, alive: nat -> bool)
    requires CutShort(sent, part, later, alive) && part <= frames && from <= later
    ensures CutShort(sent, frames, from, alive)
  {
    var n: nat :| later <= n < |part| && !alive(n) && Encodes(sent, part[..n]);
    assert frames[..n] == part[..n];
  }

  lemma PartOfSlices(id: Uuid, before: seq<Frame>, chunk: Bytes, offset: nat, done: seq<Bytes>)
    requires offset < |chunk| && SlicedUpTo(chunk, offset, done)
    ensures var part, all := before + DataFrames(id, done), before + DataFrames(id, Slices(chunk));
            part <= all && |part| < |all|
  {
    NextSlice(chunk, offset);
    DataFramesAppend(id, done, Slices(chunk[offset..]));
  }

  /** Sends one chunk in slices of at most 65536 bytes, after the frames already sent. */
  method SendChunk(id: Uuid, chunk: Bytes, sent0: seq<Bytes>, ghost before: seq<Frame>, alive: nat -> bool)
    returns (ok: bool, sent: seq<Bytes>)
    requires Encodes(sent0, before)
    ensures var all := before + DataFrames(id, Slices(chunk));
            if ok then Encodes(sent, all) && AliveFor(alive, |before|, |all|) else CutShort(sent, all, |before|, alive)
  {
    ok, sent := true, sent0;
    ghost var done: seq<Bytes> := [];
    ghost var all := before + DataFrames(id, Slices(chunk));
    var offset := 0;
    SlicedNone(chunk);
    assert before + DataFrames(id, done) == before;
    while offset < |chunk|
      invariant 0 <= offset && SlicedUpTo(chunk, offset, done)
      invariant Encodes(sent, before + DataFrames(id, done))
      invariant AliveFor(alive, |before|, |before| + |done|)
    {
      var end := offset + MAX_PAYLOAD_BYTES;
      var slice := if end <= |chunk| then chunk[offset..end] else chunk[offset..];
      SliceNext(chunk, offset, done);
      ok, sent := TrySend(Frame(DATA, id, slice), sent, before + DataFrames(id, done), alive);
      if !ok {
        PartOfSlices(id, before, chunk, offset, done);
        CutHere(sent, before + DataFrames(id, done), all, |before|, alive);
        return;
      }
      DataFramesSnoc(id, done, slice);
      assert before + DataFrames(id, done) + [Frame(DATA, id, slice)] == before + DataFrames(id, done + [slice]);
      done := done + [slice];
      offset := end;
    }
    SlicedAll(chunk, offset, done);
    ok := true;
  }

  lemma NextSlice(chunk: Bytes, offset: nat)
    requires offset < |chunk|
    ensures var end := offset + MAX_PAYLOAD_BYTES;
            Slices(chunk[offset..]) == if end <= |chunk|
                then [chunk[offset..end]] + Slices(chunk[end..]) else [chunk[offset..]]
  {
    var end := offset + MAX_PAYLOAD_BYTES;
    if end <= |chunk| {
      assert chunk[offset..][..MAX_PAYLOAD_BYTES] == chunk[offset..end];
      assert chunk[offset..][MAX_PAYLOAD_BYTES..] == chunk[end..];
      if end == |chunk| { assert chunk[offset..] == chunk[offset..end] && chunk[end..] == []; }
    }
  }

  lemma {:induction false} BodySlicesPrefix(chunks: seq<Bytes>, k: nat)
    requires k <= |chunks|
    ensures BodySlices(chunks[..k]) <= BodySlices(chunks)
    decreases |chunks|
  {
    if k < |chunks| {
      var n := |chunks| - 1;
      BodySlicesPrefix(chunks[..n], k);
      assert chunks[..n][..k] == chunks[..k];
    } else {
      assert chunks[..k] == chunks;
    }
  }

  lemma PartOfBody(id: Uuid, before: seq<Frame>, chunks: seq<Bytes>, k: nat)
    requires k <= |chunks|
    ensures before + DataFrames(id, BodySlices(chunks[..k])) <= before + DataFrames(id, BodyPayloads(chunks))
  {
    BodySlicesPrefix(chunks, k);
    var part, all := BodySlices(chunks[..k]), BodyPayloads(chunks);
    assert all == part + all[|part|..];
    DataFramesAppend(id, part, all[|part|..]);
  }

  lemma NextChunk(id: Uuid, before: seq<Frame>, chunks: seq<Bytes>, k: nat)
    requires k < |chunks|
    ensures before + DataFrames(id, BodySlices(chunks[..k + 1])) ==
            before + DataFrames(id, BodySlices(chunks[..k])) + DataFrames(id, Slices(chunks[k]))
  {
    assert chunks[..k + 1][..k] == chunks[..k];
    DataFramesAppend(id, BodySlices(chunks[..k]), Slices(chunks[k]));
  }

  /** The chunks in slices, then the empty sentinel. */
  method SendBody(id: Uuid, chunks: seq<Bytes>, sent0: seq<Bytes>, ghost before: seq<Frame>, alive: nat -> bool)
    returns (ok: bool, sent: seq<Bytes>)
    requires Encodes(sent0, before)
    ensures var all := before + DataFrames(id, BodyPayloads(chunks));
            if ok then Encodes(sent, all) && AliveFor(alive, |before|, |all|) else CutShort(sent, all, |before|, alive)
  {
    ghost var all := before + DataFrames(id, BodyPayloads(chunks));
    ghost var done := before;
    ok, sent := true, sent0;
    assert done == before + DataFrames(id, BodySlices(chunks[..0]));
    for k := 0 to |chunks|
      invariant done == before + DataFrames(id, BodySlices(chunks[..k])) && Encodes(sent, done)
      invariant AliveFor(alive, |before|, |done|)
    {
      ok, sent := SendChunk(id, chunks[k], sent, done, alive);
      NextChunk(id, before, chunks, k);
      if !ok {
        PartOfBody(id, before, chunks, k + 1);
        CutLater(sent, done + DataFrames(id, Slices(chunks[k])), all, |before|, |done|, alive);
        return;
      }
      done := done + DataFrames(id, Slices(chunks[k]));
    }
    assert chunks[..|chunks|] == chunks;
    DataFramesSnoc(id, BodySlices(chunks), []);
    assert all == done + [Frame(DATA, id, [])];
    ok, sent := TrySend(Frame(DATA, id, []), sent, done, alive);
    if !ok { CutHere(sent, done, all, |before|, alive); }
  }

  /** How the relay's sending ends: all frames sent, 431 for oversized metadata, or 503 for a stale socket. */
  datatype SendStatus = Sent | HeadersTooLarge | ConnectionLost

  /** The whole request on the wire, or as much of it as the transport takes. */
  method SendRequest(id: Uuid, metadata: Bytes, chunks: seq<Bytes>,
                     alive: nat -> bool) returns (status: SendStatus, sent: seq<Bytes>)
    ensures status == HeadersTooLarge <==> |metadata| > 16384
    ensures status == HeadersTooLarge ==> sent == []
    ensures var frames := RequestFrames(id, metadata, chunks);
            && (status == Sent ==> Encodes(sent, frames) && AliveFor(alive, 0, |frames|))
            && (status == ConnectionLost ==> CutShort(sent, frames, 0, alive))
  {
    if |metadata| > METADATA_MAX_BYTES {
      return HeadersTooLarge, [];
    }
    ghost var opening := [Frame(OPEN, id, metadata)];
    ghost var frames := RequestFrames(id, metadata, chunks);
    sent := [];
    var ok;
    assert Encodes(sent, []) && [] + opening == opening;
    ok, sent := TrySend(Frame(OPEN, id, metadata), sent, [], alive);
    if !ok {
      CutHere(sent, [], frames, 0, alive);
      return ConnectionLost, sent;
    }
    ok, sent := SendBody(id, chunks, sent, opening, alive);
    if !ok {
      CutLater(sent, frames, frames, 0, 1, alive);
      return ConnectionLost, sent;
    }
    status := Sent;
  }
}
