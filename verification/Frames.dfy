/** The binary frame of the tunnel: 1 type byte, 16 id bytes, a 4-byte big-endian length, the payload. */
module Frames {
  import opened Prelude

  const HEADER_SIZE := 21
  const MAX_PAYLOAD_BYTES := 65536

  datatype FrameType = OPEN | DATA | CLOSE | CANCEL | ERROR | PING | PONG | WS_OPEN | WS_DATA | WS_CLOSE

  /** A request id, as the 16 bytes it travels as. */
  type Uuid = u: Bytes | |u| == 16 witness [0, 0, 0, 0, 0, 0, 0, 0, 0, 0, 0, 0, 0, 0, 0, 0]

  datatype Frame = Frame(kind: FrameType, id: Uuid, payload: Bytes)

  datatype FrameError = FrameTooLarge | FrameTooShort | UnknownFrameType(typeByte: Byte) | LengthMismatch

  function TypeByte(k: FrameType): Byte {
    match k
    case OPEN => 1 case DATA => 2 case CLOSE => 3 case CANCEL => 4 case ERROR => 5
    case PING => 6 case PONG => 7 case WS_OPEN => 8 case WS_DATA => 9 case WS_CLOSE => 10
  }

  function TypeOfByte(b: Byte): Option<FrameType> {
    match b
    case 1 => Some(OPEN) case 2 => Some(DATA) case 3 => Some(CLOSE) case 4 => Some(CANCEL) case 5 => Some(ERROR)
    case 6 => Some(PING) case 7 => Some(PONG) case 8 => Some(WS_OPEN) case 9 => Some(WS_DATA) case 10 => Some(WS_CLOSE)
    case _ => None
  }

  /** struct.pack(">I", n) */
  function PackU32(n: nat): Bytes
    requires n < 0x1_0000_0000
  {
    [n / 0x100_0000, n / 0x1_0000 % 256, n / 256 % 256, n % 256]
  }

  function UnpackU32(b: Bytes): nat
    requires |b| == 4
  {
    (b[0] as int) * 0x100_0000 + (b[1] as int) * 0x1_0000 + (b[2] as int) * 256 + b[3] as int
  }

  lemma UnpackPack(n: nat)
    requires n < 0x1_0000_0000
    ensures UnpackU32(PackU32(n)) == n
  {
    var q1, q2, q3 := n / 256, n / 0x1_0000, n / 0x100_0000;
    assert n == 256 * q1 + n % 256;
    assert q2 == q1 / 256 && q1 == 256 * q2 + q1 % 256;
    assert q3 == q2 / 256 && q2 == 256 * q3 + q2 % 256;
  }

  lemma PackUnpack(b: Bytes)
    requires |b| == 4
    ensures UnpackU32(b) < 0x1_0000_0000 && PackU32(UnpackU32(b)) == b
  {
    var m := UnpackU32(b);
    var b0: int, b1: int, b2: int := b[0], b[1], b[2];
    assert m / 256 == b0 * 0x1_0000 + b1 * 256 + b2;
    assert m / 0x1_0000 == b0 * 256 + b1;
  }

  function Serialize(f: Frame): Result<Bytes, FrameError> {
    if |f.payload| > MAX_PAYLOAD_BYTES then Failure(FrameTooLarge)
    else Success([TypeByte(f.kind)] + f.id + PackU32(|f.payload|) + f.payload)
  }

  function Deserialize(data: Bytes): Result<Frame, FrameError> {
    if |data| < HEADER_SIZE then Failure(FrameTooShort)
    else
      var kind := TypeOfByte(data[0]);
      if kind.None? then Failure(UnknownFrameType(data[0]))
      else if |data[HEADER_SIZE..]| != UnpackU32(data[17..21]) then Failure(LengthMismatch)
      else Success(Frame(kind.value, data[1..17], data[HEADER_SIZE..]))
  }

  /** The wire format, byte by byte. */
  lemma WireLayout(f: Frame)
    requires |f.payload| <= 65536
    ensures Serialize(f).Success?
    ensures var data := Serialize(f).value;
            && |data| == 21 + |f.payload| && data[1..17] == f.id && data[21..] == f.payload
            && data[0] == (match f.kind
                           case OPEN => 0x01 case DATA => 0x02 case CLOSE => 0x03 case CANCEL => 0x04 case ERROR => 0x05
                           case PING => 0x06 case PONG => 0x07 case WS_OPEN => 0x08 case WS_DATA => 0x09
                           case WS_CLOSE => 0x0A)
            && |f.payload| ==
                 16777216 * data[17] as int + 65536 * data[18] as int + 256 * data[19] as int + data[20] as int
  {
    var n := PackU32(|f.payload|);
    var data := [TypeByte(f.kind)] + f.id + n + f.payload;
    UnpackPack(|f.payload|);
    assert data[17] == n[0] && data[18] == n[1] && data[19] == n[2] && data[20] == n[3];
    assert data[1..17] == f.id;
    assert data[21..] == f.payload;
  }

  /** Which byte strings are accepted, in terms of their bytes, and what is wrong with the others. */
  lemma AcceptedExactlyWhen(data: Bytes)
    ensures Deserialize(data).Success? <==>
            && |data| >= 21 && 1 <= data[0] <= 10
            && |data| - 21 ==
                 16777216 * data[17] as int + 65536 * data[18] as int + 256 * data[19] as int + data[20] as int
    ensures |data| < 21 ==> Deserialize(data) == Failure(FrameTooShort)
    ensures |data| >= 21 && !(1 <= data[0] <= 10) ==> Deserialize(data) == Failure(UnknownFrameType(data[0]))
    ensures Deserialize(data).Failure? && |data| >= 21 && 1 <= data[0] <= 10 ==>
            Deserialize(data) == Failure(LengthMismatch)
  {
    if |data| >= 21 {
      var b := data[17..21];
      assert b[0] == data[17] && b[1] == data[18] && b[2] == data[19] && b[3] == data[20];
    }
  }

  /** Deserialising undoes serialising, for every frame that can be serialised. */
  lemma DeserializeSerialize(f: Frame)
    ensures Serialize(f).Success? <==> |f.payload| <= MAX_PAYLOAD_BYTES
    ensures Serialize(f).Success? ==> Deserialize(Serialize(f).value) == Success(f)
  {
    if |f.payload| <= MAX_PAYLOAD_BYTES {
      var n := PackU32(|f.payload|);
      var data := [TypeByte(f.kind)] + f.id + n + f.payload;
      UnpackPack(|f.payload|);
      assert data[17..21] == n;
      assert data[1..17] == f.id;
      assert data[21..] == f.payload;
    }
  }

  /**
   Every accepted byte string is the encoding of the frame it yields, if and only if it is at most
   header plus 65536 bytes long: the receiver does not enforce the sender's limit.
   */
  lemma SerializeDeserialize(data: Bytes)
    requires Deserialize(data).Success?
    ensures Serialize(Deserialize(data).value) == Success(data) <==> |data| <= HEADER_SIZE + MAX_PAYLOAD_BYTES
  {
    var f := Deserialize(data).value;
    PackUnpack(data[17..21]);
    var again := [TypeByte(f.kind)] + f.id + PackU32(|f.payload|) + f.payload;
    assert again == data by {
      assert PackU32(|f.payload|) == data[17..21];
      assert data == data[..1] + data[1..17] + data[17..21] + data[21..];
    }
  }

  /** Such a byte string exists: a frame the receiver accepts although no sender can build it. */
  lemma ReceiverAcceptsOversize(id: Uuid)
    ensures exists data :: Deserialize(data).Success? && Serialize(Deserialize(data).value) == Failure(FrameTooLarge)
  {
    var n := MAX_PAYLOAD_BYTES + 1;
    var payload: Bytes := seq(n, _ => 0);
    var data := [2] + id + PackU32(n) + payload;
    UnpackPack(n);
    assert data[17..21] == PackU32(n);
    assert data[21..] == payload;
    assert Deserialize(data).Success?;
  }

  /** No two byte strings decode to the same frame. */
  lemma EncodingIsUnique(a: Bytes, b: Bytes)
    requires Deserialize(a).Success? && Deserialize(a) == Deserialize(b)
    ensures a == b
  {
    PackUnpack(a[17..21]);
    PackUnpack(b[17..21]);
    assert a[17..21] == b[17..21];
    assert a[..1] == b[..1];
    assert a == a[..1] + a[1..17] + a[17..21] + a[21..];
    assert b == b[..1] + b[1..17] + b[17..21] + b[21..];
  }

  // ---------------------------------------------------------------------------
  // WebSocket messages inside WS_DATA frames
  // ---------------------------------------------------------------------------

  datatype WsKind = TEXT | BINARY

  datatype WsError = EmptyPayload | UnknownMarker(marker: Byte)

  /** The marker byte, then the message bytes (UTF-8 for text). */
  function EncodeWsMessage(kind: WsKind, message: Bytes): Bytes {
    [if kind == TEXT then 0 else 1] + message
  }

  function DecodeWsMessage(payload: Bytes): Result<(WsKind, Bytes), WsError> {
    if payload == [] then Failure(EmptyPayload)
    else if payload[0] == 0 then Success((TEXT, payload[1..]))
    else if payload[0] == 1 then Success((BINARY, payload[1..]))
    else Failure(UnknownMarker(payload[0]))
  }

  /**
   A WebSocket message keeps its text or binary kind (section 5.6 of RFC 6455) and its bytes through
   encode, frame, deframe and decode, exactly when it is at most 65535 bytes long.
   */
  lemma WsMessageSurvives(kind: WsKind, message: Bytes, id: Uuid)
    ensures var sent := Serialize(Frame(WS_DATA, id, EncodeWsMessage(kind, message)));
            && (sent.Success? <==> |message| <= MAX_PAYLOAD_BYTES - 1)
            && (sent.Success? ==>
                  && Deserialize(sent.value).Success?
                  && Deserialize(sent.value).value.id == id
                  && DecodeWsMessage(Deserialize(sent.value).value.payload) == Success((kind, message)))
  {
    DeserializeSerialize(Frame(WS_DATA, id, EncodeWsMessage(kind, message)));
    assert EncodeWsMessage(kind, message)[1..] == message;
  }

  /** The marker byte: 0 for text, 1 for binary. */
  lemma MarkerLayout(message: Bytes)
    ensures EncodeWsMessage(TEXT, message) == [0x00] + message && EncodeWsMessage(BINARY, message) == [0x01] + message
  {
  }

  /** Decoding accepts only encodings: re-encoding gives the payload back. */
  lemma WsDecodeIsInverse(payload: Bytes)
    ensures DecodeWsMessage(payload).Success? <==> exists k, m :: payload == EncodeWsMessage(k, m)
    ensures DecodeWsMessage(payload).Success? ==>
              EncodeWsMessage(DecodeWsMessage(payload).value.0, DecodeWsMessage(payload).value.1) == payload
  {
    if DecodeWsMessage(payload).Success? {
      var (k, m) := DecodeWsMessage(payload).value;
      assert EncodeWsMessage(k, m) == payload;
    }
  }
}
