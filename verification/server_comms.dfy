/** `ServerComms`: the length-prefixed framing spoken to the game server.
    A frame is one type byte, one length byte L and exactly L payload bytes
    (the payload being JSON text); L == 0 means "no payload". */
module ServerComms {
  import opened Types
  import opened Json
  import opened Chunks
  import Utf8

  /** One frame as it travels on the wire. */
  datatype Frame = Frame(msgType: Byte, body: seq<Byte>)

  /** The bytes of a frame whose body fits the one-byte length field. */
  function FrameBytes(f: Frame): (r: seq<Byte>)
    requires |f.body| < 256
    ensures |r| == 2 + |f.body|
  {
    [f.msgType, |f.body|] + f.body
  }

  /** The exceptions `bytearray.append` raises for a value outside 0..255. */
  datatype EncodeError = TypeOutOfRange(msgType: int) | LengthOutOfRange(length: nat)

  /** The failures of reading a message. */
  datatype ReadError =
    | ShortHeader      // `struct.unpack` on an empty `recv(1)`: the stream closed in the header
    | PayloadStalled   // the stream closed inside the payload: the source's read loop spins forever
    | MalformedPayload // the payload is not UTF-8 JSON text: `decode`/`json.loads` raise
    | NotAnObject      // the payload parsed to a non-object: tagging it raises `TypeError`

  /** The type byte `sendMessage` writes: the given type, or 0 when it is `None`. */
  function TypeByteOf(msgType: Option<int>): int {
    if msgType.Some? then msgType.value else 0
  }

  /** The buffer `sendMessage` builds for a type and the serialised payload
      `text` (the output of `json.dumps`, or `None` for no payload). The length
      byte is the payload's character count, the payload bytes its UTF-8 encoding. */
  function EncodeFrame(msgType: Option<int>, text: Option<string>): (r: Result<seq<Byte>, EncodeError>)
    ensures r.Success? <==> 0 <= TypeByteOf(msgType) < 256 && (text.Some? ==> |text.value| < 256)
    ensures !(0 <= TypeByteOf(msgType) < 256) ==> r == Failure(TypeOutOfRange(TypeByteOf(msgType)))
    ensures 0 <= TypeByteOf(msgType) < 256 && text.Some? && |text.value| >= 256 ==>
      r == Failure(LengthOutOfRange(|text.value|))
    ensures r.Success? ==> |r.value| >= 2 && r.value[0] == TypeByteOf(msgType)
    ensures r.Success? && text.None? ==> r.value == [TypeByteOf(msgType), 0]
    ensures r.Success? && text.Some? ==> r.value[1] == |text.value| && r.value[2..] == Utf8.Encode(text.value)
    ensures r.Success? && text.Some? && Utf8.IsAscii(text.value) ==> |r.value| == 2 + |text.value|
  {
    var t := TypeByteOf(msgType);
    if !(0 <= t < 256) then Failure(TypeOutOfRange(t))
    else match text
      case None => Success([t, 0])
      case Some(s) =>
        if |s| >= 256 then Failure(LengthOutOfRange(|s|))
        else
          Utf8.EncodedLengthIsCharCount(s);
          Success([t, |s|] + Utf8.Encode(s))
  }

  /** `sendMessage` against the outbound byte stream `wire`: the whole frame is
      appended and its size returned, or an error is raised before anything is
      written. */
  function SendMessage(wire: seq<Byte>, msgType: Option<int>, text: Option<string>): (r: (seq<Byte>, Result<nat, EncodeError>))
    ensures r.1.Failure? ==> r.0 == wire
    ensures r.1.Success? <==> EncodeFrame(msgType, text).Success?
    ensures r.1.Success? ==> |r.0| == |wire| + r.1.value && r.0[..|wire|] == wire
    ensures r.1.Success? ==> r.0[|wire|..] == EncodeFrame(msgType, text).value
    ensures r.1.Failure? ==> r.1.error == EncodeFrame(msgType, text).error
  {
    match EncodeFrame(msgType, text)
    case Failure(e) => (wire, Failure(e))
    case Success(frame) => (wire + frame, Success(|frame|))
  }

  /** Decoding a frame from the front of a flat byte sequence: the reference
      meaning of `readMessage`'s framing, independent of how the bytes arrive.
      On success it yields the frame and the number of bytes it occupies. */
  function ParseFrame(bytes: seq<Byte>): (r: Result<(Frame, nat), ReadError>)
    ensures r.Failure? <==> |bytes| < 2 || |bytes| < 2 + bytes[1] as int
    ensures r == Failure(ShortHeader) <==> |bytes| < 2
    ensures |bytes| >= 2 && r.Failure? ==> r.error == PayloadStalled
    ensures r.Success? ==> |r.value.0.body| < 256 && r.value.1 <= |bytes|
    ensures r.Success? ==> bytes[..r.value.1] == FrameBytes(r.value.0)
  {
    if |bytes| < 2 then Failure(ShortHeader)
    else
      var len: int := bytes[1];
      if |bytes| < 2 + len then Failure(PayloadStalled)
      else
        var f := Frame(bytes[0], bytes[2..2 + len]);
        assert bytes[..2 + len] == [bytes[0], bytes[1]] + bytes[2..2 + len];
        Success((f, 2 + len))
  }

  /** A frame decodes to itself and leaves whatever follows it untouched. */
  lemma FrameRoundTrip(f: Frame, rest: seq<Byte>)
    requires |f.body| < 256
    ensures ParseFrame(FrameBytes(f) + rest) == Success((f, 2 + |f.body|))
    ensures (FrameBytes(f) + rest)[2 + |f.body|..] == rest
  {
    var bytes := FrameBytes(f) + rest;
    assert bytes[2..2 + |f.body|] == f.body;
  }

  /** What `sendMessage` writes, `readMessage`'s framing reads back: the same
      type and the payload's bytes, consuming exactly `2 + |text|` bytes when
      the payload is ASCII text. */
  lemma EncodeParseRoundTrip(msgType: Option<int>, text: Option<string>, rest: seq<Byte>)
    requires EncodeFrame(msgType, text).Success?
    requires text.Some? ==> Utf8.IsAscii(text.value)
    ensures var frame := EncodeFrame(msgType, text).value;
      var body := if text.Some? then Utf8.Encode(text.value) else [];
      && ParseFrame(frame + rest) == Success((Frame(TypeByteOf(msgType), body), |frame|))
      && |frame| == 2 + |body|
      && (frame + rest)[|frame|..] == rest
  {
    var frame := EncodeFrame(msgType, text).value;
    var body := if text.Some? then Utf8.Encode(text.value) else [];
    if text.Some? {
      Utf8.EncodedLengthIsCharCount(text.value);
    }
    assert frame == FrameBytes(Frame(TypeByteOf(msgType), body));
    FrameRoundTrip(Frame(TypeByteOf(msgType), body), rest);
  }

  /** Without the ASCII guarantee the length byte undercounts the payload, so
      the reader stops inside it and the rest of the payload is taken for the
      next frame. */
  lemma NonAsciiPayloadMisframes(t: int, text: string, rest: seq<Byte>)
    requires 0 <= t < 256 && |text| < 256 && !Utf8.IsAscii(text)
    ensures var frame := EncodeFrame(Some(t), Some(text)).value;
      && frame[1] < |frame| - 2
      && ParseFrame(frame + rest).Success?
      && ParseFrame(frame + rest).value.1 < |frame|
  {
    Utf8.EncodedLengthIsCharCount(text);
  }

  /** Frames written back to back are read back one after the other, in order. */
  lemma ConsecutiveFrames(f1: Frame, f2: Frame, rest: seq<Byte>)
    requires |f1.body| < 256 && |f2.body| < 256
    ensures var bytes := FrameBytes(f1) + FrameBytes(f2) + rest;
      && ParseFrame(bytes) == Success((f1, |FrameBytes(f1)|))
      && ParseFrame(bytes[|FrameBytes(f1)|..]) == Success((f2, |FrameBytes(f2)|))
  {
    var bytes := FrameBytes(f1) + FrameBytes(f2) + rest;
    assert bytes == FrameBytes(f1) + (FrameBytes(f2) + rest);
    FrameRoundTrip(f1, FrameBytes(f2) + rest);
    FrameRoundTrip(f2, rest);
  }

  /** `readTolength`: keep calling `recv` for the bytes still missing until
      exactly `length` bytes are collected, skipping empty results. It succeeds
      exactly when the stream holds at least `length` bytes, returns the first
      `length` of them and leaves the rest in the stream. When the stream ends
      first, the source loops forever; that outcome is `PayloadStalled`. */
  method ReadToLength(s: Stream, length: nat) returns (r: Result<(seq<Byte>, Stream), ReadError>)
    ensures r.Success? <==> |Flatten(s)| >= length
    ensures r.Failure? ==> r.error == PayloadStalled
    ensures r.Success? ==> |r.value.0| == length && r.value.0 == Flatten(s)[..length]
    ensures r.Success? ==> Flatten(r.value.1) == Flatten(s)[length..]
    ensures r.Success? && WellFormed(s) ==> WellFormed(r.value.1)
  {
    var (data, cur) := Recv(s, length);
    while |data| < length
      invariant |data| <= length
      invariant data + Flatten(cur) == Flatten(s)
      invariant WellFormed(s) ==> WellFormed(cur)
      decreases length - |data|, |cur|
    {
      if cur == [] {
        return Failure(PayloadStalled);
      }
      var (buff, next) := Recv(cur, length - |data|);
      if buff != [] {
        data := data + buff;
      }
      cur := next;
    }
    assert Flatten(s) == data + Flatten(cur);
    return Success((data, cur));
  }

  /** `readMessage`'s framing over the live stream: `recv(1)` for the type,
      `recv(1)` for the length, then `readTolength` unless the length is 0.
      A frame it returns is exactly the bytes it consumed; and on a well-formed
      stream it decodes what `ParseFrame` decodes from the flattened bytes,
      however the bytes are split into chunks. */
  method ReadFrame(s: Stream) returns (r: Result<(Frame, Stream), ReadError>)
    ensures r.Success? ==> |r.value.0.body| < 256
    ensures r.Success? ==> Flatten(s) == FrameBytes(r.value.0) + Flatten(r.value.1)
    ensures WellFormed(s) ==> (r.Success? <==> ParseFrame(Flatten(s)).Success?)
    ensures WellFormed(s) && r.Failure? ==> r.error == ParseFrame(Flatten(s)).error
    ensures WellFormed(s) && r.Success? ==>
      r.value.0 == ParseFrame(Flatten(s)).value.0 && WellFormed(r.value.1)
  {
    var (typeRaw, s1) := Recv(s, 1);
    var (lenRaw, s2) := Recv(s1, 1);
    if |typeRaw| != 1 || |lenRaw| != 1 {
      assert WellFormed(s) ==> |Flatten(s)| < 2 by {
        if WellFormed(s) {
          if |typeRaw| != 1 {
            assert s == [];
          } else {
            assert s1 == [];
          }
        }
      }
      return Failure(ShortHeader);
    }
    var msgType := typeRaw[0];
    var len := lenRaw[0];
    assert Flatten(s) == [msgType, len] + Flatten(s2);
    if len == 0 {
      assert FrameBytes(Frame(msgType, [])) == Flatten(s)[..2];
      return Success((Frame(msgType, []), s2));
    }
    var payload := ReadToLength(s2, len);
    if payload.Failure? {
      assert |Flatten(s)| < 2 + len as int;
      return Failure(payload.error);
    }
    var (body, rest) := payload.value;
    assert Flatten(s2) == body + Flatten(rest);
    assert Flatten(s) == FrameBytes(Frame(msgType, body)) + Flatten(rest);
    return Success((Frame(msgType, body), rest));
  }

  /** `readMessage`'s result for a frame: the parsed payload object with the type
      code stored under "messageType" (overriding any payload field of that
      name), or only that field when there is no payload. `loads` stands for
      `json.loads(data.decode('utf-8'))`, `None` meaning it raised. */
  function ToMessage(f: Frame, loads: seq<Byte> -> Option<JsonValue>): (r: Result<Fields, ReadError>)
    ensures r.Success? ==> "messageType" in r.value && r.value["messageType"] == JNumber(f.msgType as real)
    ensures f.body == [] ==> r.Success? && r.value.Keys == {"messageType"}
    ensures f.body != [] ==> (r.Success? <==> loads(f.body).Some? && loads(f.body).value.JObject?)
    ensures f.body != [] && loads(f.body).None? ==> r == Failure(MalformedPayload)
    ensures f.body != [] && loads(f.body).Some? && !loads(f.body).value.JObject? ==> r == Failure(NotAnObject)
    ensures r.Success? && f.body != [] ==>
      var obj := loads(f.body).value.fields;
      && r.value.Keys == obj.Keys + {"messageType"}
      && forall k :: k in obj && k != "messageType" ==> r.value[k] == obj[k]
  {
    var tag := JNumber(f.msgType as real);
    if f.body == [] then Success(map["messageType" := tag])
    else match loads(f.body)
      case None => Failure(MalformedPayload)
      case Some(JObject(obj)) => Success(obj["messageType" := tag])
      case Some(_) => Failure(NotAnObject)
  }

  /** `readMessage` over flat bytes: the message and the bytes it occupies. */
  function DecodeMessage(bytes: seq<Byte>, loads: seq<Byte> -> Option<JsonValue>): (r: Result<(Fields, nat), ReadError>)
    ensures r.Success? ==> ParseFrame(bytes).Success? && r.value.1 == ParseFrame(bytes).value.1
    ensures r.Success? ==> "messageType" in r.value.0 && r.value.0["messageType"] == JNumber(bytes[0] as real)
    ensures ParseFrame(bytes).Failure? ==> r == Failure(ParseFrame(bytes).error)
    ensures ParseFrame(bytes).Success? ==>
      var m := ToMessage(ParseFrame(bytes).value.0, loads);
      && (r.Success? <==> m.Success?)
      && (r.Success? ==> r.value.0 == m.value)
      && (r.Failure? ==> r.error == m.error)
  {
    match ParseFrame(bytes)
    case Failure(e) => Failure(e)
    case Success((f, used)) =>
      match ToMessage(f, loads)
      case Failure(e) => Failure(e)
      case Success(m) => Success((m, used))
  }

  /** `readMessage` on the live stream: frame, then parse and tag. On a
      well-formed stream it returns what `DecodeMessage` gives for the
      flattened bytes and consumes exactly those bytes. */
  method ReadMessage(s: Stream, loads: seq<Byte> -> Option<JsonValue>) returns (r: Result<(Fields, Stream), ReadError>)
    ensures r.Success? ==> "messageType" in r.value.0
    ensures WellFormed(s) ==> (r.Success? <==> DecodeMessage(Flatten(s), loads).Success?)
    ensures WellFormed(s) && r.Failure? ==> r.error == DecodeMessage(Flatten(s), loads).error
    ensures WellFormed(s) && r.Success? ==>
      var d := DecodeMessage(Flatten(s), loads).value;
      && r.value.0 == d.0
      && Flatten(r.value.1) == Flatten(s)[d.1..]
      && WellFormed(r.value.1)
  {
    var frame := ReadFrame(s);
    if frame.Failure? {
      return Failure(frame.error);
    }
    var (f, rest) := frame.value;
    var m := ToMessage(f, loads);
    if m.Failure? {
      return Failure(m.error);
    }
    assert Flatten(s)[|FrameBytes(f)|..] == Flatten(rest);
    return Success((m.value, rest));
  }

  /** A message sent with a payload is received as that payload's object with
      the type under "messageType", occupying exactly `2 + |text|` bytes, given
      that the text is the ASCII JSON serialisation of that object. */
  lemma MessageRoundTrip(t: int, text: string, obj: Fields, loads: seq<Byte> -> Option<JsonValue>, rest: seq<Byte>)
    requires 0 <= t < 256 && 0 < |text| < 256 && Utf8.IsAscii(text)
    requires loads(Utf8.Encode(text)) == Some(JObject(obj))
    ensures var frame := EncodeFrame(Some(t), Some(text)).value;
      DecodeMessage(frame + rest, loads) == Success((obj["messageType" := JNumber(t as real)], 2 + |text|))
  {
    EncodeParseRoundTrip(Some(t), Some(text), rest);
  }

  /** A message sent without payload is received as the tag alone, and only
      its two header bytes are consumed. */
  lemma TagOnlyRoundTrip(msgType: Option<int>, loads: seq<Byte> -> Option<JsonValue>, rest: seq<Byte>)
    requires 0 <= TypeByteOf(msgType) < 256
    ensures var frame := EncodeFrame(msgType, None).value;
      DecodeMessage(frame + rest, loads) == Success((map["messageType" := JNumber(TypeByteOf(msgType) as real)], 2))
  {
    EncodeParseRoundTrip(msgType, None, rest);
  }

  /** The receiving side of a round trip over the live socket: the frame
      `sendMessage` wrote may arrive split into any chunks, followed by
      anything else; `ReadMessage` on such a stream returns what this lemma
      states, by its agreement with `DecodeMessage`. */
  lemma {:induction false} ChunkedMessageRoundTrip(t: int, text: string, obj: Fields,
                                                   loads: seq<Byte> -> Option<JsonValue>,
                                                   frameChunks: Stream, more: Stream)
    requires 0 <= t < 256 && 0 < |text| < 256 && Utf8.IsAscii(text)
    requires loads(Utf8.Encode(text)) == Some(JObject(obj))
    requires Flatten(frameChunks) == EncodeFrame(Some(t), Some(text)).value
    ensures DecodeMessage(Flatten(frameChunks + more), loads)
         == Success((obj["messageType" := JNumber(t as real)], 2 + |text|))
    ensures Flatten(frameChunks + more)[2 + |text|..] == Flatten(more)
  {
    var frame := EncodeFrame(Some(t), Some(text)).value;
    FlattenAppend(frameChunks, more);
    MessageRoundTrip(t, text, obj, loads, Flatten(more));
    EncodeParseRoundTrip(Some(t), Some(text), Flatten(more));
  }
}
