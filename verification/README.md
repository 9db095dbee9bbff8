# DYHTG19 game-server framing, modelled in Dafny

The bots of this repository talk to a tank-battle game server over TCP. Each
bot script carries its own copy of two classes. `ServerMessageTypes` holds
the 29 protocol codes and their printable names. `ServerComms` holds the
length-prefixed framing:

- a frame is one type byte, one length byte `L` and exactly `L` bytes of JSON text;
- `L == 0` means the frame has no payload.

The copies in `calum/shoot_if_see.py` (lines 15-159), `bots/shoot_if_see_multi.py`
(lines 14-157) and `bots/thread_try.py` (lines 14-157) are identical apart from
line offsets. There is one model of them, and the table below cites the `calum`
copy. `updateVars` from `bots/shoot_if_see_multi.py` is modelled as well.

Modules:

- `Types`: bytes (`Byte`, an integer in 0..255), `Option` and `Result`.
- `Utf8`: `str.encode`. The protocol's length byte is `len(messageString)`,
  a character count, and it is a correct byte count exactly when the text
  is ASCII. `json.dumps` only ever produces ASCII text under its default
  `ensure_ascii=True`.
- `MessageTypes`: the codes, the `strings` table and `toString`.
- `Json`: the values `json.loads` returns. A message is a map from field name to value.
- `Chunks`: the inbound socket, as the sequence of chunks `recv` delivers.
  - `Recv(s, n)` hands out at most `n` bytes of the head chunk.
  - An exhausted sequence is a closed connection, on which `recv` returns `b''` forever.
  - A well-formed stream has no empty chunk; a live TCP socket never returns one before end of stream.
- `ServerComms`, the framing:
  - `EncodeFrame` and `SendMessage` build and write the frame. The output is modelled as a byte sequence.
  - `ParseFrame` is the reference decoder over flat bytes.
  - `ReadToLength`, `ReadFrame` and `ReadMessage` follow the source's `recv` calls over a chunked stream. On a well-formed stream they are proved to agree with `ParseFrame`/`DecodeMessage` over the flattened bytes, however the bytes are split into chunks.
  - `ToMessage` tags the parsed payload with its type under `"messageType"`.
- `Bots`: `updateVars`.

Error outcomes follow the exceptions the source raises:

- `bytearray.append` raises for a type or length outside 0..255 before anything is sent (`EncodeError`).
- `struct.unpack` raises on an empty header `recv` (`ShortHeader`).
- `decode`/`json.loads` raise on bad text (`MalformedPayload`).
- Assigning into a non-object payload raises (`NotAnObject`).

When the connection closes inside a payload, `readTolength` loops forever:
`recv` keeps returning `b''` and the loop skips it. The model reports this
outcome as `PayloadStalled`.

## Model

| member | source | states |
|---|---|---|
| MessageTypes.ToString | calum/shoot_if_see.py:46-82 | total: the unknown marker "??UNKNOWN??" is returned exactly for ids outside 0..28; a known id gets its own table entry (id 9 gets the source's "TOGGLETURRENTRIGHT", id 13 "MOVEBACKWARDSDISTANCE") |
| MessageTypes.StringsCoverKnownIds | calum/shoot_if_see.py:46-76 | the `strings` table has an entry for exactly the ids 0..28 |
| MessageTypes.ToStringInjective | calum/shoot_if_see.py:46-76 | distinct protocol ids have distinct names |
| Utf8.Encode | calum/shoot_if_see.py:150 | `str.encode` yields at least one byte per character |
| Utf8.EncodedLengthIsCharCount | calum/shoot_if_see.py:148-150 | the UTF-8 byte count equals the character count if and only if the string is ASCII |
| Utf8.AsciiEncodesToCodePoints | calum/shoot_if_see.py:148-150 | an ASCII string encodes to its code points, one byte each |
| Chunks.FlattenAppend | calum/shoot_if_see.py:104-108 | the bytes of a stream do not depend on where one run of chunks ends and the next begins |
| Chunks.Recv | calum/shoot_if_see.py:104-106 | `recv(n)` returns at most `n` bytes, never loses or reorders bytes (returned bytes followed by the remaining stream are the original stream), returns something when data is available, and keeps a well-formed stream well-formed |
| ServerComms.EncodeFrame | calum/shoot_if_see.py:140-153 | succeeds iff the type (0 for `None`) and the payload's character count are both below 256, reporting the type error first and otherwise the length error; the first byte is the type; no payload gives exactly `[type, 0]`; otherwise the length byte is the character count, the payload is its UTF-8 encoding, and an ASCII payload gives a frame of `2 + |s|` bytes |
| ServerComms.SendMessage | calum/shoot_if_see.py:140-159 | on error nothing is written to the outbound stream; on success the stream is extended by exactly the encoded frame and its size is returned |
| ServerComms.ParseFrame | calum/shoot_if_see.py:115-124 | fails iff fewer than 2 header bytes (ShortHeader) or, with a complete header, fewer than `2 + L` bytes are available (PayloadStalled); a decoded frame is exactly the prefix of the input it consumed |
| ServerComms.FrameRoundTrip | calum/shoot_if_see.py:115-124 | a frame's bytes decode to that frame and the bytes after it are left untouched |
| ServerComms.EncodeParseRoundTrip | calum/shoot_if_see.py:115-153 | decoding what `sendMessage` writes recovers the type (0 for `None`) and the payload bytes, consuming exactly the frame's `2 + |payload|` bytes |
| ServerComms.NonAsciiPayloadMisframes | calum/shoot_if_see.py:147-150 | for non-ASCII text the length byte undercounts the payload, so the reader stops inside the frame |
| ServerComms.ConsecutiveFrames | calum/shoot_if_see.py:111-134 | two frames written back to back are decoded one after the other, in order |
| ServerComms.ReadToLength | calum/shoot_if_see.py:103-109 | succeeds iff the stream holds at least `length` bytes; then it returns exactly the first `length` bytes in order and leaves exactly the rest in the stream; otherwise it stalls; the loop never holds more than `length` bytes |
| ServerComms.ReadFrame | calum/shoot_if_see.py:115-124 | a returned frame is exactly the bytes consumed; on a well-formed stream it succeeds, fails and decodes exactly as `ParseFrame` does on the flattened bytes, whatever the chunking |
| ServerComms.ToMessage | calum/shoot_if_see.py:120-127 | every result carries "messageType" equal to the frame's type; a zero-length frame gives only that field; otherwise it succeeds iff the payload parses to an object, fails with MalformedPayload when parsing raises and with NotAnObject when it yields a non-object; all other fields are kept and a payload "messageType" is overridden |
| ServerComms.DecodeMessage | calum/shoot_if_see.py:111-134 | a decoded message occupies exactly the parsed frame's bytes and is tagged with the first byte; framing failures pass through unchanged; after a successful framing it succeeds, fails and yields exactly as `ToMessage` does |
| ServerComms.ReadMessage | calum/shoot_if_see.py:111-134 | on a well-formed stream it agrees with `DecodeMessage` on the flattened bytes and leaves exactly the bytes after the frame in the stream |
| ServerComms.MessageRoundTrip | calum/shoot_if_see.py:115-150 | sending an ASCII JSON payload and reading it back gives the payload object with the type under "messageType", consuming `2 + |text|` bytes |
| ServerComms.ChunkedMessageRoundTrip | calum/shoot_if_see.py:103-150 | a frame written by `sendMessage` and delivered in any split into chunks, followed by any further chunks, decodes to the payload object tagged with the type, and exactly the later chunks' bytes remain |
| ServerComms.TagOnlyRoundTrip | calum/shoot_if_see.py:120-153 | sending without payload and reading back gives only the type tag, consuming just the 2 header bytes |
| Bots.UpdateVars | bots/shoot_if_see_multi.py:186-193 | returns the X, Y and Heading fields only for a type-18 message whose Type is "Tank" and whose Name is the bot's name; with Python's short-circuit `and`: a wrong type gives `False` before Type is read, a Type other than "Tank" gives `False` before Name is read, a wrong Name gives `False` before X, Y or Heading are read; a missing messageType, Type or Name raises `KeyError` for that field when it is reached; a matching tank raises for the first of X, Y, Heading that is missing |
| Bots.OtherTypesAreIgnored | bots/shoot_if_see_multi.py:186-193 | on any message `readMessage` produces with a type other than 18, `updateVars` returns `False` (the tag is always present, so it never raises) |
| Bots.OwnTankUpdateIsFound | bots/shoot_if_see_multi.py:189-192 | an OBJECTUPDATE frame whose payload names the bot's own tank yields that payload's coordinates and heading |

## Left out

- Sockets (`socket`, `connect`, `recv`, `send`): the inbound stream is a chunk sequence and the outbound stream a byte sequence. `send` is assumed to write the whole buffer; a short write is not modelled.
- JSON: `json.dumps` is represented by its output text, passed to `EncodeFrame`. `json.loads` after UTF-8 decoding is a caller-supplied function. Round trips assume it inverts serialisation for the value at hand.
- ServerComms.ReadToLength: the source never returns when the connection closes inside a payload. The model returns `PayloadStalled` there instead of diverging.
- Bots.UpdateVars: Python's `True == 1` equality between booleans and numbers is not modelled. JSON numbers are reals.
- Logging, `binascii.hexlify`, the `toString` calls made only for logging, and `argparse` set-up: glue with no logic.
- `getheading`, `distance` and the heading comparisons use float trigonometry and are left out.
- The bot decision loops (`update`, `logic`), the `Tank` thread classes, `threading` and `time.sleep`: ad hoc heuristics and concurrency, not part of the framing.
