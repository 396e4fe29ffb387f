/** The wire format of src/protocol.rs: the v1 handshake and the frames of a WebSocket tunnel. */
module Protocol {
  import opened ByteStrings
  import opened Utf8
  import opened Endian

  const MAX_FRAME: nat := 8 * 1024 * 1024
  const MAX_WS_FRAME: nat := 8 * 1024 * 1024

  const TEXT: byte := 0x01
  const BINARY: byte := 0x02
  const CLOSE: byte := 0x08
  const PING: byte := 0x09
  const PONG: byte := 0x0A

  datatype WsFrame =
    | Text(text: Str)
    | Binary(data: Bytes)
    | Ping(data: Bytes)
    | Pong(data: Bytes)
    | Close(code: u16, reason: Str)

  /** How a byte stream stops: the writer finished it, or the connection was lost. */
  datatype End = Finished | Lost

  datatype Stream = Stream(bytes: Bytes, end: End)

  datatype Error =
    | Truncated
    | ConnectionLost
    | OutOfRange(len: nat)
    | TooBig(len: nat)
    | BadUtf8
    | UnknownKind(kind: byte)

  datatype ReadResult = Frame(frame: WsFrame, rest: Bytes) | Ended | Failed(error: Error)

  datatype Parsed<+T> = Ok(value: T) | Err(error: Error)

  newtype u8 = x: int | 0 <= x < 0x100

  /** A request. `ttl` is the number of relay hops it may still make. */
  datatype MeshPacket = MeshPacket(
    target: Bytes,
    verb: Bytes,
    path: Bytes,
    body: Bytes,
    headers: map<Bytes, Bytes>,
    ttl: u8,
    requestId: Bytes)

  // ---------------------------------------------------------------- frames as values

  function Kind(f: WsFrame): byte {
    match f
    case Text(_) => TEXT
    case Binary(_) => BINARY
    case Ping(_) => PING
    case Pong(_) => PONG
    case Close(_, _) => CLOSE
  }

  function Payload(f: WsFrame): Bytes {
    match f
    case Text(t) => t
    case Binary(d) => d
    case Ping(d) => d
    case Pong(d) => d
    case Close(code, reason) => BeBytes(code as nat, 2) + reason
  }

  /** Kind, the low 32 bits of the length, payload. No size is refused here. */
  function Encode(f: WsFrame): Bytes {
    [Kind(f)] + LeBytes(|Payload(f)|, 4) + Payload(f)
  }

  function Parse(kind: byte, payload: Bytes): Parsed<WsFrame> {
    if kind == TEXT then (if Valid(payload) then Ok(Text(payload)) else Err(BadUtf8))
    else if kind == BINARY then Ok(Binary(payload))
    else if kind == PING then Ok(Ping(payload))
    else if kind == PONG then Ok(Pong(payload))
    else if kind == CLOSE then
      if |payload| >= 2 then
        U16InRange(payload[..2]);
        LossyIsValid(payload[2..]);
        Ok(Close(BeValue(payload[..2]) as u16, Lossy(payload[2..])))
      else Ok(Close(1005, []))
    else Err(UnknownKind(kind))
  }

  function CutError(end: End): Error {
    if end == Finished then Truncated else ConnectionLost
  }

  /** One call of `read_from` on what is left of a stream. */
  function Decode(s: Stream): ReadResult {
    if |s.bytes| < 5 then (if s.end == Finished then Ended else Failed(ConnectionLost))
    else
      var len := LeValue(s.bytes[1..5]);
      if len > MAX_WS_FRAME then Failed(TooBig(len))
      else if |s.bytes| < 5 + len then Failed(CutError(s.end))
      else
        match Parse(s.bytes[0], s.bytes[5..5 + len])
        case Ok(f) => Frame(f, s.bytes[5 + len..])
        case Err(e) => Failed(e)
  }

  datatype Ending = CleanEnd | Broken(error: Error)

  /** Repeated reading: the frames before the stream stops, and how it stops. */
  function DecodeAll(s: Stream): (seq<WsFrame>, Ending)
    decreases |s.bytes|
  {
    match Decode(s)
    case Frame(f, rest) =>
      assert |rest| < |s.bytes|;
      var (fs, end) := DecodeAll(Stream(rest, s.end));
      ([f] + fs, end)
    case Ended => ([], CleanEnd)
    case Failed(e) => ([], Broken(e))
  }

  function Prepend(fs: seq<WsFrame>, r: (seq<WsFrame>, Ending)): (seq<WsFrame>, Ending) {
    (fs + r.0, r.1)
  }

  function Encodings(fs: seq<WsFrame>): (cs: seq<Bytes>)
    ensures |cs| == |fs| && forall i | 0 <= i < |fs| :: cs[i] == Encode(fs[i])
  {
    seq(|fs|, i requires 0 <= i < |fs| => Encode(fs[i]))
  }

  function EncodeAll(fs: seq<WsFrame>): Bytes {
    Flatten(Encodings(fs))
  }

  predicate Fits(f: WsFrame) { |Payload(f)| <= MAX_WS_FRAME }

  // ---------------------------------------------------------------- one frame

  lemma EncodeShape(f: WsFrame, rest: Bytes)
    ensures var b := Encode(f) + rest;
            |Encode(f)| == 5 + |Payload(f)| && b[0] == Kind(f) &&
            LeValue(b[1..5]) == |Payload(f)| % 0x1_0000_0000 &&
            b[5..5 + |Payload(f)|] == Payload(f) && b[5 + |Payload(f)|..] == rest
  {
    var n := |Payload(f)|;
    U32ReadsBack(n);
    assert (Encode(f) + rest)[1..5] == LeBytes(n, 4);
  }

  lemma ParseOfClose(code: u16, reason: Str)
    ensures Parse(CLOSE, BeBytes(code as nat, 2) + reason) == Ok(Close(code, reason))
  {
    var payload := BeBytes(code as nat, 2) + reason;
    U16ReadsBack(code as nat);
    LossyKeepsValid(reason);
    assert payload[..2] == BeBytes(code as nat, 2);
    assert payload[2..] == reason;
  }

  lemma ParseOfPayload(f: WsFrame)
    ensures Parse(Kind(f), Payload(f)) == Ok(f)
  {
    if f.Close? {
      ParseOfClose(f.code, f.reason);
    }
  }

  /** A parsed payload is never longer in the frame than on the wire, except where text was repaired. */
  lemma ParseKeepsData(kind: byte, payload: Bytes)
    requires Parse(kind, payload).Ok?
    ensures var f := Parse(kind, payload).value;
            Kind(f) == kind &&
            (Payload(f) == payload <==> !(kind == CLOSE && (|payload| < 2 || !Valid(payload[2..]))))
  {
    if kind == CLOSE && |payload| >= 2 {
      BeWritesBack(payload[..2]);
      LossyIsIdentityOnValid(payload[2..]);
      var f := Parse(kind, payload).value;
      assert Payload(f)[..2] == payload[..2] && Payload(f)[2..] == Lossy(payload[2..]);
      assert payload == payload[..2] + payload[2..];
    }
  }

  lemma FittingFrameReadsBack(f: WsFrame, rest: Bytes, end: End)
    requires Fits(f)
    ensures Decode(Stream(Encode(f) + rest, end)) == Frame(f, rest)
  {
    EncodeShape(f, rest);
    ParseOfPayload(f);
  }

  /** A frame reads back from any stream it starts exactly when its payload keeps the reader's limit. */
  lemma RoundTrip(f: WsFrame, rest: Bytes, end: End)
    ensures Decode(Stream(Encode(f) + rest, end)) == Frame(f, rest) <==> |Payload(f)| <= 8_388_608
  {
    if Fits(f) {
      FittingFrameReadsBack(f, rest, end);
    } else {
      var s := Stream(Encode(f) + rest, end);
      EncodeShape(f, rest);
      if Decode(s).Frame? {
        assert |Decode(s).rest| == |s.bytes| - 5 - LeValue(s.bytes[1..5]) > |rest|;
      }
    }
  }

  /** A frame above the limit but below 4 GiB makes the reader give up as soon as it has the header. */
  lemma OversizeIsRefused(f: WsFrame, rest: Bytes, end: End)
    requires MAX_WS_FRAME < |Payload(f)| < 0x1_0000_0000
    ensures Decode(Stream(Encode(f) + rest, end)) == Failed(TooBig(|Payload(f)|))
  {
    EncodeShape(f, rest);
  }

  /** Accepted bytes are the encoding of the accepted frame, except for a Close whose code is missing
      or whose reason had to be repaired. */
  lemma AcceptedBytesAreCanonical(s: Stream)
    requires Decode(s).Frame?
    ensures var len := LeValue(s.bytes[1..5]);
            Encode(Decode(s).frame) + Decode(s).rest == s.bytes <==>
            !(s.bytes[0] == CLOSE && (len < 2 || !Valid(s.bytes[7..5 + len])))
  {
    var len := LeValue(s.bytes[1..5]);
    var payload, rest := s.bytes[5..5 + len], Decode(s).rest;
    var f := Decode(s).frame;
    ParseKeepsData(s.bytes[0], payload);
    assert len >= 2 ==> payload[2..] == s.bytes[7..5 + len];
    Reassemble(s.bytes, len);
    if Encode(f) + rest == s.bytes {
      EncodeShape(f, rest);
      assert |Payload(f)| == len;
    }
  }

  lemma Reassemble(b: Bytes, len: nat)
    requires 5 + len <= |b| && LeValue(b[1..5]) == len
    ensures b == [b[0]] + LeBytes(len, 4) + b[5..5 + len] + b[5 + len..]
  {
    LeWritesBack(b[1..5]);
  }

  /** `Ok(None)` means fewer than five bytes were left and the writer had finished. */
  lemma EndedIff(s: Stream)
    ensures Decode(s) == Ended <==> |s.bytes| < 5 && s.end == Finished
  {
    if |s.bytes| >= 5 {
      assert Decode(s) != Ended;
    }
  }

  /** The comment at src/protocol.rs:224 promises `Ok(None)` only at a clean frame boundary, that is with
      nothing left. It is kept for exactly the streams that are not one to four stray bytes. */
  lemma CleanEndOnlyAtBoundaryIff(s: Stream)
    ensures (Decode(s) == Ended ==> s.bytes == []) <==> !(1 <= |s.bytes| <= 4 && s.end == Finished)
  {
    EndedIff(s);
  }

  lemma StrayByteLooksLikeCleanEnd()
    ensures Decode(Stream([TEXT], Finished)) == Ended
  {
    EndedIff(Stream([TEXT], Finished));
  }

  /** The layout on the wire, byte by byte: kind, length, payload; big-endian Close code. */
  lemma WireLayout()
    ensures Encode(Text([104, 105])) == [0x01, 2, 0, 0, 0, 104, 105]
    ensures Encode(Binary([7])) == [0x02, 1, 0, 0, 0, 7]
    ensures Encode(Ping([])) == [0x09, 0, 0, 0, 0] && Encode(Pong([])) == [0x0A, 0, 0, 0, 0]
    ensures Encode(Close(1009, [33])) == [0x08, 3, 0, 0, 0, 3, 241, 33]
  {
    assert Valid([105]) && Valid([104, 105]) by { assert [104, 105][1..] == [105] && [105][1..] == []; }
  }

  lemma ByteOrder()
    ensures LeBytes(0x0403_0201, 4) == [1, 2, 3, 4]
  {
    assert LeBytes(0x0403_0201, 4) == [1] + LeBytes(0x04_0302, 3);
    assert LeBytes(0x04_0302, 3) == [2] + LeBytes(0x0403, 2);
    assert LeBytes(0x0403, 2) == [3] + LeBytes(4, 1);
  }

  // ---------------------------------------------------------------- the reader's rules, byte by byte

  /** The number that four little-endian bytes stand for. */
  function Word(a: byte, b: byte, c: byte, d: byte): nat {
    a as nat + 256 * (b as nat) + 65_536 * (c as nat) + 16_777_216 * (d as nat)
  }

  lemma LeValueOfWord(a: byte, b: byte, c: byte, d: byte)
    ensures LeValue([a, b, c, d]) == Word(a, b, c, d)
  {
    assert [d][1..] == [] && LeValue([d]) == d as nat;
    assert [c, d][1..] == [d] && LeValue([c, d]) == c as nat + 256 * LeValue([d]);
    assert [b, c, d][1..] == [c, d] && LeValue([b, c, d]) == b as nat + 256 * LeValue([c, d]);
    assert [a, b, c, d][1..] == [b, c, d];
  }

  lemma BeValueOfTwo(a: byte, b: byte)
    ensures BeValue([a, b]) == 256 * (a as nat) + b as nat
  {
    assert [a][..0] == [] && BeValue([a]) == a as nat;
    assert [a, b][..1] == [a];
  }

  /** What is read behind a header that announces `n` bytes of a kind, of which `body` and perhaps more follow. */
  ghost predicate ReadAs(kind: byte, payload: Bytes, rest: Bytes, res: ReadResult) {
    match kind
    case 1 => res == if Valid(payload) then Frame(Text(payload), rest) else Failed(BadUtf8)
    case 2 => res == Frame(Binary(payload), rest)
    case 9 => res == Frame(Ping(payload), rest)
    case 10 => res == Frame(Pong(payload), rest)
    case 8 =>
      if |payload| < 2 then res == Frame(Close(1005, []), rest)
      else res.Frame? && res.rest == rest && res.frame.Close? &&
           res.frame.code as nat == 256 * (payload[0] as nat) + payload[1] as nat &&
           res.frame.reason == Lossy(payload[2..])
    case _ => res == Failed(UnknownKind(kind))
  }

  lemma ParsedAs(kind: byte, payload: Bytes, rest: Bytes)
    ensures ReadAs(kind, payload, rest,
                   match Parse(kind, payload) case Ok(f) => Frame(f, rest) case Err(e) => Failed(e))
  {
    if kind == 8 && |payload| >= 2 {
      assert payload[..2] == [payload[0], payload[1]];
      BeValueOfTwo(payload[0], payload[1]);
    }
  }

  /** The reader's rules in terms of the bytes: too long, cut off, or read by its kind. */
  lemma ReaderRules(kind: byte, a: byte, b: byte, c: byte, d: byte, body: Bytes, end: End)
    ensures var n, res := Word(a, b, c, d), Decode(Stream([kind, a, b, c, d] + body, end));
            if n > 8_388_608 then res == Failed(TooBig(n))
            else if |body| < n then res == Failed(if end.Finished? then Truncated else ConnectionLost)
            else ReadAs(kind, body[..n], body[n..], res)
  {
    var n, bytes := Word(a, b, c, d), [kind, a, b, c, d] + body;
    assert bytes[1..5] == [a, b, c, d];
    LeValueOfWord(a, b, c, d);
    if n <= |body| {
      assert bytes[5..5 + n] == body[..n] && bytes[5 + n..] == body[n..];
      ParsedAs(kind, body[..n], body[n..]);
    }
  }

  /** Fewer than five bytes are no header. */
  lemma ShortHeaderRules(s: Stream)
    requires |s.bytes| < 5
    ensures Decode(s) == if s.end.Finished? then Ended else Failed(ConnectionLost)
  {
  }

  /** A Close without a code, or with half of one, is read as code 1005 (section 7.1.5 of RFC 6455). */
  lemma BareCloseReadsAs1005(payload: Bytes, rest: Bytes, end: End)
    requires |payload| <= 1
    ensures Decode(Stream([8, |payload| as byte, 0, 0, 0] + (payload + rest), end)) == Frame(Close(1005, []), rest)
  {
    ReaderRules(8, |payload| as byte, 0, 0, 0, payload + rest, end);
    assert (payload + rest)[..|payload|] == payload && (payload + rest)[|payload|..] == rest;
  }

  lemma LeBytesOfWord(n: nat)
    ensures LeBytes(n, 4) == [(n % 256) as byte, (n / 256 % 256) as byte, (n / 65_536 % 256) as byte,
                               (n / 16_777_216 % 256) as byte]
  {
    var x, y, z := n / 256, n / 65_536, n / 16_777_216;
    assert x / 256 == y && y / 256 == z;
    assert LeBytes(n, 4) == [(n % 256) as byte] + LeBytes(x, 3);
    assert LeBytes(x, 3) == [(x % 256) as byte] + LeBytes(y, 2);
    assert LeBytes(y, 2) == [(y % 256) as byte] + LeBytes(z, 1);
    assert LeBytes(z, 1) == [(z % 256) as byte] + LeBytes(z / 256, 0);
  }

  /** The kind byte and four length bytes in front of a payload. */
  function Header(kind: byte, n: nat): Bytes {
    [kind, (n % 256) as byte, (n / 256 % 256) as byte, (n / 65_536 % 256) as byte, (n / 16_777_216 % 256) as byte]
  }

  /** The writer's rules in terms of the bytes. */
  lemma WriterRules(f: WsFrame)
    ensures f.Text? ==> Encode(f) == Header(1, |f.text|) + f.text
    ensures f.Binary? ==> Encode(f) == Header(2, |f.data|) + f.data
    ensures f.Ping? ==> Encode(f) == Header(9, |f.data|) + f.data
    ensures f.Pong? ==> Encode(f) == Header(10, |f.data|) + f.data
    ensures f.Close? ==> Encode(f) == Header(8, 2 + |f.reason|) +
                                      [(f.code as nat / 256) as byte, (f.code as nat % 256) as byte] + f.reason
  {
    var n := |Payload(f)|;
    LeBytesOfWord(n);
    assert Encode(f) == Header(Kind(f), n) + Payload(f);
    if f.Close? {
      BeBytesOfTwo(f.code as nat);
      Associative(Header(8, n), [(f.code as nat / 256) as byte, (f.code as nat % 256) as byte], f.reason);
    }
  }

  lemma BeBytesOfTwo(n: nat)
    requires n < 0x1_0000
    ensures BeBytes(n, 2) == [(n / 256) as byte, (n % 256) as byte]
  {
    assert BeBytes(n, 2) == BeBytes(n / 256, 1) + [(n % 256) as byte];
    assert BeBytes(n / 256, 1) == BeBytes(n / 256 / 256, 0) + [(n / 256 % 256) as byte];
  }

  // ---------------------------------------------------------------- whole streams

  lemma EncodeAllHead(fs: seq<WsFrame>, rest: Bytes)
    requires fs != []
    ensures EncodeAll(fs) + rest == Encode(fs[0]) + (EncodeAll(fs[1..]) + rest)
  {
    assert Encodings(fs)[1..] == Encodings(fs[1..]);
  }

  lemma NothingInFront(rest: Bytes, r: (seq<WsFrame>, Ending))
    ensures EncodeAll([]) + rest == rest && Prepend([], r) == r
  {
    assert [] + r.0 == r.0;
  }

  lemma PrependTwice(fs: seq<WsFrame>, r: (seq<WsFrame>, Ending))
    requires fs != []
    ensures Prepend([fs[0]], Prepend(fs[1..], r)) == Prepend(fs, r)
  {
    assert [fs[0]] + (fs[1..] + r.0) == fs + r.0;
  }

  lemma DecodeAllStep(f: WsFrame, rest: Bytes, end: End)
    requires Fits(f)
    ensures DecodeAll(Stream(Encode(f) + rest, end)) == Prepend([f], DecodeAll(Stream(rest, end)))
  {
    FittingFrameReadsBack(f, rest, end);
  }

  /** Frames in front of a stream are read first, and reading goes on with the rest as if it were alone. */
  lemma {:induction false} ReadsThrough(fs: seq<WsFrame>, rest: Bytes, end: End)
    requires forall f | f in fs :: Fits(f)
    ensures DecodeAll(Stream(EncodeAll(fs) + rest, end)) == Prepend(fs, DecodeAll(Stream(rest, end)))
  {
    if fs == [] {
      NothingInFront(rest, DecodeAll(Stream(rest, end)));
    } else {
      var tail := EncodeAll(fs[1..]) + rest;
      EncodeAllHead(fs, rest);
      DecodeAllStep(fs[0], tail, end);
      ReadsThrough(fs[1..], rest, end);
      PrependTwice(fs, DecodeAll(Stream(rest, end)));
    }
  }

  lemma CutHeader(b: Bytes, k: nat)
    requires 5 <= k <= |b|
    ensures b[..k][1..5] == b[1..5]
  {
  }

  /** A frame cut anywhere before its end yields no frame. */
  lemma CutFrame(f: WsFrame, k: nat, end: End)
    requires Fits(f) && k < |Encode(f)|
    ensures Decode(Stream(Encode(f)[..k], end)) ==
            if end == Finished && k < 5 then Ended else Failed(CutError(end))
  {
    EncodeShape(f, []);
    assert Encode(f) + [] == Encode(f);
    if k >= 5 {
      CutHeader(Encode(f), k);
    }
  }

  /** Truncation safety: any prefix of an encoded stream delivers exactly its whole frames. It ends
      cleanly iff the stream was finished with fewer than five bytes left over. */
  lemma Truncation(fs: seq<WsFrame>, k: nat, end: End)
    requires forall f | f in fs :: Fits(f)
    requires k <= |EncodeAll(fs)|
    ensures var m := WholeChunks(Encodings(fs), k);
            var left := k - |EncodeAll(fs[..m])|;
            0 <= left && (m < |fs| ==> left < |Encode(fs[m])|) &&
            DecodeAll(Stream(EncodeAll(fs)[..k], end)) ==
            (fs[..m], if end == Finished && left < 5 then CleanEnd else Broken(CutError(end)))
  {
    var m := WholeChunks(Encodings(fs), k);
    var cut := CutPoint(Encodings(fs), k);
    assert Encodings(fs)[..m] == Encodings(fs[..m]);
    ReadsThrough(fs[..m], cut, end);
    if m < |fs| {
      CutFrame(fs[m], |cut|, end);
    }
    assert fs[..m] + [] == fs[..m];
  }

  lemma ParsedLength(kind: byte, payload: Bytes)
    requires Parse(kind, payload).Ok?
    ensures |Payload(Parse(kind, payload).value)| <= 2 + 3 * |payload|
  {
    if kind == CLOSE && |payload| >= 2 {
      LossyLength(payload[2..]);
    }
  }

  lemma DecodedLength(s: Stream)
    requires Decode(s).Frame?
    ensures |Payload(Decode(s).frame)| <= 2 + 3 * MAX_WS_FRAME
  {
    var len := LeValue(s.bytes[1..5]);
    ParsedLength(s.bytes[0], s.bytes[5..5 + len]);
  }

  /** Whatever the reader makes of an oversize frame, it is not that frame. */
  lemma OversizeNeverReadsBack(f: WsFrame, rest: Bytes, end: End)
    requires !Fits(f)
    ensures Decode(Stream(Encode(f) + rest, end)).Frame? ==> Decode(Stream(Encode(f) + rest, end)).frame != f
  {
    if |Payload(f)| < 0x1_0000_0000 {
      OversizeIsRefused(f, rest, end);
    } else if Decode(Stream(Encode(f) + rest, end)).Frame? {
      DecodedLength(Stream(Encode(f) + rest, end));
    }
  }

  /** Frames in front of a stream read back, in order and unchanged, exactly when each of them fits. */
  lemma {:induction false} FramesReadBackIff(fs: seq<WsFrame>, rest: Bytes, end: End)
    ensures fs <= DecodeAll(Stream(EncodeAll(fs) + rest, end)).0 <==> forall f | f in fs :: Fits(f)
  {
    if forall f | f in fs :: Fits(f) {
      ReadsThrough(fs, rest, end);
    } else {
      SomeFrameIsLost(fs, rest, end);
    }
  }

  lemma PrefixParts<T>(a: seq<T>, b: seq<T>)
    requires a != []
    ensures a <= b ==> b != [] && a[0] == b[0] && a[1..] <= b[1..]
  {
  }

  lemma {:induction false} SomeFrameIsLost(fs: seq<WsFrame>, rest: Bytes, end: End)
    requires exists f | f in fs :: !Fits(f)
    ensures !(fs <= DecodeAll(Stream(EncodeAll(fs) + rest, end)).0)
  {
    var tail := EncodeAll(fs[1..]) + rest;
    var got := DecodeAll(Stream(Encode(fs[0]) + tail, end)).0;
    EncodeAllHead(fs, rest);
    if Fits(fs[0]) {
      SomeFrameIsLost(fs[1..], rest, end);
      DecodeAllStep(fs[0], tail, end);
      assert got[1..] == DecodeAll(Stream(tail, end)).0;
    } else {
      OversizeNeverReadsBack(fs[0], tail, end);
    }
    PrefixParts(fs, got);
  }

  /** The whole frames before a cut are read back exactly when each of them fits. */
  lemma WholeFramesReadBackIff(fs: seq<WsFrame>, k: nat, end: End)
    requires k <= |EncodeAll(fs)|
    ensures var whole := fs[..WholeChunks(Encodings(fs), k)];
            whole <= DecodeAll(Stream(EncodeAll(fs)[..k], end)).0 <==> forall f | f in whole :: Fits(f)
  {
    var m := WholeChunks(Encodings(fs), k);
    var cut := CutPoint(Encodings(fs), k);
    assert Encodings(fs)[..m] == Encodings(fs[..m]);
    FramesReadBackIff(fs[..m], cut, end);
  }

  /** Two frame sequences with the same bytes are the same sequence. */
  lemma EncodeAllInjective(fs: seq<WsFrame>, gs: seq<WsFrame>)
    requires forall f | f in fs + gs :: Fits(f)
    requires EncodeAll(fs) == EncodeAll(gs)
    ensures fs == gs
  {
    forall f | f in fs || f in gs ensures Fits(f) { assert f in fs + gs; }
    ReadsThrough(fs, [], Finished);
    ReadsThrough(gs, [], Finished);
    assert EncodeAll(fs) + [] == EncodeAll(gs) + [];
    assert fs + [] == fs && gs + [] == gs;
  }

  /** An oversize frame hides everything after it. */
  lemma OversizeStopsReading(fs: seq<WsFrame>, big: WsFrame, rest: Bytes, end: End)
    requires forall f | f in fs :: Fits(f)
    requires MAX_WS_FRAME < |Payload(big)| < 0x1_0000_0000
    ensures DecodeAll(Stream(EncodeAll(fs) + (Encode(big) + rest), end)) ==
            (fs, Broken(TooBig(|Payload(big)|)))
  {
    ReadsThrough(fs, Encode(big) + rest, end);
    OversizeIsRefused(big, rest, end);
    assert fs + [] == fs;
  }

  // ---------------------------------------------------------------- the handshake

  function HandshakeBytes(json: Bytes): Parsed<Bytes> {
    if |json| > MAX_FRAME then Err(TooBig(|json|)) else Ok(LeBytes(|json|, 4) + json)
  }

  /** One call of `read_handshake_v1`: the JSON bytes and what is left of the stream. */
  function ReadHandshake(s: Stream): Parsed<(Bytes, Bytes)> {
    if |s.bytes| < 4 then Err(CutError(s.end))
    else
      var len := LeValue(s.bytes[..4]);
      if len == 0 || len > MAX_FRAME then Err(OutOfRange(len))
      else if |s.bytes| < 4 + len then Err(CutError(s.end))
      else Ok((s.bytes[4..4 + len], s.bytes[4 + len..]))
  }

  /** The rules of the handshake in terms of the bytes. */
  lemma HandshakeRules(a: byte, b: byte, c: byte, d: byte, body: Bytes, end: End)
    ensures var n, res := Word(a, b, c, d), ReadHandshake(Stream([a, b, c, d] + body, end));
            if n == 0 || n > 8_388_608 then res == Err(OutOfRange(n))
            else if |body| < n then res == Err(if end.Finished? then Truncated else ConnectionLost)
            else res == Ok((body[..n], body[n..]))
    ensures forall s: Stream | |s.bytes| < 4 ::
              ReadHandshake(s) == Err(if s.end.Finished? then Truncated else ConnectionLost)
    ensures HandshakeBytes(body) ==
            if |body| > 8_388_608 then Err(TooBig(|body|)) else Ok(Header(0, |body|)[1..] + body)
  {
    var n, bytes := Word(a, b, c, d), [a, b, c, d] + body;
    assert bytes[..4] == [a, b, c, d];
    LeValueOfWord(a, b, c, d);
    LeBytesOfWord(|body|);
    if n <= |body| {
      assert bytes[4..4 + n] == body[..n] && bytes[4 + n..] == body[n..];
    }
  }

  lemma ReadHandshakeParts(len: Bytes, json: Bytes, rest: Bytes, end: End)
    requires |len| == 4 && LeValue(len) == |json| <= MAX_FRAME
    ensures ReadHandshake(Stream(len + json + rest, end)) ==
            if json == [] then Err(OutOfRange(0)) else Ok((json, rest))
  {
    ThreeParts(len, json, rest);
  }

  /** What the writer accepts the reader gives back, unless it is the empty string the reader refuses. */
  lemma HandshakeRoundTrip(json: Bytes, rest: Bytes, end: End)
    requires HandshakeBytes(json).Ok?
    ensures ReadHandshake(Stream(HandshakeBytes(json).value + rest, end)) ==
            if json == [] then Err(OutOfRange(0)) else Ok((json, rest))
  {
    U32ReadsBack(|json|);
    ReadHandshakeParts(LeBytes(|json|, 4), json, rest, end);
  }

  /** A stream cut inside the handshake is an error; cut behind it, the handshake is read and the cut
      only shows in what follows. */
  lemma HandshakeTruncation(json: Bytes, rest: Bytes, k: nat, end: End)
    requires 1 <= |json| <= MAX_FRAME && k <= 4 + |json| + |rest|
    ensures |HandshakeBytes(json).value + rest| == 4 + |json| + |rest|
    ensures ReadHandshake(Stream((HandshakeBytes(json).value + rest)[..k], end)) ==
            if k < 4 + |json| then Err(CutError(end)) else Ok((json, rest[..k - 4 - |json|]))
  {
    var len := LeBytes(|json|, 4);
    var whole := len + json + rest;
    U32ReadsBack(|json|);
    if k >= 4 + |json| {
      assert whole[..k] == len + json + rest[..k - 4 - |json|];
      ReadHandshakeParts(len, json, rest[..k - 4 - |json|], end);
    } else if k >= 4 {
      assert whole[..k][..4] == len;
    }
  }

  /** Demarcation: one stream carries the handshake and then any frames, and the reader recovers both. */
  lemma StreamDemarcation(json: Bytes, fs: seq<WsFrame>)
    requires 1 <= |json| <= MAX_FRAME
    requires forall f | f in fs :: Fits(f)
    ensures var s := Stream(HandshakeBytes(json).value + EncodeAll(fs), Finished);
            ReadHandshake(s).Ok? && ReadHandshake(s).value.0 == json &&
            DecodeAll(Stream(ReadHandshake(s).value.1, Finished)) == (fs, CleanEnd)
  {
    HandshakeRoundTrip(json, EncodeAll(fs), Finished);
    ReadsThrough(fs, [], Finished);
    assert EncodeAll(fs) + [] == EncodeAll(fs);
    assert fs + [] == fs;
  }

  // ---------------------------------------------------------------- signed responses

  /** `SignedResponse::canonical_bytes`: request id, status and time of fixed width, body. */
  function ResponseCanonical(requestId: Bytes, status: u16, signedAt: u64, body: Bytes): Bytes {
    requestId + [PIPE] + (BeBytes(status as nat, 2) + [PIPE] + BeBytes(signedAt as nat, 8) + [PIPE] + body)
  }

  /** They determine what was signed, although status and time are raw bytes that may look like bars. */
  lemma ResponseCanonicalInjective(id: Bytes, status: u16, at: u64, body: Bytes, id': Bytes, status': u16, at': u64,
                                   body': Bytes)
    requires PIPE !in id && PIPE !in id'
    ensures ResponseCanonical(id, status, at, body) == ResponseCanonical(id', status', at', body') <==>
            id == id' && status == status' && at == at' && body == body'
  {
    if ResponseCanonical(id, status, at, body) == ResponseCanonical(id', status', at', body') {
      var t := BeBytes(status as nat, 2) + [PIPE] + BeBytes(at as nat, 8) + [PIPE] + body;
      var t' := BeBytes(status' as nat, 2) + [PIPE] + BeBytes(at' as nat, 8) + [PIPE] + body';
      SplitUnique(id, t, id', t', PIPE);
      assert t[..2] == BeBytes(status as nat, 2) && t[3..11] == BeBytes(at as nat, 8) && t[12..] == body;
      assert t'[..2] == BeBytes(status' as nat, 2) && t'[3..11] == BeBytes(at' as nat, 8) && t'[12..] == body';
      U16ReadsBack(status as nat);
      U16ReadsBack(status' as nat);
      U64ReadsBack(at as nat);
      U64ReadsBack(at' as nat);
    }
  }

  /** The order and the widths of the fields. */
  lemma ResponseLayout(id: Bytes, status: u16, at: u64, body: Bytes) returns (s: Bytes, t: Bytes)
    ensures ResponseCanonical(id, status, at, body) == id + [124] + s + [124] + t + [124] + body
    ensures |s| == 2 && BeValue(s) == status as nat && |t| == 8 && BeValue(t) == at as nat
  {
    s, t := BeBytes(status as nat, 2), BeBytes(at as nat, 8);
    U16ReadsBack(status as nat);
    U64ReadsBack(at as nat);
  }

  method ResponseCanonicalBytes(requestId: Bytes, status: u16, signedAt: u64, body: Bytes) returns (m: Bytes)
    ensures m == ResponseCanonical(requestId, status, signedAt, body)
  {
    m := requestId;
    m := m + [PIPE];
    var b := ToBe(status as nat, 2);
    m := m + b[..];
    m := m + [PIPE];
    b := ToBe(signedAt as nat, 8);
    m := m + b[..];
    m := m + [PIPE];
    m := m + body;
  }

  // ---------------------------------------------------------------- the code that moves the bytes

  datatype IoResult = Filled | UnexpectedEof | Reset

  function ReadAll(s: Stream, limit: nat): Parsed<Bytes> {
    if |s.bytes| > limit then Err(TooBig(|s.bytes|))
    else if s.end == Finished then Ok(s.bytes)
    else Err(ConnectionLost)
  }

  /** The receiving side of a stream, as `AsyncRead` offers it. */
  class Reader {
    const bytes: Bytes
    const end: End
    var pos: nat

    predicate Valid()
      reads this
    {
      pos <= |bytes|
    }

    function Rest(): Stream
      reads this
      requires Valid()
    {
      Stream(bytes[pos..], end)
    }

    constructor (s: Stream)
      ensures Valid() && Rest() == s
    {
      bytes, end, pos := s.bytes, s.end, 0;
    }

    /** Fills the buffer from the stream, or uses the stream up and says why it could not. */
    method ReadExact(buf: array<byte>) returns (r: IoResult)
      requires Valid()
      modifies this, buf
      ensures Valid()
      ensures var have := old(Rest().bytes);
              if |have| >= buf.Length
              then r == Filled && buf[..] == have[..buf.Length] && Rest().bytes == have[buf.Length..]
              else r == (if end == Finished then UnexpectedEof else Reset) && Rest().bytes == []
    {
      var i := 0;
      while i < buf.Length && pos < |bytes|
        invariant 0 <= i <= buf.Length && pos <= |bytes| && pos == old(pos) + i
        invariant buf[..i] == bytes[old(pos)..pos]
      {
        buf[i] := bytes[pos];
        i, pos := i + 1, pos + 1;
      }
      if i == buf.Length {
        assert buf[..] == buf[..i];
        r := Filled;
      } else {
        r := if end == Finished then UnexpectedEof else Reset;
      }
    }

    /** Takes everything up to the end of a stream that finishes within the limit. */
    method ReadToEnd(limit: nat) returns (res: Parsed<Bytes>)
      requires Valid()
      modifies this
      ensures Valid()
      ensures res == ReadAll(old(Rest()), limit)
      ensures res.Ok? ==> Rest().bytes == []
    {
      if |bytes| - pos > limit {
        return Err(TooBig(|bytes| - pos));
      }
      res := if end == Finished then Ok(bytes[pos..]) else Err(ConnectionLost);
      pos := |bytes|;
    }
  }

  function IoError(r: IoResult): Error {
    if r == Reset then ConnectionLost else Truncated
  }

  /** The sending side: what has been written so far. */
  class Writer {
    var sent: Bytes

    constructor ()
      ensures sent == []
    {
      sent := [];
    }

    method WriteAll(b: Bytes)
      modifies this
      ensures sent == old(sent) + b
    {
      sent := sent + b;
    }
  }

  method EncodeFrame(f: WsFrame) returns (out: Bytes)
    ensures out == Encode(f)
  {
    var kind, payload: Bytes := 0, [];
    match f {
      case Text(t) => kind, payload := TEXT, t;
      case Binary(d) => kind, payload := BINARY, d;
      case Ping(d) => kind, payload := PING, d;
      case Pong(d) => kind, payload := PONG, d;
      case Close(code, reason) =>
        var buf := ToBe(code as nat, 2);
        kind, payload := CLOSE, buf[..];
        payload := payload + reason;
    }
    var len := ToLe(|payload|, 4);
    out := [kind];
    out := out + len[..];
    out := out + payload;
  }

  method ParsePayload(kind: byte, payload: array<byte>) returns (res: Parsed<WsFrame>)
    ensures res == Parse(kind, payload[..])
  {
    if kind == TEXT {
      res := if Valid(payload[..]) then Ok(Text(payload[..])) else Err(BadUtf8);
    } else if kind == BINARY {
      res := Ok(Binary(payload[..]));
    } else if kind == PING {
      res := Ok(Ping(payload[..]));
    } else if kind == PONG {
      res := Ok(Pong(payload[..]));
    } else if kind == CLOSE {
      if payload.Length >= 2 {
        var codeBytes := new byte[] [payload[0], payload[1]];
        assert codeBytes[..] == payload[..][..2];
        var code := FromBe(codeBytes);
        U16InRange(codeBytes[..]);
        var reason := Lossy(payload[2..]);
        LossyIsValid(payload[2..]);
        assert payload[..][2..] == payload[2..];
        res := Ok(Close(code as u16, reason));
      } else {
        res := Ok(Close(1005, []));
      }
    } else {
      res := Err(UnknownKind(kind));
    }
  }

  /** Reads one frame, or says that the stream ended or why it is broken; after a frame the reader
      stands right behind it. */
  method ReadFrom(r: Reader) returns (res: ReadResult)
    requires r.Valid()
    modifies r
    ensures r.Valid()
    ensures res == Decode(old(r.Rest()))
    ensures res.Frame? ==> r.Rest().bytes == res.rest
  {
    ghost var s := r.Rest();
    var hdr := new byte[5];
    var io := r.ReadExact(hdr);
    if io == UnexpectedEof {
      return Ended;
    }
    if io == Reset {
      return Failed(ConnectionLost);
    }
    var kind := hdr[0];
    var lenBytes := new byte[4](i requires 0 <= i < 4 reads hdr => hdr[i + 1]);
    assert lenBytes[..] == s.bytes[1..5];
    var len := FromLe(lenBytes);
    if len > MAX_WS_FRAME {
      return Failed(TooBig(len));
    }
    var payload := new byte[len];
    io := r.ReadExact(payload);
    if io != Filled {
      return Failed(IoError(io));
    }
    assert payload[..] == s.bytes[5..5 + len];
    var parsed := ParsePayload(kind, payload);
    match parsed {
      case Ok(f) => res := Frame(f, r.bytes[r.pos..]);
      case Err(e) => res := Failed(e);
    }
  }

  method ReadHandshakeV1(r: Reader) returns (res: Parsed<Bytes>)
    requires r.Valid()
    modifies r
    ensures r.Valid()
    ensures var spec := ReadHandshake(old(r.Rest()));
            if spec.Ok? then res == Ok(spec.value.0) && r.Rest().bytes == spec.value.1 else res == Err(spec.error)
  {
    ghost var s := r.Rest();
    var lenBuf := new byte[4];
    var io := r.ReadExact(lenBuf);
    if io != Filled {
      return Err(IoError(io));
    }
    var len := FromLe(lenBuf);
    if len == 0 || len > MAX_FRAME {
      return Err(OutOfRange(len));
    }
    var buf := new byte[len];
    io := r.ReadExact(buf);
    if io != Filled {
      return Err(IoError(io));
    }
    assert buf[..] == s.bytes[4..4 + len];
    res := Ok(buf[..]);
  }

  method WriteHandshakeV1(w: Writer, json: Bytes) returns (err: Option<Error>)
    modifies w
    ensures var spec := HandshakeBytes(json);
            if spec.Ok? then err == None && w.sent == old(w.sent) + spec.value
            else err == Some(spec.error) && w.sent == old(w.sent)
  {
    if |json| > MAX_FRAME {
      return Some(TooBig(|json|));
    }
    var len := ToLe(|json|, 4);
    w.WriteAll(len[..]);
    w.WriteAll(json);
    err := None;
  }
}
