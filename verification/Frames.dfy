/** The wire format: a nine-byte header and a payload. */
module Frames {
  import opened Common

  const HEADER_LEN: nat := 9
  const MAGIC: seq<byte> := [0x53, 0x41, 0x4F]
  const VERSION: byte := 0x01
  const DEFAULT_MAX_PAYLOAD_LEN: u32 := 1024 * 1024

  // Message types.
  const AUTH_CHALLENGE: byte := 0x01
  const AUTH_RESPONSE: byte := 0x02
  const AUTH_RESULT: byte := 0x03
  const EXEC_SHELL: byte := 0x10
  const STREAM_STDOUT: byte := 0x11
  const STREAM_STDERR: byte := 0x12
  const EXEC_EXIT: byte := 0x13
  const POLICY_DENIED: byte := 0x20
  const ERROR: byte := 0xFF

  datatype Frame = Frame(msgType: byte, payload: seq<byte>)

  datatype ProtocolError =
    | Io
    | UnexpectedEof
    | InvalidMagic
    | UnsupportedVersion(got: byte)
    | PayloadTooLarge(len: u32, max: u32)

  datatype Header = Header(version: byte, msgType: byte, payloadLen: u32)

  /** `u32::to_be_bytes`. */
  function BigEndian(n: u32): (b: seq<byte>)
    ensures |b| == 4
  {
    [n / 0x100 / 0x100 / 0x100, n / 0x100 / 0x100 % 0x100, n / 0x100 % 0x100, n % 0x100]
  }

  /** `u32::from_be_bytes`. */
  function FromBigEndian(b: seq<byte>): u32
    requires |b| == 4
  {
    var v: seq<int> := b;
    v[0] * 0x100_0000 + v[1] * 0x1_0000 + v[2] * 0x100 + v[3]
  }

  lemma BigEndianRoundTrip(n: u32)
    ensures FromBigEndian(BigEndian(n)) == n
  {
    var q: int := n / 0x100;
    var r: int := q / 0x100;
    assert n == q * 0x100 + n % 0x100 && q == r * 0x100 + q % 0x100 && r == r / 0x100 * 0x100 + r % 0x100;
  }

  lemma FromBigEndianRoundTrip(b: seq<byte>)
    requires |b| == 4
    ensures BigEndian(FromBigEndian(b)) == b
  {
    var v: seq<int> := b;
    var n: int := FromBigEndian(b);
    var q := v[0] * 0x1_0000 + v[1] * 0x100 + v[2];
    var r := v[0] * 0x100 + v[1];
    assert n == q * 0x100 + v[3] && q == r * 0x100 + v[2];
    assert n / 0x100 == q && q / 0x100 == r && r / 0x100 == v[0];
    assert n % 0x100 == v[3] && q % 0x100 == v[2] && r % 0x100 == v[1];
  }

  function HeaderBytes(h: Header): (b: seq<byte>)
    ensures |b| == HEADER_LEN
  {
    MAGIC + [h.version, h.msgType] + BigEndian(h.payloadLen)
  }

  /** Fills the header array field by field. */
  method WriteHeader(out: array<byte>, version: byte, msgType: byte, payloadLen: u32)
    requires out.Length == HEADER_LEN
    modifies out
    ensures out[..] == HeaderBytes(Header(version, msgType, payloadLen))
  {
    for i := 0 to 3
      invariant out[..i] == MAGIC[..i]
    {
      out[i] := MAGIC[i];
    }
    out[3] := version;
    out[4] := msgType;
    var be := BigEndian(payloadLen);
    for i := 0 to 4
      invariant out[..5 + i] == MAGIC + [version, msgType] + be[..i]
    {
      out[5 + i] := be[i];
    }
    assert out[..] == out[..9];
  }

  function ParseHeader(hdr: seq<byte>): Result<Header, ProtocolError>
    requires |hdr| == HEADER_LEN
  {
    if hdr[..3] != MAGIC then Err(InvalidMagic)
    else if hdr[3] != VERSION then Err(UnsupportedVersion(hdr[3]))
    else Ok(Header(hdr[3], hdr[4], FromBigEndian(hdr[5..])))
  }

  lemma ParseHeaderBytes(msgType: byte, len: u32)
    ensures ParseHeader(HeaderBytes(Header(VERSION, msgType, len))) == Ok(Header(VERSION, msgType, len))
  {
    var b := HeaderBytes(Header(VERSION, msgType, len));
    assert b[..3] == MAGIC && b[3] == VERSION && b[4] == msgType && b[5..] == BigEndian(len);
    BigEndianRoundTrip(len);
  }

  lemma HeaderBytesParse(hdr: seq<byte>)
    requires |hdr| == HEADER_LEN && ParseHeader(hdr).Ok?
    ensures HeaderBytes(ParseHeader(hdr).value) == hdr
  {
    FromBigEndianRoundTrip(hdr[5..]);
    assert hdr == hdr[..3] + [hdr[3], hdr[4]] + hdr[5..];
  }

  // ------------------------------------------------------------ whole frames

  /** A frame a writer with limit `max` accepts. */
  predicate Fits(f: Frame, max: u32) {
    |f.payload| <= max
  }

  function Encode(f: Frame): (b: seq<byte>)
    requires Fits(f, 0xFFFF_FFFF)
    ensures |b| == HEADER_LEN + |f.payload|
  {
    HeaderBytes(Header(VERSION, f.msgType, |f.payload|)) + f.payload
  }

  /** What one `read_frame` makes of the bytes still to come, and what it leaves.
      `fault`: the stream ends with an I/O failure instead of end of file. */
  datatype ReadOutcome = ReadOutcome(result: Result<Frame, ProtocolError>, rest: seq<byte>)

  function ShortRead(fault: bool): ProtocolError {
    if fault then Io else UnexpectedEof
  }

  function Decode(bytes: seq<byte>, fault: bool, max: u32): ReadOutcome {
    if |bytes| < HEADER_LEN then ReadOutcome(Err(ShortRead(fault)), [])
    else
      var body := bytes[HEADER_LEN..];
      match ParseHeader(bytes[..HEADER_LEN])
      case Err(e) => ReadOutcome(Err(e), body)
      case Ok(h) =>
        if h.payloadLen > max then ReadOutcome(Err(PayloadTooLarge(h.payloadLen, max)), body)
        else if |body| < h.payloadLen then ReadOutcome(Err(ShortRead(fault)), [])
        else ReadOutcome(Ok(Frame(h.msgType, body[..h.payloadLen])), body[h.payloadLen..])
  }

  /** Reading takes exactly the bytes of the frame at the front. */
  lemma DecodeEncode(f: Frame, rest: seq<byte>, fault: bool, w: u32, r: u32)
    requires Fits(f, w) && w <= r
    ensures Decode(Encode(f) + rest, fault, r) == ReadOutcome(Ok(f), rest)
  {
    var hdr := HeaderBytes(Header(VERSION, f.msgType, |f.payload|));
    var bytes := Encode(f) + rest;
    Assoc(hdr, f.payload, rest);
    assert bytes[..HEADER_LEN] == hdr && bytes[HEADER_LEN..] == f.payload + rest;
    ParseHeaderBytes(f.msgType, |f.payload|);
  }

  /** Only the encoding of a frame reads back as it: a success has consumed
      exactly those bytes, and never fewer than a header. */
  lemma EncodeDecode(bytes: seq<byte>, fault: bool, max: u32)
    requires Decode(bytes, fault, max).result.Ok?
    ensures var d := Decode(bytes, fault, max);
      && Fits(d.result.value, max)
      && bytes == Encode(d.result.value) + d.rest
      && |bytes| - |d.rest| >= HEADER_LEN
  {
    var hdr, body := bytes[..HEADER_LEN], bytes[HEADER_LEN..];
    HeaderBytesParse(hdr);
    var n := ParseHeader(hdr).value.payloadLen;
    Assoc(hdr, body[..n], body[n..]);
    assert body == body[..n] + body[n..];
    assert bytes == hdr + body;
  }

  /** A frame cut short anywhere reads as the end of the stream, never as a
      different frame and never as a format error. */
  lemma DecodeCut(f: Frame, n: nat, fault: bool, w: u32, r: u32)
    requires Fits(f, w) && w <= r && n < |Encode(f)|
    ensures Decode(Encode(f)[..n], fault, r) == ReadOutcome(Err(ShortRead(fault)), [])
  {
    var hdr := HeaderBytes(Header(VERSION, f.msgType, |f.payload|));
    if n >= HEADER_LEN {
      assert Encode(f)[..n][..HEADER_LEN] == hdr;
      ParseHeaderBytes(f.msgType, |f.payload|);
    }
  }

  /** Which bytes are refused, and how: too few for a header, a wrong magic, a wrong
      version, a length over the limit, too few for the payload, in this order. */
  lemma DecodeErrors(bytes: seq<byte>, fault: bool, max: u32)
    ensures var r := Decode(bytes, fault, max).result;
      var whole := |bytes| >= 9;
      var magic := whole && bytes[0] == 0x53 && bytes[1] == 0x41 && bytes[2] == 0x4F;
      var version := magic && bytes[3] == 1;
      var len: int := if whole then bytes[5] as int * 0x100_0000 + bytes[6] as int * 0x1_0000 + bytes[7] as int * 0x100 + bytes[8] as int else 0;
      && (r == Err(InvalidMagic) <==> whole && !magic)
      && (r.Err? && r.error.UnsupportedVersion? <==> magic && !version)
      && (magic && !version ==> r == Err(UnsupportedVersion(bytes[3])))
      && (r.Err? && r.error.PayloadTooLarge? <==> version && len > max)
      && (version && len > max ==> len <= 0xFFFF_FFFF && r == Err(PayloadTooLarge(len, max)))
      && (r == Err(if fault then Io else UnexpectedEof) <==> !whole || (version && len <= max && |bytes| < 9 + len))
      && (r.Ok? <==> version && len <= max && |bytes| >= 9 + len)
      && (r.Ok? ==> r.value == Frame(bytes[4], bytes[9..9 + len]) && Decode(bytes, fault, max).rest == bytes[9 + len..])
  {
    if |bytes| >= 9 {
      var hdr := bytes[..HEADER_LEN];
      assert hdr[..3] == [bytes[0], bytes[1], bytes[2]];
      assert hdr[5..] == [bytes[5], bytes[6], bytes[7], bytes[8]];
      assert hdr[..3] == MAGIC <==> bytes[0] == 0x53 && bytes[1] == 0x41 && bytes[2] == 0x4F;
    }
  }

  // ------------------------------------------------------------ whole streams

  predicate AllFit(fs: seq<Frame>, max: u32) {
    forall f <- fs :: Fits(f, max)
  }

  lemma FitsWider(fs: seq<Frame>, w: u32)
    requires AllFit(fs, w)
    ensures AllFit(fs, 0xFFFF_FFFF)
    ensures fs != [] ==> Fits(fs[0], w) && AllFit(fs[1..], w) && AllFit(fs[1..], 0xFFFF_FFFF)
  {
    if fs != [] {
      assert fs[0] in fs;
      assert forall f <- fs[1..] :: f in fs;
    }
  }

  function EncodeAll(fs: seq<Frame>): seq<byte>
    requires AllFit(fs, 0xFFFF_FFFF)
  {
    if fs == [] then []
    else assert fs[0] in fs; Encode(fs[0]) + EncodeAll(fs[1..])
  }

  /** What repeated `read_frame` returns up to and including its first failure. */
  datatype StreamOutcome = StreamOutcome(frames: seq<Frame>, error: ProtocolError, rest: seq<byte>)

  function DecodeAll(bytes: seq<byte>, fault: bool, max: u32): StreamOutcome
    decreases |bytes|
  {
    var d := Decode(bytes, fault, max);
    if d.result.Err? then StreamOutcome([], d.result.error, d.rest)
    else
      EncodeDecode(bytes, fault, max);
      var more := DecodeAll(d.rest, fault, max);
      more.(frames := [d.result.value] + more.frames)
  }

  lemma {:induction false} DecodeAllEncodeAll(fs: seq<Frame>, tail: seq<byte>, fault: bool, w: u32, r: u32)
    requires AllFit(fs, w) && w <= r
    ensures DecodeAll(EncodeAll(fs) + tail, fault, r)
         == DecodeAll(tail, fault, r).(frames := fs + DecodeAll(tail, fault, r).frames)
  {
    if fs == [] {
      assert EncodeAll(fs) + tail == tail;
      assert fs + DecodeAll(tail, fault, r).frames == DecodeAll(tail, fault, r).frames;
    } else {
      FitsWider(fs, w);
      var more := EncodeAll(fs[1..]) + tail;
      Assoc(Encode(fs[0]), EncodeAll(fs[1..]), tail);
      DecodeEncode(fs[0], more, fault, w, r);
      DecodeAllEncodeAll(fs[1..], tail, fault, w, r);
      Assoc([fs[0]], fs[1..], DecodeAll(tail, fault, r).frames);
      assert fs == [fs[0]] + fs[1..];
    }
  }

  /** The byte stream is a FIFO channel of frames: everything written arrives,
      once, in order, and nothing is left over. */
  lemma StreamIsFifo(fs: seq<Frame>, fault: bool, w: u32, r: u32)
    requires AllFit(fs, w) && w <= r
    ensures DecodeAll(EncodeAll(fs), fault, r) == StreamOutcome(fs, ShortRead(fault), [])
  {
    DecodeAllEncodeAll(fs, [], fault, w, r);
    assert EncodeAll(fs) + [] == EncodeAll(fs);
    assert DecodeAll([], fault, r) == StreamOutcome([], ShortRead(fault), []);
    assert fs + [] == fs;
  }

  /** How many frames lie wholly within the first `n` bytes. */
  function WholeFrames(fs: seq<Frame>, n: nat): (k: nat)
    requires AllFit(fs, 0xFFFF_FFFF)
    ensures k <= |fs|
  {
    if fs == [] then 0
    else
      FitsWider(fs, 0xFFFF_FFFF);
      if n < |Encode(fs[0])| then 0 else 1 + WholeFrames(fs[1..], n - |Encode(fs[0])|)
  }

  lemma {:induction false} WholeFramesExact(fs: seq<Frame>, n: nat)
    requires AllFit(fs, 0xFFFF_FFFF)
    ensures var k := WholeFrames(fs, n);
      && AllFit(fs[..k], 0xFFFF_FFFF) && |EncodeAll(fs[..k])| <= n
      && (k < |fs| ==> AllFit(fs[..k + 1], 0xFFFF_FFFF) && n < |EncodeAll(fs[..k + 1])|)
  {
    if fs != [] {
      FitsWider(fs, 0xFFFF_FFFF);
      PrefixEncodes(fs, 0);
      if n >= |Encode(fs[0])| {
        var j := WholeFrames(fs[1..], n - |Encode(fs[0])|);
        WholeFramesExact(fs[1..], n - |Encode(fs[0])|);
        PrefixEncodes(fs, j);
        if j + 1 < |fs| {
          PrefixEncodes(fs, j + 1);
        }
      }
    }
  }

  /** A stream cut after any number of bytes delivers exactly the frames that lie
      wholly before the cut, then reports the end of the stream. */
  lemma {:induction false} StreamCut(fs: seq<Frame>, n: nat, fault: bool, w: u32, r: u32)
    requires AllFit(fs, w) && w <= r && AllFit(fs, 0xFFFF_FFFF) && n <= |EncodeAll(fs)|
    ensures DecodeAll(EncodeAll(fs)[..n], fault, r)
         == StreamOutcome(fs[..WholeFrames(fs, n)], ShortRead(fault), [])
  {
    if fs != [] {
      FitsWider(fs, w);
      var e, more := Encode(fs[0]), EncodeAll(fs[1..]);
      if n < |e| {
        assert EncodeAll(fs)[..n] == e[..n];
        DecodeCut(fs[0], n, fault, w, r);
      } else {
        StreamCut(fs[1..], n - |e|, fault, w, r);
        assert EncodeAll(fs)[..n] == e + more[..n - |e|];
        DecodeEncode(fs[0], more[..n - |e|], fault, w, r);
        PrefixEncodes(fs, WholeFrames(fs[1..], n - |e|));
      }
    }
  }

  lemma PrefixEncodes(fs: seq<Frame>, j: nat)
    requires AllFit(fs, 0xFFFF_FFFF) && j < |fs|
    ensures fs[..j + 1] == [fs[0]] + fs[1..][..j]
    ensures AllFit(fs[..j + 1], 0xFFFF_FFFF) && Fits(fs[0], 0xFFFF_FFFF)
    ensures EncodeAll(fs[..j + 1]) == Encode(fs[0]) + EncodeAll(fs[1..][..j])
  {
    assert fs[0] in fs;
    assert fs[..j + 1][1..] == fs[1..][..j];
  }

  /** Different frame lists never have the same bytes, nor does the encoding of one
      frame begin another's. */
  lemma EncodeAllInjective(a: seq<Frame>, b: seq<Frame>)
    requires AllFit(a, 0xFFFF_FFFF) && AllFit(b, 0xFFFF_FFFF) && EncodeAll(a) == EncodeAll(b)
    ensures a == b
  {
    StreamIsFifo(a, false, 0xFFFF_FFFF, 0xFFFF_FFFF);
    StreamIsFifo(b, false, 0xFFFF_FFFF, 0xFFFF_FFFF);
  }

  lemma EncodePrefixFree(a: Frame, b: Frame, more: seq<byte>)
    requires Fits(a, 0xFFFF_FFFF) && Fits(b, 0xFFFF_FFFF) && Encode(b) == Encode(a) + more
    ensures a == b && more == []
  {
    DecodeEncode(a, more, false, 0xFFFF_FFFF, 0xFFFF_FFFF);
    DecodeEncode(b, [], false, 0xFFFF_FFFF, 0xFFFF_FFFF);
    assert Encode(b) + [] == Encode(b);
  }

  /** The frames read account for no more bytes than there were. */
  lemma {:induction false} DecodeAllConsumes(bytes: seq<byte>, fault: bool, max: u32)
    ensures var got := DecodeAll(bytes, fault, max);
      AllFit(got.frames, max) && EncodeAll(got.frames) <= bytes
    decreases |bytes|
  {
    var d := Decode(bytes, fault, max);
    if d.result.Ok? {
      EncodeDecode(bytes, fault, max);
      DecodeAllConsumes(d.rest, fault, max);
      var more := DecodeAll(d.rest, fault, max);
      assert ([d.result.value] + more.frames)[1..] == more.frames;
    }
  }
}
