/** `FrameCodec`: reading and writing frames on a byte stream that delivers its
    bytes in pieces of the environment's choosing. */
module Codec {
  import opened Common
  import opened Frames

  /** One end of a connection. `pieces` is how the bytes still to come will be
      cut when they arrive; after the last one the stream ends, with an I/O
      failure if `fault`. The peer accepts `room` more bytes (`None`: all), and
      `flushes` says whether a flush succeeds. */
  class ByteStream {
    var pieces: seq<seq<byte>>
    const fault: bool
    var sent: seq<byte>
    var room: Option<nat>
    const flushes: bool

    constructor (pieces: seq<seq<byte>>, fault: bool, room: Option<nat>, flushes: bool)
      requires forall p <- pieces :: p != []
      ensures Valid() && Pending() == Flatten(pieces) && this.fault == fault && sent == []
      ensures this.room == room && this.flushes == flushes
    {
      this.pieces, this.fault, this.sent, this.room, this.flushes := pieces, fault, [], room, flushes;
    }

    ghost predicate Valid()
      reads this
    {
      forall p <- pieces :: p != []
    }

    ghost function Pending(): seq<byte>
      reads this
    {
      Flatten(pieces)
    }

    /** One poll: some of the bytes at the front, at least one unless the stream
        has ended or the buffer is full. `None` is an I/O failure. */
    method Read(buf: array<byte>, from: nat) returns (n: Option<nat>)
      requires Valid() && from <= buf.Length
      modifies this`pieces, buf
      ensures Valid()
      ensures n.None? <==> from < buf.Length && old(Pending()) == [] && fault
      ensures n.None? ==> buf[..] == old(buf[..]) && Pending() == []
      ensures n.Some? ==>
        && from + n.value <= buf.Length
        && (n.value == 0 <==> from == buf.Length || old(Pending()) == [])
        && buf[..from] == old(buf[..from])
        && old(Pending()) == buf[from..from + n.value] + Pending()
    {
      if from == buf.Length {
        return Some(0);
      }
      if pieces == [] {
        return if fault then None else Some(0);
      }
      var p := pieces[0];
      var k := if |p| < buf.Length - from then |p| else buf.Length - from;
      forall i | 0 <= i < k {
        buf[from + i] := p[i];
      }
      assert buf[from..from + k] == p[..k];
      var rest := pieces[1..];
      assert forall q <- rest :: q in pieces;
      assert p in pieces && p == p[..k] + p[k..];
      if k < |p| {
        pieces := [p[k..]] + rest;
        Assoc(p[..k], p[k..], Flatten(rest));
        assert pieces[1..] == rest;
      } else {
        pieces := rest;
      }
      return Some(k);
    }

    /** `read_exact`: all of the buffer, or the reason why not. */
    method ReadExact(buf: array<byte>) returns (e: Option<ProtocolError>)
      requires Valid()
      modifies this`pieces, buf
      ensures Valid()
      ensures e.None? <==> buf.Length <= |old(Pending())|
      ensures e.None? ==> old(Pending()) == buf[..] + Pending()
      ensures e.Some? ==> e.value == ShortRead(fault) && Pending() == []
    {
      ghost var all := Pending();
      var filled := 0;
      while filled < buf.Length
        invariant Valid() && filled <= buf.Length
        invariant all == buf[..filled] + Pending()
        decreases buf.Length - filled
      {
        ghost var before := buf[..filled];
        var n := Read(buf, filled);
        if n.None? {
          return Some(Io);
        }
        if n.value == 0 {
          return Some(UnexpectedEof);
        }
        Assoc(before, buf[filled..filled + n.value], Pending());
        filled := filled + n.value;
        assert buf[..filled] == before + buf[filled - n.value..filled];
      }
      assert buf[..] == buf[..filled];
      return None;
    }

    /** `write_all`: when the peer stops accepting, a prefix has gone out. */
    method WriteAll(bytes: seq<byte>) returns (ok: bool)
      modifies this`sent, this`room
      ensures ok <==> old(room).None? || |bytes| <= old(room).value
      ensures ok ==> sent == old(sent) + bytes
      ensures ok ==> room == if old(room).None? then None else Some(old(room).value - |bytes|)
      ensures !ok ==> sent == old(sent) + bytes[..old(room).value] && room == Some(0)
    {
      if room.None? {
        sent := sent + bytes;
        return true;
      }
      ok := |bytes| <= room.value;
      var k := if ok then |bytes| else room.value;
      sent := sent + bytes[..k];
      room := Some(room.value - k);
      assert ok ==> bytes[..k] == bytes;
    }

    method Flush() returns (ok: bool)
      ensures ok == flushes
    {
      return flushes;
    }
  }

  class FrameCodec {
    const inner: ByteStream
    const maxPayloadLen: u32

    constructor (inner: ByteStream)
      ensures this.inner == inner && maxPayloadLen == DEFAULT_MAX_PAYLOAD_LEN == 0x10_0000
    {
      this.inner, maxPayloadLen := inner, DEFAULT_MAX_PAYLOAD_LEN;
    }

    constructor WithMaxPayloadLen(inner: ByteStream, max: u32)
      ensures this.inner == inner && maxPayloadLen == max
    {
      this.inner, maxPayloadLen := inner, max;
    }

    /** Reads one frame; the outcome depends on the bytes alone, not on how they
        were cut into pieces. */
    method ReadFrame() returns (r: Result<Frame, ProtocolError>)
      requires inner.Valid()
      modifies inner`pieces
      ensures inner.Valid()
      ensures ReadOutcome(r, inner.Pending()) == Decode(old(inner.Pending()), inner.fault, maxPayloadLen)
    {
      ghost var all := inner.Pending();
      var hdr := new byte[HEADER_LEN](_ => 0);
      var e := inner.ReadExact(hdr);
      if e.Some? {
        return Err(e.value);
      }
      assert all[..HEADER_LEN] == hdr[..] && all[HEADER_LEN..] == inner.Pending();
      var h := ParseHeader(hdr[..]);
      if h.Err? {
        return Err(h.error);
      }
      var len := h.value.payloadLen;
      if len > maxPayloadLen {
        return Err(PayloadTooLarge(len, maxPayloadLen));
      }
      ghost var body := inner.Pending();
      var payload := new byte[len](_ => 0);
      if len > 0 {
        e := inner.ReadExact(payload);
        if e.Some? {
          return Err(e.value);
        }
      }
      assert body[..len] == payload[..] && body[len..] == inner.Pending();
      return Ok(Frame(h.value.msgType, payload[..]));
    }

    /** The peer takes a whole frame with this payload. */
    predicate Takes(payload: seq<byte>)
      reads this, inner
    {
      inner.room.None? || HEADER_LEN + |payload| <= inner.room.value
    }

    /** Writes one frame, or reports why nothing, only a prefix, or (when it is the
        flush that fails) all of it went out without being acknowledged. */
    method WriteFrame(msgType: byte, payload: seq<byte>) returns (e: Option<ProtocolError>)
      modifies inner`sent, inner`room
      ensures e.None? <==> |payload| <= maxPayloadLen && old(Takes(payload)) && inner.flushes
      ensures |payload| > maxPayloadLen ==>
        && inner.sent == old(inner.sent) && inner.room == old(inner.room)
        && e == Some(PayloadTooLarge(if |payload| <= 0xFFFF_FFFF then |payload| else 0xFFFF_FFFF, maxPayloadLen))
      ensures |payload| <= maxPayloadLen && e.Some? ==> e.value == Io
      ensures |payload| <= maxPayloadLen && old(Takes(payload)) ==>
        && inner.sent == old(inner.sent) + Encode(Frame(msgType, payload))
        && inner.room == (if old(inner.room).None? then None else Some(old(inner.room).value - HEADER_LEN - |payload|))
      ensures |payload| <= maxPayloadLen && !old(Takes(payload)) ==>
        inner.sent == old(inner.sent) + Encode(Frame(msgType, payload))[..old(inner.room).value]
    {
      if |payload| > 0xFFFF_FFFF {
        return Some(PayloadTooLarge(0xFFFF_FFFF, maxPayloadLen));
      }
      if |payload| > maxPayloadLen {
        return Some(PayloadTooLarge(|payload|, maxPayloadLen));
      }
      var hdr := new byte[HEADER_LEN](_ => 0);
      WriteHeader(hdr, VERSION, msgType, |payload|);
      ghost var h := hdr[..];
      ghost var before := inner.sent;
      assert Encode(Frame(msgType, payload)) == h + payload;
      var ok := inner.WriteAll(hdr[..]);
      if !ok {
        assert (h + payload)[..old(inner.room).value] == h[..old(inner.room).value];
        return Some(Io);
      }
      Assoc(before, h, payload);
      ok := inner.WriteAll(payload);
      if !ok {
        ghost var k := old(inner.room).value - HEADER_LEN;
        Assoc(before, h, payload[..k]);
        assert (h + payload)[..HEADER_LEN + k] == h + payload[..k];
        return Some(Io);
      }
      ok := inner.Flush();
      return if ok then None else Some(Io);
    }

    /** One request and its answer: nothing is read unless the request was written in
        full and flushed, and then the answer is the frame at the front. */
    method WriteFrameReadFrame(msgType: byte, payload: seq<byte>) returns (r: Result<Frame, ProtocolError>)
      requires inner.Valid()
      modifies inner
      ensures inner.Valid()
      ensures var written := |payload| <= maxPayloadLen && old(Takes(payload)) && inner.flushes;
        && (written ==> ReadOutcome(r, inner.Pending()) == Decode(old(inner.Pending()), inner.fault, maxPayloadLen))
        && (written ==> inner.sent == old(inner.sent) + Encode(Frame(msgType, payload)))
        && (!written ==> r.Err? && inner.Pending() == old(inner.Pending()) && old(inner.sent) <= inner.sent)
      ensures r.Ok? ==>
        && inner.sent == old(inner.sent) + Encode(Frame(msgType, payload))
        && old(inner.Pending()) == Encode(r.value) + inner.Pending()
    {
      var e := WriteFrame(msgType, payload);
      if e.Some? {
        return Err(e.value);
      }
      ghost var all := inner.Pending();
      r := ReadFrame();
      if r.Ok? {
        EncodeDecode(all, inner.fault, maxPayloadLen);
      }
    }

    /** Reads frames until a read fails: for every way of cutting the bytes, the frames
        they decode to, in order. */
    method ReadAll() returns (frames: seq<Frame>, error: ProtocolError)
      requires inner.Valid()
      modifies inner`pieces
      ensures inner.Valid()
      ensures StreamOutcome(frames, error, inner.Pending()) == DecodeAll(old(inner.Pending()), inner.fault, maxPayloadLen)
    {
      frames := [];
      ghost var goal := DecodeAll(inner.Pending(), inner.fault, maxPayloadLen);
      while true
        invariant inner.Valid()
        invariant var more := DecodeAll(inner.Pending(), inner.fault, maxPayloadLen);
          goal == more.(frames := frames + more.frames)
        decreases |inner.Pending()|
      {
        ghost var bytes := inner.Pending();
        var r := ReadFrame();
        if r.Err? {
          return frames, r.error;
        }
        EncodeDecode(bytes, inner.fault, maxPayloadLen);
        Assoc(frames, [r.value], DecodeAll(inner.Pending(), inner.fault, maxPayloadLen).frames);
        frames := frames + [r.value];
      }
    }
  }

  // ---------------------------------------------------- refinement of a FIFO link

  /** What one end has written and the other not yet read, as a queue of frames. */
  ghost predicate Carries(bytes: seq<byte>, queue: seq<Frame>, w: u32) {
    AllFit(queue, w) && AllFit(queue, 0xFFFF_FFFF) && bytes == EncodeAll(queue)
  }

  /** A successful write at one end appends to the queue. */
  lemma LinkWrite(bytes: seq<byte>, queue: seq<Frame>, f: Frame, w: u32)
    requires Carries(bytes, queue, w) && Fits(f, w)
    ensures Carries(bytes + Encode(f), queue + [f], w)
  {
    EncodeAllSnoc(queue, f, w);
  }

  /** A read at the other end takes the head of the queue, however the bytes are
      cut; with the queue empty it reports the end of the stream. */
  lemma LinkRead(bytes: seq<byte>, queue: seq<Frame>, fault: bool, w: u32, r: u32)
    requires Carries(bytes, queue, w) && w <= r
    ensures queue == [] ==> Decode(bytes, fault, r) == ReadOutcome(Err(ShortRead(fault)), [])
    ensures queue != [] ==>
      && Decode(bytes, fault, r).result == Ok(queue[0])
      && Carries(Decode(bytes, fault, r).rest, queue[1..], w)
  {
    if queue != [] {
      FitsWider(queue, w);
      DecodeEncode(queue[0], EncodeAll(queue[1..]), fault, w, r);
    }
  }

  /** End to end over one link: whatever list of frames a writer with limit `w` has had
      accepted, and however the bytes arrive, a reader with limit `r >= w` gets exactly
      that list and then the end of the stream. */
  method Receive(codec: FrameCodec, ghost queue: seq<Frame>, ghost w: u32) returns (frames: seq<Frame>, error: ProtocolError)
    requires codec.inner.Valid() && Carries(codec.inner.Pending(), queue, w) && w <= codec.maxPayloadLen
    modifies codec.inner`pieces
    ensures frames == queue && error == ShortRead(codec.inner.fault) && codec.inner.Pending() == []
  {
    StreamIsFifo(queue, codec.inner.fault, w, codec.maxPayloadLen);
    frames, error := codec.ReadAll();
  }

  lemma {:induction false} EncodeAllSnoc(fs: seq<Frame>, f: Frame, w: u32)
    requires AllFit(fs, w) && Fits(f, w)
    ensures AllFit(fs, 0xFFFF_FFFF) && AllFit(fs + [f], w) && AllFit(fs + [f], 0xFFFF_FFFF)
    ensures EncodeAll(fs + [f]) == EncodeAll(fs) + Encode(f)
  {
    if fs == [] {
      assert [] + [f] == [f] && [f][1..] == [];
      assert EncodeAll([f]) == Encode(f) + EncodeAll([]);
    } else {
      FitsWider(fs, w);
      EncodeAllSnoc(fs[1..], f, w);
      assert (fs + [f])[1..] == fs[1..] + [f] && (fs + [f])[0] == fs[0];
      Assoc(Encode(fs[0]), EncodeAll(fs[1..]), Encode(f));
    }
  }
}
