/** The byte-level work of one exec: a reader task that fills one buffer over and
    over, and the pump that puts chunks on the wire. */
module PumpTasks {
  import opened Common
  import opened ExecPump
  import opened Codec
  import Frames
  import StreamPayload

  /** The sending side of the unbounded channel. The receiver takes `accepts` more
      chunks before it is dropped (`None`: it outlives its senders). */
  class Channel {
    var chunks: seq<Chunk>
    var accepts: Option<nat>

    constructor (accepts: Option<nat>)
      ensures chunks == [] && this.accepts == accepts
    {
      chunks, this.accepts := [], accepts;
    }

    method Send(c: Chunk) returns (ok: bool)
      modifies this
      ensures ok <==> old(accepts).None? || old(accepts).value > 0
      ensures chunks == if ok then old(chunks) + [c] else old(chunks)
      ensures old(accepts).None? ==> accepts == None
      ensures old(accepts).Some? ==> accepts == Some(old(accepts).value - if ok then 1 else 0)
    {
      if accepts.Some? {
        if accepts.value == 0 {
          return false;
        }
        accepts := Some(accepts.value - 1);
      }
      chunks := chunks + [c];
      return true;
    }
  }

  ghost predicate ChunksOf(cs: seq<Chunk>, st: Stream) {
    ChunksSized(cs) && forall c <- cs :: c.stream == st
  }

  /** Reads until end of file, a fault, or a dropped receiver. What it has sent is a
      prefix of the pipe's bytes in order; with the receiver alive it is everything
      that could be read. Else it is as many chunks as the receiver took, and at most one
      more buffer has been read. */
  method ReaderTask(pipe: ByteStream, st: Stream, tx: Channel) returns (ghost sent: seq<Chunk>)
    requires pipe.Valid()
    modifies pipe`pieces, tx
    ensures pipe.Valid() && tx.chunks == old(tx.chunks) + sent && ChunksOf(sent, st)
    ensures ChunkBytes(sent, st) <= old(pipe.Pending())
    ensures old(tx.accepts).None? ==> pipe.Pending() == [] && ChunkBytes(sent, st) == old(pipe.Pending())
    ensures ChunkBytes(sent, st) != old(pipe.Pending()) ==> old(tx.accepts).Some? && |sent| == old(tx.accepts).value
    ensures old(tx.accepts).Some? ==> |sent| <= old(tx.accepts).value
    ensures |ChunkBytes(sent, st)| <= |old(pipe.Pending())| - |pipe.Pending()| <= |ChunkBytes(sent, st)| + 16384
  {
    sent := [];
    var buf := new byte[CHUNK_LEN](_ => 0);
    ghost var all, before := pipe.Pending(), tx.chunks;
    assert before + [] == before;
    while true
      invariant pipe.Valid() && tx.chunks == before + sent && ChunksOf(sent, st)
      invariant all == ChunkBytes(sent, st) + pipe.Pending()
      invariant old(tx.accepts).None? ==> tx.accepts.None?
      invariant old(tx.accepts).Some? ==> tx.accepts.Some? && tx.accepts.value + |sent| == old(tx.accepts).value
      decreases |pipe.Pending()|
    {
      var n := pipe.Read(buf, 0);
      if n.None? || n.value == 0 {
        break;
      }
      var c := Chunk(st, buf[..n.value]);
      assert buf[0..n.value] == c.data;
      var ok := tx.Send(c);
      if !ok {
        break;
      }
      ChunkBytesSnoc(sent, c, st);
      Assoc(ChunkBytes(sent, st), c.data, pipe.Pending());
      Assoc(before, sent, [c]);
      sent := sent + [c];
    }
  }

  // ------------------------------------------------------------ chunks as frames

  function MsgType(st: Stream): byte {
    if st == StdOut then Frames.STREAM_STDOUT else Frames.STREAM_STDERR
  }

  function ChunkFrame(c: Chunk): Frames.Frame {
    Frames.Frame(MsgType(c.stream), StreamPayload.Serialize(c.data))
  }

  function ChunkFrames(cs: seq<Chunk>): (fs: seq<Frames.Frame>)
    ensures |fs| == |cs|
  {
    if cs == [] then [] else [ChunkFrame(cs[0])] + ChunkFrames(cs[1..])
  }

  /** The chunk the client gets out of a stream frame. */
  function FrameChunk(f: Frames.Frame): Option<Chunk> {
    match StreamPayload.Parse(f.payload)
    case None => None
    case Some(data) =>
      if f.msgType == Frames.STREAM_STDOUT then Some(Chunk(StdOut, data))
      else if f.msgType == Frames.STREAM_STDERR then Some(Chunk(StdErr, data))
      else None
  }

  lemma {:induction false} ChunkFramesFit(cs: seq<Chunk>)
    requires ChunksSized(cs)
    ensures Frames.AllFit(ChunkFrames(cs), Frames.DEFAULT_MAX_PAYLOAD_LEN) && Frames.AllFit(ChunkFrames(cs), 0xFFFF_FFFF)
  {
    if cs != [] {
      assert cs[0] in cs && forall c <- cs[1..] :: c in cs;
      StreamPayload.ChunkDelivered(cs[0].data, MsgType(cs[0].stream), [], false);
      ChunkFramesFit(cs[1..]);
    }
  }

  /** The first bytes of a chunk on the wire: magic, version, and the type of its stream. */
  lemma ChunkOnWire(c: Chunk)
    requires 1 <= |c.data| <= CHUNK_LEN
    ensures Frames.Fits(ChunkFrame(c), 0xFFFF_FFFF)
    ensures Frames.Encode(ChunkFrame(c))[..5] == [0x53, 0x41, 0x4F, 0x01, if c.stream == StdOut then 0x11 else 0x12]
  {
    StreamPayload.ChunkDelivered(c.data, MsgType(c.stream), [], false);
  }

  lemma {:induction false} ChunkFramesSnoc(cs: seq<Chunk>, c: Chunk)
    ensures ChunkFrames(cs + [c]) == ChunkFrames(cs) + [ChunkFrame(c)]
  {
    if cs == [] {
      assert [] + [c] == [c] && [c][1..] == [];
    } else {
      ChunkFramesSnoc(cs[1..], c);
      assert (cs + [c])[1..] == cs[1..] + [c];
    }
  }

  /** The bytes of a list of chunks on the wire. */
  ghost function WireBytes(cs: seq<Chunk>): seq<byte>
    requires ChunksSized(cs)
  {
    ChunkFramesFit(cs);
    Frames.EncodeAll(ChunkFrames(cs))
  }

  lemma WireSnoc(cs: seq<Chunk>, c: Chunk)
    requires ChunksSized(cs + [c])
    ensures ChunksSized(cs) && Frames.Fits(ChunkFrame(c), Frames.DEFAULT_MAX_PAYLOAD_LEN)
    ensures WireBytes(cs + [c]) == WireBytes(cs) + Frames.Encode(ChunkFrame(c))
  {
    assert forall x <- cs :: x in cs + [c];
    assert c in cs + [c];
    StreamPayload.ChunkDelivered(c.data, MsgType(c.stream), [], false);
    ChunkFramesFit(cs);
    ChunkFramesSnoc(cs, c);
    EncodeAllSnoc(ChunkFrames(cs), ChunkFrame(c), Frames.DEFAULT_MAX_PAYLOAD_LEN);
  }

  lemma SizedPrefix(cs: seq<Chunk>, i: nat)
    requires ChunksSized(cs) && i < |cs|
    ensures ChunksSized(cs[..i]) && ChunksSized(cs[..i + 1]) && cs[..i + 1] == cs[..i] + [cs[i]]
  {
    assert forall c <- cs[..i + 1] :: c in cs;
    assert forall c <- cs[..i] :: c in cs;
  }

  /** How much of the chunks' bytes goes out: up to what the peer accepts, and not past
      the first frame when it is not acknowledged. */
  ghost function GoesOut(rx: seq<Chunk>, room: Option<nat>, flushes: bool): nat
    requires ChunksSized(rx)
  {
    var all := if flushes || rx == [] then |WireBytes(rx)| else |WireBytes(rx[..1])|;
    if room.Some? && room.value < all then room.value else all
  }

  lemma WirePrefix(rx: seq<Chunk>, i: nat)
    requires ChunksSized(rx) && i < |rx|
    ensures ChunksSized(rx[..i]) && ChunksSized(rx[..i + 1]) && Frames.Fits(ChunkFrame(rx[i]), Frames.DEFAULT_MAX_PAYLOAD_LEN)
    ensures WireBytes(rx[..i + 1]) == WireBytes(rx[..i]) + Frames.Encode(ChunkFrame(rx[i]))
    ensures WireBytes(rx[..i + 1]) <= WireBytes(rx)
    decreases |rx| - i
  {
    SizedPrefix(rx, i);
    WireSnoc(rx[..i], rx[i]);
    if i + 1 < |rx| {
      WirePrefix(rx, i + 1);
    } else {
      assert rx[..i + 1] == rx;
    }
  }

  /** The pump's writes: every chunk of the channel goes out as its own frame, in order;
      when the connection fails, exactly the bytes it still took have gone out. */
  method PumpChunks(rx: seq<Chunk>, codec: FrameCodec) returns (e: Option<Frames.ProtocolError>)
    requires ChunksSized(rx) && codec.maxPayloadLen == Frames.DEFAULT_MAX_PAYLOAD_LEN
    modifies codec.inner`sent, codec.inner`room
    ensures var n := GoesOut(rx, old(codec.inner.room), codec.inner.flushes);
      n <= |WireBytes(rx)| && codec.inner.sent == old(codec.inner.sent) + WireBytes(rx)[..n]
    ensures e.None? <==>
      && (codec.inner.flushes || rx == [])
      && (old(codec.inner.room).None? || |WireBytes(rx)| <= old(codec.inner.room).value)
    ensures e.Some? ==> e.value == Frames.Io
  {
    ghost var before, room := codec.inner.sent, codec.inner.room;
    assert before + [] == before;
    for i := 0 to |rx|
      invariant ChunksSized(rx[..i]) && codec.inner.sent == before + WireBytes(rx[..i])
      invariant i > 0 ==> codec.inner.flushes
      invariant codec.inner.room == if room.None? then None else Some(room.value - |WireBytes(rx[..i])|)
      invariant room.Some? ==> |WireBytes(rx[..i])| <= room.value
    {
      WirePrefix(rx, i);
      e := codec.WriteFrame(MsgType(rx[i].stream), StreamPayload.Serialize(rx[i].data));
      Assoc(before, WireBytes(rx[..i]), Frames.Encode(ChunkFrame(rx[i])));
      if e.Some? {
        FailedWrite(rx, i, before, room, codec.inner.flushes, codec.inner.sent);
        return;
      }
    }
    assert rx[..|rx|] == rx;
    assert WireBytes(rx)[..|WireBytes(rx)|] == WireBytes(rx);
    return None;
  }

  /** Where a failing write leaves the stream. */
  lemma FailedWrite(rx: seq<Chunk>, i: nat, before: seq<byte>, room: Option<nat>, flushes: bool, sent: seq<byte>)
    requires ChunksSized(rx) && i < |rx| && (i > 0 ==> flushes)
    requires ChunksSized(rx[..i]) && (room.Some? ==> |WireBytes(rx[..i])| <= room.value)
    requires Frames.Fits(ChunkFrame(rx[i]), Frames.DEFAULT_MAX_PAYLOAD_LEN)
    requires var f := Frames.Encode(ChunkFrame(rx[i]));
      if room.None? || |WireBytes(rx[..i])| + |f| <= room.value then !flushes && sent == before + WireBytes(rx[..i]) + f
      else sent == before + WireBytes(rx[..i]) + f[..room.value - |WireBytes(rx[..i])|]
    ensures var n := GoesOut(rx, room, flushes); n <= |WireBytes(rx)| && sent == before + WireBytes(rx)[..n]
    ensures flushes ==> room.Some? && room.value < |WireBytes(rx)|
  {
    WirePrefix(rx, i);
    var w, f := WireBytes(rx[..i]), Frames.Encode(ChunkFrame(rx[i]));
    var n := GoesOut(rx, room, flushes);
    if !flushes {
      assert rx[..i] == [] && w == [];
      assert WireBytes(rx[..1]) == f;
    }
    if room.None? || |w| + |f| <= room.value {
      assert n == |f| && WireBytes(rx)[..n] == w + f;
      Assoc(before, w, f);
    } else {
      assert n == room.value;
      Assoc(before, w, f[..n - |w|]);
      assert WireBytes(rx)[..n] == (w + f)[..n] == w + f[..n - |w|];
    }
  }

  lemma {:induction false} ChunkFrameAt(cs: seq<Chunk>, i: nat)
    requires i < |cs|
    ensures ChunkFrames(cs)[i] == ChunkFrame(cs[i])
  {
    if i > 0 {
      ChunkFrameAt(cs[1..], i - 1);
    }
  }

  lemma FrameChunkBack(c: Chunk)
    ensures FrameChunk(ChunkFrame(c)) == Some(c)
  {
    StreamPayload.ParseSerialize(c.data);
  }

  lemma FramesParse(cs: seq<Chunk>, k: nat)
    requires k <= |cs|
    ensures forall i :: 0 <= i < k ==> FrameChunk(ChunkFrames(cs)[..k][i]) == Some(cs[i])
  {
    forall i | 0 <= i < k ensures FrameChunk(ChunkFrames(cs)[..k][i]) == Some(cs[i]) {
      ChunkFrameAt(cs, i);
      FrameChunkBack(cs[i]);
    }
  }

  /** Bytes to bytes: what the pump writes, cut anywhere by the network, the client
      reads as a prefix of the same chunks; uncut, as all of them. */
  lemma WireDelivers(cs: seq<Chunk>, n: nat, fault: bool)
    requires ChunksSized(cs) && n <= |WireBytes(cs)| && Frames.AllFit(ChunkFrames(cs), 0xFFFF_FFFF)
    ensures var got := Frames.DecodeAll(WireBytes(cs)[..n], fault, Frames.DEFAULT_MAX_PAYLOAD_LEN);
      var k := Frames.WholeFrames(ChunkFrames(cs), n);
      && got.error == Frames.ShortRead(fault) && got.rest == []
      && |got.frames| == k <= |cs|
      && (forall i :: 0 <= i < k ==> FrameChunk(got.frames[i]) == Some(cs[i]))
      && (n == |WireBytes(cs)| ==> k == |cs|)
  {
    var fs := ChunkFrames(cs);
    ChunkFramesFit(cs);
    Frames.StreamCut(fs, n, fault, Frames.DEFAULT_MAX_PAYLOAD_LEN, Frames.DEFAULT_MAX_PAYLOAD_LEN);
    FramesParse(cs, Frames.WholeFrames(fs, n));
    if n == |Frames.EncodeAll(fs)| {
      Frames.StreamIsFifo(fs, fault, Frames.DEFAULT_MAX_PAYLOAD_LEN, Frames.DEFAULT_MAX_PAYLOAD_LEN);
      assert Frames.EncodeAll(fs)[..n] == Frames.EncodeAll(fs);
    }
  }
}
