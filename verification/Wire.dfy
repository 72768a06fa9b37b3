/** The messages of both sides as frames: the byte streams between client and server
    are the message links that the session theorems are about. */
module Wire {
  import opened Common
  import opened Frames
  import ClientSession
  import ServerSession
  import StreamPayload
  import Text

  /** How both sides write and read JSON. `reply` is what the server writes for a frame
      (with `why` the text of a signature error), `payload` what the client's parsers
      make of it; `request` and `body` the other way round. */
  datatype Json = Json(
    reply: (ServerSession.Reply, string) -> seq<byte>,
    payload: seq<byte> -> ClientSession.Payload,
    request: ServerSession.Request -> seq<byte>,
    body: (byte, seq<byte>) -> ServerSession.Body)
  {
    /** Either side reads what the other wrote, and stream frames have their form. */
    ghost predicate Correct() {
      && (forall m, why :: payload(reply(m, why)) == ClientSession.MessageOf(m, why).payload)
      && (forall q | WellFormed(q) :: body(q.msgType, request(q)) == q.body)
      && (forall st, data, why :: reply(ServerSession.Output(st, data), why) == StreamPayload.Serialize(data))
    }
  }

  /** The two requests the client makes. */
  predicate WellFormed(q: ServerSession.Request) {
    || (q.msgType == AUTH_RESPONSE && q.body.AuthBody?)
    || (q.msgType == EXEC_SHELL && q.body.ExecBody?)
  }

  // ------------------------------------------------------------ server to client

  function ReplyFrame(json: Json, why: string, m: ServerSession.Reply): Frame {
    Frame(ClientSession.MessageOf(m, why).msgType, json.reply(m, why))
  }

  function ReplyFrames(json: Json, why: string, ms: seq<ServerSession.Reply>): (fs: seq<Frame>)
    ensures |fs| == |ms| && forall i :: 0 <= i < |ms| ==> fs[i] == ReplyFrame(json, why, ms[i])
  {
    if ms == [] then [] else [ReplyFrame(json, why, ms[0])] + ReplyFrames(json, why, ms[1..])
  }

  function Heard(json: Json, f: Frame): ClientSession.Incoming {
    ClientSession.Arrived(ClientSession.Message(f.msgType, json.payload(f.payload)))
  }

  function HeardAll(json: Json, fs: seq<Frame>): (xs: seq<ClientSession.Incoming>)
    ensures |xs| == |fs| && forall i :: 0 <= i < |fs| ==> xs[i] == Heard(json, fs[i])
  {
    if fs == [] then [] else [Heard(json, fs[0])] + HeardAll(json, fs[1..])
  }

  /** What the client's `read_frame` calls return on a byte stream: its frames, and then
      the error that ends it. */
  function ClientInbox(json: Json, bytes: seq<byte>, fault: bool, max: u32): seq<ClientSession.Incoming> {
    HeardAll(json, DecodeAll(bytes, fault, max).frames) + [ClientSession.ReadFails]
  }

  function Messages(why: string, ms: seq<ServerSession.Reply>): (xs: seq<ClientSession.Incoming>)
    ensures |xs| == |ms| && forall i :: 0 <= i < |ms| ==> xs[i] == ClientSession.Arrived(ClientSession.MessageOf(ms[i], why))
  {
    if ms == [] then [] else [ClientSession.Arrived(ClientSession.MessageOf(ms[0], why))] + Messages(why, ms[1..])
  }

  /** The bytes of the server's frames, cut anywhere, are to the client the frames in
      front of the cut, each as the server meant it, and then a failing read. */
  lemma ServerToClient(json: Json, why: string, ms: seq<ServerSession.Reply>, n: nat, fault: bool, w: u32, r: u32)
    requires json.Correct() && w <= r && AllFit(ReplyFrames(json, why, ms), w) && AllFit(ReplyFrames(json, why, ms), 0xFFFF_FFFF)
    requires n <= |EncodeAll(ReplyFrames(json, why, ms))|
    ensures var k := WholeFrames(ReplyFrames(json, why, ms), n);
      && ClientInbox(json, EncodeAll(ReplyFrames(json, why, ms))[..n], fault, r)
           == Messages(why, ms[..k]) + [ClientSession.ReadFails]
      && (n == |EncodeAll(ReplyFrames(json, why, ms))| ==> k == |ms|)
  {
    var fs := ReplyFrames(json, why, ms);
    var k := WholeFrames(fs, n);
    StreamCut(fs, n, fault, w, r);
    forall i | 0 <= i < k ensures HeardAll(json, fs[..k])[i] == Messages(why, ms[..k])[i] {
      assert fs[..k][i] == ReplyFrame(json, why, ms[i]) && ms[..k][i] == ms[i];
    }
    assert HeardAll(json, fs[..k]) == Messages(why, ms[..k]);
    WholeAtEnd(fs, n, fault, w, r);
  }

  lemma WholeAtEnd(fs: seq<Frame>, n: nat, fault: bool, w: u32, r: u32)
    requires AllFit(fs, w) && AllFit(fs, 0xFFFF_FFFF) && w <= r
    ensures n == |EncodeAll(fs)| ==> WholeFrames(fs, n) == |fs|
  {
    if n == |EncodeAll(fs)| {
      StreamCut(fs, n, fault, w, r);
      StreamIsFifo(fs, fault, w, r);
      assert EncodeAll(fs)[..n] == EncodeAll(fs);
    }
  }

  lemma {:induction false} RunOverMessages(a: ClientSession.Agent, c: ClientSession.Client, why: string, ms: seq<ServerSession.Reply>)
    requires !Text.Contains(why, ClientSession.LISTED) && !Text.Contains(why, ClientSession.NOT_LISTED)
    ensures ClientSession.Run(a, None, c, Messages(why, ms) + [ClientSession.ReadFails])
         == var d := ClientSession.OverReplies(a, c, ms);
            if d.phase.Done? then d else d.End(ClientSession.Failed(ClientSession.ConnectionLost))
    decreases |ms|
  {
    var inbox := Messages(why, ms) + [ClientSession.ReadFails];
    if !c.phase.Done? && ms != [] {
      ClientSession.ServerUnderstood(a, c, ms[0], why);
      assert inbox == [ClientSession.Arrived(ClientSession.MessageOf(ms[0], why))] + (Messages(why, ms[1..]) + [ClientSession.ReadFails]);
      ClientSession.RunCons(a, None, c, ClientSession.MessageOf(ms[0], why), Messages(why, ms[1..]) + [ClientSession.ReadFails]);
      RunOverMessages(a, ClientSession.OnReply(a, c, ms[0]), why, ms[1..]);
    }
  }

  /** A client on the bytes of a server's replies, cut anywhere, does what the closed
      system's client does on the replies in front of the cut; if none of them ends it,
      it reports the lost connection. */
  lemma ClientOnBytes(a: ClientSession.Agent, json: Json, why: string, ms: seq<ServerSession.Reply>, n: nat, fault: bool, w: u32, r: u32)
    requires json.Correct() && w <= r && AllFit(ReplyFrames(json, why, ms), w) && AllFit(ReplyFrames(json, why, ms), 0xFFFF_FFFF)
    requires n <= |EncodeAll(ReplyFrames(json, why, ms))|
    requires !Text.Contains(why, ClientSession.LISTED) && !Text.Contains(why, ClientSession.NOT_LISTED)
    ensures var bytes := EncodeAll(ReplyFrames(json, why, ms))[..n];
      var d := ClientSession.OverReplies(a, ClientSession.FRESH, ms[..WholeFrames(ReplyFrames(json, why, ms), n)]);
      ClientSession.Run(a, None, ClientSession.FRESH, ClientInbox(json, bytes, fault, r))
        == if d.phase.Done? then d else d.End(ClientSession.Failed(ClientSession.ConnectionLost))
  {
    ServerToClient(json, why, ms, n, fault, w, r);
    RunOverMessages(a, ClientSession.FRESH, why, ms[..WholeFrames(ReplyFrames(json, why, ms), n)]);
  }

  // ------------------------------------------------------------ client to server

  function RequestFrame(json: Json, q: ServerSession.Request): Frame {
    Frame(q.msgType, json.request(q))
  }

  function RequestFrames(json: Json, qs: seq<ServerSession.Request>): (fs: seq<Frame>)
    ensures |fs| == |qs| && forall i :: 0 <= i < |qs| ==> fs[i] == RequestFrame(json, qs[i])
  {
    if qs == [] then [] else [RequestFrame(json, qs[0])] + RequestFrames(json, qs[1..])
  }

  function Asked(json: Json, f: Frame): ServerSession.Input {
    ServerSession.Got(ServerSession.Request(f.msgType, json.body(f.msgType, f.payload)))
  }

  function AskedAll(json: Json, fs: seq<Frame>): (xs: seq<ServerSession.Input>)
    ensures |xs| == |fs| && forall i :: 0 <= i < |fs| ==> xs[i] == Asked(json, fs[i])
  {
    if fs == [] then [] else [Asked(json, fs[0])] + AskedAll(json, fs[1..])
  }

  /** What the server's `read_frame` calls return on a byte stream. */
  function ServerInbox(json: Json, bytes: seq<byte>, fault: bool, max: u32): seq<ServerSession.Input> {
    var got := DecodeAll(bytes, fault, max);
    AskedAll(json, got.frames) + [if got.error == UnexpectedEof then ServerSession.Eof else ServerSession.Fault]
  }

  function Inputs(qs: seq<ServerSession.Request>): (xs: seq<ServerSession.Input>)
    ensures |xs| == |qs| && forall i :: 0 <= i < |qs| ==> xs[i] == ServerSession.Got(qs[i])
  {
    if qs == [] then [] else [ServerSession.Got(qs[0])] + Inputs(qs[1..])
  }

  /** The bytes of the client's frames, cut anywhere, are to the server the requests in
      front of the cut and then the end of file, or an error if the stream failed. */
  lemma ClientToServer(json: Json, qs: seq<ServerSession.Request>, n: nat, fault: bool, w: u32, r: u32)
    requires json.Correct() && w <= r && AllFit(RequestFrames(json, qs), w) && AllFit(RequestFrames(json, qs), 0xFFFF_FFFF)
    requires n <= |EncodeAll(RequestFrames(json, qs))| && forall q <- qs :: WellFormed(q)
    ensures var k := WholeFrames(RequestFrames(json, qs), n);
      && ServerInbox(json, EncodeAll(RequestFrames(json, qs))[..n], fault, r)
           == Inputs(qs[..k]) + [if fault then ServerSession.Fault else ServerSession.Eof]
      && (n == |EncodeAll(RequestFrames(json, qs))| ==> k == |qs|)
  {
    var fs := RequestFrames(json, qs);
    var k := WholeFrames(fs, n);
    StreamCut(fs, n, fault, w, r);
    forall i | 0 <= i < k ensures AskedAll(json, fs[..k])[i] == Inputs(qs[..k])[i] {
      assert fs[..k][i] == RequestFrame(json, qs[i]) && qs[..k][i] == qs[i];
      assert WellFormed(qs[i]) by { assert qs[i] in qs; }
    }
    assert AskedAll(json, fs[..k]) == Inputs(qs[..k]);
    WholeAtEnd(fs, n, fault, w, r);
  }
}
