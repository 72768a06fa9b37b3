/** `run_session` on the client: a state machine over whatever frames arrive, from any
    server, and the loop that drives it over a link. */
module ClientSession {
  import opened Common
  import opened Identity
  import opened ServerSession
  import Base64
  import ExecPump
  import Frames
  import Text

  // ------------------------------------------------------------------ messages

  datatype ChallengeText = ChallengeText(nonce: string, sessionId: seq<byte>)

  datatype Verdict = Verdict(ok: bool, reason: Option<string>, message: Option<string>)

  datatype Fields = Fields(data: Option<string>, exitCode: Option<int>)

  /** A payload, as what each of the client's three parsers makes of it; `None` when
      that parser fails. */
  datatype Payload = Payload(challenge: Option<ChallengeText>, verdict: Option<Verdict>, value: Option<Fields>)

  datatype Message = Message(msgType: byte, payload: Payload)

  /** What `read_frame` returns: a frame, or any of its errors. */
  datatype Incoming = Arrived(message: Message) | ReadFails

  /** The agent's key and the command it wants run. */
  datatype Agent = Agent(crypto: Crypto, sk: Bytes32, shell: string)

  datatype Failure = ConnectionLost | ExpectedChallenge | ExpectedResult | BadPayload | KeyNotListed | AuthRejected

  /** How the process ends: an exit status, or an error from `run_session`. */
  datatype Exit = Code(code: int) | Failed(why: Failure)

  const DENIED_CODE: int := 126

  datatype Phase = WaitChallenge | WaitResult | WaitStream | Done(exit: Exit)

  /** `sent` and `got` count the frames written and read; `out` and `err` are what
      has been written to the terminal. */
  datatype Client = Client(phase: Phase, sent: seq<Request>, got: nat, out: seq<byte>, err: seq<byte>)
  {
    function Shown(st: ExecPump.Stream): seq<byte> {
      if st == ExecPump.StdOut then out else err
    }

    function End(e: Exit): Client {
      this.(phase := Done(e))
    }

    function Show(st: ExecPump.Stream, data: seq<byte>): Client {
      if st == ExecPump.StdOut then this.(out := out + data) else this.(err := err + data)
    }
  }

  const FRESH: Client := Client(WaitChallenge, [], 0, [], [])

  function AuthRequest(a: Agent, nonce: seq<byte>, sessionId: seq<byte>): Request {
    Request(Frames.AUTH_RESPONSE,
            AuthBody(KEY_TYPE_ED25519, FingerprintHex(a.crypto, a.crypto.publicKey(a.sk)),
                     SignAuthMessage(a.crypto, a.sk, SigningBytes(nonce, sessionId))))
  }

  function ExecRequest(a: Agent): Request {
    Request(Frames.EXEC_SHELL, ExecBody(a.shell))
  }

  // ------------------------------------------------------------------ handling

  const LISTED: string := "authorized_keys"
  const NOT_LISTED: string := "fingerprint not in " + LISTED

  function OrEmpty(s: Option<string>): string {
    match s case Some(t) => t case None => ""
  }

  /** The three signs by which the client takes a refusal for an unlisted key. */
  predicate MeansNotListed(v: Verdict) {
    || OrEmpty(v.reason) == "UNKNOWN_KEY"
    || Text.Contains(OrEmpty(v.message), LISTED)
    || Text.Contains(OrEmpty(v.message), NOT_LISTED)
  }

  /** The nonce of a challenge the client can answer. */
  function ChallengeNonce(m: Message): Option<seq<byte>> {
    if m.msgType == Frames.AUTH_CHALLENGE && m.payload.challenge.Some? then Base64.Decode(m.payload.challenge.value.nonce)
    else None
  }

  predicate Accepts(m: Message) {
    m.msgType == Frames.AUTH_RESULT && m.payload.verdict.Some? && m.payload.verdict.value.ok
  }

  predicate IsStreamType(t: byte) {
    t == Frames.STREAM_STDOUT || t == Frames.STREAM_STDERR
  }

  function StreamOf(t: byte): ExecPump.Stream {
    if t == Frames.STREAM_STDERR then ExecPump.StdErr else ExecPump.StdOut
  }

  /** The bytes of a stream frame that can be shown. */
  function StreamBytes(m: Message): Option<seq<byte>> {
    if IsStreamType(m.msgType) && m.payload.value.Some? && m.payload.value.value.data.Some? then
      Base64.Decode(m.payload.value.value.data.value)
    else None
  }

  /** What the client does with one frame. */
  function OnMessage(a: Agent, c: Client, m: Message): Client
    requires !c.phase.Done?
  {
    var t := c.(got := c.got + 1);
    match c.phase
    case WaitChallenge =>
      if m.msgType != Frames.AUTH_CHALLENGE then t.End(Failed(ExpectedChallenge))
      else
        (match ChallengeNonce(m)
         case None => t.End(Failed(BadPayload))
         case Some(nonce) => t.(sent := t.sent + [AuthRequest(a, nonce, m.payload.challenge.value.sessionId)], phase := WaitResult))
    case WaitResult =>
      if m.msgType != Frames.AUTH_RESULT then t.End(Failed(ExpectedResult))
      else if m.payload.verdict.None? then t.End(Failed(BadPayload))
      else if !m.payload.verdict.value.ok then
        t.End(Failed(if MeansNotListed(m.payload.verdict.value) then KeyNotListed else AuthRejected))
      else t.(sent := t.sent + [ExecRequest(a)], phase := WaitStream)
    case WaitStream =>
      if IsStreamType(m.msgType) then
        match StreamBytes(m)
        case None => t.End(Failed(BadPayload))
        case Some(data) => t.Show(StreamOf(m.msgType), data)
      else t.End(EndOn(m))
  }

  /** The exit that a frame which is no stream frame brings about. */
  function EndOn(m: Message): Exit {
    if m.msgType == Frames.EXEC_EXIT then
      match m.payload.value
      case None => Failed(BadPayload)
      case Some(v) => Code(if v.exitCode.Some? then v.exitCode.value else -1)
    else if m.msgType == Frames.POLICY_DENIED then Code(DENIED_CODE)
    else Code(1)
  }

  /** The same on a link that takes `room` frames in all (`None`: every one). */
  function Handle(a: Agent, room: Option<nat>, c: Client, m: Message): Client
    requires !c.phase.Done?
  {
    var t := OnMessage(a, c, m);
    if |t.sent| > |c.sent| && room.Some? && |c.sent| >= room.value then c.(got := c.got + 1).End(Failed(ConnectionLost)) else t
  }

  /** The client over everything the link delivers before it ends. */
  function Run(a: Agent, room: Option<nat>, c: Client, inbox: seq<Incoming>): Client
    decreases |inbox|
  {
    if c.phase.Done? then c
    else if inbox == [] || inbox[0].ReadFails? then c.End(Failed(ConnectionLost))
    else Run(a, room, Handle(a, room, c, inbox[0].message), inbox[1..])
  }

  lemma RunCons(a: Agent, room: Option<nat>, c: Client, m: Message, more: seq<Incoming>)
    requires !c.phase.Done?
    ensures Run(a, room, c, [Arrived(m)] + more) == Run(a, room, Handle(a, room, c, m), more)
  {
    assert ([Arrived(m)] + more)[1..] == more;
  }

  // ------------------------------------------------------- against any server

  /** The frame carries this chunk: its stream by the type byte, its bytes in base 64. */
  predicate Carries(i: Incoming, c: ExecPump.Chunk) {
    && i.Arrived?
    && i.message.msgType == (if c.stream == ExecPump.StdOut then 0x11 else 0x12)
    && i.message.payload.value.Some? && i.message.payload.value.value.data == Some(Base64.Encode(c.data))
  }

  predicate AllCarry(outs: seq<Incoming>, cs: seq<ExecPump.Chunk>) {
    |outs| == |cs| && forall k :: 0 <= k < |outs| ==> Carries(outs[k], cs[k])
  }

  /** Nothing the client could show. */
  ghost predicate Chunkless(i: Incoming) {
    forall c :: !Carries(i, c)
  }

  /** How a session ends on what carries no chunk: a failed read is a lost connection, a
      stream frame is a bad payload, and so is an exit frame that cannot be parsed; any
      other exit frame gives its code, or -1; a denial 126; all else 1. */
  ghost predicate EndsAs(i: Incoming, e: Exit) {
    match i
    case ReadFails => e == Failed(ConnectionLost)
    case Arrived(m) =>
      && (m.msgType == 0x11 || m.msgType == 0x12 ==> e == Failed(BadPayload))
      && (m.msgType == 0x13 ==>
            match m.payload.value
            case None => e == Failed(BadPayload)
            case Some(fields) => (match fields.exitCode case Some(code) => e == Code(code) case None => e == Code(-1)))
      && (m.msgType == 0x20 ==> e == Code(126))
      && (m.msgType !in {0x11, 0x12, 0x13, 0x20} ==> e == Code(1))
  }

  lemma CarriedShown(m: Message, c: ExecPump.Chunk)
    requires Carries(Arrived(m), c)
    ensures IsStreamType(m.msgType) && StreamOf(m.msgType) == c.stream && StreamBytes(m) == Some(c.data)
  {
    Base64.DecodeEncode(c.data);
  }

  lemma NotCarried(m: Message)
    requires Chunkless(Arrived(m))
    ensures StreamBytes(m).None?
  {
    if StreamBytes(m).Some? {
      Base64.EncodeDecode(m.payload.value.value.data.value);
      assert Carries(Arrived(m), ExecPump.Chunk(StreamOf(m.msgType), StreamBytes(m).value));
    }
  }

  lemma {:induction false} RunStream(a: Agent, room: Option<nat>, c: Client, outs: seq<Incoming>, cs: seq<ExecPump.Chunk>,
                                     rest: seq<Incoming>)
    requires c.phase == WaitStream && AllCarry(outs, cs)
    requires rest != [] ==> Chunkless(rest[0])
    ensures var d := Run(a, room, c, outs + rest);
      && d.phase.Done? && EndsAs(if rest == [] then ReadFails else rest[0], d.phase.exit)
      && d.out == c.out + ExecPump.ChunkBytes(cs, ExecPump.StdOut)
      && d.err == c.err + ExecPump.ChunkBytes(cs, ExecPump.StdErr)
      && d.sent == c.sent
    decreases |outs|
  {
    if outs == [] {
      assert outs + rest == rest;
      RunLast(a, room, c, rest);
    } else {
      assert Carries(outs[0], cs[0]) && AllCarry(outs[1..], cs[1..]);
      assert outs + rest == [outs[0]] + (outs[1..] + rest);
      RunChunk(a, room, c, outs[0].message, cs[0], outs[1..] + rest);
      RunStream(a, room, c.(got := c.got + 1).Show(cs[0].stream, cs[0].data), outs[1..], cs[1..], rest);
      ShownFirst(c.out, c.err, cs);
    }
  }

  lemma RunChunk(a: Agent, room: Option<nat>, c: Client, m: Message, chunk: ExecPump.Chunk, more: seq<Incoming>)
    requires c.phase == WaitStream && Carries(Arrived(m), chunk)
    ensures Run(a, room, c, [Arrived(m)] + more)
         == Run(a, room, c.(got := c.got + 1).Show(chunk.stream, chunk.data), more)
  {
    RunCons(a, room, c, m, more);
    HandleChunk(a, room, c, m, chunk);
  }

  lemma HandleChunk(a: Agent, room: Option<nat>, c: Client, m: Message, chunk: ExecPump.Chunk)
    requires c.phase == WaitStream && Carries(Arrived(m), chunk)
    ensures Handle(a, room, c, m) == c.(got := c.got + 1).Show(chunk.stream, chunk.data)
  {
    CarriedShown(m, chunk);
  }

  lemma RunLast(a: Agent, room: Option<nat>, c: Client, rest: seq<Incoming>)
    requires c.phase == WaitStream && (rest != [] ==> Chunkless(rest[0]))
    ensures var d := Run(a, room, c, rest);
      && d.phase.Done? && EndsAs(if rest == [] then ReadFails else rest[0], d.phase.exit)
      && d.out == c.out + [] && d.err == c.err + [] && d.sent == c.sent
  {
    if rest != [] && rest[0].Arrived? {
      NotCarried(rest[0].message);
    }
  }

  lemma ShownFirst(out: seq<byte>, err: seq<byte>, cs: seq<ExecPump.Chunk>)
    requires cs != []
    ensures var c := Client(WaitStream, [], 0, out, err).Show(cs[0].stream, cs[0].data);
      && c.out + ExecPump.ChunkBytes(cs[1..], ExecPump.StdOut) == out + ExecPump.ChunkBytes(cs, ExecPump.StdOut)
      && c.err + ExecPump.ChunkBytes(cs[1..], ExecPump.StdErr) == err + ExecPump.ChunkBytes(cs, ExecPump.StdErr)
  {
    var o, e := ExecPump.ChunkBytes(cs[1..], ExecPump.StdOut), ExecPump.ChunkBytes(cs[1..], ExecPump.StdErr);
    Assoc(out, cs[0].data, o);
    Assoc(err, cs[0].data, e);
    assert [] + o == o && [] + e == e;
  }

  /** The message is a challenge with this nonce and session id. */
  predicate Challenges(m: Message, nonce: seq<byte>, sessionId: seq<byte>) {
    m.msgType == 0x01 && m.payload.challenge == Some(ChallengeText(Base64.Encode(nonce), sessionId))
  }

  /** The answer to a challenge: the one key type, the key's fingerprint and the base 64
      of its signature over the bytes both sides build. */
  function Answer(a: Agent, nonce: seq<byte>, sessionId: seq<byte>): Request {
    Request(0x02, AuthBody("sao-ed25519", FingerprintHex(a.crypto, a.crypto.publicKey(a.sk)),
                           Base64.Encode(a.crypto.sign(a.sk, SigningBytes(nonce, sessionId)))))
  }

  /** Against any server: after a challenge and an acceptance the client shows exactly the
      chunks in front of the first thing that carries none, and ends as that says. It
      has answered the challenge it was shown and asked for its command, nothing
      else. */
  lemma RunMeaning(a: Agent, first: Message, nonce: seq<byte>, sessionId: seq<byte>, second: Message,
                   outs: seq<Incoming>, cs: seq<ExecPump.Chunk>, rest: seq<Incoming>)
    requires Challenges(first, nonce, sessionId)
    requires second.msgType == 0x03 && second.payload.verdict.Some? && second.payload.verdict.value.ok
    requires AllCarry(outs, cs) && (rest != [] ==> Chunkless(rest[0]))
    ensures var c := Run(a, None, FRESH, [Arrived(first)] + ([Arrived(second)] + (outs + rest)));
      && c.phase.Done? && EndsAs(if rest == [] then ReadFails else rest[0], c.phase.exit)
      && c.out == ExecPump.ChunkBytes(cs, ExecPump.StdOut) && c.err == ExecPump.ChunkBytes(cs, ExecPump.StdErr)
      && c.sent == [Answer(a, nonce, sessionId), Request(0x10, ExecBody(a.shell))]
  {
    Base64.DecodeEncode(nonce);
    RunCons(a, None, FRESH, first, [Arrived(second)] + (outs + rest));
    var c := Handle(a, None, FRESH, first);
    RunCons(a, None, c, second, outs + rest);
    RunStream(a, None, Handle(a, None, c, second), outs, cs, rest);
    var o, e := ExecPump.ChunkBytes(cs, ExecPump.StdOut), ExecPump.ChunkBytes(cs, ExecPump.StdErr);
    assert [] + o == o && [] + e == e;
  }

  /** A session that gets no command through: how it ends and what it has sent, by the
      first of the two opening frames that is not as it should be. */
  lemma HandshakeEnds(a: Agent, inbox: seq<Incoming>)
    ensures var c := Run(a, None, FRESH, inbox);
      && c.phase.Done?
      && (inbox == [] || inbox[0].ReadFails? ==> c.phase.exit == Failed(ConnectionLost) && c.sent == [])
      && (inbox != [] && inbox[0].Arrived? && inbox[0].message.msgType != 0x01 ==>
            c.phase.exit == Failed(ExpectedChallenge) && c.sent == [])
      && (inbox != [] && inbox[0].Arrived? && inbox[0].message.msgType == 0x01
            && (forall nonce, id :: !Challenges(inbox[0].message, nonce, id)) ==>
            c.phase.exit == Failed(BadPayload) && c.sent == [])
      && forall nonce, id :: inbox != [] && inbox[0].Arrived? && Challenges(inbox[0].message, nonce, id) ==>
           SecondEnds(inbox[1..], c.phase.exit) && [Answer(a, nonce, id)] <= c.sent
           && (|c.sent| == 1 <==> !AcceptedBy(inbox[1..]))
  {
    if inbox != [] && inbox[0].Arrived? {
      var m := inbox[0].message;
      forall nonce, id | Challenges(m, nonce, id)
        ensures ChallengeNonce(m) == Some(nonce) && m.payload.challenge.value.sessionId == id
      {
        Base64.DecodeEncode(nonce);
      }
      if ChallengeNonce(m).Some? {
        Base64.EncodeDecode(m.payload.challenge.value.nonce);
        assert Challenges(m, ChallengeNonce(m).value, m.payload.challenge.value.sessionId);
        AfterAnswer(a, Handle(a, None, FRESH, m), inbox[1..]);
      }
    }
  }

  predicate AcceptedBy(more: seq<Incoming>) {
    && more != [] && more[0].Arrived? && more[0].message.msgType == 0x03
    && more[0].message.payload.verdict.Some? && more[0].message.payload.verdict.value.ok
  }

  /** How the session ends on a second frame that is no acceptance. */
  ghost predicate SecondEnds(more: seq<Incoming>, e: Exit) {
    if more == [] || more[0].ReadFails? then e == Failed(ConnectionLost)
    else if more[0].message.msgType != 0x03 then e == Failed(ExpectedResult)
    else
      match more[0].message.payload.verdict
      case None => e == Failed(BadPayload)
      case Some(v) => v.ok || e == Failed(KeyNotListed) || e == Failed(AuthRejected)
  }

  lemma AfterAnswer(a: Agent, c: Client, more: seq<Incoming>)
    requires c.phase == WaitResult && |c.sent| == 1
    ensures var d := Run(a, None, c, more);
      && d.phase.Done? && SecondEnds(more, d.phase.exit) && c.sent <= d.sent
      && (|d.sent| == 1 <==> !AcceptedBy(more))
  {
    if more != [] && more[0].Arrived? {
      var d := Handle(a, None, c, more[0].message);
      if d.phase == WaitStream {
        RunStreamSends(a, None, d, more[1..]);
      }
    }
  }

  /** Frames behind the one that ends the client are never looked at. */
  lemma {:induction false} LaterUnread(a: Agent, room: Option<nat>, c: Client, inbox: seq<Incoming>, more: seq<Incoming>)
    requires Run(a, room, c, inbox).phase != Done(Failed(ConnectionLost))
    ensures Run(a, room, c, inbox + more) == Run(a, room, c, inbox)
    decreases |inbox|
  {
    if !c.phase.Done? {
      assert (inbox + more)[1..] == inbox[1..] + more;
      LaterUnread(a, room, Handle(a, room, c, inbox[0].message), inbox[1..], more);
    }
  }

  lemma {:induction false} RunStreamSends(a: Agent, room: Option<nat>, c: Client, inbox: seq<Incoming>)
    requires c.phase == WaitStream
    ensures Run(a, room, c, inbox).phase.Done? && Run(a, room, c, inbox).sent == c.sent
    decreases |inbox|
  {
    if inbox != [] && inbox[0].Arrived? {
      var d := Handle(a, room, c, inbox[0].message);
      if !d.phase.Done? {
        RunStreamSends(a, room, d, inbox[1..]);
      }
    }
  }

  /** What the client would write if the link took everything. */
  function Requests(a: Agent, inbox: seq<Incoming>): seq<Request> {
    if inbox == [] || inbox[0].ReadFails? || ChallengeNonce(inbox[0].message).None? then []
    else
      [AuthRequest(a, ChallengeNonce(inbox[0].message).value, inbox[0].message.payload.challenge.value.sessionId)]
      + if |inbox| >= 2 && inbox[1].Arrived? && Accepts(inbox[1].message) then [ExecRequest(a)] else []
  }

  /** Against any server at all, over a link that may break at any write: the client ends;
      it answers only a challenge, and asks for its command exactly when it has been
      accepted; if it could not ask, it shows nothing and fails. */
  lemma CommandAfterAcceptance(a: Agent, room: Option<nat>, inbox: seq<Incoming>)
    ensures var c := Run(a, room, FRESH, inbox); var all := Requests(a, inbox);
      && c.phase.Done?
      && c.sent == (if room.Some? && room.value < |all| then all[..room.value] else all)
      && (|c.sent| < 2 ==> c.phase.exit.Failed? && c.out == [] && c.err == [])
  {
    if inbox != [] && inbox[0].Arrived? {
      var c := Handle(a, room, FRESH, inbox[0].message);
      if !c.phase.Done? {
        AfterChallenge(a, room, c, inbox[1..]);
      }
    }
  }

  lemma AfterChallenge(a: Agent, room: Option<nat>, c: Client, inbox: seq<Incoming>)
    requires c.phase == WaitResult && |c.sent| == 1 && (room.Some? ==> room.value >= 1)
    requires c.out == [] && c.err == []
    ensures var d := Run(a, room, c, inbox);
      var accepted := inbox != [] && inbox[0].Arrived? && Accepts(inbox[0].message);
      && d.phase.Done?
      && d.sent == (if accepted && (room.Some? ==> room.value >= 2) then c.sent + [ExecRequest(a)] else c.sent)
      && (|d.sent| < 2 ==> d.phase.exit.Failed? && d.out == [] && d.err == [])
  {
    if inbox != [] && inbox[0].Arrived? {
      var d := Handle(a, room, c, inbox[0].message);
      if d.phase == WaitStream {
        RunStreamSends(a, room, d, inbox[1..]);
      }
    }
  }

  /** A refused client reports its key as not listed exactly when the refusal says so by
      its reason or anywhere in its message, and else that it is rejected; the source's
      third test adds nothing. */
  lemma RefusalReported(a: Agent, first: Message, nonce: seq<byte>, sessionId: seq<byte>, second: Message, v: Verdict,
                        more: seq<Incoming>)
    requires Challenges(first, nonce, sessionId)
    requires second.msgType == 0x03 && second.payload.verdict == Some(v) && !v.ok
    ensures var c := Run(a, None, FRESH, [Arrived(first)] + ([Arrived(second)] + more));
      && (c.phase == Done(Failed(KeyNotListed)) <==>
            || v.reason == Some("UNKNOWN_KEY")
            || (v.message.Some? && exists i: nat ::
                  i <= |v.message.value| && Text.StartsWith(v.message.value[i..], "authorized_keys")))
      && (c.phase != Done(Failed(KeyNotListed)) ==> c.phase == Done(Failed(AuthRejected)))
      && c.sent == [Answer(a, nonce, sessionId)]
  {
    Base64.DecodeEncode(nonce);
    RunCons(a, None, FRESH, first, [Arrived(second)] + more);
    RunCons(a, None, Handle(a, None, FRESH, first), second, more);
    var text := OrEmpty(v.message);
    Text.ContainsIff(text, LISTED);
    Text.ContainsIff(text, NOT_LISTED);
    if i: nat :| i <= |text| && Text.StartsWith(text[i..], NOT_LISTED) {
      assert text[i..][19..] == text[i + 19..] && NOT_LISTED[19..] == LISTED;
      assert Text.StartsWith(text[i + 19..], LISTED);
    }
    if v.message.None? {
      assert forall i: nat :: i <= |text| ==> !Text.StartsWith(text[i..], LISTED);
    }
  }

  // ---------------------------------------------------- against this server

  function ReasonText(f: AuthFailure): string {
    match f
    case UnsupportedKeyType => "UNSUPPORTED_KEY_TYPE"
    case UnknownKey => "UNKNOWN_KEY"
    case BadSignature => "BAD_SIGNATURE"
  }

  /** `why` is the text of a signature error. */
  function RefusalText(f: AuthFailure, why: string): string {
    match f
    case UnsupportedKeyType => "only sao-ed25519"
    case UnknownKey => NOT_LISTED
    case BadSignature => why
  }

  function JustFields(data: Option<string>, exitCode: Option<int>): Payload {
    Payload(None, None, Some(Fields(data, exitCode)))
  }

  /** A frame of this server as the client's parsers see it. */
  function MessageOf(m: Reply, why: string): Message {
    match m
    case Challenge(nonce, id) =>
      Message(Frames.AUTH_CHALLENGE, Payload(Some(ChallengeText(Base64.Encode(nonce), id)), None, Some(Fields(None, None))))
    case AuthOk => Message(Frames.AUTH_RESULT, Payload(None, Some(Verdict(true, None, None)), Some(Fields(None, None))))
    case AuthFailed(f) =>
      Message(Frames.AUTH_RESULT,
              Payload(None, Some(Verdict(false, Some(ReasonText(f)), Some(RefusalText(f, why)))), Some(Fields(None, None))))
    case Output(st, data) =>
      Message(if st == ExecPump.StdOut then Frames.STREAM_STDOUT else Frames.STREAM_STDERR,
              JustFields(Some(Base64.Encode(data)), None))
    case ExecExit(code) => Message(Frames.EXEC_EXIT, JustFields(None, Some(code)))
    case PolicyDenied(_) => Message(Frames.POLICY_DENIED, JustFields(None, None))
    case ErrorReply(_) => Message(Frames.ERROR, JustFields(None, None))
  }

  /** The type byte of every reply, and the codes of the three refusals. */
  lemma ReplyTypes(m: Reply, why: string)
    ensures var w := MessageOf(m, why); var v := w.payload.verdict;
      && (m.Challenge? ==> Challenges(w, m.nonce, m.sessionId))
      && (m.AuthOk? || m.AuthFailed? ==> w.msgType == 0x03 && v.Some? && v.value.ok == m.AuthOk?)
      && (m == AuthFailed(UnsupportedKeyType) ==> v.value.reason == Some("UNSUPPORTED_KEY_TYPE"))
      && (m == AuthFailed(UnknownKey) ==>
            v.value.reason == Some("UNKNOWN_KEY") && v.value.message == Some("fingerprint not in authorized_keys"))
      && (m == AuthFailed(BadSignature) ==> v.value.reason == Some("BAD_SIGNATURE"))
      && (m.Output? ==> Carries(Arrived(w), ExecPump.Chunk(m.stream, m.data)))
      && (m.ExecExit? ==> w.msgType == 0x13 && w.payload.value.Some? && w.payload.value.value.exitCode == Some(m.code))
      && (m.PolicyDenied? ==> w.msgType == 0x20)
      && (m.ErrorReply? ==> w.msgType == 0xFF)
  {
    assert NOT_LISTED == "fingerprint not in authorized_keys";
  }

  /** What the client does with a frame of this server. */
  function OnReply(a: Agent, c: Client, m: Reply): Client
    requires !c.phase.Done?
  {
    var t := c.(got := c.got + 1);
    match c.phase
    case WaitChallenge =>
      if m.Challenge? then t.(sent := t.sent + [AuthRequest(a, m.nonce, m.sessionId)], phase := WaitResult)
      else t.End(Failed(ExpectedChallenge))
    case WaitResult =>
      if m.AuthOk? then t.(sent := t.sent + [ExecRequest(a)], phase := WaitStream)
      else if m.AuthFailed? then t.End(Failed(if m.reason == UnknownKey then KeyNotListed else AuthRejected))
      else t.End(Failed(ExpectedResult))
    case WaitStream =>
      match m
      case Output(StdOut, data) => t.(out := t.out + data)
      case Output(StdErr, data) => t.(err := t.err + data)
      case ExecExit(code) => t.End(Code(code))
      case PolicyDenied(_) => t.End(Code(DENIED_CODE))
      case _ => t.End(Code(1))
  }

  /** The client over a list of frames of this server. */
  function OverReplies(a: Agent, c: Client, ms: seq<Reply>): Client
    decreases |ms|
  {
    if c.phase.Done? || ms == [] then c else OverReplies(a, OnReply(a, c, ms[0]), ms[1..])
  }

  lemma ContainedChar(s: string, pat: string, c: char)
    ensures Text.Contains(s, pat) && c in pat ==> c in s
  {
    Text.ContainsIff(s, pat);
    if i: nat :| i <= |s| && Text.StartsWith(s[i..], pat) {
      assert forall k :: 0 <= k < |pat| ==> pat[k] == s[i + k];
    }
  }

  /** The client understands this server: its parsers and tests come to what the server
      meant by each of its frames. */
  lemma ServerUnderstood(a: Agent, c: Client, m: Reply, why: string)
    requires !c.phase.Done? && !Text.Contains(why, LISTED) && !Text.Contains(why, NOT_LISTED)
    ensures OnMessage(a, c, MessageOf(m, why)) == OnReply(a, c, m)
  {
    match m
    case Challenge(nonce, _) => Base64.DecodeEncode(nonce);
    case Output(_, data) => Base64.DecodeEncode(data);
    case AuthFailed(f) => RefusalUnderstood(f, why);
    case _ =>
  }

  lemma RefusalUnderstood(f: AuthFailure, why: string)
    requires !Text.Contains(why, LISTED) && !Text.Contains(why, NOT_LISTED)
    ensures MeansNotListed(Verdict(false, Some(ReasonText(f)), Some(RefusalText(f, why)))) <==> f == UnknownKey
  {
    match f
    case UnsupportedKeyType =>
      assert |ReasonText(f)| == 20 && |"UNKNOWN_KEY"| == 11;
      TypeTextSilent();
    case BadSignature => assert |ReasonText(f)| == 13 && |"UNKNOWN_KEY"| == 11;
    case UnknownKey =>
  }

  /** The message about the key type does not speak of the table. */
  lemma TypeTextSilent()
    ensures !Text.Contains("only sao-ed25519", LISTED) && !Text.Contains("only sao-ed25519", NOT_LISTED)
  {
    var text := "only sao-ed25519";
    assert LISTED[10] == '_' && NOT_LISTED[29] == '_' && '_' !in text;
    ContainedChar(text, LISTED, '_');
    ContainedChar(text, NOT_LISTED, '_');
  }

  // ----------------------------------------------------------------- the loop

  /** The message view of a connection: what is still to be read, what was written, and
      how many frames the peer takes in all. */
  class Link {
    const room: Option<nat>
    var inbox: seq<Incoming>
    var outbox: seq<Request>

    constructor (inbox: seq<Incoming>, room: Option<nat>)
      ensures this.inbox == inbox && outbox == [] && this.room == room
    {
      this.inbox, outbox, this.room := inbox, [], room;
    }

    method ReadFrame() returns (m: Option<Message>)
      modifies this`inbox
      ensures m.None? <==> old(inbox) == [] || old(inbox)[0].ReadFails?
      ensures m.Some? ==> old(inbox) == [Arrived(m.value)] + inbox
    {
      if inbox == [] || inbox[0].ReadFails? {
        return None;
      }
      m := Some(inbox[0].message);
      inbox := inbox[1..];
    }

    method WriteFrame(r: Request) returns (ok: bool)
      modifies this`outbox
      ensures ok <==> room.None? || |old(outbox)| < room.value
      ensures outbox == if ok then old(outbox) + [r] else old(outbox)
    {
      ok := room.None? || |outbox| < room.value;
      if ok {
        outbox := outbox + [r];
      }
    }
  }

  /** The client's control flow: challenge, result, then frames until one ends it. It
      ends as the state machine does and has written exactly its requests. */
  method RunSession(a: Agent, link: Link) returns (exit: Exit, stdout: seq<byte>, stderr: seq<byte>)
    requires link.outbox == []
    modifies link
    ensures var c := Run(a, link.room, FRESH, old(link.inbox));
      && c.phase == Done(exit) && stdout == c.out && stderr == c.err && link.outbox == c.sent
  {
    stdout, stderr := [], [];
    var f := link.ReadFrame();
    if f.None? {
      return Failed(ConnectionLost), stdout, stderr;
    }
    ghost var c := Handle(a, link.room, FRESH, f.value);
    assert Run(a, link.room, FRESH, old(link.inbox)) == Run(a, link.room, c, link.inbox);
    if f.value.msgType != Frames.AUTH_CHALLENGE {
      return Failed(ExpectedChallenge), stdout, stderr;
    }
    var challenge := f.value.payload.challenge;
    if challenge.None? {
      return Failed(BadPayload), stdout, stderr;
    }
    var nonce := Base64.Decode(challenge.value.nonce);
    if nonce.None? {
      return Failed(BadPayload), stdout, stderr;
    }
    var ok := link.WriteFrame(AuthRequest(a, nonce.value, challenge.value.sessionId));
    if !ok {
      return Failed(ConnectionLost), stdout, stderr;
    }
    exit, stdout, stderr := AwaitResult(a, link, c);
  }

  /** The second frame, and then the command. */
  method AwaitResult(a: Agent, link: Link, ghost before: Client) returns (exit: Exit, stdout: seq<byte>, stderr: seq<byte>)
    requires before.phase == WaitResult && link.outbox == before.sent && before.out == before.err == []
    modifies link
    ensures var c := Run(a, link.room, before, old(link.inbox));
      && c.phase == Done(exit) && stdout == c.out && stderr == c.err && link.outbox == c.sent
  {
    stdout, stderr := [], [];
    var f := link.ReadFrame();
    if f.None? {
      return Failed(ConnectionLost), stdout, stderr;
    }
    ghost var c := Handle(a, link.room, before, f.value);
    assert Run(a, link.room, before, old(link.inbox)) == Run(a, link.room, c, link.inbox);
    if f.value.msgType != Frames.AUTH_RESULT {
      return Failed(ExpectedResult), stdout, stderr;
    }
    var v := f.value.payload.verdict;
    if v.None? {
      return Failed(BadPayload), stdout, stderr;
    }
    if !v.value.ok {
      return Failed(if MeansNotListed(v.value) then KeyNotListed else AuthRejected), stdout, stderr;
    }
    var ok := link.WriteFrame(ExecRequest(a));
    if !ok {
      return Failed(ConnectionLost), stdout, stderr;
    }
    exit, stdout, stderr := ShowStreams(a, link, c);
  }

  /** Frames until one of them ends the client. */
  method ShowStreams(a: Agent, link: Link, ghost before: Client) returns (exit: Exit, stdout: seq<byte>, stderr: seq<byte>)
    requires before.phase == WaitStream && link.outbox == before.sent && before.out == before.err == []
    modifies link`inbox
    ensures var c := Run(a, link.room, before, old(link.inbox));
      && c.phase == Done(exit) && stdout == c.out && stderr == c.err && link.outbox == c.sent
  {
    stdout, stderr := [], [];
    ghost var c := before;
    while true
      invariant c.phase == WaitStream && stdout == c.out && stderr == c.err && link.outbox == c.sent
      invariant Run(a, link.room, before, old(link.inbox)) == Run(a, link.room, c, link.inbox)
      decreases |link.inbox|
    {
      var f := link.ReadFrame();
      if f.None? {
        return Failed(ConnectionLost), stdout, stderr;
      }
      var m := f.value;
      c := Handle(a, link.room, c, m);
      if !IsStreamType(m.msgType) {
        return EndOn(m), stdout, stderr;
      }
      var data := StreamBytes(m);
      if data.None? {
        return Failed(BadPayload), stdout, stderr;
      }
      if m.msgType == Frames.STREAM_STDERR {
        stderr := stderr + data.value;
      } else {
        stdout := stdout + data.value;
      }
    }
  }
}
