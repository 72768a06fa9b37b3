/** Client, server and child together, joined by two bounded frame links: nothing
    is lost, nothing blocks for good, and every run is finite. Either end may lose the
    connection at any moment. */
module ClosedSystem {
  import opened Common
  import opened Identity
  import opened ServerSession
  import opened ClientSession
  import opened ServerGuarantees
  import opened ServerReplies
  import ExecPump
  import Policy

  /** What the environment fixes: the two configurations, what spawning yields, and
      how many frames each link holds. */
  datatype Setup = Setup(cfg: Config, agent: Agent, child: Option<ExecPump.Child>, linkCap: nat)
  {
    predicate Valid() {
      cfg.pipeCap >= 1 && linkCap >= 1
    }
  }

  /** The links are the tails of the two logs: replies from `client.got` on, and
      requests from `|server.inp|` on. `lost`: one end has seen the connection fail. */
  datatype World = World(server: Server, client: Client, lost: bool)

  const INITIAL: World := World(ServerSession.INIT, FRESH, false)

  datatype Move = ServerMove(step: ServerSession.Step) | ClientRead | ClientEnd | ClientLost

  /** The server's next input is the next request on the link; it reads end of file
      only when the link is empty and the client has gone. */
  predicate InputArrives(w: World, input: Input) {
    if |w.server.inp| < |w.client.sent| then input == Got(w.client.sent[|w.server.inp|])
    else w.client.phase.Done? && input == Eof
  }

  /** The server's read or write fails. */
  predicate IsLoss(step: ServerSession.Step) {
    step.Abort? || step.ReceiveBroken?
  }

  predicate ServerCan(u: Setup, w: World, step: ServerSession.Step) {
    && ServerSession.Enabled(u.cfg, w.server, step)
    && (step.Receive? ==> InputArrives(w, step.input) && step.child == u.child)
    && (step.ReceiveBroken? ==> InputArrives(w, Got(step.request)))
    && (|ServerSession.Apply(u.cfg, w.server, step).out| > |w.server.out| ==> |w.server.out| - w.client.got < u.linkCap)
  }

  predicate Can(u: Setup, w: World, move: Move) {
    match move
    case ServerMove(step) => ServerCan(u, w, step)
    case ClientRead =>
      && !w.client.phase.Done? && w.client.got < |w.server.out|
      && (|OnReply(u.agent, w.client, w.server.out[w.client.got]).sent| > |w.client.sent| ==>
            |w.client.sent| - |w.server.inp| < u.linkCap)
    case ClientEnd =>
      !w.client.phase.Done? && w.client.got == |w.server.out| && w.server.phase == Finished
    case ClientLost => !w.client.phase.Done?
  }

  function Do(u: Setup, w: World, move: Move): World
    requires Can(u, w, move)
  {
    match move
    case ServerMove(step) =>
      w.(server := ServerSession.Apply(u.cfg, w.server, step), lost := w.lost || IsLoss(step))
    case ClientRead => w.(client := OnReply(u.agent, w.client, w.server.out[w.client.got]))
    case ClientEnd => w.(client := w.client.End(Failed(ConnectionLost)))
    case ClientLost => w.(client := w.client.End(Failed(ConnectionLost)), lost := true)
  }

  ghost predicate Leads(u: Setup, w: World, moves: seq<Move>, w': World)
    decreases |moves|
  {
    if moves == [] then w == w'
    else Can(u, w, moves[0]) && Leads(u, Do(u, w, moves[0]), moves[1..], w')
  }

  predicate BothFinished(w: World) {
    w.client.phase.Done? && w.server.phase == Finished
  }

  /** The timer fires too late if at all, no pipe and no connection fails. */
  predicate Faultless(move: Move) {
    match move
    case ServerMove(step) => !step.Timeout? && !(step.Task? && step.step.ReaderFault?) && !IsLoss(step)
    case ClientLost => false
    case _ => true
  }

  // --------------------------------------------------------------- invariant

  /** A frame after which the client stops reading. */
  predicate IsFinal(m: Reply) {
    IsTerminal(m) || m.AuthFailed? || m.ErrorReply?
  }

  /** What the timer has written behind the exit frame. */
  function Behind(s: Server): seq<Reply> {
    if s.jobs != [] && IsLate(s.jobs[0]) then LATE_GROUP else []
  }

  /** The number of frames up to the one that ends the client. */
  function Upto(s: Server): int {
    |s.out| - |Behind(s)|
  }

  /** The response to the one request, or what there is of it. */
  function Response(s: Server): seq<Reply> {
    if Upto(s) >= 2 then s.out[2..Upto(s)] else []
  }

  function Decision(u: Setup, s: Server): Result<AuthorizedKey, AuthFailure> {
    Authenticate(u.cfg.crypto, u.cfg.Table(), s.nonce, s.sessionId, KEY_TYPE_ED25519,
                 FingerprintHex(u.agent.crypto, u.agent.crypto.publicKey(u.agent.sk)),
                 SignAuthMessage(u.agent.crypto, u.agent.sk, SigningBytes(s.nonce, s.sessionId)))
  }

  /** What the server has made of the one client it serves. */
  ghost predicate ServerSide(u: Setup, s: Server, lost: bool) {
    && |s.jobs| <= 1 && |s.inp| <= 2 && NoError(s.out)
    && (u.cfg.keys.None? ==> s.out == [])
    && (s.out == [] ==> s.inp == [] && (s.phase == Finished ==> lost || u.cfg.keys.None?))
    && (|s.out| == 1 ==> s.phase == AwaitAuth || (lost && s.phase == Finished))
    && (s.auth.None? && |s.out| == 2 ==> s.out[1].AuthFailed?)
    && (forall job <- s.jobs :: JobOf(u, s, lost, job))
    && (s.phase == Finished && s.auth.Some? && s.jobs == [] ==>
          lost || (Policy.CheckShell(u.cfg.deny, u.agent.shell).None? && (|u.cfg.shellArgv| < 2 || u.child.None?)))
  }

  /** Its decision is the one the client's answer to its challenge calls for. */
  ghost predicate AuthSide(u: Setup, s: Server) {
    && (s.auth.None? && |s.out| == 2 ==> s.out[1].AuthFailed? && Decision(u, s) == Err(s.out[1].reason))
    && (s.auth.Some? ==> Decision(u, s).Ok?)
  }

  ghost predicate JobOf(u: Setup, s: Server, lost: bool, job: Job) {
    && job.shell == u.agent.shell
    && (job.Process? ==>
          && u.child == Some(job.exec.child) && |u.cfg.shellArgv| >= 2
          && (job.end == Dropped ==> lost) && (job.end == Open <==> s.phase == Running))
  }

  /** The server has nothing more to write. */
  predicate HasAnswered(s: Server) {
    s.phase == Finished || ((s.phase == Ready || s.phase == Flushing) && |s.inp| == 2)
  }

  /** The client has seen its connection fail. */
  predicate CutOff(w: World) {
    w.lost && w.client.phase == Done(Failed(ConnectionLost))
  }

  ghost predicate ClientSide(u: Setup, w: World) {
    var c, s := w.client, w.server;
    && c.got <= |s.out| && |c.sent| <= 2
    && s.inp <= c.sent
    && c.out == Data(s.out[..c.got], ExecPump.StdOut)
    && c.err == Data(s.out[..c.got], ExecPump.StdErr)
    && (|c.sent| >= 1 ==> |s.out| >= 1 && c.sent[0] == AuthRequest(u.agent, s.nonce, s.sessionId))
    && (|c.sent| == 2 ==> |s.out| >= 2 && c.sent[1] == ExecRequest(u.agent))
    && (w.lost && !c.phase.Done? ==> s.phase == Finished)
    && match c.phase
       case WaitChallenge => c.got == 0 && c.sent == []
       case WaitResult => c.got == 1 && |c.sent| == 1
       case WaitStream => c.got >= 2 && |c.sent| == 2 && s.auth.Some? && AllOutput(s.out[2..c.got])
       case Done(exit) => CutOff(w) || (HasAnswered(s) && Explains(s, c, exit))
  }

  /** Why the client ended as it did. */
  ghost predicate Explains(s: Server, c: Client, exit: Exit) {
    if exit == Failed(ConnectionLost) then
      s.phase == Finished && c.got == |s.out| && (s.out != [] ==> !IsFinal(s.out[|s.out| - 1]))
    else
      && 2 <= c.got == Upto(s)
      && match s.out[c.got - 1]
         case ExecExit(code) => c.got >= 3 && exit == Code(code)
         case PolicyDenied(_) => c.got >= 3 && exit == Code(DENIED_CODE)
         case AuthFailed(reason) => exit == Failed(if reason == UnknownKey then KeyNotListed else AuthRejected)
         case _ => false
  }

  ghost predicate WInv(u: Setup, w: World) {
    ServerSession.Inv(u.cfg, w.server) && ServerSide(u, w.server, w.lost) && AuthSide(u, w.server) && ClientSide(u, w)
  }

  // ------------------------------------------------------ shape of the replies

  /** With at most one request, the replies after authentication are the one response,
      and behind it the second exit frame if there is one. */
  lemma OneResponse(s: Server)
    requires RepliesInv(s) && |s.jobs| <= 1 && NoError(s.out)
    ensures Upto(s) >= 2 && s.out == s.out[..2] + Response(s) + Behind(s)
    ensures s.jobs == [] ==> Response(s) == []
    ensures s.jobs != [] ==>
      || (s.phase != Running && Answers(s.jobs[0], Response(s)))
      || (s.phase != Ready && s.phase != Flushing && Begins(s.jobs[0], Response(s)))
  {
    var rs := Responses(s.out);
    assert rs == s.out[2..];
    SplitFlattens(rs);
    OneMatches(s, SplitGroups(rs), rs);
    Assoc(s.out[..2], Response(s), Behind(s));
  }

  lemma OneMatches(s: Server, sp: Split, rs: seq<Reply>)
    requires Matches(s, sp) && |s.jobs| <= 1 && rs == s.out[2..] && rs == Flatten(sp.groups) + sp.open
    ensures Upto(s) >= 2 && rs == Response(s) + Behind(s)
    ensures s.jobs == [] ==> Response(s) == []
    ensures s.jobs != [] ==>
      || (s.phase != Running && Answers(s.jobs[0], Response(s)))
      || (s.phase != Ready && s.phase != Flushing && Begins(s.jobs[0], Response(s)))
  {
    if s.jobs == [] {
      assert sp.groups == [] && rs == [];
      ResponseIs(s, []);
    } else if Settled(s.jobs, sp) {
      var g := OneAnswer(s.jobs, sp.groups);
      assert rs == g + Behind(s);
      ResponseIs(s, g);
    } else {
      OnePending(s.jobs, sp);
      assert rs == sp.open + Behind(s);
      ResponseIs(s, sp.open);
    }
  }

  lemma ResponseIs(s: Server, g: seq<Reply>)
    requires |s.out| >= 2 && s.out[2..] == g + Behind(s)
    ensures Upto(s) >= 2 && Response(s) == g
  {
    assert |s.out| == 2 + |g| + |Behind(s)|;
    assert s.out[2..Upto(s)] == s.out[2..][..|g|];
  }

  lemma OnePending(jobs: seq<Job>, sp: Split)
    requires |jobs| == 1 && Pending(jobs, sp)
    ensures Flatten(sp.groups) + sp.open == sp.open && !IsLate(jobs[0]) && Begins(jobs[0], sp.open)
  {
    assert jobs[..0] == [] && sp.groups == [];
    assert [] + sp.open == sp.open;
  }

  lemma OneAnswer(jobs: seq<Job>, groups: seq<seq<Reply>>) returns (g: seq<Reply>)
    requires |jobs| == 1 && Answered(jobs, groups)
    ensures Answers(jobs[0], g) && Flatten(groups) == g + if IsLate(jobs[0]) then LATE_GROUP else []
  {
    var rest;
    rest, g := AnsweredLast(jobs, groups);
    assert rest == [];
    FlattenSnoc([], g);
    assert [] + [g] == [g];
    if IsLate(jobs[0]) {
      FlattenSnoc([g], LATE_GROUP);
    }
  }

  lemma {:induction false} DataAppend(a: seq<Reply>, b: seq<Reply>, st: ExecPump.Stream)
    ensures Data(a + b, st) == Data(a, st) + Data(b, st)
  {
    if b == [] {
      assert a + b == a;
    } else {
      var m, c := b[|b| - 1], b[..|b| - 1];
      assert b == c + [m];
      Assoc(a, c, [m]);
      DataSnoc(a + c, m, st);
      DataSnoc(c, m, st);
      DataAppend(a, c, st);
      Assoc(Data(a, st), Data(c, st), DataOf(m, st));
    }
  }

  lemma DataCut(ms: seq<Reply>, n: nat, st: ExecPump.Stream)
    requires n <= |ms|
    ensures Data(ms, st) == Data(ms[..n], st) + Data(ms[n..], st)
  {
    assert ms == ms[..n] + ms[n..];
    DataAppend(ms[..n], ms[n..], st);
  }

  /** What stands behind the response shows nothing. */
  lemma BehindSilent(s: Server, st: ExecPump.Stream)
    requires Upto(s) >= 2 && s.out == s.out[..2] + Response(s) + Behind(s)
    ensures Data(s.out[2..], st) == Data(Response(s), st) && Data(s.out, st) == Data(s.out[..Upto(s)], st)
  {
    assert Data(Behind(s), st) == [] by { assert LATE_GROUP[..0] == []; }
    assert s.out[2..] == Response(s) + Behind(s);
    DataAppend(Response(s), Behind(s), st);
    assert s.out == s.out[..Upto(s)] + Behind(s);
    DataAppend(s.out[..Upto(s)], Behind(s), st);
  }

  // ------------------------------------------------------------ preservation

  /** Inside a response the frame at position `i` is a stream frame or ends it. */
  lemma ResponseFrame(s: Server, i: nat)
    requires RepliesInv(s) && |s.jobs| <= 1 && NoError(s.out) && 2 <= i < |s.out|
    ensures i < Upto(s) ==>
      s.jobs != [] && (s.out[i].Output? || (IsTerminal(s.out[i]) && i + 1 == Upto(s) && s.phase != Running))
    ensures i >= Upto(s) ==> 2 < Upto(s) && s.out[Upto(s) - 1].ExecExit?
  {
    OneResponse(s);
    FrameIn(s, i);
  }

  lemma FrameIn(s: Server, i: nat)
    requires 2 <= i < |s.out| && Upto(s) >= 2 && s.out == s.out[..2] + Response(s) + Behind(s)
    requires s.jobs == [] ==> Response(s) == []
    requires s.jobs != [] ==> (s.phase != Running && Answers(s.jobs[0], Response(s))) || Begins(s.jobs[0], Response(s))
    ensures i < Upto(s) ==>
      s.jobs != [] && (s.out[i].Output? || (IsTerminal(s.out[i]) && i + 1 == Upto(s) && s.phase != Running))
    ensures i >= Upto(s) ==> 2 < Upto(s) && s.out[Upto(s) - 1].ExecExit?
  {
    var g := Response(s);
    if i < Upto(s) {
      assert g[i - 2] == s.out[i];
      FrameOf(s.jobs[0], g, i - 2);
    } else {
      assert g[|g| - 1] == s.out[Upto(s) - 1];
    }
  }

  lemma FrameOf(job: Job, g: seq<Reply>, i: nat)
    requires (Answers(job, g) || Begins(job, g)) && i < |g|
    ensures g[i].Output? || (IsTerminal(g[i]) && i + 1 == |g| && !Begins(job, g))
  {
    if Begins(job, g) {
      assert g[i] in g && IsOutput(g[i]);
    } else if i + 1 < |g| && job.Process? {
      assert g[i] in g[..|g| - 1];
    }
  }

  /** The frame the client reads next is one its state expects. */
  ghost predicate Expected(w: World)
    requires w.client.got < |w.server.out|
  {
    var m, s := w.server.out[w.client.got], w.server;
    match w.client.phase
    case WaitChallenge => m == Challenge(s.nonce, s.sessionId)
    case WaitResult => (m.AuthOk? && s.auth.Some?) || (m.AuthFailed? && s.phase == Finished && |s.out| == 2 && s.jobs == [])
    case WaitStream =>
      || m.Output?
      || (IsTerminal(m) && w.client.got + 1 == Upto(s) && HasAnswered(s))
    case Done(_) => false
  }

  lemma ExitNotShown(out: seq<Reply>, n: nat, i: nat)
    requires 2 <= i < n <= |out|
    ensures out[i].ExecExit? ==> !AllOutput(out[2..n])
  {
    assert out[2..n][i - 2] == out[i];
    assert out[i] in out[2..n];
  }

  lemma NextReply(u: Setup, w: World)
    requires WInv(u, w) && !w.client.phase.Done? && w.client.got < |w.server.out|
    ensures Expected(w)
  {
    if w.client.phase == WaitStream {
      var s, n := w.server, w.client.got;
      ResponseFrame(s, n);
      if 2 < Upto(s) <= n {
        ExitNotShown(s.out, n, Upto(s) - 1);
      }
    }
  }

  lemma ReadShown(a: Agent, c: Client, m: Reply)
    requires !c.phase.Done? && (m.Output? ==> c.phase == WaitStream)
    ensures var c' := OnReply(a, c, m);
      c'.got == c.got + 1 && c'.out == c.out + DataOf(m, ExecPump.StdOut) && c'.err == c.err + DataOf(m, ExecPump.StdErr)
  {
  }

  /** Reading a frame moves it from the link to the client's account. */
  lemma ReadData(u: Setup, w: World)
    requires ClientSide(u, w) && w.client.got < |w.server.out| && Expected(w)
    ensures var c := OnReply(u.agent, w.client, w.server.out[w.client.got]);
      && c.got == w.client.got + 1
      && c.out == Data(w.server.out[..c.got], ExecPump.StdOut)
      && c.err == Data(w.server.out[..c.got], ExecPump.StdErr)
  {
    var n := w.client.got;
    var m := w.server.out[n];
    ReadShown(u.agent, w.client, m);
    assert w.server.out[..n + 1] == w.server.out[..n] + [m];
    DataSnoc(w.server.out[..n], m, ExecPump.StdOut);
    DataSnoc(w.server.out[..n], m, ExecPump.StdErr);
  }

  lemma ReadClientSide(u: Setup, w: World)
    requires ClientSide(u, w) && Can(u, w, ClientRead) && Expected(w)
    ensures ClientSide(u, Do(u, w, ClientRead))
  {
    ReadData(u, w);
    if w.client.phase == WaitStream {
      ReadResponse(u, w);
    } else {
      ReadHandshake(u, w);
    }
  }

  /** Reading the challenge or the result. */
  lemma ReadHandshake(u: Setup, w: World)
    requires ClientSide(u, w) && Can(u, w, ClientRead) && Expected(w) && w.client.phase != WaitStream
    ensures var c, s := OnReply(u.agent, w.client, w.server.out[w.client.got]), w.server;
      match c.phase
      case WaitResult => c.got == 1 && c.sent == [AuthRequest(u.agent, s.nonce, s.sessionId)]
      case WaitStream => c.got == 2 && c.sent == w.client.sent + [ExecRequest(u.agent)] && s.auth.Some?
      case Done(exit) => c.sent == w.client.sent && HasAnswered(s) && Explains(s, c, exit)
      case _ => false
  {
  }

  /** Reading inside a response: more output, or the frame that ends the client. */
  lemma ReadResponse(u: Setup, w: World)
    requires ClientSide(u, w) && Can(u, w, ClientRead) && Expected(w) && w.client.phase == WaitStream
    ensures var c, s := OnReply(u.agent, w.client, w.server.out[w.client.got]), w.server;
      match c.phase
      case WaitStream => AllOutput(s.out[2..c.got])
      case Done(exit) => HasAnswered(s) && Explains(s, c, exit)
      case _ => false
  {
    var n := w.client.got;
    assert w.server.out[2..n + 1] == w.server.out[2..n] + [w.server.out[n]];
  }

  lemma ClientReadInv(u: Setup, w: World)
    requires WInv(u, w) && Can(u, w, ClientRead)
    ensures WInv(u, Do(u, w, ClientRead))
  {
    NextReply(u, w);
    ReadClientSide(u, w);
  }

  lemma ClientEndInv(u: Setup, w: World)
    requires WInv(u, w) && Can(u, w, ClientEnd)
    ensures WInv(u, Do(u, w, ClientEnd))
  {
    ClientEndSide(u, w);
  }

  lemma ClientEndSide(u: Setup, w: World)
    requires ClientSide(u, w) && Can(u, w, ClientEnd)
    requires |w.server.out| >= 1 ==> w.server.out[0].Challenge?
    requires |w.server.out| >= 2 && w.server.auth.Some? ==> w.server.out[1].AuthOk?
    ensures ClientSide(u, Do(u, w, ClientEnd))
  {
    var s, c := w.server, w.client;
    if c.phase == WaitStream && c.got > 2 {
      var m := s.out[|s.out| - 1];
      assert m == s.out[2..c.got][c.got - 3];
      assert m in s.out[2..c.got];
    }
  }

  /** What no step of the server undoes. */
  lemma ServerGrows(u: Setup, s: Server, step: ServerSession.Step)
    requires ServerSession.Enabled(u.cfg, s, step)
    requires (s.phase == Start ==> s.out == []) && (s.auth.Some? ==> s.phase !in {Start, AwaitAuth})
    ensures var s' := ServerSession.Apply(u.cfg, s, step);
      && (s'.out == s.out || (|s'.out| == |s.out| + 1 && s'.out[..|s.out|] == s.out))
      && InputTaken(step, s.inp, s'.inp)
      && (s.out != [] ==> s'.nonce == s.nonce && s'.sessionId == s.sessionId)
      && (s.auth.Some? ==> s'.auth == s.auth)
      && (s.phase == Finished ==> s'.phase == Finished && s'.out == s.out && s'.inp == s.inp)
  {
  }

  predicate InputTaken(step: ServerSession.Step, inp: seq<Request>, inp': seq<Request>) {
    || inp' == inp
    || (step.Receive? && step.input.Got? && inp' == inp + [step.input.request])
    || (step.ReceiveBroken? && inp' == inp + [step.request])
  }

  /** A server that has answered and is sent nothing more writes at most what stands
      behind the response. */
  lemma AnsweredStays(u: Setup, s: Server, step: ServerSession.Step)
    requires HasAnswered(s) && ServerSession.Enabled(u.cfg, s, step) && |s.jobs| <= 1
    requires !step.ReceiveBroken? && (step.Receive? ==> step.input.Eof?)
    requires s.HasEnded() ==> !IsLate(s.jobs[0])
    ensures var s' := ServerSession.Apply(u.cfg, s, step);
      && HasAnswered(s') && Upto(s') == Upto(s) && (s.phase == Finished ==> s'.phase == Finished && s'.out == s.out)
  {
  }

  lemma DoneStays(u: Setup, w: World, step: ServerSession.Step)
    requires ClientSide(u, w) && ServerCan(u, w, step) && w.client.phase.Done? && !CutOff(w) && |w.server.jobs| <= 1
    requires w.server.HasEnded() ==> !IsLate(w.server.jobs[0])
    ensures var s' := ServerSession.Apply(u.cfg, w.server, step);
      HasAnswered(s') && Upto(s') == Upto(w.server) && (w.server.phase == Finished ==> s'.phase == Finished && s'.out == w.server.out)
  {
    if w.server.phase == Ready {
      assert !(|w.server.inp| < |w.client.sent|);
    }
    AnsweredStays(u, w.server, step);
  }

  lemma ExplainsStays(s: Server, s': Server, c: Client, exit: Exit)
    requires Explains(s, c, exit) && Upto(s') == Upto(s) && c.got <= |s.out| <= |s'.out| && s'.out[..|s.out|] == s.out
    requires s.phase == Finished ==> s'.phase == Finished && s'.out == s.out
    ensures Explains(s', c, exit)
  {
    if exit != Failed(ConnectionLost) {
      assert s'.out[..|s.out|][c.got - 1] == s.out[c.got - 1];
    }
  }

  /** What the client can count on when the server moves from `s` to `s'`. */
  ghost predicate Follows(s: Server, s': Server, c: Client, lost: bool, lost': bool) {
    && s'.inp <= c.sent
    && |s'.out| >= |s.out| && s'.out[..|s.out|] == s.out
    && (s.out != [] ==> s'.nonce == s.nonce && s'.sessionId == s.sessionId)
    && (s.auth.Some? ==> s'.auth == s.auth)
    && (lost ==> lost') && (lost' && !c.phase.Done? ==> s'.phase == Finished)
    && (c.phase.Done? && !CutOff(World(s, c, lost)) ==>
          HasAnswered(s') && Upto(s') == Upto(s) && (s.phase == Finished ==> s'.phase == Finished && s'.out == s.out))
  }

  lemma ClientSideFrame(u: Setup, s: Server, s': Server, c: Client, lost: bool, lost': bool)
    requires ClientSide(u, World(s, c, lost)) && Follows(s, s', c, lost, lost')
    ensures ClientSide(u, World(s', c, lost'))
  {
    assert s'.out[..c.got] == s.out[..c.got];
    if c.phase == WaitStream {
      assert s'.out[2..c.got] == s.out[2..c.got];
    }
    if c.phase.Done? && !CutOff(World(s, c, lost)) {
      ExplainsStays(s, s', c, c.phase.exit);
    }
  }

  lemma ServerMoveClientSide(u: Setup, w: World, step: ServerSession.Step)
    requires WInv(u, w) && ServerCan(u, w, step)
    ensures ClientSide(u, Do(u, w, ServerMove(step)))
  {
    EndedOnce(u.cfg, w.server);
    MoveFollows(u, w, step);
    MoveClientSide(u, w, step);
  }

  lemma EndedOnce(cfg: Config, s: Server)
    requires ServerSession.Inv(cfg, s)
    ensures (s.phase == Start ==> s.out == []) && (s.auth.Some? ==> s.phase !in {Start, AwaitAuth})
    ensures s.HasEnded() ==> s.jobs[|s.jobs| - 1].end == Completed
  {
  }

  lemma MoveClientSide(u: Setup, w: World, step: ServerSession.Step)
    requires ClientSide(u, w) && ServerCan(u, w, step)
    requires Follows(w.server, ServerSession.Apply(u.cfg, w.server, step), w.client, w.lost, w.lost || IsLoss(step))
    ensures ClientSide(u, Do(u, w, ServerMove(step)))
  {
    ClientSideFrame(u, w.server, ServerSession.Apply(u.cfg, w.server, step), w.client, w.lost, w.lost || IsLoss(step));
  }

  lemma MoveFollows(u: Setup, w: World, step: ServerSession.Step)
    requires ClientSide(u, w) && ServerCan(u, w, step)
    requires w.server.phase == Start ==> w.server.out == []
    requires w.server.auth.Some? ==> w.server.phase !in {Start, AwaitAuth}
    requires |w.server.jobs| <= 1 && (w.server.HasEnded() ==> !IsLate(w.server.jobs[0]))
    ensures Follows(w.server, ServerSession.Apply(u.cfg, w.server, step), w.client, w.lost, w.lost || IsLoss(step))
  {
    ServerGrows(u, w.server, step);
    RequestTaken(w, step, ServerSession.Apply(u.cfg, w.server, step).inp);
    if w.client.phase.Done? && !CutOff(w) {
      DoneStays(u, w, step);
    }
  }

  /** What the server has read stays a beginning of what the client sent. */
  lemma RequestTaken(w: World, step: ServerSession.Step, inp': seq<Request>)
    requires w.server.inp <= w.client.sent
    requires step.Receive? ==> InputArrives(w, step.input)
    requires step.ReceiveBroken? ==> InputArrives(w, Got(step.request))
    requires InputTaken(step, w.server.inp, inp')
    ensures inp' <= w.client.sent
  {
  }

  /** A step of a process or its pump. */
  predicate OfProcess(step: ServerSession.Step) {
    step.Task? || step.PumpChunk? || step.PumpClosed? || step.PumpWait? || step.PumpExit? || step.Timeout?
  }

  lemma ProcessMoveServerSide(u: Setup, s: Server, lost: bool, step: ServerSession.Step)
    requires ServerSide(u, s, lost) && (s.HasCurrent() ==> s.auth.Some?) && |s.out| >= 2
    requires ServerSession.Enabled(u.cfg, s, step) && OfProcess(step)
    ensures ServerSide(u, ServerSession.Apply(u.cfg, s, step), lost)
  {
    var s' := ServerSession.Apply(u.cfg, s, step);
    assert JobOf(u, s, lost, s.jobs[0]) by { assert s.jobs[0] in s.jobs; }
    assert s'.jobs == [s'.jobs[0]];
    assert JobOf(u, s', lost, s'.jobs[0]);
  }

  lemma ReceiveServerSide(u: Setup, w: World, input: Input)
    requires WInv(u, w) && ServerCan(u, w, Receive(input, u.child))
    ensures ServerSide(u, ServerSession.Apply(u.cfg, w.server, Receive(input, u.child)), w.lost)
  {
    var s := w.server;
    if s.phase == AwaitAuth {
      AuthServerSide(u, s, w.lost, input, w.client);
    } else {
      if s.jobs == [] {
        assert s.out[2..] == [] by { OneResponse(s); }
      }
      RequestServerSide(u, s, w.lost, input);
    }
  }

  /** The client's answer is the one frame that is read before authentication. */
  lemma AuthServerSide(u: Setup, s: Server, lost: bool, input: Input, c: Client)
    requires ServerSide(u, s, lost) && s.phase == AwaitAuth && s.auth.None? && s.jobs == [] && s.inp == [] && |s.out| == 1
    requires input.Got? ==> c.sent != [] && input.request == c.sent[0] == AuthRequest(u.agent, s.nonce, s.sessionId)
    requires !input.Got? ==> lost
    ensures ServerSide(u, OnAuth(u.cfg, s, input), lost)
  {
  }

  lemma RequestServerSide(u: Setup, s: Server, lost: bool, input: Input)
    requires ServerSide(u, s, lost) && s.phase == Ready && s.auth.Some? && |s.inp| == |s.jobs| + 1 && |s.out| >= 2
    requires input.Got? ==> input.request == ExecRequest(u.agent) && |s.inp| == 1
    requires !input.Got? ==> lost || s.jobs != []
    ensures ServerSide(u, OnRequest(u.cfg, s, input, u.child), lost)
  {
    var s' := OnRequest(u.cfg, s, input, u.child);
    forall job | job in s'.jobs ensures JobOf(u, s', lost, job) {
      if job in s.jobs {
        assert JobOf(u, s, lost, job);
      }
    }
  }

  /** The connection fails under the server, which may have been running a process. */
  lemma LossServerSide(u: Setup, s: Server, lost: bool, step: ServerSession.Step)
    requires ServerSide(u, s, lost) && ServerSession.Enabled(u.cfg, s, step) && IsLoss(step)
    requires step.ReceiveBroken? ==> |s.inp| <= 1 && s.out != []
    ensures ServerSide(u, ServerSession.Apply(u.cfg, s, step), true)
  {
    var s' := ServerSession.Apply(u.cfg, s, step);
    forall k | 0 <= k < |s'.jobs| ensures JobOf(u, s', true, s'.jobs[k]) {
      assert JobOf(u, s, lost, s.jobs[k]) by { assert s.jobs[k] in s.jobs; }
    }
  }

  lemma ServerMoveServerSide(u: Setup, w: World, step: ServerSession.Step)
    requires WInv(u, w) && ServerCan(u, w, step)
    ensures ServerSide(u, ServerSession.Apply(u.cfg, w.server, step), w.lost || IsLoss(step))
  {
    if OfProcess(step) {
      ProcessMoveServerSide(u, w.server, w.lost, step);
    } else if step.Receive? {
      ReceiveServerSide(u, w, step.input);
    } else if IsLoss(step) {
      LossServerSide(u, w.server, w.lost, step);
    } else if step.Flushed? {
      FlushedServerSide(u, w.server, w.lost);
    } else if step.LateTimeout? {
      LateServerSide(u, w.server, w.lost);
    }
  }

  lemma FlushedServerSide(u: Setup, s: Server, lost: bool)
    requires ServerSide(u, s, lost) && s.phase == Flushing && |s.out| >= 2
    ensures ServerSide(u, s.(phase := Ready), lost)
  {
    forall k | 0 <= k < |s.jobs| ensures JobOf(u, s.(phase := Ready), lost, s.jobs[k]) {
      assert JobOf(u, s, lost, s.jobs[k]) by { assert s.jobs[k] in s.jobs; }
    }
  }

  lemma LateServerSide(u: Setup, s: Server, lost: bool)
    requires ServerSide(u, s, lost) && s.HasEnded() && s.auth.Some? && |s.out| >= 2
    ensures ServerSide(u, LateExit(s), lost)
  {
    assert JobOf(u, s, lost, s.jobs[0]) by { assert s.jobs[0] in s.jobs; }
    var s' := LateExit(s);
    assert s'.jobs == [s'.jobs[0]];
    assert JobOf(u, s', lost, s'.jobs[0]);
  }

  lemma ServerMoveInv(u: Setup, w: World, step: ServerSession.Step)
    requires WInv(u, w) && ServerCan(u, w, step)
    ensures WInv(u, Do(u, w, ServerMove(step)))
  {
    ServerSession.StepInv(u.cfg, w.server, step);
    ServerMoveClientSide(u, w, step);
    ServerMoveServerSide(u, w, step);
    ServerMoveAuthSide(u, w, step);
  }

  lemma ServerMoveAuthSide(u: Setup, w: World, step: ServerSession.Step)
    requires WInv(u, w) && ServerCan(u, w, step)
    ensures AuthSide(u, ServerSession.Apply(u.cfg, w.server, step))
  {
    if w.server.phase == AwaitAuth {
      AuthDecided(u, w.server, step, w.client);
    } else {
      AuthKept(u, w.server, step);
    }
  }

  lemma AuthDecided(u: Setup, s: Server, step: ServerSession.Step, c: Client)
    requires s.phase == AwaitAuth && s.auth.None? && |s.out| == 1 && ServerSession.Enabled(u.cfg, s, step) && s.jobs == []
    requires step.Receive? && step.input.Got? ==> step.input.request == AuthRequest(u.agent, s.nonce, s.sessionId)
    ensures AuthSide(u, ServerSession.Apply(u.cfg, s, step))
  {
  }

  lemma AuthKept(u: Setup, s: Server, step: ServerSession.Step)
    requires AuthSide(u, s) && s.phase != AwaitAuth && ServerSession.Enabled(u.cfg, s, step)
    requires s.phase == Start ==> s.out == [] && s.auth.None?
    requires if s.auth.None? then s.phase in {Start, Finished} else s.out != []
    ensures AuthSide(u, ServerSession.Apply(u.cfg, s, step))
  {
    if s.auth.Some? {
      ServerGrows(u, s, step);
    } else {
      NoneKept(u, s, step);
    }
  }

  lemma NoneKept(u: Setup, s: Server, step: ServerSession.Step)
    requires s.auth.None? && ServerSession.Enabled(u.cfg, s, step)
    requires (s.phase == Start && s.out == []) || s.phase == Finished
    ensures var s' := ServerSession.Apply(u.cfg, s, step);
      && s'.auth.None? && (|s'.out| == 2 ==> s'.out == s.out && s'.nonce == s.nonce && s'.sessionId == s.sessionId)
  {
  }

  /** Losing the client changes nothing on the server's side but what can still happen. */
  lemma LostServerSide(u: Setup, s: Server, lost: bool)
    requires ServerSide(u, s, lost)
    ensures ServerSide(u, s, true)
  {
    forall job | job in s.jobs ensures JobOf(u, s, true, job) {
      assert JobOf(u, s, lost, job);
    }
  }

  lemma ClientLostInv(u: Setup, w: World)
    requires WInv(u, w) && Can(u, w, ClientLost)
    ensures WInv(u, Do(u, w, ClientLost))
  {
    LostServerSide(u, w.server, w.lost);
  }

  lemma MoveInv(u: Setup, w: World, move: Move)
    requires WInv(u, w) && Can(u, w, move)
    ensures WInv(u, Do(u, w, move))
  {
    match move
    case ServerMove(step) => ServerMoveInv(u, w, step);
    case ClientRead => ClientReadInv(u, w);
    case ClientEnd => ClientEndInv(u, w);
    case ClientLost => ClientLostInv(u, w);
  }

  lemma {:induction false} LeadsInv(u: Setup, w: World, moves: seq<Move>, w': World)
    requires WInv(u, w) && Leads(u, w, moves, w')
    ensures WInv(u, w')
    decreases |moves|
  {
    if moves != [] {
      MoveInv(u, w, moves[0]);
      LeadsInv(u, Do(u, w, moves[0]), moves[1..], w');
    }
  }
}
