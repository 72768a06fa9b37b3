/** Delivery, progress, termination and outcome of the closed system. */
module EndToEnd {
  import opened Common
  import opened Identity
  import opened ServerSession
  import opened ClientSession
  import opened ServerReplies
  import opened ClosedSystem
  import AgentKey
  import AuthorizedKeys
  import ExecPump
  import Policy
  import Text

  // ---------------------------------------------------------------- delivery

  /** Bytes of one stream in frames that are written but not yet read. */
  function InFlight(w: World, st: ExecPump.Stream): seq<byte>
    requires w.client.got <= |w.server.out|
  {
    Data(w.server.out[w.client.got..], st)
  }

  ghost predicate Balanced(w: World, st: ExecPump.Stream)
    requires w.client.got <= |w.server.out| && w.server.jobs != [] && w.server.jobs[0].Process?
  {
    var job := w.server.jobs[0];
    var h := job.exec.Of(st);
    var script := ExecPump.Project(job.exec.child.script, st);
    var seen := w.client.Shown(st) + InFlight(w, st) + ExecPump.ChunkBytes(job.exec.chan, st);
    && seen <= script
    && (job.end == Open && h.reading ==> seen + h.pipe + ExecPump.Project(job.exec.todo, st) == script)
    && ((job.end == Open || EndedItself(job)) && !h.reading && !h.lost ==> seen == script)
  }

  /** The server's account of its one process. */
  lemma ProcessAccount(s: Server, st: ExecPump.Stream)
    requires RepliesInv(s) && NoError(s.out) && |s.jobs| == 1 && s.jobs[0].Process?
    ensures ExecPump.StreamInv(s.jobs[0].exec, st, Data(s.out[2..], st))
    ensures s.phase == Running ==> s.jobs[0].exec.rx
    ensures EndedItself(s.jobs[0]) ==> Whole(s.jobs[0].exec, s.out[2..], st)
  {
    OneResponse(s);
    BehindSilent(s, st);
    AccountOf(s.jobs[0], Response(s), st);
  }

  lemma AccountOf(job: Job, g: seq<Reply>, st: ExecPump.Stream)
    requires job.Process? && (Answers(job, g) || Begins(job, g))
    ensures ExecPump.StreamInv(job.exec, st, Data(g, st))
    ensures EndedItself(job) ==> Whole(job.exec, g, st)
  {
  }

  lemma BalancedFrom(w: World, st: ExecPump.Stream, all: seq<byte>)
    requires w.client.got <= |w.server.out| && w.server.jobs != [] && w.server.jobs[0].Process?
    requires ExecPump.StreamInv(w.server.jobs[0].exec, st, all)
    requires all == w.client.Shown(st) + InFlight(w, st)
    requires w.server.jobs[0].end == Open ==> w.server.jobs[0].exec.rx
    requires EndedItself(w.server.jobs[0]) && !w.server.jobs[0].exec.Of(st).lost ==>
      all == ExecPump.Project(w.server.jobs[0].exec.child.script, st)
    ensures Balanced(w, st)
  {
  }

  /** At every moment every byte the child has to write is on the terminal, in a
      frame, in the channel, in the pipe or still unwritten, in that order and once;
      and what is on its way is always a prefix, even when a pipe has failed or either
      end has lost the connection. */
  lemma Delivery(u: Setup, moves: seq<Move>, w: World, st: ExecPump.Stream)
    requires Leads(u, INITIAL, moves, w) && w.server.jobs != [] && w.server.jobs[0].Process?
    ensures w.client.got <= |w.server.out| && Balanced(w, st)
  {
    LeadsInv(u, INITIAL, moves, w);
    var s := w.server;
    var all := Data(s.out[2..], st);
    assert JobOf(u, s, w.lost, s.jobs[0]) by { assert s.jobs[0] in s.jobs; }
    ProcessAccount(s, st);
    OutputAfterAuth(s, st);
    DataCut(s.out, w.client.got, st);
    BalancedFrom(w, st, all);
  }

  lemma OutputAfterAuth(s: Server, st: ExecPump.Stream)
    requires |s.out| >= 2 && s.out[0].Challenge? && s.out[1].AuthOk?
    ensures Data(s.out, st) == Data(s.out[2..], st)
  {
    var head, tail := s.out[..2], s.out[2..];
    assert Data(head, st) == [] by {
      assert forall m <- head :: m == s.out[0] || m == s.out[1];
      SilentData(head);
    }
    assert Data(s.out, st) == Data(head, st) + Data(tail, st) by { DataCut(s.out, 2, st); }
  }

  // ---------------------------------------------------------------- progress

  /** Until both ends have finished, something other than the timer or a fault can move;
      or, once one end has seen the connection fail, the server sees it too. */
  lemma Progress(u: Setup, moves: seq<Move>, w: World)
    requires u.Valid() && Leads(u, INITIAL, moves, w) && !BothFinished(w)
    ensures exists move :: Can(u, w, move) && Unforced(w, move)
  {
    LeadsInv(u, INITIAL, moves, w);
    var move := NextMove(u, w);
  }

  /** A move that needs no new misfortune. */
  predicate Unforced(w: World, move: Move) {
    Faultless(move) || (w.lost && move == ServerMove(Abort))
  }

  lemma NextMove(u: Setup, w: World) returns (move: Move)
    requires u.Valid() && WInv(u, w) && !BothFinished(w)
    ensures Can(u, w, move) && Unforced(w, move)
  {
    if w.client.phase.Done? {
      move := ServerAlone(u, w);
    } else if w.client.got < |w.server.out| {
      move := ClientRead;
      NextReply(u, w);
      ReadFits(u, w);
    } else if w.server.phase == Finished {
      move := ClientEnd;
    } else {
      move := ServerNext(u, w);
    }
  }

  /** With the client gone the server can finish. */
  lemma ServerAlone(u: Setup, w: World) returns (move: Move)
    requires ClientSide(u, w) && w.client.phase.Done? && w.server.phase != Finished
    requires w.server.phase == Flushing ==> w.server.HasEnded()
    ensures Can(u, w, move) && Unforced(w, move)
  {
    move := ServerMove(if w.lost then Abort else if w.server.phase == Flushing then Flushed else Receive(Eof, u.child));
  }

  /** The link has room for what the client answers. */
  lemma ReadFits(u: Setup, w: World)
    requires u.Valid() && ClientSide(u, w) && !w.client.phase.Done? && w.client.got < |w.server.out| && Expected(w)
    requires w.client.phase == WaitResult ==> |w.server.inp| == 1 || w.server.out[w.client.got].AuthFailed?
    ensures Can(u, w, ClientRead)
  {
  }

  /** A client that has read everything waits for a server that can move. */
  lemma ServerNext(u: Setup, w: World) returns (move: Move)
    requires u.Valid() && WInv(u, w) && !w.client.phase.Done? && w.client.got == |w.server.out| && w.server.phase != Finished
    ensures Can(u, w, move) && Faultless(move)
  {
    if w.server.phase == Running {
      move := RunningMove(u, w);
    } else if w.server.phase == AwaitAuth || w.server.phase == Ready {
      WaitingRequest(u, w);
      move := ServerMove(Receive(Got(w.client.sent[|w.server.inp|]), u.child));
      WriteFits(u, w, move.step);
    } else {
      move := ServerMove(OwnStep(u, w.server.phase));
      WriteFits(u, w, move.step);
    }
  }

  /** What the server does without being sent anything. */
  function OwnStep(u: Setup, phase: ServerSession.Phase): ServerSession.Step {
    if phase == Flushing then Flushed else if u.cfg.keys.None? then LoadFails else Begin(seq(32, _ => 0), [])
  }

  /** The link has room for a frame when nothing is on it. */
  lemma WriteFits(u: Setup, w: World, step: ServerSession.Step)
    requires u.Valid() && w.client.got == |w.server.out| && ServerSession.Enabled(u.cfg, w.server, step)
    requires !step.ReceiveBroken?
    requires step.Receive? ==> InputArrives(w, step.input) && step.child == u.child
    ensures ServerCan(u, w, step)
  {
  }

  lemma AnsweredEndsTerminal(s: Server)
    requires RepliesInv(s) && NoError(s.out) && |s.jobs| == 1 && s.phase == Ready
    ensures !AllOutput(s.out[2..])
  {
    OneResponse(s);
    var g := Response(s);
    assert s.out[2..][|g| - 1] == g[|g| - 1];
    assert g[|g| - 1] in s.out[2..];
  }

  /** A server that waits for a frame from a client that has read everything has one
      on its way. */
  lemma WaitingRequest(u: Setup, w: World)
    requires WInv(u, w) && !w.client.phase.Done? && w.client.got == |w.server.out|
    requires w.server.phase == AwaitAuth || w.server.phase == Ready
    ensures |w.server.inp| < |w.client.sent|
  {
    if w.server.phase == Ready && |w.server.inp| == 2 {
      assert w.client.phase == WaitStream ==> AllOutput(w.server.out[2..]) by {
        assert w.server.out[2..w.client.got] == w.server.out[2..];
      }
      AnsweredEndsTerminal(w.server);
    }
  }

  /** Polling the pump gets it on, or a task below it can move. */
  lemma RunningMove(u: Setup, w: World) returns (move: Move)
    requires u.Valid() && w.client.got == |w.server.out|
    requires w.server.HasCurrent() && |w.server.jobs| == 1
    requires w.server.Current().exec.rx
    ensures Can(u, w, move) && Faultless(move)
  {
    var e := w.server.Current().exec;
    if ExecPump.PumpReady(e) {
      match e.pump
      case Receiving => move := ServerMove(if e.chan != [] then PumpChunk else PumpClosed);
      case Waiting => move := ServerMove(PumpWait);
      case Exiting => move := ServerMove(PumpExit);
    } else {
      var es := ExecPump.Progress(u.cfg.pipeCap, e);
      move := ServerMove(Task(0, es));
    }
  }

  // ------------------------------------------------------------- termination

  function PhaseRank(p: ServerSession.Phase): nat {
    match p
    case Start => 5
    case AwaitAuth => 3
    case Ready => 1
    case Running => 5
    case Flushing => 3
    case Finished => 0
  }

  function JobRank(job: Job): nat {
    if job.Process? then ExecPump.Rank(job.exec) else 0
  }

  /** The work of the process, before and after it is spawned. */
  function WorkRank(u: Setup, s: Server): nat {
    if s.jobs != [] then JobRank(s.jobs[0])
    else if u.child.Some? then ExecPump.Rank(ExecPump.Spawn(u.child.value)) else 0
  }

  function Rank(u: Setup, w: World): int {
    ServerRank(u, w.server) + 8 * (2 - |w.server.inp|) - w.client.got + (if w.client.phase.Done? then 0 else 1)
  }

  lemma RankNat(u: Setup, w: World)
    requires WInv(u, w)
    ensures Rank(u, w) >= 0
  {
  }

  lemma ReceiveRank(e: ExecPump.Exec)
    requires e.pump == ExecPump.Receiving && e.chan != [] && ExecPump.ChunksSized(e.chan)
    ensures ExecPump.Rank(ExecPump.Receive(e)) + 2 <= ExecPump.Rank(e)
  {
    assert e.chan[0] in e.chan;
  }

  function ServerRank(u: Setup, s: Server): int {
    PhaseRank(s.phase) + WorkRank(u, s) + |s.out|
  }

  lemma ProcessRank(u: Setup, s: Server, step: ServerSession.Step)
    requires |s.jobs| == 1 && ServerSession.Enabled(u.cfg, s, step) && OfProcess(step)
    requires s.HasCurrent() ==> ExecPump.ChunksSized(s.jobs[0].exec.chan)
    ensures ServerRank(u, ServerSession.Apply(u.cfg, s, step)) < ServerRank(u, s)
    ensures ServerSession.Apply(u.cfg, s, step).inp == s.inp
  {
    match step
    case Task(i, es) => ExecPump.RankDecreases(u.cfg.pipeCap, s.jobs[0].exec, es);
    case PumpChunk => ReceiveRank(s.jobs[0].exec);
    case _ =>
  }

  lemma CurrentSized(s: Server)
    requires RepliesInv(s) && NoError(s.out) && |s.jobs| == 1 && s.HasCurrent()
    ensures ExecPump.ChunksSized(s.jobs[0].exec.chan)
  {
    OneResponse(s);
  }

  /** Every move of either end, of the child, of a task, of the timer, uses up rank. */
  lemma MoveRank(u: Setup, w: World, move: Move)
    requires WInv(u, w) && Can(u, w, move)
    ensures Rank(u, Do(u, w, move)) < Rank(u, w)
  {
    match move
    case ServerMove(step) => ServerMoveRank(u, w, step);
    case ClientRead => ReadGot(u, w);
    case ClientEnd =>
    case ClientLost =>
  }

  lemma ServerMoveRank(u: Setup, w: World, step: ServerSession.Step)
    requires WInv(u, w) && ServerCan(u, w, step)
    ensures Rank(u, Do(u, w, ServerMove(step))) < Rank(u, w)
  {
    if OfProcess(step) {
      if w.server.HasCurrent() {
        CurrentSized(w.server);
      }
      ProcessRank(u, w.server, step);
    } else {
      ServerMoveInv(u, w, step);
      ControlRank(u, w.server, step);
    }
  }

  lemma ReadGot(u: Setup, w: World)
    requires Can(u, w, ClientRead)
    ensures OnReply(u.agent, w.client, w.server.out[w.client.got]).got == w.client.got + 1
  {
  }

  lemma AbortRank(u: Setup, s: Server)
    requires s.phase != Finished && |s.jobs| <= 1
    ensures var s' := ServerSession.Apply(u.cfg, s, Abort); ServerRank(u, s') < ServerRank(u, s) && s'.inp == s.inp
  {
  }

  lemma ReceivesRank(u: Setup, s: Server, step: ServerSession.Step)
    requires ServerSession.Enabled(u.cfg, s, step) && (step.ReceiveBroken? || (step.Receive? && step.child == u.child))
    requires |ServerSession.Apply(u.cfg, s, step).jobs| <= 1
    ensures var s' := ServerSession.Apply(u.cfg, s, step);
      ServerRank(u, s') - 8 * |s'.inp| < ServerRank(u, s) - 8 * |s.inp|
  {
  }

  lemma ControlRank(u: Setup, s: Server, step: ServerSession.Step)
    requires ServerSession.Enabled(u.cfg, s, step) && !OfProcess(step)
    requires step.Receive? ==> step.child == u.child
    requires |s.jobs| <= 1 && |ServerSession.Apply(u.cfg, s, step).jobs| <= 1
    ensures var s' := ServerSession.Apply(u.cfg, s, step);
      ServerRank(u, s') - 8 * |s'.inp| < ServerRank(u, s) - 8 * |s.inp|
  {
    match step
    case Abort => AbortRank(u, s);
    case Receive(_, _) => ReceivesRank(u, s, step);
    case ReceiveBroken(_) => ReceivesRank(u, s, step);
    case _ =>
  }

  /** No run, fair or not, is longer than the rank of the initial state. */
  lemma {:induction false} RunsAreFinite(u: Setup, w: World, moves: seq<Move>, w': World)
    requires WInv(u, w) && Leads(u, w, moves, w')
    ensures |moves| + Rank(u, w') <= Rank(u, w) && Rank(u, w') >= 0
    decreases |moves|
  {
    if moves == [] {
      RankNat(u, w);
    } else {
      MoveRank(u, w, moves[0]);
      MoveInv(u, w, moves[0]);
      RunsAreFinite(u, Do(u, w, moves[0]), moves[1..], w');
    }
  }

  /** A run that nothing extends but new misfortune is over at both ends, and it took a
      bounded number of moves to get there, whatever went wrong on the way. */
  lemma MaximalRunsEnd(u: Setup, moves: seq<Move>, w: World)
    requires u.Valid() && Leads(u, INITIAL, moves, w)
    requires forall move :: Unforced(w, move) ==> !Can(u, w, move)
    ensures BothFinished(w) && |moves| <= Rank(u, INITIAL)
  {
    RunsAreFinite(u, INITIAL, moves, w);
    if !BothFinished(w) {
      Progress(u, moves, w);
    }
  }

  // ----------------------------------------------------------------- outcome

  datatype Outcome = Outcome(exit: Exit, out: seq<byte>, err: seq<byte>)

  /** What an accepted client should see. */
  function Granted(u: Setup): Outcome {
    if Policy.CheckShell(u.cfg.deny, u.agent.shell).Some? then Outcome(Code(126), [], [])
    else if |u.cfg.shellArgv| < 2 || u.child.None? then Outcome(Failed(ConnectionLost), [], [])
    else
      var child := u.child.value;
      Outcome(Code(if child.status.Some? then child.status.value else -1),
              ExecPump.Project(child.script, ExecPump.StdOut), ExecPump.Project(child.script, ExecPump.StdErr))
  }

  /** What the user should see, told from the setup and the server's decision. */
  function IntendedAfter(u: Setup, decision: Result<AuthorizedKey, AuthFailure>): Outcome {
    if u.cfg.keys.None? then Outcome(Failed(ConnectionLost), [], [])
    else
      match decision
      case Err(reason) => Outcome(Failed(if reason == UnknownKey then KeyNotListed else AuthRejected), [], [])
      case Ok(_) => Granted(u)
  }

  /** The decision itself is told from the setup and the challenge sent. */
  function Intended(u: Setup, s: Server): Outcome {
    IntendedAfter(u, Decision(u, s))
  }

  function Seen(c: Client): Outcome
    requires c.phase.Done?
  {
    Outcome(c.phase.exit, c.out, c.err)
  }

  /** The process, if there was one, met neither the timer nor a failing read. */
  predicate CleanJob(job: Job) {
    job.Process? ==> job.end != TimedOut && !job.exec.out.lost && !job.exec.err.lost
  }

  predicate Clean(s: Server) {
    forall job <- s.jobs :: CleanJob(job)
  }

  lemma {:induction false} FaultlessClean(u: Setup, w: World, moves: seq<Move>, w': World)
    requires Leads(u, w, moves, w') && (forall m <- moves :: Faultless(m)) && Clean(w.server)
    ensures Clean(w'.server)
    decreases |moves|
  {
    if moves != [] {
      var t := Do(u, w, moves[0]);
      assert Faultless(moves[0]) by { assert moves[0] in moves; }
      assert forall m <- moves[1..] :: m in moves;
      if moves[0].ServerMove? {
        StepClean(u, w.server, moves[0].step);
      }
      FaultlessClean(u, t, moves[1..], w');
    }
  }

  lemma StepClean(u: Setup, s: Server, step: ServerSession.Step)
    requires Clean(s) && ServerSession.Enabled(u.cfg, s, step) && Faultless(ServerMove(step))
    ensures Clean(ServerSession.Apply(u.cfg, s, step))
  {
    var s' := ServerSession.Apply(u.cfg, s, step);
    forall k | 0 <= k < |s'.jobs| ensures CleanJob(s'.jobs[k]) {
      if k < |s.jobs| {
        assert CleanJob(s.jobs[k]) by { assert s.jobs[k] in s.jobs; }
      }
    }
  }

  lemma {:induction false} FaultlessKept(u: Setup, w: World, moves: seq<Move>, w': World)
    requires Leads(u, w, moves, w') && (forall m <- moves :: Faultless(m)) && !w.lost
    ensures !w'.lost
    decreases |moves|
  {
    if moves != [] {
      assert Faultless(moves[0]) by { assert moves[0] in moves; }
      assert forall m <- moves[1..] :: m in moves;
      FaultlessKept(u, Do(u, w, moves[0]), moves[1..], w');
    }
  }

  /** What a client that was not cut off has read of the command, and how it ended. */
  ghost predicate SeenProcess(job: Job, c: Client, st: ExecPump.Stream)
    requires job.Process? && c.phase.Done?
  {
    var script := ExecPump.Project(job.exec.child.script, st);
    && (job.end == TimedOut || EndedItself(job))
    && c.Shown(st) <= script
    && c.phase.exit == Code(if job.end == TimedOut then TIMEOUT_CODE else ExitCode(job.exec.child.status))
    && (EndedItself(job) && !job.exec.Of(st).lost ==> c.Shown(st) == script)
  }

  lemma FinishedProcess(u: Setup, w: World, st: ExecPump.Stream)
    requires WInv(u, w) && BothFinished(w) && !CutOff(w) && w.server.jobs != [] && w.server.jobs[0].Process?
    ensures SeenProcess(w.server.jobs[0], w.client, st)
  {
    FinishedShown(u, w, st);
    ProcessSeen(w.server, w.client, st);
  }

  /** The process that ran is the one the setup allows. */
  lemma ProcessAllowed(u: Setup, w: World)
    requires WInv(u, w) && w.server.jobs != [] && w.server.jobs[0].Process?
    ensures u.child == Some(w.server.jobs[0].exec.child) && |u.cfg.shellArgv| >= 2
    ensures Policy.CheckShell(u.cfg.deny, u.agent.shell).None?
  {
    var job := w.server.jobs[0];
    assert JobOf(u, w.server, w.lost, job) && Guarded(u.cfg, job) by { assert job in w.server.jobs; }
  }

  /** The client has read the whole response and ended on it. */
  ghost predicate ReadsAnswer(s: Server, c: Client, st: ExecPump.Stream)
    requires c.phase.Done?
  {
    && s.jobs != [] && Upto(s) >= 2 && Answers(s.jobs[0], Response(s)) && Explains(s, c, c.phase.exit)
    && c.Shown(st) == Data(Response(s), st)
    && (IsLate(s.jobs[0]) ==> s.out[|s.out| - 1].ExecExit?)
  }

  lemma FinishedShown(u: Setup, w: World, st: ExecPump.Stream)
    requires WInv(u, w) && BothFinished(w) && !CutOff(w) && w.server.jobs != [] && w.server.jobs[0].Process?
    ensures ReadsAnswer(w.server, w.client, st)
  {
    FinishedAnswered(u, w);
    OneResponse(w.server);
    BehindSilent(w.server, st);
    FinishedRead(u, w);
    OutputAfterAuth(w.server, st);
  }

  lemma ProcessSeen(s: Server, c: Client, st: ExecPump.Stream)
    requires c.phase.Done? && ReadsAnswer(s, c, st) && s.jobs[0].Process?
    ensures SeenProcess(s.jobs[0], c, st)
  {
    AnswerShows(s.jobs[0], Response(s), st);
    LastExit(s, c);
  }

  /** A client that ended on a frame has been answered, whatever the server met later;
      one that lost its connection unforced has been, too. */
  lemma FinishedAnswered(u: Setup, w: World)
    requires WInv(u, w) && BothFinished(w) && !CutOff(w) && w.server.jobs != [] && w.server.jobs[0].Process?
    ensures Upto(w.server) >= 2 && Answers(w.server.jobs[0], Response(w.server))
    ensures Explains(w.server, w.client, w.client.phase.exit)
  {
    var s := w.server;
    assert JobOf(u, s, w.lost, s.jobs[0]) by { assert s.jobs[0] in s.jobs; }
    OneResponse(s);
    if !Answers(s.jobs[0], Response(s)) {
      OpenUnexplained(w);
    }
  }

  /** Only a lost connection explains a client that ended on an open response. */
  lemma OpenUnexplained(w: World)
    requires w.client.phase.Done? && Explains(w.server, w.client, w.client.phase.exit) && Upto(w.server) >= 2
    requires w.server.out[1].AuthOk? && AllOutput(Response(w.server))
    ensures w.client.phase == Done(Failed(ConnectionLost))
  {
    var n := Upto(w.server);
    if n > 2 {
      assert Response(w.server)[n - 3] == w.server.out[n - 1];
      assert w.server.out[n - 1] in Response(w.server);
    }
  }

  lemma AnswerShows(job: Job, g: seq<Reply>, st: ExecPump.Stream)
    requires job.Process? && Answers(job, g)
    ensures var script := ExecPump.Project(job.exec.child.script, st);
      && Data(g, st) <= script
      && (EndedItself(job) && !job.exec.Of(st).lost ==> Data(g, st) == script)
      && (job.end == TimedOut || EndedItself(job))
      && g[|g| - 1] == ExecExit(if job.end == TimedOut then TIMEOUT_CODE else ExitCode(job.exec.child.status))
  {
  }

  lemma LastExit(s: Server, c: Client)
    requires c.phase.Done? && Explains(s, c, c.phase.exit) && s.jobs != [] && s.jobs[0].Process?
    requires Upto(s) >= 2 && Answers(s.jobs[0], Response(s)) && (IsLate(s.jobs[0]) ==> s.out[|s.out| - 1].ExecExit?)
    ensures c.phase.exit == Code(if s.jobs[0].end == TimedOut then TIMEOUT_CODE else ExitCode(s.jobs[0].exec.child.status))
  {
    AnswerShows(s.jobs[0], Response(s), ExecPump.StdOut);
    var g := Response(s);
    assert g[|g| - 1] == s.out[Upto(s) - 1];
    ExitExplained(s, c, s.out[Upto(s) - 1].code);
  }

  /** A client that is explained by an exit frame ended with its code. */
  lemma ExitExplained(s: Server, c: Client, code: int)
    requires c.phase.Done? && Explains(s, c, c.phase.exit) && Upto(s) >= 2
    requires s.out[Upto(s) - 1] == ExecExit(code) && s.out[|s.out| - 1].ExecExit?
    ensures c.phase.exit == Code(code)
  {
  }

  /** A finished client that was not cut off has read everything that can be shown. */
  lemma FinishedRead(u: Setup, w: World)
    requires WInv(u, w) && BothFinished(w) && !CutOff(w)
    ensures Explains(w.server, w.client, w.client.phase.exit)
    ensures Behind(w.server) == [] ==> w.client.got == |w.server.out|
    ensures w.client.out == Data(w.server.out, ExecPump.StdOut) && w.client.err == Data(w.server.out, ExecPump.StdErr)
  {
    var s := w.server;
    assert s.out[..|s.out|] == s.out;
    if s.jobs != [] {
      OneResponse(s);
      BehindSilent(s, ExecPump.StdOut);
      BehindSilent(s, ExecPump.StdErr);
    }
  }

  /** No process: the client has shown nothing and ended for the intended reason. */
  lemma FinishedWithout(u: Setup, w: World)
    requires WInv(u, w) && BothFinished(w) && !w.lost
    requires w.server.jobs == [] || w.server.jobs[0].Denied?
    ensures Seen(w.client) == Intended(u, w.server)
  {
    FinishedRead(u, w);
    if w.server.auth.Some? {
      LoopWithout(u, w);
    } else {
      RefusedSeen(u, w.server, w.client, Decision(u, w.server));
    }
  }

  /** What the client makes of a list of replies without output. */
  ghost predicate Ended(s: Server, c: Client) {
    c.phase.Done? && c.got == |s.out| && Explains(s, c, c.phase.exit) && s.phase == Finished
    && c.out == Data(s.out, ExecPump.StdOut) && c.err == Data(s.out, ExecPump.StdErr)
  }

  lemma RefusedSeen(u: Setup, s: Server, c: Client, decision: Result<AuthorizedKey, AuthFailure>)
    requires Ended(s, c) && ServerSide(u, s, false) && s.auth.None? && |s.out| <= 2
    requires |s.out| == 2 ==> s.out[1].AuthFailed? && decision == Err(s.out[1].reason)
    requires |s.out| >= 1 ==> s.out[0].Challenge?
    ensures Seen(c) == IntendedAfter(u, decision)
  {
    SilentData(s.out);
  }

  lemma LoopWithout(u: Setup, w: World)
    requires WInv(u, w) && BothFinished(w) && !w.lost && w.server.auth.Some?
    requires w.server.jobs == [] || w.server.jobs[0].Denied?
    ensures Seen(w.client) == Intended(u, w.server)
  {
    var s := w.server;
    FinishedRead(u, w);
    OneResponse(s);
    if s.jobs == [] {
      assert Policy.CheckShell(u.cfg.deny, u.agent.shell).None? && (|u.cfg.shellArgv| < 2 || u.child.None?);
      NoJobSeen(u, s, w.client, Decision(u, s));
    } else {
      assert JobOf(u, s, w.lost, s.jobs[0]) && Guarded(u.cfg, s.jobs[0]) by { assert s.jobs[0] in s.jobs; }
      DeniedSeen(u, s, w.client, Decision(u, s));
    }
  }

  lemma NoJobSeen(u: Setup, s: Server, c: Client, decision: Result<AuthorizedKey, AuthFailure>)
    requires Ended(s, c) && u.cfg.keys.Some? && decision.Ok?
    requires Policy.CheckShell(u.cfg.deny, u.agent.shell).None? && (|u.cfg.shellArgv| < 2 || u.child.None?)
    requires |s.out| == 2 && s.out[0].Challenge? && s.out[1] == AuthOk
    ensures Seen(c) == IntendedAfter(u, decision)
  {
    SilentData(s.out);
    assert c.phase.exit == Failed(ConnectionLost);
  }

  lemma DeniedSeen(u: Setup, s: Server, c: Client, decision: Result<AuthorizedKey, AuthFailure>)
    requires Ended(s, c) && u.cfg.keys.Some? && decision.Ok?
    requires |s.out| == 3 && s.out[0].Challenge? && s.out[1] == AuthOk && s.out[2].PolicyDenied?
    requires Policy.CheckShell(u.cfg.deny, u.agent.shell).Some?
    ensures Seen(c) == IntendedAfter(u, decision)
  {
    SilentData(s.out);
    assert c.phase.exit == Code(126);
  }

  lemma {:induction false} SilentData(ms: seq<Reply>)
    requires forall m <- ms :: !m.Output?
    ensures Data(ms, ExecPump.StdOut) == [] && Data(ms, ExecPump.StdErr) == []
  {
    if ms != [] {
      SilentData(ms[..|ms| - 1]);
    }
  }

  /** When both ends have finished, no pipe or connection has failed, and the timer has
      not fired before the exit frame, the user sees exactly what the setup calls for:
      the whole of both streams and the child's exit code, or the reason there was
      none. */
  lemma FinalOutcome(u: Setup, moves: seq<Move>, w: World)
    requires Leads(u, INITIAL, moves, w) && BothFinished(w) && forall m <- moves :: Faultless(m)
    ensures Seen(w.client) == Intended(u, w.server)
  {
    LeadsInv(u, INITIAL, moves, w);
    FaultlessKept(u, INITIAL, moves, w);
    if w.server.jobs == [] || w.server.jobs[0].Denied? {
      FinishedWithout(u, w);
    } else {
      assert CleanJob(w.server.jobs[0]) by {
        FaultlessClean(u, INITIAL, moves, w);
        assert w.server.jobs[0] in w.server.jobs;
      }
      CleanProcessSeen(u, w);
    }
  }

  lemma CleanProcessSeen(u: Setup, w: World)
    requires WInv(u, w) && BothFinished(w) && !w.lost
    requires w.server.jobs != [] && w.server.jobs[0].Process? && CleanJob(w.server.jobs[0])
    ensures Seen(w.client) == Intended(u, w.server)
  {
    ProcessAllowed(u, w);
    FinishedProcess(u, w, ExecPump.StdOut);
    FinishedProcess(u, w, ExecPump.StdErr);
    assert u.cfg.keys.Some? && Decision(u, w.server).Ok?;
  }

  /** With the timer at any await, failing pipes and a failing connection allowed, a
      process that ran still ends in one of three ways for the user: cut off with code
      124, or complete with its own code and every stream whole whose pipe did not fail,
      or with a lost connection, and then one was lost. Always, what was shown is a
      prefix; and a timer behind the exit frame makes no difference. */
  lemma FaultyOutcome(u: Setup, moves: seq<Move>, w: World, st: ExecPump.Stream)
    requires Leads(u, INITIAL, moves, w) && BothFinished(w)
    requires w.server.jobs != [] && w.server.jobs[0].Process?
    ensures var job := w.server.jobs[0]; var script := ExecPump.Project(job.exec.child.script, st);
      && w.client.Shown(st) <= script
      && (w.client.phase == Done(Failed(ConnectionLost)) ==> w.lost)
      && (w.client.phase != Done(Failed(ConnectionLost)) ==>
            || (job.end == TimedOut && w.client.phase == Done(Code(124)))
            || (EndedItself(job) && w.client.phase == Done(Code(ExitCode(job.exec.child.status)))
                && (!job.exec.Of(st).lost ==> w.client.Shown(st) == script)))
  {
    LeadsInv(u, INITIAL, moves, w);
    if CutOff(w) {
      DeliveredPrefix(u, moves, w, st);
    } else {
      FinishedProcess(u, w, st);
    }
  }

  lemma DeliveredPrefix(u: Setup, moves: seq<Move>, w: World, st: ExecPump.Stream)
    requires Leads(u, INITIAL, moves, w) && w.server.jobs != [] && w.server.jobs[0].Process?
    ensures w.client.Shown(st) <= ExecPump.Project(w.server.jobs[0].exec.child.script, st)
  {
    Delivery(u, moves, w, st);
  }

  /** A client whose key is listed gets what an accepted client should see, in every run
      to the end without fault, whatever challenge the server chose. */
  lemma ListedClientServed(u: Setup, moves: seq<Move>, w: World, entry: AuthorizedKey)
    requires Leads(u, INITIAL, moves, w) && BothFinished(w) && forall m <- moves :: Faultless(m)
    requires u.cfg.crypto == u.agent.crypto && u.cfg.crypto.Correct() && u.cfg.keys.Some?
    requires TableOf(u.cfg.crypto, u.cfg.keys.value) && entry in u.cfg.keys.value
    requires entry.verifyingKey == u.agent.crypto.publicKey(u.agent.sk)
    requires NoCollision(u.cfg.crypto, u.cfg.keys.value, entry.verifyingKey)
    ensures Seen(w.client) == Granted(u)
  {
    FinalOutcome(u, moves, w);
    HonestAccepted(u.cfg.crypto, u.cfg.keys.value, entry, u.agent.sk, w.server.nonce, w.server.sessionId);
  }

  /** Why a client is refused, told from the table and its key alone, in every run to the end
      without fault: it hears that its key is not listed exactly if no entry has the
      SHA-256 of that key, and that it is rejected exactly if the first entry that has
      does not verify what it signed. Nothing is shown in either case. */
  lemma RefusedClientTold(u: Setup, moves: seq<Move>, w: World)
    requires Leads(u, INITIAL, moves, w) && BothFinished(w) && forall m <- moves :: Faultless(m)
    requires u.cfg.crypto == u.agent.crypto && u.cfg.keys.Some? && TableOf(u.cfg.crypto, u.cfg.keys.value)
    ensures var keys, crypto := u.cfg.keys.value, u.cfg.crypto;
      var pk, message := crypto.publicKey(u.agent.sk), SigningBytes(w.server.nonce, w.server.sessionId);
      && (Seen(w.client) == Outcome(Failed(KeyNotListed), [], []) <==>
            forall k <- keys :: crypto.sha256(k.verifyingKey) != crypto.sha256(pk))
      && (Seen(w.client) == Outcome(Failed(AuthRejected), [], []) <==>
            exists k ::
              FirstWithKey(crypto, keys, pk, k) && !crypto.verify(k.verifyingKey, message, crypto.sign(u.agent.sk, message)))
  {
    FinalOutcome(u, moves, w);
    OwnSignature(u.cfg.crypto, u.cfg.keys.value, u.agent.sk, w.server.nonce, w.server.sessionId);
  }

  /** From the key files to the command's output: append the `.pub` file to a table that
      parses, run the server on it, and the client's command is served. */
  lemma EnrolledClientServed(u: Setup, moves: seq<Move>, w: World, text: string)
    requires Leads(u, INITIAL, moves, w) && BothFinished(w) && forall m <- moves :: Faultless(m)
    requires u.cfg.crypto == u.agent.crypto && u.cfg.crypto.Correct()
    requires Text.EndsLine(text) && AuthorizedKeys.LoadLines(u.cfg.crypto, Text.Lines(text)).Ok?
    requires var pk := u.agent.crypto.publicKey(u.agent.sk);
      && NoCollision(u.cfg.crypto, AuthorizedKeys.LoadLines(u.cfg.crypto, Text.Lines(text)).value, pk)
      && match AuthorizedKeys.LoadKeys(u.cfg.crypto, text + AgentKey.PublicBody(pk))
         case Ok(keys) => u.cfg.keys == Some(keys)
         case Err(_) => u.cfg.keys == None
    ensures Seen(w.client) == Granted(u)
  {
    var pk := u.agent.crypto.publicKey(u.agent.sk);
    var keys := AuthorizedKeys.LoadLines(u.cfg.crypto, Text.Lines(text)).value;
    var entry := AuthorizedKey(pk, FingerprintHex(u.cfg.crypto, pk), AgentKey.COMMENT);
    AgentKey.AppendPublicKey(u.cfg.crypto, text, pk);
    AgentKey.LoadedTable(u.cfg.crypto, Text.Lines(text));
    assert u.cfg.keys.value == keys + [entry];
    ListedClientServed(u, moves, w, entry);
  }
}
