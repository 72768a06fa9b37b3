/** The server's own control flow over a connection: challenge, response, then a loop
    of requests. Every execution of it, whatever arrives and however the runtime
    orders the tasks of a running process, is a run of the transition system. */
module ServerTask {
  import opened Common
  import opened Identity
  import opened ServerSession
  import opened ServerGuarantees
  import opened ServerReplies
  import ExecPump
  import Frames
  import Policy

  /** `inbox` is what the coming `read_frame` calls return (then end of file);
      `read` and `outbox` log the frames read and written. The peer accepts `limit`
      frames in all (`None`: every one). */
  class Connection {
    const limit: Option<nat>
    var inbox: seq<Input>
    var read: seq<Request>
    var outbox: seq<Reply>

    constructor (inbox: seq<Input>, limit: Option<nat>)
      ensures this.inbox == inbox && read == [] && outbox == [] && this.limit == limit
    {
      this.inbox, read, outbox, this.limit := inbox, [], [], limit;
    }

    method ReadFrame() returns (input: Input)
      modifies this`inbox, this`read
      ensures input == if old(inbox) == [] then Eof else old(inbox)[0]
      ensures read == if input.Got? then old(read) + [input.request] else old(read)
      ensures inbox == if old(inbox) == [] then [] else old(inbox)[1..]
    {
      if inbox == [] {
        return Eof;
      }
      input := inbox[0];
      inbox := inbox[1..];
      if input.Got? {
        read := read + [input.request];
      }
    }

    method WriteFrame(m: Reply) returns (ok: bool)
      modifies this`outbox
      ensures ok <==> Accepts(limit, |old(outbox)|)
      ensures outbox == if ok then old(outbox) + [m] else old(outbox)
    {
      ok := Accepts(limit, |outbox|);
      if ok {
        outbox := outbox + [m];
      }
    }
  }

  predicate Accepts(limit: Option<nat>, written: nat) {
    limit.None? || written < limit.value
  }

  lemma {:induction false} RunsSnoc(cfg: Config, s: Server, steps: seq<Step>, t: Server, step: Step)
    requires Runs(cfg, s, steps, t) && Enabled(cfg, t, step)
    ensures Runs(cfg, s, steps + [step], Apply(cfg, t, step))
    decreases |steps|
  {
    if steps == [] {
      assert [step][1..] == [];
    } else {
      RunsSnoc(cfg, Apply(cfg, s, steps[0]), steps[1..], t, step);
      assert (steps + [step])[1..] == steps[1..] + [step];
    }
  }

  // ------------------------------------------------------------ specification

  /** What the runtime does next while an exec is awaited: it lets a task run, polls the
      exec future, or fires the timer. */
  datatype Turn = Run(job: nat, step: ExecPump.Step) | Poll | Fire

  datatype Driven = Driven(server: Server, schedule: seq<Turn>)

  /** A step that writes a frame the peer no longer takes ends the session instead. */
  function Try(cfg: Config, limit: Option<nat>, s: Server, step: Step): Server
    requires Enabled(cfg, s, step) && s.phase != Finished
  {
    var s' := Apply(cfg, s, step);
    if s'.out == s.out || Accepts(limit, |s.out|) then s'
    else if step.Receive? then Apply(cfg, s, ReceiveBroken(step.input.request))
    else Apply(cfg, s, Abort)
  }

  /** The exec future is being awaited. */
  predicate Awaited(s: Server) {
    s.HasCurrent() || s.HasEnded()
  }

  /** What the exec future does when it is polled. */
  function PolledStep(s: Server): Option<Step> {
    if s.HasEnded() then Some(Flushed)
    else if !s.HasCurrent() || !ExecPump.PumpReady(s.Current().exec) then None
    else
      match s.Current().exec.pump
      case Receiving => Some(if s.Current().exec.chan != [] then PumpChunk else PumpClosed)
      case Waiting => Some(PumpWait)
      case Exiting => Some(PumpExit)
  }

  /** The session after one turn. */
  function Turned(cfg: Config, limit: Option<nat>, s: Server, turn: Turn): Server
    requires Awaited(s)
  {
    match turn
    case Run(i, es) => if Enabled(cfg, s, Task(i, es)) then Apply(cfg, s, Task(i, es)) else s
    case Poll => if PolledStep(s).Some? then Try(cfg, limit, s, PolledStep(s).value) else s
    case Fire => Try(cfg, limit, s, if s.HasEnded() then LateTimeout else Timeout)
  }

  /** A running process under a schedule; when the schedule is used up the runtime has
      been shut down. */
  function Drive(cfg: Config, limit: Option<nat>, s: Server, schedule: seq<Turn>): Driven
    decreases |schedule|
  {
    if !Awaited(s) then Driven(s, schedule)
    else if schedule == [] then Driven(Apply(cfg, s, Abort), [])
    else Drive(cfg, limit, Turned(cfg, limit, s, schedule[0]), schedule[1..])
  }

  /** The request asks for a process that policy and configuration let start. */
  predicate Spawns(cfg: Config, input: Input) {
    && input.Got? && input.request.msgType == Frames.EXEC_SHELL && input.request.body.ExecBody?
    && Policy.CheckShell(cfg.deny, input.request.body.shell).None? && |cfg.shellArgv| >= 2
  }

  function Head(inbox: seq<Input>): Input {
    if inbox == [] then Eof else inbox[0]
  }

  function Tail<T>(s: seq<T>): seq<T> {
    if s == [] then [] else s[1..]
  }

  function FirstChild(cfg: Config, input: Input, children: seq<Option<ExecPump.Child>>): Option<ExecPump.Child> {
    if Spawns(cfg, input) && children != [] then children[0] else None
  }

  /** One request, to the end of its exec. */
  function ServeOne(cfg: Config, limit: Option<nat>, s: Server, input: Input,
                    children: seq<Option<ExecPump.Child>>, schedule: seq<Turn>): Driven
    requires s.phase == Ready
  {
    Drive(cfg, limit, Try(cfg, limit, s, Receive(input, FirstChild(cfg, input, children))), schedule)
  }

  /** The request loop, as the state it ends in. */
  function Serve(cfg: Config, limit: Option<nat>, s: Server, inbox: seq<Input>,
                 children: seq<Option<ExecPump.Child>>, schedule: seq<Turn>): Server
    requires s.phase == Ready
    decreases |inbox|
  {
    var input := Head(inbox);
    var d := ServeOne(cfg, limit, s, input, children, schedule);
    if inbox == [] || d.server.phase != Ready then d.server
    else Serve(cfg, limit, d.server, inbox[1..], if Spawns(cfg, input) then Tail(children) else children, d.schedule)
  }

  /** A whole session. */
  function Session(cfg: Config, limit: Option<nat>, nonce: Bytes32, sessionId: seq<byte>, inbox: seq<Input>,
                   children: seq<Option<ExecPump.Child>>, schedule: seq<Turn>): Server
  {
    if cfg.keys.None? then INIT.Finish()
    else
      var s := Try(cfg, limit, INIT, Begin(nonce, sessionId));
      if s.phase != AwaitAuth then s
      else
        var t := Try(cfg, limit, s, Receive(Head(inbox), None));
        if t.phase == Ready then Serve(cfg, limit, t, Tail(inbox), children, schedule) else t
  }

  /** The frames read explain the frames written, or an answer was lost to a peer that takes
      no more. */
  ghost predicate Explained(cfg: Config, limit: Option<nat>, s: Server) {
    Inv(cfg, s) && (Told(cfg, s) || (Silenced(s) && limit.Some? && |s.out| >= limit.value))
  }

  lemma StepExplained(cfg: Config, limit: Option<nat>, s: Server, step: Step)
    requires Inv(cfg, s) && Told(cfg, s) && Enabled(cfg, s, step) && !step.ReceiveBroken?
    ensures Explained(cfg, limit, Apply(cfg, s, step))
  {
    StepInv(cfg, s, step);
    StepTold(cfg, s, step);
  }

  lemma BreakExplained(cfg: Config, limit: Option<nat>, s: Server, r: Request)
    requires Inv(cfg, s) && Told(cfg, s) && Enabled(cfg, s, ReceiveBroken(r)) && !Accepts(limit, |s.out|)
    ensures Explained(cfg, limit, Apply(cfg, s, ReceiveBroken(r)))
  {
    StepInv(cfg, s, ReceiveBroken(r));
    BreakSilences(cfg, s, r);
  }

  lemma TryTold(cfg: Config, limit: Option<nat>, s: Server, step: Step)
    requires Inv(cfg, s) && Told(cfg, s) && Enabled(cfg, s, step) && s.phase != Finished && !step.ReceiveBroken?
    ensures Explained(cfg, limit, Try(cfg, limit, s, step))
  {
    if Apply(cfg, s, step).out == s.out || Accepts(limit, |s.out|) {
      StepExplained(cfg, limit, s, step);
    } else if step.Receive? {
      BreakExplained(cfg, limit, s, step.input.request);
    } else {
      StepExplained(cfg, limit, s, Abort);
    }
  }

  lemma PolledCan(cfg: Config, s: Server)
    requires PolledStep(s).Some?
    ensures Enabled(cfg, s, PolledStep(s).value) && s.phase != Finished && !PolledStep(s).value.ReceiveBroken?
  {
  }

  lemma TurnedTold(cfg: Config, limit: Option<nat>, s: Server, turn: Turn)
    requires Inv(cfg, s) && Told(cfg, s) && Awaited(s)
    ensures Explained(cfg, limit, Turned(cfg, limit, s, turn))
  {
    match turn
    case Run(i, es) =>
      if Enabled(cfg, s, Task(i, es)) {
        TryTold(cfg, None, s, Task(i, es));
      }
    case Poll =>
      if PolledStep(s).Some? {
        PolledCan(cfg, s);
        TryTold(cfg, limit, s, PolledStep(s).value);
      }
    case Fire => TryTold(cfg, limit, s, if s.HasEnded() then LateTimeout else Timeout);
  }

  lemma {:induction false} DriveTold(cfg: Config, limit: Option<nat>, s: Server, schedule: seq<Turn>)
    requires Explained(cfg, limit, s)
    ensures Explained(cfg, limit, Drive(cfg, limit, s, schedule).server)
    decreases |schedule|
  {
    if Awaited(s) {
      if schedule == [] {
        TryTold(cfg, None, s, Abort);
      } else {
        TurnedTold(cfg, limit, s, schedule[0]);
        DriveTold(cfg, limit, Turned(cfg, limit, s, schedule[0]), schedule[1..]);
      }
    }
  }

  lemma {:induction false} ServeTold(cfg: Config, limit: Option<nat>, s: Server, inbox: seq<Input>,
                                     children: seq<Option<ExecPump.Child>>, schedule: seq<Turn>)
    requires Inv(cfg, s) && Told(cfg, s) && s.phase == Ready
    ensures Explained(cfg, limit, Serve(cfg, limit, s, inbox, children, schedule))
    decreases |inbox|
  {
    var input := Head(inbox);
    var step := Receive(input, FirstChild(cfg, input, children));
    TryTold(cfg, limit, s, step);
    DriveTold(cfg, limit, Try(cfg, limit, s, step), schedule);
    var d := ServeOne(cfg, limit, s, input, children, schedule);
    if inbox != [] && d.server.phase == Ready {
      ServeTold(cfg, limit, d.server, inbox[1..], if Spawns(cfg, input) then Tail(children) else children, d.schedule);
    }
  }

  lemma SessionTold(cfg: Config, limit: Option<nat>, nonce: Bytes32, sessionId: seq<byte>, inbox: seq<Input>,
                    children: seq<Option<ExecPump.Child>>, schedule: seq<Turn>)
    ensures Explained(cfg, limit, Session(cfg, limit, nonce, sessionId, inbox, children, schedule))
  {
    if cfg.keys.None? {
      TryTold(cfg, None, INIT, LoadFails);
    } else {
      TryTold(cfg, limit, INIT, Begin(nonce, sessionId));
      var s := Try(cfg, limit, INIT, Begin(nonce, sessionId));
      if s.phase == AwaitAuth {
        var first := Receive(Head(inbox), None);
        TryTold(cfg, limit, s, first);
        var t := Try(cfg, limit, s, first);
        if t.phase == Ready {
          ServeTold(cfg, limit, t, Tail(inbox), children, schedule);
        }
      }
    }
  }

  /** An error frame is written only where the frames read call for it, and then always
      while the peer takes frames; the first frame read gets its answer. */
  ghost predicate AnswersDue(cfg: Config, limit: Option<nat>, s: Server) {
    && (forall e: ErrorCode :: ErrorReply(e) in s.out ==> ErrorDue(s.inp, e))
    && (forall e: ErrorCode :: ErrorDue(s.inp, e) ==>
          ErrorReply(e) in s.out || (limit.Some? && |s.out| >= limit.value))
    && (limit.None? && s.inp != [] ==> FirstAnswered(cfg, s))
  }

  lemma SessionAnswers(cfg: Config, limit: Option<nat>, nonce: Bytes32, sessionId: seq<byte>, inbox: seq<Input>,
                       children: seq<Option<ExecPump.Child>>, schedule: seq<Turn>)
    ensures AnswersDue(cfg, limit, Session(cfg, limit, nonce, sessionId, inbox, children, schedule))
  {
    var s := Session(cfg, limit, nonce, sessionId, inbox, children, schedule);
    SessionTold(cfg, limit, nonce, sessionId, inbox, children, schedule);
    if Told(cfg, s) {
      forall e: ErrorCode ensures ErrorReply(e) in s.out <==> ErrorDue(s.inp, e) {
        DueOrNot(cfg, s, e);
      }
      if s.inp != [] {
        ToldFirst(cfg, s);
      }
    }
  }

  /** How an await of the exec future ends: it may go on, the timer has fired, or the
      runtime is gone. */
  datatype Wake = Woken | TimerFired | Shutdown

  /** The rest of the schedule, from the end of an await. */
  function Resume(cfg: Config, limit: Option<nat>, s: Server, w: Wake, schedule: seq<Turn>): Driven
    requires Awaited(s)
  {
    match w
    case Woken => Drive(cfg, limit, Turned(cfg, limit, s, Poll), schedule)
    case TimerFired => Drive(cfg, limit, Turned(cfg, limit, s, Fire), schedule)
    case Shutdown => Driven(Apply(cfg, s, Abort), [])
  }

  lemma DriveTurn(cfg: Config, limit: Option<nat>, s: Server, turn: Turn, rest: seq<Turn>)
    requires Awaited(s)
    ensures Drive(cfg, limit, s, [turn] + rest) == Drive(cfg, limit, Turned(cfg, limit, s, turn), rest)
  {
    assert ([turn] + rest)[1..] == rest;
  }

  lemma DriveEnds(cfg: Config, limit: Option<nat>, s: Server, schedule: seq<Turn>)
    requires s.phase == Ready || s.phase == Finished
    ensures Drive(cfg, limit, s, schedule) == Driven(s, schedule)
  {
  }

  lemma PollWaits(cfg: Config, limit: Option<nat>, s: Server)
    requires s.HasCurrent() && !ExecPump.PumpReady(s.Current().exec)
    ensures Turned(cfg, limit, s, Poll) == s
  {
  }

  lemma RunKeepsEnded(cfg: Config, limit: Option<nat>, s: Server, i: nat, es: ExecPump.Step)
    requires s.HasEnded()
    ensures Turned(cfg, limit, s, Run(i, es)).HasEnded()
  {
  }

  /** A turn of some task leaves the exec future where it is. */
  lemma RunKeepsPump(cfg: Config, limit: Option<nat>, s: Server, i: nat, es: ExecPump.Step)
    requires s.HasCurrent()
    ensures var s' := Turned(cfg, limit, s, Run(i, es));
      s'.HasCurrent() && s'.Current().exec.pump == s.Current().exec.pump
  {
  }

  /** `children` is what the coming spawns yield; `schedule` the turns the runtime takes
      while a process runs. */
  class ServerTask {
    const cfg: Config
    const conn: Connection
    var nonce: seq<byte>
    var sessionId: seq<byte>
    var auth: Option<AuthorizedKey>
    var jobs: seq<Job>
    var children: seq<Option<ExecPump.Child>>
    var schedule: seq<Turn>
    ghost var trail: seq<Step>

    constructor (cfg: Config, conn: Connection, children: seq<Option<ExecPump.Child>>, schedule: seq<Turn>)
      requires conn.read == [] && conn.outbox == []
      ensures this.cfg == cfg && this.conn == conn && At(Start)
      ensures nonce == sessionId == [] && auth == None && jobs == []
    {
      this.cfg, this.conn, this.children, this.schedule := cfg, conn, children, schedule;
      nonce, sessionId, auth, jobs, trail := [], [], None, [], [];
    }

    /** The transition system's view of the fields. */
    ghost function State(phase: Phase): Server
      reads this, conn
    {
      Server(phase, nonce, sessionId, auth, conn.read, conn.outbox, jobs)
    }

    /** The execution so far is a run that has reached this point. */
    ghost predicate At(phase: Phase)
      reads this, conn
    {
      Reachable(cfg, trail, State(phase))
    }

    /** Between the read of a request and its handling. */
    ghost predicate Holding(before: Server, r: Request)
      reads this, conn
    {
      Reachable(cfg, trail, before) && State(before.phase) == before.Record(r)
    }

    method SendError(code: ErrorCode) returns (ok: bool)
      modifies conn`outbox
      ensures ok <==> Accepts(conn.limit, |old(conn.outbox)|)
      ensures conn.outbox == if ok then old(conn.outbox) + [ErrorReply(code)] else old(conn.outbox)
    {
      ok := conn.WriteFrame(ErrorReply(code));
    }

    method SendAuthFail(reason: AuthFailure) returns (ok: bool)
      modifies conn`outbox
      ensures ok <==> Accepts(conn.limit, |old(conn.outbox)|)
      ensures conn.outbox == if ok then old(conn.outbox) + [AuthFailed(reason)] else old(conn.outbox)
    {
      ok := conn.WriteFrame(AuthFailed(reason));
    }

    /** `run_session`, from key table to the end of the connection. */
    method RunSession(nonce: Bytes32, sessionId: seq<byte>)
      requires At(Start) && State(Start) == INIT
      modifies this, conn
      ensures State(Finished) == Session(cfg, conn.limit, nonce, sessionId, old(conn.inbox), old(children), old(schedule))
      ensures At(Finished)
      ensures exists more :: IsWord(conn.outbox + more)
      ensures AnswersDue(cfg, conn.limit, State(Finished))
    {
      SessionAnswers(cfg, conn.limit, nonce, sessionId, conn.inbox, children, schedule);
      if cfg.keys.None? {
        Note(State(Start), LoadFails);
        OutputGrammar(cfg, trail, State(Finished));
        return;
      }
      var ok := Greet(nonce, sessionId);
      if ok {
        ok := AwaitResponse();
      }
      if ok {
        ServeRequests();
      }
      OutputGrammar(cfg, trail, State(Finished));
    }

    /** Sends the challenge. */
    method Greet(nonce: Bytes32, sessionId: seq<byte>) returns (ok: bool)
      requires At(Start) && State(Start) == INIT && cfg.keys.Some?
      modifies this`nonce, this`sessionId, this`trail, conn`outbox
      ensures if ok then At(AwaitAuth) else At(Finished)
      ensures State(if ok then AwaitAuth else Finished) == Try(cfg, conn.limit, INIT, Begin(nonce, sessionId))
    {
      ok := conn.WriteFrame(Challenge(nonce, sessionId));
      Note(INIT, if ok then Begin(nonce, sessionId) else Abort);
      if ok {
        this.nonce, this.sessionId := nonce, sessionId;
      }
    }

    /** Extends the trail by a step that explains the fields' new values. */
    ghost method Note(before: Server, step: Step)
      requires Reachable(cfg, trail, before) && Enabled(cfg, before, step)
      modifies this`trail
      ensures trail == old(trail) + [step] && Reachable(cfg, trail, Apply(cfg, before, step))
    {
      RunsSnoc(cfg, INIT, trail, before, step);
      trail := trail + [step];
    }

    /** Reads and judges the auth response. */
    method AwaitResponse() returns (ok: bool)
      requires At(AwaitAuth) && cfg.keys.Some?
      modifies this`auth, this`trail, conn
      ensures if ok then At(Ready) else At(Finished)
      ensures State(if ok then Ready else Finished)
           == Try(cfg, conn.limit, old(State(AwaitAuth)), Receive(Head(old(conn.inbox)), None))
      ensures conn.inbox == Tail(old(conn.inbox))
    {
      ghost var before := State(AwaitAuth);
      var input := conn.ReadFrame();
      if !input.Got? {
        Note(before, Receive(input, None));
        return false;
      }
      var r := input.request;
      if r.msgType != Frames.AUTH_RESPONSE {
        var sent := SendError(ExpectedAuthResponse);
        Note(before, if sent then Receive(input, None) else ReceiveBroken(r));
        return false;
      }
      if !r.body.AuthBody? {
        Note(before, Receive(input, None));
        return false;
      }
      var key := Judge(r.body);
      if key.Err? {
        var sent := SendAuthFail(key.error);
        Note(before, if sent then Receive(input, None) else ReceiveBroken(r));
        return false;
      }
      ok := conn.WriteFrame(AuthOk);
      Note(before, if ok then Receive(input, None) else ReceiveBroken(r));
      if ok {
        auth := Some(key.value);
      }
    }

    /** The checks on a well-formed response, in the order they are made. */
    method Judge(b: Body) returns (key: Result<AuthorizedKey, AuthFailure>)
      requires b.AuthBody? && cfg.keys.Some?
      ensures key == Authenticate(cfg.crypto, cfg.keys.value, nonce, sessionId, b.keyType, b.fingerprint, b.signature)
    {
      if b.keyType != KEY_TYPE_ED25519 {
        return Err(UnsupportedKeyType);
      }
      var msg := BuildSigningBytes(nonce, sessionId);
      var entry := FindKey(cfg.keys.value, b.fingerprint);
      if entry.None? {
        return Err(UnknownKey);
      }
      if !VerifySignature(cfg.crypto, entry.value.verifyingKey, msg, b.signature) {
        return Err(BadSignature);
      }
      return Ok(entry.value);
    }

    /** The request loop. */
    method ServeRequests()
      requires At(Ready)
      modifies this`jobs, this`children, this`schedule, this`trail, conn
      ensures At(Finished)
      ensures State(Finished) == Serve(cfg, conn.limit, old(State(Ready)), old(conn.inbox), old(children), old(schedule))
    {
      ghost var goal := Serve(cfg, conn.limit, State(Ready), conn.inbox, children, schedule);
      while true
        invariant At(Ready)
        invariant goal == Serve(cfg, conn.limit, State(Ready), conn.inbox, children, schedule)
        decreases |conn.inbox|
      {
        ghost var before := State(Ready);
        var input := conn.ReadFrame();
        if !input.Got? {
          Note(before, Receive(input, None));
          return;
        }
        var r := input.request;
        if r.msgType != Frames.EXEC_SHELL {
          var sent := SendError(UnknownMsgType);
          Note(before, if sent then Receive(input, None) else ReceiveBroken(r));
          return;
        }
        if !r.body.ExecBody? {
          Note(before, Receive(input, None));
          return;
        }
        var ok := RunOneExec(r.body.shell, before);
        if !ok {
          return;
        }
      }
    }

    /** `run_one_exec`: policy, spawn, then the exec future under its timer. */
    method RunOneExec(shell: string, ghost before: Server) returns (ok: bool)
      requires before.phase == Ready && Holding(before, Request(Frames.EXEC_SHELL, ExecBody(shell)))
      modifies this`jobs, this`children, this`schedule, this`trail, conn`outbox
      ensures if ok then At(Ready) else At(Finished)
      ensures var input := Got(Request(Frames.EXEC_SHELL, ExecBody(shell)));
        && Driven(State(if ok then Ready else Finished), schedule)
             == ServeOne(cfg, conn.limit, before, input, old(children), old(schedule))
        && children == if Spawns(cfg, input) then Tail(old(children)) else old(children)
    {
      ghost var r := Request(Frames.EXEC_SHELL, ExecBody(shell));
      var denied := Policy.CheckShell(cfg.deny, shell);
      if denied.Some? {
        ok := conn.WriteFrame(PolicyDenied(denied.value));
        Note(before, if ok then Receive(Got(r), None) else ReceiveBroken(r));
        if ok {
          jobs := jobs + [Denied(shell, denied.value)];
        }
        return;
      }
      if |cfg.shellArgv| < 2 {
        Note(before, Receive(Got(r), None));
        return false;
      }
      var args := cfg.shellArgv + [shell];
      var child: Option<ExecPump.Child> := None;
      if children != [] {
        child := children[0];
        children := children[1..];
      }
      Note(before, Receive(Got(r), child));
      if child.None? {
        return false;
      }
      jobs := jobs + [Process(shell, args, ExecPump.Spawn(child.value), Open)];
      ok := PumpUntilEnd();
    }

    /** The process the exec future belongs to. */
    function Current(): ExecPump.Exec
      requires jobs != [] && jobs[|jobs| - 1].Process?
      reads this
    {
      jobs[|jobs| - 1].exec
    }

    method SetCurrent(e: ExecPump.Exec, end: JobEnd)
      requires jobs != [] && jobs[|jobs| - 1].Process?
      modifies this`jobs
      ensures jobs == old(jobs)[|old(jobs)| - 1 := old(jobs[|jobs| - 1]).(exec := e, end := end)]
    {
      var job := jobs[|jobs| - 1];
      jobs := jobs[|jobs| - 1 := job.(exec := e, end := end)];
    }

    /** A task below the pump moves, if it can. */
    method MoveTask(i: nat, es: ExecPump.Step, ghost phase: Phase)
      requires At(phase) && Awaited(State(phase))
      modifies this`jobs, this`trail
      ensures At(phase) && State(phase) == Turned(cfg, conn.limit, old(State(phase)), Run(i, es))
    {
      if i < |jobs| && jobs[i].Process? && ExecPump.Enabled(cfg.pipeCap, jobs[i].exec, es) {
        Note(State(phase), Task(i, es));
        var job := jobs[i];
        jobs := jobs[i := job.(exec := ExecPump.Apply(cfg.pipeCap, job.exec, es))];
      }
    }

    /** The exec future is at this await. */
    ghost predicate Pumping(pump: ExecPump.Pump)
      reads this, conn
    {
      At(Running) && State(Running).HasCurrent() && State(Running).Current().exec.pump == pump
    }

    method NextTurn() returns (turn: Turn)
      requires schedule != []
      modifies this`schedule
      ensures old(schedule) == [turn] + schedule
    {
      turn := schedule[0];
      schedule := schedule[1..];
    }

    /** One await of the exec future, inside the timer's. */
    method Await(ghost pump: ExecPump.Pump) returns (w: Wake)
      requires Pumping(pump)
      modifies this`jobs, this`schedule, this`trail
      ensures Pumping(pump)
      ensures w.Woken? ==> ExecPump.PumpReady(Current()) && |schedule| < |old(schedule)|
      ensures Drive(cfg, conn.limit, old(State(Running)), old(schedule))
           == Resume(cfg, conn.limit, State(Running), w, schedule)
    {
      ghost var goal := Drive(cfg, conn.limit, State(Running), schedule);
      while schedule != []
        invariant Pumping(pump) && |schedule| <= |old(schedule)|
        invariant goal == Drive(cfg, conn.limit, State(Running), schedule)
        decreases |schedule|
      {
        var woken := TakeTurn(pump);
        if woken.Some? {
          return woken.value;
        }
      }
      return Shutdown;
    }

    /** One turn of the runtime while the exec future waits. */
    method TakeTurn(ghost pump: ExecPump.Pump) returns (w: Option<Wake>)
      requires Pumping(pump) && schedule != []
      modifies this`jobs, this`schedule, this`trail
      ensures Pumping(pump) && |schedule| < |old(schedule)|
      ensures w == Some(Woken) ==> ExecPump.PumpReady(Current())
      ensures Drive(cfg, conn.limit, old(State(Running)), old(schedule))
           == if w.None? then Drive(cfg, conn.limit, State(Running), schedule)
              else Resume(cfg, conn.limit, State(Running), w.value, schedule)
    {
      ghost var s := State(Running);
      var turn := NextTurn();
      DriveTurn(cfg, conn.limit, s, turn, schedule);
      w := None;
      match turn
      case Run(i, es) => RunTurn(i, es, pump);
      case Fire => w := Some(TimerFired);
      case Poll =>
        if ExecPump.PumpReady(Current()) {
          w := Some(Woken);
        } else {
          PollWaits(cfg, conn.limit, s);
        }
    }

    method RunTurn(i: nat, es: ExecPump.Step, ghost pump: ExecPump.Pump)
      requires Pumping(pump)
      modifies this`jobs, this`trail
      ensures Pumping(pump) && State(Running) == Turned(cfg, conn.limit, old(State(Running)), Run(i, es))
    {
      RunKeepsPump(cfg, conn.limit, State(Running), i, es);
      MoveTask(i, es, Running);
    }

    /** The await at the flush behind the exit frame: any poll gets past it. */
    method AwaitFlush() returns (w: Wake)
      requires At(Flushing) && State(Flushing).HasEnded()
      modifies this`jobs, this`schedule, this`trail
      ensures At(Flushing) && State(Flushing).HasEnded()
      ensures Drive(cfg, conn.limit, old(State(Flushing)), old(schedule))
           == Resume(cfg, conn.limit, State(Flushing), w, schedule)
    {
      ghost var goal := Drive(cfg, conn.limit, State(Flushing), schedule);
      while schedule != []
        invariant At(Flushing) && State(Flushing).HasEnded()
        invariant goal == Drive(cfg, conn.limit, State(Flushing), schedule)
        decreases |schedule|
      {
        ghost var s := State(Flushing);
        var turn := NextTurn();
        DriveTurn(cfg, conn.limit, s, turn, schedule);
        match turn
        case Run(i, es) =>
          RunKeepsEnded(cfg, conn.limit, s, i, es);
          MoveTask(i, es, Flushing);
        case Fire => return TimerFired;
        case Poll => return Woken;
      }
      return Shutdown;
    }

    /** A chunk has been received: its frame is written. */
    method ForwardChunk() returns (ok: bool)
      requires Pumping(ExecPump.Receiving) && Current().chan != []
      modifies this`jobs, this`trail, conn`outbox
      ensures if ok then Pumping(ExecPump.Receiving) else At(Finished)
      ensures State(if ok then Running else Finished) == Turned(cfg, conn.limit, old(State(Running)), Poll)
    {
      ghost var before := State(Running);
      var e := Current();
      var c := e.chan[0];
      ok := conn.WriteFrame(Output(c.stream, c.data));
      Note(before, if ok then PumpChunk else Abort);
      if ok {
        SetCurrent(ExecPump.Receive(e), jobs[|jobs| - 1].end);
      } else {
        SetCurrent(ExecPump.DropReceiver(e), Dropped);
      }
    }

    /** The exit frame, at the end of the exec future or after the timer; either way
        the receiver goes. */
    method WriteExit(timedOut: bool) returns (ok: bool)
      requires At(Running) && State(Running).HasCurrent() && (!timedOut ==> Pumping(ExecPump.Exiting))
      modifies this`jobs, this`trail, conn`outbox
      ensures if !ok then At(Finished) else At(if timedOut then Ready else Flushing)
      ensures ok && !timedOut ==> State(Flushing).HasEnded()
      ensures State(if !ok then Finished else if timedOut then Ready else Flushing)
           == Try(cfg, conn.limit, old(State(Running)), if timedOut then Timeout else PumpExit)
    {
      ghost var before := State(Running);
      var e := Current();
      ok := conn.WriteFrame(ExecExit(if timedOut then TIMEOUT_CODE else ExitCode(e.child.status)));
      Note(before, if !ok then Abort else if timedOut then Timeout else PumpExit);
      SetCurrent(ExecPump.DropReceiver(e), if !ok then Dropped else if timedOut then TimedOut else Completed);
    }

    /** The exec future is dropped at an await before its exit frame. */
    method Interrupted(w: Wake) returns (ok: bool)
      requires At(Running) && State(Running).HasCurrent() && !w.Woken?
      modifies this`jobs, this`schedule, this`trail, conn`outbox
      ensures if ok then At(Ready) else At(Finished)
      ensures Driven(State(if ok then Ready else Finished), schedule)
           == Resume(cfg, conn.limit, old(State(Running)), w, old(schedule))
    {
      if w.TimerFired? {
        ok := WriteExit(true);
      } else {
        Note(State(Running), Abort);
        SetCurrent(ExecPump.DropReceiver(Current()), Dropped);
        schedule := [];
        ok := false;
      }
    }

    /** The exec future: receive until the channel closes, wait for the child, write the
        exit frame; and what follows when the timer fires at one of its awaits. */
    method PumpUntilEnd() returns (ok: bool)
      requires Pumping(ExecPump.Receiving)
      modifies this`jobs, this`schedule, this`trail, conn`outbox
      ensures if ok then At(Ready) else At(Finished)
      ensures Driven(State(if ok then Ready else Finished), schedule)
           == Drive(cfg, conn.limit, old(State(Running)), old(schedule))
    {
      ghost var goal := Drive(cfg, conn.limit, State(Running), schedule);
      var w: Wake;
      while true
        invariant Pumping(ExecPump.Receiving)
        invariant goal == Drive(cfg, conn.limit, State(Running), schedule)
        decreases |schedule|
      {
        w := Await(ExecPump.Receiving);
        if !w.Woken? {
          ok := Interrupted(w);
          return;
        }
        var more: bool;
        more, ok := Received();
        if !more {
          return;
        }
      }
    }

    /** `rx.recv` has returned: a chunk goes out as a frame; `None` leads on to the child. */
    method Received() returns (more: bool, ok: bool)
      requires Pumping(ExecPump.Receiving) && ExecPump.PumpReady(Current())
      modifies this`jobs, this`schedule, this`trail, conn`outbox
      ensures more ==> Pumping(ExecPump.Receiving) && schedule == old(schedule)
      ensures more ==> State(Running) == Turned(cfg, conn.limit, old(State(Running)), Poll)
      ensures !more ==> if ok then At(Ready) else At(Finished)
      ensures !more ==>
        Driven(State(if ok then Ready else Finished), schedule)
          == Resume(cfg, conn.limit, old(State(Running)), Woken, old(schedule))
    {
      if Current().chan == [] {
        CloseQueue();
        ok := AwaitChild();
        more := false;
      } else {
        ok := ForwardChunk();
        more := ok;
        if !ok {
          DriveEnds(cfg, conn.limit, State(Finished), schedule);
        }
      }
    }

    /** `rx.recv` has returned `None`. */
    method CloseQueue()
      requires Pumping(ExecPump.Receiving) && Current().chan == [] && ExecPump.NoSenders(Current())
      modifies this`jobs, this`trail
      ensures Pumping(ExecPump.Waiting) && State(Running) == Turned(cfg, conn.limit, old(State(Running)), Poll)
    {
      Note(State(Running), PumpClosed);
      SetCurrent(ExecPump.CloseQueue(Current()), jobs[|jobs| - 1].end);
    }

    /** `child.wait`, and then the exit frame. */
    method AwaitChild() returns (ok: bool)
      requires Pumping(ExecPump.Waiting)
      modifies this`jobs, this`schedule, this`trail, conn`outbox
      ensures if ok then At(Ready) else At(Finished)
      ensures Driven(State(if ok then Ready else Finished), schedule)
           == Drive(cfg, conn.limit, old(State(Running)), old(schedule))
    {
      var w := Await(ExecPump.Waiting);
      if !w.Woken? {
        ok := Interrupted(w);
        return;
      }
      Reap();
      ok := SendExit();
    }

    /** `child.wait` has returned. */
    method Reap()
      requires Pumping(ExecPump.Waiting) && Current().exited
      modifies this`jobs, this`trail
      ensures Pumping(ExecPump.Exiting) && State(Running) == Turned(cfg, conn.limit, old(State(Running)), Poll)
    {
      Note(State(Running), PumpWait);
      SetCurrent(ExecPump.Reap(Current()), jobs[|jobs| - 1].end);
    }

    /** The exit frame's write, and the flush behind it. */
    method SendExit() returns (ok: bool)
      requires Pumping(ExecPump.Exiting)
      modifies this`jobs, this`schedule, this`trail, conn`outbox
      ensures if ok then At(Ready) else At(Finished)
      ensures Driven(State(if ok then Ready else Finished), schedule)
           == Drive(cfg, conn.limit, old(State(Running)), old(schedule))
    {
      var w := Await(ExecPump.Exiting);
      if !w.Woken? {
        ok := Interrupted(w);
        return;
      }
      ok := WriteExit(false);
      if ok {
        ok := Flush();
      }
    }

    /** The flush behind the exit frame; a timer that fires here writes a second one. */
    method Flush() returns (ok: bool)
      requires At(Flushing) && State(Flushing).HasEnded()
      modifies this`jobs, this`schedule, this`trail, conn`outbox
      ensures if ok then At(Ready) else At(Finished)
      ensures Driven(State(if ok then Ready else Finished), schedule)
           == Drive(cfg, conn.limit, old(State(Flushing)), old(schedule))
    {
      var w := AwaitFlush();
      match w
      case Woken =>
        Note(State(Flushing), Flushed);
        ok := true;
      case TimerFired => ok := WriteSecondExit();
      case Shutdown =>
        Note(State(Flushing), Abort);
        schedule, ok := [], false;
    }

    /** The timer has fired behind an exit frame. */
    method WriteSecondExit() returns (ok: bool)
      requires At(Flushing) && State(Flushing).HasEnded()
      modifies this`jobs, this`trail, conn`outbox
      ensures if ok then At(Ready) else At(Finished)
      ensures State(if ok then Ready else Finished) == Try(cfg, conn.limit, old(State(Flushing)), LateTimeout)
    {
      ghost var before := State(Flushing);
      ok := conn.WriteFrame(ExecExit(TIMEOUT_CODE));
      Note(before, if ok then LateTimeout else Abort);
      if ok {
        SetCurrent(Current(), Late);
      }
    }
  }
}
