/** `run_session` on the server as a transition system: one step is the work
    between two awaits, and the reader tasks of every process it has spawned,
    finished or not, interleave with it freely. */
module ServerSession {
  import opened Common
  import opened Identity
  import Frames
  import Policy
  import ExecPump

  // ---------------------------------------------------------------- messages

  datatype Body =
    | AuthBody(keyType: string, fingerprint: string, signature: string)
    | ExecBody(shell: string)
    | OtherBody

  /** An inbound frame: its type byte and what its JSON payload parses as. */
  datatype Request = Request(msgType: byte, body: Body)

  /** What `read_frame` returns: a frame, `UnexpectedEof`, or another error. */
  datatype Input = Got(request: Request) | Eof | Fault

  datatype ErrorCode = ExpectedAuthResponse | UnknownMsgType

  /** An outbound frame. */
  datatype Reply =
    | Challenge(nonce: seq<byte>, sessionId: seq<byte>)
    | AuthOk
    | AuthFailed(reason: AuthFailure)
    | Output(stream: ExecPump.Stream, data: seq<byte>)
    | ExecExit(code: int)
    | PolicyDenied(pattern: string)
    | ErrorReply(error: ErrorCode)

  const TIMEOUT_CODE: int := 124

  // ------------------------------------------------------------------- state

  /** `keys` is `None` when `authorized_keys` cannot be loaded; `pipeCap` is the
      size of the operating system's pipes. */
  datatype Config = Config(crypto: Crypto, keys: Option<seq<AuthorizedKey>>, deny: seq<string>,
                           shellArgv: seq<string>, pipeCap: nat)
  {
    function Table(): seq<AuthorizedKey> {
      if keys.Some? then keys.value else []
    }
  }

  /** How `run_one_exec` ended: not yet, with the child's exit, by the timer, because the
      connection failed under it, or with the child's exit and then the timer at the
      flush behind the exit frame. */
  datatype JobEnd = Open | Completed | TimedOut | Dropped | Late

  /** What became of one `ExecShell` request. */
  datatype Job =
    | Denied(shell: string, pattern: string)
    | Process(shell: string, argv: seq<string>, exec: ExecPump.Exec, end: JobEnd)

  /** `Flushing`: the exit frame has gone out, the exec future has not returned yet. */
  datatype Phase = Start | AwaitAuth | Ready | Running | Flushing | Finished

  /** `inp` and `out` are the frames read and written so far; `jobs` every request
      handled so far. While `Running`, the last job is the current one. */
  datatype Server = Server(phase: Phase, nonce: seq<byte>, sessionId: seq<byte>, auth: Option<AuthorizedKey>,
                           inp: seq<Request>, out: seq<Reply>, jobs: seq<Job>)
  {
    function Record(r: Request): Server {
      this.(inp := inp + [r])
    }

    function Send(m: Reply): Server {
      this.(out := out + [m])
    }

    function Finish(): Server {
      this.(phase := Finished)
    }

    predicate HasCurrent() {
      phase == Running && jobs != [] && jobs[|jobs| - 1].Process?
    }

    /** The exit frame of the last job has gone out, its exec future not returned. */
    predicate HasEnded() {
      phase == Flushing && jobs != [] && jobs[|jobs| - 1].Process?
    }

    function Current(): (job: Job)
      requires HasCurrent()
      ensures job.Process?
    {
      jobs[|jobs| - 1]
    }

    function SetCurrent(job: Job): Server
      requires jobs != []
    {
      this.(jobs := jobs[|jobs| - 1 := job])
    }
  }

  const INIT: Server := Server(Start, [], [], None, [], [], [])

  // ------------------------------------------------------------------- steps

  /** `ReceiveBroken`: a frame is read and its answer cannot be written. The exec future
      moves by `PumpChunk` (a chunk is received and its frame written), `PumpClosed`
      (no chunk and no sender left), `PumpWait` (the child is reaped), `PumpExit` (the
      exit frame is written) and `Flushed`; `Timeout` is the timer at an await before
      the exit frame, `LateTimeout` the timer at the flush behind it. */
  datatype Step =
    | LoadFails
    | Begin(nonce: Bytes32, sessionId: seq<byte>)
    | Receive(input: Input, child: Option<ExecPump.Child>)
    | ReceiveBroken(request: Request)
    | Task(job: nat, step: ExecPump.Step)
    | PumpChunk
    | PumpClosed
    | PumpWait
    | PumpExit
    | Flushed
    | Timeout
    | LateTimeout
    | Abort

  predicate Enabled(cfg: Config, s: Server, step: Step) {
    match step
    case LoadFails => s.phase == Start && cfg.keys.None?
    case Begin(_, _) => s.phase == Start && cfg.keys.Some?
    case Receive(_, _) => s.phase == AwaitAuth || s.phase == Ready
    case ReceiveBroken(r) => (s.phase == AwaitAuth || s.phase == Ready) && OnInput(cfg, s, Got(r), None).out != s.out
    case Task(i, es) => i < |s.jobs| && s.jobs[i].Process? && ExecPump.Enabled(cfg.pipeCap, s.jobs[i].exec, es)
    case PumpChunk => s.HasCurrent() && s.Current().exec.pump == ExecPump.Receiving && s.Current().exec.chan != []
    case PumpClosed =>
      && s.HasCurrent() && s.Current().exec.pump == ExecPump.Receiving
      && s.Current().exec.chan == [] && ExecPump.NoSenders(s.Current().exec)
    case PumpWait => s.HasCurrent() && s.Current().exec.pump == ExecPump.Waiting && s.Current().exec.exited
    case PumpExit => s.HasCurrent() && s.Current().exec.pump == ExecPump.Exiting
    case Flushed => s.HasEnded()
    case Timeout => s.HasCurrent()
    case LateTimeout => s.HasEnded()
    case Abort => s.phase != Finished
  }

  /** Handling of the one frame expected before authentication. */
  function OnAuth(cfg: Config, s: Server, input: Input): Server {
    match input
    case Got(r) =>
      var t := s.Record(r);
      if r.msgType != Frames.AUTH_RESPONSE then t.Send(ErrorReply(ExpectedAuthResponse)).Finish()
      else if !r.body.AuthBody? then t.Finish()
      else
        (match Authenticate(cfg.crypto, cfg.Table(), s.nonce, s.sessionId, r.body.keyType, r.body.fingerprint, r.body.signature)
         case Err(reason) => t.Send(AuthFailed(reason)).Finish()
         case Ok(key) => t.Send(AuthOk).(phase := Ready, auth := Some(key)))
    case _ => s.Finish()
  }

  /** Handling of one frame after authentication; `child` is what the operating
      system makes of a spawn. */
  function OnRequest(cfg: Config, s: Server, input: Input, child: Option<ExecPump.Child>): Server {
    match input
    case Got(r) =>
      var t := s.Record(r);
      if r.msgType != Frames.EXEC_SHELL then t.Send(ErrorReply(UnknownMsgType)).Finish()
      else if !r.body.ExecBody? then t.Finish()
      else StartExec(cfg, t, r.body.shell, child)
    case _ => s.Finish()
  }

  function StartExec(cfg: Config, s: Server, shell: string, child: Option<ExecPump.Child>): Server {
    match Policy.CheckShell(cfg.deny, shell)
    case Some(pattern) => s.(jobs := s.jobs + [Denied(shell, pattern)]).Send(PolicyDenied(pattern))
    case None =>
      if |cfg.shellArgv| < 2 || child.None? then s.Finish()
      else s.(phase := Running,
              jobs := s.jobs + [Process(shell, cfg.shellArgv + [shell], ExecPump.Spawn(child.value), Open)])
  }

  function OnInput(cfg: Config, s: Server, input: Input, child: Option<ExecPump.Child>): Server {
    if s.phase == AwaitAuth then OnAuth(cfg, s, input) else OnRequest(cfg, s, input, child)
  }

  /** The exec future gets past an await without writing anything. */
  function SetExec(s: Server, e: ExecPump.Exec): Server
    requires s.HasCurrent()
  {
    var job := s.Current();
    s.SetCurrent(job.(exec := e))
  }

  /** The pump turns the chunk at the head of the channel into a stream frame. */
  function TakeChunk(s: Server): Server
    requires s.HasCurrent() && s.Current().exec.pump == ExecPump.Receiving && s.Current().exec.chan != []
  {
    var c := s.Current().exec.chan[0];
    SetExec(s, ExecPump.Receive(s.Current().exec)).Send(Output(c.stream, c.data))
  }

  /** `run_one_exec` is over: the receiver goes. */
  function EndedJob(job: Job, end: JobEnd): Job
    requires job.Process?
  {
    job.(exec := ExecPump.DropReceiver(job.exec), end := end)
  }

  /** The exit frame of the current process is written. */
  function EndExec(s: Server, end: JobEnd, code: int, next: Phase): Server
    requires s.HasCurrent()
  {
    s.SetCurrent(EndedJob(s.Current(), end)).Send(ExecExit(code)).(phase := next)
  }

  /** A second exit frame follows the first. */
  function LateExit(s: Server): Server
    requires s.HasEnded()
  {
    var job := s.jobs[|s.jobs| - 1];
    s.SetCurrent(job.(end := Late)).Send(ExecExit(TIMEOUT_CODE)).(phase := Ready)
  }

  /** The connection fails while a process runs. */
  function DropExec(s: Server): Server
    requires s.HasCurrent()
  {
    s.SetCurrent(EndedJob(s.Current(), Dropped)).Finish()
  }

  function RunTask(cfg: Config, s: Server, i: nat, es: ExecPump.Step): Server
    requires i < |s.jobs| && s.jobs[i].Process? && ExecPump.Enabled(cfg.pipeCap, s.jobs[i].exec, es)
  {
    var job := s.jobs[i];
    s.(jobs := s.jobs[i := job.(exec := ExecPump.Apply(cfg.pipeCap, job.exec, es))])
  }

  function ExitCode(status: Option<int>): int {
    if status.Some? then status.value else -1
  }

  function Apply(cfg: Config, s: Server, step: Step): Server
    requires Enabled(cfg, s, step)
  {
    match step
    case LoadFails => s.Finish()
    case Begin(nonce, id) => s.(nonce := nonce, sessionId := id, phase := AwaitAuth).Send(Challenge(nonce, id))
    case Receive(input, child) => OnInput(cfg, s, input, child)
    case ReceiveBroken(r) => s.Record(r).Finish()
    case Task(i, es) => RunTask(cfg, s, i, es)
    case PumpChunk => TakeChunk(s)
    case PumpClosed => SetExec(s, ExecPump.CloseQueue(s.Current().exec))
    case PumpWait => SetExec(s, ExecPump.Reap(s.Current().exec))
    case PumpExit => EndExec(s, Completed, ExitCode(s.Current().exec.child.status), Flushing)
    case Flushed => s.(phase := Ready)
    case Timeout => EndExec(s, TimedOut, TIMEOUT_CODE, Ready)
    case LateTimeout => LateExit(s)
    case Abort => if s.HasCurrent() then DropExec(s) else s.Finish()
  }

  /** `steps` leads from `s` to `s'`. */
  ghost predicate Runs(cfg: Config, s: Server, steps: seq<Step>, s': Server)
    decreases |steps|
  {
    if steps == [] then s == s'
    else Enabled(cfg, s, steps[0]) && Runs(cfg, Apply(cfg, s, steps[0]), steps[1..], s')
  }

  // -------------------------------------- the reply stream as its reader sees it

  predicate IsOutput(m: Reply) {
    m.Output?
  }

  predicate AllOutput(ms: seq<Reply>) {
    forall m <- ms :: IsOutput(m)
  }

  /** The last frame of a response. */
  predicate IsTerminal(m: Reply) {
    m.ExecExit? || m.PolicyDenied?
  }

  datatype Split = Split(groups: seq<seq<Reply>>, open: seq<Reply>)

  /** Cuts a reply stream after every terminal frame. */
  function SplitGroups(ms: seq<Reply>): Split {
    if ms == [] then Split([], [])
    else
      var before := SplitGroups(ms[..|ms| - 1]);
      var m := ms[|ms| - 1];
      if IsTerminal(m) then Split(before.groups + [before.open + [m]], [])
      else Split(before.groups, before.open + [m])
  }

  function DataOf(m: Reply, st: ExecPump.Stream): seq<byte> {
    if m.Output? && m.stream == st then m.data else []
  }

  /** The bytes of one stream carried by a list of replies. */
  function Data(ms: seq<Reply>, st: ExecPump.Stream): seq<byte> {
    if ms == [] then [] else Data(ms[..|ms| - 1], st) + DataOf(ms[|ms| - 1], st)
  }

  /** The replies between a successful authentication and a closing error frame. */
  function Responses(out: seq<Reply>): seq<Reply> {
    if |out| <= 2 then []
    else if out[|out| - 1].ErrorReply? then out[2..|out| - 1]
    else out[2..]
  }

  // --------------------------------------------------------------- invariant

  /** The account of one process whose output so far is in `ms`. */
  ghost predicate Accounts(e: ExecPump.Exec, ms: seq<Reply>) {
    ExecPump.Inv(e, Data(ms, ExecPump.StdOut), Data(ms, ExecPump.StdErr))
  }

  ghost predicate Whole(e: ExecPump.Exec, ms: seq<Reply>, st: ExecPump.Stream) {
    e.Of(st).lost || Data(ms, st) == ExecPump.Project(e.child.script, st)
  }

  /** `g` is a complete response to `job`. */
  ghost predicate Answers(job: Job, g: seq<Reply>) {
    g != [] &&
    match job
    case Denied(_, pattern) => g == [PolicyDenied(pattern)]
    case Process(_, _, e, end) =>
      && AllOutput(g[..|g| - 1])
      && Accounts(e, g)
      && !e.rx
      && if end == Completed || end == Late then
           && g[|g| - 1] == ExecExit(ExitCode(e.child.status))
           && !e.out.reading && !e.err.reading && e.exited
           && Whole(e, g, ExecPump.StdOut) && Whole(e, g, ExecPump.StdErr)
         else end == TimedOut && g[|g| - 1] == ExecExit(TIMEOUT_CODE)
  }

  /** The timer has fired behind the job's exit frame. */
  predicate IsLate(job: Job) {
    job.Process? && job.end == Late
  }

  /** The process came to its own end. */
  predicate EndedItself(job: Job) {
    job.Process? && (job.end == Completed || job.end == Late)
  }

  /** What a late timer has written. */
  const LATE_GROUP: seq<Reply> := [ExecExit(TIMEOUT_CODE)]

  /** `open` is the beginning of a response to `job`. */
  ghost predicate Begins(job: Job, open: seq<Reply>) {
    job.Process? && job.end in {Open, Dropped} && AllOutput(open) && Accounts(job.exec, open)
  }

  /** A process runs what was asked, and only if policy lets it. */
  ghost predicate Guarded(cfg: Config, job: Job) {
    match job
    case Denied(shell, pattern) => Policy.CheckShell(cfg.deny, shell) == Some(pattern)
    case Process(shell, argv, _, _) =>
      Policy.CheckShell(cfg.deny, shell).None? && |cfg.shellArgv| >= 2 && argv == cfg.shellArgv + [shell]
  }

  /** The client proved possession of the key the session runs under. */
  ghost predicate Accepted(cfg: Config, s: Server) {
    && s.auth.Some?
    && |s.inp| >= 1 && s.inp[0].msgType == Frames.AUTH_RESPONSE && s.inp[0].body.AuthBody?
    && var b := s.inp[0].body;
       Authenticate(cfg.crypto, cfg.Table(), s.nonce, s.sessionId, b.keyType, b.fingerprint, b.signature) == Ok(s.auth.value)
  }

  ghost predicate JobsInv(cfg: Config, s: Server) {
    && |s.inp| >= |s.jobs| + 1
    && (forall k :: 0 <= k < |s.jobs| ==> s.inp[k + 1] == Request(Frames.EXEC_SHELL, ExecBody(s.jobs[k].shell)))
    && (forall job <- s.jobs :: Guarded(cfg, job))
    && (s.phase != Finished ==> |s.inp| == |s.jobs| + 1)
  }

  /** The complete responses answer the jobs one by one, a late job being followed by one
      more that answers none. */
  ghost predicate Answered(jobs: seq<Job>, groups: seq<seq<Reply>>)
    decreases |jobs|
  {
    if jobs == [] then groups == []
    else
      var last, before, n := jobs[|jobs| - 1], jobs[..|jobs| - 1], |groups|;
      if IsLate(last) then
        n >= 2 && groups[n - 1] == LATE_GROUP && Answers(last, groups[n - 2]) && Answered(before, groups[..n - 2])
      else n >= 1 && Answers(last, groups[n - 1]) && Answered(before, groups[..n - 1])
  }

  ghost predicate Settled(jobs: seq<Job>, sp: Split) {
    Answered(jobs, sp.groups) && sp.open == []
  }

  ghost predicate Pending(jobs: seq<Job>, sp: Split) {
    jobs != [] && Answered(jobs[..|jobs| - 1], sp.groups) && Begins(jobs[|jobs| - 1], sp.open)
  }

  /** The frames written match the jobs, `sp` being how the reader cuts them. */
  ghost predicate Matches(s: Server, sp: Split) {
    && |s.out| >= 2 && s.out[0] == Challenge(s.nonce, s.sessionId) && s.out[1] == AuthOk
    && (s.out[|s.out| - 1].ErrorReply? ==> s.phase == Finished && Settled(s.jobs, sp))
    && (Settled(s.jobs, sp) || Pending(s.jobs, sp))
    && (s.phase == Ready || s.phase == Flushing ==> Settled(s.jobs, sp))
    && (s.phase == Running ==> Pending(s.jobs, sp) && s.Current().end == Open && s.Current().exec.rx)
    && (s.phase == Flushing ==> s.HasEnded() && s.jobs[|s.jobs| - 1].end == Completed)
  }

  ghost predicate RepliesInv(s: Server) {
    Matches(s, SplitGroups(Responses(s.out)))
  }

  /** Before authentication, or when it did not succeed. */
  ghost predicate EarlyInv(cfg: Config, s: Server) {
    && s.auth.None? && s.jobs == []
    && match s.phase
       case Start => s.out == [] && s.inp == []
       case AwaitAuth => s.out == [Challenge(s.nonce, s.sessionId)] && s.inp == [] && cfg.keys.Some?
       case Finished =>
         || s.out == []
         || (|s.out| == 1 && s.out[0] == Challenge(s.nonce, s.sessionId))
         || (|s.out| == 2 && s.out[0] == Challenge(s.nonce, s.sessionId) && (s.out[1].AuthFailed? || s.out[1].ErrorReply?))
       case _ => false
  }

  /** Who may run what. */
  ghost predicate GuardInv(cfg: Config, s: Server) {
    if s.auth.None? then EarlyInv(cfg, s)
    else s.phase !in {Start, AwaitAuth} && Accepted(cfg, s) && JobsInv(cfg, s)
  }

  /** And the replies are in order. */
  ghost predicate Inv(cfg: Config, s: Server) {
    GuardInv(cfg, s) && (s.auth.Some? ==> RepliesInv(s))
  }

  // ------------------------------------------------------------ preservation

  lemma SplitSnoc(ms: seq<Reply>, m: Reply)
    ensures var a, b := SplitGroups(ms), SplitGroups(ms + [m]);
      b == if IsTerminal(m) then Split(a.groups + [a.open + [m]], []) else Split(a.groups, a.open + [m])
  {
    assert (ms + [m])[..|ms + [m]| - 1] == ms;
  }

  lemma DataSnoc(ms: seq<Reply>, m: Reply, st: ExecPump.Stream)
    ensures Data(ms + [m], st) == Data(ms, st) + DataOf(m, st)
  {
    assert (ms + [m])[..|ms + [m]| - 1] == ms;
  }

  lemma ResponsesSnoc(out: seq<Reply>, m: Reply)
    requires |out| >= 2 && !out[|out| - 1].ErrorReply?
    ensures Responses(out + [m]) == if m.ErrorReply? then Responses(out) else Responses(out) + [m]
  {
  }

  /** How one more reply shows in the reader's view of the stream. */
  lemma ReplySnoc(out: seq<Reply>, m: Reply)
    requires |out| >= 2 && !out[|out| - 1].ErrorReply? && !m.ErrorReply?
    ensures var a, b := SplitGroups(Responses(out)), SplitGroups(Responses(out + [m]));
      b == if IsTerminal(m) then Split(a.groups + [a.open + [m]], []) else Split(a.groups, a.open + [m])
  {
    ResponsesSnoc(out, m);
    SplitSnoc(Responses(out), m);
  }

  /** Replacing a job's process state keeps what is known about its request. */
  lemma JobReplaced(cfg: Config, s: Server, s': Server, i: nat)
    requires JobsInv(cfg, s) && i < |s.jobs| && s.jobs[i].Process?
    requires s'.inp == s.inp && |s'.jobs| == |s.jobs| && s'.jobs[i].Process?
    requires s'.jobs[i].shell == s.jobs[i].shell && s'.jobs[i].argv == s.jobs[i].argv
    requires forall k :: 0 <= k < |s.jobs| && k != i ==> s'.jobs[k] == s.jobs[k]
    requires s'.phase != Finished ==> s.phase != Finished
    ensures JobsInv(cfg, s')
  {
    assert forall k :: 0 <= k < |s.jobs| ==> Guarded(cfg, s.jobs[k]);
    assert forall k :: 0 <= k < |s.jobs| ==> Guarded(cfg, s'.jobs[k]);
  }

  lemma AnsweredSnoc(jobs: seq<Job>, groups: seq<seq<Reply>>, job: Job, g: seq<Reply>)
    requires Answered(jobs, groups) && Answers(job, g) && !IsLate(job)
    ensures Answered(jobs + [job], groups + [g])
  {
    assert (jobs + [job])[..|jobs|] == jobs && (groups + [g])[..|groups|] == groups;
  }

  /** The timer behind the last job's exit frame. */
  lemma AnsweredLate(jobs: seq<Job>, groups: seq<seq<Reply>>)
    requires Answered(jobs, groups) && jobs != [] && jobs[|jobs| - 1].Process? && jobs[|jobs| - 1].end == Completed
    ensures var last := jobs[|jobs| - 1]; Answered(jobs[|jobs| - 1 := last.(end := Late)], groups + [LATE_GROUP])
  {
    var n, last := |groups|, jobs[|jobs| - 1];
    var jobs', groups' := jobs[|jobs| - 1 := last.(end := Late)], groups + [LATE_GROUP];
    assert jobs'[..|jobs| - 1] == jobs[..|jobs| - 1] && groups'[..n - 1] == groups[..n - 1];
    assert groups'[n - 1] == groups[n - 1];
  }

  /** Whatever answers the first state of a job answers the second. */
  ghost predicate Keeps(job: Job, job': Job) {
    (IsLate(job') <==> IsLate(job)) && forall g :: Answers(job, g) ==> Answers(job', g)
  }

  /** Replacing the state of one answered job by another that the same frames answer. */
  lemma {:induction false} AnsweredReplace(jobs: seq<Job>, groups: seq<seq<Reply>>, i: nat, job: Job)
    requires Answered(jobs, groups) && i < |jobs| && Keeps(jobs[i], job)
    ensures Answered(jobs[i := job], groups)
    decreases |jobs|
  {
    var k := |jobs| - 1;
    var jobs', before := jobs[i := job], jobs[..k];
    if i == k {
      assert jobs'[..k] == before;
    } else {
      assert jobs'[..k] == before[i := job];
      AnsweredReplace(before, groups[..|groups| - if IsLate(jobs[k]) then 2 else 1], i, job);
    }
  }

  lemma TakeChunkReplies(s: Server)
    requires RepliesInv(s) && s.HasCurrent() && s.Current().exec.pump == ExecPump.Receiving && s.Current().exec.chan != []
    ensures RepliesInv(TakeChunk(s))
  {
    var e := s.Current().exec;
    ReplySnoc(s.out, Output(e.chan[0].stream, e.chan[0].data));
    TakeChunkMatches(s, SplitGroups(Responses(s.out)));
  }

  lemma TakeChunkMatches(s: Server, sp: Split)
    requires Matches(s, sp) && s.HasCurrent() && s.Current().exec.pump == ExecPump.Receiving && s.Current().exec.chan != []
    ensures var c := s.Current().exec.chan[0];
      Matches(TakeChunk(s), Split(sp.groups, sp.open + [Output(c.stream, c.data)]))
  {
    var e := s.Current().exec;
    var s' := TakeChunk(s);
    TakeChunkAccounts(e, sp.open);
    assert Begins(s'.Current(), sp.open + [Output(e.chan[0].stream, e.chan[0].data)]);
    assert s'.jobs[..|s.jobs| - 1] == s.jobs[..|s.jobs| - 1];
  }

  lemma TakeChunkAccounts(e: ExecPump.Exec, open: seq<Reply>)
    requires Accounts(e, open) && e.pump == ExecPump.Receiving && e.chan != []
    ensures Accounts(ExecPump.Receive(e), open + [Output(e.chan[0].stream, e.chan[0].data)])
  {
    var m := Output(e.chan[0].stream, e.chan[0].data);
    DataSnoc(open, m, ExecPump.StdOut);
    DataSnoc(open, m, ExecPump.StdErr);
    ExecPump.ReceiveStream(e, ExecPump.StdOut, Data(open, ExecPump.StdOut));
    ExecPump.ReceiveStream(e, ExecPump.StdErr, Data(open, ExecPump.StdErr));
  }

  predicate CanEnd(job: Job, end: JobEnd, code: int)
    requires job.Process?
  {
    || (end == TimedOut && code == TIMEOUT_CODE)
    || (end == Completed && code == ExitCode(job.exec.child.status) && job.exec.pump == ExecPump.Exiting)
  }

  /** The response to the job is complete. */
  lemma EndAnswers(job: Job, end: JobEnd, code: int, open: seq<Reply>)
    requires Begins(job, open) && CanEnd(job, end, code) && job.exec.rx
    ensures Answers(EndedJob(job, end), open + [ExecExit(code)])
  {
    var e := job.exec;
    var g := open + [ExecExit(code)];
    assert g[..|g| - 1] == open;
    DataSnoc(open, ExecExit(code), ExecPump.StdOut);
    DataSnoc(open, ExecExit(code), ExecPump.StdErr);
    assert Data(g, ExecPump.StdOut) == Data(open, ExecPump.StdOut) && Data(g, ExecPump.StdErr) == Data(open, ExecPump.StdErr);
    ExecPump.DropStream(e, ExecPump.StdOut, Data(open, ExecPump.StdOut));
    ExecPump.DropStream(e, ExecPump.StdErr, Data(open, ExecPump.StdErr));
    if end == Completed {
      assert Data(g, ExecPump.StdOut) + [] == Data(g, ExecPump.StdOut);
      assert Data(g, ExecPump.StdErr) + [] == Data(g, ExecPump.StdErr);
    }
  }

  lemma EndExecReplies(s: Server, end: JobEnd, code: int, next: Phase)
    requires RepliesInv(s) && s.HasCurrent() && CanEnd(s.Current(), end, code)
    requires next == Ready || (next == Flushing && end == Completed)
    ensures RepliesInv(EndExec(s, end, code, next))
  {
    ReplySnoc(s.out, ExecExit(code));
    EndExecMatches(s, end, code, next, SplitGroups(Responses(s.out)));
  }

  lemma EndExecMatches(s: Server, end: JobEnd, code: int, next: Phase, sp: Split)
    requires Matches(s, sp) && s.HasCurrent() && CanEnd(s.Current(), end, code)
    requires next == Ready || (next == Flushing && end == Completed)
    ensures Matches(EndExec(s, end, code, next), Split(sp.groups + [sp.open + [ExecExit(code)]], []))
  {
    EndSettles(s.jobs, end, code, sp);
  }

  lemma EndSettles(jobs: seq<Job>, end: JobEnd, code: int, sp: Split)
    requires Pending(jobs, sp)
    requires var last := jobs[|jobs| - 1]; last.Process? && CanEnd(last, end, code) && last.exec.rx
    ensures Settled(jobs[|jobs| - 1 := EndedJob(jobs[|jobs| - 1], end)], Split(sp.groups + [sp.open + [ExecExit(code)]], []))
  {
    var before, last := jobs[..|jobs| - 1], jobs[|jobs| - 1];
    EndAnswers(last, end, code, sp.open);
    AnsweredSnoc(before, sp.groups, EndedJob(last, end), sp.open + [ExecExit(code)]);
    assert jobs[|jobs| - 1 := EndedJob(last, end)] == before + [EndedJob(last, end)];
  }

  lemma DropExecReplies(s: Server)
    requires RepliesInv(s) && s.HasCurrent()
    ensures RepliesInv(DropExec(s))
  {
    DropExecMatches(s, SplitGroups(Responses(s.out)));
  }

  lemma DropExecMatches(s: Server, sp: Split)
    requires Matches(s, sp) && s.HasCurrent()
    ensures Matches(DropExec(s), sp)
  {
    var s' := DropExec(s);
    DropBegins(s.Current(), sp.open);
    assert s'.jobs[..|s.jobs| - 1] == s.jobs[..|s.jobs| - 1];
    assert Pending(s'.jobs, sp);
  }

  lemma DropBegins(job: Job, open: seq<Reply>)
    requires Begins(job, open)
    ensures Begins(EndedJob(job, Dropped), open)
  {
    ExecPump.DropStream(job.exec, ExecPump.StdOut, Data(open, ExecPump.StdOut));
    ExecPump.DropStream(job.exec, ExecPump.StdErr, Data(open, ExecPump.StdErr));
  }

  /** The tasks of a job whose response is complete change nothing about it. */
  lemma TaskAnswers(cap: nat, job: Job, es: ExecPump.Step, g: seq<Reply>)
    requires job.Process? && Answers(job, g) && ExecPump.Enabled(cap, job.exec, es)
    ensures Answers(job.(exec := ExecPump.Apply(cap, job.exec, es)), g)
  {
    ExecPump.StepInv(cap, job.exec, es, Data(g, ExecPump.StdOut), Data(g, ExecPump.StdErr));
  }

  lemma RunTaskReplies(cfg: Config, s: Server, i: nat, es: ExecPump.Step)
    requires RepliesInv(s) && Enabled(cfg, s, Task(i, es))
    ensures RepliesInv(RunTask(cfg, s, i, es))
  {
    RunTaskMatches(cfg, s, i, es, SplitGroups(Responses(s.out)));
  }

  lemma RunTaskMatches(cfg: Config, s: Server, i: nat, es: ExecPump.Step, sp: Split)
    requires Matches(s, sp) && Enabled(cfg, s, Task(i, es))
    ensures Matches(RunTask(cfg, s, i, es), sp)
  {
    var job := RunTask(cfg, s, i, es).jobs[i];
    forall g | Answers(s.jobs[i], g) ensures Answers(job, g) {
      TaskAnswers(cfg.pipeCap, s.jobs[i], es, g);
    }
    if Settled(s.jobs, sp) {
      SettledReplace(s, sp, i, job);
    } else if i == |s.jobs| - 1 {
      TaskBegins(cfg.pipeCap, s.jobs[i], es, sp.open);
      OpenJobMatches(s, sp, job);
    } else {
      EarlierReplace(s, sp, i, job);
    }
  }

  lemma SettledReplace(s: Server, sp: Split, i: nat, job: Job)
    requires Matches(s, sp) && Settled(s.jobs, sp) && i < |s.jobs| && s.phase != Running
    requires s.jobs[i].Process? && job.Process? && job.end == s.jobs[i].end
    requires Keeps(s.jobs[i], job)
    ensures Matches(s.(jobs := s.jobs[i := job]), sp)
  {
    assert Settled(s.jobs[i := job], sp) by { AnsweredReplace(s.jobs, sp.groups, i, job); }
  }

  lemma EarlierReplace(s: Server, sp: Split, i: nat, job: Job)
    requires Matches(s, sp) && Pending(s.jobs, sp) && i < |s.jobs| - 1 && s.phase !in {Ready, Flushing}
    requires !s.out[|s.out| - 1].ErrorReply?
    requires s.jobs[i].Process? && job.Process? && job.end == s.jobs[i].end
    requires Keeps(s.jobs[i], job)
    ensures Matches(s.(jobs := s.jobs[i := job]), sp)
  {
    PendingReplace(s.jobs, sp, i, job);
  }

  lemma PendingReplace(jobs: seq<Job>, sp: Split, i: nat, job: Job)
    requires Pending(jobs, sp) && i < |jobs| - 1 && Keeps(jobs[i], job)
    ensures Pending(jobs[i := job], sp)
  {
    var before := jobs[..|jobs| - 1];
    AnsweredReplace(before, sp.groups, i, job);
    assert jobs[i := job][..|jobs| - 1] == before[i := job];
  }

  lemma OpenJobMatches(s: Server, sp: Split, job: Job)
    requires Matches(s, sp) && Pending(s.jobs, sp) && s.phase !in {Ready, Flushing} && Begins(job, sp.open)
    requires !s.out[|s.out| - 1].ErrorReply?
    requires s.HasCurrent() ==> job.end == s.Current().end && job.exec.rx == s.Current().exec.rx
    ensures Matches(s.(jobs := s.jobs[|s.jobs| - 1 := job]), sp)
  {
    assert s.jobs[|s.jobs| - 1 := job][..|s.jobs| - 1] == s.jobs[..|s.jobs| - 1];
  }

  lemma TaskBegins(cap: nat, job: Job, es: ExecPump.Step, open: seq<Reply>)
    requires Begins(job, open) && ExecPump.Enabled(cap, job.exec, es)
    ensures Begins(job.(exec := ExecPump.Apply(cap, job.exec, es)), open)
    ensures ExecPump.Apply(cap, job.exec, es).rx == job.exec.rx
  {
    ExecPump.StepInv(cap, job.exec, es, Data(open, ExecPump.StdOut), Data(open, ExecPump.StdErr));
  }

  /** The exec future moves on without a frame. */
  lemma MoveOnReplies(s: Server, e: ExecPump.Exec)
    requires RepliesInv(s) && s.HasCurrent() && (e == s.Current().exec.(pump := e.pump)) && ExecPump.PumpInv(e)
    ensures RepliesInv(SetExec(s, e))
  {
    var sp := SplitGroups(Responses(s.out));
    OpenJobMatches(s, sp, s.Current().(exec := e));
  }

  lemma DeniedReplies(s: Server, s': Server, shell: string, pattern: string)
    requires RepliesInv(s) && s.phase == Ready
    requires s' == s.(inp := s'.inp, jobs := s.jobs + [Denied(shell, pattern)]).Send(PolicyDenied(pattern))
    ensures RepliesInv(s')
  {
    ReplySnoc(s.out, PolicyDenied(pattern));
    var g := [PolicyDenied(pattern)];
    assert [] + g == g;
    AnsweredSnoc(s.jobs, SplitGroups(Responses(s.out)).groups, Denied(shell, pattern), g);
  }

  lemma SpawnReplies(s: Server, s': Server, shell: string, argv: seq<string>, child: ExecPump.Child)
    requires RepliesInv(s) && s.phase == Ready
    requires s' == s.(inp := s'.inp, phase := Running, jobs := s.jobs + [Process(shell, argv, ExecPump.Spawn(child), Open)])
    ensures RepliesInv(s')
  {
    ExecPump.SpawnInv(child);
    assert Begins(s'.Current(), []);
    assert s'.jobs[..|s'.jobs| - 1] == s.jobs;
  }

  lemma FinishReplies(s: Server, s': Server)
    requires RepliesInv(s) && s.phase == Ready
    requires s' == s.(inp := s'.inp, phase := Finished) || s' == s.(inp := s'.inp, phase := Finished).Send(ErrorReply(UnknownMsgType))
    ensures RepliesInv(s')
  {
    ResponsesSnoc(s.out, ErrorReply(UnknownMsgType));
  }

  lemma ReceiveReplies(cfg: Config, s: Server, input: Input, child: Option<ExecPump.Child>)
    requires RepliesInv(s) && s.phase == Ready
    ensures RepliesInv(OnRequest(cfg, s, input, child))
  {
    var s' := OnRequest(cfg, s, input, child);
    if s'.jobs == s.jobs {
      FinishReplies(s, s');
    } else {
      var shell := input.request.body.shell;
      match Policy.CheckShell(cfg.deny, shell)
      case Some(pattern) => DeniedReplies(s, s', shell, pattern);
      case None => SpawnReplies(s, s', shell, cfg.shellArgv + [shell], child.value);
    }
  }

  lemma ReceiveJobs(cfg: Config, s: Server, input: Input, child: Option<ExecPump.Child>)
    requires JobsInv(cfg, s) && s.phase == Ready
    ensures JobsInv(cfg, OnRequest(cfg, s, input, child))
  {
    if input.Got? && input.request.msgType == Frames.EXEC_SHELL && input.request.body.ExecBody? {
      var shell := input.request.body.shell;
      assert input.request == Request(Frames.EXEC_SHELL, ExecBody(shell));
      JobsGrow(cfg, s, OnRequest(cfg, s, input, child), shell);
    }
  }

  lemma JobsGrow(cfg: Config, s: Server, s': Server, shell: string)
    requires JobsInv(cfg, s) && s.phase == Ready
    requires s'.inp == s.inp + [Request(Frames.EXEC_SHELL, ExecBody(shell))]
    requires (s'.jobs == s.jobs && s'.phase == Finished)
          || (|s'.jobs| == |s.jobs| + 1 && s'.jobs[..|s.jobs|] == s.jobs
              && s'.jobs[|s.jobs|].shell == shell && Guarded(cfg, s'.jobs[|s.jobs|]))
    ensures JobsInv(cfg, s')
  {
    assert forall k :: 0 <= k < |s.jobs| ==> Guarded(cfg, s.jobs[k]);
    assert forall k :: 0 <= k < |s.jobs| ==> s'.jobs[k] == s.jobs[k];
  }

  lemma ReceiveGuard(cfg: Config, s: Server, input: Input, child: Option<ExecPump.Child>)
    requires GuardInv(cfg, s) && (s.phase == AwaitAuth || s.phase == Ready)
    ensures GuardInv(cfg, OnInput(cfg, s, input, child))
  {
    if s.phase == Ready {
      ReceiveJobs(cfg, s, input, child);
      ReceiveAccepted(cfg, s, input, child);
    }
  }

  lemma ReceiveAccepted(cfg: Config, s: Server, input: Input, child: Option<ExecPump.Child>)
    requires Accepted(cfg, s) && s.phase == Ready
    ensures var s' := OnRequest(cfg, s, input, child);
      s'.phase !in {Start, AwaitAuth} && Accepted(cfg, s')
  {
  }

  /** Steps that change the state of one process. */
  predicate ChangesJob(s: Server, step: Step) {
    step.Task? || step.PumpChunk? || step.PumpClosed? || step.PumpWait? || step.PumpExit? || step.Timeout? || step.LateTimeout?
    || (step.Abort? && s.HasCurrent())
  }

  lemma GuardStep(cfg: Config, s: Server, step: Step)
    requires GuardInv(cfg, s) && Enabled(cfg, s, step)
    ensures GuardInv(cfg, Apply(cfg, s, step))
  {
    if step.Receive? {
      ReceiveGuard(cfg, s, step.input, step.child);
    } else if ChangesJob(s, step) {
      JobReplaced(cfg, s, Apply(cfg, s, step), if step.Task? then step.job else |s.jobs| - 1);
    }
  }

  lemma RepliesStep(cfg: Config, s: Server, step: Step)
    requires RepliesInv(s) && s.phase !in {Start, AwaitAuth} && Enabled(cfg, s, step)
    ensures RepliesInv(Apply(cfg, s, step))
  {
    match step
    case Receive(input, child) => ReceiveReplies(cfg, s, input, child);
    case Task(i, es) => RunTaskReplies(cfg, s, i, es);
    case PumpChunk => TakeChunkReplies(s);
    case PumpClosed => MoveOnReplies(s, ExecPump.CloseQueue(s.Current().exec));
    case PumpWait => WaitReplies(s);
    case PumpExit => EndExecReplies(s, Completed, ExitCode(s.Current().exec.child.status), Flushing);
    case Timeout => EndExecReplies(s, TimedOut, TIMEOUT_CODE, Ready);
    case LateTimeout => LateReplies(s);
    case Abort =>
      if s.HasCurrent() {
        DropExecReplies(s);
      }
    case _ =>
  }

  lemma LateReplies(s: Server)
    requires RepliesInv(s) && s.HasEnded()
    ensures RepliesInv(LateExit(s))
  {
    ReplySnoc(s.out, ExecExit(TIMEOUT_CODE));
    assert SplitGroups(Responses(s.out)).open + LATE_GROUP == LATE_GROUP;
    LateMatches(s, SplitGroups(Responses(s.out)));
  }

  lemma LateMatches(s: Server, sp: Split)
    requires Matches(s, sp) && s.HasEnded()
    ensures Matches(LateExit(s), Split(sp.groups + [LATE_GROUP], []))
  {
    AnsweredLate(s.jobs, sp.groups);
  }

  lemma WaitReplies(s: Server)
    requires RepliesInv(s) && s.HasCurrent() && s.Current().exec.pump == ExecPump.Waiting && s.Current().exec.exited
    ensures RepliesInv(SetExec(s, ExecPump.Reap(s.Current().exec)))
  {
    MoveOnReplies(s, ExecPump.Reap(s.Current().exec));
  }

  /** A session that has just been accepted has no response to account for. */
  lemma AcceptedReplies(cfg: Config, s: Server, input: Input)
    requires EarlyInv(cfg, s) && s.phase == AwaitAuth && OnAuth(cfg, s, input).auth.Some?
    ensures RepliesInv(OnAuth(cfg, s, input))
  {
    assert Responses(OnAuth(cfg, s, input).out) == [];
  }

  lemma StepInv(cfg: Config, s: Server, step: Step)
    requires Inv(cfg, s) && Enabled(cfg, s, step)
    ensures Inv(cfg, Apply(cfg, s, step))
  {
    GuardStep(cfg, s, step);
    if s.auth.Some? {
      RepliesStep(cfg, s, step);
    } else if step.Receive? && s.phase == AwaitAuth && OnAuth(cfg, s, step.input).auth.Some? {
      AcceptedReplies(cfg, s, step.input);
    }
  }

  lemma {:induction false} RunsInv(cfg: Config, s: Server, steps: seq<Step>, s': Server)
    requires Inv(cfg, s) && Runs(cfg, s, steps, s')
    ensures Inv(cfg, s')
    decreases |steps|
  {
    if steps != [] {
      StepInv(cfg, s, steps[0]);
      RunsInv(cfg, Apply(cfg, s, steps[0]), steps[1..], s');
    }
  }
}
