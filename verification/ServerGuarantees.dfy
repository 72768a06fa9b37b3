/** What every run of the server guarantees, for every sequence of inbound frames,
    every child, every interleaving of the tasks it leaves behind, and a timer that may
    fire at any await, behind an exit frame as well. */
module ServerGuarantees {
  import opened Common
  import opened Identity
  import opened ServerSession
  import ExecPump
  import Frames
  import Policy

  ghost predicate Reachable(cfg: Config, steps: seq<Step>, s: Server) {
    Runs(cfg, INIT, steps, s)
  }

  lemma ReachableInv(cfg: Config, steps: seq<Step>, s: Server)
    requires Reachable(cfg, steps, s)
    ensures Inv(cfg, s)
  {
    RunsInv(cfg, INIT, steps, s);
  }

  function Groups(s: Server): seq<seq<Reply>> {
    SplitGroups(Responses(s.out)).groups
  }

  function Unfinished(s: Server): seq<Reply> {
    SplitGroups(Responses(s.out)).open
  }

  // ----------------------------------------------------------------- grammar

  /** One response: a denial, or stream frames ended by one exit frame. */
  predicate IsGroup(g: seq<Reply>) {
    g != [] &&
    (var last := g[|g| - 1];
     (last.PolicyDenied? && |g| == 1) || (last.ExecExit? && AllOutput(g[..|g| - 1])))
  }

  predicate AllGroups(groups: seq<seq<Reply>>) {
    forall g <- groups :: IsGroup(g)
  }

  ghost predicate Composes(w: seq<Reply>, groups: seq<seq<Reply>>, tail: seq<Reply>) {
    && w == Flatten(groups) + tail
    && AllGroups(groups)
    && (tail == [] || (|tail| == 1 && tail[0].ErrorReply?))
  }

  /** The output of a whole session. */
  ghost predicate IsWord(w: seq<Reply>) {
    && |w| >= 2 && w[0].Challenge?
    && ((|w| == 2 && (w[1].ErrorReply? || w[1].AuthFailed?))
        || (w[1].AuthOk? && exists groups, tail :: Composes(w[2..], groups, tail)))
  }

  lemma {:induction false} SplitFlattens(ms: seq<Reply>)
    ensures var sp := SplitGroups(ms); ms == Flatten(sp.groups) + sp.open
  {
    if ms != [] {
      var m := ms[|ms| - 1];
      var before := SplitGroups(ms[..|ms| - 1]);
      SplitFlattens(ms[..|ms| - 1]);
      assert ms == ms[..|ms| - 1] + [m];
      Assoc(Flatten(before.groups), before.open, [m]);
      if IsTerminal(m) {
        FlattenSnoc(before.groups, before.open + [m]);
      }
    }
  }

  /** At every moment of every run the frames written are the beginning of a word of the
      grammar. */
  lemma OutputGrammar(cfg: Config, steps: seq<Step>, s: Server)
    requires Reachable(cfg, steps, s)
    ensures exists more :: IsWord(s.out + more)
  {
    ReachableInv(cfg, steps, s);
    var error := ErrorReply(ExpectedAuthResponse);
    if s.auth.Some? {
      LoopWord(s);
    } else if |s.out| == 2 {
      assert s.out + [] == s.out;
      assert IsWord(s.out + []);
    } else if |s.out| == 1 {
      assert IsWord(s.out + [error]);
    } else {
      assert IsWord(s.out + [Challenge([], []), error]);
    }
  }

  lemma LoopWord(s: Server)
    requires RepliesInv(s)
    ensures exists more :: IsWord(s.out + more)
  {
    var rs := Responses(s.out);
    SplitFlattens(rs);
    GroupsWellFormed(s);
    if Unfinished(s) != [] {
      assert s.out[2..] == rs;
      OpenWord(s.out, Groups(s), Unfinished(s));
    } else {
      ResponsesTail(s.out);
      assert rs == Flatten(Groups(s)) by {
        assert Flatten(Groups(s)) + [] == Flatten(Groups(s));
      }
      ClosedWord(s.out, Groups(s), ErrorTail(s.out));
    }
  }

  /** The closing error frame, if there is one. */
  function ErrorTail(out: seq<Reply>): seq<Reply> {
    if |out| > 2 && out[|out| - 1].ErrorReply? then [out[|out| - 1]] else []
  }

  lemma ResponsesTail(out: seq<Reply>)
    requires |out| >= 2
    ensures out[2..] == Responses(out) + ErrorTail(out)
  {
  }

  lemma ClosedWord(out: seq<Reply>, groups: seq<seq<Reply>>, tail: seq<Reply>)
    requires |out| >= 2 && out[0].Challenge? && out[1].AuthOk? && Composes(out[2..], groups, tail)
    ensures exists more :: IsWord(out + more)
  {
    assert out + [] == out;
    assert IsWord(out + []);
  }

  lemma GroupsWellFormed(s: Server)
    requires RepliesInv(s)
    ensures AllGroups(Groups(s)) && AllOutput(Unfinished(s))
  {
    var sp := SplitGroups(Responses(s.out));
    AnsweredGroups(if Settled(s.jobs, sp) then s.jobs else s.jobs[..|s.jobs| - 1], sp.groups);
  }

  /** The response to the last job and the responses before it. */
  lemma AnsweredLast(jobs: seq<Job>, groups: seq<seq<Reply>>) returns (rest: seq<seq<Reply>>, g: seq<Reply>)
    requires Answered(jobs, groups) && jobs != []
    ensures var last := jobs[|jobs| - 1];
      && groups == rest + [g] + (if IsLate(last) then [LATE_GROUP] else [])
      && Answers(last, g) && Answered(jobs[..|jobs| - 1], rest)
  {
    var k := if IsLate(jobs[|jobs| - 1]) then |groups| - 2 else |groups| - 1;
    rest, g := groups[..k], groups[k];
  }

  lemma {:induction false} AnsweredGroups(jobs: seq<Job>, groups: seq<seq<Reply>>)
    requires Answered(jobs, groups)
    ensures AllGroups(groups)
    decreases |jobs|
  {
    if jobs != [] {
      var rest, g := AnsweredLast(jobs, groups);
      AnsweredGroups(jobs[..|jobs| - 1], rest);
      AnswerIsGroup(jobs[|jobs| - 1], g);
    }
  }

  lemma AnswerIsGroup(job: Job, g: seq<Reply>)
    requires Answers(job, g)
    ensures IsGroup(g)
  {
  }

  /** An open response becomes a whole word with one more frame. */
  lemma OpenWord(out: seq<Reply>, groups: seq<seq<Reply>>, open: seq<Reply>)
    requires |out| >= 2 && out[0].Challenge? && out[1].AuthOk? && out[2..] == Flatten(groups) + open
    requires AllGroups(groups) && AllOutput(open)
    ensures exists more :: IsWord(out + more)
  {
    var g := open + [ExecExit(0)];
    assert g[..|g| - 1] == open && IsGroup(g);
    FlattenSnoc(groups, g);
    Assoc(Flatten(groups), open, [ExecExit(0)]);
    assert (out + [ExecExit(0)])[2..] == Flatten(groups + [g]) + [];
    assert Composes((out + [ExecExit(0)])[2..], groups + [g], []);
    assert IsWord(out + [ExecExit(0)]);
  }

  /** A session that has reported a failed authentication or an error writes no more. */
  lemma NothingAfterFailure(cfg: Config, steps: seq<Step>, s: Server, more: seq<Step>, s': Server)
    requires Reachable(cfg, steps, s) && s.out != []
    requires s.out[|s.out| - 1].AuthFailed? || s.out[|s.out| - 1].ErrorReply?
    requires Runs(cfg, s, more, s')
    ensures s'.out == s.out
  {
    ReachableInv(cfg, steps, s);
    if s.auth.Some? && s.out[|s.out| - 1].AuthFailed? {
      LastReply(s);
    }
    FinishedSilent(cfg, s, more, s');
  }

  /** Nothing but answers and stream frames is ever written inside the loop. */
  lemma LastReply(s: Server)
    requires RepliesInv(s)
    ensures !s.out[|s.out| - 1].AuthFailed?
  {
    if |s.out| > 2 && !s.out[|s.out| - 1].ErrorReply? {
      assert AllOutput(Unfinished(s)) by { GroupsWellFormed(s); }
      LastOf(Responses(s.out));
    }
  }

  lemma LastOf(ms: seq<Reply>)
    requires ms != [] && AllOutput(SplitGroups(ms).open)
    ensures IsTerminal(ms[|ms| - 1]) || IsOutput(ms[|ms| - 1])
  {
    var m := ms[|ms| - 1];
    if !IsTerminal(m) {
      assert m in SplitGroups(ms).open;
    }
  }

  lemma {:induction false} FinishedSilent(cfg: Config, s: Server, steps: seq<Step>, s': Server)
    requires s.phase == Finished && Runs(cfg, s, steps, s')
    ensures s'.phase == Finished && s'.out == s.out && s'.inp == s.inp
    decreases |steps|
  {
    if steps != [] {
      FinishedSilent(cfg, Apply(cfg, s, steps[0]), steps[1..], s');
    }
  }

  // ----------------------------------------------------------------- pairing

  /** How many of these jobs the timer has hit behind their exit frame. */
  function LateJobs(jobs: seq<Job>): nat {
    if jobs == [] then 0 else LateJobs(jobs[..|jobs| - 1]) + if IsLate(jobs[|jobs| - 1]) then 1 else 0
  }

  /** Where the response to request `k` stands: each late job before it has taken one
      more place than its own. */
  function Place(jobs: seq<Job>, k: nat): nat
    requires k <= |jobs|
  {
    k + LateJobs(jobs[..k])
  }

  ghost predicate PrefixOfScript(child: ExecPump.Child, g: seq<Reply>, st: ExecPump.Stream) {
    Data(g, st) <= ExecPump.Project(child.script, st)
  }

  predicate Closed(job: Job) {
    job.Denied? || job.end in {Completed, TimedOut, Late}
  }

  /** How many requests have their answer: all but possibly the last. */
  function Ended(jobs: seq<Job>): nat {
    if jobs != [] && !Closed(jobs[|jobs| - 1]) then |jobs| - 1 else |jobs|
  }

  /** `g` answers a request to run `shell`. */
  ghost predicate Responds(cfg: Config, shell: string, job: Job, g: seq<Reply>) {
    match Policy.CheckShell(cfg.deny, shell)
    case Some(pattern) => job == Denied(shell, pattern) && g == [PolicyDenied(pattern)]
    case None =>
      && job.Process? && job.shell == shell && job.argv == cfg.shellArgv + [shell]
      && IsGroup(g)
      && PrefixOfScript(job.exec.child, g, ExecPump.StdOut) && PrefixOfScript(job.exec.child, g, ExecPump.StdErr)
      && (job.end == TimedOut || job.end == Completed || job.end == Late)
      && if job.end == TimedOut then g[|g| - 1] == ExecExit(124)
         else
           && g[|g| - 1] == ExecExit(ExitCode(job.exec.child.status))
           && !job.exec.out.reading && !job.exec.err.reading && job.exec.exited
           && Whole(job.exec, g, ExecPump.StdOut) && Whole(job.exec, g, ExecPump.StdErr)
  }

  /** The response to request `k` stands in its place, and behind it, if the timer fired
      there, one exit frame more. */
  ghost predicate RespondedAt(cfg: Config, s: Server, k: nat)
    requires k < |s.jobs|
  {
    var p := Place(s.jobs, k);
    && |s.inp| > k + 1 && s.inp[k + 1] == Request(Frames.EXEC_SHELL, ExecBody(s.jobs[k].shell))
    && p < |Groups(s)| && Responds(cfg, s.jobs[k].shell, s.jobs[k], Groups(s)[p])
    && (IsLate(s.jobs[k]) ==> p + 1 < |Groups(s)| && Groups(s)[p + 1] == [ExecExit(124)])
  }

  /** What stands in the place of a job and behind it. */
  ghost predicate AnsweredIn(job: Job, groups: seq<seq<Reply>>, p: nat) {
    && p < |groups| && Answers(job, groups[p])
    && (IsLate(job) ==> p + 1 < |groups| && groups[p + 1] == LATE_GROUP)
  }

  lemma EarlierIn(job: Job, rest: seq<seq<Reply>>, g: seq<Reply>, tail: seq<seq<Reply>>, p: nat)
    requires AnsweredIn(job, rest, p)
    ensures AnsweredIn(job, rest + [g] + tail, p)
  {
  }

  lemma {:induction false} AnsweredAt(jobs: seq<Job>, groups: seq<seq<Reply>>, k: nat)
    requires Answered(jobs, groups) && k < |jobs|
    ensures AnsweredIn(jobs[k], groups, Place(jobs, k))
    decreases |jobs|
  {
    var before := jobs[..|jobs| - 1];
    var rest, g := AnsweredLast(jobs, groups);
    if k < |before| {
      AnsweredAt(before, rest, k);
      assert before[..k] == jobs[..k] && before[k] == jobs[k];
      EarlierIn(jobs[k], rest, g, if IsLate(jobs[|jobs| - 1]) then [LATE_GROUP] else [], Place(jobs, k));
    } else {
      assert |rest| == Place(jobs, k) by { AnsweredCount(before, rest); }
      LastIn(jobs[k], rest, g);
    }
  }

  lemma LastIn(job: Job, rest: seq<seq<Reply>>, g: seq<Reply>)
    requires Answers(job, g)
    ensures AnsweredIn(job, rest + [g] + (if IsLate(job) then [LATE_GROUP] else []), |rest|)
  {
  }

  lemma {:induction false} AnsweredCount(jobs: seq<Job>, groups: seq<seq<Reply>>)
    requires Answered(jobs, groups)
    ensures |groups| == |jobs| + LateJobs(jobs)
    decreases |jobs|
  {
    if jobs != [] {
      var rest, g := AnsweredLast(jobs, groups);
      AnsweredCount(jobs[..|jobs| - 1], rest);
    }
  }

  /** In every run, late timeouts and detached tasks included: each answered request has
      its response in its place, carrying that process's own output and nothing else,
      whole if the process ended by itself; no other response exists but the second exit
      frames; and what is not finished is the beginning of a response to the last
      request read. */
  lemma ResponsePairing(cfg: Config, steps: seq<Step>, s: Server)
    requires Reachable(cfg, steps, s) && s.auth.Some?
    ensures var n := Ended(s.jobs);
      && n <= |s.jobs| < |s.inp|
      && (forall k :: 0 <= k < n ==> RespondedAt(cfg, s, k))
      && |Groups(s)| == n + LateJobs(s.jobs)
      && (s.phase == Ready || s.phase == Flushing ==> n == |s.jobs| == |s.inp| - 1 && Unfinished(s) == [])
      && (n == |s.jobs| ==> Unfinished(s) == [])
      && (n < |s.jobs| ==>
            && s.inp[|s.jobs|] == Request(Frames.EXEC_SHELL, ExecBody(s.jobs[n].shell))
            && AllOutput(Unfinished(s)) && s.jobs[n].Process?
            && PrefixOfScript(s.jobs[n].exec.child, Unfinished(s), ExecPump.StdOut)
            && PrefixOfScript(s.jobs[n].exec.child, Unfinished(s), ExecPump.StdErr))
  {
    ReachableInv(cfg, steps, s);
    var n := AnsweredFirst(s);
    forall k | 0 <= k < n ensures RespondedAt(cfg, s, k) {
      RespondedFirst(cfg, s, n, k);
    }
    if n < |s.jobs| {
      BeginsPrefix(s.jobs[n], Unfinished(s));
    }
  }

  /** The jobs that have their answer. */
  lemma AnsweredFirst(s: Server) returns (n: nat)
    requires RepliesInv(s)
    ensures n == Ended(s.jobs) <= |s.jobs| && Answered(s.jobs[..n], Groups(s))
    ensures |Groups(s)| == n + LateJobs(s.jobs)
    ensures if n == |s.jobs| then Unfinished(s) == [] else n == |s.jobs| - 1 && Begins(s.jobs[n], Unfinished(s))
    ensures s.phase == Ready || s.phase == Flushing ==> n == |s.jobs|
  {
    var sp := SplitGroups(Responses(s.out));
    if Settled(s.jobs, sp) {
      SettledFirst(s.jobs, sp);
      n := |s.jobs|;
    } else {
      PendingFirst(s.jobs, sp);
      n := |s.jobs| - 1;
    }
  }

  lemma SettledFirst(jobs: seq<Job>, sp: Split)
    requires Settled(jobs, sp)
    ensures Ended(jobs) == |jobs| && jobs[..|jobs|] == jobs && |sp.groups| == |jobs| + LateJobs(jobs)
  {
    AnsweredCount(jobs, sp.groups);
    if jobs != [] {
      LastClosed(jobs, sp.groups);
    }
  }

  lemma PendingFirst(jobs: seq<Job>, sp: Split)
    requires Pending(jobs, sp)
    ensures Ended(jobs) == |jobs| - 1 && |sp.groups| == |jobs| - 1 + LateJobs(jobs)
  {
    AnsweredCount(jobs[..|jobs| - 1], sp.groups);
  }

  lemma LastClosed(jobs: seq<Job>, groups: seq<seq<Reply>>)
    requires Answered(jobs, groups) && jobs != []
    ensures Closed(jobs[|jobs| - 1])
  {
  }

  lemma RespondedFirst(cfg: Config, s: Server, n: nat, k: nat)
    requires JobsInv(cfg, s) && n <= |s.jobs| && Answered(s.jobs[..n], Groups(s)) && k < n
    ensures RespondedAt(cfg, s, k)
  {
    assert Guarded(cfg, s.jobs[k]) by { assert s.jobs[k] in s.jobs; }
    FirstAt(s.jobs, n, Groups(s), k);
    RespondsIn(cfg, s.jobs[k], Groups(s), Place(s.jobs, k));
  }

  lemma FirstAt(jobs: seq<Job>, n: nat, groups: seq<seq<Reply>>, k: nat)
    requires k < n <= |jobs| && Answered(jobs[..n], groups)
    ensures AnsweredIn(jobs[k], groups, Place(jobs, k))
  {
    AnsweredAt(jobs[..n], groups, k);
    assert jobs[..n][..k] == jobs[..k] && jobs[..n][k] == jobs[k];
  }

  lemma RespondsIn(cfg: Config, job: Job, groups: seq<seq<Reply>>, p: nat)
    requires Guarded(cfg, job) && AnsweredIn(job, groups, p)
    ensures p < |groups| && Responds(cfg, job.shell, job, groups[p])
    ensures IsLate(job) ==> p + 1 < |groups| && groups[p + 1] == [ExecExit(124)]
  {
    AnswersResponds(cfg, job, groups[p]);
  }

  lemma AnswersResponds(cfg: Config, job: Job, g: seq<Reply>)
    requires Guarded(cfg, job) && Answers(job, g)
    ensures Responds(cfg, job.shell, job, g)
  {
  }

  lemma BeginsPrefix(job: Job, open: seq<Reply>)
    requires Begins(job, open)
    ensures AllOutput(open)
    ensures PrefixOfScript(job.exec.child, open, ExecPump.StdOut) && PrefixOfScript(job.exec.child, open, ExecPump.StdErr)
  {
  }

  /** How often the timer fired behind an exit frame. */
  function Lates(steps: seq<Step>): nat {
    if steps == [] then 0 else (if steps[0].LateTimeout? then 1 else 0) + Lates(steps[1..])
  }

  lemma LateSnoc(jobs: seq<Job>, job: Job)
    ensures LateJobs(jobs + [job]) == LateJobs(jobs) + if IsLate(job) then 1 else 0
  {
    assert (jobs + [job])[..|jobs|] == jobs;
  }

  /** Only its lateness matters when a job is replaced. */
  lemma {:induction false} LateReplace(jobs: seq<Job>, i: nat, job: Job)
    requires i < |jobs|
    ensures LateJobs(jobs[i := job]) + (if IsLate(jobs[i]) then 1 else 0) == LateJobs(jobs) + (if IsLate(job) then 1 else 0)
    decreases |jobs|
  {
    var before, jobs' := jobs[..|jobs| - 1], jobs[i := job];
    if i == |jobs| - 1 {
      assert jobs'[..|jobs| - 1] == before;
    } else {
      assert jobs'[..|jobs| - 1] == before[i := job];
      LateReplace(before, i, job);
    }
  }

  lemma LateStep(cfg: Config, s: Server, step: Step)
    requires Inv(cfg, s) && Enabled(cfg, s, step)
    ensures LateJobs(Apply(cfg, s, step).jobs) == LateJobs(s.jobs) + if step.LateTimeout? then 1 else 0
  {
    assert s.HasCurrent() ==> s.Current().end == Open;
    assert s.HasEnded() ==> s.jobs[|s.jobs| - 1].end == Completed;
    LateJobsStep(cfg, s, step);
  }

  lemma LateJobsStep(cfg: Config, s: Server, step: Step)
    requires Enabled(cfg, s, step)
    requires s.HasCurrent() ==> s.Current().end == Open
    requires s.HasEnded() ==> s.jobs[|s.jobs| - 1].end == Completed
    ensures LateJobs(Apply(cfg, s, step).jobs) == LateJobs(s.jobs) + if step.LateTimeout? then 1 else 0
  {
    var jobs' := Apply(cfg, s, step).jobs;
    if ChangesJob(s, step) {
      var i := if step.Task? then step.job else |s.jobs| - 1;
      assert jobs' == s.jobs[i := jobs'[i]];
      LateReplace(s.jobs, i, jobs'[i]);
    } else if jobs' != s.jobs {
      var job := jobs'[|s.jobs|];
      assert jobs' == s.jobs + [job];
      LateSnoc(s.jobs, job);
    }
  }

  /** Every late timeout of a run is behind one job, and no job has two. */
  lemma {:induction false} LateRuns(cfg: Config, s: Server, steps: seq<Step>, s': Server)
    requires Inv(cfg, s) && Runs(cfg, s, steps, s')
    ensures LateJobs(s'.jobs) == LateJobs(s.jobs) + Lates(steps)
    decreases |steps|
  {
    if steps != [] {
      LateStep(cfg, s, steps[0]);
      StepInv(cfg, s, steps[0]);
      LateRuns(cfg, Apply(cfg, s, steps[0]), steps[1..], s');
    }
  }

  /** In every run the complete responses number the answered requests plus the late
      timeouts. */
  lemma ResponseCount(cfg: Config, steps: seq<Step>, s: Server)
    requires Reachable(cfg, steps, s) && s.auth.Some?
    ensures |Groups(s)| == Ended(s.jobs) + Lates(steps)
  {
    ReachableInv(cfg, steps, s);
    var n := AnsweredFirst(s);
    LateRuns(cfg, INIT, steps, s);
  }

  /** A process that the timer cut off keeps running tasks; whatever they do, the
      replies already written and to come are the same. */
  lemma DetachedTasksSilent(cfg: Config, steps: seq<Step>, s: Server, i: nat, es: ExecPump.Step)
    requires Reachable(cfg, steps, s) && Enabled(cfg, s, Task(i, es)) && s.jobs[i].end != Open
    ensures var s' := Apply(cfg, s, Task(i, es));
      && s'.out == s.out && s'.inp == s.inp && s'.phase == s.phase
      && (s.HasCurrent() ==> s'.HasCurrent() && s'.Current() == s.Current())
      && s'.jobs[i].exec.chan == s.jobs[i].exec.chan == []
  {
    assert s.HasCurrent() ==> s.Current().end == Open by {
      ReachableInv(cfg, steps, s);
    }
    JobsSound(cfg, steps, s, i);
  }

  /** What every process keeps to, current, complete or abandoned. */
  predicate Sound(job: Job) {
    job.Process? ==>
      && ExecPump.PumpInv(job.exec)
      && (job.end != Open ==> !job.exec.rx && job.exec.chan == [])
      && (job.end == Completed || job.end == Late ==> ExecPump.NoSenders(job.exec) && job.exec.exited)
  }

  predicate AllSound(s: Server) {
    && (forall job <- s.jobs :: Sound(job))
    && (s.HasEnded() ==> s.jobs[|s.jobs| - 1].end == Completed)
  }

  lemma JobsSound(cfg: Config, steps: seq<Step>, s: Server, k: nat)
    requires Reachable(cfg, steps, s) && k < |s.jobs|
    ensures Sound(s.jobs[k])
  {
    SoundRuns(cfg, INIT, steps, s);
    assert s.jobs[k] in s.jobs;
  }

  lemma SoundStep(cfg: Config, s: Server, step: Step, k: nat)
    requires AllSound(s) && Enabled(cfg, s, step) && k < |Apply(cfg, s, step).jobs|
    ensures Sound(Apply(cfg, s, step).jobs[k])
  {
    if k < |s.jobs| {
      assert s.jobs[k] in s.jobs;
      if step.Task? && step.job == k {
        ExecPump.PumpStable(cfg.pipeCap, s.jobs[k].exec, step.step);
      }
    }
  }

  lemma {:induction false} SoundRuns(cfg: Config, s: Server, steps: seq<Step>, s': Server)
    requires Runs(cfg, s, steps, s') && AllSound(s)
    ensures AllSound(s')
    decreases |steps|
  {
    if steps != [] {
      var t := Apply(cfg, s, steps[0]);
      forall k | 0 <= k < |t.jobs| ensures Sound(t.jobs[k]) {
        SoundStep(cfg, s, steps[0], k);
      }
      SoundRuns(cfg, t, steps[1..], s');
    }
  }

  // ------------------------------------------------------------------- guard

  /** Every process that exists was asked for by a client that had authenticated with
      a listed key, runs exactly the configured argv and the requested line, and that
      line contains none of the deny patterns. */
  lemma ExecutionGuard(cfg: Config, steps: seq<Step>, s: Server, k: nat)
    requires Reachable(cfg, steps, s) && k < |s.jobs| && s.jobs[k].Process?
    ensures s.auth.Some? && cfg.keys.Some? && s.auth.value in cfg.keys.value
    ensures Accepted(cfg, s)
    ensures |s.inp| > k + 1 && s.inp[k + 1] == Request(Frames.EXEC_SHELL, ExecBody(s.jobs[k].shell))
    ensures s.jobs[k].argv == cfg.shellArgv + [s.jobs[k].shell] && |s.jobs[k].argv| >= 3
    ensures forall pat <- cfg.deny :: !Policy.Occurs(s.jobs[k].shell, pat)
  {
    ReachableInv(cfg, steps, s);
    assert s.jobs[k] in s.jobs;
    Policy.CheckShellIff(cfg.deny, s.jobs[k].shell);
    var b := s.inp[0].body;
    AuthenticateIff(cfg.crypto, cfg.Table(), s.nonce, s.sessionId, b.keyType, b.fingerprint, b.signature, s.auth.value);
  }

  // ----------------------------------------------------------------- timeout

  /** An exit frame is written by the timer, with code 124, or at the end of the exec,
      with the child's code; and by nothing else. In the second case both readers have
      dropped their senders, the channel is empty and the child is reaped: what the
      pump saw at its awaits still holds when it writes. */
  lemma ExitFrameCause(cfg: Config, steps: seq<Step>, s: Server, step: Step, code: int)
    requires Reachable(cfg, steps, s) && Enabled(cfg, s, step)
    ensures Apply(cfg, s, step).out == s.out + [ExecExit(code)] <==>
      || ((step.Timeout? || step.LateTimeout?) && code == 124)
      || (step.PumpExit? && code == ExitCode(s.Current().exec.child.status))
    ensures step.PumpExit? ==> var e := s.Current().exec;
      !e.out.reading && !e.err.reading && e.chan == [] && e.exited
  {
    var s' := Apply(cfg, s, step);
    assert s'.out == s.out || s'.out == s.out + [s'.out[|s.out|]];
    if step.PumpExit? {
      JobsSound(cfg, steps, s, |s.jobs| - 1);
    }
  }

  /** A process that ended by itself, in any run and at any later moment: its readers
      are gone, nothing of its output was left behind, and it was reaped. */
  lemma CompletedDrained(cfg: Config, steps: seq<Step>, s: Server, k: nat)
    requires Reachable(cfg, steps, s) && k < |s.jobs| && s.jobs[k].Process? && s.jobs[k].end in {Completed, Late}
    ensures var e := s.jobs[k].exec; !e.out.reading && !e.err.reading && e.chan == [] && e.exited
  {
    JobsSound(cfg, steps, s, k);
  }

  /** And its response, in its place, holds the whole of every stream that did not fail. */
  lemma CompletedWhole(cfg: Config, steps: seq<Step>, s: Server, k: nat)
    requires Reachable(cfg, steps, s)
    requires k < |s.jobs| && s.jobs[k].Process? && s.jobs[k].end in {Completed, Late}
    ensures var p := Place(s.jobs, k);
      && p < |Groups(s)|
      && Whole(s.jobs[k].exec, Groups(s)[p], ExecPump.StdOut) && Whole(s.jobs[k].exec, Groups(s)[p], ExecPump.StdErr)
  {
    assert s.auth.Some? by { ReachableInv(cfg, steps, s); }
    ResponsePairing(cfg, steps, s);
    assert k < Ended(s.jobs) && RespondedAt(cfg, s, k);
  }

  /** The timer closes the current response where it stands. */
  lemma TimeoutClosesGroup(cfg: Config, steps: seq<Step>, s: Server)
    requires Reachable(cfg, steps, s) && Enabled(cfg, s, Timeout)
    ensures var s' := Apply(cfg, s, Timeout);
      && s'.phase == Ready
      && SplitGroups(Responses(s'.out)) == Split(Groups(s) + [Unfinished(s) + [ExecExit(124)]], [])
      && AllOutput(Unfinished(s))
      && PrefixOfScript(s.Current().exec.child, Unfinished(s), ExecPump.StdOut)
      && PrefixOfScript(s.Current().exec.child, Unfinished(s), ExecPump.StdErr)
  {
    ReachableInv(cfg, steps, s);
    ReplySnoc(s.out, ExecExit(124));
    BeginsPrefix(s.Current(), Unfinished(s));
  }
}
