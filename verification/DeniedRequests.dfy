/** A denied request leaves no trace but its one denial: whatever the session does
    after it, it does without it, and the other way round. */
module DeniedRequests {
  import opened Common
  import opened ServerSession
  import opened ServerGuarantees
  import ExecPump
  import Frames
  import Policy

  /** Where in the logs of a session the denied request stands. */
  datatype Spot = Spot(inp: nat, out: nat, job: nat, shell: string, pattern: string)

  function Insert<T>(s: seq<T>, i: nat, x: T): seq<T>
    requires i <= |s|
  {
    s[..i] + [x] + s[i..]
  }

  /** The place lies within the session's past. */
  predicate Past(p: Spot, t: Server) {
    && p.inp <= |t.inp| && p.out <= |t.out| && p.job <= |t.jobs|
    && (t.phase == Running || t.phase == Flushing ==> p.job < |t.jobs|)
    && t.phase !in {Start, AwaitAuth}
  }

  /** The same session with the request read, denied and remembered at that place. */
  function WithDenial(p: Spot, t: Server): Server
    requires Past(p, t)
  {
    t.(inp := Insert(t.inp, p.inp, Request(Frames.EXEC_SHELL, ExecBody(p.shell))),
       out := Insert(t.out, p.out, PolicyDenied(p.pattern)),
       jobs := Insert(t.jobs, p.job, Denied(p.shell, p.pattern)))
  }

  /** Jobs behind the denied one count one more. */
  function Shift(p: Spot, step: Step): Step {
    if step.Task? && step.job >= p.job then Task(step.job + 1, step.step) else step
  }

  function ShiftAll(p: Spot, steps: seq<Step>): seq<Step> {
    if steps == [] then [] else [Shift(p, steps[0])] + ShiftAll(p, steps[1..])
  }

  function Unshift(p: Spot, step: Step): Step {
    if step.Task? && step.job > p.job then Task(step.job - 1, step.step) else step
  }

  lemma InsertSnoc<T>(s: seq<T>, i: nat, x: T, y: T)
    requires i <= |s|
    ensures Insert(s + [y], i, x) == Insert(s, i, x) + [y]
  {
    assert (s + [y])[..i] == s[..i] && (s + [y])[i..] == s[i..] + [y];
  }

  lemma InsertUpdate<T>(s: seq<T>, i: nat, x: T, k: nat, y: T)
    requires i <= |s| && k < |s|
    ensures var k' := if k < i then k else k + 1;
      Insert(s, i, x)[k'] == s[k] && Insert(s[k := y], i, x) == Insert(s, i, x)[k' := y]
  {
  }

  lemma SameCurrent(p: Spot, t: Server)
    requires Past(p, t)
    ensures WithDenial(p, t).HasCurrent() <==> t.HasCurrent()
    ensures t.HasCurrent() ==> WithDenial(p, t).Current() == t.Current()
    ensures WithDenial(p, t).HasEnded() <==> t.HasEnded()
  {
  }

  lemma TaskBeside(cfg: Config, p: Spot, t: Server, i: nat, es: ExecPump.Step)
    requires Past(p, t)
    ensures Enabled(cfg, WithDenial(p, t), Shift(p, Task(i, es))) <==> Enabled(cfg, t, Task(i, es))
    ensures Enabled(cfg, t, Task(i, es)) ==>
      var t' := Apply(cfg, t, Task(i, es));
      Past(p, t') && Apply(cfg, WithDenial(p, t), Shift(p, Task(i, es))) == WithDenial(p, t')
  {
    if i < |t.jobs| {
      InsertUpdate(t.jobs, p.job, Denied(p.shell, p.pattern), i, t.jobs[i]);
      if Enabled(cfg, t, Task(i, es)) {
        InsertUpdate(t.jobs, p.job, Denied(p.shell, p.pattern), i, RunTask(cfg, t, i, es).jobs[i]);
      }
    }
  }

  lemma ReceiveBeside(cfg: Config, p: Spot, t: Server, input: Input, child: Option<ExecPump.Child>)
    requires Past(p, t) && t.phase == Ready
    ensures var t' := OnRequest(cfg, t, input, child);
      Past(p, t') && OnRequest(cfg, WithDenial(p, t), input, child) == WithDenial(p, t')
  {
    var t' := OnRequest(cfg, t, input, child);
    var r := Request(Frames.EXEC_SHELL, ExecBody(p.shell));
    if input.Got? {
      InsertSnoc(t.inp, p.inp, r, input.request);
    }
    if |t'.out| > |t.out| {
      InsertSnoc(t.out, p.out, PolicyDenied(p.pattern), t'.out[|t.out|]);
    }
    if |t'.jobs| > |t.jobs| {
      InsertSnoc(t.jobs, p.job, Denied(p.shell, p.pattern), t'.jobs[|t.jobs|]);
    }
  }

  /** Steps of the exec future, on the process it runs. */
  lemma CurrentBeside(cfg: Config, p: Spot, t: Server, step: Step)
    requires Past(p, t) && t.HasCurrent() && Enabled(cfg, t, step)
    requires step.PumpChunk? || step.PumpClosed? || step.PumpWait? || step.PumpExit? || step.Timeout? || step.Abort?
    requires Enabled(cfg, WithDenial(p, t), step)
    ensures var t' := Apply(cfg, t, step);
      Past(p, t') && Apply(cfg, WithDenial(p, t), step) == WithDenial(p, t')
  {
    var t' := Apply(cfg, t, step);
    SameCurrent(p, t);
    if |t'.out| > |t.out| {
      InsertSnoc(t.out, p.out, PolicyDenied(p.pattern), t'.out[|t.out|]);
    }
    InsertUpdate(t.jobs, p.job, Denied(p.shell, p.pattern), |t.jobs| - 1, t'.jobs[|t.jobs| - 1]);
  }

  lemma LateBeside(cfg: Config, p: Spot, t: Server)
    requires Past(p, t) && t.HasEnded()
    ensures WithDenial(p, t).HasEnded() && Past(p, LateExit(t))
    ensures LateExit(WithDenial(p, t)) == WithDenial(p, LateExit(t))
  {
    SameCurrent(p, t);
    InsertSnoc(t.out, p.out, PolicyDenied(p.pattern), ExecExit(TIMEOUT_CODE));
    InsertUpdate(t.jobs, p.job, Denied(p.shell, p.pattern), |t.jobs| - 1, LateExit(t).jobs[|t.jobs| - 1]);
  }

  /** The steps of the session itself. */
  lemma ExecBeside(cfg: Config, p: Spot, t: Server, step: Step)
    requires Past(p, t) && !step.Task? && !step.Receive? && !step.ReceiveBroken?
    ensures Enabled(cfg, WithDenial(p, t), step) <==> Enabled(cfg, t, step)
    ensures Enabled(cfg, t, step) ==>
      var t' := Apply(cfg, t, step);
      Past(p, t') && Apply(cfg, WithDenial(p, t), step) == WithDenial(p, t')
  {
    SameCurrent(p, t);
    if Enabled(cfg, t, step) {
      if t.HasCurrent() {
        CurrentBeside(cfg, p, t, step);
      } else if step.LateTimeout? {
        LateBeside(cfg, p, t);
      }
    }
  }

  lemma BrokenBeside(cfg: Config, p: Spot, t: Server, r: Request)
    requires Past(p, t)
    ensures Enabled(cfg, WithDenial(p, t), ReceiveBroken(r)) <==> Enabled(cfg, t, ReceiveBroken(r))
    ensures Enabled(cfg, t, ReceiveBroken(r)) ==>
      var t' := Apply(cfg, t, ReceiveBroken(r));
      Past(p, t') && Apply(cfg, WithDenial(p, t), ReceiveBroken(r)) == WithDenial(p, t')
  {
    if t.phase == Ready {
      ReceiveBeside(cfg, p, t, Got(r), None);
      InsertSnoc(t.inp, p.inp, Request(Frames.EXEC_SHELL, ExecBody(p.shell)), r);
    }
  }

  /** One step with the denial behind it is the same step without. */
  lemma StepBeside(cfg: Config, p: Spot, t: Server, step: Step)
    requires Past(p, t)
    ensures Enabled(cfg, WithDenial(p, t), Shift(p, step)) <==> Enabled(cfg, t, step)
    ensures Enabled(cfg, t, step) ==>
      Past(p, Apply(cfg, t, step))
      && Apply(cfg, WithDenial(p, t), Shift(p, step)) == WithDenial(p, Apply(cfg, t, step))
  {
    match step
    case Task(i, es) => TaskBeside(cfg, p, t, i, es);
    case Receive(input, child) =>
      if t.phase == Ready {
        ReceiveBeside(cfg, p, t, input, child);
      }
    case ReceiveBroken(r) => BrokenBeside(cfg, p, t, r);
    case _ => ExecBeside(cfg, p, t, step);
  }

  lemma {:induction false} RunsBeside(cfg: Config, p: Spot, s: Server, more: seq<Step>, t: Server)
    requires Past(p, s) && Runs(cfg, s, more, t)
    ensures Past(p, t) && Runs(cfg, WithDenial(p, s), ShiftAll(p, more), WithDenial(p, t))
    decreases |more|
  {
    if more != [] {
      StepBeside(cfg, p, s, more[0]);
      RunsBeside(cfg, p, Apply(cfg, s, more[0]), more[1..], t);
      assert ShiftAll(p, more)[1..] == ShiftAll(p, more[1..]);
    }
  }

  lemma {:induction false} RunsWithout(cfg: Config, p: Spot, s: Server, more: seq<Step>, t: Server) returns (less: seq<Step>, u: Server)
    requires Past(p, s) && Runs(cfg, WithDenial(p, s), more, t)
    ensures Runs(cfg, s, less, u) && Past(p, u) && t == WithDenial(p, u) && more == ShiftAll(p, less)
    decreases |more|
  {
    if more == [] {
      less, u := [], s;
    } else {
      var step := Unshift(p, more[0]);
      assert Shift(p, step) == more[0];
      StepBeside(cfg, p, s, step);
      var rest;
      rest, u := RunsWithout(cfg, p, Apply(cfg, s, step), more[1..], t);
      less := [step] + rest;
      assert less[1..] == rest;
    }
  }

  /** A request that holds a deny pattern, at any point of any run: it is answered by one
      denial naming a pattern of the list, and then every continuation is one that the
      session had before, with that denial inserted and nothing else, and every one it
      had before is still open to it. */
  lemma DeniedTransparent(cfg: Config, steps: seq<Step>, s: Server, shell: string, child: Option<ExecPump.Child>)
    requires Reachable(cfg, steps, s) && s.phase == Ready
    requires exists pat :: pat in cfg.deny && Policy.Occurs(shell, pat)
    ensures exists pattern | pattern in cfg.deny :: var p := Spot(|s.inp|, |s.out|, |s.jobs|, shell, pattern);
      var s' := Apply(cfg, s, Receive(Got(Request(Frames.EXEC_SHELL, ExecBody(shell))), child));
      && s' == WithDenial(p, s)
      && (forall more, t :: Runs(cfg, s, more, t) ==> Past(p, t) && Runs(cfg, s', ShiftAll(p, more), WithDenial(p, t)))
      && (forall more, t :: Runs(cfg, s', more, t) ==>
            exists less, u :: Runs(cfg, s, less, u) && Past(p, u) && t == WithDenial(p, u) && more == ShiftAll(p, less))
  {
    Policy.CheckShellIff(cfg.deny, shell);
    var pattern := Policy.CheckShell(cfg.deny, shell).value;
    var p := Spot(|s.inp|, |s.out|, |s.jobs|, shell, pattern);
    var s' := Apply(cfg, s, Receive(Got(Request(Frames.EXEC_SHELL, ExecBody(shell))), child));
    assert s' == WithDenial(p, s);
    forall more, t | Runs(cfg, s, more, t)
      ensures Past(p, t) && Runs(cfg, s', ShiftAll(p, more), WithDenial(p, t))
    {
      RunsBeside(cfg, p, s, more, t);
    }
    forall more, t | Runs(cfg, s', more, t)
      ensures exists less, u :: Runs(cfg, s, less, u) && Past(p, u) && t == WithDenial(p, u) && more == ShiftAll(p, less)
    {
      var less, u := RunsWithout(cfg, p, s, more, t);
    }
  }
}
