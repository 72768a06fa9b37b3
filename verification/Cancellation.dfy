/** What the timer does to a frame it cancels. `tokio::time::timeout` drops the exec
    future at whatever await it is at; inside a frame's bytes the reader loses the
    stream, and behind the exit frame it gets a second one. */
module Cancellation {
  import opened Common
  import opened Frames
  import opened ServerSession
  import opened ServerGuarantees
  import StreamPayload

  // --------------------------------------------------------------- on the wire

  const TIMEOUT_START: string := "{\"exit_code\":124,"
  const TIMEOUT_END: string := "\"signal\":null}"

  lemma TimeoutText()
    ensures forall c <- TIMEOUT_START + TIMEOUT_END :: c as int < 128 && c != 'S'
    ensures |TIMEOUT_START + TIMEOUT_END| == 31
  {
    assert forall c <- TIMEOUT_START :: c as int < 128 && c != 'S';
    assert forall c <- TIMEOUT_END :: c as int < 128 && c != 'S';
  }

  /** The frame written once the timer has fired. */
  function TimeoutFrame(): (f: Frame)
    ensures f.msgType == EXEC_EXIT && Fits(f, 31)
    ensures forall b <- f.payload :: b != 0x53
  {
    TimeoutText();
    var s := TIMEOUT_START + TIMEOUT_END;
    assert forall i :: 0 <= i < |s| ==> s[i] in s;
    Frame(EXEC_EXIT, StreamPayload.Ascii(s))
  }

  /** Its payload, character by character. */
  lemma TimeoutPayload()
    ensures var text, p := "{\"exit_code\":124,\"signal\":null}", TimeoutFrame().payload;
      |p| == |text| && forall i :: 0 <= i < |text| ==> p[i] == text[i] as int
  {
    TimeoutText();
    assert TIMEOUT_START + TIMEOUT_END == "{\"exit_code\":124,\"signal\":null}";
  }

  /** The frames the exec future writes. */
  predicate OfExec(f: Frame) {
    f.msgType in {STREAM_STDOUT, STREAM_STDERR, EXEC_EXIT}
  }

  /** The reader gets one exit frame, the timer's, behind nothing or behind the whole
      stream frame. */
  predicate Intact(f: Frame, got: seq<Frame>) {
    got == [TimeoutFrame()] || (f.msgType != EXEC_EXIT && got == [f, TimeoutFrame()])
  }

  /** The bytes left behind when the write of `f` is cancelled after `n` of them. */
  function AfterCancel(f: Frame, n: nat): seq<byte>
    requires Fits(f, 0xFFFF_FFFF) && n <= |Encode(f)|
  {
    Encode(f)[..n] + Encode(TimeoutFrame())
  }

  /** Cancelling the write of any frame of the exec future, the exit frame included:
      the reader gets what was meant exactly when nothing of the frame has gone out,
      or all of it and it is a stream frame. */
  lemma CancelledWrite(f: Frame, n: nat, fault: bool, max: u32)
    requires OfExec(f) && Fits(f, max) && 31 <= max && n <= |Encode(f)|
    ensures Intact(f, DecodeAll(AfterCancel(f, n), fault, max).frames)
       <==> n == 0 || (n == |Encode(f)| && f.msgType != EXEC_EXIT)
  {
    if n == 0 {
      assert AfterCancel(f, 0) == EncodeAll([TimeoutFrame()]) by { OneFrame(TimeoutFrame()); }
      StreamIsFifo([TimeoutFrame()], fault, max, max);
    } else if n == |Encode(f)| {
      TwoFrames(f, fault, max);
    } else {
      CutInside(f, n, fault, max);
    }
  }

  lemma OneFrame(f: Frame)
    requires Fits(f, 0xFFFF_FFFF)
    ensures AllFit([f], 0xFFFF_FFFF) && EncodeAll([f]) == Encode(f)
  {
    assert [f][1..] == [] && Encode(f) + [] == Encode(f);
  }

  /** A frame written out in full is followed by the timer's. */
  lemma TwoFrames(f: Frame, fault: bool, max: u32)
    requires Fits(f, max) && 31 <= max
    ensures DecodeAll(AfterCancel(f, |Encode(f)|), fault, max).frames == [f, TimeoutFrame()]
  {
    var fs := [f, TimeoutFrame()];
    OneFrame(TimeoutFrame());
    assert fs[1..] == [TimeoutFrame()];
    assert AfterCancel(f, |Encode(f)|) == EncodeAll(fs);
    StreamIsFifo(fs, fault, max, max);
  }

  lemma CutInside(f: Frame, n: nat, fault: bool, max: u32)
    requires Fits(f, max) && 31 <= max && 0 < n < |Encode(f)|
    ensures var got := DecodeAll(AfterCancel(f, n), fault, max).frames;
      got != [TimeoutFrame()] && got != [f, TimeoutFrame()]
  {
    var got := DecodeAll(AfterCancel(f, n), fault, max).frames;
    DecodeAllConsumes(AfterCancel(f, n), fault, max);
    OneFrame(TimeoutFrame());
    assert [f, TimeoutFrame()][1..] == [TimeoutFrame()];
    if got == [TimeoutFrame()] {
      TimeoutNotBorrowed(f, n);
    }
  }

  /** Its first byte comes back nowhere in it, so no part of another frame in front of
      it can stand for its beginning. */
  lemma TimeoutNotBorrowed(f: Frame, n: nat)
    requires Fits(f, 0xFFFF_FFFF) && 0 < n < |Encode(f)|
    ensures !(Encode(TimeoutFrame()) <= AfterCancel(f, n))
  {
    var e := Encode(TimeoutFrame());
    if e <= AfterCancel(f, n) {
      if n < |e| {
        assert e[n] == AfterCancel(f, n)[n] == e[0];
        FirstByteOnce(n);
      } else {
        assert Encode(f) == e + Encode(f)[|e|..];
        EncodePrefixFree(TimeoutFrame(), f, Encode(f)[|e|..]);
      }
    }
  }

  lemma TimeoutHeader()
    ensures var e := Encode(TimeoutFrame()); |e| == 40 && e[..HEADER_LEN] == [0x53, 0x41, 0x4F, 0x01, 0x13, 0, 0, 0, 31]
  {
    var f := TimeoutFrame();
    TimeoutText();
    assert |f.payload| == 31;
    assert HeaderBytes(Header(VERSION, f.msgType, |f.payload|)) == [0x53, 0x41, 0x4F, 0x01, 0x13, 0, 0, 0, 31];
  }

  lemma FirstByteOnce(n: nat)
    requires 0 < n < |Encode(TimeoutFrame())|
    ensures Encode(TimeoutFrame())[0] == 0x53 != Encode(TimeoutFrame())[n]
  {
    var e := Encode(TimeoutFrame());
    TimeoutHeader();
    assert e[0] == e[..HEADER_LEN][0];
    if n >= HEADER_LEN {
      PayloadByte(n);
    } else {
      HeaderByte(e[..HEADER_LEN], n);
      assert e[n] == e[..HEADER_LEN][n];
    }
  }

  lemma PayloadByte(n: nat)
    requires HEADER_LEN <= n < |Encode(TimeoutFrame())|
    ensures Encode(TimeoutFrame())[n] != 0x53
  {
    var f := TimeoutFrame();
    assert Encode(f)[n] == f.payload[n - HEADER_LEN] && f.payload[n - HEADER_LEN] in f.payload;
  }

  lemma HeaderByte(h: seq<byte>, n: nat)
    requires h == [0x53, 0x41, 0x4F, 0x01, 0x13, 0, 0, 0, 31] && 0 < n < HEADER_LEN
    ensures h[n] != 0x53
  {
  }

  // What the reader gets of a frame cut inside, with both ends at the default limit.

  /** The bytes of the frame that never went out. */
  function Missing(f: Frame, n: nat): int
    requires Fits(f, 0xFFFF_FFFF)
  {
    |Encode(f)| - n
  }

  /** A frame cut behind its header takes what it misses from the timer's frame, if that
      is enough, and with it the only exit code; a frame cut inside its header is no
      frame. Then the stream is over. */
  lemma CutReads(f: Frame, n: nat, fault: bool)
    requires Fits(f, DEFAULT_MAX_PAYLOAD_LEN) && 0 < n < |Encode(f)|
    ensures var got := DecodeAll(AfterCancel(f, n), fault, DEFAULT_MAX_PAYLOAD_LEN);
      && got.frames == (if n >= HEADER_LEN && Missing(f, n) <= 40
                        then [Frame(f.msgType, f.payload[..n - HEADER_LEN] + Encode(TimeoutFrame())[..Missing(f, n)])] else [])
      && (n == 1 || n == 2 ==> got.error == InvalidMagic)
      && (n == 3 ==> got.error == UnsupportedVersion(0x53))
      && (4 <= n <= 6 ==> got.error.PayloadTooLarge?)
      && (n == 7 || n == 8 ==> got.error.PayloadTooLarge? || got.error == ShortRead(fault))
      && (n >= HEADER_LEN ==> got.error == if Missing(f, n) <= 31 then InvalidMagic else ShortRead(fault))
  {
    TimeoutHeader();
    if n >= HEADER_LEN {
      CutPayload(f, n, fault);
    } else {
      CutHeader(f, n, fault);
    }
  }

  lemma CutHeader(f: Frame, n: nat, fault: bool)
    requires Fits(f, DEFAULT_MAX_PAYLOAD_LEN) && 0 < n < HEADER_LEN
    ensures var got := DecodeAll(AfterCancel(f, n), fault, DEFAULT_MAX_PAYLOAD_LEN);
      && got.frames == []
      && (n == 1 || n == 2 ==> got.error == InvalidMagic)
      && (n == 3 ==> got.error == UnsupportedVersion(0x53))
      && (4 <= n <= 6 ==> got.error.PayloadTooLarge?)
      && (n == 7 || n == 8 ==> got.error.PayloadTooLarge? || got.error == ShortRead(fault))
  {
    var bytes := AfterCancel(f, n);
    TimeoutHeader();
    var e := Encode(TimeoutFrame());
    var h := HeaderBytes(Header(VERSION, f.msgType, |f.payload|));
    assert forall i :: 0 <= i < n ==> bytes[i] == h[i];
    assert forall i :: n <= i < HEADER_LEN ==> bytes[i] == e[..HEADER_LEN][i - n];
    HighByte(f);
    DecodeErrors(bytes, fault, DEFAULT_MAX_PAYLOAD_LEN);
    if n == 3 {
      assert bytes[..HEADER_LEN][3] == 0x53 && bytes[..HEADER_LEN][..3] == MAGIC;
    }
  }

  lemma HighByte(f: Frame)
    requires Fits(f, DEFAULT_MAX_PAYLOAD_LEN)
    ensures var h := HeaderBytes(Header(VERSION, f.msgType, |f.payload|));
      h[..4] == [0x53, 0x41, 0x4F, 0x01] && h[5] == 0
  {
  }

  lemma CutPayload(f: Frame, n: nat, fault: bool)
    requires Fits(f, DEFAULT_MAX_PAYLOAD_LEN) && HEADER_LEN <= n < |Encode(f)|
    ensures var got := DecodeAll(AfterCancel(f, n), fault, DEFAULT_MAX_PAYLOAD_LEN);
      && got.frames == (if Missing(f, n) <= 40
                        then [Frame(f.msgType, f.payload[..n - HEADER_LEN] + Encode(TimeoutFrame())[..Missing(f, n)])] else [])
      && got.error == if Missing(f, n) <= 31 then InvalidMagic else ShortRead(fault)
  {
    var e, kept := Encode(TimeoutFrame()), f.payload[..n - HEADER_LEN];
    var h := HeaderBytes(Header(VERSION, f.msgType, |f.payload|));
    TimeoutHeader();
    assert Encode(f)[..n] == h + kept;
    Assoc(h, kept, e);
    ParseHeaderBytes(f.msgType, |f.payload|);
    var bytes, body := AfterCancel(f, n), kept + e;
    assert bytes[..HEADER_LEN] == h && bytes[HEADER_LEN..] == body;
    if Missing(f, n) <= 40 {
      var rest := e[Missing(f, n)..];
      assert body[..|f.payload|] == kept + e[..Missing(f, n)] && body[|f.payload|..] == rest;
      RestReads(rest, fault, Missing(f, n));
    }
  }

  /** What is left of the timer's frame is nothing to the reader. */
  lemma RestReads(rest: seq<byte>, fault: bool, k: nat)
    requires 0 < k <= |Encode(TimeoutFrame())| && rest == Encode(TimeoutFrame())[k..]
    ensures DecodeAll(rest, fault, DEFAULT_MAX_PAYLOAD_LEN).frames == []
    ensures DecodeAll(rest, fault, DEFAULT_MAX_PAYLOAD_LEN).error == if k <= 31 then InvalidMagic else ShortRead(fault)
  {
    TimeoutHeader();
    if k <= 31 {
      FirstByteOnce(k);
      assert rest[..HEADER_LEN][..3][0] == rest[0];
    }
  }

  /** So a cut stream frame costs the client every exit code, and a cut exit frame leaves
      it at most one it cannot read. */
  lemma CutCostsExit(f: Frame, n: nat, fault: bool)
    requires OfExec(f) && Fits(f, DEFAULT_MAX_PAYLOAD_LEN) && 0 < n < |Encode(f)|
    ensures var got := DecodeAll(AfterCancel(f, n), fault, DEFAULT_MAX_PAYLOAD_LEN).frames;
      && (f.msgType != EXEC_EXIT ==> forall g <- got :: g.msgType != EXEC_EXIT)
      && |got| <= 1 && forall g <- got :: g.msgType == f.msgType && 0x53 in g.payload
  {
    CutReads(f, n, fault);
    TimeoutHeader();
    if n >= HEADER_LEN && Missing(f, n) <= 40 {
      var e := Encode(TimeoutFrame());
      assert e[0] == e[..HEADER_LEN][0];
      assert (f.payload[..n - HEADER_LEN] + e[..Missing(f, n)])[n - HEADER_LEN] == e[0];
    }
  }

  /** The timer at the flush behind a whole exit frame: one exec, two exit frames. */
  lemma TwoExitFrames(payload: seq<byte>, fault: bool)
    requires |payload| <= DEFAULT_MAX_PAYLOAD_LEN
    ensures var f := Frame(EXEC_EXIT, payload);
      var got := DecodeAll(AfterCancel(f, |Encode(f)|), fault, DEFAULT_MAX_PAYLOAD_LEN).frames;
      && got == [f, TimeoutFrame()] && got[0].msgType == got[1].msgType == EXEC_EXIT
      && !Intact(f, got)
  {
    TwoFrames(Frame(EXEC_EXIT, payload), fault, DEFAULT_MAX_PAYLOAD_LEN);
  }

  // ------------------------------------------------------------ in the session

  /** The timer never fires behind an exit frame. */
  predicate OnTime(steps: seq<Step>) {
    LateTimeout !in steps
  }

  lemma {:induction false} LatesNone(steps: seq<Step>)
    ensures Lates(steps) == 0 <==> OnTime(steps)
  {
    if steps != [] {
      LatesNone(steps[1..]);
      assert steps == [steps[0]] + steps[1..];
    }
  }

  /** Every response answers the request of the same number. */
  ghost predicate Paired(cfg: Config, jobs: seq<Job>, groups: seq<seq<Reply>>) {
    && |groups| <= |jobs|
    && forall k :: 0 <= k < |groups| ==> Responds(cfg, jobs[k].shell, jobs[k], groups[k])
  }

  /** The second exit frame is a response of its own, and belongs to no request. */
  lemma LateTimeoutSplits(cfg: Config, steps: seq<Step>, s: Server)
    requires Reachable(cfg, steps, s) && Enabled(cfg, s, LateTimeout)
    ensures var s' := Apply(cfg, s, LateTimeout);
      && SplitGroups(Responses(s'.out)) == Split(Groups(s) + [[ExecExit(124)]], [])
      && |s'.jobs| == |s.jobs| && s'.inp == s.inp
  {
    ReachableInv(cfg, steps, s);
    ReplySnoc(s.out, ExecExit(124));
    assert [] + [ExecExit(124)] == [ExecExit(124)];
  }

  lemma GroupsSend(out: seq<Reply>, m: Reply)
    requires |out| >= 2 && !out[|out| - 1].ErrorReply?
    ensures SplitGroups(Responses(out)).groups <= SplitGroups(Responses(out + [m])).groups
  {
    if m.ErrorReply? {
      ResponsesSnoc(out, m);
    } else {
      ReplySnoc(out, m);
    }
  }

  lemma GroupsStep(cfg: Config, s: Server, step: Step)
    requires Inv(cfg, s) && s.auth.Some? && Enabled(cfg, s, step)
    ensures Groups(s) <= Groups(Apply(cfg, s, step)) && Apply(cfg, s, step).auth.Some?
  {
    assert |s.out| >= 2 && s.phase !in {Start, AwaitAuth} && (s.out[|s.out| - 1].ErrorReply? ==> s.phase == Finished);
    OneMore(cfg, s, step);
    var out' := Apply(cfg, s, step).out;
    if out' != s.out {
      GroupsSend(s.out, out'[|s.out|]);
    }
  }

  lemma OneMore(cfg: Config, s: Server, step: Step)
    requires s.auth.Some? && s.phase !in {Start, AwaitAuth} && Enabled(cfg, s, step)
    ensures var s' := Apply(cfg, s, step);
      && s'.auth.Some? && (s.phase == Finished ==> s'.out == s.out)
      && (s'.out == s.out || s'.out == s.out + [s'.out[|s.out|]])
  {
  }

  /** Responses already complete stay as they are. */
  lemma {:induction false} GroupsGrow(cfg: Config, s: Server, steps: seq<Step>, t: Server)
    requires Inv(cfg, s) && s.auth.Some? && Runs(cfg, s, steps, t)
    ensures Groups(s) <= Groups(t)
    decreases |steps|
  {
    if steps != [] {
      GroupsStep(cfg, s, steps[0]);
      StepInv(cfg, s, steps[0]);
      GroupsGrow(cfg, Apply(cfg, s, steps[0]), steps[1..], t);
    }
  }

  /** A client that counts responses, as one that sends its next request without waiting
      has to, will take a second exit frame for that request's answer: in every
      continuation it stands at the place where, after the late timeouts so far, the
      next answer is due. */
  lemma NextRequestMispaired(cfg: Config, steps: seq<Step>, s: Server, more: seq<Step>, t: Server)
    requires Reachable(cfg, steps, s) && Enabled(cfg, s, LateTimeout)
    requires Runs(cfg, Apply(cfg, s, LateTimeout), more, t)
    ensures var p := |s.jobs| + Lates(steps); |Groups(t)| > p && Groups(t)[p] == [ExecExit(124)]
  {
    ReachableInv(cfg, steps, s);
    ResponseCount(cfg, steps, s);
    ResponsePairing(cfg, steps, s);
    LateTimeoutSplits(cfg, steps, s);
    StepInv(cfg, s, LateTimeout);
    GroupsGrow(cfg, Apply(cfg, s, LateTimeout), more, t);
  }

  /** In every run, responses and requests pair up by their number exactly when the timer
      never fired behind an exit frame. */
  lemma PairingIff(cfg: Config, steps: seq<Step>, s: Server)
    requires Reachable(cfg, steps, s) && s.auth.Some?
    ensures Paired(cfg, s.jobs, Groups(s)) <==> OnTime(steps)
  {
    LatesNone(steps);
    ResponseCount(cfg, steps, s);
    ResponsePairing(cfg, steps, s);
    var n := Ended(s.jobs);
    forall k | 0 <= k < n ensures InPlace(cfg, s.jobs, Groups(s), k) {
      assert RespondedAt(cfg, s, k);
    }
    PairsIff(cfg, s.jobs, Groups(s), n);
  }

  ghost predicate InPlace(cfg: Config, jobs: seq<Job>, groups: seq<seq<Reply>>, k: nat)
    requires k < |jobs|
  {
    Place(jobs, k) < |groups| && Responds(cfg, jobs[k].shell, jobs[k], groups[Place(jobs, k)])
  }

  lemma PairsIff(cfg: Config, jobs: seq<Job>, groups: seq<seq<Reply>>, n: nat)
    requires n == Ended(jobs) && |groups| == n + LateJobs(jobs)
    requires forall k :: 0 <= k < n ==> InPlace(cfg, jobs, groups, k)
    ensures Paired(cfg, jobs, groups) <==> LateJobs(jobs) == 0
  {
    if LateJobs(jobs) == 0 {
      forall k | 0 <= k < n ensures Responds(cfg, jobs[k].shell, jobs[k], groups[k]) {
        LatePrefix(jobs, k);
        assert InPlace(cfg, jobs, groups, k);
      }
    } else if |groups| == |jobs| {
      OpenUnanswered(cfg, jobs[n], groups[n]);
    }
  }

  lemma OpenUnanswered(cfg: Config, job: Job, g: seq<Reply>)
    requires !Closed(job)
    ensures !Responds(cfg, job.shell, job, g)
  {
  }

  lemma {:induction false} LatePrefix(jobs: seq<Job>, k: nat)
    requires k <= |jobs|
    ensures LateJobs(jobs[..k]) <= LateJobs(jobs)
    decreases |jobs|
  {
    if k < |jobs| {
      assert jobs[..|jobs| - 1][..k] == jobs[..k];
      LatePrefix(jobs[..|jobs| - 1], k);
    } else {
      assert jobs[..k] == jobs;
    }
  }
}
