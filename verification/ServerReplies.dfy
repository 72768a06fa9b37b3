/** What the server answers to each thing it can read, told on the frames read and
    written: one frame at a time, and over whole runs. */
module ServerReplies {
  import opened Common
  import opened Identity
  import opened ServerSession
  import opened ServerGuarantees
  import Base64
  import ExecPump
  import Policy
  import Text

  // ------------------------------------------------------------ one frame read

  /** After authentication: any type but 0x10 is answered by an error frame and ends the
      session; a payload that cannot be parsed, the end of the stream and a failing read
      end it in silence. */
  lemma OtherRequest(cfg: Config, steps: seq<Step>, s: Server, input: Input, child: Option<ExecPump.Child>)
    requires Reachable(cfg, steps, s) && s.phase == Ready
    requires input.Got? ==> input.request.msgType != 0x10 || !input.request.body.ExecBody?
    ensures var t := Apply(cfg, s, Receive(input, child));
      && t.phase == Finished && t.jobs == s.jobs
      && t.inp == s.inp + (if input.Got? then [input.request] else [])
      && t.out == s.out + (if input.Got? && input.request.msgType != 0x10 then [ErrorReply(UnknownMsgType)] else [])
  {
    assert s.inp + [] == s.inp && s.out + [] == s.out;
  }

  /** A command: denied for the first pattern that occurs in it; else dropped in silence
      when there is no shell to run it or it cannot be spawned; else running, with
      nothing written yet. */
  lemma CommandRequest(cfg: Config, steps: seq<Step>, s: Server, shell: string, child: Option<ExecPump.Child>)
    requires Reachable(cfg, steps, s) && s.phase == Ready
    ensures var r := Request(0x10, ExecBody(shell)); var t := Apply(cfg, s, Receive(Got(r), child));
      && t.inp == s.inp + [r]
      && (t.phase == Ready <==> exists pat <- cfg.deny :: Policy.Occurs(shell, pat))
      && (t.phase == Ready ==>
            exists k :: DeniedFor(cfg, shell, k)
              && t.out == s.out + [PolicyDenied(cfg.deny[k])] && t.jobs == s.jobs + [Denied(shell, cfg.deny[k])])
      && (t.phase != Ready ==> t.out == s.out)
      && (t.phase == Finished <==>
            (forall pat <- cfg.deny :: !Policy.Occurs(shell, pat)) && (|cfg.shellArgv| < 2 || child.None?))
      && (t.phase == Finished ==> t.jobs == s.jobs)
      && (t.phase == Running ==>
            t.jobs == s.jobs + [Process(shell, cfg.shellArgv + [shell], ExecPump.Spawn(child.value), Open)])
  {
    Policy.CheckShellIff(cfg.deny, shell);
  }

  /** Pattern `k` is the first that occurs in the line. */
  ghost predicate DeniedFor(cfg: Config, shell: string, k: int) {
    && 0 <= k < |cfg.deny| && Policy.Occurs(shell, cfg.deny[k])
    && forall pat <- cfg.deny[..k] :: !Policy.Occurs(shell, pat)
  }

  // ----------------------------------------------------------------- whole runs

  predicate NoError(ms: seq<Reply>) {
    forall m <- ms :: !m.ErrorReply?
  }

  /** The frames read call for this error frame. */
  predicate ErrorDue(inp: seq<Request>, error: ErrorCode) {
    match error
    case ExpectedAuthResponse => |inp| >= 1 && inp[0].msgType != 0x02
    case UnknownMsgType => |inp| >= 2 && inp[|inp| - 1].msgType != 0x10
  }

  /** What a finished session without an accepted key has answered. */
  ghost predicate TurnedAway(cfg: Config, s: Server) {
    if s.inp == [] then NoError(s.out)
    else
      var r, greeting := s.inp[0], Challenge(s.nonce, s.sessionId);
      && |s.inp| == 1
      && if r.msgType != 0x02 then s.out == [greeting, ErrorReply(ExpectedAuthResponse)]
         else if !r.body.AuthBody? then s.out == [greeting]
         else
           var a := Authenticate(cfg.crypto, cfg.Table(), s.nonce, s.sessionId,
                                 r.body.keyType, r.body.fingerprint, r.body.signature);
           a.Err? && s.out == [greeting, AuthFailed(a.error)]
  }

  /** An error frame stands behind an accepted session exactly if one is due. */
  ghost predicate Answering(s: Server) {
    if s.phase == Finished && ErrorDue(s.inp, UnknownMsgType) then
      s.out != [] && NoError(s.out[..|s.out| - 1]) && s.out[|s.out| - 1] == ErrorReply(UnknownMsgType)
    else NoError(s.out)
  }

  /** How the frames read explain the frames written, when every answer could be. */
  ghost predicate Told(cfg: Config, s: Server) {
    if s.auth.Some? then Answering(s) else s.phase == Finished ==> TurnedAway(cfg, s)
  }

  /** An answer could not be written, and nothing has been since. */
  predicate Silenced(s: Server) {
    s.phase == Finished && NoError(s.out)
  }

  lemma NoErrorUntilFinished(cfg: Config, s: Server)
    requires Inv(cfg, s) && Told(cfg, s) && s.phase != Finished
    ensures NoError(s.out) && (s.auth.Some? ==> !ErrorDue(s.inp, UnknownMsgType))
  {
    if s.auth.Some? {
      var k := |s.inp| - 2;
      assert k >= 0 ==> s.inp[k + 1] == Request(0x10, ExecBody(s.jobs[k].shell));
    }
  }

  lemma StepTold(cfg: Config, s: Server, step: Step)
    requires Inv(cfg, s) && Enabled(cfg, s, step) && Told(cfg, s) && !step.ReceiveBroken?
    ensures Told(cfg, Apply(cfg, s, step))
  {
    if s.phase == Finished {
      EndTold(cfg, s, step);
    } else {
      NoErrorUntilFinished(cfg, s);
      if !step.Receive? {
        InnerTold(cfg, s, step);
      } else if s.phase == AwaitAuth {
        FirstTold(cfg, s, step.input, step.child);
      } else {
        LaterTold(cfg, s, step.input, step.child);
      }
    }
  }

  /** Tasks left behind write nothing. */
  lemma EndTold(cfg: Config, s: Server, step: Step)
    requires Enabled(cfg, s, step) && Told(cfg, s) && s.phase == Finished
    ensures Told(cfg, Apply(cfg, s, step))
  {
  }

  lemma FirstTold(cfg: Config, s: Server, input: Input, child: Option<ExecPump.Child>)
    requires Inv(cfg, s) && s.phase == AwaitAuth && NoError(s.out)
    ensures Told(cfg, Apply(cfg, s, Receive(input, child)))
  {
  }

  lemma LaterTold(cfg: Config, s: Server, input: Input, child: Option<ExecPump.Child>)
    requires s.phase == Ready && s.auth.Some? && |s.inp| >= 1 && NoError(s.out) && !ErrorDue(s.inp, UnknownMsgType)
    ensures Told(cfg, Apply(cfg, s, Receive(input, child)))
  {
    var t := Apply(cfg, s, Receive(input, child));
    if input.Got? && input.request.msgType != 0x10 {
      assert t.out[..|t.out| - 1] == s.out;
    } else {
      assert NoError(t.out) && !ErrorDue(t.inp, UnknownMsgType);
    }
  }

  /** Steps that read nothing. */
  lemma InnerTold(cfg: Config, s: Server, step: Step)
    requires Inv(cfg, s) && Enabled(cfg, s, step) && s.phase != Finished && !step.Receive? && !step.ReceiveBroken?
    requires NoError(s.out) && (s.auth.Some? ==> !ErrorDue(s.inp, UnknownMsgType))
    ensures Told(cfg, Apply(cfg, s, step))
  {
    var t := Apply(cfg, s, step);
    assert t.inp == s.inp && NoError(t.out);
  }

  lemma BreakSilences(cfg: Config, s: Server, r: Request)
    requires Inv(cfg, s) && Told(cfg, s) && Enabled(cfg, s, ReceiveBroken(r))
    ensures Silenced(Apply(cfg, s, ReceiveBroken(r)))
  {
    NoErrorUntilFinished(cfg, s);
  }

  predicate Broken(steps: seq<Step>) {
    exists step <- steps :: step.ReceiveBroken?
  }

  lemma {:induction false} SilenceStays(cfg: Config, s: Server, steps: seq<Step>, t: Server)
    requires Silenced(s) && Runs(cfg, s, steps, t)
    ensures Silenced(t)
    decreases |steps|
  {
    if steps != [] {
      SilenceStays(cfg, Apply(cfg, s, steps[0]), steps[1..], t);
    }
  }

  lemma {:induction false} RunsTold(cfg: Config, s: Server, steps: seq<Step>, t: Server)
    requires Inv(cfg, s) && Told(cfg, s) && Runs(cfg, s, steps, t)
    ensures if Broken(steps) then Silenced(t) else Told(cfg, t)
    decreases |steps|
  {
    if steps != [] {
      var first, more := steps[0], steps[1..];
      assert steps == [first] + more;
      if first.ReceiveBroken? {
        BreakSilences(cfg, s, first.request);
        SilenceStays(cfg, Apply(cfg, s, first), more, t);
      } else {
        StepInv(cfg, s, first);
        StepTold(cfg, s, first);
        RunsTold(cfg, Apply(cfg, s, first), more, t);
      }
    }
  }

  lemma DueOrNot(cfg: Config, s: Server, error: ErrorCode)
    requires Inv(cfg, s) && Told(cfg, s)
    ensures ErrorReply(error) in s.out <==> ErrorDue(s.inp, error)
  {
    if s.phase != Finished {
      NoErrorUntilFinished(cfg, s);
    } else if s.auth.Some? {
      ErrorLast(s, error);
    }
  }

  lemma ErrorLast(s: Server, error: ErrorCode)
    requires Answering(s) && s.phase == Finished && !ErrorDue(s.inp, ExpectedAuthResponse)
    ensures ErrorReply(error) in s.out <==> ErrorDue(s.inp, error)
  {
    if ErrorDue(s.inp, UnknownMsgType) {
      var n := |s.out| - 1;
      assert s.out == s.out[..n] + [ErrorReply(UnknownMsgType)];
    }
  }

  /** Over every run: an error frame has been written exactly if the frames read call for
      it, the first not of type 0x02, or the last, behind an accepted one, not of type
      0x10, and no answer was lost to a failing connection. */
  lemma ErrorFrames(cfg: Config, steps: seq<Step>, s: Server, error: ErrorCode)
    requires Reachable(cfg, steps, s)
    ensures ErrorReply(error) in s.out <==> !Broken(steps) && ErrorDue(s.inp, error)
  {
    ReachableInv(cfg, steps, s);
    RunsTold(cfg, INIT, steps, s);
    if !Broken(steps) {
      DueOrNot(cfg, s, error);
    }
  }

  /** The first entry with the fingerprint verifies 64 bytes that the text stands for. */
  ghost predicate Signed(crypto: Crypto, keys: seq<AuthorizedKey>, fp: string, message: seq<byte>, signature: string) {
    exists k, raw: Bytes64 ::
      FirstListed(keys, fp, k) && Base64.Encode(raw) == signature && crypto.verify(k.verifyingKey, message, raw)
  }

  /** The answer to a well-formed auth response. */
  ghost predicate AuthAnswer(cfg: Config, nonce: seq<byte>, sessionId: seq<byte>, b: Body, m: Reply)
    requires b.AuthBody?
  {
    var keys, fp := cfg.Table(), Text.Lower(Text.Trim(b.fingerprint));
    if b.keyType != "sao-ed25519" then m == AuthFailed(UnsupportedKeyType)
    else if forall k <- keys :: k.fingerprintHex != fp then m == AuthFailed(UnknownKey)
    else if Signed(cfg.crypto, keys, fp, SigningBytes(nonce, sessionId), b.signature) then m == AuthOk
    else m == AuthFailed(BadSignature)
  }

  lemma AnswerIs(cfg: Config, nonce: seq<byte>, sessionId: seq<byte>, b: Body)
    requires b.AuthBody?
    ensures var a := Authenticate(cfg.crypto, cfg.Table(), nonce, sessionId, b.keyType, b.fingerprint, b.signature);
      AuthAnswer(cfg, nonce, sessionId, b, if a.Ok? then AuthOk else AuthFailed(a.error))
  {
    var keys, fp := cfg.Table(), Text.Lower(Text.Trim(b.fingerprint));
    RefusalIff(cfg.crypto, keys, nonce, sessionId, b.keyType, b.fingerprint, b.signature);
    var a := Authenticate(cfg.crypto, keys, nonce, sessionId, b.keyType, b.fingerprint, b.signature);
    if a.Ok? {
      AuthenticateIff(cfg.crypto, keys, nonce, sessionId, b.keyType, b.fingerprint, b.signature, a.value);
      assert FirstListed(keys, fp, a.value);
    } else if a.error == BadSignature {
      FirstIsOne(keys, fp);
    }
  }

  lemma FirstIsOne(keys: seq<AuthorizedKey>, fp: string)
    ensures forall k, k' :: FirstListed(keys, fp, k) && FirstListed(keys, fp, k') ==> k == k'
    ensures forall k :: FirstListed(keys, fp, k) ==> k in keys && k.fingerprintHex == fp
  {
  }

  /** What has been written up to the answer to the first frame, told on that frame, the
      table and the challenge. */
  ghost predicate FirstAnswered(cfg: Config, s: Server)
    requires s.inp != []
  {
    var r, greeting := s.inp[0], Challenge(s.nonce, s.sessionId);
    && |s.out| >= 1 && s.out[0] == greeting
    && (r.msgType != 0x02 ==> s.out == [greeting, ErrorReply(ExpectedAuthResponse)] && s.phase == Finished)
    && (r.msgType == 0x02 && !r.body.AuthBody? ==> s.out == [greeting] && s.phase == Finished)
    && (r.msgType == 0x02 && r.body.AuthBody? ==>
          && |s.out| >= 2 && AuthAnswer(cfg, s.nonce, s.sessionId, r.body, s.out[1])
          && (s.out[1] != AuthOk ==> |s.out| == 2 && s.phase == Finished))
  }

  lemma ToldFirst(cfg: Config, s: Server)
    requires Inv(cfg, s) && Told(cfg, s) && s.inp != []
    ensures FirstAnswered(cfg, s)
  {
    var r := s.inp[0];
    if r.msgType == 0x02 && r.body.AuthBody? {
      AnswerIs(cfg, s.nonce, s.sessionId, r.body);
    }
  }

  /** Over every run, unless an answer was lost to a failing connection. */
  lemma FirstAnswer(cfg: Config, steps: seq<Step>, s: Server)
    requires Reachable(cfg, steps, s) && !Broken(steps) && s.inp != []
    ensures FirstAnswered(cfg, s)
  {
    ReachableInv(cfg, steps, s);
    RunsTold(cfg, INIT, steps, s);
    ToldFirst(cfg, s);
  }
}
