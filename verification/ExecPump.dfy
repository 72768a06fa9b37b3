/** One `run_one_exec` call below the frame level: the child (with any
    descendants that share its pipes) writing a fixed program of bytes into two
    finite pipes, the two reader tasks, and the unbounded channel they share. */
module ExecPump {
  import opened Common

  const CHUNK_LEN: nat := 16384

  datatype Stream = StdOut | StdErr

  /** One byte the child writes, in program order across both streams. */
  datatype Write = Write(stream: Stream, octet: byte)

  /** What the environment decides when a process is spawned. */
  datatype Child = Child(script: seq<Write>, status: Option<int>)

  datatype Chunk = Chunk(stream: Stream, data: seq<byte>)

  /** One pipe with its reader task. `reading`: the task is alive and so holds a
      sender. `lost`: the task ended on a read error instead of end of file. */
  datatype Half = Half(pipe: seq<byte>, closed: bool, reading: bool, lost: bool)

  /** Where the exec future is: at `rx.recv`, at `child.wait`, or about to write the
      exit frame. */
  datatype Pump = Receiving | Waiting | Exiting

  /** `rx`: the receiving end of the channel has not been dropped. */
  datatype Exec = Exec(child: Child, todo: seq<Write>, out: Half, err: Half,
                       exited: bool, chan: seq<Chunk>, rx: bool, pump: Pump)
  {
    function Of(st: Stream): Half {
      if st == StdOut then out else err
    }

    function With(st: Stream, h: Half): Exec {
      if st == StdOut then this.(out := h) else this.(err := h)
    }
  }

  /** The bytes of one stream in a list of writes. */
  function Project(ws: seq<Write>, st: Stream): seq<byte> {
    if ws == [] then []
    else (if ws[0].stream == st then [ws[0].octet] else []) + Project(ws[1..], st)
  }

  /** The bytes of one stream held in a list of chunks. */
  function ChunkBytes(cs: seq<Chunk>, st: Stream): seq<byte> {
    if cs == [] then []
    else (if cs[0].stream == st then cs[0].data else []) + ChunkBytes(cs[1..], st)
  }

  function Spawn(child: Child): Exec {
    var idle := Half([], false, true, false);
    Exec(child, child.script, idle, idle, false, [], true, Receiving)
  }

  datatype Step =
    | ChildWrite
    | ChildClose(stream: Stream)
    | ChildExit
    | ChildKilled
    | ReaderRead(stream: Stream, n: nat)
    | ReaderEof(stream: Stream)
    | ReaderFault(stream: Stream)

  /** When an actor below the pump can move; `cap` is the size of each pipe. A
      write into a full pipe waits; a write into a pipe nobody reads fails at once;
      a signal is sent only after the exec has been given up. */
  predicate Enabled(cap: nat, e: Exec, step: Step) {
    match step
    case ChildWrite =>
      e.todo != [] && (!e.Of(e.todo[0].stream).reading || |e.Of(e.todo[0].stream).pipe| < cap)
    case ChildClose(st) => !e.Of(st).closed && Project(e.todo, st) == []
    case ChildExit => !e.exited
    case ChildKilled => !e.rx && !(e.todo == [] && e.out.closed && e.err.closed && e.exited)
    case ReaderRead(st, n) => e.Of(st).reading && 1 <= n <= CHUNK_LEN && n <= |e.Of(st).pipe|
    case ReaderEof(st) => e.Of(st).reading && e.Of(st).pipe == [] && e.Of(st).closed
    case ReaderFault(st) => e.Of(st).reading
  }

  function Apply(cap: nat, e: Exec, step: Step): Exec
    requires Enabled(cap, e, step)
  {
    match step
    case ChildWrite =>
      var w := e.todo[0];
      var h := e.Of(w.stream);
      var rest := e.(todo := e.todo[1..]);
      if h.reading then rest.With(w.stream, h.(pipe := h.pipe + [w.octet])) else rest
    case ChildClose(st) => e.With(st, e.Of(st).(closed := true))
    case ChildExit => e.(exited := true)
    case ChildKilled => e.(todo := [], out := e.out.(closed := true), err := e.err.(closed := true), exited := true)
    case ReaderRead(st, n) =>
      var h := e.Of(st);
      var taken := e.With(st, h.(pipe := h.pipe[n..], reading := e.rx));
      if e.rx then taken.(chan := e.chan + [Chunk(st, h.pipe[..n])]) else taken
    case ReaderEof(st) => e.With(st, e.Of(st).(reading := false))
    case ReaderFault(st) => e.With(st, e.Of(st).(reading := false, lost := true))
  }

  /** One pass of a reader's loop: at most one buffer leaves the pipe; it joins the end of
      the channel, or is lost and the task with it when the receiver is gone. */
  lemma ReadMoves(cap: nat, e: Exec, st: Stream, n: nat)
    requires Enabled(cap, e, ReaderRead(st, n))
    ensures var e' := Apply(cap, e, ReaderRead(st, n)); var pipe := e.Of(st).pipe;
      && 1 <= n <= 16384 && e'.Of(st).pipe == pipe[n..]
      && e'.Of(st).reading == e.rx
      && e'.chan == e.chan + (if e.rx then [Chunk(st, pipe[..n])] else [])
  {
    assert e.chan + [] == e.chan;
  }

  /** No task holds a sender any more. */
  predicate NoSenders(e: Exec) {
    !e.out.reading && !e.err.reading
  }

  /** `rx.recv` returns a chunk: the one at the head of the channel. */
  function Receive(e: Exec): Exec
    requires e.pump == Receiving && e.chan != []
  {
    e.(chan := e.chan[1..])
  }

  /** `rx.recv` returns `None`: the channel is empty and its senders are gone. */
  function CloseQueue(e: Exec): Exec
    requires e.pump == Receiving && e.chan == [] && NoSenders(e)
  {
    e.(pump := Waiting)
  }

  /** `child.wait` returns. */
  function Reap(e: Exec): Exec
    requires e.pump == Waiting && e.exited
  {
    e.(pump := Exiting)
  }

  /** Polling the exec future now gets it past the await it is at. */
  predicate PumpReady(e: Exec) {
    match e.pump
    case Receiving => e.chan != [] || NoSenders(e)
    case Waiting => e.exited
    case Exiting => true
  }

  /** `run_one_exec` returns or is cancelled: the receiver and what is queued in
      the channel are dropped. The reader tasks are not. */
  function DropReceiver(e: Exec): Exec {
    e.(chan := [], rx := false)
  }

  // ---------------------------------------------------------------- invariant

  /** Where the bytes of one stream are, when `sent` of them are already in frames. */
  ghost predicate StreamInv(e: Exec, st: Stream, sent: seq<byte>) {
    var h := e.Of(st);
    && sent + ChunkBytes(e.chan, st) <= Project(e.child.script, st)
    && (h.closed ==> Project(e.todo, st) == [])
    && (e.rx && h.reading ==>
          sent + ChunkBytes(e.chan, st) + h.pipe + Project(e.todo, st) == Project(e.child.script, st))
    && (e.rx && !h.reading && !h.lost ==>
          sent + ChunkBytes(e.chan, st) == Project(e.child.script, st))
  }

  ghost predicate ChunksSized(cs: seq<Chunk>) {
    forall c <- cs :: 1 <= |c.data| <= CHUNK_LEN
  }

  /** Nothing is left to receive once the pump has stopped receiving. */
  predicate PumpInv(e: Exec) {
    && (e.pump != Receiving ==> e.chan == [] && NoSenders(e))
    && (e.pump == Exiting ==> e.exited)
  }

  ghost predicate Inv(e: Exec, sentOut: seq<byte>, sentErr: seq<byte>) {
    && StreamInv(e, StdOut, sentOut)
    && StreamInv(e, StdErr, sentErr)
    && ChunksSized(e.chan)
    && PumpInv(e)
  }

  lemma SpawnInv(child: Child)
    ensures Inv(Spawn(child), [], [])
  {
    var e := Spawn(child);
    assert ChunkBytes(e.chan, StdOut) == [] && ChunkBytes(e.chan, StdErr) == [];
    assert [] + [] + [] + Project(e.todo, StdOut) == Project(child.script, StdOut);
    assert [] + [] + [] + Project(e.todo, StdErr) == Project(child.script, StdErr);
  }

  lemma {:induction false} ChunkBytesAppend(a: seq<Chunk>, b: seq<Chunk>, st: Stream)
    ensures ChunkBytes(a + b, st) == ChunkBytes(a, st) + ChunkBytes(b, st)
  {
    if a == [] {
      assert a + b == b;
    } else {
      var d := if a[0].stream == st then a[0].data else [];
      calc {
        ChunkBytes(a + b, st);
        { assert (a + b)[0] == a[0] && (a + b)[1..] == a[1..] + b; }
        d + ChunkBytes(a[1..] + b, st);
        { ChunkBytesAppend(a[1..], b, st); }
        d + (ChunkBytes(a[1..], st) + ChunkBytes(b, st));
        { Assoc(d, ChunkBytes(a[1..], st), ChunkBytes(b, st)); }
        (d + ChunkBytes(a[1..], st)) + ChunkBytes(b, st);
      }
    }
  }

  lemma ChunkBytesSnoc(cs: seq<Chunk>, c: Chunk, st: Stream)
    ensures ChunkBytes(cs + [c], st) == ChunkBytes(cs, st) + if c.stream == st then c.data else []
  {
    ChunkBytesAppend(cs, [c], st);
    assert [c][1..] == [];
  }

  lemma ChildWriteStream(cap: nat, e: Exec, st: Stream, sent: seq<byte>)
    requires StreamInv(e, st, sent) && Enabled(cap, e, ChildWrite)
    ensures StreamInv(Apply(cap, e, ChildWrite), st, sent)
  {
    var w := e.todo[0];
    var rest := Project(e.todo[1..], st);
    if w.stream == st {
      Assoc(e.Of(st).pipe, [w.octet], rest);
      Assoc(sent + ChunkBytes(e.chan, st), e.Of(st).pipe, [w.octet] + rest);
      Assoc(sent + ChunkBytes(e.chan, st), e.Of(st).pipe + [w.octet], rest);
    } else {
      assert [] + rest == rest;
    }
  }

  lemma ReaderReadStream(cap: nat, e: Exec, rs: Stream, n: nat, st: Stream, sent: seq<byte>)
    requires StreamInv(e, st, sent) && Enabled(cap, e, ReaderRead(rs, n))
    ensures StreamInv(Apply(cap, e, ReaderRead(rs, n)), st, sent)
  {
    if e.rx {
      var c := ChunkBytes(e.chan, st);
      var p := e.Of(rs).pipe;
      var e' := Apply(cap, e, ReaderRead(rs, n));
      ChunkBytesSnoc(e.chan, Chunk(rs, p[..n]), st);
      if rs == st {
        var t := Project(e.todo, st);
        calc {
          sent + ChunkBytes(e'.chan, st) + p[n..];
          sent + (c + p[..n]) + p[n..];
          { Assoc(sent, c, p[..n]); Assoc(sent + c, p[..n], p[n..]); }
          (sent + c) + (p[..n] + p[n..]);
          { assert p[..n] + p[n..] == p; }
          sent + c + p;
        }
        Assoc(sent, c, p[..n]);
        assert sent + (c + p[..n]) <= sent + c + p + t;
      } else {
        assert c + [] == c;
      }
    }
  }

  lemma ReaderEofStream(cap: nat, e: Exec, rs: Stream, st: Stream, sent: seq<byte>)
    requires StreamInv(e, st, sent) && Enabled(cap, e, ReaderEof(rs))
    ensures StreamInv(Apply(cap, e, ReaderEof(rs)), st, sent)
  {
    var c := ChunkBytes(e.chan, st);
    assert sent + c + [] + [] == sent + c;
  }

  /** Closing, exiting, being killed and failing to read move no byte. */
  lemma StillStream(cap: nat, e: Exec, step: Step, st: Stream, sent: seq<byte>)
    requires StreamInv(e, st, sent) && Enabled(cap, e, step)
    requires step.ChildClose? || step.ChildExit? || step.ChildKilled? || step.ReaderFault?
    ensures StreamInv(Apply(cap, e, step), st, sent)
  {
  }

  /** Each actor below the pump keeps every stream's account. */
  lemma StreamStep(cap: nat, e: Exec, step: Step, st: Stream, sent: seq<byte>)
    requires StreamInv(e, st, sent) && Enabled(cap, e, step)
    ensures StreamInv(Apply(cap, e, step), st, sent)
  {
    match step
    case ChildWrite => ChildWriteStream(cap, e, st, sent);
    case ReaderRead(rs, n) => ReaderReadStream(cap, e, rs, n, st, sent);
    case ReaderEof(rs) => ReaderEofStream(cap, e, rs, st, sent);
    case _ => StillStream(cap, e, step, st, sent);
  }

  /** A channel that is empty and has no sender stays so, whatever child and reader
      tasks do; and an exited child stays exited. */
  lemma PumpStable(cap: nat, e: Exec, step: Step)
    requires PumpInv(e) && Enabled(cap, e, step)
    ensures PumpInv(Apply(cap, e, step))
    ensures e.chan == [] && NoSenders(e) ==> Apply(cap, e, step).chan == [] && NoSenders(Apply(cap, e, step))
  {
  }

  lemma StepInv(cap: nat, e: Exec, step: Step, sentOut: seq<byte>, sentErr: seq<byte>)
    requires Inv(e, sentOut, sentErr) && Enabled(cap, e, step)
    ensures Inv(Apply(cap, e, step), sentOut, sentErr)
  {
    StreamStep(cap, e, step, StdOut, sentOut);
    StreamStep(cap, e, step, StdErr, sentErr);
    PumpStable(cap, e, step);
  }

  /** Moving the head chunk into a frame keeps the account of both streams. */
  lemma ReceiveStream(e: Exec, st: Stream, sent: seq<byte>)
    requires StreamInv(e, st, sent) && e.pump == Receiving && e.chan != []
    ensures StreamInv(Receive(e), st, sent + if e.chan[0].stream == st then e.chan[0].data else [])
  {
    var d := if e.chan[0].stream == st then e.chan[0].data else [];
    Assoc(sent, d, ChunkBytes(e.chan[1..], st));
  }

  lemma DropStream(e: Exec, st: Stream, sent: seq<byte>)
    requires StreamInv(e, st, sent)
    ensures StreamInv(DropReceiver(e), st, sent)
  {
    var full := Project(e.child.script, st);
    assert sent + [] == sent;
    assert sent == full[..|sent|];
  }

  // ------------------------------------------------------- progress and measure

  function Flag(b: bool): nat {
    if b then 1 else 0
  }

  function ChanLen(cs: seq<Chunk>): nat {
    if cs == [] then 0 else |cs[0].data| + ChanLen(cs[1..])
  }

  function HalfRank(h: Half): nat {
    3 * |h.pipe| + Flag(!h.closed) + Flag(h.reading)
  }

  function PumpRank(p: Pump): nat {
    match p case Receiving => 2 case Waiting => 1 case Exiting => 0
  }

  /** A byte weighs less at each station on its way to a frame. */
  function Rank(e: Exec): nat {
    4 * |e.todo| + HalfRank(e.out) + HalfRank(e.err) + 2 * ChanLen(e.chan) + Flag(!e.exited) + PumpRank(e.pump)
  }

  lemma {:induction false} ChanLenSnoc(cs: seq<Chunk>, c: Chunk)
    ensures ChanLen(cs + [c]) == ChanLen(cs) + |c.data|
  {
    if cs == [] {
      assert cs + [c] == [c];
    } else {
      ChanLenSnoc(cs[1..], c);
      assert (cs + [c])[1..] == cs[1..] + [c];
    }
  }

  lemma ReadRank(cap: nat, e: Exec, st: Stream, n: nat)
    requires Enabled(cap, e, ReaderRead(st, n))
    ensures Rank(Apply(cap, e, ReaderRead(st, n))) < Rank(e)
  {
    ChanLenSnoc(e.chan, Chunk(st, e.Of(st).pipe[..n]));
  }

  lemma WriteRank(cap: nat, e: Exec)
    requires Enabled(cap, e, ChildWrite)
    ensures Rank(Apply(cap, e, ChildWrite)) < Rank(e)
  {
  }

  lemma KilledRank(cap: nat, e: Exec)
    requires Enabled(cap, e, ChildKilled)
    ensures Rank(Apply(cap, e, ChildKilled)) < Rank(e)
  {
  }

  /** The steps that only change one flag of the child. */
  lemma ChildRank(cap: nat, e: Exec, step: Step)
    requires Enabled(cap, e, step) && (step.ChildClose? || step.ChildExit?)
    ensures Rank(Apply(cap, e, step)) < Rank(e)
  {
  }

  /** And of a reader. */
  lemma ReaderRank(cap: nat, e: Exec, step: Step)
    requires Enabled(cap, e, step) && (step.ReaderEof? || step.ReaderFault?)
    ensures Rank(Apply(cap, e, step)) < Rank(e)
  {
  }

  lemma RankDecreases(cap: nat, e: Exec, step: Step)
    requires Enabled(cap, e, step)
    ensures Rank(Apply(cap, e, step)) < Rank(e)
  {
    match step
    case ReaderRead(st, n) => ReadRank(cap, e, st, n);
    case ChildWrite => WriteRank(cap, e);
    case ChildKilled => KilledRank(cap, e);
    case ReaderEof(_) => ReaderRank(cap, e, step);
    case ReaderFault(_) => ReaderRank(cap, e, step);
    case _ => ChildRank(cap, e, step);
  }

  /** Whatever order the child fills its pipes in, some actor can move until polling
      gets the pump on: this needs a reader for each pipe and a channel that never
      blocks, but only one byte of room in a pipe. */
  lemma Progress(cap: nat, e: Exec) returns (step: Step)
    requires cap >= 1 && e.rx && !PumpReady(e)
    ensures Enabled(cap, e, step) && !step.ReaderFault?
  {
    if e.out.reading && e.out.pipe != [] {
      step := ReaderRead(StdOut, 1);
    } else if e.err.reading && e.err.pipe != [] {
      step := ReaderRead(StdErr, 1);
    } else if e.todo != [] {
      step := ChildWrite;
    } else if !e.out.closed {
      step := ChildClose(StdOut);
    } else if !e.err.closed {
      step := ChildClose(StdErr);
    } else if e.out.reading {
      step := ReaderEof(StdOut);
    } else if e.err.reading {
      step := ReaderEof(StdErr);
    } else {
      step := ChildExit;
    }
  }
}
