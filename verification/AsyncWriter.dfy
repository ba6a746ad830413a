/** The asynchronous writer of `lal/connection/connection.go`: one calling thread, the write loop and
    any thread that closes, as a state machine over their atomic steps. */
module AsyncWriter {
  import opened Bytes

  /** `WriteChanSize`, whether a full channel blocks or fails, and whether a `bufio` writer sits in between. */
  datatype Config = Config(chanSize: nat, blocks: bool, buffered: bool)

  datatype Msg = Write(b: seq<byte>) | Flush

  /** The caller: between calls, past the closed check of a call, or waiting for its flush. */
  datatype Caller = Outside | Checked(msg: Msg) | Flushing

  /** The loop: at its `select`, at work on a message, on its way out through `close` after an error
      (`answer` if a flush is still to be answered), or gone. */
  datatype Loop = Selecting | Working(msg: Msg) | Failing(answer: bool) | Gone

  /** The one execution of `close`: not begun, inside the once, and after each of its steps. */
  datatype Closing = Open | Entered | Flagged | Signalled | Disconnected | Reported

  /** Three histories: all bytes accepted from the caller, all handed to the writer by the loop, all
      on the wire; `done` is what was sent to `doneChan`. */
  datatype State = State(
    caller: Caller, queue: seq<Msg>, flushDone: nat, exit: nat, loop: Loop, closing: Closing,
    accepted: seq<byte>, handed: seq<byte>, wire: seq<byte>, done: nat)

  const START := State(Outside, [], 0, 0, Selecting, Open, [], [], [], 0)

  datatype Step =
    | Call(msg: Msg)       // the closed check passes
    | Enqueue              // into the channel
    | Drop                 // the channel is full and the call fails
    | FlushReturn          // the answer to the flush is received
    | LoopExit | LoopTake
    | WriteAll(sent: nat)  // the whole message is written; `sent` bytes in all are on the wire now
    | WriteFails(n: nat, sent: nat)  // `n` of its bytes are written, and an error returned
    | FlushAll
    | FlushFails(sent: nat)
    | LoopGone             // after `close` has run
    | CloseEnter | CloseFlag | CloseSignal | CloseConn | CloseReport

  predicate Closed(s: State) {
    !s.closing.Open? && !s.closing.Entered?
  }

  /** More bytes may reach the wire until the connection is closed. */
  predicate MayReach(config: Config, s: State, handed: seq<byte>, sent: nat) {
    |s.wire| <= sent <= |handed|
    && (s.closing.Disconnected? || s.closing.Reported? ==> sent == |s.wire|)
    && (!config.buffered ==> sent == |handed|)
  }

  predicate Enabled(config: Config, s: State, step: Step) {
    match step
    case Call(_) => s.caller.Outside? && !Closed(s)
    case Enqueue => s.caller.Checked? && |s.queue| < config.chanSize
    case Drop => s.caller.Checked? && s.caller.msg.Write? && !config.blocks && |s.queue| >= config.chanSize
    case FlushReturn => s.caller.Flushing? && s.flushDone > 0
    case LoopExit => s.loop.Selecting? && s.exit > 0
    case LoopTake => s.loop.Selecting? && s.queue != []
    case WriteAll(sent) =>
      s.loop.Working? && s.loop.msg.Write? && MayReach(config, s, s.handed + s.loop.msg.b, sent)
    case WriteFails(n, sent) =>
      s.loop.Working? && s.loop.msg.Write? && n <= |s.loop.msg.b|
      && MayReach(config, s, s.handed + s.loop.msg.b[..n], sent)
    case FlushAll => s.loop.Working? && s.loop.msg.Flush? && s.flushDone < 1 && MayReach(config, s, s.handed, |s.handed|)
    case FlushFails(sent) => s.loop.Working? && s.loop.msg.Flush? && MayReach(config, s, s.handed, sent)
    case LoopGone => s.loop.Failing? && s.closing.Reported? && (s.loop.answer ==> s.flushDone < 1)
    case CloseEnter => s.closing.Open?
    case CloseFlag => s.closing.Entered?
    case CloseSignal => s.closing.Flagged? && s.exit < 1
    case CloseConn => s.closing.Signalled?
    case CloseReport => s.closing.Disconnected? && s.done < 1
  }

  function Apply(config: Config, s: State, step: Step): State
    requires Enabled(config, s, step)
  {
    match step
    case Call(msg) => s.(caller := Checked(msg))
    case Enqueue =>
      s.(queue := s.queue + [s.caller.msg],
         caller := if s.caller.msg.Flush? then Flushing else Outside,
         accepted := s.accepted + Carried(s.caller.msg))
    case Drop => s.(caller := Outside)
    case FlushReturn => s.(caller := Outside, flushDone := s.flushDone - 1)
    case LoopExit => s.(loop := Gone, exit := s.exit - 1)
    case LoopTake => s.(loop := Working(s.queue[0]), queue := s.queue[1..])
    case WriteAll(sent) =>
      var handed := s.handed + s.loop.msg.b;
      s.(loop := Selecting, handed := handed, wire := handed[..sent])
    case WriteFails(n, sent) =>
      var handed := s.handed + s.loop.msg.b[..n];
      s.(loop := Failing(false), handed := handed, wire := handed[..sent])
    case FlushAll => s.(loop := Selecting, wire := s.handed, flushDone := s.flushDone + 1)
    case FlushFails(sent) => s.(loop := Failing(true), wire := s.handed[..sent])
    case LoopGone => s.(loop := Gone, flushDone := if s.loop.answer then s.flushDone + 1 else s.flushDone)
    case CloseEnter => s.(closing := Entered)
    case CloseFlag => s.(closing := Flagged)
    case CloseSignal => s.(closing := Signalled, exit := s.exit + 1)
    case CloseConn => s.(closing := Disconnected)
    case CloseReport => s.(closing := Reported, done := s.done + 1)
  }

  function Carried(msg: Msg): seq<byte> {
    if msg.Write? then msg.b else []
  }

  function Pending(queue: seq<Msg>): seq<byte> {
    if queue == [] then [] else Carried(queue[0]) + Pending(queue[1..])
  }

  /** What the loop still has to hand on. */
  function Owed(s: State): seq<byte> {
    (if s.loop.Working? then Carried(s.loop.msg) else []) + Pending(s.queue)
  }

  predicate NoFlush(queue: seq<Msg>) {
    forall k | 0 <= k < |queue| :: queue[k].Write?
  }

  predicate Alive(s: State) {
    s.loop.Selecting? || s.loop.Working?
  }

  /** The bytes: the wire has a prefix of what was handed on, and that is a prefix of what was
      accepted; as long as the loop lives nothing else is missing than what it still owes. */
  predicate BytesInv(s: State) {
    s.wire <= s.handed <= s.accepted && (Alive(s) ==> s.accepted == s.handed + Owed(s))
  }

  /** The one flush: where it is while its caller waits, and what its answer means. */
  predicate FlushInv(s: State) {
    if s.caller.Flushing? then
      if s.flushDone == 1 then
        s.queue == [] && !s.loop.Working? && !(s.loop.Failing? && s.loop.answer)
        && (Closed(s) || s.wire == s.accepted)
      else if (s.loop.Working? && s.loop.msg.Flush?) || (s.loop.Failing? && s.loop.answer) then
        s.flushDone == 0 && s.queue == []
      else
        s.flushDone == 0
        && (Alive(s) ==> s.queue != [] && s.queue[|s.queue| - 1].Flush? && NoFlush(s.queue[..|s.queue| - 1]))
    else
      s.flushDone == 0 && (Alive(s) || (s.loop.Failing? && !s.loop.answer) || s.loop.Gone?)
      && (Alive(s) ==> NoFlush(s.queue) && !(s.loop.Working? && s.loop.msg.Flush?))
  }

  /** `close` runs once: its channels have room for what it sends. */
  predicate CloseInv(s: State) {
    s.done == (if s.closing.Reported? then 1 else 0)
    && s.exit <= 1 && (s.exit > 0 ==> s.closing.Signalled? || s.closing.Disconnected? || s.closing.Reported?)
  }

  predicate Inv(s: State) {
    BytesInv(s) && FlushInv(s) && CloseInv(s)
  }

  lemma {:induction false} PendingSnoc(queue: seq<Msg>, msg: Msg)
    ensures Pending(queue + [msg]) == Pending(queue) + Carried(msg)
  {
    if queue == [] {
      assert Pending([msg][1..]) == [];
      assert queue + [msg] == [msg];
    } else {
      hide Carried;
      PendingSnoc(queue[1..], msg);
      assert (queue + [msg])[1..] == queue[1..] + [msg];
      ConcatAssociative(Carried(queue[0]), Pending(queue[1..]), Carried(msg));
    }
  }

  lemma EnqueueBytes(config: Config, s: State)
    requires BytesInv(s) && Enabled(config, s, Enqueue)
    ensures BytesInv(Apply(config, s, Enqueue))
  {
    hide Pending, Carried;
    PendingSnoc(s.queue, s.caller.msg);
    var working := if s.loop.Working? then Carried(s.loop.msg) else [];
    ConcatAssociative(working, Pending(s.queue), Carried(s.caller.msg));
    ConcatAssociative(s.handed, Owed(s), Carried(s.caller.msg));
  }

  lemma TakeBytes(config: Config, s: State)
    requires BytesInv(s) && Enabled(config, s, LoopTake)
    ensures BytesInv(Apply(config, s, LoopTake))
  {
    hide Carried;
    var none: seq<byte> := [];
    assert none + Pending(s.queue) == Pending(s.queue);
  }

  lemma WriteBytes(config: Config, s: State, sent: nat)
    requires BytesInv(s) && Enabled(config, s, WriteAll(sent))
    ensures BytesInv(Apply(config, s, WriteAll(sent)))
  {
    hide Pending;
    var b, p := s.loop.msg.b, Pending(s.queue);
    var none: seq<byte> := [];
    assert s.accepted == s.handed + b + (none + p) by {
      ConcatAssociative(s.handed, b, p);
      assert none + p == p;
    }
  }

  lemma WriteFailBytes(config: Config, s: State, n: nat, sent: nat)
    requires BytesInv(s) && Enabled(config, s, WriteFails(n, sent))
    ensures BytesInv(Apply(config, s, WriteFails(n, sent)))
  {
    hide Pending;
    var b, p := s.loop.msg.b, Pending(s.queue);
    assert s.accepted == s.handed + b[..n] + (b[n..] + p);
  }

  /** No step breaks the order of the bytes. */
  lemma StepBytes(config: Config, s: State, step: Step)
    requires BytesInv(s) && Enabled(config, s, step)
    ensures BytesInv(Apply(config, s, step))
  {
    match step
    case Enqueue => EnqueueBytes(config, s);
    case LoopTake => TakeBytes(config, s);
    case WriteAll(sent) => WriteBytes(config, s, sent);
    case WriteFails(n, sent) => WriteFailBytes(config, s, n, sent);
    case FlushAll => hide Pending;
    case _ => hide Pending, Carried;
  }

  lemma NothingOwed(s: State)
    requires BytesInv(s) && s.loop.Working? && s.loop.msg.Flush? && s.queue == []
    ensures s.handed == s.accepted
  {
    var none: seq<byte> := [];
    assert s.handed + (none + none) == s.handed;
  }

  /** No step loses the flush, and none answers it too early or twice. */
  lemma StepFlush(config: Config, s: State, step: Step)
    requires Inv(s) && Enabled(config, s, step)
    ensures FlushInv(Apply(config, s, step))
  {
    hide Pending, Owed;
    match step
    case FlushAll => NothingOwed(s);
    case LoopTake =>
      if s.caller.Flushing? && |s.queue| > 1 {
        assert s.queue[1..][..|s.queue| - 2] == s.queue[..|s.queue| - 1][1..];
        assert s.queue[..|s.queue| - 1][0] == s.queue[0];
      }
    case Enqueue => assert (s.queue + [s.caller.msg])[..|s.queue|] == s.queue;
    case _ =>
  }

  lemma StepClose(config: Config, s: State, step: Step)
    requires CloseInv(s) && Enabled(config, s, step)
    ensures CloseInv(Apply(config, s, step))
  {
  }

  lemma StepInv(config: Config, s: State, step: Step)
    requires Inv(s) && Enabled(config, s, step)
    ensures Inv(Apply(config, s, step))
  {
    hide BytesInv, FlushInv, CloseInv, Enabled, Apply;
    StepBytes(config, s, step);
    StepFlush(config, s, step);
    StepClose(config, s, step);
  }

  // Every run

  predicate Legal(config: Config, s: State, steps: seq<Step>)
    decreases |steps|
  {
    steps == [] || (Enabled(config, s, steps[0]) && Legal(config, Apply(config, s, steps[0]), steps[1..]))
  }

  function After(config: Config, s: State, steps: seq<Step>): State
    requires Legal(config, s, steps)
    decreases |steps|
  {
    if steps == [] then s else After(config, Apply(config, s, steps[0]), steps[1..])
  }

  lemma {:induction false} RunInv(config: Config, s: State, steps: seq<Step>)
    requires Inv(s) && Legal(config, s, steps)
    ensures Inv(After(config, s, steps))
    decreases |steps|
  {
    hide Inv, Enabled, Apply;
    if steps != [] {
      StepInv(config, s, steps[0]);
      RunInv(config, Apply(config, s, steps[0]), steps[1..]);
    }
  }

  lemma StartInv()
    ensures Inv(START)
  {
    var none: seq<byte> := [];
    assert none + none == none;
  }

  /** In every run the wire carries a prefix of the accepted bytes; a flush that returns while the
      connection is not closed means that all of them are there; and `close` reports exactly once,
      after the connection is closed. */
  lemma EveryRun(config: Config, steps: seq<Step>)
    requires Legal(config, START, steps)
    ensures
      var s := After(config, START, steps);
      s.wire <= s.accepted
      && (Enabled(config, s, FlushReturn) && !Closed(s) ==> s.wire == s.accepted)
      && s.done == (if s.closing.Reported? then 1 else 0)
  {
    StartInv();
    RunInv(config, START, steps);
    hide Legal, After, Owed;
  }

  /** In every run neither the loop nor `close` can block in a send: not in that of the exit signal, not in
      that of the final report, not in the answer to a flush. (The caller's own sends and its wait can:
      see `AsyncHangs`.) */
  lemma LoopAndCloseNeverBlock(config: Config, steps: seq<Step>)
    requires Legal(config, START, steps)
    ensures
      var s := After(config, START, steps);
      (s.closing.Flagged? ==> Enabled(config, s, CloseSignal))
      && (s.closing.Disconnected? ==> Enabled(config, s, CloseReport))
      && (s.loop.Working? && s.loop.msg.Flush? && MayReach(config, s, s.handed, |s.handed|) ==>
          Enabled(config, s, FlushAll))
      && (s.loop.Failing? && s.closing.Reported? ==> Enabled(config, s, LoopGone))
  {
    StartInv();
    RunInv(config, START, steps);
    hide Legal, After, Owed;
  }

  /** What is on the wire stays there, and nothing is added once the connection is closed. */
  lemma WireOnlyGrows(config: Config, s: State, step: Step)
    requires Inv(s) && Enabled(config, s, step)
    ensures s.wire <= Apply(config, s, step).wire
    ensures s.closing.Disconnected? || s.closing.Reported? ==> Apply(config, s, step).wire == s.wire
  {
    hide Pending, Owed, FlushInv;
  }
}
