/** When a call of the asynchronous writer never returns: `Flush` waits for an answer that nobody sends,
    and a call on a full channel for room that nobody makes. */
module AsyncHangs {
  import opened Bytes
  import opened AsyncWriter

  /** Without a `bufio` writer, what is handed on is on the wire. */
  predicate Flat(config: Config, s: State) {
    !config.buffered ==> s.wire == s.handed
  }

  predicate Sane(config: Config, s: State) {
    Inv(s) && Flat(config, s) && |s.queue| <= config.chanSize
  }

  lemma StepSane(config: Config, s: State, step: Step)
    requires Sane(config, s) && Enabled(config, s, step)
    ensures Sane(config, Apply(config, s, step))
  {
    StepInv(config, s, step);
    hide Inv, Closed, Carried;
    FlatStep(config, s, step);
  }

  lemma FlatStep(config: Config, s: State, step: Step)
    requires Flat(config, s) && Enabled(config, s, step)
    ensures Flat(config, Apply(config, s, step))
  {
    match step
    case WriteAll(sent) => FullSlice(s.handed + s.loop.msg.b);
    case WriteFails(n, sent) => FullSlice(s.handed + s.loop.msg.b[..n]);
    case FlushFails(sent) => FullSlice(s.handed);
    case _ =>
  }

  /** Nothing reaches the wire any more. */
  predicate Cut(s: State) {
    s.closing.Disconnected? || s.closing.Reported?
  }

  // A flush

  /** The loop has ended without an answer, or will: it is on its way out, or has bytes to write that the
      closed connection refuses. */
  predicate Doomed(config: Config, s: State) {
    s.caller.Flushing? && s.flushDone == 0
    && (s.loop.Gone? || (s.loop.Failing? && !s.loop.answer)
        || (Alive(s) && !config.buffered && Cut(s) && Owed(s) != []))
  }

  lemma TakeOwed(config: Config, s: State)
    requires Enabled(config, s, LoopTake)
    ensures Owed(Apply(config, s, LoopTake)) == Owed(s)
  {
    hide Carried;
    var none: seq<byte> := [];
    assert none + Pending(s.queue) == Pending(s.queue);
  }

  lemma FlushOwed(s: State)
    requires Inv(s) && s.caller.Flushing? && s.loop.Working? && s.loop.msg.Flush?
    ensures s.queue == [] && Owed(s) == []
  {
    hide BytesInv, CloseInv;
  }

  /** On a closed connection without a `bufio` writer only an empty message is written. */
  lemma EmptyWritten(config: Config, s: State, sent: nat)
    requires Flat(config, s) && !config.buffered && Cut(s) && Enabled(config, s, WriteAll(sent))
    ensures Owed(Apply(config, s, WriteAll(sent))) == Owed(s)
  {
    hide Pending;
    assert s.loop.msg.b == [];
  }

  /** A doomed flush stays doomed, whatever happens, and does not return. */
  lemma DoomedStep(config: Config, s: State, step: Step)
    requires Sane(config, s) && Doomed(config, s) && Enabled(config, s, step)
    ensures !step.FlushReturn? && Doomed(config, Apply(config, s, step))
  {
    hide Inv, Owed;
    match step
    case LoopTake => TakeOwed(config, s);
    case WriteAll(sent) =>
      if !config.buffered && Cut(s) {
        EmptyWritten(config, s, sent);
      }
    case FlushAll => FlushOwed(s);
    case FlushFails(_) => FlushOwed(s);
    case CloseEnter | CloseFlag | CloseSignal | CloseConn | CloseReport => SameOwed(s, Apply(config, s, step));
    case _ =>
  }

  lemma SameOwed(s: State, t: State)
    requires t.queue == s.queue && t.loop == s.loop
    ensures Owed(t) == Owed(s)
  {
  }

  lemma {:induction false} DoomedRun(config: Config, s: State, steps: seq<Step>)
    requires Sane(config, s) && Doomed(config, s) && Legal(config, s, steps)
    ensures Doomed(config, After(config, s, steps))
    decreases |steps|
  {
    hide Sane, Doomed, Enabled, Apply;
    if steps != [] {
      StepSane(config, s, steps[0]);
      DoomedStep(config, s, steps[0]);
      DoomedRun(config, Apply(config, s, steps[0]), steps[1..]);
    }
  }

  // Runs, step by step

  /** The steps are possible one after the other and lead to `t`. */
  predicate Leads(config: Config, s: State, steps: seq<Step>, t: State) {
    Legal(config, s, steps) && After(config, s, steps) == t
  }

  lemma NoSteps(config: Config, s: State)
    ensures Leads(config, s, [], s)
  {
  }

  lemma OneMore(config: Config, s: State, step: Step, rest: seq<Step>, t: State)
    requires Enabled(config, s, step) && Leads(config, Apply(config, s, step), rest, t)
    ensures Leads(config, s, [step] + rest, t)
  {
    hide Enabled, Apply;
    var steps := [step] + rest;
    assert steps[0] == step && steps[1..] == rest;
  }

  /** How many steps of `close` are left. */
  function Left(closing: Closing): nat {
    match closing
    case Open => 5
    case Entered => 4
    case Flagged => 3
    case Signalled => 2
    case Disconnected => 1
    case Reported => 0
  }

  /** `close` can always be carried on, and changes nothing for the caller and the loop. */
  lemma CloseOn(config: Config, s: State) returns (step: Step)
    requires Sane(config, s) && !s.closing.Reported?
    ensures Enabled(config, s, step)
    ensures
      var t := Apply(config, s, step);
      Left(t.closing) < Left(s.closing) && t.caller == s.caller && t.loop == s.loop && t.queue == s.queue
      && t.flushDone == s.flushDone
  {
    hide BytesInv, FlushInv, Pending;
    step := match s.closing
      case Open => CloseEnter
      case Entered => CloseFlag
      case Flagged => CloseSignal
      case Signalled => CloseConn
      case _ => CloseReport;
  }

  lemma {:induction false} ClosesDown(config: Config, s: State) returns (steps: seq<Step>, t: State)
    requires Sane(config, s)
    ensures Leads(config, s, steps, t) && Sane(config, t) && t.closing.Reported?
    ensures t.caller == s.caller && t.loop == s.loop && t.queue == s.queue && t.flushDone == s.flushDone
    decreases Left(s.closing)
  {
    hide *;
    if s.closing.Reported? {
      steps, t := [], s;
      NoSteps(config, s);
    } else {
      var step := CloseOn(config, s);
      StepSane(config, s, step);
      var rest: seq<Step>;
      rest, t := ClosesDown(config, Apply(config, s, step));
      OneMore(config, s, step, rest, t);
      steps := [step] + rest;
    }
  }

  /** The step that brings the answer to a flush nearer. */
  lemma Nearer(config: Config, s: State) returns (step: Step)
    requires Sane(config, s) && s.caller.Flushing? && s.flushDone == 0 && !Doomed(config, s) && Alive(s)
    ensures Enabled(config, s, step)
    ensures
      var t := Apply(config, s, step);
      t.caller.Flushing? && !Doomed(config, t)
      && (t.flushDone > 0 || t.loop == Failing(true)
          || (Alive(t) && 2 * |t.queue| + (if t.loop.Working? then 1 else 0)
              < 2 * |s.queue| + (if s.loop.Working? then 1 else 0)))
  {
    match s.loop
    case Selecting =>
      WaitsInQueue(s);
      step := LoopTake;
      TakeOwed(config, s);
      hide Inv, Owed;
    case Working(Flush) =>
      FlushOwed(s);
      BytesOrdered(s);
      hide Inv, Owed;
      step := if Cut(s) then FlushFails(|s.wire|) else FlushAll;
    case Working(Write(b)) =>
      BytesOrdered(s);
      step := WriteAll(if Cut(s) then |s.wire| else |s.handed + b|);
      if !config.buffered && Cut(s) {
        NothingLeft(s, b);
        EmptyWritten(config, s, |s.wire|);
      }
      hide Inv, Owed;
  }

  lemma WaitsInQueue(s: State)
    requires Inv(s) && s.caller.Flushing? && s.flushDone == 0 && s.loop.Selecting?
    ensures s.queue != []
  {
    hide BytesInv, CloseInv;
  }

  lemma BytesOrdered(s: State)
    requires Inv(s)
    ensures |s.wire| <= |s.handed|
  {
    hide FlushInv, CloseInv, Owed;
  }

  lemma NothingLeft(s: State, b: seq<byte>)
    requires s.loop == Working(Write(b)) && Owed(s) == []
    ensures b == []
  {
    hide Pending;
    assert |Owed(s)| == |b| + |Pending(s.queue)|;
  }

  /** A flush that is not doomed can be answered. */
  lemma {:induction false} CanReturn(config: Config, s: State) returns (steps: seq<Step>, t: State)
    requires Sane(config, s) && s.caller.Flushing? && !Doomed(config, s)
    ensures Leads(config, s, steps, t) && Enabled(config, t, FlushReturn)
    decreases 2 * |s.queue| + if s.loop.Working? then 1 else 0
  {
    if s.flushDone > 0 {
      steps, t := [], s;
    } else if Alive(s) {
      hide Sane, Doomed, Apply, Legal, After;
      var step := Nearer(config, s);
      StepSane(config, s, step);
      var next := Apply(config, s, step);
      var rest: seq<Step>;
      if next.flushDone > 0 {
        rest, t := [], next;
        NoSteps(config, next);
      } else if Alive(next) {
        rest, t := CanReturn(config, next);
      } else {
        rest, t := FailureAnswers(config, next);
      }
      OneMore(config, s, step, rest, t);
      steps := [step] + rest;
    } else {
      steps, t := FailureAnswers(config, s);
    }
  }

  /** A loop that failed in a flush answers it when `close` is through. */
  lemma FailureAnswers(config: Config, s: State) returns (steps: seq<Step>, t: State)
    requires Sane(config, s) && s.caller.Flushing? && s.flushDone == 0 && s.loop == Failing(true)
    ensures Leads(config, s, steps, t) && Enabled(config, t, FlushReturn)
  {
    var before: seq<Step>, u: State := ClosesDown(config, s);
    t := Apply(config, u, LoopGone);
    steps := before + [LoopGone];
    hide Sane, Legal, After, Leads;
    ThenOne(config, s, before, u, LoopGone);
  }

  lemma {:induction false} ThenOne(config: Config, s: State, steps: seq<Step>, t: State, step: Step)
    requires Leads(config, s, steps, t) && Enabled(config, t, step)
    ensures Leads(config, s, steps + [step], Apply(config, t, step))
    decreases |steps|
  {
    hide Enabled, Apply;
    if steps == [] {
      NoSteps(config, Apply(config, s, step));
      OneMore(config, s, step, [], Apply(config, s, step));
      assert steps + [step] == [step] + [];
    } else {
      var next := Apply(config, s, steps[0]);
      ThenOne(config, next, steps[1..], t, step);
      OneMore(config, s, steps[0], steps[1..] + [step], Apply(config, t, step));
      assert steps + [step] == [steps[0]] + (steps[1..] + [step]);
    }
  }

  lemma {:induction false} RunSane(config: Config, s: State, steps: seq<Step>)
    requires Sane(config, s) && Legal(config, s, steps)
    ensures Sane(config, After(config, s, steps))
    decreases |steps|
  {
    hide Sane, Enabled, Apply;
    if steps != [] {
      StepSane(config, s, steps[0]);
      RunSane(config, Apply(config, s, steps[0]), steps[1..]);
    }
  }

  lemma StartSane(config: Config)
    ensures Sane(config, START)
  {
    StartInv();
  }

  /** The run ends in a state in which the step is possible. */
  predicate Allows(config: Config, s: State, steps: seq<Step>, step: Step) {
    Legal(config, s, steps) && Enabled(config, After(config, s, steps), step)
  }

  /** In every reachable state: a waiting flush can return in some continuation exactly when it is not
      doomed. */
  lemma FlushReturnsExact(config: Config, steps: seq<Step>)
    requires Legal(config, START, steps) && After(config, START, steps).caller.Flushing?
    ensures
      var s := After(config, START, steps);
      !Doomed(config, s) <==> exists more: seq<Step> :: Allows(config, s, more, FlushReturn)
  {
    StartSane(config);
    RunSane(config, START, steps);
    var s := After(config, START, steps);
    hide Sane, Legal, After, Doomed, Enabled;
    if Doomed(config, s) {
      forall more: seq<Step> | Legal(config, s, more)
        ensures !Allows(config, s, more, FlushReturn)
      {
        DoomedRun(config, s, more);
        DoomedWaits(config, After(config, s, more));
      }
    } else {
      var more, t := CanReturn(config, s);
      assert Allows(config, s, more, FlushReturn);
    }
  }

  lemma DoomedWaits(config: Config, s: State)
    requires Doomed(config, s)
    ensures !Enabled(config, s, FlushReturn)
  {
  }

  /** The flush that passes the closed check just before `close` sets the flag: the loop may take the exit
      signal first, and is gone. */
  function Late(): seq<Step> {
    [Call(Flush), CloseEnter, CloseFlag, CloseSignal, Enqueue, LoopExit]
  }

  /** With every channel size and every kind of writer this run is possible, and its flush never returns. */
  lemma FlushHangs(config: Config, more: seq<Step>)
    requires config.chanSize > 0
    ensures Legal(config, START, Late()) && After(config, START, Late()).caller.Flushing?
    ensures !Allows(config, After(config, START, Late()), more, FlushReturn)
  {
    var s := START.(caller := Flushing, queue := [Flush], loop := Gone, closing := Signalled);
    LateLeads(config);
    StartSane(config);
    RunSane(config, START, Late());
    assert Doomed(config, s);
    hide Sane, Legal, After, Doomed, Enabled;
    if Legal(config, s, more) {
      DoomedRun(config, s, more);
      DoomedWaits(config, After(config, s, more));
    }
  }

  lemma LateLeads(config: Config)
    requires config.chanSize > 0
    ensures Leads(config, START, Late(),
                  START.(caller := Flushing, queue := [Flush], loop := Gone, closing := Signalled))
  {
    hide Legal, After;
    var s1 := START.(caller := Checked(Flush));
    var s4 := s1.(closing := Signalled, exit := 1);
    var s5 := s4.(caller := Flushing, queue := [Flush]);
    var t := s5.(loop := Gone, exit := 0);
    NoSteps(config, t);
    assert s4.queue + [Flush] == [Flush] && s4.accepted + Carried(Flush) == s4.accepted;
    var r4, r3, r2, r1 := [Enqueue] + [LoopExit], [CloseSignal, Enqueue, LoopExit],
      [CloseFlag, CloseSignal, Enqueue, LoopExit], [CloseEnter, CloseFlag, CloseSignal, Enqueue, LoopExit];
    assert [LoopExit] + [] == [LoopExit];
    assert r3 == [CloseSignal] + r4 && r2 == [CloseFlag] + r3 && r1 == [CloseEnter] + r2 && Late() == [Call(Flush)] + r1;
    OneMore(config, s5, LoopExit, [], t);
    OneMore(config, s4, Enqueue, [LoopExit], t);
    OneMore(config, s1.(closing := Flagged), CloseSignal, r4, t);
    OneMore(config, s1.(closing := Entered), CloseFlag, r3, t);
    OneMore(config, s1, CloseEnter, r2, t);
    OneMore(config, START, Call(Flush), r1, t);
  }

  // A call on a full channel

  /** The call waits for room, and the loop has ended, or will at the message it is working on. */
  predicate Stuck(config: Config, s: State) {
    s.caller.Checked? && |s.queue| >= config.chanSize && (s.caller.msg.Flush? || config.blocks)
    && (s.loop.Gone? || s.loop.Failing?
        || (s.loop.Working? && !config.buffered && Cut(s) && Carried(s.loop.msg) != []))
  }

  /** A stuck call stays stuck, whatever happens. */
  lemma StuckStep(config: Config, s: State, step: Step)
    requires Sane(config, s) && Stuck(config, s) && Enabled(config, s, step)
    ensures !step.Enqueue? && !step.Drop? && Stuck(config, Apply(config, s, step))
  {
    hide BytesInv, CloseInv;
  }

  lemma {:induction false} StuckRun(config: Config, s: State, steps: seq<Step>)
    requires Sane(config, s) && Stuck(config, s) && Legal(config, s, steps)
    ensures Stuck(config, After(config, s, steps))
    decreases |steps|
  {
    hide Sane, Stuck, Enabled, Apply;
    if steps != [] {
      StepSane(config, s, steps[0]);
      StuckStep(config, s, steps[0]);
      StuckRun(config, Apply(config, s, steps[0]), steps[1..]);
    }
  }

  /** The loop can go back to its `select`. */
  lemma WorkDone(config: Config, s: State) returns (step: Step)
    requires Sane(config, s) && s.caller.Checked? && s.loop.Working?
    requires config.buffered || !Cut(s) || Carried(s.loop.msg) == []
    ensures Enabled(config, s, step)
    ensures Apply(config, s, step)
      == s.(loop := Selecting, handed := Apply(config, s, step).handed, wire := Apply(config, s, step).wire)
  {
    BytesOrdered(s);
    NoFlushAtWork(s);
    hide Inv;
    step := WriteAll(if Cut(s) then |s.wire| else |s.handed + s.loop.msg.b|);
  }

  lemma NoFlushAtWork(s: State)
    requires Inv(s) && s.caller.Checked? && s.loop.Working?
    ensures s.loop.msg.Write?
  {
    hide BytesInv, CloseInv;
  }

  /** A call that is not stuck can be accepted, or fails. */
  lemma CanSend(config: Config, s: State) returns (steps: seq<Step>, t: State)
    requires Sane(config, s) && s.caller.Checked? && !Stuck(config, s) && config.chanSize > 0
    ensures Leads(config, s, steps, t) && (Enabled(config, t, Enqueue) || Enabled(config, t, Drop))
  {
    hide Inv, Legal, After;
    if |s.queue| < config.chanSize || (s.caller.msg.Write? && !config.blocks) {
      steps, t := [], s;
      NoSteps(config, s);
    } else if s.loop.Selecting? {
      t := Apply(config, s, LoopTake);
      NoSteps(config, t);
      OneMore(config, s, LoopTake, [], t);
      steps := [LoopTake] + [];
    } else {
      var step := WorkDone(config, s);
      var u := Apply(config, s, step);
      t := Apply(config, u, LoopTake);
      NoSteps(config, t);
      OneMore(config, u, LoopTake, [], t);
      OneMore(config, s, step, [LoopTake] + [], t);
      steps := [step] + ([LoopTake] + []);
    }
  }

  /** In every reachable state: a call past its closed check can be accepted or fail in some continuation
      exactly when it is not stuck. */
  lemma SendReturnsExact(config: Config, steps: seq<Step>)
    requires Legal(config, START, steps) && After(config, START, steps).caller.Checked? && config.chanSize > 0
    ensures
      var s := After(config, START, steps);
      !Stuck(config, s) <==>
        exists more: seq<Step> :: Allows(config, s, more, Enqueue) || Allows(config, s, more, Drop)
  {
    StartSane(config);
    RunSane(config, START, steps);
    var s := After(config, START, steps);
    hide Sane, Legal, After, Stuck, Enabled;
    if Stuck(config, s) {
      forall more: seq<Step> | Legal(config, s, more)
        ensures !Allows(config, s, more, Enqueue) && !Allows(config, s, more, Drop)
      {
        StuckRun(config, s, more);
        StuckWaits(config, After(config, s, more));
      }
    } else {
      var more, t := CanSend(config, s);
      assert Allows(config, s, more, Enqueue) || Allows(config, s, more, Drop);
    }
  }

  lemma StuckWaits(config: Config, s: State)
    requires Stuck(config, s)
    ensures !Enabled(config, s, Enqueue) && !Enabled(config, s, Drop)
  {
  }
}
