/** What the steps of a run say: which bytes count as accepted, which are on the wire, and in what order the
    connection closes. */
module AsyncTraces {
  import opened Bytes
  import opened AsyncWriter

  // What is accepted

  /** The message of a call that has passed the closed check and is not done. */
  function Underway(steps: seq<Step>): Option<Msg> {
    if steps == [] then None
    else
      match steps[|steps| - 1]
      case Call(msg) => Some(msg)
      case Enqueue => None
      case Drop => None
      case _ => Underway(steps[..|steps| - 1])
  }

  /** The bytes of the calls that got into the channel. */
  function AcceptedBy(steps: seq<Step>): seq<byte> {
    if steps == [] then []
    else
      var before := steps[..|steps| - 1];
      AcceptedBy(before)
      + if steps[|steps| - 1].Enqueue? && Underway(before).Some? then Carried(Underway(before).value) else []
  }

  predicate AsCalled(s: State, steps: seq<Step>) {
    s.accepted == AcceptedBy(steps)
    && Underway(steps) == if s.caller.Checked? then Some(s.caller.msg) else None
  }

  lemma {:induction false} SnocLegal(config: Config, s: State, steps: seq<Step>)
    requires steps != [] && Legal(config, s, steps)
    ensures
      var before, last := steps[..|steps| - 1], steps[|steps| - 1];
      Legal(config, s, before) && Enabled(config, After(config, s, before), last)
      && After(config, s, steps) == Apply(config, After(config, s, before), last)
    decreases |steps|
  {
    hide Enabled, Apply;
    var before := steps[..|steps| - 1];
    if |steps| > 1 {
      SnocLegal(config, Apply(config, s, steps[0]), steps[1..]);
      assert steps[1..][..|steps| - 2] == before[1..];
    } else {
      assert before == [] && steps[1..] == [];
    }
  }

  lemma AsCalledStep(config: Config, s: State, steps: seq<Step>)
    requires steps != [] && Enabled(config, s, steps[|steps| - 1]) && AsCalled(s, steps[..|steps| - 1])
    ensures AsCalled(Apply(config, s, steps[|steps| - 1]), steps)
  {
    hide Closed, MayReach;
    assert s.accepted + [] == s.accepted;
  }

  /** In every run exactly the bytes of the calls that got into the channel count as accepted, in order; a call
      that finds it full and fails leaves no trace, and the caller is free to call again. */
  lemma {:induction false} AcceptedExact(config: Config, steps: seq<Step>)
    requires Legal(config, START, steps)
    ensures
      var s := After(config, START, steps);
      s.accepted == AcceptedBy(steps) && (s.caller.Checked? <==> Underway(steps).Some?)
      && AsCalled(s, steps)
    decreases |steps|
  {
    hide Legal, After, Enabled, Apply, AcceptedBy, Underway;
    if steps == [] {
      NothingCalled(config);
    } else {
      SnocLegal(config, START, steps);
      AcceptedExact(config, steps[..|steps| - 1]);
      AsCalledStep(config, After(config, START, steps[..|steps| - 1]), steps);
    }
  }

  lemma NothingCalled(config: Config)
    ensures Legal(config, START, []) && AsCalled(After(config, START, []), [])
  {
  }

  // What is on the wire

  /** How many bytes were on the wire after the last attempt of the loop to write. */
  function Reached(steps: seq<Step>): nat {
    if steps == [] then 0
    else
      var before := steps[..|steps| - 1];
      match steps[|steps| - 1]
      case WriteAll(sent) => sent
      case WriteFails(_, sent) => sent
      case FlushFails(sent) => sent
      case FlushAll => |AcceptedBy(before)|
      case _ => Reached(before)
  }

  lemma ReachedStep(config: Config, s: State, steps: seq<Step>)
    requires steps != [] && Inv(s) && Enabled(config, s, steps[|steps| - 1])
    requires |s.wire| == Reached(steps[..|steps| - 1]) && s.accepted == AcceptedBy(steps[..|steps| - 1])
    ensures |Apply(config, s, steps[|steps| - 1]).wire| == Reached(steps)
  {
    hide Closed, AcceptedBy, CloseInv, Carried;
    if steps[|steps| - 1].FlushAll? {
      AllHanded(s);
    }
  }

  /** When the loop works on a flush, all that was accepted has been handed on. */
  lemma AllHanded(s: State)
    requires Inv(s) && s.loop.Working? && s.loop.msg.Flush?
    ensures s.handed == s.accepted
  {
    hide CloseInv;
    var none: seq<byte> := [];
    assert s.queue == [] && Pending(s.queue) == none;
    assert s.handed + (none + none) == s.handed;
  }

  /** In every run the wire holds the accepted bytes up to where the last attempt to write got, a flush that
      succeeds all of them. */
  lemma {:induction false} WireExact(config: Config, steps: seq<Step>)
    requires Legal(config, START, steps)
    ensures Reached(steps) <= |AcceptedBy(steps)|
    ensures After(config, START, steps).wire == AcceptedBy(steps)[..Reached(steps)]
    decreases |steps|
  {
    hide *;
    EveryRun(config, steps);
    AcceptedExact(config, steps);
    if steps == [] {
      NothingReached(config);
    } else {
      var before := steps[..|steps| - 1];
      SnocLegal(config, START, steps);
      WireExact(config, before);
      AcceptedExact(config, before);
      StartInv();
      RunInv(config, START, before);
      ReachedStep(config, After(config, START, before), steps);
    }
  }

  lemma NothingReached(config: Config)
    ensures Legal(config, START, []) && |After(config, START, []).wire| == Reached([]) == 0
  {
  }

  // The order of closing

  const CLOSING := [CloseEnter, CloseFlag, CloseSignal, CloseConn, CloseReport]

  /** The steps of `close` in a run. */
  function ClosingSteps(steps: seq<Step>): seq<Step> {
    if steps == [] then []
    else
      var last := steps[|steps| - 1];
      ClosingSteps(steps[..|steps| - 1]) + if last in CLOSING then [last] else []
  }

  function Progress(closing: Closing): nat {
    match closing
    case Open => 0
    case Entered => 1
    case Flagged => 2
    case Signalled => 3
    case Disconnected => 4
    case Reported => 5
  }

  lemma ProgressStep(config: Config, s: State, step: Step)
    requires Enabled(config, s, step)
    ensures
      var n, m := Progress(s.closing), Progress(Apply(config, s, step).closing);
      if step in CLOSING then m == n + 1 <= 5 && step == CLOSING[n] else m == n
  {
    hide MayReach, Closed, Carried;
  }

  /** In every run `close` goes once through its steps, in this order: the flag, the exit signal, the connection, the
      report; from whichever thread they come. */
  lemma {:induction false} CloseInOrder(config: Config, steps: seq<Step>)
    requires Legal(config, START, steps)
    ensures Progress(After(config, START, steps).closing) <= 5
    ensures ClosingSteps(steps) == CLOSING[..Progress(After(config, START, steps).closing)]
    decreases |steps|
  {
    hide Legal, After, Enabled, Apply, Progress;
    if steps == [] {
      NothingClosed(config);
    } else {
      SnocLegal(config, START, steps);
      var before := steps[..|steps| - 1];
      CloseInOrder(config, before);
      ProgressStep(config, After(config, START, before), steps[|steps| - 1]);
    }
  }

  lemma NothingClosed(config: Config)
    ensures Legal(config, START, []) && Progress(After(config, START, []).closing) == 0
  {
  }
}
