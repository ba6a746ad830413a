/** What a registered player gets: every packet from its registration on, until it is removed. */
module FanOutDelivery {
  import opened FanOut
  import opened FanOutGaps

  // What came in

  /** The packets queued by the steps of a run. */
  function Queued(steps: seq<Step>): seq<Pack> {
    if steps == [] then [] else (if steps[0].QueueRTP? then [steps[0].pack] else []) + Queued(steps[1..])
  }

  /** Nothing that is queued is lost, and nothing else comes in. */
  lemma {:induction false} ArrivedExact(config: Config, s: State, steps: seq<Step>)
    requires Legal(config, s, steps)
    ensures After(config, s, steps).arrived == s.arrived + Queued(steps)
    decreases |steps|
  {
    hide Enabled, Cache;
    if steps != [] {
      ArrivedExact(config, Apply(config, s, steps[0]), steps[1..]);
    }
  }

  // While it is registered

  /** The player is registered, and has been given exactly the packets from `m` on, one by one. */
  predicate Serves(s: State, id: nat, m: int) {
    id in s.registered && id in s.players && Stretch(s.players[id].live, m, NextFor(s, id))
  }

  /** The positions from `lo` to `hi - 1`. */
  predicate Stretch(live: seq<nat>, lo: int, hi: int) {
    |live| == hi - lo && forall k | 0 <= k < |live| :: live[k] == lo + k
  }

  lemma RegisterServes(config: Config, s: State, id: nat)
    requires Inv(config, s) && Enabled(s, Register(id))
    ensures Serves(Apply(config, s, Register(id)), id, NextCopy(s))
  {
    hide PlayerInv, PusherInv, Wanted, Cache;
  }

  lemma ServesStep(config: Config, s: State, step: Step, id: nat, m: int)
    requires Inv(config, s) && Enabled(s, step) && Serves(s, id, m) && step != Remove(id)
    ensures Serves(Apply(config, s, step), id, m)
  {
    hide PlayerInv, Wanted, Cache;
  }

  lemma {:induction false} ServesRun(config: Config, s: State, steps: seq<Step>, id: nat, m: int)
    requires Inv(config, s) && Legal(config, s, steps) && Serves(s, id, m) && Remove(id) !in steps
    ensures Serves(After(config, s, steps), id, m)
    decreases |steps|
  {
    hide Inv, Enabled, Apply, Serves;
    if steps != [] {
      StepInv(config, s, steps[0]);
      ServesStep(config, s, steps[0], id, m);
      ServesRun(config, Apply(config, s, steps[0]), steps[1..], id, m);
    }
  }

  /** In every run, whatever the threads' interleaving: a player that has been registered and not removed
      got every packet whose broadcast to it is due, from the one on that the pusher had reached when it
      was registered. */
  lemma LiveExact(config: Config, before: seq<Step>, after: seq<Step>, id: nat)
    requires Legal(config, START, before + ([Register(id)] + after)) && Remove(id) !in after
    ensures Legal(config, START, before)
    ensures
      var s, t := After(config, START, before), After(config, START, before + ([Register(id)] + after));
      Serves(t, id, NextCopy(s)) && Served(t, id)
  {
    hide *;
    var steps := before + ([Register(id)] + after);
    var t := After(config, START, steps);
    AllLead(config, steps);
    StartInv(config);
    Parted(config, START, before, [Register(id)] + after, t);
    RunInv(config, START, before);
    var s := After(config, START, before);
    FirstOf(config, s, Register(id), after, t);
    StepInv(config, s, Register(id));
    RegisterServes(config, s, id);
    var s1 := Apply(config, s, Register(id));
    LeadsParts(config, s1, after, t);
    ServesRun(config, s1, after, id, NextCopy(s));
    IsServed(t, id, NextCopy(s));
  }

  lemma IsServed(s: State, id: nat, m: int)
    requires Serves(s, id, m)
    ensures Served(s, id) && id in s.players && Stretch(s.players[id].live, m, NextFor(s, id))
  {
  }

  // When it has been removed

  /** The player is not registered any more, and gets no packet whose broadcast begins at `m` or later. */
  predicate Dismissed(s: State, id: nat, m: int) {
    id !in s.registered && id in s.players && !s.players[id].stage.Copied?
    && (s.phase.Sending? && id in s.phase.left ==> s.phase.pos < m)
    && forall k | 0 <= k < |s.players[id].live| :: s.players[id].live[k] < m
  }

  lemma RemoveDismisses(config: Config, s: State, id: nat)
    requires Inv(config, s) && Enabled(s, Remove(id))
    ensures Dismissed(Apply(config, s, Remove(id)), id, NextCopy(s))
  {
    hide Wanted, PlayerInv, PusherInv, Cache;
    BelowNext(config, s, id);
  }

  lemma BelowNext(config: Config, s: State, id: nat)
    requires Inv(config, s) && id in s.registered
    ensures id in s.players && s.players[id].stage.Joined?
    ensures NextFor(s, id) <= NextCopy(s)
    ensures forall k | 0 <= k < |s.players[id].live| :: s.players[id].live[k] < NextFor(s, id)
  {
    hide Wanted, PusherInv, NextFor;
    assert PlayerInv(config, s, id);
    NextBelow(s, id);
  }

  lemma NextBelow(s: State, id: nat)
    ensures NextFor(s, id) <= NextCopy(s)
  {
  }

  lemma DismissedStep(config: Config, s: State, step: Step, id: nat, m: int)
    requires Inv(config, s) && Enabled(s, step) && Dismissed(s, id, m)
    ensures Dismissed(Apply(config, s, step), id, m)
  {
    hide PlayerInv, PusherInv, Wanted, Cache;
  }

  lemma {:induction false} DismissedRun(config: Config, s: State, steps: seq<Step>, id: nat, m: int)
    requires Inv(config, s) && Legal(config, s, steps) && Dismissed(s, id, m)
    ensures Dismissed(After(config, s, steps), id, m)
    decreases |steps|
  {
    hide Inv, Enabled, Apply, Dismissed;
    if steps != [] {
      StepInv(config, s, steps[0]);
      DismissedStep(config, s, steps[0], id, m);
      DismissedRun(config, Apply(config, s, steps[0]), steps[1..], id, m);
    }
  }

  /** A player that has been removed gets no packet whose broadcast had not begun by then. */
  lemma RemovedExact(config: Config, before: seq<Step>, after: seq<Step>, id: nat)
    requires Legal(config, START, before + ([Remove(id)] + after))
    ensures Legal(config, START, before)
    ensures
      var s, t := After(config, START, before), After(config, START, before + ([Remove(id)] + after));
      id in t.players && forall i <- t.players[id].live :: i < NextCopy(s)
  {
    hide *;
    var steps := before + ([Remove(id)] + after);
    var t := After(config, START, steps);
    AllLead(config, steps);
    StartInv(config);
    Parted(config, START, before, [Remove(id)] + after, t);
    RunInv(config, START, before);
    var s := After(config, START, before);
    FirstOf(config, s, Remove(id), after, t);
    StepInv(config, s, Remove(id));
    RemoveDismisses(config, s, id);
    var s1 := Apply(config, s, Remove(id));
    LeadsParts(config, s1, after, t);
    DismissedRun(config, s1, after, id, NextCopy(s));
    DismissedParts(t, id, NextCopy(s));
  }

  lemma DismissedParts(s: State, id: nat, m: int)
    requires Dismissed(s, id, m)
    ensures id in s.players && forall i <- s.players[id].live :: i < m
  {
  }

  // Catching up

  /** A step of the pusher's loop or of the player's. */
  predicate Own(step: Step, id: nat) {
    step.Take? || step.UpdateCache? || step.GetPlayers? || step.Deliver? || step.Finish? || step == Send(id)
  }

  predicate AllOwn(steps: seq<Step>, id: nat) {
    forall k | 0 <= k < |steps| :: Own(steps[k], id)
  }

  /** How much the pusher has still to do. */
  function Rank(phase: Phase): nat {
    match phase
    case Waiting => 0
    case Sending(_, _) => 1
    case Cached(_) => 2
    case Holding(_) => 3
  }

  function Left(phase: Phase): nat {
    if phase.Sending? then |phase.left| else 0
  }

  /** A pusher that is not done has an enabled step, which brings it closer to the end. */
  lemma PusherStep(config: Config, s: State) returns (step: Step)
    requires Inv(config, s) && !(s.phase.Waiting? && s.queue == [])
    ensures Enabled(s, step)
    ensures step.Take? || step.UpdateCache? || step.GetPlayers? || step.Deliver? || step.Finish?
    ensures
      var t := Apply(config, s, step);
      |t.queue| < |s.queue|
      || (|t.queue| == |s.queue|
          && (Rank(t.phase) < Rank(s.phase) || (Rank(t.phase) == Rank(s.phase) && Left(t.phase) < Left(s.phase))))
  {
    hide PlayerInv, Wanted, Cache;
    match s.phase
    case Waiting => step := Take;
    case Holding(_) => step := UpdateCache;
    case Cached(_) => step := GetPlayers;
    case Sending(_, left) =>
      if left == {} {
        step := Finish;
      } else {
        var id :| id in left;
        step := Deliver(id);
      }
  }

  /** The pusher can always finish its queue. */
  lemma {:induction false} PusherDrains(config: Config, s: State, id: nat) returns (steps: seq<Step>)
    requires Inv(config, s)
    ensures Legal(config, s, steps) && AllOwn(steps, id)
    ensures var t := After(config, s, steps); t.phase.Waiting? && t.queue == []
    decreases |s.queue|, Rank(s.phase), Left(s.phase)
  {
    hide Inv, Enabled, Apply, Rank, Left;
    if s.phase.Waiting? && s.queue == [] {
      steps := [];
    } else {
      var step := PusherStep(config, s);
      StepInv(config, s, step);
      var rest := PusherDrains(config, Apply(config, s, step), id);
      Prepended(config, s, step, rest);
      steps := [step] + rest;
    }
  }

  lemma Prepended(config: Config, s: State, step: Step, rest: seq<Step>)
    requires Enabled(s, step) && Legal(config, Apply(config, s, step), rest)
    ensures Legal(config, s, [step] + rest)
    ensures After(config, s, [step] + rest) == After(config, Apply(config, s, step), rest)
  {
    hide Enabled, Apply;
    assert ([step] + rest)[1..] == rest;
  }

  /** A player can always send what it holds. */
  lemma {:induction false} PlayerDrains(config: Config, s: State, id: nat) returns (steps: seq<Step>)
    requires Inv(config, s) && id in s.players && !s.players[id].stage.Copied?
    ensures Legal(config, s, steps) && AllOwn(steps, id)
    ensures var t := After(config, s, steps); id in t.players && t.players[id].queue == []
    ensures var t := After(config, s, steps); t.phase == s.phase && t.queue == s.queue
    decreases |s.players[id].queue|
  {
    hide Inv;
    if s.players[id].queue == [] {
      steps := [];
    } else {
      StepInv(config, s, Send(id));
      var rest := PlayerDrains(config, Apply(config, s, Send(id)), id);
      Prepended(config, s, Send(id), rest);
      steps := [Send(id)] + rest;
    }
  }

  lemma {:induction false} Joined(config: Config, s: State, a: seq<Step>, b: seq<Step>)
    requires Legal(config, s, a) && Legal(config, After(config, s, a), b)
    ensures Legal(config, s, a + b) && After(config, s, a + b) == After(config, After(config, s, a), b)
    decreases |a|
  {
    hide Enabled, Apply;
    if a == [] {
      assert a + b == b;
    } else {
      Joined(config, Apply(config, s, a[0]), a[1..], b);
      assert a + b == [a[0]] + (a[1..] + b);
    }
  }

  /** Nothing is ever stuck: from every state of every run the pusher and a registered player can go on until
      the player has sent its copy of the cache and every packet that has come in since it was registered. */
  lemma CatchesUp(config: Config, before: seq<Step>, after: seq<Step>, id: nat) returns (more: seq<Step>)
    requires Legal(config, START, before + ([Register(id)] + after)) && Remove(id) !in after
    ensures Legal(config, START, before) && AllOwn(more, id)
    ensures Legal(config, START, before + ([Register(id)] + (after + more)))
    ensures
      var s, t := After(config, START, before), After(config, START, before + ([Register(id)] + (after + more)));
      t.arrived == Queued(before + ([Register(id)] + after)) && id in t.players
      && var p := t.players[id];
        p.sent == p.copied + p.live && Stretch(p.live, NextCopy(s), |t.arrived|)
  {
    hide *;
    var steps := before + ([Register(id)] + after);
    StartInv(config);
    RunInv(config, START, steps);
    var s := After(config, START, steps);
    var a := PusherDrains(config, s, id);
    RunInv(config, s, a);
    var s1 := After(config, s, a);
    LiveExact(config, before, after, id);
    var m := NextCopy(After(config, START, before));
    OwnKeeps(a, id);
    ServesRun(config, s, a, id, m);
    ServesJoined(config, s1, id, m);
    var b := PlayerDrains(config, s1, id);
    more := a + b;
    OwnTogether(a, b, id);
    OwnKeeps(more, id);
    Joined(config, s, a, b);
    Joined(config, START, steps, more);
    assert steps + more == before + ([Register(id)] + (after + more));
    OwnAfter(after, more, id);
    LiveExact(config, before, after + more, id);
    ArrivedExact(config, START, steps);
    ArrivedExact(config, s, more);
    OwnQueuesNothing(more, id);
    RunInv(config, START, steps + more);
    AllSent(config, After(config, START, steps + more), id, m);
    StartEmpty(Queued(steps));
  }

  lemma StartEmpty(queued: seq<Pack>)
    ensures START.arrived + queued == queued && queued + [] == queued
  {
  }

  lemma OwnTogether(a: seq<Step>, b: seq<Step>, id: nat)
    requires AllOwn(a, id) && AllOwn(b, id)
    ensures AllOwn(a + b, id)
  {
  }

  lemma OwnKeeps(steps: seq<Step>, id: nat)
    requires AllOwn(steps, id)
    ensures Remove(id) !in steps
  {
  }

  lemma OwnAfter(after: seq<Step>, more: seq<Step>, id: nat)
    requires Remove(id) !in after && Remove(id) !in more
    ensures Remove(id) !in after + more
  {
  }

  lemma {:induction false} OwnQueuesNothing(steps: seq<Step>, id: nat)
    requires AllOwn(steps, id)
    ensures Queued(steps) == []
  {
    if steps != [] {
      assert Own(steps[0], id);
      assert forall k | 0 <= k < |steps| - 1 :: steps[1..][k] == steps[k + 1];
      OwnQueuesNothing(steps[1..], id);
    }
  }

  lemma ServesJoined(config: Config, s: State, id: nat, m: int)
    requires Inv(config, s) && Serves(s, id, m)
    ensures id in s.players && !s.players[id].stage.Copied?
  {
    hide PlayerInv, PusherInv;
  }

  lemma AllSent(config: Config, s: State, id: nat, m: int)
    requires Inv(config, s) && Serves(s, id, m) && s.phase.Waiting? && s.queue == [] && s.players[id].queue == []
    ensures
      var p := s.players[id];
      p.sent == p.copied + p.live && Stretch(p.live, m, |s.arrived|)
  {
    hide Wanted;
    assert PlayerInv(config, s, id);
  }
}
