/** What a joining player misses: the packets broadcast after it got the cache and before it is registered. */
module FanOutGaps {
  import opened Bytes
  import opened FanOut

  /** The packet whose broadcast begins with the next copy of the map of players. */
  function NextCopy(s: State): int {
    match s.phase
    case Waiting => Taken(s)
    case Holding(pos) => pos
    case Cached(pos) => pos
    case Sending(pos, _) => pos + 1
  }

  function Copies(steps: seq<Step>): nat {
    if steps == [] then 0 else (if steps[0].GetPlayers? then 1 else 0) + Copies(steps[1..])
  }

  lemma NextCopyStep(config: Config, s: State, step: Step)
    requires Inv(config, s) && Enabled(s, step)
    ensures NextCopy(Apply(config, s, step)) == NextCopy(s) + if step.GetPlayers? then 1 else 0
  {
    hide PlayerInv, Wanted, Cache;
  }

  lemma {:induction false} NextCopyRun(config: Config, s: State, steps: seq<Step>)
    requires Inv(config, s) && Legal(config, s, steps)
    ensures NextCopy(After(config, s, steps)) == NextCopy(s) + Copies(steps)
    decreases |steps|
  {
    hide Inv, Enabled, Apply, NextCopy;
    if steps != [] {
      StepInv(config, s, steps[0]);
      NextCopyStep(config, s, steps[0]);
      NextCopyRun(config, Apply(config, s, steps[0]), steps[1..]);
    }
  }

  // Before it is registered

  /** The player has its cache and nothing else. */
  predicate Joining(s: State, id: nat, at: nat) {
    id in s.players && s.players[id].stage.Copied? && s.players[id].at == at
  }

  lemma JoiningStep(config: Config, s: State, step: Step, id: nat, at: nat)
    requires Inv(config, s) && Enabled(s, step) && Joining(s, id, at) && step != Register(id)
    ensures Joining(Apply(config, s, step), id, at)
  {
    hide PlayerInv, PusherInv, Wanted, Cache;
  }

  lemma {:induction false} JoiningRun(config: Config, s: State, steps: seq<Step>, id: nat, at: nat)
    requires Inv(config, s) && Legal(config, s, steps) && Joining(s, id, at)
    requires forall k | 0 <= k < |steps| :: steps[k] != Register(id)
    ensures Joining(After(config, s, steps), id, at)
    decreases |steps|
  {
    hide Inv, Enabled, Apply, Joining;
    if steps != [] {
      StepInv(config, s, steps[0]);
      JoiningStep(config, s, steps[0], id, at);
      JoiningRun(config, Apply(config, s, steps[0]), steps[1..], id, at);
    }
  }

  // Afterwards

  /** The player's first live packet is or will be the one at `m`. */
  predicate Begins(s: State, id: nat, at: nat, m: int) {
    id in s.players && !s.players[id].stage.Copied? && s.players[id].at == at
    && if s.players[id].live != [] then s.players[id].live[0] == m else Served(s, id) ==> NextFor(s, id) == m
  }

  lemma RegisterBegins(config: Config, s: State, id: nat, at: nat)
    requires Inv(config, s) && Enabled(s, Register(id)) && Joining(s, id, at)
    ensures Begins(Apply(config, s, Register(id)), id, at, NextCopy(s))
  {
    hide PlayerInv, PusherInv, Wanted, Cache;
  }

  lemma BeginsStep(config: Config, s: State, step: Step, id: nat, at: nat, m: int)
    requires Inv(config, s) && Enabled(s, step) && Begins(s, id, at, m)
    ensures Begins(Apply(config, s, step), id, at, m)
  {
    hide PlayerInv, Wanted, Cache;
  }

  lemma {:induction false} BeginsRun(config: Config, s: State, steps: seq<Step>, id: nat, at: nat, m: int)
    requires Inv(config, s) && Legal(config, s, steps) && Begins(s, id, at, m)
    ensures Begins(After(config, s, steps), id, at, m)
    decreases |steps|
  {
    hide Inv, Enabled, Apply, Begins;
    if steps != [] {
      StepInv(config, s, steps[0]);
      BeginsStep(config, s, steps[0], id, at, m);
      BeginsRun(config, Apply(config, s, steps[0]), steps[1..], id, at, m);
    }
  }

  // Whole runs

  /** `steps` are possible in `s` and lead to `t`. */
  predicate Leads(config: Config, s: State, steps: seq<Step>, t: State) {
    Legal(config, s, steps) && After(config, s, steps) == t
  }

  lemma FirstOf(config: Config, s: State, step: Step, rest: seq<Step>, t: State)
    requires Leads(config, s, [step] + rest, t)
    ensures Enabled(s, step) && Leads(config, Apply(config, s, step), rest, t)
  {
    hide Enabled, Apply;
    var steps := [step] + rest;
    assert steps[0] == step && steps[1..] == rest;
  }

  lemma {:induction false} Parted(config: Config, s: State, a: seq<Step>, b: seq<Step>, t: State)
    requires Leads(config, s, a + b, t)
    ensures Legal(config, s, a) && Leads(config, After(config, s, a), b, t)
    decreases |a|
  {
    hide Enabled, Apply;
    if a == [] {
      assert a + b == b;
    } else {
      assert a + b == [a[0]] + (a[1..] + b);
      FirstOf(config, s, a[0], a[1..] + b, t);
      Parted(config, Apply(config, s, a[0]), a[1..], b, t);
    }
  }

  /** How far behind the copied part of the stream the first live packet may be: the last cached packet
      can come once more if its broadcast has not begun. */
  function Again(s: State): nat {
    if s.phase.Cached? then 1 else 0
  }

  lemma CopyJoins(config: Config, s: State, id: nat)
    requires Inv(config, s) && Enabled(s, CopyCache(id))
    ensures 0 <= Seen(s) && Joining(Apply(config, s, CopyCache(id)), id, Seen(s))
    ensures NextCopy(Apply(config, s, CopyCache(id))) == NextCopy(s) == Seen(s) - Again(s)
  {
    hide PlayerInv, Wanted, Cache;
  }

  /** In every run: a player that copies the cache, is registered later and then gets packets gets them
      from the packet on that the pusher had reached when it was registered. It misses one for every map
      copied in between, but one that was already in the cache. */
  lemma FirstLive(config: Config, before: seq<Step>, between: seq<Step>, after: seq<Step>, id: nat)
    requires Legal(config, START, before + ([CopyCache(id)] + (between + ([Register(id)] + after))))
    requires forall k | 0 <= k < |between| :: between[k] != Register(id)
    ensures Legal(config, START, before)
    ensures
      var s := After(config, START, before);
      var t := After(config, START, before + ([CopyCache(id)] + (between + ([Register(id)] + after))));
      0 <= Seen(s) && id in t.players && t.players[id].at == Seen(s)
      && (t.players[id].live != [] ==> t.players[id].live[0] == Seen(s) - Again(s) + Copies(between))
  {
    hide *;
    var steps := before + ([CopyCache(id)] + (between + ([Register(id)] + after)));
    var t := After(config, START, steps);
    AllLead(config, steps);
    StartInv(config);
    Parted(config, START, before, [CopyCache(id)] + (between + ([Register(id)] + after)), t);
    RunInv(config, START, before);
    var s := After(config, START, before);
    FirstOf(config, s, CopyCache(id), between + ([Register(id)] + after), t);
    StepInv(config, s, CopyCache(id));
    CopyJoins(config, s, id);
    var at := Seen(s);
    var s1 := Apply(config, s, CopyCache(id));
    Parted(config, s1, between, [Register(id)] + after, t);
    RunInv(config, s1, between);
    NextCopyRun(config, s1, between);
    JoiningRun(config, s1, between, id, at);
    var s2 := After(config, s1, between);
    FirstOf(config, s2, Register(id), after, t);
    StepInv(config, s2, Register(id));
    RegisterBegins(config, s2, id, at);
    var s3 := Apply(config, s2, Register(id));
    LeadsParts(config, s3, after, t);
    BeginsRun(config, s3, after, id, at, NextCopy(s2));
    BeginsParts(t, id, at, NextCopy(s2));
  }

  lemma AllLead(config: Config, steps: seq<Step>)
    requires Legal(config, START, steps)
    ensures Leads(config, START, steps, After(config, START, steps))
  {
  }

  lemma LeadsParts(config: Config, s: State, steps: seq<Step>, t: State)
    requires Leads(config, s, steps, t)
    ensures Legal(config, s, steps) && After(config, s, steps) == t
  {
  }

  lemma BeginsParts(s: State, id: nat, at: nat, m: int)
    requires Begins(s, id, at, m)
    ensures id in s.players && s.players[id].at == at && (s.players[id].live != [] ==> s.players[id].live[0] == m)
  {
  }

  /** And what it misses it never gets. */
  lemma Missed(config: Config, steps: seq<Step>, id: nat, i: nat)
    requires Legal(config, START, steps) && id in After(config, START, steps).players
    requires
      var p := After(config, START, steps).players[id];
      p.live != [] && p.at <= i < p.live[0]
    ensures i !in Given(After(config, START, steps).players[id])
  {
    StartInv(config);
    RunInv(config, START, steps);
    hide Legal, After, Served, NextFor, PusherInv;
    var s := After(config, START, steps);
    assert PlayerInv(config, s, id);
    Increasing(config, s.arrived, s.players[id].at);
  }
}
