/** One pusher, its GOP cache and any number of players: the threads of `rtsp/pusher.go` and
    `rtsp/player.go` as a state machine whose steps are the sections under one lock. Packets are
    shared by reference in the source; here they are named by their position among all packets queued. */
module FanOut {
  import opened Bytes
  import opened RtspRtp

  datatype Pack = Pack(video: bool, bytes: seq<byte>)
  datatype Codec = H264 | H265 | Other
  datatype Config = Config(gopCacheEnable: bool, codec: Codec)

  /** The pusher's loop: waiting, holding a packet, having cached it, or queueing it to the players
      of the copy it took of its map, of whom `left` are still to come. */
  datatype Phase = Waiting | Holding(pos: nat) | Cached(pos: nat) | Sending(pos: nat, left: set<nat>)

  datatype Stage = Copied | Joined | Left

  /** A player: its queue, what it has sent, and three histories: the length of the stream when the
      cache was copied to it, what it got from the cache, and what it got live. */
  datatype Player = Player(stage: Stage, queue: seq<nat>, sent: seq<nat>, at: nat, copied: seq<nat>, live: seq<nat>)

  datatype State = State(
    arrived: seq<Pack>, queue: seq<nat>, cache: seq<nat>, phase: Phase, registered: set<nat>, players: map<nat, Player>)

  const START := State([], [], [], Waiting, {}, map[])

  datatype Step =
    | QueueRTP(pack: Pack) | Take | UpdateCache | GetPlayers | Deliver(id: nat) | Finish
    | CopyCache(id: nat) | Register(id: nat) | Remove(id: nat) | Send(id: nat)

  predicate IsKey(pack: Pack, codec: Codec) {
    pack.video
    && match Payload(pack.bytes)
       case None => false
       case Some(payload) =>
         match codec
         case H264 => IsKeyframeStart(payload)
         case H265 => IsKeyframeStartH265(payload)
         case Other => false
  }

  /** Which video packets start the cache anew, from the parts of a packet: those whose payload starts a key frame
      of the codec. */
  lemma KeyPacketExact(p: Parts, codec: Codec)
    requires WellFormed(p) && !codec.Other?
    ensures !IsKey(Pack(false, Assemble(p)), codec)
    ensures
      var payload := p.payload;
      IsKey(Pack(true, Assemble(p)), codec) <==>
        if codec.H264? then
          |payload| >= 2 && payload[0] / 128 == 0 && payload[0] / 32 % 4 == 3 && payload[0] % 32 == 28
          && payload[1] / 32 == 4 && payload[1] % 32 in {5, 7}
        else
          |payload| >= 3 && (payload[0] / 2 == 49 || payload[0] / 2 == 64 + 49) && payload[2] >= 128
          && (19 <= payload[2] % 64 <= 21 || 32 <= payload[2] % 64 <= 34)
  {
    PayloadFound(p);
    KeyframeStartExact(p.payload);
    KeyframeStartH265Exact(p.payload);
    hide Payload, Assemble, IsKeyframeStart, IsKeyframeStartH265;
  }

  /** A packet without a whole header starts none. */
  lemma KeyNeedsHeader(pack: Pack, codec: Codec)
    ensures IsKey(pack, codec) ==> pack.video && |pack.bytes| >= 12 && !codec.Other?
  {
    hide IsKeyframeStart, IsKeyframeStartH265;
  }

  predicate Enabled(s: State, step: Step) {
    match step
    case QueueRTP(_) => true
    case Take => s.phase.Waiting? && s.queue != []
    case UpdateCache => s.phase.Holding? && s.phase.pos < |s.arrived|
    case GetPlayers => s.phase.Cached?
    case Deliver(id) => s.phase.Sending? && id in s.phase.left && id in s.players
    case Finish => s.phase.Sending? && s.phase.left == {}
    case CopyCache(id) => id !in s.players
    case Register(id) => id in s.players && s.players[id].stage.Copied?
    case Remove(id) => id in s.registered && id in s.players
    case Send(id) => id in s.players && !s.players[id].stage.Copied? && s.players[id].queue != []
  }

  /** The cache after the packet at `pos`: a key frame starts it anew. */
  function Cache(config: Config, cache: seq<nat>, pack: Pack, pos: nat): seq<nat> {
    if !config.gopCacheEnable || !pack.video || config.codec.Other? then cache
    else if IsKey(pack, config.codec) then [pos]
    else cache + [pos]
  }

  function Apply(config: Config, s: State, step: Step): State
    requires Enabled(s, step)
  {
    match step
    case QueueRTP(pack) => s.(arrived := s.arrived + [pack], queue := s.queue + [|s.arrived|])
    case Take => s.(phase := Holding(s.queue[0]), queue := s.queue[1..])
    case UpdateCache =>
      s.(cache := Cache(config, s.cache, s.arrived[s.phase.pos], s.phase.pos), phase := Cached(s.phase.pos))
    case GetPlayers => s.(phase := Sending(s.phase.pos, s.registered))
    case Deliver(id) =>
      var p := s.players[id];
      s.(phase := Sending(s.phase.pos, s.phase.left - {id}),
         players := s.players[id := p.(queue := p.queue + [s.phase.pos], live := p.live + [s.phase.pos])])
    case Finish => s.(phase := Waiting)
    case CopyCache(id) =>
      var copied := if config.gopCacheEnable then s.cache else [];
      s.(players := s.players[id := Player(Copied, copied, [], if Seen(s) < 0 then 0 else Seen(s), copied, [])])
    case Register(id) =>
      s.(registered := s.registered + {id}, players := s.players[id := s.players[id].(stage := Joined)])
    case Remove(id) =>
      s.(registered := s.registered - {id}, players := s.players[id := s.players[id].(stage := Left)])
    case Send(id) =>
      var p := s.players[id];
      s.(players := s.players[id := p.(queue := p.queue[1..], sent := p.sent + [p.queue[0]])])
  }

  /** How many packets the pusher has taken, and how many it has cached. */
  function Taken(s: State): int {
    |s.arrived| - |s.queue|
  }

  function Seen(s: State): int {
    if s.phase.Holding? then Taken(s) - 1 else Taken(s)
  }

  // What the cache should hold

  /** Where the last key frame among the first `n` packets starts; 0 if there is none yet. */
  function LastKey(arrived: seq<Pack>, codec: Codec, n: nat): (k: nat)
    requires n <= |arrived|
    ensures k <= n
  {
    if n == 0 then 0 else if IsKey(arrived[n - 1], codec) then n - 1 else LastKey(arrived, codec, n - 1)
  }

  /** The video packets from `lo` to `hi - 1`. */
  function VideoFrom(arrived: seq<Pack>, lo: nat, hi: nat): (r: seq<nat>)
    requires hi <= |arrived|
    ensures forall k | 0 <= k < |r| :: lo <= r[k] < hi
    ensures forall j, k | 0 <= j < k < |r| :: r[j] < r[k]
    decreases hi
  {
    if hi <= lo then []
    else VideoFrom(arrived, lo, hi - 1) + if arrived[hi - 1].video then [hi - 1] else []
  }

  function Wanted(config: Config, arrived: seq<Pack>, n: nat): (r: seq<nat>)
    requires n <= |arrived|
  {
    if !config.gopCacheEnable || config.codec.Other? then []
    else VideoFrom(arrived, LastKey(arrived, config.codec, n), n)
  }

  /** The definition of `Wanted` says what it should: all video packets from the last key frame on. */
  lemma {:induction false} LastKeyExact(arrived: seq<Pack>, codec: Codec, n: nat)
    requires n <= |arrived|
    ensures var k := LastKey(arrived, codec, n);
      (forall i | k < i < n :: !IsKey(arrived[i], codec))
      && ((k < n && IsKey(arrived[k], codec)) || (k == 0 && forall i | 0 <= i < n :: !IsKey(arrived[i], codec)))
  {
    if n > 0 {
      LastKeyExact(arrived, codec, n - 1);
    }
  }

  lemma {:induction false} VideoFromExact(arrived: seq<Pack>, lo: nat, hi: nat, i: nat)
    requires hi <= |arrived|
    ensures i in VideoFrom(arrived, lo, hi) <==> lo <= i < hi && arrived[i].video
    decreases hi
  {
    if hi > lo {
      VideoFromExact(arrived, lo, hi - 1, i);
    }
  }

  /** Caching one more packet keeps the cache as wanted. */
  lemma WantedStep(config: Config, arrived: seq<Pack>, n: nat)
    requires n < |arrived|
    ensures Wanted(config, arrived, n + 1) == Cache(config, Wanted(config, arrived, n), arrived[n], n)
  {
    hide IsKey;
    if IsKey(arrived[n], config.codec) {
      assert arrived[n].video by {
        KeysAreVideo(arrived[n], config.codec);
      }
      assert VideoFrom(arrived, n, n) == [];
    }
  }

  lemma KeysAreVideo(pack: Pack, codec: Codec)
    requires IsKey(pack, codec)
    ensures pack.video
  {
  }

  lemma {:induction false} LastKeyMore(arrived: seq<Pack>, pack: Pack, codec: Codec, n: nat)
    requires n <= |arrived|
    ensures LastKey(arrived + [pack], codec, n) == LastKey(arrived, codec, n)
  {
    if n > 0 {
      LastKeyMore(arrived, pack, codec, n - 1);
    }
  }

  lemma {:induction false} VideoMore(arrived: seq<Pack>, pack: Pack, lo: nat, hi: nat)
    requires hi <= |arrived|
    ensures VideoFrom(arrived + [pack], lo, hi) == VideoFrom(arrived, lo, hi)
    decreases hi
  {
    if hi > lo {
      VideoMore(arrived, pack, lo, hi - 1);
    }
  }

  lemma WantedMore(config: Config, arrived: seq<Pack>, pack: Pack, n: nat)
    requires n <= |arrived|
    ensures Wanted(config, arrived + [pack], n) == Wanted(config, arrived, n)
  {
    LastKeyMore(arrived, pack, config.codec, n);
    VideoMore(arrived, pack, LastKey(arrived, config.codec, n), n);
  }

  // What every state satisfies

  /** The pusher's side: its queue holds what it has not taken, its cache what is wanted. */
  predicate PusherInv(config: Config, s: State) {
    0 <= Seen(s) && Taken(s) <= |s.arrived|
    && (forall k | 0 <= k < |s.queue| :: s.queue[k] == Taken(s) + k)
    && (!s.phase.Waiting? ==> s.phase.pos + 1 == Taken(s))
    && s.cache == Wanted(config, s.arrived, Seen(s))
  }

  /** The position that the player will get next, if it stays. */
  function NextFor(s: State, id: nat): int {
    match s.phase
    case Waiting => Taken(s)
    case Holding(pos) => pos
    case Cached(pos) => pos
    case Sending(pos, left) => if id in left then pos else pos + 1
  }

  /** The player will get another packet, unless it leaves. */
  predicate Served(s: State, id: nat) {
    id in s.registered || (s.phase.Sending? && id in s.phase.left)
  }

  /** A player's side: what it sent and what it still holds is what it was given: the cache as it was
      when copied, then packets one after the other without a gap. */
  predicate PlayerInv(config: Config, s: State, id: nat)
    requires id in s.players
  {
    var p := s.players[id];
    p.sent + p.queue == p.copied + p.live
    && p.at <= |s.arrived| && p.at <= NextFor(s, id) + 1
    && p.copied == Wanted(config, s.arrived, p.at)
    && (forall k | 0 <= k < |p.live| :: p.live[k] == p.live[0] + k)
    && (p.live != [] ==> p.at <= p.live[0] + 1)
    && (p.live != [] && Served(s, id) ==> p.live[|p.live| - 1] + 1 == NextFor(s, id))
  }

  predicate Inv(config: Config, s: State) {
    PusherInv(config, s)
    && (forall id | id in s.players :: PlayerInv(config, s, id))
    && (forall id | id in s.registered :: id in s.players && s.players[id].stage.Joined?)
    && (s.phase.Sending? ==> forall id | id in s.phase.left :: id in s.players && !s.players[id].stage.Copied?)
    && (forall id | id in s.players && s.players[id].stage.Copied? :: s.players[id].live == [])
  }

  /** A player that a step does not touch keeps its invariant, if what it gets next stays the same. */
  lemma PlayerKept(config: Config, s: State, t: State, id: nat)
    requires id in s.players && id in t.players && t.players[id] == s.players[id] && PlayerInv(config, s, id)
    requires t.arrived == s.arrived || (t.arrived != [] && s.arrived == t.arrived[..|t.arrived| - 1])
    requires NextFor(s, id) <= NextFor(t, id)
    requires s.players[id].live != [] && Served(t, id) ==> Served(s, id) && NextFor(s, id) == NextFor(t, id)
    ensures PlayerInv(config, t, id)
  {
    hide NextFor, Served, Wanted;
    if t.arrived != s.arrived {
      var pack := t.arrived[|t.arrived| - 1];
      assert t.arrived == s.arrived + [pack];
      WantedMore(config, s.arrived, pack, s.players[id].at);
    }
  }

  lemma QueueInv(config: Config, s: State, pack: Pack)
    requires Inv(config, s)
    ensures Inv(config, Apply(config, s, QueueRTP(pack)))
  {
    hide Wanted, PlayerInv;
    var t := Apply(config, s, QueueRTP(pack));
    WantedMore(config, s.arrived, pack, Seen(s));
    assert s.arrived == t.arrived[..|t.arrived| - 1];
    forall id | id in t.players
      ensures PlayerInv(config, t, id)
    {
      PlayerKept(config, s, t, id);
    }
  }

  lemma TakeInv(config: Config, s: State)
    requires Inv(config, s) && Enabled(s, Take)
    ensures Inv(config, Apply(config, s, Take))
  {
    hide Wanted, PlayerInv;
    var t := Apply(config, s, Take);
    forall id | id in t.players
      ensures PlayerInv(config, t, id)
    {
      PlayerKept(config, s, t, id);
    }
  }

  lemma CacheInv(config: Config, s: State)
    requires Inv(config, s) && Enabled(s, UpdateCache)
    ensures Inv(config, Apply(config, s, UpdateCache))
  {
    hide Wanted, PlayerInv, Cache;
    var t := Apply(config, s, UpdateCache);
    WantedStep(config, s.arrived, s.phase.pos);
    forall id | id in t.players
      ensures PlayerInv(config, t, id)
    {
      PlayerKept(config, s, t, id);
    }
  }

  lemma GetPlayersInv(config: Config, s: State)
    requires Inv(config, s) && Enabled(s, GetPlayers)
    ensures Inv(config, Apply(config, s, GetPlayers))
  {
    hide Wanted, PlayerInv;
    var t := Apply(config, s, GetPlayers);
    forall id | id in t.players
      ensures PlayerInv(config, t, id)
    {
      PlayerKept(config, s, t, id);
    }
  }

  lemma FinishInv(config: Config, s: State)
    requires Inv(config, s) && Enabled(s, Finish)
    ensures Inv(config, Apply(config, s, Finish))
  {
    hide Wanted, PlayerInv;
    var t := Apply(config, s, Finish);
    forall id | id in t.players
      ensures PlayerInv(config, t, id)
    {
      PlayerKept(config, s, t, id);
    }
  }

  lemma OthersKept(config: Config, s: State, t: State, id: nat)
    requires Inv(config, s) && t.players.Keys == s.players.Keys + {id} && t.arrived == s.arrived
    requires forall i | i in s.players && i != id ::
      t.players[i] == s.players[i] && NextFor(s, i) == NextFor(t, i) && (Served(t, i) ==> Served(s, i))
    ensures forall i | i in t.players && i != id :: PlayerInv(config, t, i)
  {
    hide Wanted, PlayerInv, PusherInv, NextFor, Served;
    forall i | i in t.players && i != id
      ensures PlayerInv(config, t, i)
    {
      PlayerKept(config, s, t, i);
    }
  }

  lemma DeliverOwn(config: Config, s: State, id: nat)
    requires Inv(config, s) && Enabled(s, Deliver(id))
    ensures PlayerInv(config, Apply(config, s, Deliver(id)), id)
  {
    hide Wanted, PusherInv;
    var p, pos := s.players[id], s.phase.pos;
    assert PlayerInv(config, s, id);
    ConcatAssociative(p.sent, p.queue, [pos]);
    ConcatAssociative(p.copied, p.live, [pos]);
  }

  lemma DeliverInv(config: Config, s: State, id: nat)
    requires Inv(config, s) && Enabled(s, Deliver(id))
    ensures Inv(config, Apply(config, s, Deliver(id)))
  {
    hide Wanted, PlayerInv;
    DeliverOwn(config, s, id);
    OthersKept(config, s, Apply(config, s, Deliver(id)), id);
  }

  lemma CopyOwn(config: Config, s: State, id: nat)
    requires Inv(config, s) && Enabled(s, CopyCache(id))
    ensures PlayerInv(config, Apply(config, s, CopyCache(id)), id)
  {
    hide Wanted;
    NoCache(config, s.arrived, Seen(s));
  }

  lemma CopyInv(config: Config, s: State, id: nat)
    requires Inv(config, s) && Enabled(s, CopyCache(id))
    ensures Inv(config, Apply(config, s, CopyCache(id)))
  {
    hide Wanted, PlayerInv;
    CopyOwn(config, s, id);
    OthersKept(config, s, Apply(config, s, CopyCache(id)), id);
  }

  lemma NoCache(config: Config, arrived: seq<Pack>, n: nat)
    requires n <= |arrived|
    ensures !config.gopCacheEnable ==> Wanted(config, arrived, n) == []
  {
  }

  lemma RegisterInv(config: Config, s: State, id: nat)
    requires Inv(config, s) && Enabled(s, Register(id))
    ensures Inv(config, Apply(config, s, Register(id)))
  {
    hide Wanted, PlayerInv;
    var t := Apply(config, s, Register(id));
    StageOwn(config, s, t, id);
    OthersKept(config, s, t, id);
  }

  lemma StageOwn(config: Config, s: State, t: State, id: nat)
    requires id in s.players && PlayerInv(config, s, id) && t.arrived == s.arrived && id in t.players
    requires t.players[id] == s.players[id].(stage := t.players[id].stage) && NextFor(t, id) == NextFor(s, id)
    requires s.players[id].live != [] && Served(t, id) ==> Served(s, id)
    ensures PlayerInv(config, t, id)
  {
    hide Wanted, NextFor, Served;
  }

  lemma RemoveInv(config: Config, s: State, id: nat)
    requires Inv(config, s) && Enabled(s, Remove(id))
    ensures Inv(config, Apply(config, s, Remove(id)))
  {
    hide Wanted, PlayerInv;
    var t := Apply(config, s, Remove(id));
    StageOwn(config, s, t, id);
    OthersKept(config, s, t, id);
  }

  lemma SendOwn(config: Config, s: State, id: nat)
    requires id in s.players && PlayerInv(config, s, id) && Enabled(s, Send(id))
    ensures PlayerInv(config, Apply(config, s, Send(id)), id)
  {
    hide Wanted;
    var p, t := s.players[id], Apply(config, s, Send(id));
    SentPlusQueue(p.sent, p.queue);
    assert NextFor(t, id) == NextFor(s, id);
  }

  lemma SentPlusQueue(sent: seq<nat>, queue: seq<nat>)
    requires queue != []
    ensures sent + [queue[0]] + queue[1..] == sent + queue
  {
  }

  lemma SendInv(config: Config, s: State, id: nat)
    requires Inv(config, s) && Enabled(s, Send(id))
    ensures Inv(config, Apply(config, s, Send(id)))
  {
    hide Wanted, PlayerInv;
    var t := Apply(config, s, Send(id));
    SendOwn(config, s, id);
    OthersKept(config, s, t, id);
  }

  /** Every step of every thread keeps the invariant. */
  lemma StepInv(config: Config, s: State, step: Step)
    requires Inv(config, s) && Enabled(s, step)
    ensures Inv(config, Apply(config, s, step))
  {
    hide Inv, Apply;
    match step
    case QueueRTP(pack) => QueueInv(config, s, pack);
    case Take => TakeInv(config, s);
    case UpdateCache => CacheInv(config, s);
    case GetPlayers => GetPlayersInv(config, s);
    case Deliver(id) => DeliverInv(config, s, id);
    case Finish => FinishInv(config, s);
    case CopyCache(id) => CopyInv(config, s, id);
    case Register(id) => RegisterInv(config, s, id);
    case Remove(id) => RemoveInv(config, s, id);
    case Send(id) => SendInv(config, s, id);
  }

  // Every run

  predicate Legal(config: Config, s: State, steps: seq<Step>)
    decreases |steps|
  {
    steps == [] || (Enabled(s, steps[0]) && Legal(config, Apply(config, s, steps[0]), steps[1..]))
  }

  function After(config: Config, s: State, steps: seq<Step>): State
    requires Legal(config, s, steps)
    decreases |steps|
  {
    if steps == [] then s else After(config, Apply(config, s, steps[0]), steps[1..])
  }

  lemma {:induction false} RunInv(config: Config, s: State, steps: seq<Step>)
    requires Inv(config, s) && Legal(config, s, steps)
    ensures Inv(config, After(config, s, steps))
    decreases |steps|
  {
    hide Inv, Apply, Enabled;
    if steps != [] {
      StepInv(config, s, steps[0]);
      RunInv(config, Apply(config, s, steps[0]), steps[1..]);
    }
  }

  lemma StartInv(config: Config)
    ensures Inv(config, START)
  {
  }

  /** In every state of every run the cache holds, in order, exactly the video packets processed since
      the last key frame started, all of them if none has. */
  lemma GopCacheExact(config: Config, steps: seq<Step>, i: nat)
    requires Legal(config, START, steps)
    ensures
      var s := After(config, START, steps);
      Seen(s) <= |s.arrived|
      && (i in s.cache <==>
        config.gopCacheEnable && !config.codec.Other? && i < Seen(s) && s.arrived[i].video
        && forall j | i < j < Seen(s) :: !IsKey(s.arrived[j], config.codec))
      && forall j, k | 0 <= j < k < |s.cache| :: s.cache[j] < s.cache[k]
  {
    StartInv(config);
    RunInv(config, START, steps);
    hide Legal, After, IsKey;
    var s := After(config, START, steps);
    CacheExact(config, s, i);
  }

  lemma CacheExact(config: Config, s: State, i: nat)
    requires PusherInv(config, s)
    ensures Seen(s) <= |s.arrived|
    ensures i in s.cache <==>
        config.gopCacheEnable && !config.codec.Other? && i < Seen(s) && s.arrived[i].video
        && forall j | i < j < Seen(s) :: !IsKey(s.arrived[j], config.codec)
    ensures forall j, k | 0 <= j < k < |s.cache| :: s.cache[j] < s.cache[k]
  {
    hide IsKey, LastKey, VideoFrom;
    var n: nat := Seen(s);
    LastKeyExact(s.arrived, config.codec, n);
    VideoFromExact(s.arrived, LastKey(s.arrived, config.codec, n), n, i);
  }

  /** What a player has been given so far. */
  function Given(p: Player): seq<nat> {
    p.sent + p.queue
  }

  /** In every run, whatever the threads' interleaving, a player gets packets in the order in which
      they came in; only the last cached one may come once more, as the first live one, and from then
      on no packet is left out. */
  lemma PlayerOrder(config: Config, steps: seq<Step>, id: nat)
    requires Legal(config, START, steps) && id in After(config, START, steps).players
    ensures
      var p := After(config, START, steps).players[id];
      Given(p) == p.copied + p.live
      && (forall j, k | 0 <= j < k < |Given(p)| ::
        Given(p)[j] < Given(p)[k] || (Given(p)[j] == Given(p)[k] && j + 1 == k == |p.copied|))
      && (forall k | 0 < k < |p.live| :: p.live[k] == p.live[k - 1] + 1)
  {
    StartInv(config);
    RunInv(config, START, steps);
    hide *;
    OrderOf(config, After(config, START, steps), id);
  }

  lemma OrderOf(config: Config, s: State, id: nat)
    requires Inv(config, s) && id in s.players
    ensures
      var p := s.players[id];
      Given(p) == p.copied + p.live
      && (forall j, k | 0 <= j < k < |Given(p)| ::
        Given(p)[j] < Given(p)[k] || (Given(p)[j] == Given(p)[k] && j + 1 == k == |p.copied|))
      && (forall k | 0 < k < |p.live| :: p.live[k] == p.live[k - 1] + 1)
  {
    hide Wanted, PusherInv, NextFor, Served;
    assert PlayerInv(config, s, id);
    InOrder(config, s.arrived, s.players[id]);
  }

  lemma InOrder(config: Config, arrived: seq<Pack>, p: Player)
    requires p.at <= |arrived| && p.copied == Wanted(config, arrived, p.at)
    requires p.live != [] ==> p.at <= p.live[0] + 1
    requires forall k | 0 <= k < |p.live| :: p.live[k] == p.live[0] + k
    ensures var got := p.copied + p.live;
      forall j, k | 0 <= j < k < |got| :: got[j] < got[k] || (got[j] == got[k] && j + 1 == k == |p.copied|)
  {
    var got, n := p.copied + p.live, |p.copied|;
    Increasing(config, arrived, p.at);
    hide Wanted;
    forall j, k | 0 <= j < k < |got|
      ensures got[j] < got[k] || (got[j] == got[k] && j + 1 == k == n)
    {
      if j < n <= k {
        assert got[j] == p.copied[j] && got[k] == p.live[k - n] == p.live[0] + (k - n);
        if j + 1 < n {
          assert p.copied[j] < p.copied[n - 1];
        }
      } else if j >= n {
        assert got[j] == p.live[j - n] && got[k] == p.live[k - n];
      }
    }
  }

  lemma Increasing(config: Config, arrived: seq<Pack>, n: nat)
    requires n <= |arrived|
    ensures var r := Wanted(config, arrived, n);
      (forall k | 0 <= k < |r| :: r[k] < n) && forall j, k | 0 <= j < k < |r| :: r[j] < r[k]
  {
  }
}
