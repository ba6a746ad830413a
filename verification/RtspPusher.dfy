/** The pusher and player objects of `rtsp/pusher.go` and `rtsp/player.go`, as one thread sees them:
    their queues, the cache and the loops over them. */
module RtspPushers {
  import FanOut

  class Player {
    var queue: seq<nat>
    var sent: seq<nat>

    constructor ()
      ensures queue == [] && sent == []
    {
      queue, sent := [], [];
    }

    method QueueRTP(pack: nat)
      modifies `queue
      ensures queue == old(queue) + [pack]
    {
      queue := queue + [pack];
    }

    /** The loop of `Start`, until it would wait: all that is queued is sent, in order. */
    method Start()
      modifies this
      ensures queue == [] && sent == old(sent) + old(queue)
    {
      while queue != []
        invariant sent + queue == old(sent) + old(queue)
        decreases |queue|
      {
        var pack := queue[0];
        assert queue == [pack] + queue[1..];
        queue := queue[1..];
        sent := sent + [pack];
      }
    }
  }

  class Pusher {
    const config: FanOut.Config
    var arrived: seq<FanOut.Pack>
    var queue: seq<nat>
    var gopCache: seq<nat>
    var players: map<nat, Player>

    /** The queue holds the last packets that came in, and the cache what is wanted of those before. */
    ghost predicate Valid()
      reads this
    {
      |queue| <= |arrived|
      && (forall k | 0 <= k < |queue| :: queue[k] == |arrived| - |queue| + k)
      && gopCache == FanOut.Wanted(config, arrived, |arrived| - |queue|)
      && (forall i, j | i in players && j in players && i != j :: players[i] != players[j])
    }

    constructor (config: FanOut.Config)
      ensures Valid() && arrived == [] && players == map[] && this.config == config
    {
      this.config := config;
      arrived, queue, gopCache, players := [], [], [], map[];
    }

    method QueueRTP(pack: FanOut.Pack)
      requires Valid()
      modifies `arrived, `queue
      ensures Valid() && arrived == old(arrived) + [pack] && queue == old(queue) + [|old(arrived)|]
    {
      FanOut.WantedMore(config, arrived, pack, |arrived| - |queue|);
      queue := queue + [|arrived|];
      arrived := arrived + [pack];
    }

    /** The loop of `Start`, until it would wait: every player gets every packet that was queued, in
        order, and the cache ends up as wanted. */
    method Start()
      requires Valid()
      modifies `queue, `gopCache, players.Values`queue
      ensures Valid() && queue == []
      ensures forall i | i in players :: players[i].queue == old(players[i].queue) + old(queue)
    {
      hide *;
      ghost var all := queue;
      ghost var done: seq<nat> := [];
      assert forall i | i in players :: players[i].queue + [] == players[i].queue;
      while queue != []
        invariant Valid() && all == done + queue
        invariant forall i | i in players :: players[i].queue == old(players[i].queue) + done
        decreases |queue|
      {
        ghost var pack := queue[0];
        MoveOn(done, queue);
        HandleOne();
        Appended(old(set i | i in players :: players[i].queue), done, pack);
        done := done + [pack];
      }
    }

    static lemma MoveOn(done: seq<nat>, queue: seq<nat>)
      requires queue != []
      ensures done + [queue[0]] + queue[1..] == done + queue
    {
    }

    static lemma Appended(queues: set<seq<nat>>, done: seq<nat>, pack: nat)
      ensures forall q | q in queues :: q + done + [pack] == q + (done + [pack])
    {
    }

    /** One turn of the loop. */
    method HandleOne()
      requires Valid() && queue != []
      modifies `queue, `gopCache, players.Values`queue
      ensures Valid() && queue == old(queue)[1..]
      ensures forall i | i in players :: players[i].queue == old(players[i].queue) + [old(queue)[0]]
    {
      hide FanOut.Wanted, FanOut.Cache;
      var pack := queue[0];
      FanOut.WantedStep(config, arrived, pack);
      queue := queue[1..];
      UpdateCache(pack);
      BroadcastRTP(pack);
    }

    /** A key frame starts the cache anew. */
    method UpdateCache(pack: nat)
      requires pack < |arrived|
      modifies `gopCache
      ensures gopCache == FanOut.Cache(config, old(gopCache), arrived[pack], pack)
    {
      if config.gopCacheEnable && arrived[pack].video && !config.codec.Other? {
        if FanOut.IsKey(arrived[pack], config.codec) {
          gopCache := [];
        }
        gopCache := gopCache + [pack];
      }
    }

    /** Every player in the map gets the packet once, in whatever order the map is walked. */
    method BroadcastRTP(pack: nat)
      requires forall i, j | i in players && j in players && i != j :: players[i] != players[j]
      modifies players.Values`queue
      ensures forall i | i in players :: players[i].queue == old(players[i].queue) + [pack]
    {
      var left := players.Keys;
      while left != {}
        invariant left <= players.Keys
        invariant forall i | i in players ::
          players[i].queue == old(players[i].queue) + if i in left then [] else [pack]
        decreases left
      {
        var id :| id in left;
        players[id].QueueRTP(pack);
        left := left - {id};
      }
    }

    /** The player gets the cache, and is registered unless its name is taken. */
    method AddPlayer(id: nat, player: Player)
      requires Valid() && forall i | i in players :: players[i] != player
      modifies `players, player`queue
      ensures Valid() && player.queue == old(player.queue) + if config.gopCacheEnable then gopCache else []
      ensures players == if id in old(players) then old(players) else old(players)[id := player]
    {
      if config.gopCacheEnable {
        for k := 0 to |gopCache|
          invariant players == old(players) && player.queue == old(player.queue) + gopCache[..k]
        {
          player.QueueRTP(gopCache[k]);
        }
        assert gopCache[..|gopCache|] == gopCache;
      }
      if id !in players {
        players := players[id := player];
      }
    }
  }
}
