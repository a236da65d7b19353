/**
 The theorems about the cluster, for the servers as they are started: nothing is assumed of
 their routing, it follows from each server's own sorted list and ring.
 */
module StartedCluster {
  import opened Nodes
  import opened Rings
  import opened Routing
  import opened Requests
  import opened Records
  import opened Servers
  import opened Clusters
  import opened Refinement
  import opened Answers
  import opened Progress
  import E = Expiry
  import S = SingleMap

  // ---------- from server objects to a configuration ----------

  /** Started servers, each known by its address, over one set of addresses and with one ratio. */
  ghost predicate AllStarted(servers: map<Addr, Server>, ratio: nat)
    reads set a | a in servers :: servers[a]
    reads set a | a in servers :: servers[a].ring
    reads set a | a in servers :: servers[a].ring.virtual
  {
    forall a :: a in servers ==>
      && servers[a].laddr == a && servers[a].Started() && servers[a].ring.ratio == ratio
      && StartedAt(servers[a].nodes, a, servers.Keys)
  }

  ghost function ConfigOf(servers: map<Addr, Server>, ratio: nat, fnv: string -> uint32): Config
    reads set a | a in servers :: servers[a]
  {
    Config(servers.Keys, ratio, fnv, map a | a in servers :: servers[a].nodes)
  }

  lemma ServerFitsConfig(servers: map<Addr, Server>, ratio: nat, fnv: string -> uint32, a: Addr)
    requires AllStarted(servers, ratio) && a in servers
    ensures ratio > 0 && FitsIn(ConfigOf(servers, ratio, fnv), a)
    ensures ConfigOf(servers, ratio, fnv).views[a] == servers[a].nodes
  {
    assert servers[a].Started();
  }

  /** Each server has one view. */
  lemma ViewsOfAll(servers: map<Addr, Server>, addrs: set<Addr>, views: map<Addr, seq<Node>>)
    requires addrs == servers.Keys && views == map a | a in servers :: servers[a].nodes
    ensures views.Keys == addrs
  {
  }

  lemma EveryServerFits(servers: map<Addr, Server>, ratio: nat, fnv: string -> uint32, cfg: Config)
    requires AllStarted(servers, ratio) && cfg == ConfigOf(servers, ratio, fnv)
    ensures forall a :: a in cfg.addrs ==> FitsIn(cfg, a)
  {
    forall a | a in cfg.addrs ensures FitsIn(cfg, a) {
      ServerFitsConfig(servers, ratio, fnv, a);
    }
  }

  lemma ServersFormConfig(servers: map<Addr, Server>, ratio: nat, fnv: string -> uint32, some: Addr)
    requires some in servers && AllStarted(servers, ratio)
    ensures WellFormed(ConfigOf(servers, ratio, fnv))
  {
    var cfg := ConfigOf(servers, ratio, fnv);
    assert some in cfg.addrs && ratio > 0 by { ServerFitsConfig(servers, ratio, fnv, some); }
    assert cfg.views.Keys == cfg.addrs by { ViewsOfAll(servers, cfg.addrs, cfg.views); }
    EveryServerFits(servers, ratio, fnv, cfg);
  }

  /** What a server's Do decides is what the net says, whichever server the owners are asked of. */
  lemma DoFollowsNet(servers: map<Addr, Server>, ratio: nat, fnv: string -> uint32, some: Addr, at: Addr, key: string)
    requires AllStarted(servers, ratio) && some in servers && at in servers
    ensures WellFormed(ConfigOf(servers, ratio, fnv)) && servers[at].Started()
    ensures RouteOf(servers[at].nodes, servers[at].ring.ratio, fnv(key), key)
      == NetSeenBy(ConfigOf(servers, ratio, fnv), some).route(at, key)
  {
    ServersFormConfig(servers, ratio, fnv, some);
  }

  /** Servers with fresh stores, and no calls yet, are a start of the cluster. */
  lemma FreshServersAreInitial(servers: map<Addr, Server>, ratio: nat, fnv: string -> uint32, some: Addr, c: Cluster)
    requires AllStarted(servers, ratio) && some in servers
    requires c.stores.Keys == servers.Keys && c.calls == map[] && c.locks == map[] && c.busy == {}
    requires forall a :: a in servers ==>
      c.stores[a] == servers[a].store.State() && c.stores[a].clock > 0 && c.stores[a] == E.Init(c.stores[a].clock)
    ensures WellFormed(ConfigOf(servers, ratio, fnv))
    ensures Initial(NetSeenBy(ConfigOf(servers, ratio, fnv), some), c)
  {
    ServersFormConfig(servers, ratio, fnv, some);
  }

  // ---------- the cluster of started servers ----------

  /** Every behaviour of the cluster of started servers is, step for step, a behaviour of the single map. */
  lemma StartedServersAreOneMap(cfg: Config, some: Addr, b: Behaviour)
    requires WellFormed(cfg) && some in cfg.addrs && Possible(NetSeenBy(cfg, some), b)
    ensures var net := NetSeenBy(cfg, some);
            && Agreed(net) && Inv(net, b.now) && Simulates(net, b.now.stores, MapAfter(net, b))
            && (b.Then? ==> S.Enabled(net.owner, MapAfter(net, b.before), MoveOf(net, b.before.now, b.step)))
  {
    StartedServersAgree(cfg, some);
    ClusterRefinesSingleMap(NetSeenBy(cfg, some), b);
  }

  /** Every answer under a key is the single map's at one step after the call arrived. */
  lemma StartedServersAnswerAsMap(cfg: Config, some: Addr, b: Behaviour, id: Id, resp: Response)
    requires WellFormed(cfg) && some in cfg.addrs && Possible(NetSeenBy(cfg, some), b)
    requires HasAnswer(b.now, id, resp) && Keyed(b.now.calls[id].req)
    ensures exists served ::
      && PassedThrough(b, served) && Possible(NetSeenBy(cfg, some), served)
      && EndsServing(NetSeenBy(cfg, some), served, id, b.now.calls[id].req, resp)
  {
    StartedServersAgree(cfg, some);
    AnswersAreTheMaps(NetSeenBy(cfg, some), b, id, resp);
  }

  /** Every get under a key found the latest put, or missed for a reason. */
  lemma StartedServersAnswerLatestPut(cfg: Config, some: Addr, b: Behaviour, id: Id, key: Key, resp: Response)
    requires WellFormed(cfg) && some in cfg.addrs && Possible(NetSeenBy(cfg, some), b)
    requires HasAnswer(b.now, id, resp) && b.now.calls[id].req == Get(key) && key != ""
    ensures exists served ::
      && PassedThrough(b, served) && Possible(NetSeenBy(cfg, some), served)
      && EndsServing(NetSeenBy(cfg, some), served, id, Get(key), resp)
      && Explains(NetSeenBy(cfg, some), served, key, resp)
  {
    StartedServersAgree(cfg, some);
    GetsAreExplained(NetSeenBy(cfg, some), b, id, key, resp);
  }

  /** A step takes a record out of the map only by serving a delete of its key, or after a deadline of its key. */
  lemma StartedServersLoseInTime(cfg: Config, some: Addr, b: Behaviour, key: Key)
    requires WellFormed(cfg) && some in cfg.addrs && Possible(NetSeenBy(cfg, some), b) && b.Then?
    requires key in MapAfter(NetSeenBy(cfg, some), b.before).records
    requires key !in MapAfter(NetSeenBy(cfg, some), b).records
    ensures var net := NetSeenBy(cfg, some);
            var move := MoveOf(net, b.before.now, b.step);
            (move.Op? && move.req == Remove(key)) || S.Elapsed(net.owner, MapAfter(net, b), key)
  {
    StartedServersAgree(cfg, some);
    RecordsLeaveInTime(NetSeenBy(cfg, some), b, key);
  }

  /** Whatever key list a server answers, it has a key just when the map has it and the server is its owner. */
  lemma StartedServersListOwn(cfg: Config, some: Addr, b: Behaviour, x: Addr, list: seq<Key>, k: Key)
    requires WellFormed(cfg) && some in cfg.addrs && Possible(NetSeenBy(cfg, some), b)
    requires x in cfg.addrs && k != ""
    ensures x in b.now.stores
    ensures b.now.stores[x].table.MayList(list) ==>
      (k in list <==> k in MapAfter(NetSeenBy(cfg, some), b).records && x == NetSeenBy(cfg, some).owner(k))
  {
    var net := NetSeenBy(cfg, some);
    StartedServersAgree(cfg, some);
    ClusterRefinesSingleMap(net, b);
    if b.now.stores[x].table.MayList(list) {
      ListedIffOwned(net, b.now, MapAfter(net, b), x, list, k);
    }
  }

  /** Together the servers list the map, and nothing else but the empty key. */
  lemma StartedServersListTheMap(cfg: Config, some: Addr, b: Behaviour, lists: map<Addr, seq<Key>>, k: Key)
    requires WellFormed(cfg) && some in cfg.addrs && Possible(NetSeenBy(cfg, some), b)
    ensures b.now.stores.Keys == cfg.addrs
    ensures Listed(NetSeenBy(cfg, some), b.now, lists) ==>
      (k in MapAfter(NetSeenBy(cfg, some), b).records <==> k != "" && exists x :: x in cfg.addrs && k in lists[x])
  {
    var net := NetSeenBy(cfg, some);
    StartedServersAgree(cfg, some);
    ClusterRefinesSingleMap(net, b);
    if Listed(net, b.now, lists) {
      ListedKeysAreTheMaps(net, b.now, MapAfter(net, b), lists, k);
    }
  }

  /** At any time, any server can be asked anything, and the request can be brought to its answer. */
  lemma StartedServersCanAnswer(cfg: Config, some: Addr, b: Behaviour, at: Addr, req: Request)
    requires WellFormed(cfg) && some in cfg.addrs && Possible(NetSeenBy(cfg, some), b) && at in cfg.addrs
    ensures exists b', id ::
      Possible(NetSeenBy(cfg, some), b') && PassedThrough(b', b) && AnsweredAt(b', id, at, req)
  {
    StartedServersAgree(cfg, some);
    EveryRequestCanBeAnswered(NetSeenBy(cfg, some), b, at, req);
  }

  /** A call makes at most six steps of its own, and as long as one is unfinished, some call can move. */
  lemma StartedServersMakeProgress(cfg: Config, some: Addr, b: Behaviour, id: Id)
    requires WellFormed(cfg) && some in cfg.addrs && Possible(NetSeenBy(cfg, some), b) && id in b.now.calls
    ensures OwnSteps(b, id) + Rank(b.now.calls[id]) <= 6
    ensures Sound(NetSeenBy(cfg, some), b.now)
    ensures b.now.calls[id].phase.Finished?
      || exists other :: other in b.now.calls && Ready(NetSeenBy(cfg, some), b.now, other)
  {
    var net := NetSeenBy(cfg, some);
    StartedServersAgree(cfg, some);
    BehaviourKeepsInv(net, b);
    SixStepsPerCall(net, b, id);
    if !b.now.calls[id].phase.Finished? {
      NoCircularWait(net, b.now, id);
    }
  }
}
