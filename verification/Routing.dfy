/** From the node lists of the started servers to one routing table for the whole cluster. */
module Routing {
  import opened Rings
  import opened Nodes

  /** The addresses, the number of partitions, the string hash, and each server's own node list. */
  datatype Config = Config(addrs: set<Addr>, ratio: nat, fnv: string -> uint32, views: map<Addr, seq<Node>>)

  /** The server at this address has been started over all the addresses. */
  ghost predicate FitsIn(cfg: Config, a: Addr) {
    a in cfg.views && cfg.views[a] != [] && StartedAt(cfg.views[a], a, cfg.addrs)
  }

  /** A full mesh of started servers with equal partition counts. */
  ghost predicate WellFormed(cfg: Config) {
    && cfg.addrs != {} && cfg.ratio > 0 && cfg.views.Keys == cfg.addrs
    && forall a :: a in cfg.addrs ==> FitsIn(cfg, a)
  }

  /** Which addresses there are, what the server at each does with a key, and who is in charge of it. */
  datatype Net = Net(addrs: set<Addr>, route: (Addr, string) -> Route, owner: string -> Addr)

  /** Every server keeps the empty key and the keys it is in charge of, and hands any other to its owner. */
  ghost predicate Agreed(net: Net) {
    && (forall key :: net.owner(key) in net.addrs)
    && forall at, key :: at in net.addrs ==>
         net.route(at, key) == if key == "" || at == net.owner(key) then Local else Forward(net.owner(key))
  }

  /** One server's own decision, spelled out with the address that another one would choose. */
  lemma OwnDecision(cfg: Config, some: Addr, at: Addr, key: string)
    requires WellFormed(cfg) && some in cfg.addrs && at in cfg.addrs
    ensures var owner := ChosenNode(cfg.views[some], cfg.ratio, cfg.fnv(key)).addr;
            && owner in cfg.addrs
            && RouteOf(cfg.views[at], cfg.ratio, cfg.fnv(key), key)
                 == if key == "" || at == owner then Local else Forward(owner)
  {
    var ns, h := cfg.views[at], cfg.fnv(key);
    ServersAgreeOnOwner(cfg.views[some], some, ns, at, cfg.addrs, cfg.ratio, h);
    var n := ChosenNode(ns, cfg.ratio, h);
    var i :| 0 <= i < |ns| && ns[i] == n;
    assert Addrs(ns)[i] == n.addr;
  }

  /** Each server routes by its own list; the owner is whatever the given one chooses. */
  ghost function NetSeenBy(cfg: Config, some: Addr): Net
    requires WellFormed(cfg) && some in cfg.addrs
  {
    Net(cfg.addrs,
        (at: Addr, key: string) =>
          if at in cfg.addrs then RouteOf(cfg.views[at], cfg.ratio, cfg.fnv(key), key) else Local,
        (key: string) => ChosenNode(cfg.views[some], cfg.ratio, cfg.fnv(key)).addr)
  }

  /** The servers' separate decisions fit together, and it does not matter whom one asks for the owner. */
  lemma {:induction false} StartedServersAgree(cfg: Config, some: Addr)
    requires WellFormed(cfg) && some in cfg.addrs
    ensures Agreed(NetSeenBy(cfg, some))
  {
    var net := NetSeenBy(cfg, some);
    forall key ensures net.owner(key) in net.addrs {
      OwnDecision(cfg, some, some, key);
    }
    forall at, key | at in net.addrs
      ensures net.route(at, key) == if key == "" || at == net.owner(key) then Local else Forward(net.owner(key))
    {
      OwnDecision(cfg, some, at, key);
    }
  }
}
