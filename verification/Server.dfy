/** A server of the cluster: its sorted node list, its ring and its own store. */
module Servers {
  import opened Rings
  import opened Nodes
  import opened Requests
  import Expiry
  import Stores

  class Server {
    const laddr: Addr
    const ring: Ring
    const store: Stores.Store
    var nodes: seq<Node>

    constructor (laddr: Addr, neighbours: seq<Node>, partitions: nat, ghost now: int)
      requires partitions > 0 && now > 0
      ensures this.laddr == laddr && nodes == neighbours
      ensures ring.Valid() && ring.elements == [] && ring.virtual.Length == partitions
      ensures store.Valid() && store.State() == Expiry.Init(now)
      ensures fresh(ring) && fresh(ring.virtual) && fresh(store)
      ensures fresh(store.hashMap) && fresh(store.expireHeap) && fresh(store.expireTimer)
    {
      this.laddr := laddr;
      nodes := neighbours;
      ring := new Ring(partitions);
      store := new Stores.Store(now);
    }

    predicate Less(i: nat, j: nat)
      requires i < |nodes| && j < |nodes|
      reads this
    {
      LexLess(nodes[i].addr, nodes[j].addr)
    }

    method Swap(i: nat, j: nat)
      requires i < |nodes| && j < |nodes|
      modifies this
      ensures nodes == old(nodes)[i := old(nodes)[j]][j := old(nodes)[i]]
      ensures multiset(nodes) == multiset(old(nodes))
    {
      nodes := nodes[i := nodes[j]][j := nodes[i]];
    }

    /** The nodes up to hi are in order, but the one at j may be smaller than those before it. */
    ghost predicate OrderedExcept(hi: nat, j: nat)
      requires hi < |nodes|
      reads this
    {
      forall a, b :: 0 <= a < b <= hi && b != j ==> !LexLess(nodes[b].addr, nodes[a].addr)
    }

    /** Sorts the node list in place by address, with comparisons and swaps only. */
    method SortNodes()
      modifies this
      ensures Sorted(nodes) && InOrder(nodes) && multiset(nodes) == multiset(old(nodes))
    {
      var i: nat := 1;
      while i < |nodes|
        invariant |nodes| == |old(nodes)| && (nodes == [] || i <= |nodes|)
        invariant forall a, b :: 0 <= a < b < i && b < |nodes| ==> !LexLess(nodes[b].addr, nodes[a].addr)
        invariant multiset(nodes) == multiset(old(nodes))
      {
        SinkNode(i);
        i := i + 1;
      }
      InOrderIsSorted(nodes);
    }

    /** Moves the node at i down to its place among the ones before it. */
    method SinkNode(i: nat)
      requires i < |nodes| && OrderedExcept(i, i)
      modifies this
      ensures |nodes| == |old(nodes)| && multiset(nodes) == multiset(old(nodes))
      ensures forall a, b :: 0 <= a < b <= i ==> !LexLess(nodes[b].addr, nodes[a].addr)
    {
      var j: nat := i;
      while j > 0 && Less(j, j - 1)
        invariant j <= i < |nodes| && |nodes| == |old(nodes)|
        invariant OrderedExcept(i, j)
        invariant multiset(nodes) == multiset(old(nodes))
        decreases j
      {
        LexAsymmetric(nodes[j].addr, nodes[j - 1].addr);
        Swap(j, j - 1);
        j := j - 1;
      }
      forall a | 0 <= a < j ensures !LexLess(nodes[j].addr, nodes[a].addr) {
        if a < j - 1 {
          LexNotLessTransitive(nodes[a].addr, nodes[j - 1].addr, nodes[j].addr);
        }
      }
    }

    /** Dials every node of the list; each one that answers is put back with its connection. */
    method JoinN(dial: Addr -> bool) returns (ok: bool)
      modifies this
      ensures Addrs(nodes) == Addrs(old(nodes)) && (ok <==> forall n :: n in old(nodes) ==> dial(n.addr))
      ensures ok ==> nodes == Connected(Addrs(old(nodes)))
    {
      ok := true;
      for ii := 0 to |nodes|
        invariant |nodes| == |old(nodes)| && Addrs(nodes) == Addrs(old(nodes))
        invariant ok <==> forall k :: 0 <= k < ii ==> dial(old(nodes)[k].addr)
        invariant ok ==> forall k :: 0 <= k < ii ==> nodes[k] == Node(old(nodes)[k].addr, true)
      {
        assert nodes[ii].addr == Addrs(nodes)[ii] == old(nodes)[ii].addr;
        if dial(nodes[ii].addr) {
          nodes := nodes[ii := Node(nodes[ii].addr, true)];
        } else {
          ok := false;
        }
      }
    }

    /**
     Joins the cluster: once every neighbour is connected, adds itself, sorts the list and
     gives the ring one element for each position. Without all connections nothing is set up.
     */
    method Start(dial: Addr -> bool) returns (ok: bool)
      requires ring.Valid() && ring.elements == []
      modifies this, ring, ring.virtual
      ensures ring.Valid() && (ok <==> forall n :: n in old(nodes) ==> dial(n.addr))
      ensures !ok ==> Addrs(nodes) == Addrs(old(nodes)) && ring.elements == []
      ensures ok ==> Sorted(nodes) && InOrder(nodes)
      ensures ok ==> multiset(nodes) == multiset(Connected(Addrs(old(nodes))) + [Node(laddr, false)])
      ensures ok ==> ring.elements == Positions(|nodes|)
    {
      ok := JoinN(dial);
      if !ok {
        return;
      }
      nodes := nodes + [Node(laddr, false)];
      SortNodes();
      ghost var sorted := nodes;
      for ii := 0 to |nodes|
        invariant nodes == sorted && ring.Valid() && ring.elements == Positions(ii)
      {
        ring.Insert(ii);
      }
    }

    /** A started server, ready to serve. */
    ghost predicate Started()
      reads this, ring, ring.virtual
    {
      ring.Valid() && nodes != [] && ring.elements == Positions(|nodes|) && ring.ratio > 0
    }

    /** Answers a request from the own store, or says which node to hand it on to. */
    method Do(req: Request, h: uint32, m: Moment) returns (route: Route, resp: Response, ghost order: seq<string>)
      requires Started() && store.Valid() && store.clock <= m.first <= m.second <= m.third <= m.last
      requires m.escaped ==> store.State().MayGoOff(m.last)
      modifies store, store.hashMap, store.expireHeap, store.expireTimer
      ensures store.Valid() && route == RouteOf(nodes, ring.ratio, h, req.Hash())
      ensures 0 <= h % ring.ratio < ring.virtual.Length && 0 <= ring.virtual[h % ring.ratio] < |ring.elements|
      ensures 0 <= ring.elements[ring.virtual[h % ring.ratio]] < |nodes|
      ensures var node := nodes[ring.elements[ring.virtual[h % ring.ratio]]];
              route == if Keyed(req) && node.remote then Forward(node.addr) else Local
      ensures route == Local ==>
        store.State() == Expiry.Apply(old(store.State()), StepOf(req, m.(order := order)))
      ensures route == Local ==> store.history == old(store.history) + [StepOf(req, m.(order := order))]
      ensures route == Local ==> resp == Answer(old(store.State()), req, m.(order := order))
      ensures route == Local ==>
        && Promised(old(store.hashMap.records), req, m.first, m.second, resp)
        && Leaves(old(store.hashMap.records), req, resp, store.hashMap.records)
      ensures route != Local ==> store.State() == old(store.State()) && store.history == old(store.history)
    {
      resp, order := Missing, [];
      HashIsKey(req);
      var index := ring.Find(h);
      var node := nodes[index];
      if !node.remote || req.Hash() == "" {
        route := Local;
        resp, order := store.Serve(req, m);
      } else {
        route := Forward(node.addr);
      }
    }
  }

  /**
   A new server over distinct neighbours that can all be dialed, with a partition count that
   leaves a 32-bit ratio, is ready to serve and has the list every theorem about routing speaks of.
   */
  method StartServer(laddr: Addr, neighbours: seq<Addr>, partitions: nat, dial: Addr -> bool, ghost now: int)
    returns (s: Server, ok: bool)
    requires partitions > 0 && now > 0
    requires laddr !in neighbours && forall i, j :: 0 <= i < j < |neighbours| ==> neighbours[i] != neighbours[j]
    ensures s.laddr == laddr && (ok <==> forall a :: a in neighbours ==> dial(a))
    ensures s.ring.Valid() && s.ring.virtual.Length == partitions && s.ring.ratio == partitions % UINT32
    ensures ok ==> Sorted(s.nodes) && StartedAt(s.nodes, laddr, (set a | a in neighbours) + {laddr})
    ensures ok && partitions % UINT32 != 0 ==> s.Started()
    ensures s.store.Valid() && s.store.State() == Expiry.Init(now)
    ensures fresh(s) && fresh(s.ring) && fresh(s.ring.virtual) && fresh(s.store)
    ensures fresh(s.store.hashMap) && fresh(s.store.expireHeap) && fresh(s.store.expireTimer)
  {
    s := new Server(laddr, Unconnected(neighbours), partitions, now);
    assert Addrs(s.nodes) == neighbours;
    ghost var before := s.nodes;
    assert (forall n :: n in before ==> dial(n.addr)) <==> forall a :: a in neighbours ==> dial(a) by {
      assert forall i :: 0 <= i < |neighbours| ==> before[i].addr == neighbours[i];
    }
    ok := s.Start(dial);
    if ok {
      ConnectedIsStarted(s.nodes, neighbours, laddr);
    }
  }
}
