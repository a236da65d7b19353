/**
 The running cluster as a state machine. A call travels: it is routed where it arrives,
 waits for the lock of the peer it is handed to, is picked up there by the one handler
 of that connection, and its answer goes back the way it came. A handler routes like
 any server, so nothing in the machine itself stops a call from being handed on again.
 */
module Clusters {
  import opened Nodes
  import opened Routing
  import opened Requests
  import E = Expiry

  type Id = nat

  // ---------- the machine ----------

  /** A directed connection, with the lock of its user and the handler at its far end. */
  datatype Link = Link(from: Addr, to: Addr)

  datatype Phase =
    | Executing
    | Waiting(peer: Addr)
    | Sent(peer: Addr)
    | Answered(resp: Response)
    | Finished(resp: Response)

  /** Where a call has been handed to so far; the last address is the one working on it. */
  datatype Call = Call(req: Request, path: seq<Addr>, phase: Phase)

  datatype Cluster = Cluster(stores: map<Addr, E.State>, calls: map<Id, Call>, locks: map<Link, Id>, busy: set<Link>)

  /** Advance moves one call by whatever its phase calls for next. */
  datatype Step =
    | Arrive(id: Id, at: Addr, req: Request)
    | Advance(id: Id, m: Moment)
    | Background(at: Addr, step: E.Step)

  function Here(call: Call): Addr
    requires call.path != []
  {
    call.path[|call.path| - 1]
  }

  ghost predicate Sound(net: Net, c: Cluster) {
    && c.stores.Keys == net.addrs
    && forall id :: id in c.calls ==> c.calls[id].path != [] && forall a :: a in c.calls[id].path ==> a in net.addrs
  }

  ghost predicate Servable(net: Net, c: Cluster, id: Id)
    requires Sound(net, c)
  {
    && id in c.calls && c.calls[id].phase.Executing?
    && net.route(Here(c.calls[id]), c.calls[id].req.Hash()) == Local
  }

  ghost predicate Enabled(net: Net, c: Cluster, step: Step)
    requires Sound(net, c)
  {
    match step
    case Arrive(id, at, _) => id !in c.calls && at in net.addrs
    case Background(at, s) =>
      && (s.Tick? || s.Fire? || s.Drain? || s.Rearm?)
      && at in net.addrs && E.Enabled(c.stores[at], s)
    case Advance(id, m) =>
      && id in c.calls
      && var call := c.calls[id];
         match call.phase
         case Executing => Servable(net, c, id) ==> E.Enabled(c.stores[Here(call)], StepOf(call.req, m))
         case Waiting(peer) => Link(Here(call), peer) !in c.locks
         case Sent(peer) => peer in net.addrs && Link(Here(call), peer) !in c.busy
         case Answered(_) => true
         case Finished(_) => false
  }

  ghost function Moved(net: Net, c: Cluster, id: Id, m: Moment): Cluster
    requires Sound(net, c) && id in c.calls
  {
    var call := c.calls[id];
    var here := Here(call);
    match call.phase
    case Executing =>
      if Servable(net, c, id)
      then c.(stores := c.stores[here := E.Apply(c.stores[here], StepOf(call.req, m))],
              calls := c.calls[id := call.(phase := Answered(Answer(c.stores[here], call.req, m)))])
      else c.(calls := c.calls[id := call.(phase := Waiting(net.route(here, call.req.Hash()).to))])
    case Waiting(peer) =>
      c.(calls := c.calls[id := call.(phase := Sent(peer))], locks := c.locks[Link(here, peer) := id])
    case Sent(peer) =>
      c.(calls := c.calls[id := call.(path := call.path + [peer], phase := Executing)],
         busy := c.busy + {Link(here, peer)})
    case Answered(resp) =>
      if |call.path| == 1 then c.(calls := c.calls[id := call.(phase := Finished(resp))])
      else
        var back := call.path[..|call.path| - 1];
        var link := Link(back[|back| - 1], here);
        c.(calls := c.calls[id := call.(path := back)], locks := c.locks - {link}, busy := c.busy - {link})
    case Finished(_) => c
  }

  ghost function Apply(net: Net, c: Cluster, step: Step): Cluster
    requires Sound(net, c) && Enabled(net, c, step)
  {
    match step
    case Arrive(id, at, req) => c.(calls := c.calls[id := Call(req, [at], Executing)])
    case Background(at, s) => c.(stores := c.stores[at := E.Apply(c.stores[at], s)])
    case Advance(id, m) => Moved(net, c, id, m)
  }

  // ---------- invariants ----------

  /** Every store is consistent and holds, besides the empty key, only keys of its own address. */
  ghost predicate StoresOk(net: Net, c: Cluster)
    requires Agreed(net)
  {
    && c.stores.Keys == net.addrs
    && forall a :: a in net.addrs ==> E.Inv(c.stores[a]) && HoldsOwn(net, a, c.stores[a])
  }

  ghost predicate HoldsOwn(net: Net, a: Addr, s: E.State)
    requires Agreed(net)
  {
    forall k :: k in s.table.records && k != "" ==> net.owner(k) == a
  }

  /** A call is handed on at most once, from a server that is not the owner to the one that is. */
  ghost predicate CallOk(net: Net, c: Cluster, id: Id)
    requires Agreed(net) && id in c.calls
  {
    var call := c.calls[id];
    var owner := net.owner(call.req.Hash());
    && |call.path| in {1, 2} && call.path[0] in net.addrs
    && (|call.path| == 2 ==>
          && call.req.Hash() != "" && call.path[1] == owner && owner in net.addrs && owner != call.path[0]
          && (call.phase.Executing? || call.phase.Answered?)
          && Held(c, Link(call.path[0], owner), id) && Link(call.path[0], owner) in c.busy)
    && (call.phase.Waiting? || call.phase.Sent? ==>
          call.req.Hash() != "" && call.phase.peer == owner && owner in net.addrs && owner != call.path[0])
    && (call.phase.Sent? ==> Held(c, Link(call.path[0], owner), id))
  }

  ghost predicate Held(c: Cluster, link: Link, id: Id) {
    link in c.locks && c.locks[link] == id
  }

  /** A lock is held by a call whose message or handler is on the link, a handler is busy only for such a call. */
  ghost predicate LinkOk(c: Cluster, link: Link) {
    && (link in c.locks ==>
          && c.locks[link] in c.calls
          && var call := c.calls[c.locks[link]];
             || (call.path == [link.from] && call.phase == Sent(link.to))
             || call.path == [link.from, link.to])
    && (link in c.busy ==>
          link in c.locks && c.locks[link] in c.calls && c.calls[c.locks[link]].path == [link.from, link.to])
  }

  ghost predicate CallsOk(net: Net, c: Cluster)
    requires Agreed(net)
  {
    && (forall id :: id in c.calls ==> CallOk(net, c, id))
    && (forall link :: LinkOk(c, link))
  }

  ghost predicate Inv(net: Net, c: Cluster) {
    Agreed(net) && StoresOk(net, c) && CallsOk(net, c)
  }

  lemma PathIsSound(net: Net, c: Cluster, id: Id, a: Addr)
    requires Agreed(net) && id in c.calls && CallOk(net, c, id)
    ensures c.calls[id].path != [] && (a in c.calls[id].path ==> a in net.addrs)
  {
    var path := c.calls[id].path;
    if a in path && a != path[0] {
      assert |path| == 2 && a == path[1];
    }
  }

  lemma {:induction false} InvIsSound(net: Net, c: Cluster)
    requires Inv(net, c)
    ensures Sound(net, c)
  {
    forall id, a | id in c.calls ensures c.calls[id].path != [] && (a in c.calls[id].path ==> a in net.addrs) {
      PathIsSound(net, c, id, a);
    }
  }

  /** A change of one call's phase that neither takes nor gives up a link. */
  lemma PhaseKeepsCalls(net: Net, c: Cluster, id: Id, phase: Phase)
    requires Agreed(net) && CallsOk(net, c) && id in c.calls
    requires var call := c.calls[id];
             && (call.phase.Executing? || call.phase.Answered?)
             && (|| phase.Answered?
                 || (|call.path| == 1 && phase.Finished?)
                 || (|call.path| == 1 && call.req.Hash() != "" && call.path[0] != net.owner(call.req.Hash())
                     && phase == Waiting(net.owner(call.req.Hash()))))
    ensures CallsOk(net, c.(calls := c.calls[id := c.calls[id].(phase := phase)]))
  {
    var c' := c.(calls := c.calls[id := c.calls[id].(phase := phase)]);
    forall link ensures LinkOk(c', link) {
      assert LinkOk(c, link);
    }
    forall other | other in c'.calls ensures CallOk(net, c', other) {
      assert CallOk(net, c, other);
    }
  }

  lemma LockKeepsCalls(net: Net, c: Cluster, id: Id, m: Moment)
    requires Agreed(net) && Sound(net, c) && CallsOk(net, c)
    requires Enabled(net, c, Advance(id, m)) && c.calls[id].phase.Waiting?
    ensures CallsOk(net, Moved(net, c, id, m))
  {
    var c' := Moved(net, c, id, m);
    assert CallOk(net, c, id);
    var call := c.calls[id];
    assert call.path == [Here(call)];
    forall link ensures LinkOk(c', link) {
      assert LinkOk(c, link);
    }
    forall other | other in c'.calls ensures CallOk(net, c', other) {
      assert CallOk(net, c, other);
    }
  }

  lemma PickUpKeepsCalls(net: Net, c: Cluster, id: Id, m: Moment)
    requires Agreed(net) && Sound(net, c) && CallsOk(net, c)
    requires Enabled(net, c, Advance(id, m)) && c.calls[id].phase.Sent?
    ensures CallsOk(net, Moved(net, c, id, m))
  {
    var c' := Moved(net, c, id, m);
    assert CallOk(net, c, id);
    var call := c.calls[id];
    assert call.path == [Here(call)] && c'.calls[id].path == [Here(call), call.phase.peer];
    forall link ensures LinkOk(c', link) {
      assert LinkOk(c, link);
    }
    forall other | other in c'.calls ensures CallOk(net, c', other) {
      assert CallOk(net, c, other);
    }
  }

  lemma ReturnKeepsCalls(net: Net, c: Cluster, id: Id, m: Moment)
    requires Agreed(net) && Sound(net, c) && CallsOk(net, c) && Enabled(net, c, Advance(id, m))
    requires c.calls[id].phase.Answered? && |c.calls[id].path| != 1
    ensures CallsOk(net, Moved(net, c, id, m))
  {
    var c' := Moved(net, c, id, m);
    assert CallOk(net, c, id);
    var call := c.calls[id];
    assert call.path == [call.path[0], Here(call)] && c'.calls[id].path == [call.path[0]];
    forall link ensures LinkOk(c', link) {
      assert LinkOk(c, link);
    }
    forall other | other in c'.calls ensures CallOk(net, c', other) {
      assert CallOk(net, c, other);
    }
  }

  lemma AdvanceKeepsCalls(net: Net, c: Cluster, id: Id, m: Moment)
    requires Agreed(net) && CallsOk(net, c) && Sound(net, c) && Enabled(net, c, Advance(id, m))
    ensures CallsOk(net, Moved(net, c, id, m))
  {
    var call := c.calls[id];
    assert CallOk(net, c, id);
    match call.phase
    case Executing =>
      if Servable(net, c, id) {
        ServeChanges(net, c, id, m);
        PhaseKeepsCalls(net, c, id, Moved(net, c, id, m).calls[id].phase);
        assert CallsOk(net, c.(calls := Moved(net, c, id, m).calls));
        OtherStoresKeepCalls(net, c.(calls := Moved(net, c, id, m).calls), Moved(net, c, id, m).stores);
      } else {
        PhaseKeepsCalls(net, c, id, Waiting(net.owner(call.req.Hash())));
      }
    case Waiting(_) => LockKeepsCalls(net, c, id, m);
    case Sent(_) => PickUpKeepsCalls(net, c, id, m);
    case Answered(resp) =>
      if |call.path| == 1 {
        PhaseKeepsCalls(net, c, id, Finished(resp));
      } else {
        ReturnKeepsCalls(net, c, id, m);
      }
  }

  lemma ServeChanges(net: Net, c: Cluster, id: Id, m: Moment)
    requires Sound(net, c) && Servable(net, c, id)
    ensures var call, here := c.calls[id], Here(c.calls[id]);
            var answer := Answered(Answer(c.stores[here], call.req, m));
            Moved(net, c, id, m) == c.(calls := c.calls[id := call.(phase := answer)],
              stores := c.stores[here := E.Apply(c.stores[here], StepOf(call.req, m))])
  {
  }

  /** Calls and locks do not depend on what the stores hold. */
  lemma OtherStoresKeepCalls(net: Net, c: Cluster, stores: map<Addr, E.State>)
    requires Agreed(net) && CallsOk(net, c)
    ensures CallsOk(net, c.(stores := stores))
  {
    forall link ensures LinkOk(c.(stores := stores), link) {
      assert LinkOk(c, link);
    }
    forall id | id in c.calls ensures CallOk(net, c.(stores := stores), id) {
      assert CallOk(net, c, id);
    }
  }

  lemma ArriveKeepsCalls(net: Net, c: Cluster, id: Id, at: Addr, req: Request)
    requires Inv(net, c) && id !in c.calls && at in net.addrs
    ensures CallsOk(net, c.(calls := c.calls[id := Call(req, [at], Executing)]))
  {
    var c' := c.(calls := c.calls[id := Call(req, [at], Executing)]);
    forall link ensures LinkOk(c', link) {
      assert LinkOk(c, link);
    }
    forall other | other in c'.calls ensures CallOk(net, c', other) {
      assert other != id ==> CallOk(net, c, other);
    }
  }

  /** No step of one store brings in a foreign key, if what it writes is its own. */
  lemma {:induction false} StoreStepHoldsOwn(net: Net, a: Addr, s: E.State, step: E.Step)
    requires Agreed(net) && HoldsOwn(net, a, s)
    requires step.Store? && step.key != "" ==> net.owner(step.key) == a
    ensures HoldsOwn(net, a, E.Apply(s, step))
  {
    forall k | k in E.Apply(s, step).table.records && k != "" ensures net.owner(k) == a {
      assert k in s.table.records || (step.Store? && k == step.key);
    }
  }

  /** One store moves by one of its own steps. */
  lemma {:induction false} StoreStepKeepsStores(net: Net, c: Cluster, a: Addr, step: E.Step)
    requires Agreed(net) && StoresOk(net, c) && a in net.addrs && E.Enabled(c.stores[a], step)
    requires step.Store? && step.key != "" ==> net.owner(step.key) == a
    ensures StoresOk(net, c.(stores := c.stores[a := E.Apply(c.stores[a], step)]))
  {
    E.StepKeepsInv(c.stores[a], step);
    StoreStepHoldsOwn(net, a, c.stores[a], step);
    var s := E.Apply(c.stores[a], step);
    assert E.Inv(s) && HoldsOwn(net, a, s);
    ReplaceStore(net, c, a, s);
  }

  lemma ReplaceStore(net: Net, c: Cluster, a: Addr, s: E.State)
    requires Agreed(net) && StoresOk(net, c) && a in net.addrs && E.Inv(s) && HoldsOwn(net, a, s)
    ensures StoresOk(net, c.(stores := c.stores[a := s]))
  {
  }

  lemma {:induction false} AdvanceKeepsStores(net: Net, c: Cluster, id: Id, m: Moment)
    requires Agreed(net) && StoresOk(net, c) && Sound(net, c) && Enabled(net, c, Advance(id, m))
    ensures StoresOk(net, Moved(net, c, id, m))
  {
    if Servable(net, c, id) {
      ServeChanges(net, c, id, m);
      StoreStepKeepsStores(net, c, Here(c.calls[id]), StepOf(c.calls[id].req, m));
    } else {
      UnservedChangesNoStore(net, c, id, m);
    }
  }

  lemma UnservedChangesNoStore(net: Net, c: Cluster, id: Id, m: Moment)
    requires Sound(net, c) && id in c.calls && !Servable(net, c, id)
    ensures Moved(net, c, id, m).stores == c.stores
  {
  }

  lemma {:induction false} BackgroundKeepsInv(net: Net, c: Cluster, at: Addr, s: E.Step)
    requires Inv(net, c) && Sound(net, c) && Enabled(net, c, Background(at, s))
    ensures Inv(net, Apply(net, c, Background(at, s)))
  {
    StoreStepKeepsStores(net, c, at, s);
    OtherStoresKeepCalls(net, c, Apply(net, c, Background(at, s)).stores);
  }

  lemma {:induction false} StepKeepsInv(net: Net, c: Cluster, step: Step)
    requires Inv(net, c) && Sound(net, c) && Enabled(net, c, step)
    ensures Inv(net, Apply(net, c, step)) && Sound(net, Apply(net, c, step))
  {
    match step {
      case Arrive(id, at, req) => ArriveKeepsCalls(net, c, id, at, req);
      case Background(at, s) => BackgroundKeepsInv(net, c, at, s);
      case Advance(id, m) =>
        AdvanceKeepsCalls(net, c, id, m);
        AdvanceKeepsStores(net, c, id, m);
    }
    InvIsSound(net, Apply(net, c, step));
  }

  /** Fresh stores, each with its own clock, and no calls. */
  ghost predicate Initial(net: Net, c: Cluster) {
    && c.stores.Keys == net.addrs
    && (forall a :: a in net.addrs ==> exists clock :: clock > 0 && c.stores[a] == E.Init(clock))
    && c.calls == map[] && c.locks == map[] && c.busy == {}
  }

  lemma InitialInv(net: Net, c: Cluster)
    requires Agreed(net) && Initial(net, c)
    ensures Inv(net, c) && Sound(net, c)
  {
    InvIsSound(net, c);
  }
}
