/**
 Calls that cross each other cannot block each other for ever: a call waits only for a
 peer lock, and whoever holds one is past all waiting.
 */
module Progress {
  import opened Nodes
  import opened Routing
  import opened Requests
  import R = Records
  import E = Expiry
  import P = Purge
  import opened Clusters
  import opened Refinement

  /** How many own steps a call has at most before it. */
  function Rank(call: Call): nat {
    match call.phase
    case Executing => if |call.path| == 1 then 6 else 3
    case Waiting(_) => 5
    case Sent(_) => 4
    case Answered(_) => if |call.path| == 1 then 1 else 2
    case Finished(_) => 0
  }

  /** What a call becomes by its own step. */
  ghost predicate ChangesTo(call: Call, servable: bool, call': Call) {
    match call.phase
    case Executing => call'.path == call.path && if servable then call'.phase.Answered? else call'.phase.Waiting?
    case Waiting(peer) => call'.path == call.path && call'.phase == Sent(peer)
    case Sent(_) => |call'.path| == |call.path| + 1 && call'.phase.Executing?
    case Answered(_) =>
      if |call.path| == 1 then call'.phase.Finished? else |call'.path| == |call.path| - 1 && call'.phase.Answered?
    case Finished(_) => false
  }

  lemma AdvanceChanges(net: Net, c: Cluster, id: Id, m: Moment)
    requires Sound(net, c) && Enabled(net, c, Advance(id, m))
    ensures id in Moved(net, c, id, m).calls
    ensures ChangesTo(c.calls[id], Servable(net, c, id), Moved(net, c, id, m).calls[id])
  {
  }

  /** A call has been handed on at most once, and is then executing, which it can, or answered. */
  ghost predicate Shaped(call: Call, servable: bool) {
    || |call.path| == 1
    || (|call.path| == 2 && ((call.phase.Executing? && servable) || call.phase.Answered?))
  }

  lemma CallIsShaped(net: Net, c: Cluster, id: Id)
    requires Inv(net, c) && Sound(net, c) && id in c.calls
    ensures Shaped(c.calls[id], Servable(net, c, id))
  {
    assert CallOk(net, c, id);
  }

  lemma ChangeLowersRank(call: Call, servable: bool, call': Call)
    requires Shaped(call, servable) && ChangesTo(call, servable, call')
    ensures Rank(call') < Rank(call)
  {
  }

  /** Each own step of a call brings it nearer its end. */
  lemma {:induction false} AdvanceMakesProgress(net: Net, c: Cluster, id: Id, m: Moment)
    requires Inv(net, c) && Sound(net, c) && Enabled(net, c, Advance(id, m))
    ensures id in Moved(net, c, id, m).calls && Rank(Moved(net, c, id, m).calls[id]) < Rank(c.calls[id])
  {
    CallIsShaped(net, c, id);
    AdvanceChanges(net, c, id, m);
    ChangeLowersRank(c.calls[id], Servable(net, c, id), Moved(net, c, id, m).calls[id]);
  }

  lemma AdvanceMovesOneCall(net: Net, c: Cluster, id: Id, m: Moment, other: Id)
    requires Sound(net, c) && Enabled(net, c, Advance(id, m)) && other in c.calls && other != id
    ensures other in Moved(net, c, id, m).calls && Moved(net, c, id, m).calls[other] == c.calls[other]
  {
  }

  /** No step takes a call back, and a step of its own takes it forward. */
  lemma {:induction false} StepRank(net: Net, c: Cluster, step: Step, id: Id)
    requires Inv(net, c) && Sound(net, c) && Enabled(net, c, step) && id in c.calls
    ensures id in Apply(net, c, step).calls
    ensures Rank(Apply(net, c, step).calls[id]) + (if step.Advance? && step.id == id then 1 else 0) <= Rank(c.calls[id])
  {
    match step
    case Arrive(_, _, _) =>
    case Background(_, _) =>
    case Advance(other, m) =>
      if other == id {
        AdvanceMakesProgress(net, c, id, m);
      } else {
        AdvanceMovesOneCall(net, c, other, m, id);
      }
  }

  /** Something to do for this call, at some moment. */
  ghost predicate Ready(net: Net, c: Cluster, id: Id)
    requires Sound(net, c)
  {
    exists m :: Enabled(net, c, Advance(id, m))
  }

  lemma {:induction false} SomeOrder(keys: set<R.Key>) returns (order: seq<R.Key>)
    ensures R.Enumerates(order, keys)
    decreases keys
  {
    if keys == {} {
      order := [];
    } else {
      var k :| k in keys;
      var rest := SomeOrder(keys - {k});
      order := [k] + rest;
    }
  }

  /** A request can always be served: the clock stands still and a stale key list is rebuilt somehow. */
  lemma ServableIsReady(net: Net, c: Cluster, id: Id)
    requires Sound(net, c) && Servable(net, c, id)
    ensures Ready(net, c, id)
  {
    var s := c.stores[Here(c.calls[id])];
    var order := SomeOrder(s.table.records.Keys);
    var m := Moment(s.clock, s.clock, s.clock, s.clock, false, if s.table.dirty then order else s.table.keys);
    assert Enabled(net, c, Advance(id, m));
  }

  /** Only a call that waits for a taken lock has to wait. */
  lemma ReadyUnlessLocked(net: Net, c: Cluster, id: Id)
    requires Inv(net, c) && Sound(net, c) && id in c.calls && !c.calls[id].phase.Finished?
    requires c.calls[id].phase.Waiting? ==> Link(Here(c.calls[id]), c.calls[id].phase.peer) !in c.locks
    ensures Ready(net, c, id)
  {
    var call := c.calls[id];
    assert CallOk(net, c, id);
    var m := Moment(0, 0, 0, 0, false, []);
    if Servable(net, c, id) {
      ServableIsReady(net, c, id);
    } else {
      if call.phase.Sent? {
        assert call.path == [Here(call)];
        assert LinkOk(c, Link(Here(call), call.phase.peer));
      }
      assert Enabled(net, c, Advance(id, m));
    }
  }

  lemma HolderCanMove(net: Net, c: Cluster, link: Link)
    requires Inv(net, c) && Sound(net, c) && link in c.locks
    ensures var holder := c.locks[link];
            && holder in c.calls && !c.calls[holder].phase.Waiting? && !c.calls[holder].phase.Finished?
            && Ready(net, c, holder)
  {
    assert LinkOk(c, link);
    assert CallOk(net, c, c.locks[link]);
    ReadyUnlessLocked(net, c, c.locks[link]);
  }

  /**
   No circular wait: in every state an unfinished call can move, or it waits for a lock
   whose holder can move and is itself not waiting.
   */
  lemma NoCircularWait(net: Net, c: Cluster, id: Id)
    requires Inv(net, c) && Sound(net, c) && id in c.calls && !c.calls[id].phase.Finished?
    ensures Ready(net, c, id)
      || exists holder :: holder in c.calls && !c.calls[holder].phase.Waiting? && !c.calls[holder].phase.Finished?
           && Ready(net, c, holder)
           && c.calls[id].phase.Waiting? && Held(c, Link(Here(c.calls[id]), c.calls[id].phase.peer), holder)
  {
    var call := c.calls[id];
    if call.phase.Waiting? && Link(Here(call), call.phase.peer) in c.locks {
      var link := Link(Here(call), call.phase.peer);
      HolderCanMove(net, c, link);
      assert Held(c, link, c.locks[link]);
    } else {
      ReadyUnlessLocked(net, c, id);
    }
  }

  /** A cluster in which no call can move has no unfinished call. */
  lemma StuckMeansFinished(net: Net, c: Cluster)
    requires Inv(net, c) && Sound(net, c)
    requires forall id :: id in c.calls ==> !Ready(net, c, id)
    ensures forall id :: id in c.calls ==> c.calls[id].phase.Finished?
  {
    forall id | id in c.calls ensures c.calls[id].phase.Finished? {
      if !c.calls[id].phase.Finished? {
        NoCircularWait(net, c, id);
      }
    }
  }

  /** The code that handles a request on a peer's behalf never waits for a lock itself. */
  lemma {:induction false} HandlersNeverWait(net: Net, c: Cluster, id: Id)
    requires Inv(net, c) && Sound(net, c) && id in c.calls && |c.calls[id].path| > 1
    ensures |c.calls[id].path| == 2 && !c.calls[id].phase.Waiting?
    ensures c.calls[id].phase.Executing? ==> Servable(net, c, id)
  {
    assert CallOk(net, c, id);
  }

  /** How many steps of the behaviour are the call's own. */
  ghost function OwnSteps(b: Behaviour, id: Id): nat {
    match b
    case Start(_) => 0
    case Then(before, step, _) => OwnSteps(before, id) + if step.Advance? && step.id == id then 1 else 0
  }

  /** However calls, arrivals and timers interleave, a call is through after at most six own steps. */
  lemma {:induction false} SixStepsPerCall(net: Net, b: Behaviour, id: Id)
    requires Agreed(net) && Possible(net, b)
    ensures OwnSteps(b, id) + (if id in b.now.calls then Rank(b.now.calls[id]) else 6) <= 6
  {
    if b.Then? {
      BehaviourKeepsInv(net, b.before);
      NextRank(net, b.before.now, b.step, b.now, id);
      SixStepsPerCall(net, b.before, id);
    }
  }

  lemma {:induction false} NextRank(net: Net, c: Cluster, step: Step, c': Cluster, id: Id)
    requires Inv(net, c) && Next(net, c, step, c')
    ensures id in c.calls ==>
      id in c'.calls && Rank(c'.calls[id]) + (if step.Advance? && step.id == id then 1 else 0) <= Rank(c.calls[id])
    ensures id !in c.calls ==>
      !(step.Advance? && step.id == id) && (id in c'.calls ==> Rank(c'.calls[id]) == 6)
  {
    if id in c.calls {
      StepRank(net, c, step, id);
    } else {
      NewCall(net, c, step, id);
    }
  }

  lemma NewCall(net: Net, c: Cluster, step: Step, id: Id)
    requires Sound(net, c) && Enabled(net, c, step) && id !in c.calls
    ensures !(step.Advance? && step.id == id)
    ensures id in Apply(net, c, step).calls ==> Rank(Apply(net, c, step).calls[id]) == 6
  {
  }

  // ---------- every request can be answered ----------

  lemma StartStays(net: Net, c: Cluster, id: Id, m: Moment)
    requires Sound(net, c) && Enabled(net, c, Advance(id, m))
    ensures id in Moved(net, c, id, m).calls
    ensures var call, call' := c.calls[id], Moved(net, c, id, m).calls[id];
            call'.req == call.req && call'.path != [] && call'.path[0] == call.path[0]
  {
  }

  /** How far the call that holds the lock this one waits for is from its end. */
  ghost function InTheWay(c: Cluster, id: Id): nat
    requires id in c.calls && c.calls[id].path != []
  {
    var call := c.calls[id];
    if !call.phase.Waiting? then 0
    else
      var link := Link(Here(call), call.phase.peer);
      if link in c.locks && c.locks[link] in c.calls then Rank(c.calls[c.locks[link]]) else 0
  }

  /** What a call is, apart from how far it has come: the request, and where it arrived. */
  ghost predicate SameCall(call: Call, call': Call) {
    call.path != [] && call'.path != [] && call'.path[0] == call.path[0] && call'.req == call.req
  }

  /** The holder of a lock gives it up, or comes nearer its end. */
  lemma HolderMoves(net: Net, c: Cluster, id: Id, holder: Id, m: Moment)
    requires Inv(net, c) && Sound(net, c) && id in c.calls && c.calls[id].phase.Waiting?
    requires Held(c, Link(Here(c.calls[id]), c.calls[id].phase.peer), holder) && holder != id
    requires Enabled(net, c, Advance(holder, m)) && !c.calls[holder].phase.Waiting?
    ensures var c' := Moved(net, c, holder, m);
            id in c'.calls && c'.calls[id] == c.calls[id] && InTheWay(c', id) < InTheWay(c, id)
  {
    AdvanceMovesOneCall(net, c, holder, m, id);
    AdvanceMakesProgress(net, c, holder, m);
    assert LinkOk(c, Link(Here(c.calls[id]), c.calls[id].phase.peer));
    assert CallOk(net, c, holder);
  }

  /** Some step brings the call nearer its end, or makes way for it. */
  lemma StepTowards(net: Net, b: Behaviour, id: Id) returns (b': Behaviour)
    requires Agreed(net) && Possible(net, b) && Inv(net, b.now) && Sound(net, b.now)
    requires id in b.now.calls && !b.now.calls[id].phase.Finished?
    ensures b'.Then? && b'.before == b && Possible(net, b') && Inv(net, b'.now) && Sound(net, b'.now)
    ensures id in b'.now.calls && SameCall(b.now.calls[id], b'.now.calls[id])
    ensures Rank(b'.now.calls[id]) < Rank(b.now.calls[id])
      || (b'.now.calls[id] == b.now.calls[id] && InTheWay(b'.now, id) < InTheWay(b.now, id))
  {
    var c := b.now;
    var mover := id;
    if !Ready(net, c, id) {
      NoCircularWait(net, c, id);
      mover :| mover in c.calls && !c.calls[mover].phase.Waiting? && !c.calls[mover].phase.Finished?
        && Ready(net, c, mover)
        && c.calls[id].phase.Waiting? && Held(c, Link(Here(c.calls[id]), c.calls[id].phase.peer), mover);
    }
    var m :| Enabled(net, c, Advance(mover, m));
    b' := Then(b, Advance(mover, m), Apply(net, c, Advance(mover, m)));
    NextKeepsInv(net, c, Advance(mover, m), b'.now);
    if mover == id {
      AdvanceMakesProgress(net, c, id, m);
      StartStays(net, c, id, m);
    } else {
      HolderMoves(net, c, id, mover, m);
    }
  }

  /** Steps of the call itself, and of whoever is in its way, bring it to its end. */
  lemma {:induction false} Finish(net: Net, b: Behaviour, id: Id) returns (b': Behaviour)
    requires Agreed(net) && Possible(net, b) && Inv(net, b.now) && Sound(net, b.now) && id in b.now.calls
    ensures Possible(net, b') && PassedThrough(b', b)
    ensures id in b'.now.calls && SameCall(b.now.calls[id], b'.now.calls[id]) && b'.now.calls[id].phase.Finished?
    decreases Rank(b.now.calls[id]), InTheWay(b.now, id)
  {
    if b.now.calls[id].phase.Finished? {
      b' := b;
    } else {
      var next := StepTowards(net, b, id);
      b' := Finish(net, next, id);
      PassedBefore(b', next, b);
    }
  }

  lemma {:induction false} PassedBefore(b: Behaviour, mid: Behaviour, start: Behaviour)
    requires PassedThrough(b, mid) && PassedThrough(mid, start)
    ensures PassedThrough(b, start)
  {
    if b != mid {
      PassedBefore(b.before, mid, start);
    }
  }

  lemma {:induction false} FreshId(ids: set<Id>) returns (id: Id)
    ensures id !in ids && forall other :: other in ids ==> other < id
    decreases ids
  {
    if ids == {} {
      id := 0;
    } else {
      var some :| some in ids;
      var rest := FreshId(ids - {some});
      id := if rest <= some then some + 1 else rest;
      assert forall other :: other in ids ==> other == some || other in ids - {some};
    }
  }

  /** At any time, any server can be asked anything, and the request can be brought to its answer. */
  lemma {:induction false} EveryRequestCanBeAnswered(net: Net, b: Behaviour, at: Addr, req: Request)
    requires Agreed(net) && Possible(net, b) && at in net.addrs
    ensures exists b', id :: Possible(net, b') && PassedThrough(b', b) && AnsweredAt(b', id, at, req)
  {
    BehaviourKeepsInv(net, b);
    var id := FreshId(b.now.calls.Keys);
    var step := Arrive(id, at, req);
    var asked := Then(b, step, Apply(net, b.now, step));
    NextKeepsInv(net, b.now, step, asked.now);
    var b' := Finish(net, asked, id);
    PassedBefore(b', asked, b);
    assert AnsweredAt(b', id, at, req);
  }

  /** The call with this request, made at this server, has its answer. */
  ghost predicate AnsweredAt(b: Behaviour, id: Id, at: Addr, req: Request) {
    && id in b.now.calls && b.now.calls[id].phase.Finished?
    && b.now.calls[id].req == req && b.now.calls[id].path != [] && b.now.calls[id].path[0] == at
  }

  // ---------- every store can be purged ----------

  /** The cluster with this store at this server. */
  function WithStore(c: Cluster, at: Addr, s: E.State): Cluster {
    c.(stores := c.stores[at := s])
  }

  lemma SameStore(c: Cluster, at: Addr)
    requires at in c.stores
    ensures WithStore(c, at, c.stores[at]) == c
  {
    assert c.stores[at := c.stores[at]] == c.stores;
  }

  lemma StoreTwice(c: Cluster, at: Addr, s: E.State, t: E.State)
    ensures WithStore(WithStore(c, at, s), at, t) == WithStore(c, at, t)
  {
    assert c.stores[at := s][at := t] == c.stores[at := t];
  }

  lemma OneInBackground(net: Net, b: Behaviour, at: Addr, step: E.Step) returns (b': Behaviour)
    requires Agreed(net) && Possible(net, b) && at in net.addrs && at in b.now.stores
    requires (step.Tick? || step.Fire? || step.Drain? || step.Rearm?) && E.Enabled(b.now.stores[at], step)
    ensures Possible(net, b') && PassedThrough(b', b)
    ensures b'.now == WithStore(b.now, at, E.Apply(b.now.stores[at], step))
  {
    BehaviourKeepsInv(net, b);
    b' := Then(b, Background(at, step), Apply(net, b.now, Background(at, step)));
  }

  lemma TimerOnlyPrefix(s: E.State, steps: seq<E.Step>, n: nat)
    requires P.TimerOnly(steps) && E.ValidRun(s, steps) && |steps| == n + 1
    ensures P.TimerOnly(steps[..n]) && E.ValidRun(s, steps[..n])
    ensures steps[n].Tick? || steps[n].Fire? || steps[n].Drain? || steps[n].Rearm?
    ensures E.Enabled(E.Run(s, steps[..n]), steps[n]) && E.Run(s, steps) == E.Apply(E.Run(s, steps[..n]), steps[n])
  {
  }

  /** Whatever clock, timer and handlers can do to a store by themselves, they can do in the running cluster. */
  lemma {:induction false} RunInBackground(net: Net, b: Behaviour, at: Addr, s: E.State, steps: seq<E.Step>)
    returns (b': Behaviour)
    requires Agreed(net) && Possible(net, b) && at in net.addrs && at in b.now.stores && b.now.stores[at] == s
    requires P.TimerOnly(steps) && E.ValidRun(s, steps)
    ensures Possible(net, b') && PassedThrough(b', b) && b'.now == WithStore(b.now, at, E.Run(s, steps))
    decreases |steps|
  {
    if steps == [] {
      b' := b;
      SameStore(b.now, at);
    } else {
      var n := |steps| - 1;
      TimerOnlyPrefix(s, steps, n);
      var mid := RunInBackground(net, b, at, s, steps[..n]);
      b' := OneInBackground(net, mid, at, steps[n]);
      StoreTwice(b.now, at, E.Run(s, steps[..n]), E.Run(s, steps));
      PassedBefore(b', mid, b);
    }
  }

  /** At any time, any server's store can be rid of all records with a lifetime, and nothing else changes. */
  lemma {:induction false} EveryStoreCanBePurged(net: Net, b: Behaviour, at: Addr)
    requires Agreed(net) && Possible(net, b) && at in net.addrs
    ensures at in b.now.stores
    ensures exists b', s ::
      Possible(net, b') && PassedThrough(b', b) && b'.now == WithStore(b.now, at, s) && P.Purged(s)
  {
    BehaviourKeepsInv(net, b);
    var s := b.now.stores[at];
    P.PurgeExists(s);
    var steps :| P.TimerOnly(steps) && E.ValidRun(s, steps) && P.Purged(E.Run(s, steps));
    var b' := RunInBackground(net, b, at, s, steps);
    assert b'.now == WithStore(b.now, at, E.Run(s, steps));
  }
}
