/**
 The cluster refines the single map: every step of every behaviour is one step of the
 map, or none, and every call is answered as the map answers at one moment of the call.
 */
module Refinement {
  import opened Wrappers
  import opened Nodes
  import opened Routing
  import opened Requests
  import opened Records
  import opened HeapOrder
  import E = Expiry
  import H = History
  import opened Clusters
  import S = SingleMap

  type Stores = map<Addr, E.State>

  /**
   Under each key the map has what the owner has; every scheduled expiry is one of its
   deadlines; its zones are the servers, with their clocks.
   */
  ghost predicate Simulates(net: Net, stores: Stores, a: S.Single)
    requires Agreed(net) && stores.Keys == net.addrs
  {
    && (forall k :: Lookup(a.records, k) == if k == "" then None else stores[net.owner(k)].Record(k))
    && (forall x, e :: x in net.addrs && e in stores[x].heap && e.key != "" ==> e in a.deadlines)
    && ClocksMatch(net, stores, a)
  }

  ghost predicate ClocksMatch(net: Net, stores: Stores, a: S.Single)
    requires stores.Keys == net.addrs
  {
    a.clocks.Keys == net.addrs && forall x :: x in net.addrs ==> a.clocks[x] == stores[x].clock
  }

  /** The step of the map that a step of the cluster amounts to. */
  ghost function MoveOf(net: Net, c: Cluster, step: Step): S.Move
    requires Sound(net, c) && Enabled(net, c, step)
  {
    match step
    case Arrive(_, _, _) => S.Stutter
    case Advance(id, m) =>
      if !Servable(net, c, id) then S.Stutter
      else ServeMove(c.stores[Here(c.calls[id])], Here(c.calls[id]), c.calls[id].req, m)
    case Background(at, s) => BackgroundMove(c.stores[at], at, s)
  }

  /** What the map sees of the moment in which a request is served. */
  function ReadingsOf(m: Moment): S.Readings {
    S.Readings(m.first, m.second, m.last)
  }

  /** A request with a key is an operation of the map; for any other only time passes. */
  ghost function ServeMove(s: E.State, at: Addr, req: Request, m: Moment): S.Move {
    if req.Hash() != "" then S.Op(req, ReadingsOf(m)) else S.Pass(at, E.Apply(s, StepOf(req, m)).clock)
  }

  ghost function BackgroundMove(s: E.State, at: Addr, step: E.Step): S.Move {
    if step.Drain? then S.Lose(at, Drops(s, step.cutoff)) else S.Pass(at, E.Apply(s, step).clock)
  }

  /** The records that a drain takes away, leaving out the empty key. */
  ghost function Drops(s: E.State, cutoff: int): set<Key> {
    set k | k in KeysOf(Expired(s.heap, cutoff)) && k in s.table.records && k != ""
  }

  // ---------- one store step at a time ----------

  lemma OtherKeysUntouched(s: E.State, req: Request, m: Moment, k: Key)
    requires k != req.Hash() && (req.ListKeys? || k != req.key)
    ensures E.Apply(s, StepOf(req, m)).Record(k) == s.Record(k)
  {
  }

  lemma ServedAsByMap(net: Net, stores: Stores, a: S.Single, at: Addr, req: Request, m: Moment)
    requires Agreed(net) && stores.Keys == net.addrs && Simulates(net, stores, a)
    requires req.Hash() != "" && at == net.owner(req.Hash())
    ensures at in net.addrs && Answer(stores[at], req, m) == S.Answer(a, req, ReadingsOf(m))
    ensures E.Apply(stores[at], StepOf(req, m)).Record(req.key)
      == Lookup(S.Served(a, req, ReadingsOf(m)).records, req.key)
  {
    assert Lookup(a.records, req.key) == stores[at].Record(req.key);
  }

  lemma RecordsSimulated(net: Net, stores: Stores, a: S.Single, at: Addr, req: Request, m: Moment, k: Key)
    requires Agreed(net) && stores.Keys == net.addrs && Simulates(net, stores, a)
    requires req.Hash() != "" && at == net.owner(req.Hash())
    ensures at in net.addrs
    ensures Lookup(S.Served(a, req, ReadingsOf(m)).records, k)
      == if k == "" then None else stores[at := E.Apply(stores[at], StepOf(req, m))][net.owner(k)].Record(k)
  {
    ServedAsByMap(net, stores, a, at, req, m);
    if k != req.key {
      OtherKeysUntouched(stores[at], req, m, k);
      assert Lookup(S.Served(a, req, ReadingsOf(m)).records, k) == Lookup(a.records, k);
    }
  }

  lemma DeadlinesSimulated(net: Net, stores: Stores, a: S.Single, at: Addr, req: Request, m: Moment)
    requires Agreed(net) && stores.Keys == net.addrs && Simulates(net, stores, a)
    requires req.Hash() != "" && at == net.owner(req.Hash())
    ensures forall e :: e in E.Apply(stores[at], StepOf(req, m)).heap && e.key != "" ==>
      e in S.Served(a, req, ReadingsOf(m)).deadlines
    ensures a.deadlines <= S.Served(a, req, ReadingsOf(m)).deadlines
  {
    var s := stores[at];
    assert Lookup(a.records, req.key) == s.Record(req.key);
    H.HeapGrows(s, StepOf(req, m));
  }

  /** The owner's clock readings are readings of the clock of the key's zone. */
  lemma ServeIsTimely(net: Net, stores: Stores, a: S.Single, at: Addr, req: Request, m: Moment)
    requires Agreed(net) && stores.Keys == net.addrs && ClocksMatch(net, stores, a)
    requires req.Hash() != "" && at == net.owner(req.Hash()) && E.Enabled(stores[at], StepOf(req, m))
    ensures S.Enabled(net.owner, a, S.Op(req, ReadingsOf(m)))
    ensures S.Until(req, ReadingsOf(m), a.clocks[at]) == E.Apply(stores[at], StepOf(req, m)).clock
  {
  }

  /** Serving a request under a key at its owner is that request on the map. */
  lemma ServeSimulated(net: Net, stores: Stores, a: S.Single, at: Addr, req: Request, m: Moment)
    requires Agreed(net) && stores.Keys == net.addrs && Simulates(net, stores, a)
    requires req.Hash() != "" && at == net.owner(req.Hash()) && E.Enabled(stores[at], StepOf(req, m))
    ensures S.Enabled(net.owner, a, S.Op(req, ReadingsOf(m)))
    ensures var s' := E.Apply(stores[at], StepOf(req, m));
            Simulates(net, stores[at := s'], S.Apply(net.owner, a, S.Op(req, ReadingsOf(m))))
  {
    ServeIsTimely(net, stores, a, at, req, m);
    forall k ensures Lookup(S.Served(a, req, ReadingsOf(m)).records, k)
      == if k == "" then None else stores[at := E.Apply(stores[at], StepOf(req, m))][net.owner(k)].Record(k)
    {
      RecordsSimulated(net, stores, a, at, req, m, k);
    }
    DeadlinesSimulated(net, stores, a, at, req, m);
  }

  /** A store that moves on to show the same under every key of the map is, for the map, time passing. */
  lemma UnseenChange(net: Net, stores: Stores, a: S.Single, at: Addr, s': E.State)
    requires Agreed(net) && stores.Keys == net.addrs && Simulates(net, stores, a) && at in net.addrs
    requires stores[at].clock <= s'.clock && forall k :: k != "" ==> s'.Record(k) == stores[at].Record(k)
    requires forall e :: e in s'.heap && e.key != "" ==> e in stores[at].heap
    ensures S.Enabled(net.owner, a, S.Pass(at, s'.clock))
    ensures Simulates(net, stores[at := s'], S.Apply(net.owner, a, S.Pass(at, s'.clock)))
  {
  }

  /** A request with the empty key, or for the key list, changes nothing the map can see but the time. */
  lemma EmptyKeyUnseen(net: Net, stores: Stores, a: S.Single, at: Addr, req: Request, m: Moment)
    requires Agreed(net) && stores.Keys == net.addrs && Simulates(net, stores, a)
    requires req.Hash() == "" && at in net.addrs && E.Enabled(stores[at], StepOf(req, m))
    ensures var s' := E.Apply(stores[at], StepOf(req, m));
            && S.Enabled(net.owner, a, S.Pass(at, s'.clock))
            && Simulates(net, stores[at := s'], S.Apply(net.owner, a, S.Pass(at, s'.clock)))
  {
    var s := stores[at];
    H.StepKeepsClock(s, StepOf(req, m));
    H.HeapGrows(s, StepOf(req, m));
    forall k | k != "" ensures E.Apply(s, StepOf(req, m)).Record(k) == s.Record(k) {
      OtherKeysUntouched(s, req, m, k);
    }
    UnseenChange(net, stores, a, at, E.Apply(s, StepOf(req, m)));
  }

  lemma DrainRecords(s: E.State, cutoff: int, k: Key)
    requires k != ""
    ensures E.Drained(s, cutoff).Record(k) == if k in Drops(s, cutoff) then None else s.Record(k)
  {
  }

  /** A record that a drain takes away has a deadline that has passed on the server's clock. */
  lemma DropsAreElapsed(net: Net, stores: Stores, a: S.Single, at: Addr, cutoff: int, k: Key)
    requires Agreed(net) && stores.Keys == net.addrs && Simulates(net, stores, a)
    requires at in net.addrs && E.Inv(stores[at]) && HoldsOwn(net, at, stores[at])
    requires E.Enabled(stores[at], E.Drain(cutoff)) && k in Drops(stores[at], cutoff)
    ensures net.owner(k) == at && S.Elapsed(net.owner, a, k)
  {
    var s := stores[at];
    DrainTakesSuffix(s.heap, cutoff);
    var e :| e in Expired(s.heap, cutoff) && e.key == k;
    assert e in s.heap && e in a.deadlines;
  }

  /** A drain is a loss of records whose deadlines have passed. */
  lemma DrainSimulated(net: Net, stores: Stores, a: S.Single, at: Addr, cutoff: int)
    requires Agreed(net) && stores.Keys == net.addrs && Simulates(net, stores, a)
    requires at in net.addrs && E.Inv(stores[at]) && HoldsOwn(net, at, stores[at])
    requires E.Enabled(stores[at], E.Drain(cutoff))
    ensures S.Enabled(net.owner, a, S.Lose(at, Drops(stores[at], cutoff)))
    ensures Simulates(net, stores[at := E.Drained(stores[at], cutoff)],
                      S.Apply(net.owner, a, S.Lose(at, Drops(stores[at], cutoff))))
  {
    var s := stores[at];
    var gone := Drops(s, cutoff);
    forall k | k in gone ensures net.owner(k) == at && S.Elapsed(net.owner, a, k) {
      DropsAreElapsed(net, stores, a, at, cutoff, k);
    }
    var a' := S.Apply(net.owner, a, S.Lose(at, gone));
    forall k ensures Lookup(a'.records, k)
      == if k == "" then None else stores[at := E.Drained(s, cutoff)][net.owner(k)].Record(k)
    {
      if k != "" {
        DrainRecords(s, cutoff, k);
        assert Lookup(a.records, k) == stores[net.owner(k)].Record(k);
        if k in gone {
          assert net.owner(k) == at && Lookup(a'.records, k) == None;
        } else {
          assert Lookup(a'.records, k) == Lookup(a.records, k);
          assert E.Drained(s, cutoff).Record(k) == s.Record(k);
        }
      }
    }
    assert forall e :: e in Remaining(s.heap, cutoff) ==> e in s.heap;
  }

  /** What a step of the cluster makes of the stores. */
  ghost function StoresAfter(net: Net, c: Cluster, step: Step): Stores
    requires Sound(net, c) && Enabled(net, c, step)
  {
    match step
    case Arrive(_, _, _) => c.stores
    case Background(at, s) => c.stores[at := E.Apply(c.stores[at], s)]
    case Advance(id, m) =>
      if Servable(net, c, id) then
        var here := Here(c.calls[id]);
        c.stores[here := E.Apply(c.stores[here], StepOf(c.calls[id].req, m))]
      else c.stores
  }

  lemma ApplyStores(net: Net, c: Cluster, step: Step)
    requires Sound(net, c) && Enabled(net, c, step)
    ensures Apply(net, c, step).stores == StoresAfter(net, c, step)
    ensures StoresAfter(net, c, step).Keys == net.addrs
  {
  }

  /** Every step of the cluster is the matching step of the map. */
  lemma StepSimulated(net: Net, c: Cluster, a: S.Single, step: Step)
    requires Inv(net, c) && Sound(net, c) && Enabled(net, c, step) && Simulates(net, c.stores, a)
    ensures StoresAfter(net, c, step).Keys == net.addrs
    ensures S.Enabled(net.owner, a, MoveOf(net, c, step))
    ensures Simulates(net, StoresAfter(net, c, step), S.Apply(net.owner, a, MoveOf(net, c, step)))
  {
    ApplyStores(net, c, step);
    match step
    case Arrive(_, _, _) =>
    case Background(at, s) => BackgroundSimulated(net, c.stores, a, at, s);
    case Advance(id, m) =>
      if Servable(net, c, id) {
        var call := c.calls[id];
        if call.req.Hash() == "" {
          EmptyKeyUnseen(net, c.stores, a, Here(call), call.req, m);
        } else {
          ServeSimulated(net, c.stores, a, Here(call), call.req, m);
        }
      }
  }

  lemma BackgroundIsUnseen(s: E.State, step: E.Step)
    requires step.Tick? || step.Fire? || step.Rearm?
    ensures E.Apply(s, step).table == s.table && E.Apply(s, step).heap == s.heap
  {
  }

  lemma BackgroundSimulated(net: Net, stores: Stores, a: S.Single, at: Addr, s: E.Step)
    requires Agreed(net) && stores.Keys == net.addrs && Simulates(net, stores, a)
    requires at in net.addrs && E.Inv(stores[at]) && HoldsOwn(net, at, stores[at])
    requires (s.Tick? || s.Fire? || s.Drain? || s.Rearm?) && E.Enabled(stores[at], s)
    ensures S.Enabled(net.owner, a, BackgroundMove(stores[at], at, s))
    ensures Simulates(net, stores[at := E.Apply(stores[at], s)],
                      S.Apply(net.owner, a, BackgroundMove(stores[at], at, s)))
  {
    if s.Drain? {
      DrainSimulated(net, stores, a, at, s.cutoff);
    } else {
      H.StepKeepsClock(stores[at], s);
      BackgroundIsUnseen(stores[at], s);
      UnseenChange(net, stores, a, at, E.Apply(stores[at], s));
    }
  }

  /** The answer of a call that is served under a key is the map's. */
  lemma AnsweredAsByMap(net: Net, c: Cluster, a: S.Single, id: Id, m: Moment)
    requires Agreed(net) && Sound(net, c) && Enabled(net, c, Advance(id, m)) && Simulates(net, c.stores, a)
    requires Servable(net, c, id) && c.calls[id].req.Hash() != ""
    ensures var call := c.calls[id];
            Moved(net, c, id, m).calls[id] == call.(phase := Answered(S.Answer(a, call.req, ReadingsOf(m))))
  {
    ServeChanges(net, c, id, m);
    ServedAsByMap(net, c.stores, a, Here(c.calls[id]), c.calls[id].req, m);
  }

  // ---------- whole behaviours ----------

  ghost predicate Next(net: Net, c: Cluster, step: Step, c': Cluster) {
    Sound(net, c) && Enabled(net, c, step) && c' == Apply(net, c, step)
  }

  /** A finite history of the cluster: where it is, and how it got there. */
  datatype Behaviour = Start(now: Cluster) | Then(before: Behaviour, step: Step, now: Cluster)

  /** Any run of the cluster from its start, with calls arriving anywhere and everything interleaving. */
  ghost predicate Possible(net: Net, b: Behaviour) {
    match b
    case Start(c) => Initial(net, c)
    case Then(before, step, c') => Possible(net, before) && Next(net, before.now, step, c')
  }

  /** Whether a behaviour was at some time like this. */
  predicate PassedThrough(b: Behaviour, earlier: Behaviour) {
    b == earlier || (b.Then? && PassedThrough(b.before, earlier))
  }

  /** The map before anything was stored, with the clocks of the servers. */
  ghost function EmptyMap(c: Cluster): S.Single {
    S.Single(map[], {}, map x | x in c.stores :: c.stores[x].clock)
  }

  /** The single map after the moves that the steps of the behaviour amount to. */
  ghost function MapAfter(net: Net, b: Behaviour): S.Single
    requires Possible(net, b)
  {
    match b
    case Start(c) => EmptyMap(c)
    case Then(before, step, _) => S.Apply(net.owner, MapAfter(net, before), MoveOf(net, before.now, step))
  }

  lemma NextKeepsInv(net: Net, c: Cluster, step: Step, c': Cluster)
    requires Inv(net, c) && Next(net, c, step, c')
    ensures Inv(net, c') && Sound(net, c')
  {
    StepKeepsInv(net, c, step);
  }

  lemma {:induction false} BehaviourKeepsInv(net: Net, b: Behaviour)
    requires Agreed(net) && Possible(net, b)
    ensures Inv(net, b.now) && Sound(net, b.now)
  {
    match b
    case Start(c) => InitialInv(net, c);
    case Then(before, step, c') =>
      BehaviourKeepsInv(net, before);
      NextKeepsInv(net, before.now, step, c');
  }

  lemma NextSimulated(net: Net, c: Cluster, step: Step, c': Cluster, a: S.Single)
    requires Inv(net, c) && Next(net, c, step, c') && Simulates(net, c.stores, a)
    ensures S.Enabled(net.owner, a, MoveOf(net, c, step))
    ensures c'.stores.Keys == net.addrs
    ensures Simulates(net, c'.stores, S.Apply(net.owner, a, MoveOf(net, c, step)))
  {
    StepSimulated(net, c, a, step);
    ApplyStores(net, c, step);
  }

  lemma InitialSimulated(net: Net, c: Cluster)
    requires Agreed(net) && Initial(net, c)
    ensures Simulates(net, c.stores, EmptyMap(c))
  {
  }

  /**
   Every behaviour of the cluster is, step for step, a behaviour of the single map: each
   step's move is one the map can make, and the map goes on showing what the owners hold.
   */
  lemma {:induction false} ClusterRefinesSingleMap(net: Net, b: Behaviour)
    requires Agreed(net) && Possible(net, b)
    ensures Inv(net, b.now) && Simulates(net, b.now.stores, MapAfter(net, b))
    ensures b.Then? ==> S.Enabled(net.owner, MapAfter(net, b.before), MoveOf(net, b.before.now, b.step))
  {
    BehaviourKeepsInv(net, b);
    match b
    case Start(c) => InitialSimulated(net, c);
    case Then(before, step, c') =>
      ClusterRefinesSingleMap(net, before);
      NextSimulated(net, before.now, step, c', MapAfter(net, before));
  }

  lemma {:induction false} MapIsCovered(net: Net, b: Behaviour)
    requires Possible(net, b)
    ensures S.Covered(MapAfter(net, b))
  {
    if b.Then? {
      MapIsCovered(net, b.before);
      S.MoveKeepsCovered(net.owner, MapAfter(net, b.before), MoveOf(net, b.before.now, b.step));
    }
  }

  /** A step takes a record out of the map only by serving a delete of its key, or after a deadline of its key. */
  lemma RecordsLeaveInTime(net: Net, b: Behaviour, key: Key)
    requires Agreed(net) && Possible(net, b) && b.Then?
    requires key in MapAfter(net, b.before).records && key !in MapAfter(net, b).records
    ensures (MoveOf(net, b.before.now, b.step).Op? && MoveOf(net, b.before.now, b.step).req == Remove(key))
      || S.Elapsed(net.owner, MapAfter(net, b), key)
  {
    ClusterRefinesSingleMap(net, b);
    MapIsCovered(net, b.before);
    S.LossNeedsElapsedLifetime(net.owner, MapAfter(net, b.before), MoveOf(net, b.before.now, b.step), key);
  }

  // ---------- answers ----------

  ghost predicate HasAnswer(c: Cluster, id: Id, resp: Response) {
    id in c.calls && (c.calls[id].phase == Answered(resp) || c.calls[id].phase == Finished(resp))
  }

  /** An answer appears when the call is served, and does not change on its way back. */
  lemma AnswerStays(net: Net, c: Cluster, step: Step, c': Cluster, id: Id, resp: Response)
    requires Next(net, c, step, c') && HasAnswer(c', id, resp)
    ensures id in c.calls && c.calls[id].req == c'.calls[id].req
    ensures HasAnswer(c, id, resp) || (step.Advance? && step.id == id && Servable(net, c, id))
  {
  }

  /** A call is answered once: it keeps its answer, and is not served again. */
  lemma {:induction false} AnswerIsFinal(net: Net, c: Cluster, step: Step, c': Cluster, id: Id, resp: Response)
    requires Next(net, c, step, c') && HasAnswer(c, id, resp)
    ensures HasAnswer(c', id, resp) && c'.calls[id].req == c.calls[id].req
    ensures step.Advance? && step.id == id ==> MoveOf(net, c, step).Stutter?
  {
  }

  /** This step serves the call at the owner of its key, and its answer is as promised and the map's at that step. */
  ghost predicate ServedAs(net: Net, c: Cluster, step: Step, a: S.Single, id: Id, req: Request, resp: Response)
    requires Sound(net, c) && Enabled(net, c, step)
  {
    && step.Advance? && step.id == id && id in c.calls && c.calls[id].req == req
    && Keyed(req) && Here(c.calls[id]) == net.owner(req.key)
    && Promised(a.records, req, step.m.first, step.m.second, resp)
    && MoveOf(net, c, step) == S.Op(req, ReadingsOf(step.m)) && resp == S.Answer(a, req, ReadingsOf(step.m))
  }

  /** This behaviour ends with the step that serves the call, with the map's answer at that very step. */
  ghost predicate EndsServing(net: Net, b: Behaviour, id: Id, req: Request, resp: Response)
    requires Possible(net, b)
  {
    && b.Then? && ServedAs(net, b.before.now, b.step, MapAfter(net, b.before), id, req, resp)
    && Leaves(MapAfter(net, b.before).records, req, resp, MapAfter(net, b).records)
  }

  lemma ServedAtOwner(net: Net, c: Cluster, id: Id)
    requires Agreed(net) && Sound(net, c) && Servable(net, c, id) && Keyed(c.calls[id].req)
    ensures Here(c.calls[id]) == net.owner(c.calls[id].req.key)
  {
    HashIsKey(c.calls[id].req);
  }

  lemma ServingKeepsPromise(net: Net, b: Behaviour, id: Id, resp: Response)
    requires Agreed(net) && Possible(net, b) && b.Then? && b.step.Advance? && b.step.id == id
    requires Servable(net, b.before.now, id) && HasAnswer(b.now, id, resp) && Keyed(b.now.calls[id].req)
    requires b.now.calls[id].req == b.before.now.calls[id].req
    ensures EndsServing(net, b, id, b.now.calls[id].req, resp)
  {
    var req, a := b.now.calls[id].req, MapAfter(net, b.before);
    HashIsKey(req);
    ServedAtOwner(net, b.before.now, id);
    ClusterRefinesSingleMap(net, b);
    ClusterRefinesSingleMap(net, b.before);
    AnsweredAsByMap(net, b.before.now, a, id, b.step.m);
    S.AnswerIsPromised(a, req, ReadingsOf(b.step.m));
  }

  /** An answered call with a key was served at one step after it arrived, as the single map would have. */
  lemma {:induction false} AnswersAreTheMaps(net: Net, b: Behaviour, id: Id, resp: Response)
    requires Agreed(net) && Possible(net, b) && HasAnswer(b.now, id, resp) && Keyed(b.now.calls[id].req)
    ensures exists served ::
      PassedThrough(b, served) && Possible(net, served) && EndsServing(net, served, id, b.now.calls[id].req, resp)
  {
    AnswerStays(net, b.before.now, b.step, b.now, id, resp);
    if HasAnswer(b.before.now, id, resp) {
      AnswersAreTheMaps(net, b.before, id, resp);
      var served :| PassedThrough(b.before, served) && Possible(net, served)
        && EndsServing(net, served, id, b.before.now.calls[id].req, resp);
      assert PassedThrough(b, served);
    } else {
      ServingKeepsPromise(net, b, id, resp);
      assert PassedThrough(b, b);
    }
  }

  // ---------- what the nodes list ----------

  lemma ListedIffOwned(net: Net, c: Cluster, a: S.Single, x: Addr, list: seq<Key>, k: Key)
    requires Inv(net, c) && Simulates(net, c.stores, a)
    requires x in net.addrs && c.stores[x].table.MayList(list) && k != ""
    ensures k in list <==> k in a.records && x == net.owner(k)
  {
    ListingIsDomain(c.stores[x].table, list);
    assert Lookup(a.records, k) == c.stores[net.owner(k)].Record(k);
  }

  /** These are key lists that the servers may answer, one each. */
  ghost predicate Listed(net: Net, c: Cluster, lists: map<Addr, seq<Key>>)
    requires c.stores.Keys == net.addrs
  {
    lists.Keys == net.addrs && forall x :: x in net.addrs ==> c.stores[x].table.MayList(lists[x])
  }

  /** The key lists of two servers share no key but the empty one. */
  lemma ListedKeysAreDisjoint(net: Net, c: Cluster, a: S.Single, lists: map<Addr, seq<Key>>, x: Addr, y: Addr, k: Key)
    requires Inv(net, c) && Simulates(net, c.stores, a) && Listed(net, c, lists)
    requires x in net.addrs && y in net.addrs && k != "" && k in lists[x] && k in lists[y]
    ensures x == y
  {
    ListedIffOwned(net, c, a, x, lists[x], k);
    ListedIffOwned(net, c, a, y, lists[y], k);
  }

  /** Together they list the map, and nothing else but the empty key. */
  lemma {:induction false} ListedKeysAreTheMaps(net: Net, c: Cluster, a: S.Single, lists: map<Addr, seq<Key>>, k: Key)
    requires Inv(net, c) && Simulates(net, c.stores, a) && Listed(net, c, lists)
    ensures k in a.records <==> k != "" && exists x :: x in net.addrs && k in lists[x]
  {
    if k == "" {
      assert Lookup(a.records, k) == None;
    } else {
      ListedIffOwned(net, c, a, net.owner(k), lists[net.owner(k)], k);
      if x :| x in net.addrs && k in lists[x] {
        ListedIffOwned(net, c, a, x, lists[x], k);
      }
    }
  }
}
