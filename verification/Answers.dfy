/**
 What the cluster answers to a get, told by the requests served before it: the data and the
 lifetime of the latest put, or nothing, once that is deleted or a lifetime of the key is over.
 */
module Answers {
  import opened Wrappers
  import opened Records
  import opened Requests
  import opened Routing
  import opened Clusters
  import opened Refinement
  import H = History
  import S = SingleMap

  /** The request, if any, that this step serves. */
  ghost function ServedBy(net: Net, c: Cluster, step: Step): Option<Request>
    requires Sound(net, c)
  {
    if step.Advance? && Servable(net, c, step.id) then Some(c.calls[step.id].req) else None
  }

  /** The latest put of the key served anywhere in the cluster that no later delete of it undoes. */
  ghost function LatestPut(net: Net, b: Behaviour, key: Key): Option<H.Write>
    requires Possible(net, b)
  {
    match b
    case Start(_) => None
    case Then(before, step, _) =>
      match ServedBy(net, before.now, step)
      case Some(Put(k, data, ttl)) => if k == key then Some(H.Write(data, ttl)) else LatestPut(net, before, key)
      case Some(Remove(k)) => if k == key then None else LatestPut(net, before, key)
      case _ => LatestPut(net, before, key)
  }

  /** Only a put gives the map another record for a key; any other move keeps or removes it. */
  lemma MoveEffect(zone: Key -> S.Zone, a: S.Single, move: S.Move, key: Key)
    requires S.Enabled(zone, a, move)
    ensures var after := Lookup(S.Apply(zone, a, move).records, key);
            if move.Op? && move.req.Put? && move.req.key == key
            then after.Some? && after.value.data == move.req.data && after.value.meta.expireTime == move.req.ttl
            else if move.Op? && move.req == Remove(key) then after == None
            else after == None || after == Lookup(a.records, key)
  {
  }

  /** The moves of the map are the requests served under a key. */
  lemma MoveIsServed(net: Net, c: Cluster, step: Step)
    requires Sound(net, c) && Enabled(net, c, step)
    ensures var move, served := MoveOf(net, c, step), ServedBy(net, c, step);
            if served.Some? && Keyed(served.value) then move.Op? && move.req == served.value else !move.Op?
  {
    if ServedBy(net, c, step).Some? {
      HashIsKey(ServedBy(net, c, step).value);
    }
  }

  lemma {:induction false} MapHasNoEmptyKey(net: Net, b: Behaviour)
    requires Agreed(net) && Possible(net, b)
    ensures "" !in MapAfter(net, b).records
  {
    ClusterRefinesSingleMap(net, b);
    assert Lookup(MapAfter(net, b).records, "") == None;
  }

  /** This step serves a put of the key. */
  ghost predicate Puts(net: Net, c: Cluster, step: Step, key: Key)
    requires Sound(net, c)
  {
    var served := ServedBy(net, c, step);
    served.Some? && served.value.Put? && served.value.key == key
  }

  ghost predicate Removes(net: Net, c: Cluster, step: Step, key: Key)
    requires Sound(net, c)
  {
    ServedBy(net, c, step) == Some(Remove(key))
  }

  lemma LatestPutStays(net: Net, b: Behaviour, key: Key)
    requires Possible(net, b) && b.Then? && !Puts(net, b.before.now, b.step, key)
    ensures LatestPut(net, b, key)
      == if Removes(net, b.before.now, b.step, key) then None else LatestPut(net, b.before, key)
  {
  }

  /** What a step makes of one record of the map. */
  lemma ServedEffect(net: Net, c: Cluster, step: Step, a: S.Single, key: Key)
    requires Sound(net, c) && Enabled(net, c, step) && S.Enabled(net.owner, a, MoveOf(net, c, step)) && key != ""
    ensures var after := Lookup(S.Apply(net.owner, a, MoveOf(net, c, step)).records, key);
            if Puts(net, c, step, key)
            then
              && var put := ServedBy(net, c, step).value;
                 after.Some? && after.value.data == put.data && after.value.meta.expireTime == put.ttl
            else after == None || (after == Lookup(a.records, key) && !Removes(net, c, step, key))
  {
    MoveIsServed(net, c, step);
    MoveEffect(net.owner, a, MoveOf(net, c, step), key);
  }

  lemma LatestPutIs(net: Net, b: Behaviour, key: Key)
    requires Possible(net, b) && b.Then? && Puts(net, b.before.now, b.step, key)
    ensures var put := ServedBy(net, b.before.now, b.step).value;
            LatestPut(net, b, key) == Some(H.Write(put.data, put.ttl))
  {
  }

  lemma RecordAfter(net: Net, b: Behaviour, key: Key)
    requires Agreed(net) && Possible(net, b) && b.Then? && key != ""
    ensures var before, after := Lookup(MapAfter(net, b.before).records, key), Lookup(MapAfter(net, b).records, key);
            if Puts(net, b.before.now, b.step, key)
            then after.Some? && LatestPut(net, b, key) == Some(H.Write(after.value.data, after.value.meta.expireTime))
            else after == None || (after == before && !Removes(net, b.before.now, b.step, key))
  {
    ClusterRefinesSingleMap(net, b);
    ServedEffect(net, b.before.now, b.step, MapAfter(net, b.before), key);
    if Puts(net, b.before.now, b.step, key) {
      LatestPutIs(net, b, key);
    }
  }

  /** A record of the map is the latest put. */
  lemma {:induction false} MapHoldsLatestPut(net: Net, b: Behaviour, key: Key)
    requires Agreed(net) && Possible(net, b) && key in MapAfter(net, b).records
    ensures var rec := MapAfter(net, b).records[key];
            LatestPut(net, b, key) == Some(H.Write(rec.data, rec.meta.expireTime))
  {
    if b.Then? {
      MapHasNoEmptyKey(net, b);
      RecordAfter(net, b, key);
      if !Puts(net, b.before.now, b.step, key) {
        LatestPutStays(net, b, key);
        MapHoldsLatestPut(net, b.before, key);
      }
    }
  }

  lemma ElapsedStays(zone: Key -> S.Zone, a: S.Single, move: S.Move, key: Key)
    requires S.Enabled(zone, a, move) && S.Elapsed(zone, a, key)
    ensures S.Elapsed(zone, S.Apply(zone, a, move), key)
  {
    var e :| e in a.deadlines && e.key == key && e.time <= a.clocks[zone(key)];
    S.ClocksNeverGoBack(zone, a, move, zone(key));
    assert e in S.Apply(zone, a, move).deadlines;
  }

  lemma LeavesByLifetime(net: Net, b: Behaviour, key: Key)
    requires Agreed(net) && Possible(net, b) && b.Then? && key != "" && !Removes(net, b.before.now, b.step, key)
    requires key in MapAfter(net, b.before).records && key !in MapAfter(net, b).records
    ensures S.Elapsed(net.owner, MapAfter(net, b), key)
  {
    MoveIsServed(net, b.before.now, b.step);
    RecordsLeaveInTime(net, b, key);
  }

  /** A put that is not deleted is missing from the map only after some lifetime of its key is over. */
  lemma {:induction false} PutsAreLostInTime(net: Net, b: Behaviour, key: Key)
    requires Agreed(net) && Possible(net, b) && key != ""
    requires LatestPut(net, b, key).Some? && key !in MapAfter(net, b).records
    ensures S.Elapsed(net.owner, MapAfter(net, b), key)
  {
    RecordAfter(net, b, key);
    LatestPutStays(net, b, key);
    if key in MapAfter(net, b.before).records {
      LeavesByLifetime(net, b, key);
    } else {
      PutsAreLostInTime(net, b.before, key);
      ClusterRefinesSingleMap(net, b);
      ElapsedStays(net.owner, MapAfter(net, b.before), MoveOf(net, b.before.now, b.step), key);
    }
  }

  /** A get that found something found data and lifetime of the latest put served before it. */
  ghost predicate FoundLatestPut(net: Net, served: Behaviour, key: Key, rec: Record)
    requires Possible(net, served)
  {
    served.Then? && LatestPut(net, served.before, key) == Some(H.Write(rec.data, rec.meta.expireTime))
  }

  /** One that found nothing came before any put, after a delete, or after a lifetime of the key was over. */
  ghost predicate MissedInTime(net: Net, served: Behaviour, key: Key)
    requires Possible(net, served)
  {
    && served.Then?
    && (LatestPut(net, served.before, key).Some? ==> S.Elapsed(net.owner, MapAfter(net, served), key))
  }

  ghost predicate Explains(net: Net, served: Behaviour, key: Key, resp: Response)
    requires Possible(net, served)
  {
    match resp
    case Found(rec) => FoundLatestPut(net, served, key, rec)
    case Missing => MissedInTime(net, served, key)
    case _ => false
  }

  lemma GetIsExplained(net: Net, served: Behaviour, id: Id, key: Key, resp: Response)
    requires Agreed(net) && Possible(net, served) && EndsServing(net, served, id, Get(key), resp)
    ensures Explains(net, served, key, resp)
  {
    var a := MapAfter(net, served.before);
    if Readable(a.records, key, served.step.m.second) {
      MapHoldsLatestPut(net, served.before, key);
    } else if LatestPut(net, served.before, key).Some? {
      MoveIsServed(net, served.before.now, served.step);
      assert LatestPut(net, served, key) == LatestPut(net, served.before, key);
      PutsAreLostInTime(net, served, key);
    }
  }

  /**
   Every get under a key is answered by data and lifetime of the put served latest before it, anywhere
   in the cluster, or, if it misses, there was none, it was deleted, or a lifetime of the key was over.
   */
  lemma {:induction false} GetsAreExplained(net: Net, b: Behaviour, id: Id, key: Key, resp: Response)
    requires Agreed(net) && Possible(net, b) && HasAnswer(b.now, id, resp)
    requires b.now.calls[id].req == Get(key) && key != ""
    ensures exists served ::
      && PassedThrough(b, served) && Possible(net, served) && EndsServing(net, served, id, Get(key), resp)
      && Explains(net, served, key, resp)
  {
    AnswersAreTheMaps(net, b, id, resp);
    var served :|
      PassedThrough(b, served) && Possible(net, served) && EndsServing(net, served, id, b.now.calls[id].req, resp);
    GetIsExplained(net, served, id, key, resp);
  }
}
