/**
 The store as an object: hash table, expiry heap and timer under one mutex. Each
 method is one critical section. A ghost history of these sections ties the object
 to the state machine of module Expiry, so that everything proved about runs holds
 of every object.
 */
module Stores {
  import opened Wrappers
  import opened HeapOrder
  import opened TimeHeaps
  import opened Records
  import opened UnsafeHashes
  import opened Timers
  import E = Expiry
  import History
  import opened Requests

  class Store {
    const hashMap: UnsafeHash
    const expireHeap: TimeHeap
    const expireTimer: RefreshTimer
    ghost var inflight: multiset<E.Handler>
    ghost var clock: int
    ghost const start: int
    ghost var history: seq<E.Step>

    ghost function State(): E.State
      reads this, hashMap, expireHeap, expireTimer
    {
      E.State(hashMap.Value(), expireHeap.arr, expireTimer.Value(), inflight, clock)
    }

    /** The object is where its history leads. */
    ghost predicate Valid()
      reads this, hashMap, expireHeap, expireTimer
    {
      start > 0 && E.ValidRun(E.Init(start), history) && State() == E.Run(E.Init(start), history)
    }

    /** Enters a finished section into the history. */
    ghost method Log(before: E.State, step: E.Step)
      requires start > 0 && E.ValidRun(E.Init(start), history) && before == E.Run(E.Init(start), history)
      requires E.Enabled(before, step) && State() == E.Apply(before, step)
      modifies this`history
      ensures Valid() && history == old(history) + [step] && State() == old(State())
    {
      E.RunSnoc(E.Init(start), history, step);
      history := history + [step];
    }

    constructor (ghost now: int)
      requires now > 0
      ensures Valid() && State() == E.Init(now) && start == now && history == []
      ensures fresh(hashMap) && fresh(expireHeap) && fresh(expireTimer)
    {
      hashMap := new UnsafeHash();
      expireHeap := new TimeHeap();
      expireTimer := new RefreshTimer();
      inflight, clock, start, history := multiset{}, now, now, [];
    }

    /** Time passes. */
    ghost method Tick(to: int)
      requires Valid() && clock <= to
      modifies this
      ensures Valid() && history == old(history) + [E.Tick(to)] && State() == E.Apply(old(State()), E.Tick(to))
    {
      ghost var before := State();
      clock := to;
      Log(before, E.Tick(to));
    }

    /** The runtime starts the timer function. */
    ghost method TimerGoesOff()
      requires Valid() && State().MayGoOff(clock)
      modifies this, expireTimer
      ensures Valid() && history == old(history) + [E.Fire] && State() == E.Apply(old(State()), E.Fire)
    {
      ghost var before := State();
      inflight := inflight + multiset{E.AtDrain(expireTimer.pending.value)};
      expireTimer.GoOff();
      assert State() == before.GoOff();
      Log(before, E.Fire);
    }

    method Keys() returns (order: seq<Key>)
      requires Valid()
      modifies this, hashMap
      ensures Valid() && history == old(history) + [E.Keys(order)] && State() == E.Apply(old(State()), E.Keys(order))
      ensures forall k :: k in order <==> k in hashMap.records
      ensures !old(hashMap.dirty) ==> order == old(hashMap.keys)
      ensures old(hashMap.dirty) ==> forall i, j :: 0 <= i < j < |order| ==> order[i] != order[j]
    {
      E.Reachable(start, history);
      ghost var before := State();
      order := hashMap.Keys();
      ListingIsDomain(before.table, order);
      Log(before, E.Keys(order));
    }

    /** A record found expired is deleted on the spot. */
    method Fetch(key: Key, accessed: int, now: int) returns (rec: Option<Record>)
      modifies this`clock, hashMap
      ensures State() == E.Apply(old(State()), E.Load(key, accessed, now))
      ensures rec == old(State()).Loaded(key, accessed, now)
    {
      rec := hashMap.Load(key, accessed);
      if rec.Some? && rec.value.IsExpired(now) {
        hashMap.Delete(key);
        rec := None;
      }
      clock := now;
    }

    /** The critical section that loads: finds a copy of a readable record, and removes any other. */
    method Load(key: Key, accessed: int, now: int) returns (rec: Option<Record>)
      requires Valid() && clock <= accessed <= now
      modifies this, hashMap
      ensures Valid() && history == old(history) + [E.Load(key, accessed, now)]
      ensures State() == E.Apply(old(State()), E.Load(key, accessed, now))
      ensures rec == old(State()).Loaded(key, accessed, now)
      ensures rec.Some? <==> Readable(old(hashMap.records), key, now)
      ensures rec.Some? ==>
        && rec.value == CopyOf(old(hashMap.records)[key], old(hashMap.records)[key].data, accessed)
        && hashMap.records == old(hashMap.records)
      ensures rec.None? ==> hashMap.records == old(hashMap.records) - {key}
      ensures rec.Some? ==>
        History.LatestWrite(history, key) == Some(History.Write(rec.value.data, rec.value.meta.expireTime))
    {
      ghost var before := State();
      History.LatestAfterLoad(start, history, key, accessed, now);
      rec := Fetch(key, accessed, now);
      Log(before, E.Load(key, accessed, now));
      E.LoadIsReadable(before, key, accessed, now);
    }

    /**
     The runtime may start the timer function while a section that ends at this moment
     is running, so that stopping the timer comes too late: that is what escaped says.
     */
    ghost method MeanwhileGoesOff(escaped: bool, end: int)
      requires escaped ==> State().MayGoOff(end)
      modifies this`inflight, expireTimer
      ensures State() == if escaped then old(State()).GoOff() else old(State())
    {
      if escaped {
        inflight := State().GoOff().inflight;
        expireTimer.GoOff();
      }
    }

    /** Writes a record and, if it has a lifetime, schedules its expiry. */
    method Write(key: Key, data: Data, ttl: int, created: int, updated: int, now: int,
      ghost end: int, ghost escaped: bool) returns (rec: Record)
      requires escaped ==> State().MayGoOff(end)
      modifies this`inflight, this`clock, hashMap, expireHeap, expireTimer
      ensures State() == E.Stored(old(State()), key, data, ttl, created, updated, now, end, escaped)
      ensures rec == Written(old(State()).Record(key), data, ttl, created, updated)
    {
      MeanwhileGoesOff(escaped, end);
      rec := hashMap.Store(key, data, ttl, created, updated);
      clock := end;
      if !rec.IsPermanent() {
        var cutoff := rec.ExpiresAt();
        expireHeap.HeapPush(Entry(cutoff, key));
        expireTimer.AfterFunc(cutoff, now);
      }
    }

    /** The critical section that stores. */
    method Store(key: Key, data: Data, ttl: int, created: int, updated: int, now: int,
      ghost end: int, ghost escaped: bool) returns (rec: Record)
      requires Valid() && clock <= created <= updated <= now <= end
      requires escaped ==> State().MayGoOff(end)
      modifies this, hashMap, expireHeap, expireTimer
      ensures Valid() && history == old(history) + [E.Store(key, data, ttl, created, updated, now, end, escaped)]
      ensures State() == E.Apply(old(State()), E.Store(key, data, ttl, created, updated, now, end, escaped))
      ensures rec == Written(old(State()).Record(key), data, ttl, created, updated)
    {
      ghost var before := State();
      rec := Write(key, data, ttl, created, updated, now, end, escaped);
      Log(before, E.Store(key, data, ttl, created, updated, now, end, escaped));
    }

    /** Peels expired entries off the end of the heap array, and deletes their keys. */
    method DrainHeap(cutoff: int)
      modifies hashMap, expireHeap
      ensures expireHeap.arr == Remaining(old(expireHeap.arr), cutoff)
      ensures hashMap.Value() == old(hashMap.Value()).DeleteAll(Expired(old(expireHeap.arr), cutoff))
    {
      ghost var heap, table := expireHeap.arr, hashMap.Value();
      DeleteNone(table);
      ghost var n := |heap|;
      assert heap[..n] == heap && heap[n..] == [];
      while true
        invariant n <= |heap| && expireHeap.arr == heap[..n]
        invariant Remaining(heap[..n], cutoff) == Remaining(heap, cutoff)
        invariant hashMap.Value() == table.DeleteAll(heap[n..])
        decreases n
      {
        var next := expireHeap.Peek();
        if next.None? || next.value.time > cutoff {
          break;
        }
        assert next.value == heap[n - 1];
        DrainRound(table, heap, n, cutoff);
        hashMap.Delete(next.value.key);
        var gone := expireHeap.Pop();
        n := n - 1;
        assert expireHeap.arr == heap[..n];
      }
      assert Remaining(heap, cutoff) == heap[..n];
    }

    /** First critical section of the expiry handler. */
    method DeleteExpiredKeys(cutoff: int)
      requires Valid() && E.AtDrain(cutoff) in inflight
      modifies this, hashMap, expireHeap
      ensures Valid() && history == old(history) + [E.Drain(cutoff)]
      ensures State() == E.Drained(old(State()), cutoff)
    {
      ghost var before := State();
      DrainHeap(cutoff);
      inflight := inflight - multiset{E.AtDrain(cutoff)} + multiset{E.AtRearm(cutoff)};
      assert State() == E.Drained(before, cutoff);
      Log(before, E.Drain(cutoff));
    }

    /** Asks for a run at the time in the last slot of the heap, if there is one. */
    method Rearm(ghost cutoff: int, now: int, ghost end: int, ghost escaped: bool)
      requires escaped ==> State().MayGoOff(end)
      modifies this`inflight, this`clock, expireTimer
      ensures State() == E.Rearmed(old(State()), cutoff, now, end, escaped)
    {
      MeanwhileGoesOff(escaped, end);
      inflight := inflight - multiset{E.AtRearm(cutoff)};
      clock := end;
      if expireHeap.Len() != 0 {
        var elem := expireHeap.Peek();
        expireTimer.AfterFunc(elem.value.time, now);
      }
    }

    /** Second critical section of the expiry handler. */
    method RearmTimer(ghost cutoff: int, now: int, ghost end: int, ghost escaped: bool)
      requires Valid() && E.AtRearm(cutoff) in inflight && clock <= now <= end
      requires escaped ==> State().MayGoOff(end)
      modifies this, expireTimer
      ensures Valid() && history == old(history) + [E.Rearm(cutoff, now, end, escaped)]
      ensures State() == E.Rearmed(old(State()), cutoff, now, end, escaped)
    {
      ghost var before := State();
      Rearm(cutoff, now, end, escaped);
      Log(before, E.Rearm(cutoff, now, end, escaped));
    }

    /** The expiry handler when nothing comes between its two critical sections. */
    method DeleteAfter(cutoff: int, now: int, ghost end: int)
      requires Valid() && E.AtDrain(cutoff) in inflight && clock <= now <= end
      modifies this, hashMap, expireHeap, expireTimer
      ensures Valid() && State() == E.Rearmed(E.Drained(old(State()), cutoff), cutoff, now, end, false)
      ensures history == old(history) + [E.Drain(cutoff)] + [E.Rearm(cutoff, now, end, false)]
    {
      DeleteExpiredKeys(cutoff);
      assert E.AtRearm(cutoff) in inflight;
      RearmTimer(cutoff, now, end, false);
    }

    method Delete(key: Key)
      requires Valid()
      modifies this, hashMap
      ensures Valid() && history == old(history) + [E.Delete(key)] && State() == E.Apply(old(State()), E.Delete(key))
    {
      ghost var before := State();
      hashMap.Delete(key);
      Log(before, E.Delete(key));
    }

    /** Serves any request; order is the key list answered, when it is the key list that was asked for. */
    method Process(req: Request, m: Moment) returns (resp: Response, ghost order: seq<Key>)
      requires Valid() && clock <= m.first <= m.second <= m.third <= m.last
      requires m.escaped ==> State().MayGoOff(m.last)
      modifies this, hashMap, expireHeap, expireTimer
      ensures Valid() && State() == E.Apply(old(State()), StepOf(req, m.(order := order)))
      ensures history == old(history) + [StepOf(req, m.(order := order))]
      ensures resp == Answer(old(State()), req, m.(order := order))
      ensures req.ListKeys? ==> old(State()).table.MayList(order)
    {
      order := [];
      match req
      case ListKeys =>
        ghost var before := State();
        var keys := Keys();
        order := keys;
        assert E.Enabled(before, E.Keys(order));
        resp := KeyList(keys);
      case Put(key, data, ttl) =>
        var rec := Store(key, data, ttl, m.first, m.second, m.third, m.last, m.escaped);
        resp := Found(rec);
      case Remove(key) =>
        Delete(key);
        resp := Removed;
      case _ =>
        var rec := Load(req.key, m.first, m.second);
        resp := Project(req, rec);
    }

    /**
     The same, with what it means to the client. A found record is the latest write, a key
     list is the new cache, and every request is answered, and leaves behind, what is promised.
     */
    method Serve(req: Request, m: Moment) returns (resp: Response, ghost order: seq<Key>)
      requires Valid() && clock <= m.first <= m.second <= m.third <= m.last
      requires m.escaped ==> State().MayGoOff(m.last)
      modifies this, hashMap, expireHeap, expireTimer
      ensures Valid() && State() == E.Apply(old(State()), StepOf(req, m.(order := order)))
      ensures history == old(history) + [StepOf(req, m.(order := order))]
      ensures resp == Answer(old(State()), req, m.(order := order))
      ensures Promised(old(hashMap.records), req, m.first, m.second, resp)
      ensures Leaves(old(hashMap.records), req, resp, hashMap.records)
      ensures req.ListKeys? ==> resp == KeyList(order) && hashMap.keys == order && !hashMap.dirty
      ensures (req.Get? || req.Put?) && resp.Found? ==>
        History.LatestWrite(history, req.key) == Some(History.Write(resp.rec.data, resp.rec.meta.expireTime))
    {
      ghost var before := State();
      E.Reachable(start, history);
      resp, order := Process(req, m);
      AnswerIsPromised(before, req, m.(order := order));
      if (req.Get? || req.Put?) && resp.Found? {
        AnswerIsStored(before, req, m.(order := order));
        History.RecordIsLatestWrite(start, history, req.key);
      }
    }
  }
}
