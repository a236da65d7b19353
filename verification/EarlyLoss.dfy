/**
 When a record with a lifetime can be lost before it expires: the exact condition, on
 nothing but the present state, for every reachable state and every possible future.
 */
module EarlyLoss {
  import opened HeapOrder
  import opened HeapMoves
  import opened Records
  import opened Expiry
  import opened History
  import opened Purge

  /** The moment from which a lifetime given to the key now would count. */
  function BornAt(s: State, key: Key): int {
    if key in s.table.records then s.table.records[key].meta.created else s.clock
  }

  /** A write of another key could schedule an entry due before the given time. */
  ghost predicate CanPushBefore(s: State, key: Key, time: int) {
    exists j :: j != key && BornAt(s, j) + 1 < time
  }

  /**
   Slot p is an entry for the key, due too early, and either nothing behind it in the array
   holds it back, or writes of other keys can make it sink to the end.
   */
  ghost predicate Exposed(s: State, key: Key, p: int, due: int)
    requires 0 <= p < |s.heap|
  {
    && s.heap[p].key == key && s.heap[p].time < due
    && (EndsBefore(s.heap, p, key, due) || CanPushBefore(s, key, s.heap[p].time))
  }

  // ---------- sheltered records stay ----------

  /**
   Every entry for the key that is due too early has one behind it that is not, and, unless
   nothing more is stored, no write can schedule an entry before it.
   */
  ghost predicate Sheltered(s: State, key: Key, due: int, quiet: bool) {
    forall p :: 0 <= p < |s.heap| && s.heap[p].key == key && s.heap[p].time < due ==>
      && (exists q :: p < q < |s.heap| && s.heap[q].time >= due)
      && (quiet || !CanPushBefore(s, key, s.heap[p].time))
  }

  /** The record, still there, with this expiry. */
  ghost predicate Due(s: State, key: Key, due: int) {
    key in s.table.records && !s.table.records[key].IsPermanent() && s.table.records[key].ExpiresAt() == due
  }

  lemma BornAtGrows(s: State, step: Step, j: Key)
    requires Inv(s) && Enabled(s, step)
    ensures BornAt(s, j) <= BornAt(Apply(s, step), j)
  {
    StepKeepsClock(s, step);
    StepEffect(s, step, j);
  }

  lemma DrainSpares(s: State, cutoff: int, key: Key, due: int, quiet: bool)
    requires Sheltered(s, key, due, quiet) && cutoff < due && Due(s, key, due)
    ensures Due(Drained(s, cutoff), key, due)
    ensures forall p :: 0 <= p < |Remaining(s.heap, cutoff)| && s.heap[p].key == key && s.heap[p].time < due ==>
      exists q :: p < q < |Remaining(s.heap, cutoff)| && s.heap[q].time >= due
  {
    var m := |Remaining(s.heap, cutoff)|;
    DrainIsMaximal(s.heap, cutoff, m);
    forall i | m <= i < |s.heap| ensures s.heap[i].key != key {
      assert s.heap[i].time <= cutoff;
    }
    assert key !in KeysOf(Expired(s.heap, cutoff));
  }

  /** Pushing another key's entry, not before the sheltered ones, moves none of them and keeps what is behind them. */
  lemma PushShelters(s: State, e: Entry, key: Key, due: int, p: nat)
    requires Sheltered(s, key, due, false) && e.key != key && p <= |s.heap|
    requires forall i :: 0 <= i < |s.heap| && s.heap[i].key == key && s.heap[i].time < due ==> s.heap[i].time <= e.time
    requires Pushed(s.heap, e)[p].key == key && Pushed(s.heap, e)[p].time < due
    ensures p < |s.heap| && Pushed(s.heap, e)[p] == s.heap[p]
    ensures exists q :: p < q <= |s.heap| && Pushed(s.heap, e)[q].time >= due
  {
    var t, n := s.heap + [e], |s.heap|;
    SlotSource(t, n, p);
    assert Pushed(s.heap, e)[p] != e;
    assert p < n && Pushed(s.heap, e)[p] == s.heap[p];
    var q :| p < q < n && s.heap[q].time >= due;
    var q' := MovesLater(t, n, q);
  }

  lemma StoreShelters(s: State, step: Step, key: Key, due: int)
    requires Inv(s) && Enabled(s, step) && step.Store? && step.key != key && Sheltered(s, key, due, false)
    ensures Sheltered(Apply(s, step), key, due, false)
  {
    var s' := Apply(s, step);
    var e := Written(s.Record(step.key), step.data, step.ttl, step.created, step.updated).Deadline(step.key);
    PushableLater(s, step, key);
    if step.ttl > 0 {
      assert e.time >= BornAt(s, step.key) + 1;
      forall p | 0 <= p < |s'.heap| && s'.heap[p].key == key && s'.heap[p].time < due
        ensures exists q :: p < q < |s'.heap| && s'.heap[q].time >= due
        ensures !CanPushBefore(s', key, s'.heap[p].time)
      {
        PushShelters(s, e, key, due, p);
      }
    }
  }

  lemma PushableLater(s: State, step: Step, key: Key)
    requires Inv(s) && Enabled(s, step)
    ensures forall time :: CanPushBefore(Apply(s, step), key, time) ==> CanPushBefore(s, key, time)
  {
    forall time | CanPushBefore(Apply(s, step), key, time) ensures CanPushBefore(s, key, time) {
      var j :| j != key && BornAt(Apply(s, step), j) + 1 < time;
      BornAtGrows(s, step, j);
    }
  }

  lemma DrainShelters(s: State, cutoff: int, key: Key, due: int, quiet: bool)
    requires Inv(s) && Enabled(s, Drain(cutoff)) && Sheltered(s, key, due, quiet) && cutoff < due && Due(s, key, due)
    ensures Sheltered(Drained(s, cutoff), key, due, quiet) && Due(Drained(s, cutoff), key, due)
  {
    PushableLater(s, Drain(cutoff), key);
    DrainSpares(s, cutoff, key, due, quiet);
  }

  /** Shelter is a matter of the heap, and of what other keys can be written for. */
  lemma ShelterTransfers(s: State, t: State, key: Key, due: int, quiet: bool)
    requires Sheltered(s, key, due, quiet) && t.heap == s.heap
    requires forall time :: CanPushBefore(t, key, time) ==> CanPushBefore(s, key, time)
    ensures Sheltered(t, key, due, quiet)
  {
  }

  lemma IdleKeepsRecord(s: State, step: Step, key: Key, due: int)
    requires Enabled(s, step) && Due(s, key, due) && Apply(s, step).clock < due
    requires !step.Store? && !step.Drain? && step != Delete(key)
    ensures Apply(s, step).heap == s.heap && Due(Apply(s, step), key, due)
  {
    assert Apply(s, step).Record(key) == s.Record(key);
  }

  /** The steps that leave the heap as it is. */
  lemma IdleShelters(s: State, step: Step, key: Key, due: int, quiet: bool)
    requires Inv(s) && Enabled(s, step) && Sheltered(s, key, due, quiet) && Due(s, key, due)
    requires !step.Store? && !step.Drain? && step != Delete(key) && Apply(s, step).clock < due
    ensures Sheltered(Apply(s, step), key, due, quiet) && Due(Apply(s, step), key, due)
  {
    PushableLater(s, step, key);
    IdleKeepsRecord(s, step, key, due);
    ShelterTransfers(s, Apply(s, step), key, due, quiet);
  }

  /** A sheltered record stays, and stays sheltered, until it expires. */
  lemma ShelterStep(s: State, step: Step, key: Key, due: int, quiet: bool)
    requires Inv(s) && Enabled(s, step) && Sheltered(s, key, due, quiet) && Due(s, key, due)
    requires !Stores(step, key) && step != Delete(key) && (quiet ==> !step.Store?) && Apply(s, step).clock < due
    ensures Sheltered(Apply(s, step), key, due, quiet) && Due(Apply(s, step), key, due)
  {
    if step.Store? {
      StoreShelters(s, step, key, due);
      assert Apply(s, step).Record(key) == s.Record(key);
    } else if step.Drain? {
      DrainShelters(s, step.cutoff, key, due, quiet);
    } else {
      IdleShelters(s, step, key, due, quiet);
    }
  }

  lemma {:induction false} ShelterRun(s: State, steps: seq<Step>, key: Key, due: int, quiet: bool)
    requires Inv(s) && ValidRun(s, steps) && Sheltered(s, key, due, quiet) && Due(s, key, due)
    requires Undisturbed(steps, key) && (quiet ==> StoreFree(steps)) && Run(s, steps).clock < due
    ensures Sheltered(Run(s, steps), key, due, quiet) && Due(Run(s, steps), key, due)
  {
    if steps != [] {
      var n := |steps| - 1;
      var t := Run(s, steps[..n]);
      StepKeepsClock(t, steps[n]);
      ShelterRun(s, steps[..n], key, due, quiet);
      RunKeepsInv(s, steps[..n]);
      ShelterStep(t, steps[n], key, due, quiet);
    }
  }

  // ---------- exposed records can be lost ----------

  /** Some run gets from s to t without writing or deleting the key. */
  ghost predicate Reaches(s: State, t: State, key: Key) {
    exists steps :: ValidRun(s, steps) && Undisturbed(steps, key) && Run(s, steps) == t
  }

  lemma ReachesOn(s: State, t: State, key: Key, more: seq<Step>)
    requires Reaches(s, t, key) && ValidRun(t, more) && Undisturbed(more, key)
    ensures Reaches(s, Run(t, more), key)
  {
    var steps :| ValidRun(s, steps) && Undisturbed(steps, key) && Run(s, steps) == t;
    RunAppend(s, steps, more);
    assert Undisturbed(steps + more, key);
  }

  /** A write of this key now, with the lifetime that makes it due at the given time. */
  function WriteDueAt(s: State, j: Key, time: int): Step {
    Step.Store(j, Scalar(0), time - BornAt(s, j), s.clock, s.clock, s.clock, s.clock, false)
  }

  lemma WritePushes(s: State, j: Key, time: int)
    requires BornAt(s, j) < time
    ensures Enabled(s, WriteDueAt(s, j, time))
    ensures var t := Apply(s, WriteDueAt(s, j, time));
            t.heap == Pushed(s.heap, Entry(time, j)) && t.clock == s.clock && BornAt(t, j) == BornAt(s, j)
  {
  }

  /** A write of another key that pushes an entry for just this time, at no cost of time. */
  lemma PushOne(s0: State, s: State, key: Key, j: Key, time: int) returns (t: State)
    requires Reaches(s0, s, key) && Inv(s) && j != key && BornAt(s, j) < time
    ensures Reaches(s0, t, key) && Inv(t) && t.clock == s.clock && BornAt(t, j) == BornAt(s, j)
    ensures t.heap == Pushed(s.heap, Entry(time, j))
  {
    var step := WriteDueAt(s, j, time);
    WritePushes(s, j, time);
    t := Apply(s, step);
    StepKeepsInv(s, step);
    RunOne(s, step);
    ReachesOn(s0, s, key, [step]);
  }

  /** Writes of another key that push any entries due after the moment its lifetimes count from. */
  lemma {:induction false} PushMany(s0: State, s: State, key: Key, j: Key, es: seq<Entry>) returns (t: State)
    requires Reaches(s0, s, key) && Inv(s) && j != key && forall x :: x in es ==> x.key == j && BornAt(s, j) < x.time
    ensures Reaches(s0, t, key) && Inv(t) && t.clock == s.clock && t.heap == PushAll(s.heap, es)
    decreases |es|
  {
    if es == [] {
      t := s;
    } else {
      assert es[0] == Entry(es[0].time, j);
      var u := PushOne(s0, s, key, j, es[0].time);
      t := PushMany(s0, u, key, j, es[1..]);
    }
  }

  lemma ReachesSelf(s: State, key: Key)
    ensures Reaches(s, s, key)
  {
    assert ValidRun(s, []) && Undisturbed([], key) && Run(s, []) == s;
  }

  /** A slot that ends the array early enough is drained in time. */
  lemma EndingIsLost(s: State, t: State, key: Key, p: nat, due: int)
    requires Reaches(s, t, key) && Inv(t) && t.clock < due && p < |t.heap| && EndsBefore(t.heap, p, key, due)
    ensures exists u :: Reaches(s, u, key) && u.clock < due && u.Record(key).None?
  {
    var steps := DrainSlot(t, key, p, due);
    ReachesOn(s, t, key, steps);
    assert Run(t, steps).Record(key).None?;
  }

  ghost predicate EndsWith(heap: seq<Entry>, e: Entry) {
    heap != [] && heap[|heap| - 1] == e
  }

  lemma WritesThatSink(heap: seq<Entry>, p: nat, j: Key, born: int) returns (es: seq<Entry>)
    requires Ordered(heap) && p < |heap| && born + 1 < heap[p].time
    ensures forall x :: x in es ==> x.key == j && born < x.time
    ensures EndsWith(PushAll(heap, es), heap[p])
  {
    es := SinkToEnd(heap, p, Entry(born + 1, j), Entry(heap[p].time, j));
  }

  lemma WritesPush(s: State, key: Key, j: Key, es: seq<Entry>) returns (t: State)
    requires Inv(s) && j != key && forall x :: x in es ==> x.key == j && BornAt(s, j) < x.time
    ensures Reaches(s, t, key) && Inv(t) && t.clock == s.clock && t.heap == PushAll(s.heap, es)
  {
    ReachesSelf(s, key);
    t := PushMany(s, s, key, j, es);
  }

  /** Writes of another key make an entry sink to the end of the array, at no cost of time. */
  lemma WritesSink(s: State, key: Key, j: Key, p: nat) returns (t: State)
    requires Inv(s) && p < |s.heap| && j != key && BornAt(s, j) + 1 < s.heap[p].time
    ensures Reaches(s, t, key) && Inv(t) && t.clock == s.clock && EndsWith(t.heap, s.heap[p])
  {
    var es := WritesThatSink(s.heap, p, j, BornAt(s, j));
    t := WritesPush(s, key, j, es);
  }

  lemma EndsBeforeItself(heap: seq<Entry>, e: Entry, key: Key, due: int)
    requires EndsWith(heap, e) && e.key == key && e.time < due
    ensures EndsBefore(heap, |heap| - 1, key, due)
  {
  }

  lemma LastIsLost(s: State, t: State, key: Key, e: Entry, due: int)
    requires Reaches(s, t, key) && Inv(t) && t.clock < due
    requires EndsWith(t.heap, e) && e.key == key && e.time < due
    ensures exists u :: Reaches(s, u, key) && u.clock < due && u.Record(key).None?
  {
    EndsBeforeItself(t.heap, e, key, due);
    EndingIsLost(s, t, key, |t.heap| - 1, due);
  }

  /** From an exposed slot the record is lost in time. */
  lemma ExposedIsLost(s: State, key: Key, p: nat, due: int)
    requires Inv(s) && s.clock < due && p < |s.heap| && Exposed(s, key, p, due)
    ensures exists u :: Reaches(s, u, key) && u.clock < due && u.Record(key).None?
  {
    if EndsBefore(s.heap, p, key, due) {
      ReachesSelf(s, key);
      EndingIsLost(s, s, key, p, due);
    } else {
      var j :| j != key && BornAt(s, j) + 1 < s.heap[p].time;
      var t := WritesSink(s, key, j, p);
      LastIsLost(s, t, key, s.heap[p], due);
    }
  }

  // ---------- the two exact conditions ----------

  /**
   In every reachable state: some future without writes or deletes of the key loses its
   record before it expires, if and only if some heap entry for the key is exposed.
   */
  lemma EarlyLossIff(s: State, key: Key)
    requires Inv(s) && key in s.table.records && !s.table.records[key].IsPermanent()
    requires s.clock < s.table.records[key].ExpiresAt()
    ensures var due := s.table.records[key].ExpiresAt();
            (exists t :: Reaches(s, t, key) && t.clock < due && t.Record(key).None?)
            <==> exists p :: 0 <= p < |s.heap| && Exposed(s, key, p, due)
  {
    var due := s.table.records[key].ExpiresAt();
    if p :| 0 <= p < |s.heap| && Exposed(s, key, p, due) {
      ExposedIsLost(s, key, p, due);
    } else {
      assert Sheltered(s, key, due, false) by {
        forall p | 0 <= p < |s.heap| && s.heap[p].key == key && s.heap[p].time < due
          ensures exists q :: p < q < |s.heap| && s.heap[q].time >= due
          ensures !CanPushBefore(s, key, s.heap[p].time)
        {
          assert !Exposed(s, key, p, due);
        }
      }
      forall t | Reaches(s, t, key) && t.clock < due ensures t.Record(key).Some? {
        var steps :| ValidRun(s, steps) && Undisturbed(steps, key) && Run(s, steps) == t;
        ShelterRun(s, steps, key, due, false);
      }
    }
  }

  /** When nothing more is stored, an entry must already end the array early enough. */
  lemma QuietEarlyLossIff(s: State, key: Key)
    requires Inv(s) && key in s.table.records && !s.table.records[key].IsPermanent()
    requires s.clock < s.table.records[key].ExpiresAt()
    ensures var due := s.table.records[key].ExpiresAt();
            (exists steps :: ValidRun(s, steps) && StoreFree(steps) && Undisturbed(steps, key)
               && Run(s, steps).clock < due && key !in Run(s, steps).table.records)
            <==> exists p :: 0 <= p < |s.heap| && EndsBefore(s.heap, p, key, due)
  {
    var due := s.table.records[key].ExpiresAt();
    if p :| 0 <= p < |s.heap| && EndsBefore(s.heap, p, key, due) {
      var steps := DrainSlot(s, key, p, due);
      assert StoreFree(steps) && Undisturbed(steps, key);
    } else {
      assert Sheltered(s, key, due, true) by {
        forall p | 0 <= p < |s.heap| && s.heap[p].key == key && s.heap[p].time < due
          ensures exists q :: p < q < |s.heap| && s.heap[q].time >= due
        {
          assert !EndsBefore(s.heap, p, key, due);
        }
      }
      forall steps | ValidRun(s, steps) && StoreFree(steps) && Undisturbed(steps, key) && Run(s, steps).clock < due
        ensures key in Run(s, steps).table.records
      {
        ShelterRun(s, steps, key, due, true);
      }
    }
  }
}
