/**
 What the past of a run says about the records of the store: a record is the latest
 write, its metadata dates its incarnation, and it is lost only for an elapsed deadline.
 */
module History {
  import opened Wrappers
  import opened HeapOrder
  import opened Records
  import opened Expiry

  datatype Write = Write(data: Data, ttl: int)

  predicate Stores(step: Step, key: Key) {
    step.Store? && step.key == key
  }

  /** The latest write of the key that no later delete of it undoes. */
  function LatestWrite(steps: seq<Step>, key: Key): Option<Write> {
    if steps == [] then None
    else
      var n := |steps| - 1;
      if Stores(steps[n], key) then Some(Write(steps[n].data, steps[n].ttl))
      else if steps[n] == Delete(key) then None
      else LatestWrite(steps[..n], key)
  }

  lemma StoreEffect(s: State, step: Step, key: Key)
    requires step.Store?
    ensures Apply(s, step).Record(key)
      == if step.key == key then Some(Written(s.Record(key), step.data, step.ttl, step.created, step.updated))
         else s.Record(key)
  {
  }

  lemma DrainEffect(s: State, cutoff: int, key: Key)
    ensures Drained(s, cutoff).Record(key) == s.Record(key) || Drained(s, cutoff).Record(key) == None
  {
  }

  lemma OtherEffect(s: State, step: Step, key: Key)
    requires !step.Store? && !step.Drain?
    ensures step == Delete(key) ==> Apply(s, step).Record(key) == None
    ensures Apply(s, step).Record(key) == s.Record(key) || Apply(s, step).Record(key) == None
  {
  }

  /** What one step may do to one record: only a write changes it, every other step keeps or removes it. */
  lemma StepEffect(s: State, step: Step, key: Key)
    ensures Stores(step, key) ==>
      Apply(s, step).Record(key) == Some(Written(s.Record(key), step.data, step.ttl, step.created, step.updated))
    ensures step == Delete(key) ==> Apply(s, step).Record(key) == None
    ensures !Stores(step, key) ==>
      Apply(s, step).Record(key) == s.Record(key) || Apply(s, step).Record(key) == None
  {
    if step.Store? {
      StoreEffect(s, step, key);
    } else if step.Drain? {
      DrainEffect(s, step.cutoff, key);
    } else {
      OtherEffect(s, step, key);
    }
  }

  lemma {:induction false} RecordIsLatestWrite(clock: int, steps: seq<Step>, key: Key)
    requires key in Run(Init(clock), steps).table.records
    ensures var rec := Run(Init(clock), steps).table.records[key];
            LatestWrite(steps, key) == Some(Write(rec.data, rec.meta.expireTime))
  {
    if steps != [] {
      var n := |steps| - 1;
      StepEffect(Run(Init(clock), steps[..n]), steps[n], key);
      if !Stores(steps[n], key) {
        RecordIsLatestWrite(clock, steps[..n], key);
      }
    }
  }

  /**
   Lossy-map safety: after any run, with any interleaving of timer steps, a load that
   succeeds returns data and lifetime of the latest write, and the record is not expired.
   */
  lemma {:induction false} LoadReturnsLatestWrite(clock: int, steps: seq<Step>, key: Key, accessed: int, now: int)
    requires Run(Init(clock), steps).Loaded(key, accessed, now).Some?
    ensures var rec := Run(Init(clock), steps).Loaded(key, accessed, now).value;
            && LatestWrite(steps, key) == Some(Write(rec.data, rec.meta.expireTime))
            && !rec.IsExpired(now) && rec.meta.accessed == accessed
  {
    RecordIsLatestWrite(clock, steps, key);
  }

  /** A load leaves the latest write the latest. */
  lemma LatestAfterLoad(clock: int, steps: seq<Step>, key: Key, accessed: int, now: int)
    ensures var s := Run(Init(clock), steps);
            s.Loaded(key, accessed, now).Some? ==>
              var rec := s.Loaded(key, accessed, now).value;
              LatestWrite(steps + [Load(key, accessed, now)], key) == Some(Write(rec.data, rec.meta.expireTime))
  {
    assert (steps + [Load(key, accessed, now)])[..|steps|] == steps;
    if Run(Init(clock), steps).Loaded(key, accessed, now).Some? {
      LoadReturnsLatestWrite(clock, steps, key, accessed, now);
    }
  }

  // ---------- incarnations ----------

  /** How many steps came before the write that created the record now in the table. */
  function Born(s: State, steps: seq<Step>, key: Key): (b: nat)
    ensures steps != [] ==> b < |steps|
  {
    if steps == [] then 0
    else
      var n := |steps| - 1;
      if n > 0 && key in Run(s, steps[..n]).table.records then Born(s, steps[..n], key) else n
  }

  function Writes(steps: seq<Step>, key: Key): nat {
    if steps == [] then 0
    else Writes(steps[..|steps| - 1], key) + if Stores(steps[|steps| - 1], key) then 1 else 0
  }

  /** That write found the key absent. */
  lemma {:induction false} BornWhenAbsent(clock: int, steps: seq<Step>, key: Key)
    requires Run(Init(clock), steps).Record(key).Some?
    ensures var b := Born(Init(clock), steps, key);
            b < |steps| && Stores(steps[b], key) && Run(Init(clock), steps[..b]).Record(key).None?
  {
    var s := Init(clock);
    var n := |steps| - 1;
    StepEffect(Run(s, steps[..n]), steps[n], key);
    if Run(s, steps[..n]).Record(key).Some? {
      BornWhenAbsent(clock, steps[..n], key);
      assert steps[..n][..Born(s, steps, key)] == steps[..Born(s, steps, key)];
    }
  }

  /** The key has been present after every step since. */
  lemma {:induction false} PresentSinceBorn(clock: int, steps: seq<Step>, key: Key, j: nat)
    requires Run(Init(clock), steps).Record(key).Some?
    requires Born(Init(clock), steps, key) < j <= |steps|
    ensures Run(Init(clock), steps[..j]).Record(key).Some?
  {
    var n := |steps| - 1;
    if j == |steps| {
      assert steps[..j] == steps;
    } else {
      PresentSinceBorn(clock, steps[..n], key, j);
      assert steps[..n][..j] == steps[..j];
    }
  }

  /** Creation time is that write's first clock reading, and the index counts the writes since it. */
  lemma {:induction false} MetadataDatesIncarnation(clock: int, steps: seq<Step>, key: Key)
    requires Run(Init(clock), steps).Record(key).Some?
    ensures var b, meta := Born(Init(clock), steps, key), Run(Init(clock), steps).Record(key).value.meta;
            && b < |steps| && Stores(steps[b], key)
            && meta.created == steps[b].created && meta.index == Writes(steps[b..], key)
  {
    var s := Init(clock);
    var n := |steps| - 1;
    var t := Run(s, steps[..n]);
    var b := Born(s, steps, key);
    BornWhenAbsent(clock, steps, key);
    StepEffect(t, steps[n], key);
    if t.Record(key).Some? {
      MetadataDatesIncarnation(clock, steps[..n], key);
      BornWhenAbsent(clock, steps[..n], key);
      WritesSnoc(steps, b, key);
    } else {
      WritesSnoc(steps, n, key);
    }
  }

  lemma WritesSnoc(steps: seq<Step>, b: nat, key: Key)
    requires b < |steps|
    ensures Writes(steps[b..], key)
      == Writes(steps[..|steps| - 1][b..], key) + if Stores(steps[|steps| - 1], key) then 1 else 0
  {
    assert steps[b..][..|steps| - 1 - b] == steps[..|steps| - 1][b..];
  }

  // ---------- losses ----------

  /** Every deadline ever scheduled in the run. */
  function Deadlines(s: State, steps: seq<Step>): set<Entry> {
    if steps == [] then {}
    else
      var n := |steps| - 1;
      Deadlines(s, steps[..n]) + NewDeadlines(Run(s, steps[..n]), steps[n])
  }

  function NewDeadlines(s: State, step: Step): set<Entry> {
    if step.Store? && step.ttl > 0
    then {Written(s.Record(step.key), step.data, step.ttl, step.created, step.updated).Deadline(step.key)}
    else {}
  }

  /** The heap gains an entry only from a write with a lifetime. */
  lemma StoreGrowsHeap(s: State, step: Step)
    requires step.Store?
    ensures forall e :: e in Apply(s, step).heap ==> e in s.heap || e in NewDeadlines(s, step)
  {
    var e := Written(s.Record(step.key), step.data, step.ttl, step.created, step.updated).Deadline(step.key);
    PushedHas(s.heap, e);
  }

  lemma HeapGrows(s: State, step: Step)
    ensures forall e :: e in Apply(s, step).heap ==> e in s.heap || e in NewDeadlines(s, step)
  {
    if step.Store? {
      StoreGrowsHeap(s, step);
    }
  }

  lemma {:induction false} HeapHoldsDeadlines(clock: int, steps: seq<Step>)
    ensures forall e :: e in Run(Init(clock), steps).heap ==> e in Deadlines(Init(clock), steps)
  {
    if steps != [] {
      var n := |steps| - 1;
      HeapHoldsDeadlines(clock, steps[..n]);
      HeapGrows(Run(Init(clock), steps[..n]), steps[n]);
    }
  }

  /** A written and not deleted key is missing only if some deadline scheduled for it has passed. */
  lemma {:induction false} LossNeedsElapsedDeadline(clock: int, steps: seq<Step>, key: Key)
    requires clock > 0 && ValidRun(Init(clock), steps)
    requires LatestWrite(steps, key).Some? && key !in Run(Init(clock), steps).table.records
    ensures exists e :: e in Deadlines(Init(clock), steps) && e.key == key && e.time <= Run(Init(clock), steps).clock
  {
    var n := |steps| - 1;
    var s := Run(Init(clock), steps[..n]);
    Reachable(clock, steps[..n]);
    HeapHoldsDeadlines(clock, steps[..n]);
    StepKeepsClock(s, steps[n]);
    if key !in s.table.records {
      LossNeedsElapsedDeadline(clock, steps[..n], key);
      var e :| e in Deadlines(Init(clock), steps[..n]) && e.key == key && e.time <= s.clock;
      assert e in Deadlines(Init(clock), steps);
    } else {
      var e := LossStep(s, steps[n], key);
      assert e in Deadlines(Init(clock), steps);
    }
  }

  /** The clock never goes backwards. */
  lemma StepKeepsClock(s: State, step: Step)
    requires Enabled(s, step)
    ensures s.clock <= Apply(s, step).clock
  {
  }

  /** The heap entry that a step other than an explicit delete removes a record for. */
  lemma LossStep(s: State, step: Step, key: Key) returns (e: Entry)
    requires Inv(s) && Enabled(s, step) && step != Delete(key)
    requires key in s.table.records && key !in Apply(s, step).table.records
    ensures e in s.heap && e.key == key && e.time <= Apply(s, step).clock
    ensures step.Load? ==> e == s.table.records[key].Deadline(key) && !s.table.records[key].IsPermanent()
  {
    if step.Drain? {
      assert key in KeysOf(Expired(s.heap, step.cutoff));
      e :| e in Expired(s.heap, step.cutoff) && e.key == key;
      DrainTakesSuffix(s.heap, step.cutoff);
    } else {
      e := s.table.records[key].Deadline(key);
    }
  }

  /** A key that is only ever written without a lifetime is lost to nothing but a delete. */
  lemma {:induction false} PermanentKeyIsNeverLost(clock: int, steps: seq<Step>, key: Key)
    requires clock > 0 && ValidRun(Init(clock), steps)
    requires forall i :: 0 <= i < |steps| && Stores(steps[i], key) ==> steps[i].ttl <= 0
    ensures LatestWrite(steps, key).Some? <==> key in Run(Init(clock), steps).table.records
  {
    if key in Run(Init(clock), steps).table.records {
      RecordIsLatestWrite(clock, steps, key);
    } else if LatestWrite(steps, key).Some? {
      LossNeedsElapsedDeadline(clock, steps, key);
      NoDeadlinesWithoutLifetime(clock, steps, key);
    }
  }

  lemma {:induction false} NoDeadlinesWithoutLifetime(clock: int, steps: seq<Step>, key: Key)
    requires forall i :: 0 <= i < |steps| && Stores(steps[i], key) ==> steps[i].ttl <= 0
    ensures forall e :: e in Deadlines(Init(clock), steps) ==> e.key != key
  {
    if steps != [] {
      NoDeadlinesWithoutLifetime(clock, steps[..|steps| - 1], key);
    }
  }

  // ---------- when a record is safe from stale entries ----------

  /** No heap entry for the key is due before its record is. */
  ghost predicate Safe(s: State, key: Key) {
    && key in s.table.records
    && forall e :: e in s.heap && e.key == key ==>
         !s.table.records[key].IsPermanent() && e.time >= s.table.records[key].ExpiresAt()
  }

  /** A write makes its record safe exactly when the entries already there are not due before it. */
  lemma StoreIsSafeIff(s: State, step: Step)
    requires step.Store?
    ensures Safe(Apply(s, step), step.key) <==>
            var rec := Written(s.Record(step.key), step.data, step.ttl, step.created, step.updated);
            forall e :: e in s.heap && e.key == step.key ==> step.ttl > 0 && e.time >= rec.ExpiresAt()
  {
    var rec := Written(s.Record(step.key), step.data, step.ttl, step.created, step.updated);
    PushedHas(s.heap, rec.Deadline(step.key));
    var s' := Apply(s, step);
    assert s'.table.records[step.key] == rec;
    assert forall e :: e in s.heap ==> e in s'.heap;
  }

  /** A first write with nothing left over, or an overwrite with a positive lifetime no longer than before. */
  lemma ShorterOverwriteIsSafe(s: State, step: Step)
    requires step.Store?
    requires (forall e :: e in s.heap ==> e.key != step.key)
      || (Safe(s, step.key) && 0 < step.ttl <= s.table.records[step.key].meta.expireTime)
    ensures Safe(Apply(s, step), step.key)
  {
    StoreIsSafeIff(s, step);
  }

  /** A safe record stays as it is until it expires, through every step that neither writes nor deletes it. */
  lemma SafeStep(s: State, step: Step, key: Key)
    requires Inv(s) && Enabled(s, step) && Safe(s, key)
    requires !Stores(step, key) && step != Delete(key)
    requires var rec := s.table.records[key]; rec.IsPermanent() || Apply(s, step).clock < rec.ExpiresAt()
    ensures Safe(Apply(s, step), key) && Apply(s, step).table.records[key] == s.table.records[key]
  {
    if key !in Apply(s, step).table.records {
      var e := LossStep(s, step, key);
    }
    StepEffect(s, step, key);
    assert Apply(s, step).Record(key) == s.Record(key);
    HeapGrows(s, step);
  }

  lemma {:induction false} NoEarlyLoss(s: State, steps: seq<Step>, key: Key)
    requires Inv(s) && ValidRun(s, steps) && Safe(s, key)
    requires forall i :: 0 <= i < |steps| ==> !Stores(steps[i], key) && steps[i] != Delete(key)
    requires var rec := s.table.records[key]; rec.IsPermanent() || Run(s, steps).clock < rec.ExpiresAt()
    ensures Safe(Run(s, steps), key) && Run(s, steps).table.records[key] == s.table.records[key]
  {
    if steps != [] {
      var n := |steps| - 1;
      StepKeepsClock(Run(s, steps[..n]), steps[n]);
      NoEarlyLoss(s, steps[..n], key);
      RunKeepsInv(s, steps[..n]);
      SafeStep(Run(s, steps[..n]), steps[n], key);
    }
  }
}
