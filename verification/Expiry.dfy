/**
 The expiring store as a state machine. One step is one critical section of the
 world mutex, one move of the clock, or the runtime starting the timer function.
 The expiry handler is two critical sections, so any number of other steps may
 come between its drain and its re-arming, and handlers may overlap.
 */
module Expiry {
  import opened Wrappers
  import opened HeapOrder
  import opened HeapMoves
  import opened Records
  import opened Timers

  /** A started expiry handler, waiting for its first or for its second critical section. */
  datatype Handler = AtDrain(cutoff: int) | AtRearm(cutoff: int)

  datatype State = State(table: Table, heap: seq<Entry>, timer: Timer, inflight: multiset<Handler>, clock: int)
  {
    /** The timer function starts as a handler of its own. */
    function GoOff(): State {
      match timer.pending
      case None => this
      case Some(c) => this.(timer := timer.GoneOff(), inflight := inflight + multiset{AtDrain(c)})
    }

    /** The timer may go off while a critical section that ends at this moment is running. */
    predicate MayGoOff(end: int) {
      timer.pending.Some? && timer.pending.value <= end
    }

    function Record(key: Key): Option<Record> {
      Lookup(table.records, key)
    }

    /** The answer to a load at these two clock readings. */
    function Loaded(key: Key, accessed: int, now: int): Option<Record> {
      Visible(Record(key), accessed, now)
    }
  }

  function Init(clock: int): State {
    State(Table(map[], [], false), [], Timer(0, None), multiset{}, clock)
  }

  /**
   Clock readings are part of the step. In Store and Rearm, escaped says that the
   running timer goes off during the critical section, before it could be stopped.
   */
  datatype Step =
    | Store(key: Key, data: Data, ttl: int, created: int, updated: int, now: int, end: int, escaped: bool)
    | Load(key: Key, accessed: int, now: int)
    | Delete(key: Key)
    | Keys(order: seq<Key>)
    | Tick(to: int)
    | Fire
    | Drain(cutoff: int)
    | Rearm(cutoff: int, now: int, end: int, escaped: bool)

  ghost predicate Enabled(s: State, step: Step) {
    match step
    case Store(_, _, _, created, updated, now, end, escaped) =>
      s.clock <= created <= updated <= now <= end && (escaped ==> s.MayGoOff(end))
    case Load(_, accessed, now) => s.clock <= accessed <= now
    case Delete(_) => true
    case Keys(order) => s.table.MayList(order)
    case Tick(to) => s.clock <= to
    case Fire => s.MayGoOff(s.clock)
    case Drain(cutoff) => AtDrain(cutoff) in s.inflight
    case Rearm(cutoff, now, end, escaped) =>
      AtRearm(cutoff) in s.inflight && s.clock <= now <= end && (escaped ==> s.MayGoOff(end))
  }

  function Stored(
    s: State, key: Key, data: Data, ttl: int, created: int, updated: int, now: int, end: int, escaped: bool
  ): State {
    var rec := Written(s.Record(key), data, ttl, created, updated);
    var s0 := if escaped then s.GoOff() else s;
    var s1 := s0.(table := s.table.Store(key, data, ttl, created, updated), clock := end);
    if rec.IsPermanent() then s1
    else s1.(heap := Pushed(s.heap, rec.Deadline(key)), timer := s1.timer.AfterFunc(rec.ExpiresAt(), now))
  }

  function Drained(s: State, cutoff: int): State {
    s.(table := s.table.DeleteAll(Expired(s.heap, cutoff)),
       heap := Remaining(s.heap, cutoff),
       inflight := s.inflight - multiset{AtDrain(cutoff)} + multiset{AtRearm(cutoff)})
  }

  function Rearmed(s: State, cutoff: int, now: int, end: int, escaped: bool): State {
    var s0 := if escaped then s.GoOff() else s;
    var s1 := s0.(inflight := s0.inflight - multiset{AtRearm(cutoff)}, clock := end);
    if s.heap == [] then s1
    else s1.(timer := s1.timer.AfterFunc(s.heap[|s.heap| - 1].time, now))
  }

  function Apply(s: State, step: Step): State {
    match step
    case Store(key, data, ttl, created, updated, now, end, escaped) =>
      Stored(s, key, data, ttl, created, updated, now, end, escaped)
    case Load(key, _, now) =>
      if key in s.table.records && s.table.records[key].IsExpired(now)
      then s.(table := s.table.Delete(key), clock := now)
      else s.(clock := now)
    case Delete(key) => s.(table := s.table.Delete(key))
    case Keys(order) => s.(table := s.table.Listed(order))
    case Tick(to) => s.(clock := to)
    case Fire => s.GoOff()
    case Drain(cutoff) => Drained(s, cutoff)
    case Rearm(cutoff, now, end, escaped) => Rearmed(s, cutoff, now, end, escaped)
  }

  /** A load finds a copy of just the readable records, and takes any other out of the table. */
  lemma LoadIsReadable(s: State, key: Key, accessed: int, now: int)
    ensures s.Loaded(key, accessed, now)
      == if Readable(s.table.records, key, now)
         then Some(CopyOf(s.table.records[key], s.table.records[key].data, accessed)) else None
    ensures Apply(s, Load(key, accessed, now)).table.records
      == if Readable(s.table.records, key, now) then s.table.records else s.table.records - {key}
  {
    VisibleIffReadable(s.table.records, key, accessed, now);
  }

  // ---------- runs ----------

  function Run(s: State, steps: seq<Step>): State {
    if steps == [] then s else Apply(Run(s, steps[..|steps| - 1]), steps[|steps| - 1])
  }

  ghost predicate ValidRun(s: State, steps: seq<Step>) {
    steps != [] ==>
      && ValidRun(s, steps[..|steps| - 1])
      && Enabled(Run(s, steps[..|steps| - 1]), steps[|steps| - 1])
  }

  ghost predicate StoreFree(steps: seq<Step>) {
    forall i :: 0 <= i < |steps| ==> !steps[i].Store?
  }

  lemma RunSnoc(s: State, steps: seq<Step>, step: Step)
    ensures Run(s, steps + [step]) == Apply(Run(s, steps), step)
    ensures ValidRun(s, steps + [step]) <==> ValidRun(s, steps) && Enabled(Run(s, steps), step)
  {
    assert (steps + [step])[..|steps|] == steps;
  }

  lemma RunOne(s: State, step: Step)
    ensures Run(s, [step]) == Apply(s, step)
    ensures ValidRun(s, [step]) <==> Enabled(s, step)
  {
    RunSnoc(s, [], step);
    assert [] + [step] == [step];
  }

  lemma AppendSnoc(a: seq<Step>, b: seq<Step>)
    requires b != []
    ensures b == b[..|b| - 1] + [b[|b| - 1]]
    ensures a + b == a + b[..|b| - 1] + [b[|b| - 1]]
  {
  }

  lemma {:induction false} RunAppend(s: State, a: seq<Step>, b: seq<Step>)
    ensures Run(s, a + b) == Run(Run(s, a), b)
    ensures ValidRun(s, a + b) <==> ValidRun(s, a) && ValidRun(Run(s, a), b)
  {
    if b == [] {
      assert a + b == a;
    } else {
      var n := |b| - 1;
      RunAppend(s, a, b[..n]);
      AppendSnoc(a, b);
      RunSnoc(s, a + b[..n], b[n]);
      RunSnoc(Run(s, a), b[..n], b[n]);
    }
  }

  // ---------- the invariant ----------

  /** Every record with a lifetime has a heap entry for exactly its key and expiry. */
  ghost predicate Coverage(s: State) {
    forall k :: k in s.table.records && !s.table.records[k].IsPermanent() ==> s.table.records[k].Deadline(k) in s.heap
  }

  /** Every record was created, then updated, in the past, and has been written at least once. */
  ghost predicate Dated(s: State) {
    && s.clock > 0
    && (forall k :: k in s.table.records ==>
          var m := s.table.records[k].meta; 0 < m.created <= m.updated <= s.clock && m.index >= 1)
    && (forall e :: e in s.heap ==> e.time > 0)
  }

  /**
   The timer protocol. While the heap is not empty somebody will look at it again: a
   timer is running or a handler is under way. A running timer goes off no later than the
   last slot is due, whatever handlers are under way. No handler runs ahead of the clock.
   */
  ghost predicate Guarded(s: State) {
    && (s.heap != [] ==> s.timer.pending.Some? || s.inflight != multiset{})
    && (s.heap != [] && s.timer.pending.Some? ==> s.timer.pending.value <= s.heap[|s.heap| - 1].time)
    && InPast(s)
  }

  ghost predicate InPast(s: State) {
    forall h :: h in s.inflight ==> h.cutoff <= s.clock
  }

  /** A running timer goes off at the recorded cutoff; a cutoff still ahead means it is running. */
  ghost predicate TimerAgrees(s: State) {
    && (s.timer.pending.Some? ==> s.timer.pending.value == s.timer.cutoff && s.timer.cutoff != 0)
    && (s.timer.cutoff != 0 && s.clock < s.timer.cutoff ==> s.timer.pending.Some?)
  }

  ghost predicate Inv(s: State) {
    Ordered(s.heap) && s.table.CacheAgrees() && Coverage(s) && Dated(s) && Guarded(s) && TimerAgrees(s)
  }

  lemma StoreKeepsCoverage(s: State, step: Step)
    requires Inv(s) && step.Store? && Enabled(s, step)
    ensures Coverage(Apply(s, step))
  {
    var rec := Written(s.Record(step.key), step.data, step.ttl, step.created, step.updated);
    PushedHas(s.heap, rec.Deadline(step.key));
  }

  /** A write keeps heap order, and its own record and all others covered. */
  lemma StoreKeepsHeap(s: State, step: Step)
    requires Inv(s) && step.Store? && Enabled(s, step)
    ensures Ordered(Apply(s, step).heap) && Coverage(Apply(s, step))
  {
    var rec := Written(s.Record(step.key), step.data, step.ttl, step.created, step.updated);
    PushKeepsOrder(s.heap, rec.Deadline(step.key));
    StoreKeepsCoverage(s, step);
  }

  lemma StoreKeepsCache(s: State, step: Step)
    requires Inv(s) && step.Store? && Enabled(s, step)
    ensures Apply(s, step).table.CacheAgrees()
  {
  }

  lemma StoreKeepsTimes(s: State, step: Step)
    requires Inv(s) && step.Store? && Enabled(s, step)
    ensures forall e :: e in Apply(s, step).heap ==> e.time > 0
  {
    var rec := Written(s.Record(step.key), step.data, step.ttl, step.created, step.updated);
    PushedHas(s.heap, rec.Deadline(step.key));
  }

  lemma StoreKeepsDates(s: State, step: Step)
    requires Inv(s) && step.Store? && Enabled(s, step)
    ensures Dated(Apply(s, step))
  {
    StoreKeepsTimes(s, step);
  }

  /** A write leaves the timer running, no later than its own entry is due, or finds it due before. */
  lemma StoreKeepsGuarded(s: State, step: Step)
    requires Inv(s) && step.Store? && Enabled(s, step)
    ensures Guarded(Apply(s, step))
  {
    var rec := Written(s.Record(step.key), step.data, step.ttl, step.created, step.updated);
    PushedLast(s.heap, rec.Deadline(step.key));
  }

  lemma StoreKeepsAgreement(s: State, step: Step)
    requires Inv(s) && step.Store? && Enabled(s, step)
    ensures TimerAgrees(Apply(s, step))
  {
  }

  lemma {:induction false} DrainKeepsInv(s: State, cutoff: int)
    requires Inv(s) && Enabled(s, Drain(cutoff))
    ensures Inv(Drained(s, cutoff))
  {
    var s' := Drained(s, cutoff);
    DrainKeepsOrder(s.heap, cutoff);
    DrainTakesSuffix(s.heap, cutoff);
    assert AtRearm(cutoff) in s'.inflight;
    forall k | k in s'.table.records && !s'.table.records[k].IsPermanent()
      ensures s'.table.records[k].Deadline(k) in s'.heap
    {
      var d := s.table.records[k].Deadline(k);
      assert d in Remaining(s.heap, cutoff) + Expired(s.heap, cutoff);
      assert d.key !in KeysOf(Expired(s.heap, cutoff));
    }
  }

  lemma RearmKeepsInPast(s: State, cutoff: int, now: int, end: int, escaped: bool)
    requires Inv(s) && Enabled(s, Rearm(cutoff, now, end, escaped))
    ensures InPast(Rearmed(s, cutoff, now, end, escaped))
  {
    var s' := Rearmed(s, cutoff, now, end, escaped);
    assert forall h :: h in s'.inflight ==> h in s.inflight || h == AtDrain(s.timer.cutoff);
  }

  /** Re-arming leaves the timer running, no later than the last slot is due, unless there is nothing to wait for. */
  lemma RearmKeepsGuarded(s: State, cutoff: int, now: int, end: int, escaped: bool)
    requires Inv(s) && Enabled(s, Rearm(cutoff, now, end, escaped))
    ensures Guarded(Rearmed(s, cutoff, now, end, escaped))
  {
    RearmKeepsInPast(s, cutoff, now, end, escaped);
  }

  lemma RearmKeepsAgreement(s: State, cutoff: int, now: int, end: int, escaped: bool)
    requires Inv(s) && Enabled(s, Rearm(cutoff, now, end, escaped))
    ensures TimerAgrees(Rearmed(s, cutoff, now, end, escaped))
  {
    if s.heap != [] {
      assert s.heap[|s.heap| - 1] in s.heap;
    }
  }

  lemma {:induction false} RearmKeepsInv(s: State, cutoff: int, now: int, end: int, escaped: bool)
    requires Inv(s) && Enabled(s, Rearm(cutoff, now, end, escaped))
    ensures Inv(Rearmed(s, cutoff, now, end, escaped))
  {
    RearmKeepsGuarded(s, cutoff, now, end, escaped);
    RearmKeepsAgreement(s, cutoff, now, end, escaped);
  }

  lemma StoreKeepsInv(s: State, step: Step)
    requires Inv(s) && step.Store? && Enabled(s, step)
    ensures Inv(Apply(s, step))
  {
    StoreKeepsHeap(s, step);
    StoreKeepsCache(s, step);
    StoreKeepsDates(s, step);
    StoreKeepsGuarded(s, step);
    StoreKeepsAgreement(s, step);
  }

  /** The sections that touch neither heap nor timer, and the clock. */
  lemma IdleKeepsInv(s: State, step: Step)
    requires Inv(s) && Enabled(s, step) && (step.Load? || step.Delete? || step.Tick?)
    ensures Inv(Apply(s, step))
  {
  }

  lemma FireKeepsInv(s: State)
    requires Inv(s) && Enabled(s, Fire)
    ensures Inv(s.GoOff())
  {
  }

  lemma KeysKeepsInv(s: State, order: seq<Key>)
    requires Inv(s) && Enabled(s, Keys(order))
    ensures Inv(Apply(s, Keys(order)))
  {
    ListingIsDomain(s.table, order);
  }

  /** Every step, in any interleaving, keeps the four parts of the store consistent. */
  lemma {:induction false} StepKeepsInv(s: State, step: Step)
    requires Inv(s) && Enabled(s, step)
    ensures Inv(Apply(s, step))
  {
    match step
    case Store(_, _, _, _, _, _, _, _) => StoreKeepsInv(s, step);
    case Keys(order) => KeysKeepsInv(s, order);
    case Fire => FireKeepsInv(s);
    case Drain(cutoff) => DrainKeepsInv(s, cutoff);
    case Rearm(cutoff, now, end, escaped) => RearmKeepsInv(s, cutoff, now, end, escaped);
    case _ => IdleKeepsInv(s, step);
  }

  lemma {:induction false} RunKeepsInv(s: State, steps: seq<Step>)
    requires Inv(s) && ValidRun(s, steps)
    ensures Inv(Run(s, steps))
  {
    if steps != [] {
      RunKeepsInv(s, steps[..|steps| - 1]);
      StepKeepsInv(Run(s, steps[..|steps| - 1]), steps[|steps| - 1]);
    }
  }

  /** The invariant holds in every reachable state of every store, started at any moment. */
  lemma {:induction false} Reachable(clock: int, steps: seq<Step>)
    requires clock > 0 && ValidRun(Init(clock), steps)
    ensures Inv(Run(Init(clock), steps))
  {
    RunKeepsInv(Init(clock), steps);
  }
}
