/**
 What the timer alone does to the store once nothing more is stored: it empties the
 heap after a bounded number of runs, and takes with it exactly the records whose
 heap entries it reaches.
 */
module Purge {
  import opened Wrappers
  import opened HeapOrder
  import opened Records
  import opened Timers
  import opened Expiry
  import opened History
  import opened Firings

  // ---------- one handler at a time ----------

  /** At most one handler is under way, and while it is no timer runs: no re-arming can overlap it. */
  ghost predicate SingleHandler(s: State) {
    && Inv(s)
    && (s.inflight != multiset{} ==>
          && s.timer.pending.None?
          && (|| s.inflight == multiset{AtDrain(s.timer.cutoff)}
              || (s.inflight == multiset{AtRearm(s.timer.cutoff)}
                  && (s.heap != [] ==> s.heap[|s.heap| - 1].time > s.timer.cutoff))))
  }

  lemma {:induction false} QuietFire(s: State)
    requires SingleHandler(s) && Enabled(s, Fire)
    ensures SingleHandler(s.GoOff())
    ensures s.GoOff().inflight == multiset{AtDrain(s.timer.cutoff)}
  {
    StepKeepsInv(s, Fire);
    assert s.inflight == multiset{};
    assert s.GoOff().inflight == multiset{AtDrain(s.timer.cutoff)};
  }

  lemma QuietDrain(s: State, c: int)
    requires SingleHandler(s) && AtDrain(c) in s.inflight
    ensures c == s.timer.cutoff
    ensures SingleHandler(Drained(s, c))
    ensures Drained(s, c).inflight == multiset{AtRearm(c)}
  {
    DrainKeepsInv(s, c);
    DrainTakesSuffix(s.heap, c);
    DrainTwice(s.heap, c, c);
    assert s.inflight == multiset{AtDrain(c)};
    assert Drained(s, c).inflight == multiset{AtRearm(c)};
  }

  lemma {:induction false} QuietRearm(s: State, c: int, now: int, end: int, escaped: bool)
    requires SingleHandler(s) && Enabled(s, Rearm(c, now, end, escaped))
    ensures c == s.timer.cutoff && !escaped
    ensures SingleHandler(Rearmed(s, c, now, end, escaped))
    ensures Rearmed(s, c, now, end, escaped).inflight == multiset{}
    ensures s.heap != [] ==>
      Rearmed(s, c, now, end, escaped).timer == Timer(s.heap[|s.heap| - 1].time, Some(s.heap[|s.heap| - 1].time))
    ensures s.heap == [] ==> Rearmed(s, c, now, end, escaped).timer == s.timer
  {
    RearmKeepsInv(s, c, now, end, escaped);
    assert s.inflight == multiset{AtRearm(c)};
    assert Rearmed(s, c, now, end, escaped).inflight == multiset{};
  }

  lemma QuietStep(s: State, step: Step)
    requires SingleHandler(s) && Enabled(s, step) && !step.Store?
    ensures SingleHandler(Apply(s, step))
  {
    match step
    case Fire => QuietFire(s);
    case Drain(c) => QuietDrain(s, c);
    case Rearm(c, now, end, escaped) => QuietRearm(s, c, now, end, escaped);
    case _ =>
      StepKeepsInv(s, step);
      IdleLeaves(s, step);
  }

  lemma {:induction false} QuietRun(s: State, steps: seq<Step>)
    requires SingleHandler(s) && ValidRun(s, steps) && StoreFree(steps)
    ensures SingleHandler(Run(s, steps))
  {
    if steps != [] {
      var n := |steps| - 1;
      QuietRun(s, steps[..n]);
      QuietStep(Run(s, steps[..n]), steps[n]);
    }
  }

  /**
   Starting with no handler under way, and storing nothing more: there is never more than one
   handler, no timer runs while there is, and the cutoffs increase strictly.
   */
  lemma {:induction false} OneHandlerAtATime(s: State, steps: seq<Step>)
    requires Inv(s) && s.inflight == multiset{} && ValidRun(s, steps) && StoreFree(steps)
    ensures var t := Run(s, steps); |t.inflight| <= 1 && (t.inflight != multiset{} ==> t.timer.pending.None?)
    ensures StrictlyIncreasing(Cutoffs(s, steps))
  {
    QuietRun(s, steps);
    ApartIncreases(s, steps);
  }

  // ---------- the purge ----------

  /** Nothing scheduled, nobody at work, and no record with a lifetime left. */
  ghost predicate Purged(t: State) {
    t.heap == [] && t.inflight == multiset{} && forall k :: k in t.table.records ==> t.table.records[k].IsPermanent()
  }

  lemma IdleIsPurged(t: State)
    requires Inv(t) && t.inflight == multiset{} && t.timer.pending.None?
    ensures Purged(t)
  {
  }

  /**
   Quiescent purge. Store nothing more. Then, however many handlers are under way and however
   the timer, the handlers, loads, deletes and key listings interleave, the timer goes off at
   most once more than there are entries, plus once for each handler and entry, with cutoffs
   that never decrease; and once it has done so, or is no longer running, and the handlers are
   done, no record with a lifetime is left.
   */
  lemma {:induction false} QuiescentPurge(s: State, steps: seq<Step>)
    requires Inv(s) && ValidRun(s, steps) && StoreFree(steps)
    ensures |Cutoffs(s, steps)| <= |s.inflight| * |s.heap| + |s.heap| + 1
    ensures Increasing(Cutoffs(s, steps))
    ensures var t, all := Run(s, steps), |s.inflight| * |s.heap| + |s.heap| + 1;
            t.inflight == multiset{} && (t.timer.pending.None? || |Cutoffs(s, steps)| == all) ==> Purged(t)
  {
    var t := Run(s, steps);
    RunLowers(s, steps);
    FiresLeftAtMost(s);
    CutoffsKeepOrder(s, steps);
    RunKeepsInv(s, steps);
    if t.inflight == multiset{} && t.timer.pending.None? {
      IdleIsPurged(t);
    }
  }

  /**
   In every run from a consistent state, with stores and handlers in any number, a running
   timer goes off no later than the time in the last slot, hence than the largest expiry.
   */
  lemma {:induction false} FireIsDue(s: State, steps: seq<Step>)
    requires Inv(s) && ValidRun(s, steps)
    ensures var t := Run(s, steps);
            t.heap != [] && t.timer.pending.Some? ==> t.timer.pending.value <= t.heap[|t.heap| - 1].time
  {
    RunKeepsInv(s, steps);
  }

  // ---------- the purge can always be carried out ----------

  /** Only the clock, the timer and its handlers move. */
  ghost predicate TimerOnly(steps: seq<Step>) {
    forall i :: 0 <= i < |steps| ==> steps[i].Tick? || steps[i].Fire? || steps[i].Drain? || steps[i].Rearm?
  }

  /** The earliest moment at which the running timer may go off. */
  function DueTick(s: State): Step {
    Tick(if s.clock < s.timer.cutoff then s.timer.cutoff else s.clock)
  }

  /** The timer goes off as soon as it may, and its handler drains. */
  lemma FireAndDrain(s: State) returns (steps: seq<Step>)
    requires SingleHandler(s) && s.inflight == multiset{} && s.timer.pending.Some?
    ensures TimerOnly(steps) && ValidRun(s, steps) && SingleHandler(Run(s, steps))
    ensures FiresLeft(Run(s, steps)) < FiresLeft(s)
    ensures Run(s, steps).clock == if s.clock < s.timer.cutoff then s.timer.cutoff else s.clock
    ensures Run(s, steps).inflight == multiset{AtRearm(Run(s, steps).timer.cutoff)}
  {
    var c := s.timer.cutoff;
    var s1 := Apply(s, DueTick(s));
    QuietStep(s, DueTick(s));
    RunOne(s, DueTick(s));
    QuietFire(s1);
    GoOffLowers(s1);
    RunFire(s, [DueTick(s)], s1);
    steps := [DueTick(s)] + [Fire];
    assert AtDrain(c) in s1.GoOff().inflight;
    QuietDrain(s1.GoOff(), c);
    DrainLowers(s1.GoOff(), c);
    RunDrain(s, steps, s1.GoOff(), c);
    steps := steps + [Drain(c)];
  }

  lemma TimerOnlySnoc(steps: seq<Step>, step: Step)
    requires TimerOnly(steps) && (step.Tick? || step.Fire? || step.Drain? || step.Rearm?)
    ensures TimerOnly(steps + [step])
  {
  }

  lemma RunFire(s: State, steps: seq<Step>, t: State)
    requires TimerOnly(steps) && ValidRun(s, steps) && Run(s, steps) == t && Enabled(t, Fire)
    ensures TimerOnly(steps + [Fire]) && ValidRun(s, steps + [Fire]) && Run(s, steps + [Fire]) == t.GoOff()
  {
    TimerOnlySnoc(steps, Fire);
    RunSnoc(s, steps, Fire);
  }

  lemma RunDrain(s: State, steps: seq<Step>, t: State, c: int)
    requires TimerOnly(steps) && ValidRun(s, steps) && Run(s, steps) == t && AtDrain(c) in t.inflight
    ensures TimerOnly(steps + [Drain(c)])
    ensures ValidRun(s, steps + [Drain(c)]) && Run(s, steps + [Drain(c)]) == Drained(t, c)
  {
    TimerOnlySnoc(steps, Drain(c));
    RunSnoc(s, steps, Drain(c));
  }

  /** The handler then re-arms at once. */
  lemma RearmAtOnce(t: State) returns (step: Step)
    requires SingleHandler(t) && t.inflight == multiset{AtRearm(t.timer.cutoff)}
    ensures step.Rearm? && Enabled(t, step) && SingleHandler(Apply(t, step))
    ensures FiresLeft(Apply(t, step)) <= FiresLeft(t)
    ensures IdleAndArmed(t, Apply(t, step))
  {
    assert AtRearm(t.timer.cutoff) in t.inflight;
    step := Rearm(t.timer.cutoff, t.clock, t.clock, false);
    QuietRearm(t, t.timer.cutoff, t.clock, t.clock, false);
    RearmLowers(t, t.timer.cutoff, t.clock, t.clock);
  }

  /** No handler is left, and the timer waits for the time in the last slot. */
  ghost predicate IdleAndArmed(t: State, u: State) {
    && u.inflight == multiset{} && u.heap == t.heap && u.table == t.table && u.clock == t.clock
    && (t.heap != [] ==> u.timer == Timer(t.heap[|t.heap| - 1].time, Some(t.heap[|t.heap| - 1].time)))
  }

  lemma FinishRound(s: State, steps: seq<Step>) returns (more: seq<Step>)
    requires TimerOnly(steps) && ValidRun(s, steps) && SingleHandler(Run(s, steps))
    requires Run(s, steps).inflight == multiset{AtRearm(Run(s, steps).timer.cutoff)}
    ensures TimerOnly(more) && ValidRun(s, more) && SingleHandler(Run(s, more))
    ensures FiresLeft(Run(s, more)) <= FiresLeft(Run(s, steps))
    ensures IdleAndArmed(Run(s, steps), Run(s, more))
  {
    var step := RearmAtOnce(Run(s, steps));
    RunSnoc(s, steps, step);
    more := steps + [step];
  }

  lemma {:induction false} PurgeWhenIdle(s: State) returns (steps: seq<Step>)
    requires SingleHandler(s) && s.inflight == multiset{}
    ensures TimerOnly(steps) && ValidRun(s, steps)
    ensures Run(s, steps).heap == [] && Run(s, steps).inflight == multiset{}
    decreases FiresLeft(s)
  {
    if s.timer.pending.None? {
      steps := [];
    } else {
      var drained := FireAndDrain(s);
      var round := FinishRound(s, drained);
      var rest := PurgeWhenIdle(Run(s, round));
      RunAppend(s, round, rest);
      steps := round + rest;
    }
  }

  lemma FinishRearm(s: State, c: int) returns (step: Step)
    requires Inv(s) && AtRearm(c) in s.inflight
    ensures step.Rearm? && Enabled(s, step) && Apply(s, step).clock == s.clock
    ensures Inv(Apply(s, step)) && |Apply(s, step).inflight| < |s.inflight|
  {
    step := Rearm(c, s.clock, s.clock, false);
    RearmKeepsInv(s, c, s.clock, s.clock, false);
  }

  /** Runs the first part of a handler, if it is still ahead. */
  lemma FinishDrain(s: State, h: Handler) returns (steps: seq<Step>)
    requires Inv(s) && h in s.inflight
    ensures TimerOnly(steps) && ValidRun(s, steps) && Inv(Run(s, steps))
    ensures AtRearm(h.cutoff) in Run(s, steps).inflight && |Run(s, steps).inflight| == |s.inflight|
    ensures Run(s, steps).clock == s.clock
  {
    steps := [];
    if h.AtDrain? {
      DrainKeepsInv(s, h.cutoff);
      RunDrain(s, [], s, h.cutoff);
      steps := [] + [Drain(h.cutoff)];
    }
  }

  /** Runs the rest of one handler. */
  lemma FinishHandler(s: State, h: Handler) returns (steps: seq<Step>)
    requires Inv(s) && h in s.inflight
    ensures TimerOnly(steps) && ValidRun(s, steps)
    ensures Inv(Run(s, steps)) && |Run(s, steps).inflight| < |s.inflight|
    ensures Run(s, steps).clock == s.clock
  {
    var first := FinishDrain(s, h);
    var rearm := FinishRearm(Run(s, first), h.cutoff);
    RunSnoc(s, first, rearm);
    steps := first + [rearm];
  }

  lemma {:induction false} FinishHandlers(s: State) returns (steps: seq<Step>)
    requires Inv(s)
    ensures TimerOnly(steps) && ValidRun(s, steps)
    ensures Run(s, steps).inflight == multiset{} && Run(s, steps).clock == s.clock
    decreases |s.inflight|
  {
    if s.inflight == multiset{} {
      steps := [];
    } else {
      var h :| h in s.inflight;
      var first := FinishHandler(s, h);
      var rest := FinishHandlers(Run(s, first));
      RunAppend(s, first, rest);
      steps := first + rest;
    }
  }

  lemma PurgeRun(s: State) returns (steps: seq<Step>)
    requires Inv(s)
    ensures TimerOnly(steps) && ValidRun(s, steps)
    ensures Run(s, steps).heap == [] && Run(s, steps).inflight == multiset{}
  {
    var a := FinishHandlers(s);
    RunKeepsInv(s, a);
    var b := PurgeWhenIdle(Run(s, a));
    RunAppend(s, a, b);
    steps := a + b;
  }

  /** From every reachable state the timer and its handlers alone can remove every record with a lifetime. */
  lemma PurgeExists(s: State)
    requires Inv(s)
    ensures exists steps :: TimerOnly(steps) && ValidRun(s, steps) && Purged(Run(s, steps))
  {
    var steps := PurgeRun(s);
    RunKeepsInv(s, steps);
  }

  // ---------- which records the timer takes ----------

  /** An entry leaves the heap only together with the record of its key. */
  lemma EntryLeavesWithRecord(s: State, step: Step, i: nat)
    requires Enabled(s, step) && !step.Store?
    ensures Apply(s, step).heap <= s.heap
    ensures |Apply(s, step).heap| <= i < |s.heap| ==> Apply(s, step).Record(s.heap[i].key).None?
  {
    if step.Drain? && |Remaining(s.heap, step.cutoff)| <= i < |s.heap| {
      assert s.heap[i] == Expired(s.heap, step.cutoff)[i - |Remaining(s.heap, step.cutoff)|];
      assert s.heap[i].key in KeysOf(Expired(s.heap, step.cutoff));
    }
  }

  lemma {:induction false} EntriesLeaveWithRecords(s: State, steps: seq<Step>, i: nat)
    requires ValidRun(s, steps) && StoreFree(steps)
    ensures Run(s, steps).heap <= s.heap
    ensures |Run(s, steps).heap| <= i < |s.heap| ==> Run(s, steps).Record(s.heap[i].key).None?
  {
    if steps != [] {
      var n := |steps| - 1;
      var t := Run(s, steps[..n]);
      EntriesLeaveWithRecords(s, steps[..n], i);
      EntryLeavesWithRecord(t, steps[n], i);
      if i < |s.heap| {
        StepEffect(t, steps[n], s.heap[i].key);
      }
    }
  }

  ghost predicate Undisturbed(steps: seq<Step>, key: Key) {
    forall i :: 0 <= i < |steps| ==> !Stores(steps[i], key) && steps[i] != Delete(key)
  }

  /**
   A record stored to be kept for ever can be lost without a delete exactly when an
   entry for its key, left over from an earlier write, is in the heap.
   */
  lemma {:induction false} PermanentLossIff(s: State, key: Key)
    requires Inv(s) && key in s.table.records && s.table.records[key].IsPermanent()
    ensures (exists steps :: ValidRun(s, steps) && Undisturbed(steps, key) && key !in Run(s, steps).table.records)
      <==> exists e :: e in s.heap && e.key == key
  {
    if e :| e in s.heap && e.key == key {
      var steps := PurgeRun(s);
      var i :| 0 <= i < |s.heap| && s.heap[i] == e;
      EntriesLeaveWithRecords(s, steps, i);
      assert ValidRun(s, steps) && Undisturbed(steps, key) && key !in Run(s, steps).table.records;
    } else {
      forall steps | ValidRun(s, steps) && Undisturbed(steps, key)
        ensures key in Run(s, steps).table.records
      {
        NoEarlyLoss(s, steps, key);
      }
    }
  }

  /** Slot p is an entry for the key, and no time from there to the end of the array reaches the bound. */
  ghost predicate EndsBefore(heap: seq<Entry>, p: int, key: Key, bound: int)
    requires 0 <= p < |heap|
  {
    heap[p].key == key && forall i :: p <= i < |heap| ==> heap[i].time < bound
  }

  lemma EndsBeforeInPrefix(heap: seq<Entry>, rest: seq<Entry>, p: nat, key: Key, bound: int)
    requires rest <= heap && p < |rest| && EndsBefore(heap, p, key, bound)
    ensures EndsBefore(rest, p, key, bound)
  {
  }

  /** Fires as early as possible until slot p, an entry for the key, is drained. */
  lemma {:induction false} DrainSlotBefore(s: State, key: Key, p: nat, bound: int) returns (steps: seq<Step>)
    requires SingleHandler(s) && s.inflight == multiset{} && s.clock < bound
    requires p < |s.heap| && EndsBefore(s.heap, p, key, bound)
    ensures TimerOnly(steps) && ValidRun(s, steps)
    ensures key !in Run(s, steps).table.records && Run(s, steps).clock < bound
    decreases FiresLeft(s)
  {
    assert s.timer.cutoff < bound;
    var drained := FireAndDrain(s);
    EntriesLeaveWithRecords(s, drained, p);
    if |Run(s, drained).heap| <= p {
      steps := drained;
    } else {
      EndsBeforeInPrefix(s.heap, Run(s, drained).heap, p, key, bound);
      var round := FinishRound(s, drained);
      var rest := DrainSlotBefore(Run(s, round), key, p, bound);
      RunAppend(s, round, rest);
      steps := round + rest;
    }
  }

  /** The same from any state: whatever handlers are under way finish first, at once. */
  lemma DrainSlot(s: State, key: Key, p: nat, bound: int) returns (steps: seq<Step>)
    requires Inv(s) && s.clock < bound && p < |s.heap| && EndsBefore(s.heap, p, key, bound)
    ensures TimerOnly(steps) && ValidRun(s, steps)
    ensures key !in Run(s, steps).table.records && Run(s, steps).clock < bound
  {
    var first := FinishHandlers(s);
    EntriesLeaveWithRecords(s, first, p);
    RunKeepsInv(s, first);
    if |Run(s, first).heap| <= p {
      steps := first;
    } else {
      EndsBeforeInPrefix(s.heap, Run(s, first).heap, p, key, bound);
      var rest := DrainSlotBefore(Run(s, first), key, p, bound);
      RunAppend(s, first, rest);
      steps := first + rest;
    }
  }
}
