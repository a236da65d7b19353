/**
 What the timer is planned for: the earliest of the moments it was asked for. A running
 timer is never postponed, however many writes follow.
 */
module Planning {
  import opened Wrappers
  import opened Expiry

  /** When the record that this step wrote is due, by the creation time it is found with afterwards. */
  function DueBy(s: State, step: Step): int
    requires step.Store? && step.key in Apply(s, step).table.records
  {
    Apply(s, step).table.records[step.key].meta.created + step.ttl
  }

  /** What the timer is planned for after one more request: the earlier of the two, unless its moment has passed. */
  function Planned(pending: Option<int>, due: int, now: int): int {
    if pending.Some? && now < pending.value && pending.value < due then pending.value else due
  }

  /** A write with a lifetime leaves the timer running for its own deadline, or for an earlier moment still ahead. */
  lemma StorePlans(s: State, step: Step)
    requires Inv(s) && Enabled(s, step) && step.Store? && !step.escaped
    ensures step.key in Apply(s, step).table.records
    ensures step.ttl > 0 ==> Apply(s, step).timer.pending == Some(Planned(s.timer.pending, DueBy(s, step), step.now))
    ensures step.ttl <= 0 ==> Apply(s, step).timer.pending == s.timer.pending
  {
  }

  /** So does re-arming, with the time in the last slot. */
  lemma RearmPlans(s: State, step: Step)
    requires Inv(s) && Enabled(s, step) && step.Rearm? && !step.escaped
    ensures s.heap != [] ==>
      Apply(s, step).timer.pending == Some(Planned(s.timer.pending, s.heap[|s.heap| - 1].time, step.now))
    ensures s.heap == [] ==> Apply(s, step).timer.pending == s.timer.pending
  {
    if s.heap != [] {
      assert s.heap[|s.heap| - 1] in s.heap;
    }
  }

  /**
   When the timer goes off during the section, it runs again for the new moment; but not if it
   went off after the clock was read, and the new moment is later: that is left to the handler.
   */
  lemma EscapedPlans(s: State, step: Step)
    requires Inv(s) && Enabled(s, step) && step.Store? && step.escaped && step.ttl > 0
    ensures s.timer.pending.Some? && step.key in Apply(s, step).table.records
    ensures AtDrain(s.timer.pending.value) in Apply(s, step).inflight
    ensures var p, due := s.timer.pending.value, DueBy(s, step);
            Apply(s, step).timer.pending == if step.now < p && p < due then None else Some(due)
  {
  }

  /** No other step plans anything. */
  lemma OtherStepsLeaveTimer(s: State, step: Step)
    requires !step.Store? && !step.Rearm? && !step.Fire?
    ensures Apply(s, step).timer == s.timer
  {
  }

  // ---------- over runs ----------

  /** Each step of the run ends before the moment that the timer was running for when it began. */
  ghost predicate AlwaysAhead(s: State, steps: seq<Step>) {
    steps != [] ==>
      var t := Run(s, steps[..|steps| - 1]);
      && AlwaysAhead(s, steps[..|steps| - 1])
      && (t.timer.pending.Some? ==> Run(s, steps).clock < t.timer.pending.value)
  }

  /** The moments the timer was asked for in a run: deadlines of writes, and last slots looked at. */
  function AskedFor(s: State, steps: seq<Step>): seq<int> {
    if steps == [] then []
    else
      var n := |steps| - 1;
      AskedFor(s, steps[..n]) + AskedBy(Run(s, steps[..n]), steps[n])
  }

  function AskedBy(t: State, step: Step): seq<int> {
    if step.Store? && step.ttl > 0 && step.key in Apply(t, step).table.records then [DueBy(t, step)]
    else if step.Rearm? && t.heap != [] then [t.heap[|t.heap| - 1].time]
    else []
  }

  /** An earliest one of this moment and some others. */
  ghost predicate IsEarliest(q: int, p: int, asked: seq<int>) {
    && q <= p && (forall t :: t in asked ==> q <= t)
    && (q == p || q in asked)
  }

  lemma EarliestOfMore(q: int, p: int, asked: seq<int>, t: int)
    requires IsEarliest(q, p, asked)
    ensures IsEarliest(if q < t then q else t, p, asked + [t])
  {
  }

  lemma StepPlansEarliest(t: State, step: Step, p: int, asked: seq<int>)
    requires Inv(t) && Enabled(t, step) && t.timer.pending.Some? && Apply(t, step).clock < t.timer.pending.value
    requires IsEarliest(t.timer.pending.value, p, asked)
    ensures Apply(t, step).timer.pending.Some?
    ensures IsEarliest(Apply(t, step).timer.pending.value, p, asked + AskedBy(t, step))
  {
    var q := t.timer.pending.value;
    assert asked + [] == asked;
    if step.Store? {
      StorePlans(t, step);
      if step.ttl > 0 {
        EarliestOfMore(q, p, asked, DueBy(t, step));
      }
    } else if step.Rearm? {
      RearmPlans(t, step);
      if t.heap != [] {
        EarliestOfMore(q, p, asked, t.heap[|t.heap| - 1].time);
      }
    } else {
      OtherStepsLeaveTimer(t, step);
    }
  }

  /**
   As long as its moment lies ahead, a running timer keeps running, for the earliest of the
   moment it was running for and all it has been asked for since.
   */
  lemma {:induction false} NeverPostponed(s: State, steps: seq<Step>)
    requires Inv(s) && ValidRun(s, steps) && s.timer.pending.Some? && AlwaysAhead(s, steps)
    ensures Run(s, steps).timer.pending.Some?
    ensures IsEarliest(Run(s, steps).timer.pending.value, s.timer.pending.value, AskedFor(s, steps))
  {
    if steps != [] {
      var n := |steps| - 1;
      NeverPostponed(s, steps[..n]);
      RunKeepsInv(s, steps[..n]);
      StepPlansEarliest(Run(s, steps[..n]), steps[n], s.timer.pending.value, AskedFor(s, steps[..n]));
    }
  }

  lemma WriteIsThere(t: State, step: Step)
    requires step.Store?
    ensures step.key in Apply(t, step).table.records
  {
  }

  lemma LastIsAskedFor(s: State, steps: seq<Step>, n: nat)
    requires |steps| == n + 1 && steps[n].Store? && steps[n].ttl > 0
    ensures steps[n].key in Apply(Run(s, steps[..n]), steps[n]).table.records
    ensures DueBy(Run(s, steps[..n]), steps[n]) in AskedFor(s, steps)
  {
    WriteIsThere(Run(s, steps[..n]), steps[n]);
    assert AskedBy(Run(s, steps[..n]), steps[n]) == [DueBy(Run(s, steps[..n]), steps[n])];
  }

  lemma AskedForStays(s: State, steps: seq<Step>, n: nat, due: int)
    requires |steps| == n + 1 && due in AskedFor(s, steps[..n])
    ensures due in AskedFor(s, steps)
  {
  }

  lemma {:induction false} EveryWriteIsAskedFor(s: State, steps: seq<Step>, i: nat)
    requires i < |steps| && steps[i].Store? && steps[i].ttl > 0
    ensures steps[i].key in Apply(Run(s, steps[..i]), steps[i]).table.records
    ensures DueBy(Run(s, steps[..i]), steps[i]) in AskedFor(s, steps)
  {
    var n := |steps| - 1;
    if i == n {
      LastIsAskedFor(s, steps, n);
    } else {
      assert steps[..n][..i] == steps[..i];
      EveryWriteIsAskedFor(s, steps[..n], i);
      AskedForStays(s, steps, n, DueBy(Run(s, steps[..i]), steps[i]));
    }
  }

  /** In particular no write can put it off: it is at most the deadline of every write made since. */
  lemma {:induction false} WritesNeverPostpone(s: State, steps: seq<Step>, i: nat)
    requires Inv(s) && ValidRun(s, steps) && s.timer.pending.Some? && AlwaysAhead(s, steps)
    requires i < |steps| && steps[i].Store? && steps[i].ttl > 0
    ensures steps[i].key in Apply(Run(s, steps[..i]), steps[i]).table.records
    ensures var t := Run(s, steps);
            && t.timer.pending.Some? && t.timer.pending.value <= s.timer.pending.value
            && t.timer.pending.value <= DueBy(Run(s, steps[..i]), steps[i])
  {
    NeverPostponed(s, steps);
    EveryWriteIsAskedFor(s, steps, i);
  }
}
