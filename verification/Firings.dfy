/**
 How often the timer goes off once nothing more is stored, and with which cutoffs: from any
 state, with any number of handlers under way, in any interleaving.
 */
module Firings {
  import opened Wrappers
  import opened HeapOrder
  import opened Expiry

  /** The timer function starts with this step: between two critical sections, or during one. */
  predicate GoesOff(step: Step) {
    step.Fire? || ((step.Store? || step.Rearm?) && step.escaped)
  }

  /** These cutoffs, and the one with which the timer goes off in this step, if it does. */
  function Noted(cs: seq<int>, t: State, step: Step): seq<int> {
    if GoesOff(step) then cs + [t.timer.cutoff] else cs
  }

  /** The cutoffs with which the timer goes off in a run, in order. */
  function Cutoffs(s: State, steps: seq<Step>): seq<int> {
    if steps == [] then []
    else
      var n := |steps| - 1;
      Noted(Cutoffs(s, steps[..n]), Run(s, steps[..n]), steps[n])
  }

  // ---------- how often ----------

  /** How many entries this handler may still find when it re-arms the timer. */
  function Left(heap: seq<Entry>, h: Handler): nat {
    match h
    case AtDrain(c) => |Remaining(heap, c)|
    case AtRearm(_) => |heap|
  }

  ghost function LeftOfAll(heap: seq<Entry>, hs: multiset<Handler>): nat
    decreases |hs|
  {
    if hs == multiset{} then 0
    else
      var h := Pick(hs);
      Left(heap, h) + LeftOfAll(heap, hs - multiset{h})
  }

  ghost function Pick(hs: multiset<Handler>): (h: Handler)
    requires hs != multiset{}
    ensures h in hs
  {
    var h :| h in hs;
    h
  }

  lemma {:induction false} LeftSplit(heap: seq<Entry>, hs: multiset<Handler>, h: Handler)
    requires h in hs
    ensures LeftOfAll(heap, hs) == Left(heap, h) + LeftOfAll(heap, hs - multiset{h})
    decreases |hs|
  {
    var g := Pick(hs);
    if g != h {
      LeftSplit(heap, hs - multiset{g}, h);
      LeftSplit(heap, hs - multiset{h}, g);
      assert hs - multiset{g} - multiset{h} == hs - multiset{h} - multiset{g};
    }
  }

  lemma LeftPlus(heap: seq<Entry>, hs: multiset<Handler>, h: Handler)
    ensures LeftOfAll(heap, hs + multiset{h}) == Left(heap, h) + LeftOfAll(heap, hs)
  {
    LeftSplit(heap, hs + multiset{h}, h);
    assert hs + multiset{h} - multiset{h} == hs;
  }

  lemma {:induction false} LeftShrinks(heap: seq<Entry>, rest: seq<Entry>, hs: multiset<Handler>)
    requires rest <= heap
    ensures LeftOfAll(rest, hs) <= LeftOfAll(heap, hs)
    decreases |hs|
  {
    if h :| h in hs {
      LeftSplit(heap, hs, h);
      LeftSplit(rest, hs, h);
      LeftShrinks(heap, rest, hs - multiset{h});
      DrainOfPrefix(heap, rest, h.cutoff);
    }
  }

  lemma {:induction false} LeftAtMost(heap: seq<Entry>, hs: multiset<Handler>)
    ensures LeftOfAll(heap, hs) <= |hs| * |heap|
    decreases |hs|
  {
    if h :| h in hs {
      LeftSplit(heap, hs, h);
      LeftAtMost(heap, hs - multiset{h});
      calc {
        LeftOfAll(heap, hs);
        <= |heap| + |hs - multiset{h}| * |heap|;
        == (1 + |hs - multiset{h}|) * |heap|;
        == |hs| * |heap|;
      }
    }
  }

  /** What the running timer itself is good for: going off, and what it then finds. */
  function LeftOfTimer(s: State): nat {
    match s.timer.pending
    case None => 0
    case Some(c) => 1 + |Remaining(s.heap, c)|
  }

  /** An upper bound on how often the timer can still go off. */
  ghost function FiresLeft(s: State): nat {
    LeftOfAll(s.heap, s.inflight) + LeftOfTimer(s)
  }

  lemma FiresLeftAtMost(s: State)
    ensures FiresLeft(s) <= |s.inflight| * |s.heap| + |s.heap| + 1
  {
    LeftAtMost(s.heap, s.inflight);
  }

  lemma GoOffLowers(s: State)
    requires s.timer.pending.Some?
    ensures FiresLeft(s.GoOff()) + 1 == FiresLeft(s)
  {
    LeftPlus(s.heap, s.inflight, AtDrain(s.timer.pending.value));
  }

  lemma DrainLowers(s: State, c: int)
    requires AtDrain(c) in s.inflight
    ensures FiresLeft(Drained(s, c)) <= FiresLeft(s)
  {
    var rest, others := Remaining(s.heap, c), s.inflight - multiset{AtDrain(c)};
    LeftSplit(s.heap, s.inflight, AtDrain(c));
    LeftPlus(rest, others, AtRearm(c));
    LeftShrinks(s.heap, rest, others);
    if s.timer.pending.Some? {
      DrainOfPrefix(s.heap, rest, s.timer.pending.value);
    }
  }

  /** Re-arming gives up a handler for a timer, which takes at least the last entry with it. */
  lemma RearmLowers(s: State, c: int, now: int, end: int)
    requires AtRearm(c) in s.inflight
    ensures FiresLeft(Rearmed(s, c, now, end, false)) <= FiresLeft(s)
  {
    LeftSplit(s.heap, s.inflight, AtRearm(c));
    if s.heap != [] {
      assert |Remaining(s.heap, s.heap[|s.heap| - 1].time)| < |s.heap|;
    }
  }

  lemma RearmStepLowers(s: State, c: int, now: int, end: int, escaped: bool)
    requires AtRearm(c) in s.inflight && (escaped ==> s.timer.pending.Some?)
    ensures FiresLeft(Rearmed(s, c, now, end, escaped)) + (if escaped then 1 else 0) <= FiresLeft(s)
  {
    if escaped {
      GoOffLowers(s);
      RearmLowers(s.GoOff(), c, now, end);
    } else {
      RearmLowers(s, c, now, end);
    }
  }

  /** Loads, deletes, listings and the clock leave heap, timer and handlers alone. */
  predicate Idle(step: Step) {
    step.Load? || step.Delete? || step.Keys? || step.Tick?
  }

  lemma IdleLeaves(s: State, step: Step)
    requires Idle(step)
    ensures var t := Apply(s, step); t.heap == s.heap && t.timer == s.timer && t.inflight == s.inflight
  {
  }

  lemma {:induction false} StepLowers(s: State, step: Step)
    requires Enabled(s, step) && !step.Store?
    ensures FiresLeft(Apply(s, step)) + (if GoesOff(step) then 1 else 0) <= FiresLeft(s)
  {
    match step
    case Fire => GoOffLowers(s);
    case Drain(c) => DrainLowers(s, c);
    case Rearm(c, now, end, escaped) => RearmStepLowers(s, c, now, end, escaped);
    case _ => IdleLeaves(s, step);
  }

  lemma {:induction false} RunLowers(s: State, steps: seq<Step>)
    requires ValidRun(s, steps) && StoreFree(steps)
    ensures |Cutoffs(s, steps)| + FiresLeft(Run(s, steps)) <= FiresLeft(s)
  {
    if steps != [] {
      var n := |steps| - 1;
      RunLowers(s, steps[..n]);
      StepLowers(Run(s, steps[..n]), steps[n]);
    }
  }

  // ---------- the cutoffs never decrease ----------

  ghost predicate Increasing(cs: seq<int>) {
    forall i, j :: 0 <= i < j < |cs| ==> cs[i] <= cs[j]
  }

  lemma IncreasingOn(cs: seq<int>, c: int)
    requires Increasing(cs) && (cs != [] ==> cs[|cs| - 1] <= c)
    ensures Increasing(cs + [c])
  {
  }

  /** The running timer, and one started for the last slot, go off no earlier than this. */
  ghost predicate NotBefore(c: int, t: State) {
    && (t.timer.pending.Some? ==> c <= t.timer.pending.value)
    && (t.heap != [] ==> c <= t.heap[|t.heap| - 1].time)
  }

  lemma GoOffNotBefore(t: State, step: Step)
    requires Inv(t) && Enabled(t, step) && !step.Store? && GoesOff(step)
    ensures NotBefore(t.timer.cutoff, Apply(t, step))
  {
    assert NotBefore(t.timer.cutoff, t.GoOff());
    if step.Rearm? {
      RearmKeepsNotBefore(t.timer.cutoff, t.GoOff(), step.cutoff, step.now, step.end, false);
    }
  }

  lemma DrainKeepsNotBefore(c: int, t: State, cutoff: int)
    requires NotBefore(c, t)
    ensures NotBefore(c, Drained(t, cutoff))
  {
    DrainTakesSuffix(t.heap, cutoff);
  }

  lemma RearmKeepsNotBefore(c: int, t: State, cutoff: int, now: int, end: int, escaped: bool)
    requires NotBefore(c, t)
    ensures NotBefore(c, Rearmed(t, cutoff, now, end, escaped))
  {
  }

  lemma StepKeepsNotBefore(c: int, t: State, step: Step)
    requires !step.Store? && NotBefore(c, t)
    ensures NotBefore(c, Apply(t, step))
  {
    match step
    case Fire =>
    case Drain(cutoff) => DrainKeepsNotBefore(c, t, cutoff);
    case Rearm(cutoff, now, end, escaped) => RearmKeepsNotBefore(c, t, cutoff, now, end, escaped);
    case _ => IdleLeaves(t, step);
  }

  /** The cutoffs of a run, and after them the state it leads to. */
  ghost predicate InOrder(cs: seq<int>, t: State) {
    Increasing(cs) && (cs != [] ==> NotBefore(cs[|cs| - 1], t))
  }

  lemma StepKeepsOrder(cs: seq<int>, t: State, step: Step)
    requires Inv(t) && Enabled(t, step) && !step.Store? && InOrder(cs, t)
    ensures InOrder(Noted(cs, t, step), Apply(t, step))
  {
    if GoesOff(step) {
      GoOffNotBefore(t, step);
      IncreasingOn(cs, t.timer.cutoff);
    } else if cs != [] {
      StepKeepsNotBefore(cs[|cs| - 1], t, step);
    }
  }

  lemma {:induction false} CutoffsKeepOrder(s: State, steps: seq<Step>)
    requires Inv(s) && ValidRun(s, steps) && StoreFree(steps)
    ensures InOrder(Cutoffs(s, steps), Run(s, steps))
  {
    if steps != [] {
      var n := |steps| - 1;
      CutoffsKeepOrder(s, steps[..n]);
      RunKeepsInv(s, steps[..n]);
      StepKeepsOrder(Cutoffs(s, steps[..n]), Run(s, steps[..n]), steps[n]);
    }
  }

  // ---------- when they increase strictly ----------

  ghost predicate StrictlyIncreasing(cs: seq<int>) {
    forall i, j :: 0 <= i < j < |cs| ==> cs[i] < cs[j]
  }

  lemma StrictlyOn(cs: seq<int>, c: int)
    requires StrictlyIncreasing(cs) && (cs != [] ==> cs[|cs| - 1] < c)
    ensures StrictlyIncreasing(cs + [c])
  {
  }

  /** This handler may still re-arm the timer. */
  predicate Live(heap: seq<Entry>, h: Handler) {
    Left(heap, h) > 0
  }

  /** Two handlers may re-arm the timer, or one may while the timer is running. */
  ghost predicate Overlapping(s: State) {
    || (s.timer.pending.Some? && exists h :: h in s.inflight && Live(s.heap, h))
    || exists h, g :: multiset{h, g} <= s.inflight && Live(s.heap, h) && Live(s.heap, g)
  }

  /** Only this handler may re-arm the timer. */
  lemma OneLive(t: State, r: Handler)
    requires t.timer.pending.None? && forall h :: h in t.inflight - multiset{r} ==> !Live(t.heap, h)
    ensures !Overlapping(t)
  {
    forall h, g | multiset{h, g} <= t.inflight && Live(t.heap, h) ensures !Live(t.heap, g) {
      assert h == r by { assert h in multiset{h, g}; }
      assert multiset{h, g} - multiset{h} == multiset{g};
      assert g in t.inflight - multiset{r};
    }
  }

  lemma GoOffStaysApart(t: State)
    requires t.timer.pending.Some? && !Overlapping(t)
    ensures !Overlapping(t.GoOff())
  {
    var d := AtDrain(t.timer.pending.value);
    assert t.inflight + multiset{d} - multiset{d} == t.inflight;
    OneLive(t.GoOff(), d);
  }

  lemma OthersNotLive(t: State, r: Handler, h: Handler)
    requires r in t.inflight && Live(t.heap, r) && h in t.inflight - multiset{r} && !Overlapping(t)
    ensures t.timer.pending.None? && !Live(t.heap, h)
  {
    assert multiset{r, h} <= t.inflight;
  }

  /** The drain of the only live handler leaves it the only one. */
  lemma DrainStaysAlone(t: State, c: int)
    requires AtDrain(c) in t.inflight && Live(t.heap, AtDrain(c)) && !Overlapping(t)
    ensures Drained(t, c).timer.pending.None?
    ensures forall h :: h in Drained(t, c).inflight - multiset{AtRearm(c)} ==> !Live(Drained(t, c).heap, h)
  {
    var u := Drained(t, c);
    assert u.inflight - multiset{AtRearm(c)} == t.inflight - multiset{AtDrain(c)};
    assert t.timer.pending.None?;
    forall h | h in t.inflight - multiset{AtDrain(c)} ensures !Live(u.heap, h) {
      OthersNotLive(t, AtDrain(c), h);
      DrainOfPrefix(t.heap, u.heap, h.cutoff);
    }
  }

  lemma EmptyIsApart(t: State)
    requires t.heap == []
    ensures !Overlapping(t)
  {
  }

  lemma DrainStaysApart(t: State, c: int)
    requires AtDrain(c) in t.inflight && !Overlapping(t)
    ensures !Overlapping(Drained(t, c))
  {
    if Live(t.heap, AtDrain(c)) {
      DrainStaysAlone(t, c);
      OneLive(Drained(t, c), AtRearm(c));
    } else {
      EmptyIsApart(Drained(t, c));
    }
  }

  lemma RearmStaysApart(t: State, c: int, now: int, end: int, escaped: bool)
    requires Enabled(t, Rearm(c, now, end, escaped)) && !Overlapping(t)
    ensures !Overlapping(Rearmed(t, c, now, end, escaped))
  {
    if t.heap == [] {
      EmptyIsApart(Rearmed(t, c, now, end, escaped));
    } else {
      var u := Rearmed(t, c, now, end, escaped);
      assert Live(t.heap, AtRearm(c)) && !escaped;
      forall h | h in u.inflight ensures !Live(u.heap, h) {
        OthersNotLive(t, AtRearm(c), h);
      }
    }
  }

  lemma IdleStaysApart(t: State, step: Step)
    requires Idle(step) && !Overlapping(t)
    ensures !Overlapping(Apply(t, step))
  {
    IdleLeaves(t, step);
  }

  lemma StepStaysApart(t: State, step: Step)
    requires Enabled(t, step) && !step.Store? && !Overlapping(t)
    ensures !Overlapping(Apply(t, step))
  {
    match step
    case Fire => GoOffStaysApart(t);
    case Drain(c) => DrainStaysApart(t, c);
    case Rearm(c, now, end, escaped) => RearmStaysApart(t, c, now, end, escaped);
    case _ => IdleStaysApart(t, step);
  }

  /** The running timer, and any that a handler may start next, go off later than this. */
  ghost predicate After(c: int, t: State) {
    && (t.timer.pending.Some? ==> c < t.timer.pending.value)
    && forall h :: h in t.inflight && Live(t.heap, h) ==>
         if h.AtDrain? then c <= h.cutoff else c < t.heap[|t.heap| - 1].time
  }

  lemma GoOffIsAfter(t: State, step: Step)
    requires Inv(t) && Enabled(t, step) && !step.Store? && GoesOff(step) && !Overlapping(t)
    ensures After(t.timer.cutoff, Apply(t, step))
  {
    assert step.Rearm? ==> !Live(t.heap, AtRearm(step.cutoff));
  }

  lemma DrainKeepsAfter(c: int, t: State, cutoff: int)
    requires AtDrain(cutoff) in t.inflight && After(c, t) && !Overlapping(t)
    ensures After(c, Drained(t, cutoff))
  {
    DrainTakesSuffix(t.heap, cutoff);
    if Live(t.heap, AtDrain(cutoff)) {
      DrainStaysAlone(t, cutoff);
    }
  }

  lemma RearmKeepsAfter(c: int, t: State, cutoff: int, now: int, end: int)
    requires Inv(t) && Enabled(t, Rearm(cutoff, now, end, false)) && After(c, t) && !Overlapping(t)
    ensures After(c, Rearmed(t, cutoff, now, end, false))
  {
    assert t.heap != [] ==> Live(t.heap, AtRearm(cutoff));
  }

  lemma IdleKeepsAfter(c: int, t: State, step: Step)
    requires Idle(step) && After(c, t)
    ensures After(c, Apply(t, step))
  {
    IdleLeaves(t, step);
  }

  lemma StepKeepsAfter(c: int, t: State, step: Step)
    requires Inv(t) && Enabled(t, step) && !step.Store? && !GoesOff(step) && After(c, t) && !Overlapping(t)
    ensures After(c, Apply(t, step))
  {
    match step
    case Drain(cutoff) => DrainKeepsAfter(c, t, cutoff);
    case Rearm(cutoff, now, end, _) => RearmKeepsAfter(c, t, cutoff, now, end);
    case _ => IdleKeepsAfter(c, t, step);
  }

  /** The cutoffs of a run, and after them the state it leads to. */
  ghost predicate InStrictOrder(cs: seq<int>, t: State) {
    StrictlyIncreasing(cs) && (cs != [] ==> After(cs[|cs| - 1], t))
  }

  lemma StepKeepsStrictOrder(cs: seq<int>, t: State, step: Step)
    requires Inv(t) && Enabled(t, step) && !step.Store? && InStrictOrder(cs, t) && !Overlapping(t)
    ensures InStrictOrder(Noted(cs, t, step), Apply(t, step))
  {
    if GoesOff(step) {
      GoOffIsAfter(t, step);
      StrictlyOn(cs, t.timer.cutoff);
    } else if cs != [] {
      StepKeepsAfter(cs[|cs| - 1], t, step);
    }
  }

  lemma {:induction false} ApartIncreases(s: State, steps: seq<Step>)
    requires Inv(s) && ValidRun(s, steps) && StoreFree(steps) && !Overlapping(s)
    ensures InStrictOrder(Cutoffs(s, steps), Run(s, steps)) && !Overlapping(Run(s, steps))
  {
    if steps != [] {
      var n := |steps| - 1;
      ApartIncreases(s, steps[..n]);
      RunKeepsInv(s, steps[..n]);
      StepKeepsStrictOrder(Cutoffs(s, steps[..n]), Run(s, steps[..n]), steps[n]);
      StepStaysApart(Run(s, steps[..n]), steps[n]);
    }
  }

  /** Some future in which nothing more is stored has the timer go off with a cutoff no later than one before. */
  ghost predicate MayRepeat(s: State) {
    exists steps :: ValidRun(s, steps) && StoreFree(steps) && !StrictlyIncreasing(Cutoffs(s, steps))
  }

  lemma CutoffsSnoc(s: State, steps: seq<Step>, step: Step)
    ensures Cutoffs(s, steps + [step]) == Noted(Cutoffs(s, steps), Run(s, steps), step)
  {
    assert (steps + [step])[..|steps|] == steps;
  }

  lemma {:induction false} CutoffsAppend(s: State, a: seq<Step>, b: seq<Step>)
    ensures Cutoffs(s, a + b) == Cutoffs(s, a) + Cutoffs(Run(s, a), b)
  {
    if b == [] {
      assert a + b == a;
    } else {
      var n := |b| - 1;
      CutoffsAppend(s, a, b[..n]);
      AppendSnoc(a, b);
      RunAppend(s, a, b[..n]);
      CutoffsSnoc(s, a + b[..n], b[n]);
    }
  }

  lemma SuffixRepeats(cs: seq<int>, ds: seq<int>)
    requires !StrictlyIncreasing(ds)
    ensures !StrictlyIncreasing(cs + ds)
  {
    var i, j :| 0 <= i < j < |ds| && ds[i] >= ds[j];
    assert (cs + ds)[|cs| + i] >= (cs + ds)[|cs| + j];
  }

  lemma CutoffsOne(s: State, step: Step)
    ensures Cutoffs(s, [step]) == Noted([], s, step)
  {
    CutoffsSnoc(s, [], step);
    assert [] + [step] == [step];
  }

  lemma CutoffsFirst(s: State, step: Step, rest: seq<Step>)
    ensures Cutoffs(s, [step] + rest) == Noted([], s, step) + Cutoffs(Apply(s, step), rest)
  {
    RunOne(s, step);
    CutoffsOne(s, step);
    CutoffsAppend(s, [step], rest);
  }

  lemma RunFirst(s: State, step: Step, rest: seq<Step>)
    requires Enabled(s, step) && ValidRun(Apply(s, step), rest)
    ensures ValidRun(s, [step] + rest)
  {
    RunOne(s, step);
    RunAppend(s, [step], rest);
  }

  lemma StoreFreeFirst(step: Step, rest: seq<Step>)
    requires !step.Store? && StoreFree(rest)
    ensures StoreFree([step] + rest)
  {
  }

  lemma StepFirst(s: State, step: Step, rest: seq<Step>)
    requires Enabled(s, step) && !step.Store? && ValidRun(Apply(s, step), rest) && StoreFree(rest)
    ensures ValidRun(s, [step] + rest) && StoreFree([step] + rest)
    ensures Cutoffs(s, [step] + rest) == Noted([], s, step) + Cutoffs(Apply(s, step), rest)
  {
    RunFirst(s, step, rest);
    StoreFreeFirst(step, rest);
    CutoffsFirst(s, step, rest);
  }

  lemma RepeatsAfter(s: State, step: Step)
    requires Enabled(s, step) && !step.Store? && MayRepeat(Apply(s, step))
    ensures MayRepeat(s)
  {
    var t := Apply(s, step);
    var rest :| ValidRun(t, rest) && StoreFree(rest) && !StrictlyIncreasing(Cutoffs(t, rest));
    StepFirst(s, step, rest);
    SuffixRepeats(Noted([], s, step), Cutoffs(t, rest));
  }

  ghost predicate MayGoOffWith(s: State, c: int) {
    exists steps :: ValidRun(s, steps) && StoreFree(steps) && c in Cutoffs(s, steps)
  }

  lemma GoesOffNow(s: State)
    requires Enabled(s, Fire)
    ensures MayGoOffWith(s, s.timer.cutoff)
  {
    RunOne(s, Fire);
    CutoffsOne(s, Fire);
    assert ValidRun(s, [Fire]) && StoreFree([Fire]) && s.timer.cutoff in Cutoffs(s, [Fire]);
  }

  lemma GoesOffLater(s: State, step: Step, c: int)
    requires Enabled(s, step) && !step.Store? && MayGoOffWith(Apply(s, step), c)
    ensures MayGoOffWith(s, c)
  {
    var t := Apply(s, step);
    var rest :| ValidRun(t, rest) && StoreFree(rest) && c in Cutoffs(t, rest);
    StepFirst(s, step, rest);
  }

  lemma GoesOffAgain(s: State)
    requires Enabled(s, Fire) && MayGoOffWith(s.GoOff(), s.timer.cutoff)
    ensures MayRepeat(s)
  {
    var t, c := s.GoOff(), s.timer.cutoff;
    var rest :| ValidRun(t, rest) && StoreFree(rest) && c in Cutoffs(t, rest);
    StepFirst(s, Fire, rest);
    CommonRepeats(Noted([], s, Fire), Cutoffs(t, rest), c);
  }

  lemma CommonRepeats(cs: seq<int>, ds: seq<int>, c: int)
    requires c in cs && c in ds
    ensures !StrictlyIncreasing(cs + ds)
  {
    var i :| 0 <= i < |cs| && cs[i] == c;
    var j :| 0 <= j < |ds| && ds[j] == c;
    assert (cs + ds)[i] == (cs + ds)[|cs| + j];
  }

  /** Re-arming for the last slot, right after a timer for the last slot has gone off. */
  lemma RearmsAlike(s: State, d: int)
    requires Inv(s) && AtRearm(d) in s.inflight && s.heap != []
    requires s.timer.pending == Some(s.heap[|s.heap| - 1].time) && s.timer.pending.value <= s.clock
    ensures AtRearm(d) in s.GoOff().inflight
    ensures var t := Rearmed(s.GoOff(), d, s.clock, s.clock, false); t.timer == s.timer && t.clock == s.clock
  {
  }

  /** A timer due at the last slot goes off, is started anew by another handler, and goes off again. */
  lemma GoesOffTwice(s: State, d: int)
    requires Inv(s) && AtRearm(d) in s.inflight && s.heap != []
    requires s.timer.pending == Some(s.heap[|s.heap| - 1].time) && s.timer.pending.value <= s.clock
    ensures MayRepeat(s)
  {
    var rearm := Rearm(d, s.clock, s.clock, false);
    RearmsAlike(s, d);
    GoesOffNow(Apply(s.GoOff(), rearm));
    GoesOffLater(s.GoOff(), rearm, s.timer.cutoff);
    GoesOffAgain(s);
  }

  lemma LastPendingRepeats(s: State, d: int)
    requires Inv(s) && AtRearm(d) in s.inflight && s.heap != []
    requires s.timer.pending == Some(s.heap[|s.heap| - 1].time)
    ensures MayRepeat(s)
  {
    if s.timer.pending.value <= s.clock {
      GoesOffTwice(s, d);
    } else {
      var tick := Tick(s.timer.pending.value);
      IdleKeepsInv(s, tick);
      GoesOffTwice(Apply(s, tick), d);
      RepeatsAfter(s, tick);
    }
  }

  /** A handler that re-arms while no timer is running starts it for the last slot. */
  lemma RearmRepeats(s: State, c: int, d: int)
    requires Inv(s) && multiset{AtRearm(c), AtRearm(d)} <= s.inflight && s.heap != [] && s.timer.pending.None?
    ensures MayRepeat(s)
  {
    var rearm := Rearm(c, s.clock, s.clock, false);
    assert multiset{AtRearm(c), AtRearm(d)} - multiset{AtRearm(c)} == multiset{AtRearm(d)};
    assert AtRearm(d) in s.inflight - multiset{AtRearm(c)};
    RearmKeepsInv(s, c, s.clock, s.clock, false);
    LastPendingRepeats(Apply(s, rearm), d);
    RepeatsAfter(s, rearm);
  }

  /** A timer due before the last slot becomes a handler that drains nothing. */
  lemma DrainsNothing(s: State, p: int)
    requires Inv(s) && Enabled(s, Fire) && s.timer.pending == Some(p)
    requires s.heap != [] && p < s.heap[|s.heap| - 1].time
    ensures AtDrain(p) in s.GoOff().inflight && Inv(Drained(s.GoOff(), p))
    ensures var t := Drained(s.GoOff(), p);
            && t.heap == s.heap && t.timer == s.timer.GoneOff()
            && t.inflight == s.inflight + multiset{AtRearm(p)}
  {
    FireKeepsInv(s);
    DrainKeepsInv(s.GoOff(), p);
    assert s.GoOff().inflight - multiset{AtDrain(p)} == s.inflight;
  }

  lemma DueTimerRepeats(s: State, d: int)
    requires Inv(s) && AtRearm(d) in s.inflight && s.heap != []
    requires s.timer.pending.Some? && s.timer.pending.value <= s.clock
    requires s.timer.pending.value < s.heap[|s.heap| - 1].time
    ensures MayRepeat(s)
  {
    var p := s.timer.pending.value;
    DrainsNothing(s, p);
    RearmRepeats(Drained(s.GoOff(), p), p, d);
    RepeatsAfter(s.GoOff(), Drain(p));
    RepeatsAfter(s, Fire);
  }

  lemma TimerAndRearmRepeat(s: State, d: int)
    requires Inv(s) && AtRearm(d) in s.inflight && s.heap != [] && s.timer.pending.Some?
    ensures MayRepeat(s)
  {
    if s.timer.pending.value == s.heap[|s.heap| - 1].time {
      LastPendingRepeats(s, d);
    } else if s.timer.pending.value <= s.clock {
      DueTimerRepeats(s, d);
    } else {
      var tick := Tick(s.timer.pending.value);
      IdleKeepsInv(s, tick);
      DueTimerRepeats(Apply(s, tick), d);
      RepeatsAfter(s, tick);
    }
  }

  lemma TimerAndLiveRepeat(s: State, h: Handler)
    requires Inv(s) && h in s.inflight && Live(s.heap, h) && s.timer.pending.Some?
    ensures MayRepeat(s)
  {
    match h
    case AtRearm(d) => TimerAndRearmRepeat(s, d);
    case AtDrain(d) =>
      DrainKeepsInv(s, d);
      assert AtRearm(d) in Drained(s, d).inflight;
      TimerAndRearmRepeat(Drained(s, d), d);
      RepeatsAfter(s, Drain(d));
  }

  /** One of two live handlers that has to drain first does so; both stay live. */
  lemma DrainKeepsTwo(s: State, c: int, g: Handler)
    requires multiset{AtDrain(c), g} <= s.inflight && Live(s.heap, AtDrain(c)) && Live(s.heap, g)
    ensures multiset{AtRearm(c), g} <= Drained(s, c).inflight
    ensures Live(Drained(s, c).heap, AtRearm(c)) && Live(Drained(s, c).heap, g)
  {
    assert multiset{AtDrain(c), g} - multiset{AtDrain(c)} == multiset{g};
    if g.AtDrain? {
      DrainsLeave(s.heap, c, g.cutoff);
    }
  }

  lemma TwoLiveRepeat(s: State, h: Handler, g: Handler)
    requires Inv(s) && multiset{h, g} <= s.inflight && Live(s.heap, h) && Live(s.heap, g)
    requires s.timer.pending.None?
    ensures MayRepeat(s)
    decreases (if h.AtDrain? then 1 else 0) + if g.AtDrain? then 1 else 0
  {
    if h.AtDrain? {
      DrainKeepsInv(s, h.cutoff);
      DrainKeepsTwo(s, h.cutoff, g);
      TwoLiveRepeat(Drained(s, h.cutoff), AtRearm(h.cutoff), g);
      RepeatsAfter(s, Drain(h.cutoff));
    } else if g.AtDrain? {
      DrainKeepsInv(s, g.cutoff);
      DrainKeepsTwo(s, g.cutoff, h);
      TwoLiveRepeat(Drained(s, g.cutoff), h, AtRearm(g.cutoff));
      RepeatsAfter(s, Drain(g.cutoff));
    } else {
      RearmRepeats(s, h.cutoff, g.cutoff);
    }
  }

  /**
   Once nothing more is stored, the cutoffs with which the timer goes off increase strictly in
   every future, if and only if no handler that may re-arm the timer overlaps with the running
   timer or with another one.
   */
  lemma CutoffsIncreaseIff(s: State)
    requires Inv(s)
    ensures (forall steps :: ValidRun(s, steps) && StoreFree(steps) ==> StrictlyIncreasing(Cutoffs(s, steps)))
      <==> !Overlapping(s)
  {
    if Overlapping(s) {
      if s.timer.pending.Some? {
        var h :| h in s.inflight && Live(s.heap, h);
        TimerAndLiveRepeat(s, h);
      } else {
        var h, g :| multiset{h, g} <= s.inflight && Live(s.heap, h) && Live(s.heap, g);
        TwoLiveRepeat(s, h, g);
      }
    } else {
      forall steps | ValidRun(s, steps) && StoreFree(steps) ensures StrictlyIncreasing(Cutoffs(s, steps)) {
        ApartIncreases(s, steps);
      }
    }
  }
}
