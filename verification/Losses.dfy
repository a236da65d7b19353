/**
 Two short runs in which the store loses a record it was told to keep, and one after which
 a timer may go off twice with one cutoff: the general promises are false, which is why
 PermanentLossIff, EarlyLossIff and CutoffsIncreaseIff carry conditions.
 */
module Losses {
  import opened Wrappers
  import opened HeapOrder
  import opened Records
  import opened Timers
  import opened Expiry
  import opened History
  import opened Firings
  import opened Purge
  import opened EarlyLoss

  const KEPT: Data := Scalar(1)

  function StoreAt(key: Key, ttl: int, at: int): Step {
    Step.Store(key, KEPT, ttl, at, at, at, at, false)
  }

  /** An entry no earlier than its parent stays where it was appended. */
  lemma PushStays(s: seq<Entry>, e: Entry)
    requires s != [] ==> s[Parent(|s|)].time <= e.time
    ensures Pushed(s, e) == s + [e]
  {
  }

  /** A third entry earlier than the root changes places with it. */
  lemma PushBecomesRoot(a: Entry, b: Entry, c: Entry)
    requires c.time < a.time
    ensures Pushed([a, b], c) == [c, b, a]
  {
    assert [a, b] + [c] == [a, b, c];
    assert Swapped([a, b, c], 0, 2) == [c, b, a];
  }

  /** A write with a lifetime, then one to keep the value for ever: the leftover entry takes the record. */
  lemma PermanentRecordIsLost() returns (writes: seq<Step>, rest: seq<Step>)
    ensures ValidRun(Init(100), writes + rest)
    ensures LatestWrite(writes, "k") == Some(Write(KEPT, 0)) && Undisturbed(rest, "k")
    ensures "k" !in Run(Init(100), writes + rest).table.records
  {
    var a, b := StoreAt("k", 10, 100), StoreAt("k", 0, 100);
    var s2 := Apply(Apply(Init(100), a), b);
    PushStays([], Entry(110, "k"));
    RunOne(Init(100), a);
    RunSnoc(Init(100), [a], b);
    writes := [a] + [b];
    Reachable(100, writes);
    assert s2.heap == [] + [Entry(110, "k")];
    assert Entry(110, "k") in s2.heap;
    PermanentLossIff(s2, "k");
    rest :| ValidRun(s2, rest) && Undisturbed(rest, "k") && "k" !in Run(s2, rest).table.records;
    RunAppend(Init(100), writes, rest);
  }

  /** The state after a write of "k" for 10, again for 100, and of "j" for 3. */
  function AfterWrites(): State {
    Apply(Apply(Apply(Init(100), StoreAt("k", 10, 100)), StoreAt("k", 100, 100)), StoreAt("j", 3, 101))
  }

  lemma AfterTwoWrites()
    ensures var s := Apply(Apply(Init(100), StoreAt("k", 10, 100)), StoreAt("k", 100, 100));
            && s.heap == [Entry(110, "k"), Entry(200, "k")]
            && s.timer == Timer(110, Some(110)) && s.inflight == multiset{} && s.clock == 100
            && s.Record("k") == Some(Record(Meta(2, 100, 0, 100, 100), KEPT)) && s.Record("j") == None
  {
    var s1 := Apply(Init(100), StoreAt("k", 10, 100));
    PushStays([], Entry(110, "k"));
    assert s1.heap == [Entry(110, "k")] && s1.timer == Timer(110, Some(110));
    assert s1.Record("k") == Some(Record(Meta(1, 10, 0, 100, 100), KEPT));
    PushStays([Entry(110, "k")], Entry(200, "k"));
  }

  lemma AfterThreeWrites()
    ensures var s := AfterWrites();
            && s.heap == [Entry(104, "j"), Entry(200, "k"), Entry(110, "k")]
            && s.timer == Timer(104, Some(104)) && s.inflight == multiset{} && s.clock == 101
            && s.Record("k") == Some(Record(Meta(2, 100, 0, 100, 100), KEPT))
  {
    AfterTwoWrites();
    PushBecomesRoot(Entry(110, "k"), Entry(200, "k"), Entry(104, "j"));
  }

  lemma ThreeWrites() returns (writes: seq<Step>)
    ensures ValidRun(Init(100), writes) && LatestWrite(writes, "k") == Some(Write(KEPT, 100))
    ensures Run(Init(100), writes) == AfterWrites()
  {
    var a, b, c := StoreAt("k", 10, 100), StoreAt("k", 100, 100), StoreAt("j", 3, 101);
    AfterTwoWrites();
    RunOne(Init(100), a);
    RunSnoc(Init(100), [a], b);
    RunSnoc(Init(100), [a] + [b], c);
    writes := [a] + [b] + [c];
    assert writes[..2] == [a] + [b];
  }

  /** From there the key is lost long before its lifetime of 100 is over. */
  lemma LiveRecordIsLostEarly() returns (writes: seq<Step>, rest: seq<Step>)
    ensures ValidRun(Init(100), writes + rest)
    ensures LatestWrite(writes, "k") == Some(Write(KEPT, 100)) && Undisturbed(rest, "k")
    ensures var table := Run(Init(100), writes).table;
            table.Load("k", 0).Some? && table.records["k"].ExpiresAt() == 200
    ensures Run(Init(100), writes + rest).clock < 200 && "k" !in Run(Init(100), writes + rest).table.records
  {
    writes := ThreeWrites();
    var s := Run(Init(100), writes);
    AfterThreeWrites();
    Reachable(100, writes);
    assert EndsBefore(s.heap, 2, "k", 200);
    QuietEarlyLossIff(s, "k");
    rest :| ValidRun(s, rest) && StoreFree(rest) && Undisturbed(rest, "k")
            && Run(s, rest).clock < 200 && "k" !in Run(s, rest).table.records;
    RunAppend(Init(100), writes, rest);
  }

  /**
   A run after which a handler overlaps with the timer: the first record's handler has not drained
   yet when the second write starts the timer again. From there the timer can go off twice
   with one cutoff although nothing more is stored.
   */
  lemma HandlersOverlap() returns (steps: seq<Step>)
    ensures ValidRun(Init(100), steps) && MayRepeat(Run(Init(100), steps))
  {
    var a, b := StoreAt("k", 1, 100), StoreAt("j", 10, 101);
    RunOne(Init(100), a);
    RunSnoc(Init(100), [a], Tick(101));
    RunSnoc(Init(100), [a] + [Tick(101)], Fire);
    RunSnoc(Init(100), [a] + [Tick(101)] + [Fire], b);
    steps := [a] + [Tick(101)] + [Fire] + [b];
    var s := Run(Init(100), steps);
    Reachable(100, steps);
    assert s.timer.pending == Some(111);
    assert AtDrain(101) in s.inflight;
    assert Live(s.heap, AtDrain(101));
    CutoffsIncreaseIff(s);
  }
}
