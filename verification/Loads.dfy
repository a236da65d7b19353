/**
 What a load finds, told from the past of the run alone: which writes came when, with
 which clock readings. And what the cached key list is made of.
 */
module Loads {
  import opened Wrappers
  import opened HeapOrder
  import opened Records
  import opened Expiry
  import opened History

  // ---------- the record found ----------

  /** The position of the latest write of the key, or the length if there is none. */
  function LastWrite(steps: seq<Step>, key: Key): (w: nat)
    ensures w <= |steps| && (w < |steps| ==> Stores(steps[w], key))
    ensures forall i :: w < i < |steps| ==> !Stores(steps[i], key)
    ensures w == |steps| ==> forall i :: 0 <= i < |steps| ==> !Stores(steps[i], key)
  {
    if steps == [] then 0
    else
      var n := |steps| - 1;
      if Stores(steps[n], key) then n
      else
        var w := LastWrite(steps[..n], key);
        if w == n then n + 1 else w
  }

  lemma WrittenByLast(s: State, steps: seq<Step>, key: Key)
    requires steps != [] && Stores(steps[|steps| - 1], key)
    ensures LastWrite(steps, key) == |steps| - 1
    ensures Run(s, steps).Record(key).Some?
    ensures var rec, step := Run(s, steps).Record(key).value, steps[|steps| - 1];
            rec.data == step.data && rec.meta.expireTime == step.ttl && rec.meta.updated == step.updated
  {
    StepEffect(Run(s, steps[..|steps| - 1]), steps[|steps| - 1], key);
  }

  /** Data, lifetime and update time are those of the latest write. */
  lemma {:induction false} RecordIsLastWrite(clock: int, steps: seq<Step>, key: Key)
    requires Run(Init(clock), steps).Record(key).Some?
    ensures LastWrite(steps, key) < |steps|
    ensures var rec, write := Run(Init(clock), steps).Record(key).value, steps[LastWrite(steps, key)];
            rec.data == write.data && rec.meta.expireTime == write.ttl && rec.meta.updated == write.updated
  {
    var n := |steps| - 1;
    if Stores(steps[n], key) {
      WrittenByLast(Init(clock), steps, key);
    } else {
      StepEffect(Run(Init(clock), steps[..n]), steps[n], key);
      RecordIsLastWrite(clock, steps[..n], key);
    }
  }

  /** No access time is ever stored. */
  lemma {:induction false} NeverStamped(clock: int, steps: seq<Step>, key: Key)
    ensures Run(Init(clock), steps).Record(key).Some? ==> Run(Init(clock), steps).Record(key).value.meta.accessed == 0
  {
    if steps != [] {
      NeverStamped(clock, steps[..|steps| - 1], key);
      StepEffect(Run(Init(clock), steps[..|steps| - 1]), steps[|steps| - 1], key);
    }
  }

  /** The record of a key as its writes have made it: the creating one, the latest one, and how many there were. */
  function MadeBy(steps: seq<Step>, b: nat, w: nat, key: Key, accessed: int): Record
    requires b < |steps| && steps[b].Store? && w < |steps| && steps[w].Store?
  {
    Record(Meta(Writes(steps[b..], key), steps[w].ttl, accessed, steps[b].created, steps[w].updated), steps[w].data)
  }

  lemma StoredIsMade(clock: int, steps: seq<Step>, key: Key)
    requires Run(Init(clock), steps).Record(key).Some?
    ensures var b, w := Born(Init(clock), steps, key), LastWrite(steps, key);
            && b < |steps| && Stores(steps[b], key) && w < |steps| && Stores(steps[w], key)
            && Run(Init(clock), steps).Record(key).value == MadeBy(steps, b, w, key, 0)
  {
    MetadataDatesIncarnation(clock, steps, key);
    RecordIsLastWrite(clock, steps, key);
    NeverStamped(clock, steps, key);
  }

  /** Still alive at this moment: kept for ever, or not past the lifetime that counts from the creating write. */
  predicate Alive(steps: seq<Step>, b: nat, w: nat, now: int)
    requires b < |steps| && steps[b].Store? && w < |steps| && steps[w].Store?
  {
    steps[w].ttl <= 0 || now <= steps[b].created + steps[w].ttl
  }

  /**
   After any run, a load succeeds exactly if the key is in the table and its latest write has
   no lifetime, or one that has not run out, counted from the creating write. It returns that
   record as its writes have made it, stamped with the access time.
   */
  lemma {:induction false} LoadFinds(clock: int, steps: seq<Step>, key: Key, accessed: int, now: int)
    ensures var s := Run(Init(clock), steps);
            var b, w := Born(Init(clock), steps, key), LastWrite(steps, key);
            if key !in s.table.records then s.Loaded(key, accessed, now) == None
            else
              && b < |steps| && Stores(steps[b], key) && w < |steps| && Stores(steps[w], key)
              && s.Loaded(key, accessed, now)
                   == if Alive(steps, b, w, now) then Some(MadeBy(steps, b, w, key, accessed)) else None
  {
    if key in Run(Init(clock), steps).table.records {
      StoredIsMade(clock, steps, key);
    }
  }

  /** After a failed load the key is gone; a successful one has changed no record. No load touches another key. */
  lemma LoadLeaves(s: State, key: Key, accessed: int, now: int)
    ensures var t := Apply(s, Step.Load(key, accessed, now));
            && (s.Loaded(key, accessed, now).None? ==> key !in t.table.records)
            && (s.Loaded(key, accessed, now).Some? ==> t.table == s.table)
            && (forall k :: k != key ==> t.Record(k) == s.Record(k))
            && t == s.(table := t.table, clock := now)
  {
  }

  // ---------- the cached key list ----------

  /** How many steps up to and including the latest listing. */
  function LastListing(steps: seq<Step>): (r: nat)
    ensures r <= |steps| && (r > 0 ==> steps[r - 1].Keys?) && forall i :: r <= i < |steps| ==> !steps[i].Keys?
  {
    if steps == [] then 0
    else if steps[|steps| - 1].Keys? then |steps|
    else LastListing(steps[..|steps| - 1])
  }

  /** The keys written in these steps, one occurrence for each write. */
  function KeysWritten(steps: seq<Step>): seq<Key> {
    if steps == [] then [] else KeysWritten(steps[..|steps| - 1]) + KeyWritten(steps[|steps| - 1])
  }

  function KeyWritten(step: Step): seq<Key> {
    if step.Store? then [step.key] else []
  }

  /** What the latest listing answered; nothing before the first. */
  function Listing(steps: seq<Step>): seq<Key> {
    var r := LastListing(steps);
    if r == 0 then [] else steps[r - 1].order
  }

  /** A step that takes some record out of the table. */
  ghost predicate Removes(s: State, step: Step) {
    exists k :: k in s.table.records && k !in Apply(s, step).table.records
  }

  lemma DrainFlags(s: State, cutoff: int)
    ensures Drained(s, cutoff).table.dirty <==> s.table.dirty || Removes(s, Drain(cutoff))
  {
    var gone := Expired(s.heap, cutoff);
    if e :| e in gone && e.key in s.table.records {
      assert e.key in KeysOf(gone);
      assert e.key !in Apply(s, Drain(cutoff)).table.records;
    }
    if k :| k in s.table.records && k !in Apply(s, Drain(cutoff)).table.records {
      assert k in KeysOf(gone);
    }
  }

  lemma LoadFlags(s: State, step: Step)
    requires step.Load?
    ensures Apply(s, step).table.dirty <==> s.table.dirty || Removes(s, step)
  {
    assert step.key in s.table.records && step.key !in Apply(s, step).table.records ==> Removes(s, step);
  }

  /** The list goes stale just when a record leaves the table, and fresh by a listing. */
  lemma StepFlags(s: State, step: Step)
    ensures Apply(s, step).table.dirty <==> !step.Keys? && (s.table.dirty || Removes(s, step))
  {
    match step
    case Drain(cutoff) => DrainFlags(s, cutoff);
    case Load(key, _, _) => LoadFlags(s, step);
    case Delete(key) => assert key in s.table.records ==> Removes(s, step);
    case _ =>
  }

  /** A listing becomes the list; to a fresh one a write adds its key; nothing else changes it. */
  lemma StepLists(s: State, step: Step)
    ensures step.Keys? ==> Apply(s, step).table.keys == step.order
    ensures !step.Keys? && !s.table.dirty ==> Apply(s, step).table.keys == s.table.keys + KeyWritten(step)
  {
    assert s.table.keys + [] == s.table.keys;
  }

  /** From step r on, some record was taken out of the table. */
  ghost predicate RemovedSince(s: State, steps: seq<Step>, r: nat) {
    r < |steps|
    && var n := |steps| - 1;
       RemovedSince(s, steps[..n], r) || Removes(Run(s, steps[..n]), steps[n])
  }

  /** The list is stale exactly if a record has left the table since the latest listing. */
  lemma {:induction false} StaleIff(clock: int, steps: seq<Step>)
    ensures Run(Init(clock), steps).table.dirty <==> RemovedSince(Init(clock), steps, LastListing(steps))
  {
    if steps != [] {
      var n := |steps| - 1;
      StepFlags(Run(Init(clock), steps[..n]), steps[n]);
      if !steps[n].Keys? {
        StaleIff(clock, steps[..n]);
      }
    }
  }

  lemma KeysWrittenSnoc(steps: seq<Step>, r: nat)
    requires r < |steps|
    ensures KeysWritten(steps[r..]) == KeysWritten(steps[..|steps| - 1][r..]) + KeyWritten(steps[|steps| - 1])
  {
    assert steps[r..][..|steps| - 1 - r] == steps[..|steps| - 1][r..];
  }

  lemma ListingStays(steps: seq<Step>, n: nat)
    requires |steps| == n + 1 && !steps[n].Keys?
    ensures LastListing(steps) == LastListing(steps[..n]) <= n && Listing(steps) == Listing(steps[..n])
  {
  }

  /** A list that is not stale is what the latest listing answered, and then the keys of the writes since, in order. */
  lemma {:induction false} CacheIsListingAndWrites(clock: int, steps: seq<Step>)
    requires !Run(Init(clock), steps).table.dirty
    ensures Run(Init(clock), steps).table.keys == Listing(steps) + KeysWritten(steps[LastListing(steps)..])
  {
    if steps != [] {
      var n := |steps| - 1;
      StepFlags(Run(Init(clock), steps[..n]), steps[n]);
      StepLists(Run(Init(clock), steps[..n]), steps[n]);
      if steps[n].Keys? {
        assert Listing(steps) + [] == Listing(steps);
      } else {
        CacheIsListingAndWrites(clock, steps[..n]);
        ListingStays(steps, n);
        KeysWrittenSnoc(steps, LastListing(steps[..n]));
      }
    }
  }
}
