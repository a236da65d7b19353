/**
 Records, their lifetime, and the hash table as a value: the table of records
 together with the cached key list and the flag that says the cache is stale.
 */
module Records {
  import opened Wrappers
  import opened HeapOrder

  type Key = string

  /** A stored value: a primitive, a list or a dictionary. */
  datatype Data = Scalar(value: int) | List(items: seq<Data>) | Dict(fields: map<string, Data>)

  /** Zero in accessed means: never stamped. */
  datatype Meta = Meta(index: nat, expireTime: int, accessed: int, created: int, updated: int)

  datatype Record = Record(meta: Meta, data: Data)
  {
    /** A lifetime of zero or less means: keep for ever. */
    predicate IsPermanent() {
      meta.expireTime <= 0
    }

    function ExpiresAt(): int {
      meta.created + meta.expireTime
    }

    /** Strictly past its lifetime at the given moment. */
    predicate IsExpired(now: int) {
      if IsPermanent() then false else now - meta.created > meta.expireTime
    }

    function Deadline(key: Key): Entry {
      Entry(ExpiresAt(), key)
    }
  }

  /** The boundary is strict: a record is expired once the moment its lifetime ends on has passed. */
  lemma ExpiredIff(rec: Record, now: int)
    ensures rec.IsPermanent() <==> rec.meta.expireTime <= 0
    ensures rec.IsExpired(now) <==> !rec.IsPermanent() && now > rec.ExpiresAt()
    ensures rec.IsExpired(now) <==> rec.meta.expireTime > 0 && now > rec.meta.created + rec.meta.expireTime
  {
  }

  /** What is written under a key: data and time to live, the two clock readings of the write. */
  function Written(prev: Option<Record>, data: Data, ttl: int, created: int, updated: int): (r: Record)
    ensures r.data == data && r.meta.expireTime == ttl && r.meta.updated == updated
    ensures r.meta.created == if prev.Some? then prev.value.meta.created else created
  {
    var meta := if prev.Some? then prev.value.meta else Meta(0, 0, 0, created, 0);
    Record(meta.(index := meta.index + 1, updated := updated, expireTime := ttl), data)
  }

  function Lookup(records: map<Key, Record>, key: Key): Option<Record> {
    if key in records then Some(records[key]) else None
  }

  function Touched(rec: Record, accessed: int): Record {
    rec.(meta := rec.meta.(accessed := accessed))
  }

  /** What a reader finds of a stored record: nothing once it has expired, else a copy with the access time. */
  function Visible(stored: Option<Record>, accessed: int, now: int): Option<Record> {
    if stored.Some? && !stored.value.IsExpired(now) then Some(Touched(stored.value, accessed)) else None
  }

  /** There is a record for the key, to be kept for ever or not past its lifetime. */
  predicate Readable(records: map<Key, Record>, key: Key, now: int) {
    key in records
    && var meta := records[key].meta;
       meta.expireTime <= 0 || now <= meta.created + meta.expireTime
  }

  /** A copy of a record for a reader: all its metadata, but with this access time and these data. */
  function CopyOf(rec: Record, data: Data, accessed: int): Record {
    Record(Meta(rec.meta.index, rec.meta.expireTime, accessed, rec.meta.created, rec.meta.updated), data)
  }

  /** A reader finds a copy of just the readable records. */
  lemma VisibleIffReadable(records: map<Key, Record>, key: Key, accessed: int, now: int)
    ensures Visible(Lookup(records, key), accessed, now)
      == if Readable(records, key, now) then Some(CopyOf(records[key], records[key].data, accessed)) else None
  {
  }

  datatype Table = Table(records: map<Key, Record>, keys: seq<Key>, dirty: bool)
  {
    function Load(key: Key, accessed: int): Option<Record> {
      if key in records then Some(Touched(records[key], accessed)) else None
    }

    function Store(key: Key, data: Data, ttl: int, created: int, updated: int): Table {
      Table(records[key := Written(Lookup(records, key), data, ttl, created, updated)],
            if dirty then keys else keys + [key],
            dirty)
    }

    function Delete(key: Key): Table {
      Table(records - {key}, keys, dirty || key in records)
    }

    /** An answer the key list operation may give: the cache, or any fresh enumeration when it is stale. */
    ghost predicate MayList(order: seq<Key>) {
      if dirty then Enumerates(order, records.Keys) else order == keys
    }

    function Listed(order: seq<Key>): Table {
      Table(records, order, false)
    }

    /** An unflagged cache holds exactly the keys of the table. */
    ghost predicate CacheAgrees() {
      !dirty ==> forall k :: k in keys <==> k in records
    }

    /** Deletion of every key named by some entries. */
    function DeleteAll(gone: seq<Entry>): Table {
      Table(records - KeysOf(gone), keys, dirty || exists e :: e in gone && e.key in records)
    }
  }

  function KeysOf(entries: seq<Entry>): set<Key> {
    set e | e in entries :: e.key
  }

  /** Every element once, in some order. */
  ghost predicate Enumerates(order: seq<Key>, keys: set<Key>) {
    && (forall i, j :: 0 <= i < j < |order| ==> order[i] != order[j])
    && (forall k :: k in order <==> k in keys)
  }

  /** Whatever a table with an agreeing cache lists, is its key set; a rebuilt list has no duplicates. */
  lemma ListingIsDomain(t: Table, order: seq<Key>)
    requires t.CacheAgrees() && t.MayList(order)
    ensures forall k :: k in order <==> k in t.records
    ensures t.dirty ==> |order| == |t.records|
    ensures t.Listed(order).CacheAgrees()
  {
    if t.dirty {
      EnumerationSize(order, t.records.Keys);
    }
  }

  lemma {:induction false} EnumerationSize(order: seq<Key>, keys: set<Key>)
    requires Enumerates(order, keys)
    ensures |order| == |keys|
  {
    if order == [] {
      assert keys == {};
    } else {
      var k, rest := order[0], order[1..];
      assert forall x :: x in order <==> x == k || x in rest;
      assert k !in rest;
      EnumerationSize(rest, keys - {k});
    }
  }

  lemma DeleteNone(t: Table)
    ensures t.DeleteAll([]) == t
  {
    assert t.records - KeysOf([]) == t.records;
  }

  /** Deleting from the back, one entry at a time, is deleting all of them. */
  lemma DeleteAllStep(t: Table, rest: seq<Entry>, e: Entry)
    ensures t.DeleteAll(rest).Delete(e.key) == t.DeleteAll([e] + rest)
  {
    assert KeysOf([e] + rest) == KeysOf(rest) + {e.key};
    assert t.records - KeysOf(rest) - {e.key} == t.records - (KeysOf(rest) + {e.key});
    assert e in [e] + rest;
    assert forall x :: x in [e] + rest <==> x == e || x in rest;
    if exists x :: x in rest && x.key in t.records {
      var x :| x in rest && x.key in t.records;
      assert x in [e] + rest;
    }
    if e.key in t.records && e.key !in t.records - KeysOf(rest) {
      assert e.key in KeysOf(rest);
      var x :| x in rest && x.key == e.key;
      assert x.key in t.records;
    }
  }

  /** One round of the drain: the last entry left is taken, and its key deleted. */
  lemma DrainRound(t: Table, heap: seq<Entry>, n: nat, cutoff: int)
    requires 0 < n <= |heap| && heap[n - 1].time <= cutoff
    ensures Remaining(heap[..n], cutoff) == Remaining(heap[..n - 1], cutoff)
    ensures t.DeleteAll(heap[n..]).Delete(heap[n - 1].key) == t.DeleteAll(heap[n - 1..])
  {
    DrainStep(heap, n, cutoff);
    DeleteAllStep(t, heap[n..], heap[n - 1]);
  }
}
