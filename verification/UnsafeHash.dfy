/** The hash table of the store: records, the cached key list, and the stale flag. */
module UnsafeHashes {
  import opened Wrappers
  import opened Records

  class UnsafeHash {
    var records: map<Key, Record>
    var keys: seq<Key>
    var dirty: bool

    constructor ()
      ensures Value() == Table(map[], [], false)
    {
      records, keys, dirty := map[], [], false;
    }

    function Value(): Table
      reads this
    {
      Table(records, keys, dirty)
    }

    /** Rebuilds the cached list when it is stale, in whatever order the records come. */
    method Keys() returns (order: seq<Key>)
      modifies this
      ensures old(Value()).MayList(order)
      ensures !old(dirty) ==> order == old(keys)
      ensures old(dirty) ==> Enumerates(order, old(records.Keys))
      ensures Value() == old(Value()).Listed(order)
    {
      if !dirty {
        return keys;
      }
      keys := [];
      var rest := records.Keys;
      while rest != {}
        invariant records == old(records) && dirty
        invariant rest <= records.Keys
        invariant Enumerates(keys, records.Keys - rest)
        decreases |rest|
      {
        var k :| k in rest;
        rest := rest - {k};
        keys := keys + [k];
      }
      dirty := false;
      return keys;
    }

    method Load(key: Key, accessed: int) returns (rec: Option<Record>)
      ensures rec == Value().Load(key, accessed)
    {
      if key !in records {
        return None;
      }
      var found := records[key];
      rec := Some(found.(meta := found.meta.(accessed := accessed)));
    }

    method Store(key: Key, data: Data, ttl: int, created: int, updated: int) returns (rec: Record)
      modifies this
      ensures Value() == old(Value()).Store(key, data, ttl, created, updated)
      ensures rec == records[key]
    {
      var meta := Meta(0, 0, 0, created, 0);
      if key in records {
        meta := records[key].meta;
      }
      if !dirty {
        keys := keys + [key];
      }
      rec := Record(meta.(index := meta.index + 1, updated := updated, expireTime := ttl), data);
      records := records[key := rec];
    }

    method Delete(key: Key)
      modifies this
      ensures Value() == old(Value()).Delete(key)
    {
      if key in records {
        dirty := true;
      }
      records := records - {key};
    }
  }
}
