/**
 What a client of the cluster may think of it as: one map. Keys live in zones, each with a
 clock that never goes backwards. A record leaves the map by a delete, or once a lifetime
 given to its key has run out on the clock of its zone.
 */
module SingleMap {
  import opened HeapOrder
  import opened Records
  import opened Requests

  type Zone = string

  /** The records, every expiry ever scheduled, and the time in each zone. */
  datatype Single = Single(records: map<Key, Record>, deadlines: set<Entry>, clocks: map<Zone, int>)

  /** What an operation reads on the clock of its zone: twice on the way, and once at its end. */
  datatype Readings = Readings(first: int, second: int, last: int)

  datatype Move =
    | Op(req: Request, readings: Readings)
    | Lose(zone: Zone, gone: set<Key>)
    | Pass(zone: Zone, to: int)
    | Stutter

  /** The readings of a request under a key are in order, and none is before the present. */
  predicate Timely(req: Request, r: Readings, now: int) {
    match req
    case ListKeys => false
    case Put(_, _, _) => now <= r.first <= r.second <= r.last
    case Remove(_) => true
    case _ => now <= r.first <= r.second
  }

  /** The time after a request that was served from this moment on. */
  function Until(req: Request, r: Readings, now: int): int {
    match req
    case ListKeys => now
    case Put(_, _, _) => r.last
    case Remove(_) => now
    case _ => r.second
  }

  /** A deadline of the key that the clock of its zone has reached. */
  ghost predicate Elapsed(zone: Key -> Zone, a: Single, key: Key) {
    zone(key) in a.clocks && exists e :: e in a.deadlines && e.key == key && e.time <= a.clocks[zone(key)]
  }

  ghost predicate Enabled(zone: Key -> Zone, a: Single, move: Move) {
    match move
    case Op(req, r) =>
      req.Hash() != "" && zone(req.key) in a.clocks && Timely(req, r, a.clocks[zone(req.key)])
    case Lose(at, gone) => forall k :: k in gone ==> zone(k) == at && Elapsed(zone, a, k)
    case Pass(at, to) => at in a.clocks && a.clocks[at] <= to
    case Stutter => true
  }

  function Answer(a: Single, req: Request, r: Readings): Response
    requires !req.ListKeys?
  {
    Reply(req, Lookup(a.records, req.key), r.first, r.second)
  }

  /** What a request makes of records and deadlines. */
  function Served(a: Single, req: Request, r: Readings): Single {
    match req
    case ListKeys => a
    case Put(key, data, ttl) =>
      var rec := Written(Lookup(a.records, key), data, ttl, r.first, r.second);
      a.(records := a.records[key := rec],
         deadlines := if ttl > 0 then a.deadlines + {rec.Deadline(key)} else a.deadlines)
    case Remove(key) => a.(records := a.records - {key})
    case _ =>
      if req.key in a.records && a.records[req.key].IsExpired(r.second)
      then a.(records := a.records - {req.key})
      else a
  }

  function Apply(zone: Key -> Zone, a: Single, move: Move): Single {
    match move
    case Op(req, r) =>
      if req.ListKeys? || zone(req.key) !in a.clocks then a
      else
        var at := zone(req.key);
        Served(a, req, r).(clocks := a.clocks[at := Until(req, r, a.clocks[at])])
    case Lose(_, gone) => a.(records := a.records - gone)
    case Pass(at, to) => a.(clocks := a.clocks[at := to])
    case Stutter => a
  }

  // ---------- what the map promises ----------

  /** Its answers are those a client may expect, and it is left as he may expect. */
  lemma {:induction false} AnswerIsPromised(a: Single, req: Request, r: Readings)
    requires !req.ListKeys?
    ensures Promised(a.records, req, r.first, r.second, Answer(a, req, r))
    ensures Leaves(a.records, req, Answer(a, req, r), Served(a, req, r).records)
  {
    ReplyIsPromised(a.records, req, r.first, r.second);
    VisibleIffReadable(a.records, req.key, r.first, r.second);
  }

  /** Every record with a lifetime has its expiry among the deadlines. */
  ghost predicate Covered(a: Single) {
    forall k :: k in a.records && !a.records[k].IsPermanent() ==> a.records[k].Deadline(k) in a.deadlines
  }

  lemma MoveKeepsCovered(zone: Key -> Zone, a: Single, move: Move)
    requires Covered(a)
    ensures Covered(Apply(zone, a, move))
  {
  }

  /** Time never goes backwards in any zone. */
  lemma ClocksNeverGoBack(zone: Key -> Zone, a: Single, move: Move, z: Zone)
    requires Enabled(zone, a, move) && z in a.clocks
    ensures z in Apply(zone, a, move).clocks && a.clocks[z] <= Apply(zone, a, move).clocks[z]
  {
  }

  /** A record leaves the map by a delete of its key, or when a deadline of its key has passed. */
  lemma {:induction false} LossNeedsElapsedLifetime(zone: Key -> Zone, a: Single, move: Move, key: Key)
    requires Covered(a) && Enabled(zone, a, move)
    requires key in a.records && key !in Apply(zone, a, move).records
    ensures (move.Op? && move.req == Remove(key)) || Elapsed(zone, Apply(zone, a, move), key)
  {
    if move.Op? && !move.req.Remove? {
      assert a.records[key].Deadline(key) in Apply(zone, a, move).deadlines;
    }
  }
}
