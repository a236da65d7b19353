/** The six requests, the key each one is routed by, and the answer each one gets. */
module Requests {
  import opened Wrappers
  import opened Records
  import opened Expiry

  /** The item a dictionary request asks for: a name, or a value no dictionary key can be compared with. */
  datatype Item = Named(name: string) | Unusable

  datatype Request =
    | ListKeys
    | Put(key: Key, data: Data, ttl: int)
    | Get(key: Key)
    | Remove(key: Key)
    | ListIndex(key: Key, position: nat)
    | DictItem(key: Key, item: Item)
  {
    /** The routing key; the empty one means: answer where you are. */
    function Hash(): Key {
      match this
      case ListKeys => ""
      case _ => key
    }
  }

  datatype Response =
    | Found(rec: Record)
    | KeyList(keys: seq<Key>)
    | Removed
    | Missing
    | Conflict
    | Internal

  /** The answer of a reading request to what was loaded under its key. */
  function Project(req: Request, loaded: Option<Record>): Response {
    match loaded
    case None => Missing
    case Some(rec) =>
      match req
      case ListIndex(_, position) =>
        if !rec.data.List? || |rec.data.items| <= position then Conflict
        else Found(rec.(data := rec.data.items[position]))
      case DictItem(_, item) =>
        if !rec.data.Dict? || item.Unusable? then Conflict
        else if item.name !in rec.data.fields then Internal
        else Found(rec.(data := rec.data.fields[item.name]))
      case _ => Found(rec)
  }

  /** The answer to a request under a key, from what is stored there and two clock readings. */
  function Reply(req: Request, stored: Option<Record>, first: int, second: int): Response
    requires !req.ListKeys?
  {
    match req
    case Put(_, data, ttl) => Found(Written(stored, data, ttl, first, second))
    case Remove(_) => Removed
    case _ => Project(req, Visible(stored, first, second))
  }

  /** What serving a request takes from its surroundings: clock readings in order, whether the
      running timer goes off meanwhile, and the order in which a stale key list is rebuilt. */
  datatype Moment = Moment(first: int, second: int, third: int, last: int, escaped: bool, order: seq<Key>)

  /** The critical section that serves a request. */
  function StepOf(req: Request, m: Moment): Step {
    match req
    case ListKeys => Keys(m.order)
    case Put(key, data, ttl) => Store(key, data, ttl, m.first, m.second, m.third, m.last, m.escaped)
    case Remove(key) => Delete(key)
    case _ => Load(req.key, m.first, m.second)
  }

  function Answer(s: State, req: Request, m: Moment): Response {
    if req.ListKeys? then KeyList(m.order) else Reply(req, s.Record(req.key), m.first, m.second)
  }

  // ---------- what a client may expect ----------

  /** A request for one key, which is routed to the server in charge of it. */
  predicate Keyed(req: Request) {
    !req.ListKeys? && req.key != ""
  }

  /** The routing key is the key of the request, and nothing for the key list. */
  lemma HashIsKey(req: Request)
    ensures Keyed(req) <==> req.Hash() != ""
    ensures Keyed(req) ==> req.Hash() == req.key
  {
  }

  /** What a readable record answers to a reading request. */
  predicate Tells(req: Request, rec: Record, accessed: int, resp: Response) {
    match req
    case Get(_) => resp == Found(CopyOf(rec, rec.data, accessed))
    case ListIndex(_, position) =>
      if rec.data.List? && position < |rec.data.items|
      then resp == Found(CopyOf(rec, rec.data.items[position], accessed))
      else resp == Conflict
    case DictItem(_, Named(name)) =>
      if rec.data.Dict? && name in rec.data.fields
      then resp == Found(CopyOf(rec, rec.data.fields[name], accessed))
      else resp == if rec.data.Dict? then Internal else Conflict
    case DictItem(_, Unusable) => resp == Conflict
    case _ => false
  }

  /** The record a write leaves: a new one, or the old one counted up, with the new data, lifetime and update time. */
  predicate Rewrites(records: map<Key, Record>, key: Key, data: Data, ttl: int, first: int, second: int, rec: Record) {
    if key in records
    then rec == Record(records[key].meta.(index := records[key].meta.index + 1, updated := second, expireTime := ttl),
                       data)
    else rec == Record(Meta(1, ttl, 0, first, second), data)
  }

  /** What is promised to a client, request by request, given the records there were. */
  ghost predicate Promised(records: map<Key, Record>, req: Request, first: int, second: int, resp: Response) {
    match req
    case ListKeys => resp.KeyList? && forall k :: k in resp.keys <==> k in records
    case Put(key, data, ttl) => resp.Found? && Rewrites(records, key, data, ttl, first, second, resp.rec)
    case Remove(_) => resp == Removed
    case _ =>
      if Readable(records, req.key, second) then Tells(req, records[req.key], first, resp) else resp == Missing
  }

  /** What the request leaves behind: a write its record, a delete and a failed read none, any other what was there. */
  ghost predicate Leaves(records: map<Key, Record>, req: Request, resp: Response, records': map<Key, Record>) {
    match req
    case ListKeys => records' == records
    case Put(key, _, _) => resp.Found? && records' == records[key := resp.rec]
    case Remove(key) => records' == records - {key}
    case _ => records' == if resp.Missing? then records - {req.key} else records
  }

  lemma {:induction false} ReplyIsPromised(records: map<Key, Record>, req: Request, first: int, second: int)
    requires !req.ListKeys?
    ensures Promised(records, req, first, second, Reply(req, Lookup(records, req.key), first, second))
  {
    VisibleIffReadable(records, req.key, first, second);
  }

  /** The store keeps the promise, and leaves behind what it should. */
  lemma {:induction false} AnswerIsPromised(s: State, req: Request, m: Moment)
    requires s.table.CacheAgrees() && (req.ListKeys? ==> s.table.MayList(m.order))
    ensures Promised(s.table.records, req, m.first, m.second, Answer(s, req, m))
    ensures Leaves(s.table.records, req, Answer(s, req, m), Apply(s, StepOf(req, m)).table.records)
  {
    if req.ListKeys? {
      ListingIsDomain(s.table, m.order);
    } else {
      ReplyIsPromised(s.table.records, req, m.first, m.second);
      AnswerLeaves(s, req, m);
    }
  }

  lemma FoundIsNotMissing(req: Request, rec: Record)
    requires !req.ListKeys? && !req.Put? && !req.Remove?
    ensures Project(req, Some(rec)) != Missing
  {
  }

  lemma ReadLeaves(s: State, req: Request, m: Moment)
    requires !req.ListKeys? && !req.Put? && !req.Remove?
    ensures Leaves(s.table.records, req, Answer(s, req, m), Apply(s, StepOf(req, m)).table.records)
  {
    LoadIsReadable(s, req.key, m.first, m.second);
    if Readable(s.table.records, req.key, m.second) {
      FoundIsNotMissing(req, s.Loaded(req.key, m.first, m.second).value);
    }
  }

  lemma {:induction false} AnswerLeaves(s: State, req: Request, m: Moment)
    requires !req.ListKeys?
    ensures Leaves(s.table.records, req, Answer(s, req, m), Apply(s, StepOf(req, m)).table.records)
  {
    match req
    case Put(_, _, _) =>
    case Remove(_) =>
    case _ => ReadLeaves(s, req, m);
  }

  /** A record found by a get, or answered to a put, has the data and the lifetime of the record now stored. */
  lemma AnswerIsStored(s: State, req: Request, m: Moment)
    requires (req.Get? || req.Put?) && Answer(s, req, m).Found?
    ensures var stored, rec := Apply(s, StepOf(req, m)).Record(req.key), Answer(s, req, m).rec;
            stored.Some? && stored.value.data == rec.data && stored.value.meta.expireTime == rec.meta.expireTime
  {
  }
}
