# memhashd, modelled and proved in Dafny

memhashd is a sharded in-memory key-value store. This project models its two stateful
parts and proves what they keep over whole runs.

* **The expiring store** (`container/store` over `container/hash`): a hash table with a
  cached key list, a binary heap of expiry times and one restartable timer, under one mutex.
  `Expiry.dfy` is the state machine. One step is one critical section, one move of the clock,
  or the runtime starting the timer function. The expiry handler is two critical sections, so
  any steps may come between its drain and its re-arming, several handlers may overlap, and
  the timer may go off while a section that has already read the clock is still running.
  `TimeHeap.dfy`, `UnsafeHash.dfy`, `Timers.dfy` and `Store.dfy` are the objects, with their
  loops. Every store object carries a ghost history of its sections, and its state is where
  the state machine leads on that history, so the theorems about runs hold of every object.
* **The sharded cluster** (`server` over `container/ring`): each server sorts its own node
  list, fills its own ring, and serves a request or hands it on. `Ring.dfy` and `Server.dfy`
  are the objects; `Nodes.dfy` and `Routing.dfy` show that the separate decisions agree;
  `Cluster.dfy` is the machine of calls, peer locks, connection handlers and stores;
  `SingleMap.dfy` is what a client may take the cluster for: one map whose keys live in zones,
  each with a clock that never goes backwards; every operation respects the clock of its key's
  zone, and a record is lost only when that clock has reached a lifetime given to its key.
  `StartedCluster.dfy` states the cluster theorems for the servers as they are started.

## Results

* All parts of the store stay consistent in every interleaving (`Expiry.Reachable`): heap
  order, key cache, dates of records, a heap entry for every record with a lifetime, and the
  timer protocol.
* When nothing more is stored, from any consistent state with h handlers under way and n heap
  entries, the timer goes off at most hn + n + 1 times, with cutoffs that never decrease, and
  leaves no record with a lifetime (`Purge.QuiescentPurge`). No assumption is needed that
  handlers run uninterrupted. From every reachable state such a purge can be carried out
  (`Purge.PurgeExists`).
* Starting with no handler under way, that is at most n + 1 times, there is never more than one
  handler, and the cutoffs increase strictly (`Purge.OneHandlerAtATime`). In general they may
  repeat (`Losses.HandlersOverlap`). They increase strictly in every future without stores if
  and only if no handler that may re-arm the timer overlaps with the running timer or with
  another such handler (`Firings.CutoffsIncreaseIff`).
* A running timer never goes off later than the last slot is due, in every run, with stores and
  any number of handlers (`Purge.FireIsDue`).
* While its moment lies ahead, a running timer is never postponed: it runs for the earliest of
  all the moments it was asked for, and for no later than the deadline of any write made since
  (`Planning.NeverPostponed`, `Planning.WritesNeverPostpone`).
* What a load finds is told by the writes alone (`Loads.LoadFinds`): whether it succeeds, to the
  strict boundary of the lifetime, and every field of the record. A key goes missing only after
  some deadline given to it has passed (`History.LossNeedsElapsedDeadline`). The cached key list
  is the latest listing and then one entry for each write since, and is stale exactly if a
  record has left since (`Loads.CacheIsListingAndWrites`, `Loads.StaleIff`).
* That a live record is never lost early is **false**: entries of earlier writes stay in the
  heap (`Losses.PermanentRecordIsLost`, `Losses.LiveRecordIsLostEarly`). Exactly when it can
  happen, in any future of any reachable state, can be read off the present state:
  `Purge.PermanentLossIff` for a record without a lifetime, `EarlyLoss.EarlyLossIff` for one
  with a lifetime, and `EarlyLoss.QuietEarlyLossIff` for the futures in which nothing more is
  stored. `HeapMoves.dfy` has the combinatorics: which entries of the heap array can be made
  to sink to its end by pushing others.
* A cluster of started servers is one map, with no assumption on how they route: each sorted
  its own list and filled its own ring (`StartedCluster.StartedServersAreOneMap`). Every answer
  under a key is that map's answer at one moment of the call, and the one promised for the
  request, case by case (`StartedCluster.StartedServersAnswerAsMap`). A get finds data and
  lifetime of the put served latest before it, anywhere in the cluster, or misses for a reason
  (`StartedCluster.StartedServersAnswerLatestPut`). A record leaves the map only by a delete or
  after a lifetime of its key, by the clock of its owner (`StartedCluster.StartedServersLoseInTime`).
* A hash finds the element that the array of partitions has for it, and of one hash for each
  partition every node is chosen for its equal share (`Rings.OwnerIsInPartition`,
  `Nodes.ChoicesAreBalanced`). Node lists come out in the order of strings, character by
  character (`Nodes.LexLessIff`).
* A call is handed on at most once, makes at most six steps of its own, and crossing calls
  cannot block each other (`StartedCluster.StartedServersMakeProgress`,
  `Progress.NoCircularWait`). From every reachable state any request can be brought to its
  answer (`StartedCluster.StartedServersCanAnswer`), and the store of any server can be purged
  (`Progress.EveryStoreCanBePurged`).

## Where code and documentation differ

The model follows the code. Two documented promises are false of it, and the project proves
exactly when they hold:

* `Peek` of the heap is described as returning the top (container/store/time.go:46-47) but
  returns the last slot, and the drain removes with the raw `Pop`. So the drain takes a suffix
  of the array. It takes all that it is documented to take exactly if the root is later than
  the cutoff or no entry is (`HeapOrder.DrainMeetsDocumentationIff`); the documented drain is
  `TimeHeaps.TimeHeap.DocumentedDrain`.
* The planned total of 2^R - 1 seconds before a join gives up holds for retry limits up to 34;
  beyond that the doubled pause overflows 64 bits (`Backoff.TotalSleepIff`).

## Modelling notes

The losing futures that `EarlyLoss.EarlyLossIff` constructs are futures of the step model, in
which a write may take no time. The construction uses a number of writes exponential in the length of
the heap array (`HeapMoves.SinkToEnd`), so in the running program that half of the condition is
idealised: there is a losing run if the clock stands still for long enough. The other half, that
a record not exposed is not lost early, does not depend on this.

Where a comment and the code say different things about one function, the function is
modelled as coded and nothing more is proved about the comment:

* A delete answers the same whether the key was there or not, in `Stores.Store.Serve` as in
  container/store/request.go:204-207. The comment above it (lines 197-199) speaks of an error
  for a missing key, so comment and code agree just when the key is present.
* A load from the table never removes a record (`UnsafeHashes.UnsafeHash.Load`). The comment
  at container/hash/hash.go:132-133 gives it the removal of expired records, which is done by
  the store's load (`Stores.Store.Load`).
* Nodes are ordered by their printed addresses as strings, as server/server.go:52-55 compares
  them; the comment at lines 41-42 speaks of IP addresses. The routing
  theorems rest only on all servers sorting by the same order.

## Model

| member | source | states |
|---|---|---|
| HeapOrder.PushKeepsOrder | container/store/time.go:56-58 | a heap push adds exactly the pushed entry and keeps heap order |
| HeapOrder.PopTakesEarliest | container/store/time.go:61-66 | a heap pop takes the root, which is an earliest entry, loses nothing else and keeps heap order |
| HeapOrder.OnlyEarlierRise | container/store/time.go:61-66 | of the entries that a heap pop passes on the way down only strictly earlier ones rise |
| HeapOrder.EarlierChildRises | container/store/time.go:61-66 | the earlier child of a later entry rises, and of two equally early ones the left |
| HeapOrder.DrainTakesSuffix | container/store/store.go:141-157 | the drain splits the array into what stays and a suffix of entries at or before the cutoff, and what stays ends in a later entry |
| HeapOrder.DrainIsMaximal | container/store/store.go:141-157 | a slot is drained exactly if no slot from there to the end is later than the cutoff |
| HeapOrder.DrainKeepsOrder | container/store/store.go:141-157 | heap order survives removing entries from the end of the array |
| HeapOrder.LateRootStopsDrain | container/store/store.go:144-147 | with a root later than the cutoff the drain removes nothing |
| HeapOrder.DrainEmptiesIff | container/store/store.go:141-157 | the drain empties the heap exactly if no entry is later than the cutoff |
| HeapOrder.DrainMeetsDocumentationIff | container/store/store.go:133-160 | the drain leaves no entry at or before the cutoff, as documented, exactly if the root is later than the cutoff or no entry is |
| HeapOrder.DrainLeavesExpiredEntry | container/store/time.go:48-53 | a heap of two entries whose due root outlives the drain |
| TimeHeaps.TimeHeap.Peek | container/store/time.go:46-53 | nothing for an empty heap, else the last slot of the array |
| TimeHeaps.TimeHeap.Pop | container/store/time.go:61-66 | removes the last slot and returns it |
| TimeHeaps.TimeHeap.HeapPush | container/store/store.go:102 | the loop of sift-up computes the specified array and keeps heap order |
| TimeHeaps.TimeHeap.HeapPop | container/store/time_test.go:26-31 | the loop of sift-down computes the specified array, returns an earliest entry and keeps heap order |
| TimeHeaps.TimeHeap.DocumentedDrain | container/store/store.go:133-160 | the drain as documented: takes exactly the entries at or before the cutoff, earliest first |
| TimeHeaps.PushAllPopAll | container/store/time_test.go:10-32 | pushing any entries and popping until empty returns them all, in ascending order of time |
| Records.ExpiredIff | container/hash/hash.go:46-61 | a record is expired exactly if it has a positive lifetime and now is later than creation time plus lifetime |
| Records.ListingIsDomain | container/hash/hash.go:114-129 | a key list answered from an agreeing cache is the key set, without duplicates after a rebuild, and the cache agrees afterwards |
| UnsafeHashes.UnsafeHash.Keys | container/hash/hash.go:114-129 | answers the cache if it is clean, else rebuilds it with every key once, in any order |
| UnsafeHashes.UnsafeHash.Load | container/hash/hash.go:134-143 | returns the record with the access time stamped on the copy only |
| UnsafeHashes.UnsafeHash.Store | container/hash/hash.go:146-166 | keeps the creation time of an existing record, counts the write, and appends the key to a clean cache |
| UnsafeHashes.UnsafeHash.Delete | container/hash/hash.go:169-176 | removes the record and flags the cache only if there was one |
| Timers.RefreshTimer.AfterFunc | container/store/time.go:80-98 | an earlier request that is still ahead stands, any other is replaced |
| Planning.StorePlans | container/store/store.go:99-107 | a write with a lifetime leaves the timer planned for the deadline of its record, or for the earlier moment it was running for, if that is still ahead; one without a lifetime leaves it alone |
| Planning.RearmPlans | container/store/store.go:124-130 | re-arming does the same with the time in the last slot, and nothing for an empty heap |
| Planning.EscapedPlans | container/store/time.go:80-98 | if the timer goes off during a write, it is planned for the new deadline, unless it went off after the clock was read and the new deadline is later |
| Planning.NeverPostponed | container/store/time.go:80-98 | over every run, as long as its moment lies ahead, the timer keeps running, for the earliest of the moment it was running for and all it was asked for since |
| Planning.WritesNeverPostpone | container/store/time.go:80-98 | it is then never later than before, nor than the deadline of any write made since |
| Expiry.LoadIsReadable | container/store/store.go:68-85 | a load finds a copy of a record that is kept for ever or not past its lifetime, and takes any other out of the table |
| Expiry.Reachable | container/store/store.go:28-174 | in every reachable state: heap order, agreeing key cache, records dated created <= updated <= now, a heap entry for every record with a lifetime, and the timer protocol |
| Expiry.StoreKeepsHeap | container/store/store.go:93-102 | a write keeps heap order and leaves every record with a lifetime covered by a heap entry |
| Expiry.StoreKeepsGuarded | container/store/store.go:101-107 | after a write a pending timer or a handler under way still answers for the heap, and a pending timer goes off no later than the last slot is due, also when the timer goes off during the write and can no longer be stopped |
| Expiry.StoreKeepsAgreement | container/store/store.go:101-107 | a write keeps the pending time and the recorded cutoff in agreement, also then |
| Expiry.DrainKeepsInv | container/store/store.go:135-160 | the first critical section of the expiry handler keeps all of it |
| Expiry.RearmKeepsInv | container/store/store.go:114-131 | the second critical section keeps all of it, whatever happened since the first |
| History.LoadReturnsLatestWrite | container/store/store.go:68-85 | a load that succeeds returns data and lifetime of the latest write with no delete since, and the record is not expired |
| Loads.LoadFinds | container/store/store.go:68-85 | after any run, a load succeeds exactly if the key is in the table and its latest write has no lifetime or one, counted from the creating write, that is not past; the record found has data, lifetime and update time of the latest write, creation time of the creating one, the number of writes since, and the access time of the load |
| Loads.LoadLeaves | container/store/store.go:68-85 | after a failed load the key is gone, a successful one changes no record, and no load touches another key, the heap, the timer or the handlers |
| Loads.StaleIff | container/hash/hash.go:169-176 | the cached key list is stale exactly if a record has left the table since the latest listing |
| Loads.CacheIsListingAndWrites | container/hash/hash.go:114-166 | a list that is not stale is what the latest listing answered, followed by the keys of the writes since, in order, one for each |
| History.LossNeedsElapsedDeadline | container/store/store.go:65-167 | a written and not deleted key is missing only if some deadline scheduled for it has passed |
| History.PermanentKeyIsNeverLost | container/store/store.go:93-97 | a key only ever written without a lifetime is present exactly if it was written and not deleted since |
| History.BornWhenAbsent | container/hash/hash.go:147-151 | the write that created the present record found the key absent |
| History.PresentSinceBorn | container/hash/hash.go:169-176 | the key has been present after every step since then |
| History.MetadataDatesIncarnation | container/hash/hash.go:146-166 | the creation time is that of the creating write, and the index counts the writes since it |
| History.StoreIsSafeIff | container/store/store.go:99-102 | a write leaves its record safe from older entries exactly if none of them is due before it |
| History.ShorterOverwriteIsSafe | container/store/store.go:89-108 | a first write with no entry left over, or an overwrite with a positive lifetime no longer than before, is safe |
| History.NoEarlyLoss | container/store/store.go:112-160 | a safe record stays unchanged until it expires, through every run that neither writes nor deletes its key |
| Firings.RunLowers | container/store/store.go:112-160 | without stores, from any state, every time the timer goes off uses up one of the times that entries, handlers and running timer allow for |
| Firings.CutoffsKeepOrder | container/store/time.go:80-98 | without stores, from any consistent state, the cutoffs with which the timer goes off never decrease |
| Firings.CutoffsIncreaseIff | container/store/time.go:80-98 | they increase strictly in every future without stores exactly if no handler that may re-arm the timer overlaps with the running timer or another such handler |
| Purge.QuiescentPurge | container/store/store.go:112-160 | without further stores, with any number of handlers under way, the timer goes off at most once more than there are heap entries, plus once for each handler and entry, with cutoffs that never decrease; after that, or with no timer running, once the handlers are done the heap is empty and no record with a lifetime is left |
| Purge.OneHandlerAtATime | container/store/store.go:112-160 | starting with no handler under way, and without further stores, there is never more than one handler, no timer runs beside it, and the cutoffs increase strictly |
| Purge.FireIsDue | container/store/time.go:80-98 | in every run, a running timer goes off no later than the time in the last slot, hence no later than the largest expiry in the heap |
| Purge.PurgeExists | container/store/store.go:112-131 | from every reachable state the timer and its handlers alone can empty the heap and remove every record with a lifetime |
| Purge.EntriesLeaveWithRecords | container/store/store.go:155-156 | without stores the heap only shrinks from its end, and an entry leaves together with the record of its key |
| Purge.PermanentLossIff | container/store/store.go:93-97 | a record without a lifetime can be lost without a delete exactly if an entry for its key is left in the heap |
| HeapMoves.MovesLater | container/store/store.go:102 | a heap push moves no other entry towards the root |
| HeapMoves.EarlierStays | container/store/store.go:102 | a heap push moves no entry that is due no later than the pushed one |
| HeapMoves.PushedLast | container/store/store.go:102 | after a heap push the last slot is due no earlier than the pushed entry |
| HeapMoves.SinkToEnd | container/store/store.go:102 | heap pushes of an earlier entry, with fillers, can bring the entry of any slot to the end of the array |
| EarlyLoss.ShelterStep | container/store/store.go:65-167 | no step but a write or delete of its key takes a record before it expires, if every too early entry for it has one behind it that is due late enough and no write can schedule an entry before it; and that stays so |
| EarlyLoss.ExposedIsLost | container/store/store.go:89-160 | otherwise some future without a write or delete of the key loses the record in time |
| EarlyLoss.EarlyLossIff | container/store/store.go:89-160 | in every reachable state, some future without writes or deletes of the key loses its record before it expires exactly if an entry for the key is due too early and either only such entries are behind it or another key can be written to be due before it |
| EarlyLoss.QuietEarlyLossIff | container/store/store.go:135-160 | among futures in which nothing more is stored, exactly if from an entry for the key to the end of the array every time is before the record's expiry |
| Losses.PermanentRecordIsLost | container/store/store.go:95-97 | a run in which a value overwritten to be kept for ever is lost |
| Losses.LiveRecordIsLostEarly | container/store/store.go:144-156 | a run in which a record is lost long before its lifetime is over |
| Losses.HandlersOverlap | container/store/store.go:112-131 | a run after which the timer may go off twice with one cutoff although nothing more is stored |
| Stores.Store.Load | container/store/store.go:68-85 | is the load step; it finds a copy of the record exactly if that has no lifetime or is not past it, else the key is gone; what it returns is the latest write in the object's history |
| Stores.Store.Store | container/store/store.go:89-108 | is the store step, and returns the written record |
| Stores.Store.Delete | container/store/store.go:163-167 | is the delete step |
| Stores.Store.Keys | container/store/store.go:59-63 | is the listing step, and answers the key set |
| Stores.Store.DrainHeap | container/store/store.go:141-157 | the loop leaves the array without its longest expired suffix, and the table without exactly those entries' keys |
| Stores.Store.DeleteExpiredKeys | container/store/store.go:135-160 | is the drain step |
| Stores.Store.RearmTimer | container/store/store.go:114-131 | is the re-arming step |
| Stores.Store.DeleteAfter | container/store/store.go:112-131 | uninterrupted, the handler is the drain step followed by the re-arming step, and the history records both |
| Stores.Store.Process | container/store/request.go:115-365 | each of the six requests is one step of the store, recorded in its history |
| Stores.Store.Serve | container/store/request.go:115-365 | each request is answered and leaves the table as promised: a get with the stored data, an index with the item if the data is a list that long, a name with the field if the data is a dictionary that has it, each failure with its own error, a put with the record it stored, a delete with the key gone, a listing with exactly the keys; what a get finds or a put answers is the latest write in the history |
| Requests.AnswerIsPromised | container/store/request.go:115-365 | the answers of the state machine, and the table it is left with, are the promised ones |
| SingleMap.AnswerIsPromised | container/store/request.go:115-365 | so are those of the single map |
| Rings.Ring.Repartition | container/ring/ring.go:82-87 | deals the partitions out in turn |
| Rings.Ring.Insert | container/ring/ring.go:90-93 | appends the element and keeps the layout |
| Rings.Ring.Remove | container/ring/ring.go:96-106 | removes the first element with the value and keeps the layout |
| Rings.Ring.Find | container/ring/ring.go:109-113 | is always in range and finds the element whose index the array of partitions has at the hash modulo the ratio |
| Rings.OwnerIsInPartition | container/ring/ring.go:109-113 | the owner the routing theorems speak of is that element |
| Rings.OnePartitionOneOwner | container/ring/ring.go:109-113 | hashes of one partition find the same element, whatever the elements are |
| Rings.OwnersAreBalanced | container/ring/ring.go:82-113 | of one hash for each partition, every element is found for the quotient, the first few once more |
| Nodes.ChoicesAreBalanced | server/server.go:494-501 | so is every node of a list with distinct addresses |
| Rings.Balance | container/ring/ring.go:82-87 | each element gets the quotient of the partitions, the first few one more |
| Rings.SharesAreEqual | container/ring/ring.go:82-106 | the same of every ring object in use, whatever insertions and removals came before |
| Rings.InsertMoves | container/ring/ring.go:82-93 | an insertion into n elements leaves a partition its owner index exactly if its number modulo n(n+1) is below n |
| Rings.InsertRemoveRestoresIff | container/ring/ring.go:90-106 | inserting a value and removing it restores the elements exactly if no different element stands behind an equal one |
| Rings.RoundTrip | container/ring/ring.go:90-113 | with a new value every hash finds afterwards what it found before |
| Nodes.LexLessIff | server/server.go:52-56 | an address is less than another exactly if it is a proper prefix of it or has the smaller character where they first differ |
| Nodes.SortedListsAgree | server/server.go:52-61 | two strictly sorted lists of the same addresses are the same list |
| Nodes.SortedPermutationIsStarted | server/server.go:413-417 | sorting distinct neighbours and the server itself gives a list with each address once and only the own node local |
| Nodes.ServersAgreeOnOwner | server/server.go:494-501 | servers over the same addresses choose the same address for a hash |
| Nodes.OneHop | server/server.go:494-521 | only the server with the chosen address answers itself, and what is handed to it is not handed on again |
| Routing.StartedServersAgree | server/server.go:396-425 | the routing decisions of all started servers fit together into one table with one owner per key |
| Servers.Server.SortNodes | server/server.go:52-61 | sorting by comparison and swap leaves every address equal to or, character by character, after those before it, and loses no node |
| Servers.Server.JoinN | server/server.go:230-283 | dials every node of the list and puts each one that answers back with its connection; succeeds exactly if all answer |
| Servers.Server.Start | server/server.go:396-425 | without all connections nothing is set up; otherwise the list of connected neighbours and the server itself is sorted and the ring holds its positions in order |
| Servers.StartServer | server/server.go:193-206 | a new server over distinct neighbours starts exactly if all can be dialed; it then has the list the routing theorems speak of and, unless its partition count is a multiple of 2^32, is ready to serve |
| Servers.Server.Do | server/server.go:494-521 | looks the hash up in partitions, elements and node list; serves from the own store, as one recorded step with the promised answer, exactly when that node is the own one or the request has no key; else names the node and leaves the store alone |
| Clusters.StepKeepsInv | server/server.go:462-531 | every step keeps: stores consistent, keys only at their owner, every call handed on at most once and only to the owner, every lock and busy handler with its call, and a handed-on call with both |
| Refinement.ServeSimulated | server/server.go:501-518 | serving a keyed request at its owner is that request on the single map |
| Refinement.DrainSimulated | container/store/store.go:135-160 | a drain at any server is, for the single map, a loss of records of that zone whose deadlines its clock has reached |
| Refinement.ClusterRefinesSingleMap | server/server.go:494-531 | every behaviour of the cluster, with requests arriving anywhere, is step for step a behaviour of one map whose records are what the owners hold and whose clocks are theirs, if the servers' routing agrees |
| Refinement.AnswersAreTheMaps | server/server.go:462-489 | the answer of a keyed call is the single map's, and as promised, at one step after the call arrived, taken at the owner of its key, if the servers' routing agrees |
| Answers.MapHoldsLatestPut | server/server.go:494-531 | a record of the single map has data and lifetime of the latest put of its key served anywhere and not deleted since |
| Answers.PutsAreLostInTime | server/server.go:494-531 | such a put is missing from the map only after a lifetime of its key is over on the clock of its owner |
| Answers.GetsAreExplained | server/server.go:462-489 | every answered get found data and lifetime of the latest put served before it; or it missed, and there was none, or a lifetime of the key was over |
| Refinement.AnswerIsFinal | server/server.go:482-488 | an answered call keeps its answer and is not served again |
| Refinement.RecordsLeaveInTime | server/server.go:494-531 | if the servers' routing agrees, a step takes a record out of the map only by serving a delete of its key, or after a deadline of its key on the clock of its owner |
| Refinement.ListedKeysAreDisjoint | container/store/request.go:102-119 | the servers' own key lists share no key but the empty one |
| Refinement.ListedKeysAreTheMaps | container/store/request.go:102-119 | together they list exactly the keys of the single map, but for the empty one |
| SingleMap.ClocksNeverGoBack | container/store/store.go:65-167 | no move of the single map sets a zone's clock back |
| SingleMap.LossNeedsElapsedLifetime | container/store/store.go:65-167 | the single map loses a key only by a delete of it or once its zone's clock has reached a lifetime given to it |
| StartedCluster.ServersFormConfig | server/server.go:396-425 | started server objects over one set of addresses, with one ratio, are a configuration of the routing theorems |
| StartedCluster.DoFollowsNet | server/server.go:494-521 | the route each server's Do computes from its own list and ring is the one the cluster machine takes |
| StartedCluster.FreshServersAreInitial | server/server.go:193-206 | started servers with fresh stores and no calls are a start of the cluster machine |
| StartedCluster.StartedServersAreOneMap | server/server.go:494-531 | from started servers, with nothing assumed of their routing, every behaviour is step for step a behaviour of the single map, and the invariants hold |
| StartedCluster.StartedServersAnswerAsMap | server/server.go:462-489 | from started servers, every answer under a key is the single map's, and the one promised for the request, at one step after the call arrived, taken at the owner of the key |
| StartedCluster.StartedServersAnswerLatestPut | server/server.go:462-489 | from started servers, every answered get under a key found the latest put served before it, or missed because there was none, it was deleted, or a lifetime of the key was over |
| StartedCluster.StartedServersLoseInTime | server/server.go:494-531 | from started servers, a step takes a record out of the map only by serving a delete of its key, or after a deadline of its key on the clock of its owner |
| StartedCluster.StartedServersListOwn | container/store/request.go:102-119 | from started servers, a server's key list has a key other than the empty one exactly if the single map has it and the server owns it |
| StartedCluster.StartedServersListTheMap | container/store/request.go:102-119 | from started servers, their key lists together are exactly the keys of the single map, but for the empty one |
| StartedCluster.StartedServersCanAnswer | server/server.go:462-531 | from started servers, at any time any server can be asked anything, and the request can be brought to its answer |
| StartedCluster.StartedServersMakeProgress | server/server.go:359-387 | from started servers, a call makes at most six steps of its own, and while it is unfinished some call can move |
| Progress.NoCircularWait | server/server.go:462-464 | an unfinished call can move, or waits for a lock whose holder can move and does not wait |
| Progress.HandlersNeverWait | server/server.go:359-387 | whoever handles a request for a peer serves it himself and never waits for a lock |
| Progress.SixStepsPerCall | server/server.go:494-531 | however calls interleave, a call makes at most six steps of its own, each bringing it nearer its end |
| Progress.EveryRequestCanBeAnswered | server/server.go:462-531 | from every reachable state, a new request at any server can be brought to its answer by steps of its call and of the calls that hold a lock it waits for |
| Progress.EveryStoreCanBePurged | container/store/store.go:112-160 | from every reachable state, clock, timer and handlers of any one server can remove every record with a lifetime there and leave calls and other stores alone |
| Progress.StuckMeansFinished | server/server.go:359-387 | when no call can move, all are finished |
| Backoff.Join | server/server.go:290-320 | dials at most the limit and one more times, stops at the first success, and has slept as specified |
| Backoff.TotalSleepIff | server/server.go:308-315 | giving up takes exactly 2^R - 1 seconds of sleep if and only if the limit R is at most 34 |
| Backoff.PauseIsWrapped | server/server.go:313-314 | the pause after attempt j is what 64 bits hold of 2^j seconds |
| Backoff.FirstOverflowSleepsNot | server/server.go:308-314 | the first pause that overflows is negative, and nothing is slept for it |
| Backoff.NoDoublingOverflows | server/server.go:313-314 | with a limit of at most 32 no doubling of the pause overflows 64 bits |

## Left out

- Network I/O: TCP, TLS, listeners and dialing; a dial's outcome is an input. The goroutines of `joinN` write different list entries under a lock and are modelled one after another.
- After a failed join the code closes the connections made so far; the model does not.
- JSON encoding and request construction by reflection: requests and responses travel unchanged.
- Node failure, reconnection, and requests that arrive before a server has started.
- Requests with an empty key are served where they arrive; the single map leaves that key out.
- A ring whose partition count is a multiple of 2^32 (its 32-bit ratio is zero), and removing the last element of a ring: both divide by zero.
- UnsafeHashes.UnsafeHash.Keys: the returned list is a value, while the code returns the cache itself, so that a later rebuild overwrites a list already handed out.
- Null values: reading an index or an item of one fails outside the request's own error handling.
- Widths of times, durations and the record index: integers are unbounded, except for the join's pause.
- The hash of routing keys is a parameter; only that it is a function to 32 bits matters.
- Sort: the library's algorithm is replaced by an insertion sort; the result is unique for distinct addresses. Heap operations of the library are written out with their standard algorithms.
- The responding node's name in a response, status numbers, error texts, identifiers and logging.
- HTTP endpoints and the client.
