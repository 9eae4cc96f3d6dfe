# ktorrent: what its protocol code keeps

A model in Dafny of the parts of ktorrent whose correctness lies in how steps fit together, with proofs
about all their runs. Classes follow the objects of the program and are proved to take the steps of plain
specification functions; the lemmas about those functions are the results.

* **DHT** (`libktorrent/kademlia`). `Keys`: 160-bit order, XOR distance and bucket numbers. `KClosest`: the
  bounded search. `Rpc`: the allocator of 256 message ids with its queue. `Tasks`, `TaskClasses`: node lookups
  and announces. `DhtSystem`: server and tasks together, over runs of any events, with calls made from inside
  callbacks and timers that fire late. `Buckets`, `RoutingTable`, `NodeClasses`: the 160 buckets with ping before
  eviction. `PingSystem`: a bucket and the server together. `Database`: stored peers and write tokens.
* **Message stream encryption** (`libktorrent/mse`). `Rc4`, `DiffieHellman`, and the five-line handshake in
  `Handshake` (both state machines), `HandshakeClasses` (the two objects, with their buffers and RC4 tables) and
  `HandshakeProofs` (each side against any peer that keeps to the protocol, and the two against each other, flight by
  flight). `AcceptingRuns`, `ConnectingRuns`, `HandshakeRuns`: the same over a network that cuts what is sent into
  pieces as it likes. `AcceptingSafety`: what the accepting side can rely on against any peer.
* **Cache checker** (`apps/ktcachecheck`). `CacheChecker`: the file cursor against the chunk cursor, the
  classification of chunks and the repair of the index.
* **Byte streams** (`libktorrent/net`). `CircularBuffers`, `BufferedSockets`, and the sharing of bandwidth in
  `NetworkThreads`.

`Bytes` has the bit operations on bytes, `Contacts` the entries of the routing table.

What the program gets from outside is a parameter, so the results hold for every value of it: what a socket
takes or delivers at each call, random bytes and uninitialised memory, the clock, results of name lookups,
rounding of floating-point shares, and SHA-1, of which only `Database.AcceptedFromOwner` and
`Database.IssuedIsAccepted` assume that it does not collide on the inputs used.

## Where code and comments differ

The model follows the code.

* `RandomKeyInBucket(b)` makes a key for bucket 159 - b: one function counts bits from the top, the other from
  the bottom (`Keys.RandomKeyInBucket`).
* Nothing stops the timer of a call that has been answered. If it fires before the call is deleted, it tells the
  listener a second time and ends whichever call has the id by then, whose listener is not told. A task can so lose
  its last call and stall (`DhtSystem.LateTimerStallsTask`), and a bucket a ping (`PingSystem.StuckStays`);
  `DhtSystem.SysRunKeeps` and `PingSystem.PingRunKeeps` say exactly when not.
* An offer repeated to a full search map erases another contact (`KClosest.SearchRightExactly`), and the table can
  make such offers: buckets compare contacts with their address, so an id can be stored twice
  (`Buckets.InsertRepeatsId`, `RoutingTable.RepeatedIdSpoilsSearch`).
* A bucket can come to hold a contact twice, because candidates are not compared with the entries
  (`Buckets.ContactEntersTwice`); `Buckets.BucketStepDistinct` says exactly when. A waiting candidate can be left
  without a ping in flight for it (`Buckets.CandidateStranded`). A contact that had no place when it was seen can be
  listed later with the time of an older sighting (`Buckets.OldSightingIsBad`); one that had a place is renewed
  (`Buckets.SightingRenews`).
* Tokens are said to expire after a while; they do not (`Database.TokenStays`). `sample` is documented as random; it
  returns the oldest items (`Database.Database.Sample`).
* The comment on IA speaks of decrypting it; it is handed on encrypted, which is right only if RC4 was chosen
  (`HandshakeProofs.IaReadable`).
* The handshake does not survive every cut of the byte stream. The accepting side can take a short piece of a
  public value for an unencrypted handshake, and `processVC`, `handlePadC` and `handleIA` can return after decrypting without noting it,
  so that the next read decrypts the same bytes again; of the line 3 this client sends no piece may complete the
  first 54 bytes and end after 54 or 55, or complete the first 56 and end after 122 or 123
  (`AcceptingRuns.AcceptsExactly`). The connecting side wants all of the public
  value in its first read and decrypts pad D before all of it has come (`ConnectingRuns.ConnectsExactly`). It also
  follows a selection of plain text it did not offer (`HandshakeProofs.CryptoSelectDone`).
* The Diffie-Hellman values are written without padding on the left. A public value is understood only if it fills
  all 96 bytes (`DiffieHellman.ExportReadBack`); the secret, which is only hashed, need not, as long as both sides
  leave the same bytes behind it (`DiffieHellman.ExportAlike`).
* A partial send can discard the rest of the output buffer (`BufferedSockets.NeverLosesExactly`).
* `CircularBuffer::read` after `send` can leave the array (`CircularBuffers.ReadAfterSend`).
* `loadIndex` reads once more after the last header and lists what its buffer holds then
  (`CacheChecker.RepairedLoads`).
* `doGroupsLimited` returns a truth value as the number of sockets still ready, so later passes share the
  allowance as if one socket were ready; the results do not depend on the shares.

## Model

| member | source | states |
|---|---|---|
| `Keys.LessThan` | libktorrent/kademlia/key.cpp:61-71 | The bytewise scan decides exactly `<` on the two 160-bit big-endian numbers |
| `Keys.GreaterThan` | libktorrent/kademlia/key.cpp:78-88 | Likewise exactly `>` |
| `Keys.DistanceMetric` | libktorrent/kademlia/key.cpp:95-98 | XOR distance is symmetric, and 0 only between equal keys |
| `Keys.DistanceInjective` | libktorrent/kademlia/key.cpp:95-98 | Seen from one key, different ids are at different distances |
| `Keys.BucketMeaning` | libktorrent/kademlia/node.cpp:99-125 | Bucket i holds an id if and only if 2^i <= (id XOR ours) < 2^(i+1); 0xFF if and only if the id is our own |
| `Keys.FindBucket` | libktorrent/kademlia/node.cpp:99-125 | The two nested scans for the first bit that is on compute that bucket |
| `Keys.RandomKeyInBucket` | libktorrent/kademlia/node.cpp:180-209 | For every own id, fill and b < 160 the key made lies in bucket 159 - b, never in bucket b |
| `KClosest.KClosestNodesSearch.LastKey` | libktorrent/kademlia/kclosestnodessearch.cpp:56 | The entry compared with is the greatest distance in the map |
| `KClosest.KClosestNodesSearch.TryInsert` | libktorrent/kademlia/kclosestnodessearch.cpp:40-66 | One offer takes the map to the specified one: insert with room, otherwise insert a smaller distance and erase the old maximum |
| `KClosest.KClosestNodesSearch.OfferEntries` | libktorrent/kademlia/kbucket.cpp:252-260 | A bucket offers its entries in order |
| `KClosest.OfferKeepsClosest` | libktorrent/kademlia/kclosestnodessearch.cpp:40-66 | "The map holds the max closest distances offered so far" is kept by an offer if and only if it is not a repeated distance, other than the last, offered to a full map |
| `KClosest.SearchRightExactly` | libktorrent/kademlia/kclosestnodessearch.cpp:40-66 | For any sequence of offers, ids repeated or not, the map ends as exactly the k closest of all if and only if no offer repeats one of the k - 1 closest after all k were offered with the k-th not offered again; with fewer than k distances it always does |
| `KClosest.SearchStaysClosest` | libktorrent/kademlia/kclosestnodessearch.cpp:40-66 | And it is right after each single offer if and only if no offer repeats one of the max - 1 nearest distances when max distances have been offered |
| `KClosest.ClosestUnique` | libktorrent/kademlia/kclosestnodessearch.h:38-50 | The set of the k closest is unique, so the result is determined |
| `KClosest.SearchFindsClosest` | libktorrent/kademlia/kclosestnodessearch.cpp:40-66 | For any sequence of offers with distinct ids the map ends as exactly the k smallest XOR distances |
| `KClosest.SearchOrderIrrelevant` | libktorrent/kademlia/kclosestnodessearch.cpp:40-66 | Any reordering of the offers ends in the same map |
| `KClosest.SearchIsSound` | libktorrent/kademlia/kclosestnodessearch.cpp:40-66 | Repeats or not, the map never exceeds its limit and maps distances only to offered contacts at that distance |
| `KClosest.SearchKeepsAllButOne` | libktorrent/kademlia/kclosestnodessearch.cpp:40-66 | Repeats or not, the max - 1 closest contacts offered are never lost |
| `KClosest.SearchKeepsNearest` | libktorrent/kademlia/kclosestnodessearch.cpp:40-66 | Nor, with a limit of one, the nearest |
| `KClosest.RepeatLosesContact` | libktorrent/kademlia/kclosestnodessearch.cpp:57-63 | Witness of the excluded case: offering the nearer of two ids again, from whatever address, to a map of two erases the other contact |
| `Rpc.ScanIds` | libktorrent/kademlia/rpcserver.cpp:167-181 | The scan with Uint8 wrap-around ends; it reports "no slot" if and only if all 256 ids are in use and otherwise returns a free id |
| `Rpc.ScanFreeId` | libktorrent/kademlia/rpcserver.cpp:217-218 | The scan without that check ends because fewer than 256 calls are active, and finds a free id |
| `Rpc.ProbeIsFirst` | libktorrent/kademlia/rpcserver.cpp:167-181 | The id found is the first free one: every id between the next to try and it is in use |
| `Rpc.RpcServer.constructor` | libktorrent/kademlia/rpcserver.cpp:45-50 | A new server is the start state of the runs |
| `Rpc.RpcServer.DoCall` | libktorrent/kademlia/rpcserver.cpp:165-186 | `doCall` takes the history of the server through `Issue` |
| `Rpc.RpcServer.DoQueuedCalls` | libktorrent/kademlia/rpcserver.cpp:210-226 | The loop serves the queue from the front while ids are free |
| `Rpc.RpcServer.SendFirst` | libktorrent/kademlia/rpcserver.cpp:214-223 | Its body sends the oldest waiting call under a free id |
| `Rpc.RpcServer.OnResponse` | libktorrent/kademlia/rpcserver.cpp:137-145 | The response branch: listeners (and the calls they make) first, then the slot is freed, then the queue is served |
| `Rpc.RpcServer.OnTimeout` | libktorrent/kademlia/rpccall.cpp:53-57 | A time-out does the same through `timedOut`, also when the timer fires for a call that was answered: whichever call holds the id by then is ended |
| `Rpc.RpcServer.EndCall` | libktorrent/kademlia/rpcserver.cpp:197-208 | Free the slot if it is taken, then serve the queue |
| `Rpc.RpcServer.CallListeners` | libktorrent/kademlia/rpccall.cpp:59-62 | Whatever calls the listeners make, no active call loses its slot |
| `Rpc.StepKeeps` | libktorrent/kademlia/rpcserver.cpp:131-226 | Every event, with any nested calls, keeps: ids below 256 and equal to the message id, each active call with its own request, calls sent in the order asked for, nothing lost; and at rest a non-empty queue means 256 active calls |
| `Rpc.LateKeeps` | libktorrent/kademlia/rpcserver.cpp:197-208 | A late timer, whatever its listeners call and whichever call it then ends, keeps all of it |
| `Rpc.LateEnds` | libktorrent/kademlia/rpcserver.cpp:197-208 | It ends exactly the call that has its id once the listeners have made their calls, if there is one |
| `Rpc.RunKeeps` | libktorrent/kademlia/rpcserver.cpp:131-226 | So over every run from any initial id |
| `Rpc.IssueAllKeeps` | libktorrent/kademlia/rpcserver.cpp:165-186 | Calls issued from inside a callback keep all of it and leave active calls untouched |
| `Rpc.NoCallLost` | libktorrent/kademlia/rpcserver.cpp:131-226 | Each call ever asked for is in exactly one of: queued, active, answered, timed out; asked for = active + queued + answered + timed out |
| `Rpc.NewCallIsSentOrQueued` | libktorrent/kademlia/rpcserver.cpp:165-186 | A new call waits if and only if all 256 ids are in use; otherwise it is sent at once, so it overtakes nobody |
| `Rpc.EndServesOldest` | libktorrent/kademlia/rpcserver.cpp:210-226 | With a queue, each call that ends sends exactly one waiting call, the oldest, which is then active |
| `Rpc.ResponseEnds` | libktorrent/kademlia/rpcserver.cpp:137-145 | A response to an active call ends just this call, as answered: what the listeners ask for is asked for, the slot is free, the oldest waiting call is sent; a response to no active call changes nothing |
| `Rpc.TimeoutEnds` | libktorrent/kademlia/rpccall.cpp:53-57 | The time-out of an active call ends just this call, as timed out, and serves the queue; a late one ends the call that has its id once the listeners have made theirs, if there is one |
| `TaskClasses.NodeLookup.Start` | libktorrent/kademlia/task.cpp:42-50 | The object starts in the state of the specification |
| `TaskClasses.NodeLookup.StartQueued` | libktorrent/kademlia/task.cpp:52-59 | A queued task starts once |
| `TaskClasses.NodeLookup.Update` | libktorrent/kademlia/nodelookup.cpp:71-97 | The loop over the list sends to unvisited contacts while fewer than 16 requests are out, then decides about finishing |
| `TaskClasses.NodeLookup.CallFinished` | libktorrent/kademlia/nodelookup.cpp:42-64 | New contacts, except ourselves, join the list once |
| `TaskClasses.NodeLookup.OnResponse` | libktorrent/kademlia/task.cpp:62-74 | A response takes the object through the specified step |
| `TaskClasses.NodeLookup.OnTimeout` | libktorrent/kademlia/task.cpp:76-88 | So does a time-out |
| `TaskClasses.NodeLookup.OnResolverResult` | libktorrent/kademlia/task.cpp:124-130 | A resolved contact joins the list |
| `TaskClasses.AnnounceTask.Start` | libktorrent/kademlia/task.cpp:42-50 | The object starts in the state of the specification |
| `TaskClasses.AnnounceTask.StartQueued` | libktorrent/kademlia/task.cpp:52-59 | A queued task starts once |
| `TaskClasses.AnnounceTask.Update` | libktorrent/kademlia/announcetask.cpp:95-143 | Announces to those who answered, then get_peers to the list, then the finishing test |
| `TaskClasses.AnnounceTask.CallFinished` | libktorrent/kademlia/announcetask.cpp:40-88 | A get_peers response with nodes extends the list (below 100); one with peers hands its items on and adds its sender to those who answered |
| `TaskClasses.AnnounceTask.StoreItems` | libktorrent/kademlia/announcetask.cpp:66-73 | The items of a response are stored under the info hash one by one and join the list of results in order |
| `TaskClasses.AnnounceTask.TakeItem` | libktorrent/kademlia/announcetask.cpp:145-153 | Results are taken in the order they came, until none is left |
| `Database.StoredAllAt` | libktorrent/kademlia/announcetask.cpp:66-70 | Such storing appends exactly those items to the list of the info hash and leaves every other list alone |
| `TaskClasses.AnnounceTask.OnResponse` | libktorrent/kademlia/task.cpp:62-74 | A response takes the object through the specified step |
| `TaskClasses.AnnounceTask.OnTimeout` | libktorrent/kademlia/task.cpp:76-88 | So does a time-out |
| `Tasks.LookupStartKeeps` | libktorrent/kademlia/task.cpp:42-50 | A lookup starts with the invariant: nobody queried twice, at most 16 requests out, at least one while unfinished |
| `Tasks.LookupResponseKeeps` | libktorrent/kademlia/nodelookup.cpp:42-97 | Every response keeps it and ends exactly one request; the contacts known become exactly those known before and, of an unfinished lookup, those named other than ourselves, a find_node response is counted, and afterwards nobody is left to ask or 16 requests are out; a finished lookup with at most 50 answers has queried everyone it ever knew |
| `Tasks.LookupTimeoutKeeps` | libktorrent/kademlia/nodelookup.cpp:66-97 | So does every time-out, which teaches nothing |
| `Tasks.LookupEnds` | libktorrent/kademlia/nodelookup.cpp:71-97 | Among N contacts a lookup is over once N of its requests have ended |
| `Tasks.LearnForgetsNobody` | libktorrent/kademlia/nodelookup.cpp:54-61 | Everyone named in a response is on the list or already visited, unless the list is limited and has come to its limit |
| `Tasks.LearnAppends` | libktorrent/kademlia/nodelookup.cpp:54-61 | They join the list at its end, nobody twice, none of them visited before or to be avoided |
| `Tasks.AdvanceInOrder` | libktorrent/kademlia/nodelookup.cpp:74-87 | The list is worked off from its front: what left it has been asked, and nobody else |
| `Tasks.AnnounceStartKeeps` | libktorrent/kademlia/task.cpp:42-50 | An announce task starts with its invariant |
| `Tasks.AnnounceUpdateKeeps` | libktorrent/kademlia/announcetask.cpp:95-143 | One update makes at most one announce and leaves nobody waiting for one |
| `Tasks.AnnounceResponseKeeps` | libktorrent/kademlia/announcetask.cpp:40-143 | Every response keeps: at most 8 announces, all to different nodes, fewer while unfinished, no stall, nobody queried twice; and it announces to exactly the sender of peers who was not announced to before, hands on exactly the items, and learns everyone named while the list is below 100 |
| `Tasks.AnnounceTimeoutKeeps` | libktorrent/kademlia/announcetask.cpp:90-143 | So does every time-out |
| `Tasks.AnnounceEnds` | libktorrent/kademlia/announcetask.cpp:95-143 | Among N contacts an announce is over once N + 8 of its requests have ended, at most 8 of them announces |
| `DhtSystem.NewRequestsCount` | libktorrent/kademlia/task.cpp:90-99 | The calls a step of a task makes to the server are as many as its count of requests made grows by, and all report back to that task |
| `DhtSystem.NewTaskStarts` | libktorrent/kademlia/task.cpp:42-50 | A new task knows exactly the contacts it is given and, unless it has to wait, has asked all of them or 16 |
| `DhtSystem.WaitingTaskStarts` | libktorrent/kademlia/task.cpp:52-59 | A waiting task starts once, with what it knows; a started one is left alone |
| `DhtSystem.ResolvedJoins` | libktorrent/kademlia/task.cpp:124-130 | A resolved contact joins the list of its task and no other |
| `DhtSystem.AnswerIsHeard` | libktorrent/kademlia/rpccall.cpp:59-62 | An answer to an active call ends that call as answered and reaches the task that listens, and no other, as an answer: every contact it names, but ourselves, is known to an unfinished lookup; the sender of peers is announced to or was before; contacts join an announce below its limit |
| `DhtSystem.ExpiryIsHeard` | libktorrent/kademlia/rpccall.cpp:53-57 | A time-out ends its call as timed out and ends one request of the task that listens, teaching it nothing and announcing to nobody |
| `DhtSystem.SysStepCounts` | libktorrent/kademlia/rpcserver.cpp:131-226 | Server and tasks together: every event, late timers included, keeps the invariants of the server and of each task, keeps the requests of a task those it should make (a lookup one find_node to each contact it visited, in order, and nothing else; an announce get_peers to whom it visited and announce_peer to whom it announced), and moves what a task waits for against its calls the server holds by one up for a call of it ended untold, one down for a call it counts in vain, and by nothing else |
| `DhtSystem.SysStepKeeps` | libktorrent/kademlia/rpccall.cpp:53-62 | "Each task waits for exactly its calls the server holds" is kept by an event if and only if the task told, if it waits for any, is the task whose call ends, or there is neither |
| `DhtSystem.InTimeIsHarmless` | libktorrent/kademlia/task.cpp:62-99 | That is so of every event but a late timer |
| `DhtSystem.SysRunDrifts` | libktorrent/kademlia/rpcserver.cpp:131-226 | So over every run whatever, what a task waits for is its calls the server holds plus what the run ended untold, less what it told in vain |
| `DhtSystem.SysRunKeeps` | libktorrent/kademlia/rpccall.cpp:53-62 | Over every run each task always waits for exactly its calls the server holds if and only if no late timer ended a call of a task other than the one it told |
| `DhtSystem.NoTaskStalls` | libktorrent/kademlia/task.cpp:62-99 | After every run an unfinished started task has a call in the server, active or queued behind 256 active ones, if and only if the run drifted by less than the 1 to 16 requests it waits for; so it has unless a late timer did harm |
| `DhtSystem.LateTimerStallsTask` | libktorrent/kademlia/rpccall.cpp:53-62 | Witness, from a new system: 256 pings, a lookup that has to queue, the answer to the first ping and then the timer of that ping leave the lookup without a call for good, whatever follows |
| `DhtSystem.StallsForGood` | libktorrent/kademlia/task.cpp:42-99 | A started task without a call never finishes and never has one again, over any run in which no late timer tells it |
| `DhtSystem.QuietMeansFinished` | libktorrent/kademlia/task.cpp:101-105 | After every run that leaves no active call, a task waits for just what the run drifted by: each started task has finished unless a late timer did harm |
| `DhtSystem.FinishedHasAskedAll` | libktorrent/kademlia/nodelookup.cpp:71-97 | After every run a task has asked, by the requests in the server, exactly whom it visited, each once; and a finished lookup with at most 50 answers, or a finished announce with fewer than 8 announces, has asked everyone it ever knew |
| `DhtSystem.TaskEnds` | libktorrent/kademlia/task.cpp:62-99 | Among N contacts a task makes at most N (lookup) or N + 8 (announce) calls and is over when that many ended and were told |
| `DhtSystem.ClosedRun` | libktorrent/kademlia/task.cpp:62-99 | In a run of responses, time-outs and late timers, each timer late once, each response and time-out ends a call and no foreign call appears |
| `DhtSystem.ClosedRunIsShort` | libktorrent/kademlia/task.cpp:62-99 | Such a run of T tasks among N contacts has at most T * (N + 8) responses and time-outs, plus one for each call made for others, and no more late timers than that |
| `DhtSystem.ClosedRunEndsFinished` | libktorrent/kademlia/task.cpp:62-99 | After such a run that leaves no call to end each started task has finished unless a late timer did harm; what is left waiting is exactly the drift |
| `Buckets.BucketStepOk` | libktorrent/kademlia/kbucket.cpp:120-245 | Every event keeps: at most 8 entries, at most 2 pings in flight, every contact and candidate in its bucket; the bucket never shrinks, no contact appears from nowhere, and an entry goes only if it is bad or a ping to its address just timed out |
| `Buckets.BucketStepDistinct` | libktorrent/kademlia/kbucket.cpp:120-276 | For contacts and for ids, every event on distinct entries leaves them distinct if and only if the newcomer equals no entry but the ones that go: nothing to ask for a known contact, a lost request or a ping not out; both replacements of a time-out counted together |
| `Buckets.SwapExact` | libktorrent/kademlia/kbucket.cpp:229-245 | A replacement, nothing assumed: distinct after it if and only if those that stay are and the newcomer is not among them |
| `Buckets.SightingRenews` | libktorrent/kademlia/kbucket.cpp:120-146 | A message leaves its sender with an entry of its own time, the last of the bucket and with no failures, if and only if there is a place: it is listed, there is room, or an entry is bad; otherwise it is not listed at all |
| `Buckets.FreshStays` | libktorrent/kademlia/kbucket.cpp:120-276 | A contact with a place keeps it, with an entry from its last message on, for a quarter of an hour through every event but the time-out of a ping to its address |
| `Buckets.PingDecides` | libktorrent/kademlia/kbucket.cpp:148-196 | An answered ping costs no entry that is not bad; a silent one costs the first entry at the address, whose place at the end goes to the candidate |
| `Buckets.CandidatesInTurn` | libktorrent/kademlia/kbucket.cpp:148-227 | Over every event candidates wait in the order they came, pings still out keep theirs, and who leaves the queue gets a place or a ping, or nobody could be pinged |
| `Buckets.OldSightingIsBad` | libktorrent/kademlia/kbucket.cpp:148-227 | Witness: a contact without a place, seen at t1 and again at t2, is listed later with the time t1 and is bad a quarter of an hour after t1 |
| `Buckets.InsertKeepsContacts` | libktorrent/kademlia/kbucket.cpp:120-146 | `insert` never makes a contact appear twice |
| `Buckets.InsertRepeatsId` | libktorrent/kademlia/kbucket.cpp:120-146 | But an id: the same id from another address is put beside the first |
| `Buckets.BucketStepWaits` | libktorrent/kademlia/kbucket.cpp:148-227 | "A candidate waits only while two pings are in flight" is kept by an event if and only if it is not the end of a ping with somebody else left waiting and no entry pinged at once |
| `Buckets.CandidateStranded` | libktorrent/kademlia/kbucket.cpp:148-163 | Witness: an answered ping whose candidate replaces a bad entry leaves the others waiting with a ping to spare |
| `Buckets.CandidateIsStranded` | libktorrent/kademlia/kbucket.cpp:120-276 | It comes about: three sightings of a contact in such a full silent bucket, three lost requests to its second entry, and the answer to the first ping |
| `Buckets.ContactEntersTwice` | libktorrent/kademlia/kbucket.cpp:167-227 | Witness: three sightings of a contact and two silent entries put it into the bucket twice |
| `Buckets.StaleIsReachable` | libktorrent/kademlia/kbucket.cpp:120-146 | The bucket that needs comes about: eight sightings and more than a quarter of an hour of silence |
| `NodeClasses.KBucket.Scan` | libktorrent/kademlia/kbucket.cpp:120-276 | The search loops find the first entry with the property |
| `NodeClasses.KBucket.Insert` | libktorrent/kademlia/kbucket.cpp:120-146 | `insert` takes the bucket to the specified one |
| `NodeClasses.KBucket.ReplaceBadEntry` | libktorrent/kademlia/kbucket.cpp:229-245 | The first bad entry, if any, gives way and the newcomer goes to the end |
| `NodeClasses.KBucket.PingQuestionable` | libktorrent/kademlia/kbucket.cpp:198-227 | The first questionable entry is pinged, or the candidate waits when two pings are out |
| `NodeClasses.KBucket.OnResponse` | libktorrent/kademlia/kbucket.cpp:148-163 | A ping answered: the candidate tries the next entry |
| `NodeClasses.KBucket.OnTimeout` | libktorrent/kademlia/kbucket.cpp:167-196 | A ping timed out: the entry gives way, and a waiting candidate has its turn |
| `NodeClasses.KBucket.OnRequestTimeout` | libktorrent/kademlia/kbucket.cpp:262-276 | A lost request is counted against the first entry at that address |
| `NodeClasses.Node.Receive` | libktorrent/kademlia/node.cpp:127-154 | `recieved` takes the whole table to the specified one, making the bucket when needed, and says whether the lookup of our own id starts |
| `NodeClasses.Node.CountEntries` | libktorrent/kademlia/node.cpp:150-153 | The loop recounts the entries of all buckets |
| `NodeClasses.Node.OnTimeout` | libktorrent/kademlia/node.cpp:168-177 | The first bucket that knows the address takes note, and no other |
| `NodeClasses.Node.FindKClosestNodes` | libktorrent/kademlia/node.cpp:156-166 | The search is offered all entries of all buckets |
| `RoutingTable.TableStepKeeps` | libktorrent/kademlia/node.cpp:127-177 | Every event keeps the invariant of the table and evicts only as the buckets allow |
| `RoutingTable.TableRunKeeps` | libktorrent/kademlia/node.cpp:127-177 | Over every run each entry and candidate of bucket i has `findBucket` = i, bucket and ping limits hold, and the entry count is the sum of the bucket sizes |
| `RoutingTable.FiledOnce` | libktorrent/kademlia/node.cpp:127-154 | Our own id is never stored, and contacts in different buckets have different ids |
| `RoutingTable.OneOwnLookup` | libktorrent/kademlia/node.cpp:143-148 | Over every run the lookup of our own id starts exactly once, when the third message is filed |
| `RoutingTable.MessageIsFiled` | libktorrent/kademlia/node.cpp:127-154 | A message is counted and files its sender, with its time, in the bucket of its id if and only if there is a place; no other bucket is touched |
| `RoutingTable.ListedStaysGood` | libktorrent/kademlia/node.cpp:127-177 | Over every run with a clock that does not go back, a contact listed with its message stays listed with a good entry, found by a search of the table, for a quarter of an hour from that message, unless a ping to its address times out |
| `RoutingTable.LostIsCounted` | libktorrent/kademlia/node.cpp:168-177 | A lost request is counted once, at the first entry with the address in the first bucket that has one, and nothing else changes |
| `RoutingTable.TableSearchExact` | libktorrent/kademlia/node.cpp:156-166 | For every table the search returns the true k closest of its entries if and only if no entry spoils it (`KClosest.SearchRightExactly`) |
| `RoutingTable.TableStepIds` | libktorrent/kademlia/node.cpp:127-177 | Every event on a table in which no bucket holds an id twice leaves it so if and only if `BucketStepDistinct` says so of the bucket concerned |
| `RoutingTable.RunSearchFindsClosest` | libktorrent/kademlia/node.cpp:156-166 | So after every run; and no entry spoils a search when each event of the run kept the ids distinct |
| `RoutingTable.RepeatedIdSpoilsSearch` | libktorrent/kademlia/node.cpp:127-166 | Witness: after three messages, the third repeating the id of the first from another address, a search for two loses a contact |
| `PingSystem.PingStepKeeps` | libktorrent/kademlia/kbucket.cpp:120-227 | Bucket and server together: "each ping a bucket waits for is active or queued in the server" is kept by an event if and only if it is not a late timer whose id such a ping has taken |
| `PingSystem.ReplyIsHeard` | libktorrent/kademlia/kbucket.cpp:148-163 | The answer to a ping ends its call as answered and keeps every entry that is not bad, the pinged one included; the answer to another call leaves the bucket alone |
| `PingSystem.ExpiryIsHeard` | libktorrent/kademlia/kbucket.cpp:167-196 | Its time-out ends the call as timed out and the first entry at the address gives way to the candidate |
| `PingSystem.PingRunKeeps` | libktorrent/kademlia/rpcserver.cpp:131-226 | So over every run, and each such ping is a call to the address the bucket noted |
| `PingSystem.EveryPingEnds` | libktorrent/kademlia/kbucket.cpp:148-196 | Then every ping out is answered or times out: it is active or behind 256 active calls, and with no active call left no candidate waits for one |
| `PingSystem.StuckStays` | libktorrent/kademlia/kbucket.cpp:148-196 | A ping ended untold stays out, with its candidate and its place among the two, through every event but its own late timer |
| `Rc4.ExchangePermutes` | libktorrent/mse/rc4encryptor.cpp:24-29 | Exchanging two bytes keeps a permutation of 0..255 |
| `Rc4.SchedulePermutes` | libktorrent/mse/rc4encryptor.cpp:33-47 | After every round of key set-up the table is a permutation of 0..255 |
| `Rc4.StreamPermutes` | libktorrent/mse/rc4encryptor.cpp:53-68 | So it is after any number of bytes |
| `Rc4.RoundsGiveKey` | libktorrent/mse/rc4encryptor.cpp:38-44 | The index after each round gives the key away: two keys of one length with the same indices are the same |
| `Rc4.KeyRepeats` | libktorrent/mse/rc4encryptor.cpp:38-44 | A key and the same key written twice have the same schedule |
| `Rc4.UntouchedStays` | libktorrent/mse/rc4encryptor.cpp:33-44 | A place no round has come to and no index has hit still holds its own number |
| `Rc4.SecondByte` | libktorrent/mse/rc4encryptor.cpp:61-68 | The bias of Mantin and Shamir: a table with 0 at place 2 and anything but 2 at place 1 yields 0 as its second byte |
| `Rc4.FreshSkips` | libktorrent/mse/rc4encryptor.cpp:71-77 | An encryptor begins behind the first 1024 bytes of its key's stream |
| `Rc4.RC4.constructor` | libktorrent/mse/rc4encryptor.cpp:33-47 | The object holds the keyed state |
| `Rc4.RC4.ProcessByte` | libktorrent/mse/rc4encryptor.cpp:61-68 | One byte: next state, and XOR with the key byte |
| `Rc4.RC4.Process` | libktorrent/mse/rc4encryptor.cpp:53-59 | A buffer, also in place: the state moves by its length whatever it held |
| `Rc4.RC4Encryptor.constructor` | libktorrent/mse/rc4encryptor.cpp:71-77 | Both streams are keyed and 1024 bytes are discarded, whatever the uninitialised buffer held |
| `Rc4.RC4Encryptor.Decrypt` | libktorrent/mse/rc4encryptor.cpp:84-87 | Decrypts in place and moves only its own stream |
| `Rc4.RC4Encryptor.Encrypt` | libktorrent/mse/rc4encryptor.cpp:89-93 | Encrypts into another buffer and moves only its own stream |
| `Rc4.CryptTwice` | libktorrent/mse/rc4encryptor.cpp:53-68 | The same stream applied twice gives the data back |
| `Rc4.CryptConcat` | libktorrent/mse/rc4encryptor.cpp:53-59 | A stream may be cut anywhere |
| `Rc4.StreamRecovered` | libktorrent/mse/rc4encryptor.cpp:53-98 | Whatever the chunks of sender and receiver, the receiver recovers the bytes sent |
| `DiffieHellman.SecretsAgree` | libktorrent/mse/functions.cpp:39-49 | For any base, exponents and modulus both peers compute the same secret, the base to the product of the exponents |
| `DiffieHellman.KeysDiffer` | libktorrent/mse/functions.cpp:51-59 | Two derived keys are the same whatever the hash if and only if they are for one direction, one secret and one torrent |
| `DiffieHellman.ExportReadBack` | libktorrent/mse/bigint.cpp:86-98 | A number written without left padding is read back unchanged if and only if it fills all 96 bytes (or is 0 over a buffer of zeros) |
| `DiffieHellman.ExportAlike` | libktorrent/mse/bigint.cpp:86-91 | Two sides write a number alike if and only if what it leaves of their buffers is alike |
| `DiffieHellman.ExportFull` | libktorrent/mse/bigint.cpp:86-91 | A number that fills them is written the same over any buffer |
| `DiffieHellman.FullMeansBig` | libktorrent/mse/bigint.cpp:86-91 | It fills them if and only if 2^760 <= v < 2^768 |
| `DiffieHellman.BothPeersAgree` | libktorrent/mse/functions.cpp:39-59 | With full public values both sides compute the same secret, and hash the same bytes for it if and only if their buffers agree behind it |
| `DiffieHellman.SmallExponentMisread` | libktorrent/mse/functions.cpp:39-44 | Witness: every private exponent below 760 gives a public value the peer cannot read |
| `HandshakeClasses.Rc4IsKeystream` | libktorrent/mse/rc4encryptor.cpp:53-98 | An RC4 table that has yielded n bytes crypts like the stream at position n |
| `HandshakeClasses.DecryptIn` | libktorrent/mse/encryptedserverauthenticate.cpp:148-150 | Decrypting part of the fixed-size buffer in place with the two permutation tables is the specified change of its filled part, and moves that stream by its length |
| `HandshakeClasses.EncryptOut` | libktorrent/mse/encryptedserverauthenticate.cpp:174-188 | Encrypting with them yields the bytes of the stream and leaves the other direction alone |
| `HandshakeClasses.ReadInto` | libktorrent/mse/encryptedserverauthenticate.cpp:273-343 | What is read lands behind the filled part of the array, never past its end or the limit |
| `HandshakeClasses.FindPattern` | libktorrent/mse/encryptedserverauthenticate.cpp:86-95 | The search loops over the array find the first occurrence |
| `HandshakeClasses.ReadOpening` | libktorrent/mse/encryptedserverauthenticate.cpp:152-176 | The loops over VC and the big-endian reads give the three fields of the opening |
| `HandshakeClasses.EncryptedServerAuthenticate.OnReadyRead` | libktorrent/mse/encryptedserverauthenticate.cpp:261-350 | The accepting object, with its array and RC4 tables, refines the state machine: every read takes what they amount to through the machine's step |
| `HandshakeClasses.EncryptedServerAuthenticate.DoFindReq1` | libktorrent/mse/encryptedserverauthenticate.cpp:76-102 | Search for HASH(req1, S), failing after 608 bytes |
| `HandshakeClasses.EncryptedServerAuthenticate.DoHandOver` | libktorrent/mse/encryptedserverauthenticate.cpp:228-254 | The encryptor given to the socket is the very object that read the handshake, standing where the machine says |
| `HandshakeClasses.EncryptedAuthenticate.OnReadyRead` | libktorrent/mse/encryptedauthenticate.cpp:245-297 | The connecting object refines its state machine in the same way |
| `HandshakeClasses.EncryptedAuthenticate.DoFindVC` | libktorrent/mse/encryptedauthenticate.cpp:146-170 | Search for the encrypted VC with an encryptor made for it, failing from 616 bytes on |
| `HandshakeProofs.FirstTwoFlights` | libktorrent/mse/encryptedauthenticate.cpp:66-144 | After the public values have crossed, whatever the padding, both ends hold the same secret, the connecting side has sent line 3, and neither has moved further |
| `HandshakeProofs.FirstFlight` | libktorrent/mse/encryptedserverauthenticate.cpp:62-102 | The accepting side answers the public value with its own and the secret is that of both, for any padding up to 511 bytes |
| `HandshakeProofs.SKeyStep` | libktorrent/mse/encryptedserverauthenticate.cpp:104-128 | The masked hash behind HASH(req1, S) is unmasked to HASH(req2, SKEY), so the torrent it was made for is found |
| `HandshakeProofs.ProcessVCDone` | libktorrent/mse/encryptedserverauthenticate.cpp:130-259 | From the encrypted head of line 3 on, for every offer, pad C and IA: the choice sent, the socket's ciphers and what is handed on |
| `HandshakeProofs.SecondFlight` | libktorrent/mse/encryptedauthenticate.cpp:85-144 | The connecting side sends line 3 with the offer in RC4 and keeps its padding apart from VC |
| `HandshakeProofs.CryptoSelectDone` | libktorrent/mse/encryptedauthenticate.cpp:172-243 | From the encrypted head of line 4 on, for every selection and pad D: the cipher selected, behind pad D, or failure |
| `HandshakeProofs.PeersShareSecret` | libktorrent/mse/functions.cpp:39-59 | Each side computes the shared secret from what it received |
| `HandshakeProofs.ThirdLine` | libktorrent/mse/encryptedserverauthenticate.cpp:76-259 | For every padding, pad C up to 512 bytes and IA up to 68: the accepting side leaves the handshake with RC4 if offered, its streams 14 bytes on and behind pad C, and IA handed on still encrypted |
| `HandshakeProofs.IaReadable` | libktorrent/mse/encryptedserverauthenticate.cpp:228-254 | IA can be read afterwards if and only if RC4 was offered (or the stream leaves it unchanged): choosing plain text drops the cipher IA was encrypted with |
| `HandshakeProofs.FourthLine` | libktorrent/mse/encryptedauthenticate.cpp:146-243 | For every padding and pad D up to 512 bytes: the connecting side leaves with the selected cipher, its stream behind pad D, the payload handed on still encrypted |
| `HandshakeProofs.ThirdFlight` | libktorrent/mse/encryptedserverauthenticate.cpp:62-259 | Against the connecting side of this client the accepting side chooses RC4 and has the hello to hand on |
| `HandshakeProofs.FourthFlight` | libktorrent/mse/encryptedauthenticate.cpp:85-243 | Against that accepting side the connecting side follows |
| `HandshakeProofs.HandshakeAligned` | libktorrent/mse/encryptedauthenticate.cpp:75-81 | The two objects talking to each other leave the handshake without failure, each direction at the same stream position at both ends once re-inserted bytes are counted, and the re-inserted bytes decrypt to what was sent |
| `HandshakeProofs.MeetingsExist` | libktorrent/mse/encryptedauthenticate.cpp:66-81 | Such meetings exist for every hash, cipher, torrent, hello and payload |
| `AcceptingRuns.AcceptsExactly` | libktorrent/mse/encryptedserverauthenticate.cpp:62-350 | For every padding, pad C, IA and offer of RC4, and whatever pieces the network makes of the peer's bytes, the accepting side ends as the protocol wants it if and only if no piece is of four kinds: short (at most 68 bytes) before the public value is complete where plain text is allowed; ending behind byte 608 with HASH(req1, S) not complete; completing the head but not pad C and the length of IA, with at most 40 bytes of pad C missing; completing these and ending inside IA, at least as many bytes behind the head as IA has |
| `AcceptingRuns.FromStage` | libktorrent/mse/encryptedserverauthenticate.cpp:261-350 | The same from any byte on at which a good piece may end |
| `AcceptingRuns.DoomedStays` | libktorrent/mse/encryptedserverauthenticate.cpp:130-259 | What such a piece leads to lasts: failure, plain text, line 4 sent twice, or a stream moved beyond its place |
| `AcceptingRuns.CutBehindHead` | libktorrent/mse/encryptedserverauthenticate.cpp:190-218 | Witness: for every peer with a pad C of at most 40 bytes, a cut right behind the 14-byte head is enough |
| `ConnectingRuns.ConnectsExactly` | libktorrent/mse/encryptedauthenticate.cpp:85-297 | Likewise for every padding, known selection, pad D and payload the connecting side ends as the protocol wants it, all of the payload handed on or still to be read, if and only if its first read brings 96 to 608 bytes and no piece begins and ends inside pad D |
| `ConnectingRuns.FromStage` | libktorrent/mse/encryptedauthenticate.cpp:245-297 | The same from any byte on at which a good piece may end |
| `HandshakeRuns.HandshakeInPieces` | libktorrent/mse/encryptedauthenticate.cpp:75-297 | The two objects, over a network that cuts what they send as it likes: both end as the protocol wants it if and only if no piece spoils it, and then both directions stand at matching positions, IA decrypts to the handshake meant and all bytes behind line 4 to the payload |
| `HandshakeRuns.ClearWithoutPadding` | libktorrent/mse/encryptedauthenticate.cpp:66-73 | Without padding nothing can mislead the searches, so the hypotheses can be met |
| `AcceptingSafety.AcceptedIsProven` | libktorrent/mse/encryptedserverauthenticate.cpp:62-350 | Whatever bytes come and in whatever pieces: an accepting side that left the handshake without failing has a cipher, keyed by the secret of the public value at the front of these bytes and by a torrent of ours whose masked hash follows HASH(req1, S) in them, or else plain text is allowed |
| `CacheChecker.FileInJoined` | apps/ktcachecheck/multicachechecker.cpp:73-88 | The bytes of a file are the bytes at its place in the concatenation of all files |
| `CacheChecker.ChunkBounds` | apps/ktcachecheck/multicachechecker.cpp:65-67 | Chunk i is [i * chunk size, + its size) of the concatenation, with the size the code computes |
| `CacheChecker.MultiCacheChecker.ReadRange` | apps/ktcachecheck/multicachechecker.cpp:70-106 | The inner loop ends with the buffer equal to that slice and the file cursor at its end, in range throughout, over any number of files, empty ones too; it fails only if a needed file is missing |
| `CacheChecker.MultiCacheChecker.ReadOn` | apps/ktcachecheck/multicachechecker.cpp:73-105 | Its body reads on within the file or to its end |
| `CacheChecker.MultiCacheChecker.ReadFile` | apps/ktcachecheck/multicachechecker.cpp:80-87 | One seek and read extends the part of the slice already read |
| `CacheChecker.MultiCacheChecker.ReadChunk` | apps/ktcachecheck/multicachechecker.cpp:65-106 | The bytes hashed for chunk i are the chunk as sliced from the concatenation |
| `CacheChecker.MultiCacheChecker.Check` | apps/ktcachecheck/multicachechecker.cpp:43-141 | The check completes if and only if every file that has to be opened is there; then counters and sets are the sizes and members of the four classes |
| `CacheChecker.MultiCacheChecker.CheckChunks` | apps/ktcachecheck/multicachechecker.cpp:58-133 | The outer loop carries cursor, counters and sets along |
| `CacheChecker.MultiCacheChecker.CheckChunk` | apps/ktcachecheck/multicachechecker.cpp:65-132 | Its body puts chunk i into its class |
| `CacheChecker.MultiCacheChecker.Classify` | apps/ktcachecheck/multicachechecker.cpp:108-132 | One chunk changes exactly one counter, and the set that goes with it |
| `CacheChecker.ClassMember` | apps/ktcachecheck/multicachechecker.cpp:110-132 | The class of a chunk is decided by whether it is in the index and whether its hash is right |
| `CacheChecker.TallyIsSizes` | apps/ktcachecheck/multicachechecker.cpp:110-132 | The counters are the sizes of the four classes, which add up to the number of chunks |
| `CacheChecker.MultiCacheChecker.LoadIndex` | apps/ktcachecheck/cachechecker.cpp:42-60 | The loop lists every chunk of the index file, and then once more whatever its header holds after the read that failed at the end |
| `CacheChecker.MultiCacheChecker.FixIndex` | apps/ktcachecheck/cachechecker.cpp:69-110 | Failed chunks leave the index, extra ones enter it, and the file then lists the result in ascending order; without either it stays as it was |
| `CacheChecker.WriteIndex` | apps/ktcachecheck/cachechecker.cpp:102-109 | The loop over the set writes each member once, in ascending order |
| `CacheChecker.RepairIsFinal` | apps/ktcachecheck/cachechecker.cpp:69-99 | After check and repair the index lists, of the torrent's chunks, exactly those whose data hashes correctly |
| `CacheChecker.RepairedLoads` | apps/ktcachecheck/cachechecker.cpp:42-110 | Read back, the repaired file lists them exactly unless the header left over from the failing read names a bad chunk |
| `CacheChecker.CheckRepairCheck` | apps/ktcachecheck/cachechecker.cpp:42-110 | Two objects, one after the other: check, repair, check again; the second finds no failed and no extra chunk if and only if that header does no harm |
| `BufferedSockets.SendOutputStream` | libktorrent/net/bufferedsocket.cpp:124-170 | One send moves bytes from buffer to wire in order, as many as buffer, limit and kernel have room for; it discards the rest of the buffer if and only if a partial send of everything leaves as many bytes as were sent so far |
| `BufferedSockets.WriteCarries` | libktorrent/net/bufferedsocket.cpp:172-210 | A call with a limit puts at most that many bytes on the wire, over all refills, and returns how many; sent plus remaining never passes the buffer size |
| `BufferedSockets.WriteStops` | libktorrent/net/bufferedsocket.cpp:172-210 | A call stops for one of three reasons only: the limit is used up (without one, 2^32 bytes), the kernel took less than a buffer full at the last send, or everything was sent and the writer has nothing more |
| `BufferedSockets.WriteRunCarries` | libktorrent/net/bufferedsocket.cpp:172-210 | Over every run of calls wire, buffer and remaining chunks together are the writer's stream if and only if no send discarded anything |
| `BufferedSockets.NeverLosesExactly` | libktorrent/net/bufferedsocket.cpp:124-210 | Nothing is lost whatever the kernel takes and whatever the limits if and only if the buffer in use is half sent or of odd length and every chunk to come is empty or of odd length |
| `BufferedSockets.SafeRun` | libktorrent/net/bufferedsocket.cpp:124-210 | From there every run carries the writer's whole stream |
| `BufferedSockets.SpoilBuffer` | libktorrent/net/bufferedsocket.cpp:142-143 | For any other buffer: one call to a kernel that takes half of what it holds beyond what was sent loses the rest |
| `BufferedSockets.BufferedSocket.SendOutputBuffer` | libktorrent/net/bufferedsocket.cpp:124-170 | The object takes the specified step |
| `BufferedSockets.BufferedSocket.WriteBuffered` | libktorrent/net/bufferedsocket.cpp:172-210 | So it does with its refill loop, which ends |
| `BufferedSockets.BufferedSocket.ReadBuffered` | libktorrent/net/bufferedsocket.cpp:86-122 | The object takes the specified steps; it closes a connection with nothing to read |
| `BufferedSockets.ReadLoopDelivers` | libktorrent/net/bufferedsocket.cpp:97-120 | The reader is given the incoming bytes in order and no others; the socket is closed on the way only by a receive that ended or failed |
| `BufferedSockets.ReadStops` | libktorrent/net/bufferedsocket.cpp:86-122 | Reading stops only at its limit, when nothing is left or said to be available, or when nothing was received; the socket is closed if that was an end or a failure, or if nothing was available at first |
| `BufferedSockets.LimitKeptExactly` | libktorrent/net/bufferedsocket.cpp:97-120 | A limit on reading is kept, whatever comes in and however, if and only if it lies at least a buffer below 2^32 |
| `CircularBuffers.CircularBuffer.Write` | libktorrent/net/circularbuffer.cpp:46-64 | What fits of the data joins the queue; a size of 0 fills the buffer |
| `CircularBuffers.CircularBuffer.Read` | libktorrent/net/circularbuffer.cpp:66-82 | The oldest bytes leave the queue and are returned, except that a read beginning one past the array returns the byte found there first |
| `CircularBuffers.CircularBuffer.Send` | libktorrent/net/circularbuffer.cpp:84-143 | All three branches offer the oldest bytes to the socket in one or two calls |
| `CircularBuffers.SendIsDequeue` | libktorrent/net/circularbuffer.cpp:84-143 | Whatever the socket takes, the bytes taken are a front part of the queue within the limit, in order, at the end of the wire, and the rest stays queued |
| `CircularBuffers.SendParks` | libktorrent/net/circularbuffer.cpp:92-140 | `first` ends one past the array if and only if `send` empties a queue that ended there, or a full one from there on |
| `CircularBuffers.RunFifo` | libktorrent/net/circularbuffer.cpp:46-144 | In every run of writes, reads and sends, what left, then what is queued, is what was accepted |
| `CircularBuffers.StepIsEager` | libktorrent/net/circularbuffer.cpp:46-144 | No operation does less than it can: a write fills the buffer or takes all it is asked to, a read empties it or takes all it is asked for, and so does a send whose socket takes what it is offered |
| `CircularBuffers.SendStops` | libktorrent/net/circularbuffer.cpp:84-143 | Bytes stay behind within the limit only because the last call to the socket took less than it was offered |
| `CircularBuffers.ParkedIs` | libktorrent/net/circularbuffer.cpp:66-144 | `first` stands one past the array if and only if the last operation that took anything off was a `send` emptying the queue there |
| `CircularBuffers.RunHandsOver` | libktorrent/net/circularbuffer.cpp:46-144 | In every run readers and socket are handed exactly the bytes that left if and only if no read of a byte followed such a `send` (and met a different byte behind the array) |
| `CircularBuffers.SendRun` | libktorrent/net/circularbuffer.cpp:46-144 | In runs of writes and sends the wire carries exactly what left |
| `CircularBuffers.ReadRun` | libktorrent/net/circularbuffer.cpp:46-82 | Runs of writes and reads keep `first` below the capacity, so no read is bad |
| `CircularBuffers.ReadAfterSend` | libktorrent/net/circularbuffer.cpp:66-99 | Witness: after a `send` that empties a buffer ending at its end, a byte written is not the byte read |
| `Database.TokenSpentOnce` | libktorrent/kademlia/database.cpp:128-170 | Over every interleaving, a token is accepted no more often than it was issued |
| `Database.EncodedInjective` | libktorrent/kademlia/database.cpp:130-136 | The 14 hashed bytes determine ip, port and time |
| `Database.AcceptedFromOwner` | libktorrent/kademlia/database.cpp:144-170 | With a collision-free hash, after any run a check succeeds if and only if the token is stored and was issued to that very ip and port |
| `Database.IssuedIsAccepted` | libktorrent/kademlia/database.cpp:128-170 | With such a hash a token, once issued and until a check of it succeeds, is accepted from its owner and from nobody else whatever happens meanwhile; from then on from nobody until it is issued again |
| `Database.TokenStays` | libktorrent/kademlia/database.cpp:128-141 | Time never ends a token; only a successful check does |
| `Database.PopIsFilter` | libktorrent/kademlia/database.cpp:112-126 | Popping from the front leaves exactly the unexpired items if and only if no expired item stands behind an unexpired one |
| `Database.RunKeepsUnexpired` | libktorrent/kademlia/database.cpp:73-126 | With a clock that never goes back the lists stay sorted, and no later time can tell them from the full history |
| `Database.ExpireIsExact` | libktorrent/kademlia/database.cpp:112-126 | So `expire(now)` leaves for each key exactly the items stored less than 30 minutes ago, in the order they were stored |
| `Database.KeyStays` | libktorrent/kademlia/database.cpp:172-185 | A key stays once stored or inserted, even when its list is empty |
| `Database.Database.StoreItem` | libktorrent/kademlia/database.cpp:73-82 | The item goes to the end of its list |
| `Database.Database.InsertKey` | libktorrent/kademlia/database.cpp:177-185 | A missing key gets an empty list |
| `Database.Database.ExpireItems` | libktorrent/kademlia/database.cpp:112-126 | The two loops pop the expired front of every list |
| `Database.Database.Sample` | libktorrent/kademlia/database.cpp:84-110 | The oldest items, as many as asked for or all |
| `Database.Database.GenToken` | libktorrent/kademlia/database.cpp:128-142 | The token is made, stored with its time and returned |
| `Database.Database.CheckToken` | libktorrent/kademlia/database.cpp:144-170 | Accepted exactly if stored and equal to the token made anew; then it is erased |
| `NetworkThreads.ProcessLimited` | libktorrent/net/socketgroup.cpp:58-105 | The loop takes the specified turns, and ends |
| `NetworkThreads.RoundsSpend` | libktorrent/net/socketgroup.cpp:65-102 | Each turn is allowed between 1 and what there was, and the allowance goes down by exactly what was moved, unless a socket moved more than it was allowed (then by no more than that) |
| `NetworkThreads.RoundsEnd` | libktorrent/net/socketgroup.cpp:82-91 | Exactly the sockets that did not move what they were allowed are out, besides the null ones |
| `NetworkThreads.RoundsFair` | libktorrent/net/socketgroup.cpp:62-102 | The sockets have their first turns in order, before anyone has a second |
| `NetworkThreads.RoundsShare` | libktorrent/net/socketgroup.cpp:60-71 | Every turn is allowed the share, or all that is left when that is less |
| `NetworkThreads.SlotIsShare` | libktorrent/net/socketgroup.cpp:60 | The share is the smallest with which one round of turns can use up the allowance |
| `NetworkThreads.ProcessUnlimited` | libktorrent/net/socketgroup.cpp:41-56 | Each socket has one turn without limit |
| `NetworkThreads.SlotVanishes` | libktorrent/net/socketgroup.cpp:60 | The share of a socket wraps to 0, meaning no limit, if and only if one socket has an allowance of 2^32 - 1 |
| `NetworkThreads.Process` | libktorrent/net/socketgroup.cpp:126-181 | Global and own allowance are both charged with exactly what moved (with no more, if a socket exceeded its limit); the sockets have their first turns in order, each allowed the share; a socket of a group whose own allowance is not used up is still there or ended its part in a turn, and whenever allowance is left none is still there; without any limit each has one turn; a group is still ready exactly when sockets are left, and then its part of the global allowance is used up |
| `NetworkThreads.DoGroup` | libktorrent/net/networkthread.cpp:89-111 | A group gets between 1 and what is left, and is charged with what it moved; still ready it has moved something, otherwise it is empty |
| `NetworkThreads.DoGroupsLimited` | libktorrent/net/networkthread.cpp:82-116 | However the share is rounded, each group gets between 1 and what is left; what moved within the limits is what the allowance went down by; groups still ready mean progress, and none ready with allowance left means every group is done |
| `NetworkThreads.NetworkThread.DoGroupsLimitedBy` | libktorrent/net/networkthread.cpp:136-163 | The passes end; while sockets keep to their limits the total moved is initial minus final allowance, and a group with a limit has moved its grant but for what it has left; if allowance is left, every ready socket of a group that has not used up its own ended its part by moving something else than it was allowed; all groups end empty, and no socket is ever let loose |
| `NetworkThreads.NetworkThread.DoGroupsUnlimited` | libktorrent/net/networkthread.cpp:120-135 | Without a global limit each ready socket of a group without a limit has one turn; one with a limit has moved its grant but for what it has left, and if something is left every ready socket of it ended its part; all groups end empty |
| `NetworkThreads.NetworkThread.CalcAllowances` | libktorrent/net/networkthread.cpp:139-145 | Every group gets its new allowance |
| `NetworkThreads.NetworkThread.ClearAll` | libktorrent/net/networkthread.cpp:156-162 | Every group loses its sockets and nothing else |
| `NetworkThreads.EverySocketHasAGroup` | libktorrent/net/networkthread.cpp:51-80 | Over every run of groups added, removed and given limits group 0 is there, so each socket has its own group or that one |
| `NetworkThreads.ChangeReaches` | libktorrent/net/networkthread.cpp:51-80 | Adding a group or setting its limit gives it that limit and leaves its sockets; removing one removes it, except group 0; no other group is touched |
| `NetworkThreads.NetworkThread.Gather` | libktorrent/net/downloadthread.cpp:54-72 | Each ready socket joins its group, or group 0 if that is gone: the groups grow by exactly the arrivals, in order |
| `NetworkThreads.ArrivesAtHome` | libktorrent/net/uploadthread.cpp:47-63 | Every ready socket arrives, in its own group if that is there and in group 0 otherwise |

## Left out

- HandshakeProofs.HandshakeAligned: each flight after the key exchange arrives whole; `HandshakeRuns.HandshakeInPieces` is without that. In both there is at least one byte of payload behind line 4 (`handleCryptoSelect` waits for more than its 14 bytes), the patterns searched for do not occur in the padding before them, the public values fill their 96 bytes and the secret is written alike on both sides.
- AcceptingRuns.AcceptsExactly: the peer offers RC4, as this client always does, and sends nothing behind IA before line 4; an object that has failed is not asked to read again, as the monitor sees to (`AuthenticationMonitor::handleData`).
- ConnectingRuns.ConnectsExactly: the selection is one of the two known. Where a pad D would reach beyond the buffer the model's step does nothing.
- HandshakeProofs.CryptoSelectDone: what is behind VC fits the buffer of 1134 bytes, as it does with at most 511 bytes of padding before it.
- HandshakeClasses.EncryptedServerAuthenticate.OnReadyRead: the steps are taken as they stand in `Handshake`, where each handler is written once; what they achieve is proved in `HandshakeProofs`. Hashing, key export and modular powers are functions there and in the objects, and the junk in the stack buffers of one party is one value.
- DhtSystem.ClosedRunIsShort: counts contacts as the pairs of address and id that responses name; how many there are is the hypothesis.
- `Task::kill` and the refresh of buckets with its timers: not modelled.
- DhtSystem.SysRunDrifts: a late timer is that of any call that has ended, under any id, at any time after; the event loop lets only answered calls awaiting deletion fire, under the id they had. In `PingSystem` the bucket is one of the 160, and calls of all others are calls of others.
- Message formats, their encoding and parsing, and which listener belongs to which message: a response is the part of it that tasks look at.
- `KClosestNodesSearch::pack`, which skips every other entry, and loading and saving of the routing table.
- Database.AcceptedFromOwner: assumes that the hash does not collide on 14-byte inputs; ip, port and time fit their fields.
- CacheChecker.MultiCacheChecker.LoadIndex: an index file is the list of its headers; one that cannot be opened, or ends within a header, is not modelled, nor are short reads of cached files (a stored file has the length the torrent gives) and the checker for single-file torrents.
- CircularBuffers.CircularBuffer.Write: the sum of `first` and `size` is not wrapped at 2^32, so capacities from 2^31 on are not covered.
- CircularBuffers.CircularBuffer.Read: the byte behind the array is a parameter; what else such a read could do is not modelled.
- BufferedSockets.BufferedSocket.WriteBuffered: the socket has a writer (without one the call returns 0), and speed statistics are left out.
- NetworkThreads.NetworkThread.DoGroupsLimitedBy: groups are values in the thread's map, visited in any order rather than by id; sockets are handles. What was moved equals what was charged when no socket exceeded a positive limit, as `BufferedSockets.WriteCarries` shows for the real ones; otherwise the charge stops at the allowance. Allowances stay below 2^32 - 1 (see `NetworkThreads.SlotVanishes`).
- NetworkThreads.NetworkThread.Gather: which sockets are ready is given; polling is not modelled.
- Locks and threads: operations are taken one at a time.
