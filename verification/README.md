# A verified model of the praxis2 distributed hash table

`praxis2` is a static Chord-style ring of peers that together store a key-value map. A client
sends a GET, SET or DELETE packet to any peer. The peer answers from its own table, proxies the
request to its successor, or parks it and sends a LOOKUP round the ring; the REPLY names the
responsible peer and releases every request parked for that hash. This project models the layers
of that system and proves what each promises to the next, up to one statement about whole runs:
however clients and messages interleave, every answer is the one that a single global map gives.

| file | what it models |
|---|---|
| `words.dfy`, `bits.dfy` | machine words, big-endian bytes, shifts and masks |
| `packet.dfy` | the C codec (`src/packet.c`): serialising into a buffer, decoding in two halves |
| `pypacket.dfy` | the test bench's Python codec for the same wire format, and where the two agree |
| `ringbuffer.dfy`, `transfer.dfy` | `src/util.c`: the ring buffer, `sendall` and `recvall` |
| `framing.dfy`, `client.dfy` | `src/server.c`: cutting streams into packets, the client record |
| `rounds.dfy`, `streams.dfy`, `server.dfy` | `src/server.c`: the poll loop, as functions of a table of connections and as methods that relink the client list, and what it does to each connection |
| `process.dfy` | `src/server.c` with `src/peer.c` as its callback: one process |
| `uthash_lists.dfy`, `uthash_chains.dfy`, `uthash.dfy`, `uthash_fsck.dfy` | `include/uthash.h`: the two linked structures, find, add, delete, bucket doubling, the integrity check |
| `uthash_merge.dfy`, `uthash_sort.dfy` | the in-place mergesort of `uthash.h` |
| `hash_table.dfy`, `requests.dfy` | the store and the table of parked requests on top of uthash |
| `intervals.dfy` | responsibility on the circle of 16-bit ids |
| `peer_steps.dfy`, `peer.dfy` | the handlers of `src/peer.c`, as functions of a peer's state and as methods that update its tables |
| `ring.dfy`, `ring_safety.dfy`, `ring_invariant.dfy`, `ring_delivery.dfy`, `ring_theorems.dfy`, `ring_progress.dfy`, `ring_answers.dfy`, `ring_processes.dfy` | the ring as a state machine and the theorems about its runs |
| `bench.dfy` | what the test bench sees of a peer, byte by byte: hashes, acknowledgements, lookups and replies |

`dafny verify dfyconfig.toml` checks everything.

How the layers meet: `Peers.Peer.HandlePacket` updates linked hash tables and is proved to do what
`PeerSteps.HandlePacket` says on values; `RingMachine` runs that function at every peer, and hands
each packet over as the bytes that the codec writes and the framing cuts out of the stream again
(`RingMachine.OverWire`). A proxied request runs at its target within the step of the peer that
proxies it, because `proxy_request` waits for the answer. `Servers.ServerRun` runs whole poll rounds
over linked clients and their ring buffers and is proved to deliver what `Rounds.DeliveredAll` says
on values, where each connection is one of `Framing`. `Processes.ProcessRuns` puts the handlers of
`PeerSteps` behind those rounds, as the callback of the server, and `RingProcesses.ProcessInRing` says
that a process which gets the packets that reach a peer in a run of the ring ends in the state that
the ring machine has for that peer.

## What is assumed, and where the code departs from its description

- Connections deliver the bytes they are given; delivery order between control packets is free.
  A read returns any number of bytes from one up to what was asked for.
- `peer_is_responsible` answers no for a hash at or below the peer's id in the interval that wraps
  around zero, although `neighbour.h` describes the whole interval. Safety of runs is proved for all
  requests. In every run, whatever else was sent, a request that arrived can still be answered if and
  only if its hash is above the smallest id (`AnsweredExactly`); the network can drain if and only if
  every hash in flight is (`DrainsExactly`). A concrete run that never answers is in
  `LowHashNeverAnswered`.
- GET copies key and value with `strncpy`, so a client reads zeros behind the first NUL. The copy
  is exact if and only if no non-zero byte follows a NUL (`StrnCopyExactly`, `StrnCopyAt`), and so is
  what a client reads in any run (`ReadExactly`). `NulIsLost` is a run that reads a wrong key.
- The test that should single out DELETE is always true, so every data packet that is neither GET
  nor SET deletes its key. Table and acknowledgement are what the packet asks for if and only if it has
  a method bit (`MethodMeetsExactly`, `RequestedExactly`); `NothingDeletes` is a run that loses an entry
  to a packet without one.
- A packet with an empty body is never delivered, because a read of no bytes counts as a close, and
  the body size is a 32-bit sum. Exactly the other packets arrive (`DeliveredExactly`);
  `EmptyIsStuck` and `HugeIsOverread` are two that do not.
- `packet_decode` passes the length of the whole buffer to the body check. `OverreadExactly` says
  for which buffers it then reads past the end, `MissingKeyIsOverread` is one.
- While a round visits the clients, the loop bound shrinks with every removal, so clients at the end
  of the list can be put off to the next round. Every client is visited if and only if none but the
  last one leaves during its visit (`AllVisitedExactly`, with a skipped client in
  `ReadyClientSkipped`); `PutOffBound` says how many are put off.
- A client that was marked for removal earlier in a round is assumed to have no data ready
  (`ClosedHaveNoData`), and accept is assumed not to return a socket that is still in use. With the
  peer's own handlers as callback, the first follows from this: a client whose request is parked sends
  nothing and does not close before it is answered (`Processes.DrivenIsLegal`).
- `Processes` takes runs in which no length wraps, since the handlers are not defined on a packet that
  was read past its end.
- The C counters of a table (`num_buckets`, `num_items`, ...) are modelled without wrap-around, and
  HASH_JEN is any fixed function of the key.

## Model

| member | source | states |
|---|---|---|
| RingTheorems.EveryRunIsOneMap | praxis2/src/peer.c:193-254 | In every run from empty tables, for all requests and delivery orders: each answer is that of one global map (up to strncpy) in owner-step order, a key is stored at its responsible peer and nowhere else, no packet is lost between peers and no request is proxied twice, answers per peer and hash come in arrival order and nothing is lost, and no parked request is orphaned. |
| RingAnswers.AnsweredExactly | praxis2/src/peer.c:193-254 | In every run, whatever its requests, a request that arrived at a peer can still be answered, by some continuation, if and only if its hash lies above the smallest id. |
| RingAnswers.EveryRequestAnswered | praxis2/src/peer.c:193-254 | After any run, whatever its requests, exactly Measure further deliveries answer every request for a covered hash, in order of arrival; if no other request was sent the network is then empty. |
| RingProgress.AnsweredInTime | praxis2/src/peer.c:225-254 | In any run, with further requests of any kind in between: the deliveries about a peer and a covered hash never exceed those due at the start plus those that the new requests for it cause, they reach that number if and only if no message about them is in flight, and then every request for that hash that had arrived there is answered, in order. |
| RingProgress.AnsweredSoon | praxis2/src/peer.c:225-254 | In any such run: once there have been more of these deliveries than lookups, old and new, can still cross links, every request that had arrived there at the start is answered, in order. |
| RingProgress.CanReachDue | praxis2/src/peer.c:225-254 | Every run, whatever its requests, goes on to reach the first number, by exactly the deliveries still due. |
| RingProgress.CanReachSoon | praxis2/src/peer.c:225-254 | As long as a request is parked, every run goes on to exceed the second. |
| RingProgress.AboutCounted | praxis2/src/peer.c:225-254 | Deliveries about a peer and a covered hash, plus those still due, are exactly those due at the start plus the cost of each new request: nothing if it runs at once, else its lookup's way and the reply. |
| RingProgress.PendingHasMessage | praxis2/src/peer.c:207-213 | As long as a request is parked there is a message about its peer and hash to deliver. |
| RingAnswers.ReadExactly | praxis2/src/peer.c:121-126 | In every run, a client reads exactly what the global map answers if and only if that answer has no non-zero byte behind a NUL. |
| TestBench.EveryAnswerIsPython | praxis2/src/peer.c:110-149 | In every run, byte for byte, each client is sent the acknowledgement that the test bench would write for the global map's answer, and the bench reads it as that. |
| TestBench.EveryMessageIsPython | praxis2/src/peer.c:82-98 | In every run, every message in flight has exactly the bytes of a LOOKUP with the id and address of some peer or of a REPLY with those of the owner. |
| TestBench.StoredByFirstBytes | praxis2/src/util.c:11-19 | In every run, a key of the global map is stored at exactly the peer whose circular interval has the number of its first two bytes, if that is above the smallest id. |
| RingAnswers.RequestedExactly | praxis2/src/peer.c:113-143 | In every run, the answers are those of the operations asked for (up to strncpy) if and only if every answered request has a method bit. |
| RingAnswers.NulIsLost | praxis2/src/peer.c:121-126 | A run on the ring of launch.sh in which a GET of the stored key [1, 0, 2] reads [1, 0, 0]. |
| RingAnswers.NothingDeletes | praxis2/src/peer.c:136-143 | A run on that ring in which a packet without any flag deletes an entry. |
| RingTheorems.DrainsExactly | praxis2/src/peer.c:225-241 | The network can become empty if and only if every hash in flight lies above the smallest id. |
| RingTheorems.DeliveryShrinks | praxis2/src/peer.c:225-254 | Every delivery for a covered hash takes exactly one off remaining ring distance plus replies; a delivery for an uncovered hash leaves it alone. |
| RingTheorems.DeliveriesCounted | praxis2/src/peer.c:225-254 | However deliveries are scheduled, those for covered hashes are exactly what the measure goes down by. |
| RingTheorems.CoveredDrain | praxis2/src/peer.c:225-254 | A schedule of exactly as many deliveries as the measure leaves no message for a covered hash in flight, whatever else circulates. |
| RingTheorems.Drains | praxis2/src/peer.c:225-254 | With covered hashes only, a schedule of that length empties the network. |
| RingTheorems.UncoveredNeverDrains | praxis2/src/peer.c:235-241 | Once a lookup for an uncovered hash is in flight, no run ever empties the network. |
| RingTheorems.UncoveredNeverAnswered | praxis2/src/peer.c:207-213 | In every run, all requests that arrived for an uncovered hash are still parked and none is answered. |
| RingAnswers.LowHashNeverAnswered | praxis2/launch.sh:14-33 | On the ring of launch.sh, hash 5 belongs to peer 10 on the circle and to nobody in the code, and a request for it is never answered in any run. |
| RingTheorems.QuietMeansAnswered | praxis2/src/peer.c:242-250 | An empty network means no pending request and, per peer and hash, arrivals equal answers in order. |
| RingTheorems.LookupBound | praxis2/src/peer.c:229-241 | A lookup for a covered hash crosses at most n-2 links and never reaches the responsible peer. |
| RingTheorems.LookupsNameAsker | praxis2/src/peer.c:82-98 | Every lookup in flight carries the id, ip and port of the peer that asked, and its destination is as many successors on as it has crossed links. |
| RingTheorems.RepliesNameOwner | praxis2/src/peer.c:162-182 | Every reply in flight names the responsible peer's id, ip and port. |
| RingTheorems.CoveredRequestsStayCovered | praxis2/src/peer.c:193-214 | Requests with covered hashes only ever put covered hashes on the network. |
| RingDelivery.RunKeepsInv | praxis2/src/peer.c:193-254 | The global invariant (one map, placement, parked requests, messages, counts, order) holds after every run. |
| RingDelivery.LookupDelivered | praxis2/src/peer.c:229-241 | The branch "this should not happen" is unreachable: a delivered lookup is answered with the owner by the peer in front of it, or passed on one link. |
| RingDelivery.ReplyDelivered | praxis2/src/peer.c:242-250 | A reply serves exactly the requests parked for its hash, in arrival order, at the true owner. |
| RingDelivery.LookupAdvances | praxis2/src/peer.c:238-241 | A forwarded lookup is still between its origin and the owner, one link further. |
| RingDelivery.OwnerReplies | praxis2/src/peer.c:235-237 | The reply to a lookup goes to the peer that asked, which is neither the owner nor in front of it. |
| RingDelivery.ReplyConserves | praxis2/src/peer.c:242-250 | Accepted equals answered plus pending, per peer and hash and in order, across a reply. |
| RingInvariant.ServedAtOnce | praxis2/src/peer.c:199-206 | A request run at the entry peer or its successor keeps the invariant. |
| RingInvariant.Parks | praxis2/src/peer.c:207-213 | Parking a request with its lookup keeps the invariant: the pending count stays below the messages in flight. |
| RingInvariant.NeighboursAgree | praxis2/src/peer.c:199-206 | A peer judges its successor's responsibility as the successor does itself. |
| RingInvariant.ClientStep | praxis2/src/peer.c:193-214 | Every request of every client keeps the global invariant. |
| RingSafety.ProxyHandledLocally | praxis2/src/peer.c:64-74 | A request proxied to the responsible peer is always executed there, never proxied or parked again. |
| RingSafety.ServedByRefines | praxis2/src/peer.c:108-153 | Executing a request at its owner is one step of the global map, with the right answer. |
| RingSafety.PartitionUpdates | praxis2/src/peer.c:108-153 | The owner's update keeps the tables a partition of the global map. |
| RingSafety.OwnerAnswers | praxis2/src/peer.c:115-149 | What the owner sends back is what the global map answers, up to strncpy. |
| Intervals.CodeDiffersExactly | praxis2/src/neighbour.c:122-133 | The code's test implies the circular interval and misses exactly the hashes up to the peer's id in the wrapped one. |
| Intervals.OneCircularOwner | praxis2/include/neighbour.h:23-31 | On a ring of at least two distinct ids, every hash has exactly one circularly responsible peer. |
| Intervals.OneOwnerIfCovered | praxis2/src/neighbour.c:122-133 | As written, a peer is responsible if and only if the hash is above the smallest id and the peer is its owner. |
| Intervals.SomeoneResponsibleExactly | praxis2/src/neighbour.c:122-133 | Some peer is responsible if and only if the hash is above the smallest id. |
| Intervals.FirstFrom | praxis2/src/neighbour.c:122-133 | The owner is the first id at or after the hash. |
| PeerSteps.PseudoHashBytes | praxis2/src/util.c:11-19 | The hash is the first two bytes of the key, big-endian; a shorter key has zeros in front. |
| TestBench.HashesAgreeExactly | praxis2/tests.py:21-27 | The peer's hash and the test bench's differ exactly for a key of one non-zero byte. |
| TestBench.BenchKeys | praxis2/tests.py:177-178 | The hashes that tests.py notes for two of its keys. |
| PeerSteps.StrnCopyExactly | praxis2/src/peer.c:121-126 | strncpy copies the whole buffer if and only if no non-zero byte follows a NUL. |
| PeerSteps.StrnCopyAt | praxis2/src/peer.c:121-126 | Each copied byte is the original, or zero behind a NUL. |
| PeerSteps.ReplyTellsResult | praxis2/src/peer.c:110-149 | A client decodes from the acknowledgement what a map would answer. |
| PeerSteps.MethodMeetsExactly | praxis2/src/peer.c:110-143 | The acknowledgement is the one asked for if and only if the packet has a method bit, and so is the table, except that an absent key cannot be lost. |
| PeerSteps.IntendedReplyReads | praxis2/src/peer.c:110-143 | The intended acknowledgement reads as the intended result, a refusal included. |
| TestBench.AckIsPython | praxis2/src/peer.c:110-149 | The acknowledgement of a peer has exactly the bytes of the Python packet with the method, key and value of the map's answer, and parses as it. |
| PeerSteps.GetReadsStoredExactly | praxis2/src/peer.c:115-127 | A GET after the SET that stored an entry reads that entry if and only if neither key nor value has a non-zero byte behind a NUL. |
| PeerSteps.KeptExactlyWhileParked | praxis2/src/peer.c:193-214 | The connection is kept exactly when the request is parked; otherwise it is answered or proxied once. |
| PeerSteps.ReleasesShape | praxis2/src/peer.c:245-249 | Each parked request is proxied, in order, and then its socket is closed. |
| PeerSteps.DuplicateReplyServesNone | praxis2/src/peer.c:242-250 | A second reply for a hash serves no request and other hashes keep theirs. |
| PeerSteps.LookupHandled | praxis2/src/peer.c:229-241 | Any lookup, from whomever: answered to its address with the peer or the successor, whichever circular interval has the hash, or else passed on unchanged. |
| PeerSteps.ReplyHandled | praxis2/src/peer.c:242-250 | A reply releases what is parked for its hash, and only that. |
| PeerSteps.OthersIgnored | praxis2/src/peer.c:251-253 | Any other control packet changes nothing and sends nothing. |
| TestBench.FullCircle | praxis2/tests.py:273-367 | For every peer, key and request from the bench: a request for a hash that neither the peer nor its successor has sends exactly the LOOKUP the bench expects, and the bench's REPLY has the request proxied to the address it names. |
| TestBench.LookupIsPython | praxis2/src/peer.c:82-98 | A lookup has exactly the bytes of a Python LOOKUP with the peer's own id and address. |
| TestBench.ReplyIsPython | praxis2/src/peer.c:162-182 | A reply has exactly the bytes of a Python REPLY. |
| TestBench.PythonLookupHandled | praxis2/src/peer.c:229-241 | A LOOKUP that the bench writes is handled as a lookup for its hash and address. |
| TestBench.PythonReplyHandled | praxis2/src/peer.c:242-250 | A REPLY that the bench writes releases the requests for its hash to its address. |
| Peers.Peer.HandlePacket | praxis2/src/peer.c:266-272 | Over the linked tables, the callback changes state and sends exactly what the step function says. |
| Peers.Peer.HandlePacketData | praxis2/src/peer.c:193-214 | The same for data packets. |
| Peers.Peer.HandlePacketCtrl | praxis2/src/peer.c:225-254 | The same for control packets. |
| Peers.Peer.HandleOwnRequest | praxis2/src/peer.c:108-153 | The same for a request the peer is responsible for; parked requests are untouched. |
| Peers.ExecuteOwn | praxis2/src/peer.c:110-142 | The branches leave the table and the acknowledgement that the request asks for. |
| Peers.Peer.ReleaseRequests | praxis2/src/peer.c:245-249 | The walk over the parked list proxies and closes each request in order. |
| Peers.Peer.AnswerLookup | praxis2/src/peer.c:162-182 | The reply names the given peer and goes to the address in the lookup. |
| Peers.Peer.LookupPeer | praxis2/src/peer.c:82-98 | A lookup with the peer's own id and address leaves for the successor. |
| Requests.RTable.AddRequest | praxis2/src/requests.c:3-25 | The request is appended to the list for its hash, other lists keep theirs. |
| Requests.RTable.GetRequests | praxis2/src/requests.c:27-34 | The first request parked for the hash, or none. |
| Requests.RTable.ClearRequests | praxis2/src/requests.c:36-51 | Exactly the list for the hash is dropped. |
| Requests.WalkAndLink | praxis2/src/requests.c:11-17 | The walk to the end of the list links the new request behind all others. |
| HashTables.HtableSet | praxis2/src/hash_table.c:21-49 | The map is updated, and the entry moves to the end of the application order. |
| HashTables.HtableGet | praxis2/src/hash_table.c:51-61 | The entry of the finite map, or none if and only if the key is absent. |
| HashTables.HtableDelete | praxis2/src/hash_table.c:63-80 | The key is removed, the order of the rest is kept. |
| HashTables.HashFind | praxis2/include/uthash.h:189-197 | Finding depends on the map only, not on buckets or expansions. |
| HashTables.HashDel | praxis2/include/uthash.h:500-534 | Removing an item removes its key from the map and from the order. |
| HashTables.HashAdd | praxis2/include/uthash.h:468-474 | Adding an absent key extends the map and the order at the end. |
| HashTables.MapOfHas | praxis2/src/hash_table.c:51-61 | With unique keys the map of an order holds exactly its entries. |
| HashTables.DropIsRemove | praxis2/src/hash_table.c:63-76 | With unique keys, dropping a key removes its one entry and keeps the order. |
| HashTables.DropKeyMap | praxis2/src/hash_table.c:63-76 | Dropping a key from the order is removing it from the map. |
| UtHash.Table.Find | praxis2/include/uthash.h:942-962 | Finds an item with the key if and only if one is in the table. |
| UtHash.Table.AddKeyptr | praxis2/include/uthash.h:445-466 | Keeps the integrity conditions, appends the item, and doubles the buckets exactly when the item's bucket reaches its threshold while expansion is allowed. |
| UtHash.Table.AddToBkt | praxis2/include/uthash.h:965-975 | The item becomes the first of the chain of its own bucket, all other chains stay. |
| UtHash.Table.AddToTable | praxis2/include/uthash.h:377-386 | Counting, linking into the bucket and expanding restore the integrity conditions. |
| UtHash.Table.MakeTable | praxis2/include/uthash.h:241-272 | A new table has 32 empty buckets. |
| UtHash.Table.Delete | praxis2/include/uthash.h:502-534 | Keeps the integrity conditions and takes exactly this item out; deleting the last one frees the table. |
| UtHash.Table.DeleteFromBkt | praxis2/include/uthash.h:984-997 | The bucket's chain is bridged and the counts follow. |
| UtHash.Table.ExpandBuckets | praxis2/include/uthash.h:1028-1086 | New chain j is the reverse of the items of old chain j mod b that hash to j; nothing is lost or duplicated, all links are well formed, the ideal length is the ceiling, nonideal items and multipliers are exact, and the history of ineffective expansions is kept. |
| UtHash.Table.FinishExpand | praxis2/include/uthash.h:1073-1083 | Bucket count and its logarithm double together; noexpand is set exactly after two ineffective expansions in a row. |
| UtHash.MoveItem | praxis2/include/uthash.h:1051-1067 | One item moves to the front of its new chain with exact statistics. |
| UtHash.MoveChain | praxis2/include/uthash.h:1048-1069 | A whole old chain is spread over the new ones. |
| UtHash.TwoTrailing | praxis2/include/uthash.h:1076-1083 | The counter exceeds one exactly when the last two expansions were ineffective. |
| UtHash.ExpandMultBound | praxis2/include/uthash.h:1054-1061 | A multiplier is positive exactly for overlong chains and bounded by the chain's share. |
| UtHash.ExpandMultExact | praxis2/include/uthash.h:1054-1061 | The exact multiplier for every chain length and ideal length. |
| UtHash.TalliedExactly | praxis2/include/uthash.h:1054-1061 | The statistics of an expansion are every bucket's multiplier and all nonideal items. |
| UtHash.FullExactly | praxis2/include/uthash.h:975-977 | A bucket is full with its tenth item, and ten items later for each unit of its multiplier. |
| UtHash.InitialSize | praxis2/include/uthash.h:241-272 | A new table has 32 buckets. |
| HashChains.ExcessExactly | praxis2/include/uthash.h:1054-1056 | Nonideal items are those that are not within the ideal length of their chains. |
| HashChains.LandingReverses | praxis2/include/uthash.h:1048-1069 | Items that land in a new chain stand there in reverse order. |
| UtHash.IdealIsCeil | praxis2/include/uthash.h:1010-1026 | The shift and mask formula is the ceiling of items by new buckets. |
| HashChains.ModOfDouble | praxis2/include/uthash.h:1051-1052 | Doubling the modulus sends a bucket's items to that bucket or its upper twin. |
| HashChains.PlacedAdd | praxis2/include/uthash.h:377-386 | Adding keeps both structures holding the same items and the counts summing up. |
| HashChains.PlacedRemove | praxis2/include/uthash.h:502-534 | So does removing. |
| HashChains.LandingMembers | praxis2/include/uthash.h:1048-1069 | The items that land in a new bucket are those of the old chain that hash there. |
| Bits.MaskIsMod | praxis2/include/uthash.h:483-486 | Masking with a power of two minus one is the remainder. |
| Bits.ShrIsDiv | praxis2/include/uthash.h:1041-1045 | Shifting right is dividing by a power of two. |
| Bits.CeilByShiftIsCeil | praxis2/include/uthash.h:1018-1026 | The shift formula rounds up. |
| Bits.OrOfDisjoint | praxis2/src/packet.c:163-167 | Or-ing in bits below the others is addition. |
| Bits.OrBits | praxis2/src/packet.c:163-167 | Each bit of an or is set exactly if it is set in one operand. |
| Bits.AndBits | praxis2/include/uthash.h:483-486 | Each bit of an and is set exactly if it is set in both operands. |
| HashLists.AppendList | praxis2/include/uthash.h:317-323 | The item becomes the last of a well linked list. |
| HashLists.UnlinkApp | praxis2/include/uthash.h:514-527 | The list without the item is well linked; head and tail are right. |
| HashLists.UnlinkChain | praxis2/include/uthash.h:984-997 | The same for a bucket chain. |
| HashLists.PushFront | praxis2/include/uthash.h:969-974 | The chain with the item in front is well linked. |
| HashFsck.Fsck | praxis2/include/uthash.h:579-629 | On any table whose forward links can be walked, the integrity check of debug builds passes if and only if all back links, the count of every bucket and both totals are right. |
| HashFsck.SoundIsIntact | praxis2/include/uthash.h:579-629 | Every sound table is such a one, so no add, delete or sort can trip the check. |
| HashFsck.CheckChain | praxis2/include/uthash.h:588-605 | The walk counts the chain and passes if and only if every back link is right. |
| HashSort.HashSort | praxis2/include/uthash.h:1092-1191 | The in-place mergesort terminates, relinks the order to the sorted one and keeps all integrity conditions and every bucket chain. |
| HashSort.OnePass | praxis2/include/uthash.h:1102-1180 | One pass merges neighbouring runs pairwise and reports whether one merge was enough. |
| HashSort.MergeRuns | praxis2/include/uthash.h:1121-1175 | Two runs are merged into the output without touching the links of later items. |
| HashSort.Choose | praxis2/include/uthash.h:1123-1159 | The next item is the smaller one, the first run winning ties. |
| HashSort.Advance | praxis2/include/uthash.h:1108-1119 | Steps over at most insize items and counts them. |
| HashMerge.SortIsStableSort | praxis2/include/uthash.h:1092-1191 | For every ordering the result is a permutation, ascending by the comparison function on the entries, in which equal items keep their order. |
| HashMerge.PassSorts | praxis2/include/uthash.h:1106-1177 | A pass turns sorted runs of length k into sorted runs of length 2k. |
| HashMerge.PassStable | praxis2/include/uthash.h:1106-1177 | A pass keeps the order of items that may stay in order. |
| HashMerge.MergeSorts | praxis2/include/uthash.h:1121-1175 | Merging sorted runs gives a sorted run. |
| HashMerge.MergeStable | praxis2/include/uthash.h:1139-1143 | Merging is stable. |
| HashMerge.MergePermutes | praxis2/include/uthash.h:1121-1175 | Merging loses and duplicates nothing. |
| Packets.PacketSerializeData | praxis2/src/packet.c:47-72 | The buffer holds the big-endian header, the key and the value. |
| Packets.PacketSerializeCtrl | praxis2/src/packet.c:74-96 | The buffer holds the eleven bytes of a control packet. |
| Packets.DecodeUndoesSerialize | praxis2/src/packet.c:98-194 | Decoding a serialised packet, with anything behind it, gives its travelling fields back, the address from its two halves. |
| Packets.SerializeUndoesDecode | praxis2/src/packet.c:98-194 | A decoded packet serialises to the bytes it was read from. |
| Packets.PartIncomplete | praxis2/src/packet.c:98-194 | No proper part of a serialised packet decodes to a packet. |
| Packets.IpHalvesJoin | praxis2/src/packet.c:151-167 | The upper address half of the header or-ed with the lower half of the body is the address. |
| Packets.HopsPreserve | praxis2/src/peer.c:29-53 | After any number of decode and forward hops a packet carries its original fields. |
| Packets.OverreadExactly | praxis2/src/packet.c:105-194 | For exactly which buffers packet_decode reads past the end. |
| Packets.MissingKeyIsOverread | praxis2/src/packet.c:105-114 | A bare header that announces a one byte key is read past. |
| Packets.BodySizeExactly | praxis2/src/packet.c:40-45 | The server waits for the whole body if and only if the lengths sum below 2^32. |
| PyPackets.CReadsPython | praxis2/rnvs_tb-2022_projekt2_1-py3-none-any/rnvs_tb/packet.py:96-170 | The C decoder reads back a Python packet field for field if and only if its numbers fit their fields. |
| PyPackets.PythonRoundTrip | praxis2/rnvs_tb-2022_projekt2_1-py3-none-any/rnvs_tb/packet.py:54-170 | The Python parser reads back every packet that the Python serialiser writes, of all ten methods. |
| PyPackets.MethodBitsAreFlags | praxis2/include/packet.h:6-27 | Both sides give every method the same flag bit. |
| PyPackets.KindHasItsBit | praxis2/rnvs_tb-2022_projekt2_1-py3-none-any/rnvs_tb/packet.py:180-195 | The parser takes a packet for a kind only if that kind's bit is set. |
| PyPackets.PartRaises | praxis2/rnvs_tb-2022_projekt2_1-py3-none-any/rnvs_tb/packet.py:54-170 | No proper part of a Python packet parses. |
| PyPackets.PythonReadsCData | praxis2/rnvs_tb-2022_projekt2_1-py3-none-any/rnvs_tb/packet.py:54-94 | The Python parser accepts a C data packet if and only if one method bit is set, and reads its fields. |
| PyPackets.PythonReadsCControl | praxis2/rnvs_tb-2022_projekt2_1-py3-none-any/rnvs_tb/packet.py:172-204 | The Python parser accepts every C control packet with a method bit and reads its fields. |
| PyPackets.KindsAgreeExactly | praxis2/rnvs_tb-2022_projekt2_1-py3-none-any/rnvs_tb/packet.py:180-183 | Both sides take a packet for the same kind if and only if LOOKUP and REPLY are not both set. |
| PyPackets.BigPortIsMasked | praxis2/rnvs_tb-2022_projekt2_1-py3-none-any/rnvs_tb/packet.py:136-170 | A Python LOOKUP for port 65536 reaches the C side as one for port 0. |
| PyPackets.TwoMethodsRaise | praxis2/rnvs_tb-2022_projekt2_1-py3-none-any/rnvs_tb/packet.py:72-92 | A C packet with GET and SET decodes on the C side and raises in the Python parser. |
| PyPackets.BothKindsDiffer | praxis2/rnvs_tb-2022_projekt2_1-py3-none-any/rnvs_tb/packet.py:180-183 | With both bits set, the peer sees a LOOKUP and the Python parser a REPLY. |
| RingBuffers.RingBuffer.CanRead | praxis2/src/util.c:94-101 | The number of queued bytes, also across the end of the array. |
| RingBuffers.RingBuffer.CanWrite | praxis2/src/util.c:103-109 | Capacity minus queued bytes, although rpos-1 underflows. |
| RingBuffers.RingBuffer.Write | praxis2/src/util.c:111-119 | Appends the prefix that fits and returns the space there was. |
| RingBuffers.RingBuffer.Read | praxis2/src/util.c:121-129 | Moves the oldest bytes out in order and returns how many there were. |
| RingBuffers.WindowPut | praxis2/src/util.c:114-117 | Writing at wpos appends to the window, with wraparound. |
| RingBuffers.WindowGet | praxis2/src/util.c:124-127 | Reading at rpos takes the window's first byte, with wraparound. |
| Transfer.SendAll | praxis2/src/util.c:21-32 | The bytes up to the first failing send are sent in order; the call succeeds if and only if that is all of them. |
| Transfer.RecvAll | praxis2/src/util.c:34-64 | Returns exactly the stream, through any number of buffer doublings; the buffer ends with room for a byte and at most twice as long as needed. |
| Transfer.EveryInterleaving | praxis2/src/util.c:21-64 | For every pattern of partial sends and receives and every interleaving of the two loops: what is received is a prefix of the data, and once recvall returns it is exactly what sendall sends, which is everything without a failing send. |
| Transfer.ReceiverReturns | praxis2/src/util.c:21-64 | Every interleaving can be continued until recvall returns. |
| Transfer.Exchange | praxis2/src/util.c:21-64 | The loops over a buffer and a connection do, turn by turn, what those interleavings say. |
| Transfer.RecvMore | praxis2/src/util.c:38-58 | One iteration of recvall doubles the buffer exactly if it is full, moves bytes from the stream behind what is there, and is the last one exactly at the end of the stream. |
| Framing.FragmentationIrrelevant | praxis2/src/server.c:154-201 | However a stream is cut into reads, the packets delivered and the bytes held are those of the greedy parse. |
| Framing.SameBytesSameState | praxis2/src/server.c:154-201 | Two fragmentations of the same bytes end in the same state. |
| Framing.StreamConserved | praxis2/src/server.c:60-79 | The stream is the delivered packets' bytes followed by exactly the bytes held in header, decoded fields and body. |
| Framing.StreamParses | praxis2/src/server.c:60-89 | A stream of deliverable packets is cut into exactly these packets. |
| Framing.PrefixParses | praxis2/src/server.c:154-201 | However far a stream of deliverable packets has been read, the first of them have been delivered, and what was read is their bytes followed by the bytes held. |
| Framing.DeliveredExactly | praxis2/src/server.c:180-197 | A packet's own bytes deliver it if and only if its body is not empty and its lengths do not wrap. |
| Framing.EmptyIsStuck | praxis2/src/server.c:180-197 | A GET with neither key nor value is never delivered. |
| Framing.HugeIsOverread | praxis2/src/packet.c:40-45 | For a SET whose lengths sum to 2^32 + 1 the server decodes after one byte of body and reads past it. |
| Framing.HeaderBytesInverse | praxis2/src/server.c:60-67 | The decoded header fields still determine the seven header bytes. |
| Clients.Client.ReceiveBytes | praxis2/src/server.c:160-191 | Over the ring buffers, a read does what the framing says; a body buffer exists exactly in state HDR_RECVD. |
| Clients.Client.DecodeHeader | praxis2/src/server.c:60-67 | The header moves into the packet and a body buffer of the right size appears. |
| Clients.Client.DecodeWholeBody | praxis2/src/server.c:69-79 | The body is decoded, the body buffer goes and the client is idle again. |
| Clients.Client.BytesNeeded | praxis2/src/server.c:160-182 | recv is asked for exactly the missing bytes. |
| Servers.ServerRun | praxis2/src/server.c:119-223 | For whatever poll, recv, accept and the callback do, the packets delivered are exactly those of the rounds on values, every round finds what it requires, and at the end no client is left. |
| Servers.Server.Round | praxis2/src/server.c:126-215 | One round of poll set, sweep, removal and accept leaves the table that the round on values gives, with n_clients, links and buffers sound for the next round. |
| Servers.Server.SweepAndReap | praxis2/src/server.c:154-211 | The visits and the loop after them leave exactly the clients that remain, each holding what its read left. |
| Servers.Server.Sweep | praxis2/src/server.c:154-201 | Every visited client is read through its own poll entry despite removals; visited clients, the remaining list, its count, the delivered packets, the marks and every held byte are exactly determined. |
| Servers.Server.Visit | praxis2/src/server.c:157-200 | One visit changes its own client as the framing says, marks the sockets its callback closed and removes the client exactly if it closed or was not kept. |
| Servers.Server.Deliver | praxis2/src/server.c:81-89 | The callback's closings are marked and its verdict is followed. |
| Servers.Server.PollSet | praxis2/src/server.c:127-141 | The poll entry of each client holds its socket. |
| Servers.Server.Reap | praxis2/src/server.c:203-211 | After the sweep exactly the marked clients are removed. |
| Servers.Server.RemoveClient | praxis2/src/server.c:23-58 | The list without the client is well linked and n_clients is its length. |
| Servers.Server.CloseSocket | praxis2/src/server.c:14-21 | Exactly the client with that socket is marked. |
| Servers.Server.AddClient | praxis2/src/server.c:91-107 | A fresh idle client with buffers of its own stands in front of the list, and all clients stay sound. |
| Servers.Server.Stop | praxis2/src/server.c:109-117 | Stopping removes every client. |
| Servers.Server.constructor | praxis2/src/server.c:261-272 | A new server has no clients. |
| Rounds.PutOffBound | praxis2/src/server.c:155-156 | Every removal puts off at most one client to the next round. |
| Rounds.LeavesExactly | praxis2/src/server.c:165-197 | A client is removed during its visit exactly if the visit closes its connection. |
| Rounds.ClosedExactly | praxis2/src/server.c:14-21 | A socket counts as closed exactly if a callback that was called asked for it. |
| Rounds.AllVisitedExactly | praxis2/src/server.c:155-156 | A round visits every client if and only if none but the last one leaves during its visit. |
| Rounds.ReadyClientSkipped | praxis2/src/server.c:155-156 | A round of two ready clients in which the first closes and the second is not read. |
| Streams.EveryStreamParsed | praxis2/src/server.c:126-215 | However reads, callbacks, removals and new connections interleave over any number of rounds: every connection, whether it has left or is still open, has delivered exactly the greedy parse of the bytes read from it, and what the log has from a socket is what its connections delivered, one after the other. |
| Streams.ServerHistory | praxis2/src/server.c:119-223 | The same from the start of the server, for every connection it ever had and every packet it ever delivered. |
| Processes.HandlerCallback | praxis2/src/peer.c:225-254 | As a callback, the peer closes exactly the sockets of the requests that a reply releases, in order, and keeps a client exactly when it parks its request. |
| Processes.HandlerParks | praxis2/src/peer.c:193-254 | Handling a packet parks no client but its own, and closes only clients that were parked and no longer are. |
| Processes.DrivenIsLegal | praxis2/src/server.c:179-180 | If parked clients wait, no callback of the peer closes a client that then has data ready. |
| Processes.RoundKeepsProcess | praxis2/src/server.c:154-215 | A round leaves every parked request with its client connected, and no client parked for two hashes. |
| Processes.ProcessRuns | praxis2/src/peer.c:266-272 | In every run of a process whose parked clients wait, the rounds are legal, the peer's state is that of its handlers folded over the packets cut out of the streams, and every parked request still has its client connected. |
| Processes.OrphansExactly | praxis2/src/server.c:23-58 | With parked clients that may close: a round keeps every parked request with its client connected if and only if each parked client that closes is released by a reply later in the round. |
| Processes.ParkedClientOrphaned | praxis2/src/server.c:23-58 | A round in which a parked client closes and its request stays behind. |
| RingProcesses.ProcessInRing | praxis2/src/peer.c:266-272 | In every run of the ring each peer is in the state of its handlers on the packets that reach it, so a process whose server cuts these out of its streams, over any rounds, ends in the state that the ring has for its peer. |
| RingProcesses.RunNodes | praxis2/src/peer.c:193-254 | What a peer does in the ring machine, proxied requests included, is its handlers folded over its packets, unless a packet could not be handed over. |
| Rounds.StayersTwice | praxis2/src/server.c:154-211 | Removing some clients during the visits and the marked ones afterwards is removing both at once. |

## Left out

- Liveness of blocking proxies: `proxy_request` is one atomic step, so peers that proxy to each other in a cycle and wait for ever are not modelled.
- Sockets, poll, name resolution and descriptor reuse; addresses are opaque (ip, port) pairs, so `peer_connect` and `peer_get_ip` are not part of the model.
- Errors of `recv` in `recvall` (the result -1 is stored unsigned and moves the write pointer back), failing `accept` and failing `connect`.
- The stored `int bytes_needed` of `server_run` for bodies of 2^31 bytes and more.
- Memory management: allocation failures, leaks and frees; a freed item or table is simply no longer reachable. `packet_dup` is the identity on values.
- Peers.Peer.ProxyRequest: relaying the target's answer to the client is not in its contract but in `RingMachine.Perform`, which runs the request at the target and records the bytes it answers, because a method cannot call another process.
- Requests.RTable.ClearRequests: the freeing walk over the dropped list is not modelled, because nothing can observe it.
- UtHash.Table.AddKeyptr: counters do not wrap at 2^32, because a table of that size does not fit into memory.
- Purging of parked requests when their client disconnects: the code does not do it (`OrphansExactly` says when that leaves a request behind); runs of whole processes take clients that wait for their answer.
- RingProcesses.ProcessInRing: relates states, not the sockets between processes; that the packets one process sends are those that the next one cuts out is `RingMachine.OverWire` and the assumption on connections.
- Control packets from clients, and JOIN, NOTIFY, STABILIZE, FINGER and FACK packets, which the peer ignores.
- The Bloom filter, out-of-memory, INORDER and HASH_SELECT variants of uthash, its other hash functions, and the bits of HASH_JEN.
- `client.c`, `scratch1.c`, the NTP packets of `packet.py`, the test harness, and praxis1.
