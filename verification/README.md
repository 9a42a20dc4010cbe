# A verified model of the ssh tools' transport, lists, hash table and sessions

This Dafny project models the protocol and data-structure code of the repository and proves what it promises,
and where it does not keep a promise, exactly when it does.

* `RudpTypes`, `RudpCalls`: the wire format, and `rudp_send`, `rudp_recv` and `rudp_close` over datagrams. Each call
  is given as a small-step machine and as the C loop over the outcomes of its system calls; the loops are proved to do
  what the machines do.
* `RudpOutcomes`, `RudpHandshakeOutcomes`: how each of these calls, and of `rudp_connect` and `rudp_accept`, ends, told
  from the outcomes of its system calls alone: result, counters, addresses and datagrams, by the first attempt that
  does not go round.
* `RudpDataPhase`, `RudpDelivery`: one direction of a connection over a network that keeps every datagram ever sent
  and may deliver any of them at any time, or never; a `Link` says whether third hosts reach either endpoint. The
  receiver's counter is always a boundary of the sender's byte tiling, or stuck for ever inside one message. From this
  follow the absence of false success, the prefix property of fresh deliveries, the ordering of FIN, what a FIN can
  overtake, and when the result 0 of `rudp_recv` means a FIN.
* `RudpRefinement`: every run of that system is two sequences of whole C calls. The system calls of each side are
  recorded call by call, in between those of the other side, and what the calls return, accept and put on the wire is
  what the functions proved of the C loops say of these records.
* `RudpFifo`: the same over a lossy channel that keeps order; retransmission then shows only as stuttering.
* `RudpHandshake`, `RudpHandshakeRefinement`: `rudp_connect` and `rudp_accept` on a two-host network; every play of
  the handshake is made of whole C calls.
* `RudpSession`: the passage into the data phase. What is still in flight then is exactly the confirmation, or the
  offer. Such a stray has the sequence number and size of an empty first message: between the two hosts a success can
  be false if and only if the first message is empty, and the stray can make `rudp_recv` return 0 before anything has
  been sent. A third host that reaches `rudp_recv`, which looks at no address, can always fake one.
* `RudpMirror`, `RudpLossFree`: two endpoints that take turns over a loss-free channel keep mirrored counters, through
  both FINs; and without losses the handshake always leads to where that system starts.
* `PlistRing`: the intrusive circular list, on node objects with explicit frames.
* `LinearList`, `HashTable`, `MurmurHash`: the head/tail/size list, the chained table over it as one queue per key,
  and the hash function on 32-bit words.
* `Keystream`, `SshLoops`, `SshSession`: one RC4 state for both directions of a session, the two message loops that
  use it, and the two loops at work with each other. A schedule is safe for every keystream if and only if the sides
  take turns.
* `FileCopy`: the sending and receiving loops of a file copy, under every chunking and interleaving.
* `Basics`: what several of these need of bytes and sequences.

Conventions: a `sendto` puts its datagram on the wire exactly when it returns the full size; every other outcome,
including a stale `EAGAIN` left in `errno`, is a free choice of the environment, as are the results of the socket
options. What comes from an endpoint's address was sent by it; a third host that reaches an endpoint may send anything
from elsewhere. Unless a row says otherwise, no third host reaches `rudp_recv`, and none reaches a `rudp_send` to the
wildcard address. `null` stands for the poison pointers of the circular list. The header size is that of a 64-bit
target.

Where the code and its names disagree, the model follows the code. `plist_swap` of two nodes that are the whole ring
breaks it, as it does between two rings when one of the entries is alone; `plist_replace` of a lone head leaves the
old head linked: the contracts say "if and only if". `hashtable_get_value` hashes the address of its argument, and
`GetPeeksIff` says when it still finds the key. `rudp_close` in step 2 returns before the descriptor is closed, and
unlike `rudp_send` it advances the counter only after its socket options have succeeded. After a failed
acknowledgement `rudp_connect` dials again with the ACK in its buffer instead of the SYN. `rudp_recv` takes a datagram
from any host, and `rudp_send` to the wildcard address an acknowledgement from any host at the port: `FalseSuccessIff`
says what that costs.

## Model

| member | source | states |
|---|---|---|
| `RudpCalls.SendSucceedsIff` | src/rudp/rudp.c:200-248 | a call succeeds if and only if some attempt is acknowledged after attempts that all retry and the timeout is restored; then the packet has left the host |
| `RudpCalls.RecvSucceedsIff` | src/rudp/rudp.c:85-145 | a call returns without an error if and only if some attempt receives and answers after attempts that all retry; it returns 0 once any of them saw a FIN, and otherwise the bytes of the last datagram that fit |
| `RudpCalls.SendLoop` | src/rudp/rudp.c:198-241 | the retry loop ends as the sending machine does and puts the same copies on the wire |
| `RudpCalls.RecvLoop` | src/rudp/rudp.c:81-133 | the receiving loop ends as the receiving machine does, with the received bytes at the front of its reused buffer |
| `RudpCalls.Control.Send` | src/rudp/rudp.c:171-248 | the counter advances by payload and header before sending, also when the call fails later; result and datagrams are those of the machine |
| `RudpCalls.Control.Recv` | src/rudp/rudp.c:73-146 | result, acknowledgement number and answers are those of the machine; the caller's buffer is overwritten as a whole when data is handed up, every byte of it with that of the last datagram of the call which reaches its position, or 0 when none does, and is untouched on an error and after a FIN |
| `RudpCalls.Control.Close` | src/rudp/rudp.c:532-619 | steps 1 and 2 send a FIN, advancing the counter once the socket options have succeeded, and leave the descriptor open; step 3 closes it |
| `RudpOutcomes.SendEnds` | src/rudp/rudp.c:181-248 | which failures end rudp_send, and the loop of rudp_close, at once, which make it go round and which answer ends it with success, over the outcomes of the system calls; the code of each cause, and a copy of the packet for each attempt that sends all of it |
| `RudpOutcomes.RecvEnds` | src/rudp/rudp.c:81-146 | likewise rudp_recv: its result and the bytes handed up, the acknowledgement number as it advances over what comes in, and the one acknowledgement that leaves |
| `RudpHandshakeOutcomes.ConnectEnds` | src/rudp/rudp.c:441-513 | likewise rudp_connect: which datagrams it takes for an offer, what it dials with and confirms, the control block, the recorded address, and the code of each cause |
| `RudpHandshakeOutcomes.AcceptEnds` | src/rudp/rudp.c:297-388 | likewise rudp_accept: it accepts if and only if the first attempt that does not listen again gets its own client's answer; the port, client, control block and offers then, and otherwise the code of the cause, or that of three vain attempts |
| `RudpRefinement.RunIsSends` | src/rudp/rudp.c:179-248 | in every run, with the receiver and the network acting in between, each sending call that returned has the result and the datagrams proved of the loop for the system calls the run made in it, begins where the calls before it left the counter, and nothing else is on the wire |
| `RudpRefinement.RunIsReceives` | src/rudp/rudp.c:81-146 | likewise the receiving calls: each starts with the acknowledgement number that the one before it left, the log is what those returned that did not fail, and the acknowledgements on the wire are theirs |
| `RudpDataPhase.NoFalseSuccess` | src/rudp/rudp.c:98-241 | whenever a call reported success for message k, the receiver has advanced over messages 0..k, whole, once each and in order, whatever was lost, duplicated, reordered or truncated |
| `RudpDataPhase.AcknowledgedAll` | src/rudp/rudp.c:226-231 | a receiver whose counter has reached the sender's has accepted everything, whole and in order |
| `RudpDataPhase.AcceptedIsNext` | src/rudp/rudp.c:98-101 | only the next message of the tiling can advance the counter, or a stray before the first; a receiver stuck inside a message never advances again |
| `RudpDataPhase.RunInv` | src/rudp/rudp.c:98-241 | every run keeps the tiling invariant |
| `RudpDelivery.FreshDeliveriesArePrefix` | src/rudp/rudp.c:98-140 | the calls at which the counter advanced handed up a prefix of what was sent, or one left-over handshake datagram and nothing else; every call handed up a whole copy of something sent or left over, or 0 for a FIN |
| `RudpDelivery.FreshIffNext` | src/rudp/rudp.c:98-145 | a returned call is fresh if and only if the fresh ones before it are exactly all earlier messages |
| `RudpDelivery.DeliveriesAreCopies` | src/rudp/rudp.c:135-140 | even with failing acknowledgements and small buffers, what is handed up is the front of something sent or in flight from the start |
| `RudpDelivery.ConfirmedFinIsLast` | src/rudp/rudp.c:552-603 | when rudp_close returned 0, the peer had accepted the FIN and, before it, every earlier message whole and in order |
| `RudpDelivery.FinCallReturnsZero` | src/rudp/rudp.c:103-145 | and the receiving call that accepted the FIN returned 0, after calls that delivered everything before it |
| `RudpDelivery.ZeroMeans` | src/rudp/rudp.c:135-145 | a call returns 0 if and only if it received a FIN or an empty datagram |
| `RudpDelivery.ZeroMeansFinIff` | src/ssh_client/ssh_client.c:398-412 | 0 means a FIN, as the callers take it, in all runs without empty messages if and only if no handshake datagram is left over |
| `RudpDelivery.ConfirmedComesFirst` | src/rudp/rudp.c:98-231 | when the call before it reported success, a message, and a FIN in particular, is handed up only behind all messages before it |
| `RudpDelivery.EarlyFin` | src/rudp/rudp.c:103-106 | a run in which the FIN overtakes a datagram that was sent and timed out, and ends a receiving call with 0 although nothing was accepted |
| `RudpFifo.StutteringDelivery` | src/rudp/rudp.c:85-140 | over a lossy ordered channel, in which handshake datagrams may still be queued, after k successes the returned datagrams with repetitions collapsed begin with exactly messages 0..k, and are exactly the sent ones if no more was begun |
| `RudpHandshake.Connect` | src/rudp/rudp.c:425-513 | the loop ends as the connecting machine does: control block, buffer, recorded address, result and datagrams |
| `RudpHandshake.Accept` | src/rudp/rudp.c:288-388 | the loop ends as the accepting machine does: control block, client, port or code, and offers |
| `RudpHandshakeRefinement.PlayIsConnect` | src/rudp/rudp.c:425-513 | in every play of the handshake, with the server acting in between, the client's moves are one rudp_connect: its result, control block, recorded address and datagrams are those proved of the loop for the system calls of the play |
| `RudpHandshakeRefinement.PlayIsAccepts` | src/rudp/rudp.c:288-388 | likewise the server's moves are rudp_accept calls, each with the control block that the one before it left; sessions and offers are theirs |
| `RudpHandshake.HandshakeAgreement` | src/rudp/rudp.c:300-504 | if accept reaches its success break on a port, that port is the address the client recorded, both control blocks hold the header size twice, and no other port is ever accepted |
| `RudpSession.HandshakeEstablishes` | src/rudp/rudp.c:317-504 | an established session starts the data phase in both directions, with exactly the confirmation, or exactly the offer, in flight to the receiver |
| `RudpSession.SessionSafety` | src/rudp/rudp.c:98-241 | as long as no third host reaches its receiver, every established session is free of false success in the direction that sends first, if its first message is not empty |
| `RudpSession.SessionDelivery` | src/rudp/rudp.c:98-140 | what such a session hands up is a prefix of what was sent, or the left-over handshake datagram alone |
| `RudpSession.FalseSuccessIff` | src/rudp/rudp.c:87-229 | a false success is possible if and only if a third host reaches the receiver, or one reaches the sender that uses the wildcard address, or a handshake datagram is in flight to the receiver and the first message is empty |
| `RudpSession.SessionExactness` | src/rudp/rudp.c:87-504 | in every established session and either direction, a false success is possible if and only if a third host reaches the receiver or the first message is empty |
| `RudpSession.SessionFalseEnd` | src/rudp/rudp.c:135-140 | in every established session and either direction, rudp_recv can return 0 before anything has been sent |
| `RudpSession.StrayFakesSuccess` | src/rudp/rudp.c:98-112 | the run in which a stray fakes a success |
| `RudpSession.StrangerFakesSuccess` | src/rudp/rudp.c:226-229 | the run in which another host acknowledges what is sent to the wildcard address |
| `RudpSession.ForgerFakesSuccess` | src/rudp/rudp.c:87-112 | the run in which another host slips the receiver a message of the same length |
| `RudpSession.FinOvertakesIff` | src/rudp/rudp.c:98-145 | a FIN can be handed up before all earlier messages have been accepted if and only if the call before rudp_close did not report success, or a left-over handshake datagram can have faked it |
| `RudpSession.SessionFinOrder` | src/rudp/rudp.c:98-145 | in every established session: if and only if that call did not report success or the first message is empty |
| `RudpLossFree.LossFreeHandshake` | src/rudp/rudp.c:300-504 | over a loss-free ordered channel, in every interleaving, connect and accept succeed when they return and agree on the address, have returned after exactly six events, and leave the endpoints where their transfers lead from the start of the mirrored system |
| `RudpLossFree.HandshakeGoesOn` | src/rudp/rudp.c:300-504 | until both calls have returned, one of them can go on |
| `RudpLossFree.MirroredFromHandshake` | src/rudp/rudp.c:98-588 | so the mirror invariant holds from the handshake through both FINs |
| `RudpMirror.MirrorInvariant` | src/rudp/rudp.c:98-588 | between transfers each counter equals its peer's, each side has handled exactly what the other sent, and every call succeeded at its first attempt |
| `PlistRing.InitHead` | class_tasks/task_3_list/list.h:19-23 | a ring of one |
| `PlistRing.Add` | class_tasks/task_3_list/list.h:25-31 | between neighbours of a ring it inserts there; the four links it writes hold for any arguments, as far as they are different fields |
| `PlistRing.AddHead` | class_tasks/task_3_list/list.h:33-36 | inserts behind the given node |
| `PlistRing.AddTail` | class_tasks/task_3_list/list.h:38-41 | appends at the end of the head's ring |
| `PlistRing.DelEntry` | class_tasks/task_3_list/list.h:43-47 | the ring without the item, whose own links stay; a lone node keeps its ring |
| `PlistRing.Del` | class_tasks/task_3_list/list.h:49-54 | the ring without the item, which is poisoned |
| `PlistRing.Replace` | class_tasks/task_3_list/list.h:56-62 | the new item takes the position if and only if the old one is not alone; else both end up in one ring |
| `PlistRing.ReplaceInit` | class_tasks/task_3_list/list.h:64-68 | likewise, with the old item in a ring of its own |
| `PlistRing.DelInit` | class_tasks/task_3_list/list.h:82-86 | the ring without the item, and the item in a ring of its own |
| `PlistRing.SwapEntries` | class_tasks/task_3_list/list.h:70-80 | exactly the two positions are exchanged: in one ring, adjacent or not, head or not, if and only if it has a third node; between two rings if and only if neither entry is alone |
| `PlistRing.SwapTwice` | class_tasks/task_3_list/list.h:70-80 | swapping twice restores every link |
| `PlistRing.MoveAdd` | class_tasks/task_3_list/list.h:88-92 | the item moves to the front of its own or another ring, and both rings stay well formed |
| `PlistRing.MoveTail` | class_tasks/task_3_list/list.h:94-98 | the item moves to the end of its own or another ring, and both rings stay well formed |
| `PlistRing.CutRange` | class_tasks/task_3_list/list.h:102-103 | closing the ring behind a range leaves the rest, if any, a ring and the range a chain |
| `PlistRing.SpliceTail` | class_tasks/task_3_list/list.h:105-109 | a chain is appended to the head's ring |
| `PlistRing.BulkMoveTail` | class_tasks/task_3_list/list.h:100-110 | a range moves to the end of its own ring or of another, all of which it may be; what remains stays well formed and only the nodes of the two rings change |
| `PlistRing.BulkMovedKeeps` | class_tasks/task_3_list/list.h:100-110 | no node is lost or duplicated |
| `PlistRing.RotateLeft` | class_tasks/task_3_list/list.h:137-146 | the items rotate by one around the head |
| `PlistRing.RotateRestores` | class_tasks/task_3_list/list.h:137-146 | k rotations bring the first k items to the end, and as many as there are items restore the ring |
| `PlistRing.PredicatesOfRing` | class_tasks/task_3_list/list.h:112-135 | what the five predicates and plist_is_singular say of each position |
| `PlistRing.ForEach` | class_tasks/task_3_list/list.h:173-174 | ends, having visited each item once and in order |
| `PlistRing.ForEachPrev` | class_tasks/task_3_list/list.h:176-177 | ends, having visited each item once and in reverse order |
| `LinearList.List.FindElement` | src/hashtable/list_pointer.hpp:62-74 | lookup at the position clamped to 1..size |
| `LinearList.List.FindValue` | src/hashtable/list_pointer.hpp:76-93 | the first element with the key, or null |
| `LinearList.List.InsertFirst` | src/hashtable/list_pointer.hpp:95-112 | a list of just the new element |
| `LinearList.List.InsertBefore` | src/hashtable/list_pointer.hpp:114-142 | inserts before the clamped position wherever the code follows no null link |
| `LinearList.List.InsertAfter` | src/hashtable/list_pointer.hpp:144-172 | inserts behind the clamped position wherever the code follows no null link |
| `LinearList.List.InsertBegin` | src/hashtable/list_pointer.hpp:174-197 | inserts at the front |
| `LinearList.List.InsertEnd` | src/hashtable/list_pointer.hpp:199-222 | appends |
| `LinearList.List.DeleteElement` | src/hashtable/list_pointer.hpp:224-265 | removes the clamped position |
| `LinearList.List.Delete` | src/hashtable/list_pointer.hpp:267-307 | removes exactly the given element, in the head, tail, middle and singleton case, and poisons it |
| `LinearList.List.Unlink` | src/hashtable/list_pointer.hpp:271-293 | the four cases restore head, tail and both link directions |
| `LinearList.List.Clear` | src/hashtable/list_pointer.hpp:32-60 | empties the list and frees every element exactly once, from the tail on |
| `HashTable.HashTable.constructor` | src/hashtable/hashtable.hpp:9-18 | a table of empty buckets |
| `HashTable.Construct` | src/hashtable/hashtable.hpp:3-19 | a result of 1 and no table without a hash function, and otherwise 0 and a table of empty buckets |
| `HashTable.HashTable.GetValue` | src/hashtable/hashtable.hpp:39-48 | looks for the key in the bucket that the hash of the argument's address selects; ReachableLookup says when that finds it |
| `HashTable.HashTable.SetValue` | src/hashtable/hashtable.hpp:50-59 | appends to the bucket of the key and changes nothing else; without buckets it does nothing |
| `HashTable.HashTable.Remove` | src/hashtable/hashtable.hpp:61-67 | removes the first entry of a present key and changes nothing else |
| `HashTable.HashTable.Clear` | src/hashtable/hashtable.hpp:69-77 | empties every bucket |
| `HashTable.Table.SetEnqueues` | src/hashtable/hashtable.hpp:50-59 | set enqueues at the back of its key's queue, leaves other queues alone, and keeps entries in their buckets |
| `HashTable.Table.RemoveDequeues` | src/hashtable/hashtable.hpp:61-67 | remove pops the front of its key's queue, leaves other queues alone, and keeps entries in their buckets |
| `HashTable.Table.GetPeeksIff` | src/hashtable/hashtable.hpp:39-48 | lookup returns the front of the queue if and only if the address hash selects the key's bucket, or the key is absent, or its front is the poison |
| `HashTable.Table.ByRemainder` | src/hashtable/hashtable.hpp:45-66 | set appends to the bucket numbered by the hash modulo the size, remove takes the first entry of the key out of it, and a table is well placed if and only if every entry is in that bucket of its key |
| `HashTable.ReachableLookup` | src/hashtable/hashtable.hpp:39-77 | after any legal calls every entry is in the bucket numbered by the hash of its key modulo the size, and a lookup answers with the front of the queue that the calls have built if and only if the two hashes agree modulo the size, or the key is absent, or its front is the poison |
| `HashTable.QueueFront` | src/hashtable/list_pointer.hpp:76-93 | what the search finds is the front of the key's queue |
| `HashTable.SizeAndHashAreMoot` | src/hashtable/hashtable.hpp:39-77 | two non-empty tables of any sizes and hash functions answer alike after the same calls |
| `HashTable.MurmurTableServes` | src/hashtable/hashtable.hpp:39-127 | with MurmurHash2 as hash function the table serves one queue per key |
| `MurmurHash.MurmurHash2` | src/hashtable/hashtable.hpp:81-128 | the loop and the fall-through switch compute the hash that the theorems are about |
| `MurmurHash.HashLeadsBack` | src/hashtable/hashtable.hpp:83-127 | the hash of every key leads back, by explicit inverse steps over the tail and the blocks from the last to the first, to the length of the key modulo 2^32 |
| `MurmurHash.NearKeysSeparate` | src/hashtable/hashtable.hpp:85-127 | keys of equal length that differ only inside one aligned block, or only inside the tail, never hash alike |
| `MurmurHash.ShortKeysNeverCollide` | src/hashtable/hashtable.hpp:85-127 | keys of equal length up to four bytes collide only if equal |
| `MurmurHash.RoundInjective` | src/hashtable/hashtable.hpp:101-106 | a round is invertible in the state and in the block |
| `MurmurHash.TailInjective` | src/hashtable/hashtable.hpp:112-121 | the tail is invertible in the state and in the bytes |
| `MurmurHash.FinishInjective` | src/hashtable/hashtable.hpp:123-125 | so is the final mix |
| `Keystream.Rc4.Apply` | src/ssh_client/ssh_client.c:348-355 | the output is the input against the keystream from the old position, which advances by the length |
| `Keystream.KeystreamConservation` | src/ssh_client/ssh_client.c:414-451 | client position minus server position is bytes in flight to the server minus bytes in flight to the client, in every reachable state |
| `Keystream.ByteArrivesIff` | src/ssh_server/ssh_server.c:256-285 | a byte arrives as sent if and only if the keystream agrees at the two positions used for it |
| `Keystream.TurnTakingIsFaithful` | src/ssh_server/ssh_server.c:245-287 | in runs that take turns, every plaintext received is the one sent |
| `Keystream.TurnsIffPositionsAgree` | src/ssh_server/ssh_server.c:245-287 | a run that ends with nothing in flight takes turns if and only if every byte was decrypted at the position where it was encrypted |
| `Keystream.FaithfulIffTurns` | src/ssh_server/ssh_server.c:245-287 | such a run delivers every plaintext intact for every keystream if and only if each side sends only when it has received all that was sent to it |
| `Keystream.CrossingMessages` | src/ssh_server/ssh_server.c:245-287 | a run in which one byte each way crosses: both arrive intact if and only if the first two keystream bytes are equal |
| `SshLoops.ClientLoop` | src/ssh_client/ssh_client.c:367-481 | what the client's loop sends and shows, and where it leaves the keystream, for any sequence of poll results up to a failed receive; ClientEvent and ClientStops spell it out |
| `SshLoops.ServerLoop` | src/ssh_server/ssh_server.c:238-303 | likewise for the server's loop |
| `SshLoops.ClientEvent` | src/ssh_client/ssh_client.c:369-480 | what one event makes of the client's loop, by what the socket and then the terminal yield: bytes shown and sent, position, first byte of the buffer, and how the loop is left for each cause |
| `SshLoops.ServerEvent` | src/ssh_server/ssh_server.c:240-301 | likewise the server's, whose terminal comes first |
| `SshLoops.ClientStops` | src/ssh_client/ssh_client.c:367-481 | the loop runs up to the first event that is a failed poll, a closed or failed socket, a failed read or Ctrl-D at the front of the buffer, and nothing behind it counts |
| `SshLoops.ServerStops` | src/ssh_server/ssh_server.c:238-302 | likewise up to the first failed poll or lost shell, failed read, or closed or failed socket |
| `SshLoops.PositionCountsBytes` | src/ssh_server/ssh_server.c:245-287 | over a whole loop the position advances by exactly the bytes sent and received |
| `SshSession.LoopsAreSession` | src/ssh_server/ssh_server.c:238-303 | the two loops, fed in order and in any pieces from what the other has sent and interleaved half pass by half pass, are a run of a session: positions, plaintexts and bytes in flight agree, and each loop is the one proved of ClientLoop or ServerLoop |
| `SshSession.LoopsConserve` | src/ssh_client/ssh_client.c:414-451 | conservation for the two loops |
| `SshSession.LoopsFaithful` | src/ssh_client/ssh_client.c:367-481 | when they take turns, each side shows what the other's user typed |
| `SshSession.LoopsTurnsIff` | src/ssh_client/ssh_client.c:367-481 | and only then: with nothing in flight at the end, they have taken turns if and only if every byte was decrypted where it was encrypted |
| `SshSession.Login` | src/ssh_server/ssh_server.c:183-186 | the loops begin after the user name, of which the server may have received only a part |
| `FileCopy.CopyCorrect` | src/ssh_server/ssh_server.c:665-693 | in every interleaving and chunking the file is the beginning of the source, and all of it when the server's loop ends; it ends on the client's close exactly for the empty file |
| `FileCopy.StepsComeToAnEnd` | src/ssh_client/ssh_client.c:620-654 | the remaining bytes decrease with every step |
| `FileCopy.CopyEnds` | src/ssh_server/ssh_server.c:665-693 | every run has at most twice as many steps as there are bytes, and two; one that cannot be extended has left both loops and copied the file |
| `FileCopy.NeverStuck` | src/ssh_client/ssh_client.c:620-654 | some step is possible until both loops have ended |
| `FileCopy.SendFile` | src/ssh_client/ssh_client.c:620-654 | the loop is left if and only if some read ends exactly at header.size, having sent that much of the source; it is for a source of that size, never for a shorter one, and otherwise goes on without sending |
| `FileCopy.ReceiveFile` | src/ssh_server/ssh_server.c:665-693 | the loop is left by its break if and only if some receive ends exactly at header.size, having written that much, and otherwise by the client's close, having written everything |
| `FileCopy.CopyFile` | src/ssh_server/ssh_server.c:665-693 | the two loops together copy the file |

## Left out

- RudpCalls.Control.Send: counters and sizes are natural numbers, so the wrap-around of size_t is not modelled.
- RudpCalls.Control.Recv: datagrams shorter than a header, which no call of this library sends, are not modelled.
- RudpDataPhase.NoFalseSuccess: a short sendto puts nothing on the wire, as a datagram socket never splits a datagram.
- RudpRefinement.RunIsSends: a rudp_close that fails in its socket options changes nothing, and is no event of a run.
- RudpHandshake.Accept: the fork after the success break and the closing of sockets are not modelled.
- LinearList.List.Delete: free is the end of an element's use in the list; reuse of its memory is not modelled.
- LinearList.List.InsertEnd: allocation is taken to succeed, as the code does except in the first insertion.
- HashTable.HashTable.GetValue: the hash of the argument's address is an arbitrary parameter, since it depends on the bytes of a stack address.
- HashTable.HashTable.SetValue: keys are values; a caller that changes the string behind a stored pointer is not modelled.
- MurmurHash.MurmurHash2: the key is the byte sequence that strlen measures.
- SshLoops.ClientLoop: behind a failed receive nothing is said, because the loop passes its negative code to RC4 as a length, which has no defined effect; partial sends are excluded.
- SshLoops.ServerLoop: likewise.
- SshSession.LoopsAreSession: the stream does not fail.
- The TCP branches of the RUDP calls, sockets, timeouts in seconds, signals and poll timing: only their outcomes appear.
- Exactly-once delivery, full-duplex safety over a duplicating network and liveness of RUDP: the code does not provide them.
- src/rudp/security.c: calls into OpenSSL whose bodies are not visible; RC4 is an arbitrary keystream.
- The destructors, list_pointer_graph, print_key_value and the container_of macros: no property beyond those above.
- The authentication conversation before the file data: it depends on signal races and message boundaries.
- Pseudo-terminals, PAM, the daemon, the controller, broadcast discovery and the other class tasks: input and output only.
