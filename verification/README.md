# A verified model of skynet's runtime and libraries

This project models, in Dafny, the parts of a skynet game server in which a fast,
concurrent or incremental form has to agree with a simple one, and proves that it does.
Each module takes the form of the code it models: classes with fields changed in place
where the C code works on structs and buffers, state machines where threads interleave,
functions and lemmas for what the code is meant to compute.

| modules | what they model | main results |
|---|---|---|
| `TimingWheel` | the five-level timer wheel over a wrapping 32-bit clock | the wheel is a stable priority queue, in every run (`Run`, `ExactlyOnce`) |
| `Words`, `Cursor`, `Dict` | the incrementally rehashed hash table and its stateless scan cursor | two tables are one map; a scan misses nothing while the table grows (`ScanAll`), and exactly when it can while it shrinks (`MissesNothing`) |
| `Scheduler`, `SchedulerRuns`, `MessageQueue` | queues of messages, the global queue of queues, worker threads, reference counts | no lost wakeup, no two workers in one service, no use of a freed queue, messages called with in the order pushed, in every run (`RunInv`, `Delivered`); the exact condition for the two uses of a context without a reference (`LateUse`) |
| `TcpLists`, `TcpSpec`, `TcpRuns`, `TcpLaws`, `TcpSocket` | write lists of two priorities, direct writes by workers, the closing states of a connection | each priority in order, one SOCKET_CLOSE, and exactly when whole packages are back to back on the wire, in every interleaving (`Life`) |
| `Multiword`, `Bigint`, `BigDivision` | the multiword integers behind number printing | carries, borrows, the one-correction quotient, decimal digits (`Quorem`, `Digits`) |
| `RedBlack`, `Entries`, `RbMemory`, `RbTree`, `Conhash` | a red-black tree with parent pointers and consistent hashing over it | insert and delete change the in-order sequence by one node and keep all red-black properties; adding or deleting a server moves only its own lookups (`LookupAroundAdd`, `LookupAroundDelete`) |
| `StringHash`, `Sharedata` | a Lua table frozen into an exact-fit chained hash | every slot is filled, lookup is the source table, a traversal lists every key once |
| `Seri`, `SeriFormat`, `SeriBlocks` | the serializer of Lua values | the bytes of every value (`PackedIs`); unpack undoes pack, over a list of 128-byte blocks and within the depth limit (`PackUnpack`) |
| `Frames`, `Netpack` | reassembly of length-prefixed packages from many sockets | any split of any streams gives the packages of each stream (`Run`), in order exactly when none overtakes (`OrderIff`) |
| `Des`, `DesTables`, `DiffieHellman` | DES with padding, the 64-bit key exchange | the wiring is that of FIPS 46-3; decoding undoes encoding; both sides derive the same secret |
| `RwLock` | the spinning readers-writer lock | exclusion and an exact reader count, in every run |

`Basics` holds what several modules share.

What is open to the environment is a parameter and quantified over: results of `read` and
`write`, the order in which threads move, callbacks, what `malloc` leaves in memory, hash
functions, the substitution boxes and the key schedule of DES, the order in which a Lua
table is traversed.

How the model reads the code:

- Bit tests on 32-bit times and words are written with `/` and `%` by powers of two; a
  shifted word "or" the bits shifted in is their sum, since they do not overlap. Hashes and
  cursors of the dictionary are sequences of 64 bits. The DES permutations and the string
  hash use 32-bit vectors.
- One step of a thread is one section under a lock or one atomic operation. In the scheduler
  a handle is not reused while its old queue lives, registration at line 155 of
  skynet_server.c and the creation of the queue at line 156 are one step (an assumption: in
  the code another thread may find the handle before the queue is there), and calls made from
  a callback are made by other threads of the model. A worker that finds a socket's lock taken
  waits, which the model shows as `Blocked`.
- After a successful launch skynet_server.c gives up its reference at line 164, stores to the
  context at 166 and reads it at 170. A service retired in between is deleted by then:
  `StoreAfterDeletion` and `ReportAfterDeletion` are such runs, `LateUse` the exact condition.
- `force_close` frees both write lists before it takes the socket's lock and stores the type
  only under it. The model has the two halves as two sections, with workers free to write in
  between. If the dropped head was begun, such a direct write stands behind the first bytes of
  a package that never ends (`TornWire`); `Life` states that this is the only way in which
  packages are not back to back. `close_socket` also decides that nothing is left to send
  before it has the lock, so the rest of a direct write under way is lost (`LostRest`): exactly
  when such a write ends before the lock is taken and the descriptor does not take all of it
  (`LostIff`), so never when none is under way and none begins (`NoneLost`).
- The comment before `dictScan` promises that no element is missed when the table shrinks. While
  entries move to a smaller table, the inner loop starts at the bits that the cursor has above
  the smaller mask and does not visit the expansions below them. `MissesNothing` says for which
  cursors this is harmless, `ScanAll` allows exactly the shrinking resizes for which it stays
  so, and `ShrunkScan` misses a key.
- The mirrored halves of the red-black fixups and rotations are one case with a direction.
  Node objects are cells found by reference, removed nodes are not used again, and the parent
  field of the root may hold a removed node, as the early return of the deletion leaves it.
  conhash_inter.c frees that node. `RbTree.Delete` says when a removed node stays there, and
  `RbTree.Insert` when an insertion then reads its colour; `StaleRead` is such a run.
- `padding_remove_pkcs7` looks at as many bytes as the last one says. `RemovePkcs` has what lies
  in front of the buffer as a parameter and says when it is read.
- `multadd` on a number of zero words loses the number added; `mult` and `quorem` can produce
  such numbers, and the contracts say so. `quorem` computes the top word plus one in 32 bits,
  so a divisor's top word must not be 0xffffffff; four leading zero bits, which the code
  arranges, are more than the quotient needs.
- The assert at line 860 of socket_server.c can fail: a low-priority user object at the head
  of the low list has its payload at another address than its buffer from the start.
  `LowIsFresh` is the exact condition, `UserObject` a way to get there; `Life` stops there, and
  nowhere else.
- `powmodp` reduces only bases above P, so P to the first power comes back unreduced
  (`PowMod` says exactly when).
- atomic.h always selects the `__sync` primitives. Its other branch would break the lock:
  `TwoWriters`.
- A package that ends its chunk is returned at once, ahead of packages of the same socket that
  were queued before and not yet popped (`Overtaken`); `OrderIff` is the exact condition for
  hand-out in order.

## Model

| member | source | states |
|---|---|---|
| `TimingWheel.Run` | skynet/skynet-src/skynet_timer.c:88-178 | in every run of timeouts and updates, other threads' calls included, update number k hands out exactly the timers due at tick k, in the order they were asked for, also across the wrap of the 32-bit clock |
| `TimingWheel.ExactlyOnce` | skynet/skynet-src/skynet_timer.c:88-178 | what has been handed out plus what still waits is, as a multiset, what was asked for |
| `TimingWheel.ScheduleSorted` | skynet/skynet-src/skynet_timer.c:152-178 | the order of dispatch is the order of expiry |
| `TimingWheel.ScheduleStable` | skynet/skynet-src/skynet_timer.c:60-65 | timers of one tick keep their order of insertion |
| `TimingWheel.AskedAhead` | skynet/skynet-src/skynet_timer.c:88-99 | every queued timer is due at tick 1 or later |
| `TimingWheel.SlotCascade` | skynet/skynet-src/skynet_timer.c:111-132 | at the tick that opens a block, exactly the timers of that block's bucket change buckets, and all of them go to finer ones; the bucket is a function of expiry and clock alone |
| `TimingWheel.SelectCascade` | skynet/skynet-src/skynet_timer.c:101-109 | re-adding the nodes of the opened bucket in order leaves every bucket with what belongs there, in order |
| `TimingWheel.FindSlot` | skynet/skynet-src/skynet_timer.c:67-86 | the search through the levels finds the bucket that the clock and the expiry determine |
| `TimingWheel.DispatchList` | skynet/skynet-src/skynet_timer.c:134-150 | one message per node, first to last |
| `TimingWheel.Timer.Link` | skynet/skynet-src/skynet_timer.c:60-65 | the node goes last into one bucket, the others stay |
| `TimingWheel.Timer.LinkClear` | skynet/skynet-src/skynet_timer.c:51-58 | gives the whole bucket and empties it, the others stay |
| `TimingWheel.Timer.AddNode` | skynet/skynet-src/skynet_timer.c:67-86 | the node joins the bucket of its expiry and of no other |
| `TimingWheel.Timer.MoveList` | skynet/skynet-src/skynet_timer.c:101-109 | a bucket's nodes are spread, in order, over the buckets they belong to now |
| `TimingWheel.Timer.Shift` | skynet/skynet-src/skynet_timer.c:111-132 | the clock advances by one, no timer is lost, and every bucket again holds exactly its timers |
| `TimingWheel.Timer.Add` | skynet/skynet-src/skynet_timer.c:88-99 | one more timer, due after its delay, behind all others |
| `TimingWheel.Timer.Timeout` | skynet/skynet-src/skynet_timer.c:204-224 | a delay of zero or less is answered at once, any other is queued |
| `TimingWheel.Timer.Execute` | skynet/skynet-src/skynet_timer.c:152-163 | hands out exactly the timers due now; calls that get in while the lock is released cannot refill the list |
| `TimingWheel.Timer.Update` | skynet/skynet-src/skynet_timer.c:165-178 | one tick: what is due fires, the rest stays |
| `Words.ReverseParallel` | game/lib/lua-redis/dict.c:738-746 | the masked swaps of rev reverse the bits of a word |
| `Cursor.NextIs` | game/lib/lua-redis/dict.c:898-905 | setting the unmasked bits and incrementing the reversed cursor increments the masked bits from the top bit down |
| `Cursor.Advance` | game/lib/lua-redis/dict.c:898-905 | the statements of the source compute that next cursor |
| `Cursor.CursorStep` | game/lib/lua-redis/dict.c:748-830 | a call at cursor v covers exactly the hashes between v and the next cursor in reversed order; at next cursor 0 everything is covered |
| `Cursor.EveryBucketOnce` | game/lib/lua-redis/dict.c:832-860 | without a resize the cursor visits every bucket exactly once and returns to 0 |
| `Cursor.ExpansionIs` | game/lib/lua-redis/dict.c:891-892 | the inner loop counts in the bits above the smaller mask and leaves the others alone |
| `Dict.ScanAll` | game/lib/lua-redis/dict.c:832-908 | from cursor 0 until 0 returns, with any adds, replaces, deletes, finds, rehash steps, growing resizes and shrinking ones that the cursor allows in between, every key present throughout is reported, none that never was there is, and the scan ends; the dictionary may be rehashing in either direction when the scan starts |
| `Cursor.MissesNothing` | game/lib/lua-redis/dict.c:879-895 | a call over two tables starts in the larger one at the bits that the cursor has there, and so passes over no hash still to be reached exactly when these bits are ones followed by zeroes: the exact condition on shrinking during a scan |
| `Dict.SkippedBefore` | game/lib/lua-redis/dict.c:879-895 | under that condition every entry that a call skips was reached by an earlier call |
| `Dict.ShrunkScan` | game/lib/lua-redis/dict.c:832-908 | a table of 16 buckets shrunk to 4 while the cursor is 8: the rest of the scan never reports a key that is present throughout |
| `Dict.ScanProgress` | game/lib/lua-redis/dict.c:748-830 | one call carries the invariant on: every surviving key whose reversed hash lies before the cursor has been reported |
| `Dict.ScanExpansions` | game/lib/lua-redis/dict.c:879-895 | the loop over the larger table emits exactly the entries of the cursor's class from the cursor's high bits up |
| `Dict.Dict.Scan` | game/lib/lua-redis/dict.c:832-908 | emits exactly the entries whose hash agrees with the cursor under the smaller mask, from either table, except those of the larger table below the bits that the cursor has there, no entry twice, and returns the next cursor |
| `Dict.ScanOnce` | game/lib/lua-redis/dict.c:832-908 | a scan with nothing in between, on one table or on two: every entry of the map is reported exactly once |
| `Dict.Dict.Find` | game/lib/lua-redis/dict.c:472-491 | the value of the key in the map the two tables stand for |
| `Dict.Dict.Add` | game/lib/lua-redis/dict.c:261-313 | the map with the new key, or unchanged when the key was there |
| `Dict.Dict.Replace` | game/lib/lua-redis/dict.c:321-342 | the map with the key set; tells whether it is new |
| `Dict.Dict.Delete` | game/lib/lua-redis/dict.c:360-395 | the map without the key, and the value it had |
| `Dict.Dict.Expand` | game/lib/lua-redis/dict.c:143-173 | accepted exactly when not rehashing, large enough and of another size; a growing table never shrinks the mask |
| `Dict.Dict.Rehash` | game/lib/lua-redis/dict.c:184-227 | the map stays; the skip over empty buckets ends inside the table |
| `Dict.Dict.MoveBucket` | game/lib/lua-redis/dict.c:198-213 | all entries of one bucket move to where their hashes belong in the new table |
| `Dict.Dict.Locate` | game/lib/lua-redis/dict.c:954-977 | finds the entry in whichever table has it, the old one first; the place for a new key is in the table that stays |
| `Dict.Dict.ExpandIfNeeded` | game/lib/lua-redis/dict.c:913-932 | never refuses while the entries fit a long; an empty dictionary gets four buckets; a full table starts to move into the least power of two that holds twice its entries; nothing else changes |
| `Dict.NextPower` | game/lib/lua-redis/dict.c:935-946 | the least power of two from 4 up that reaches the size |
| `Dict.RepMove` | game/lib/lua-redis/dict.c:203-210 | moving an entry between the tables leaves the map as it is |
| `Scheduler.RunInv` | skynet/skynet-src/skynet_server.c:298-353 | after every run of any number of threads over any number of services: reference counts are exact, each queue is in exactly one place or none, an idle queue is empty, messages are popped once in push order and meet one fate |
| `Scheduler.StepInv` | skynet/skynet-src/skynet_mq.c:137-250 | every step of every thread keeps that invariant |
| `SchedulerRuns.Delivered` | skynet/skynet-src/skynet_server.c:230-353 | read off the points that the threads of a run pass: the messages with which the callback of a service is entered, then those discarded after its end, then those that wait are the messages pushed to it, in the order of the pushes |
| `SchedulerRuns.InOrder` | skynet/skynet-src/skynet_server.c:230-353 | what a service is called with is a beginning of what was pushed to it |
| `SchedulerRuns.StepRecords` | skynet/skynet-src/skynet_mq.c:137-209 | one step adds to the messages of a service exactly what a thread at skynet_mq_push has, at the end, and takes exactly the oldest, for dispatch_message or drop_func |
| `SchedulerRuns.SentIsPushed` | skynet/skynet-src/skynet_server.c:230-241 | every message sent to a handle that is found is pushed, once, or its thread is about to |
| `SchedulerRuns.Requests` | skynet/skynet-src/skynet_server.c:230-241 | a send that finds the handle brings the thread to the push; a kill takes the handle away; a launch registers the service with two references |
| `SchedulerRuns.Served` | skynet/skynet-src/skynet_server.c:298-353 | a worker that gets the queue of a service with messages comes, in four moves, into its callback with the oldest message |
| `SchedulerRuns.Reclaimed` | skynet/skynet-src/skynet_mq.c:219-250 | a worker that gets the queue of a deleted service drops all its messages and frees it |
| `Scheduler.OneHand` | skynet/skynet-src/skynet_server.c:298-353 | two threads never hold the same queue, so no two run one service's callback at once |
| `Scheduler.NoLostWakeup` | skynet/skynet-src/skynet_mq.c:137-209 | a queue with messages is in the global list or in exactly one hand |
| `Scheduler.OnlyLive` | skynet/skynet-src/skynet_server.c:196-241 | no step touches a freed queue, none but the two at 166 and 170 can touch a deleted context, and the asserts on release and init hold |
| `Scheduler.LateUse` | skynet/skynet-src/skynet_server.c:163-172 | the uses at 166 and 170 meet a deleted context exactly when the handle was retired, no thread has a reference and the deletion is over |
| `Scheduler.StoreAfterDeletion` | skynet/skynet-src/skynet_server.c:163-167 | a run in which the handle is retired after the release at 164 and ctx->init is stored to a deleted context |
| `Scheduler.ReportAfterDeletion` | skynet/skynet-src/skynet_server.c:168-171 | a run in which the service is gone when the launcher reports it, reading a deleted context |
| `Scheduler.FreedForGood` | skynet/skynet-src/skynet_mq.c:219-250 | a queue is freed only at reference count 0 with every accepted message dealt with, and nothing about it changes afterwards |
| `Scheduler.PushKeeps` | skynet/skynet-src/skynet_mq.c:189-209 | skynet_mq_push keeps the invariant: the queue joins the global list exactly when it was in no place |
| `Scheduler.PopKeeps` | skynet/skynet-src/skynet_mq.c:137-172 | skynet_mq_pop keeps it: a message leaves in order, or an empty queue leaves the worker's hand idle |
| `Scheduler.CallKeeps` | skynet/skynet-src/skynet_server.c:261-286 | the callback or its absence gives the popped message its fate |
| `Scheduler.MqReleaseKeeps` | skynet/skynet-src/skynet_mq.c:239-250 | skynet_mq_release keeps it: a marked queue is dropped, any other goes back to the global list |
| `Scheduler.DropKeeps` | skynet/skynet-src/skynet_mq.c:230-237 | a round of the drop loop takes the oldest message, or frees the empty queue |
| `Scheduler.DiscardKeeps` | skynet/skynet-src/skynet_server.c:115-123 | drop_message gives that message its fate |
| `Scheduler.RelKeeps` | skynet/skynet-src/skynet_server.c:221-228 | skynet_context_release keeps it: the last reference alone leads to a deletion |
| `Scheduler.DelKeeps` | skynet/skynet-src/skynet_server.c:208-219 | delete_context keeps it: the queue is marked and, if idle, put into the global list once |
| `Scheduler.InitKeeps` | skynet/skynet-src/skynet_server.c:160-164 | the end of init keeps it: the launcher gives up its reference, or starts to undo the launch |
| `Scheduler.SetInitKeeps` | skynet/skynet-src/skynet_server.c:165-167 | the store to ctx->init keeps it, also when it comes late |
| `MessageQueue.Queue.Push` | skynet/skynet-src/skynet_mq.c:189-209 | the ring's contents and the new message, across any expansion; says when the queue must join the global list |
| `MessageQueue.Queue.Pop` | skynet/skynet-src/skynet_mq.c:137-172 | the oldest message, or none and the queue leaves the global list |
| `MessageQueue.Queue.Expand` | skynet/skynet-src/skynet_mq.c:174-187 | a full ring keeps its contents in order in twice the room |
| `MessageQueue.Queue.Length` | skynet/skynet-src/skynet_mq.c:111-125 | the number of messages |
| `TcpSocket.Life` | skynet/skynet-src/socket_server.c:1636-1746 | for the run that any start and any events lead to (`Exec`), in every interleaving of workers, requests and system-call results: the wire is a sequence of beginnings of packages handed in; the whole ones of each priority are in the order handed in; they are back to back with at most one more begun exactly when no direct write gets in between the two halves of a force_close that dropped a package begun; until lists are dropped, what was accepted of each priority is what was sent and then what is pending; SOCKET_CLOSE at most once and no data after it; the run stops early only at the assert at 860, and never when low-priority packages are ordinary memory |
| `TcpSocket.Happen` | skynet/skynet-src/socket_server.c:1340-1398 | every section of every thread is the step that `Step` specifies, keeps the socket's invariant, and leaves a socket half closed for reading only for an invalid one; after a torn drop, only direct writes add to the wire |
| `TcpRuns.TornWire` | skynet/skynet-src/socket_server.c:479-510 | for all packages: one byte of the first is written, the socket is shut down, a worker writes the second before the lock is taken: the wire is that byte and then the second package |
| `TcpRuns.LostRest` | skynet/skynet-src/socket_server.c:1127-1154 | an ordinary close that finds nothing to send while a worker is writing loses what the descriptor does not take |
| `TcpRuns.LostIff` | skynet/skynet-src/socket_server.c:1127-1154 | for every open socket at which an ordinary close finds nothing to send, and all events up to the lock: nothing accepted before is dropped, and data is lost exactly when a direct write ends in between of which the descriptor does not take all |
| `TcpRuns.DropLoses` | skynet/skynet-src/socket_server.c:479-510 | for every force_close that does not hold the lock: the lists are dropped, and besides them something is lost exactly when a direct write had left a rest or leaves one before the lock is taken |
| `TcpRuns.NoneLost` | skynet/skynet-src/socket_server.c:1127-1154 | an ordinary close loses nothing when no direct write is under way and none begins before the lock is taken |
| `TcpRuns.Conserved` | skynet/skynet-src/socket_server.c:1340-1398 | in every run, the packages that workers get through are, each once, those accepted, those freed because the socket took no more, and those still in the pipe; in this order as long as none was freed |
| `TcpRuns.TornIff` | skynet/skynet-src/socket_server.c:479-510 | packages are torn apart exactly when force_close starts while the head of the high list is begun and a direct write puts bytes on the wire before it has the lock |
| `TcpLaws.WriteContinues` | skynet/skynet-src/socket_server.c:858-945 | whatever the results of write are: a write event puts a beginning of what was pending on the wire, in order, and the rest stays pending |
| `TcpLaws.AllTaken` | skynet/skynet-src/socket_server.c:858-945 | when every buffer is taken whole, both lists and the rest of a direct write go out, high before low, nothing is pending, write events go off, and a closing socket is closed without a loss |
| `TcpLaws.FirstBytes` | skynet/skynet-src/socket_server.c:712-742 | a write event that is not blocked puts the next bytes of what is pending on the wire, as many as the first write takes |
| `TcpLaws.WriteFails` | skynet/skynet-src/socket_server.c:689-710 | a write error forgets nothing that was pending; a closing or read-closed socket is closed, any other takes no more data and reports it once |
| `TcpLaws.GracefulClose` | skynet/skynet-src/socket_server.c:1127-1154 | an ordinary close with data left: one SOCKET_CLOSE, then everything pending goes out and the socket is closed without a loss |
| `TcpLaws.Placed` | skynet/skynet-src/socket_server.c:1006-1076 | a package of high priority goes before everything in the low list, any other one to the end |
| `TcpLaws.Overtakes` | skynet/skynet-src/socket_server.c:1006-1076 | while something is in the lists, a package of high priority overtakes one of low priority that came before it |
| `TcpLaws.RunAwake` | skynet/skynet-src/socket_server.c:986-997 | in every state of every run of an open socket, data left to write means that write events are on, a request for them is in the pipe, or a worker is about to send one |
| `TcpLaws.Connects` | skynet/skynet-src/socket_server.c:1521-1555 | a successful connect reports SOCKET_OPEN and keeps what is pending; a failed one ends in SOCKET_ERR and an invalid socket |
| `TcpLaws.Reads` | skynet/skynet-src/socket_server.c:1400-1460 | bytes are reported while the socket is open for reading; the end of the stream closes it for reading, with one SOCKET_CLOSE, and keeps what is pending |
| `TcpLaws.HangsUp` | skynet/skynet-src/socket_server.c:1736-1744 | a hang-up or a shutdown ends the socket, with SOCKET_CLOSE exactly when it was not reported before |
| `TcpLaws.Resumes` | skynet/skynet-src/socket_server.c:1173-1210 | an accepted or connected socket reports SOCKET_OPEN, a closed one an error, and any other nothing |
| `TcpLists.UnbrokenIff` | skynet/skynet-src/socket_server.c:712-742 | what is on the wire is whole packages back to back and one begun exactly when nothing followed a package that was dropped after it had been begun |
| `TcpLists.SegmentsAre` | skynet/skynet-src/socket_server.c:712-742 | the segments are the bytes of the wire, and their whole packages those completely written |
| `TcpLists.SentInOrder` | skynet/skynet-src/socket_server.c:712-742 | what was sent of one priority, before and after lists were dropped, is in the order in which it was handed in |
| `TcpSocket.Socket.LowIsFresh` | skynet/skynet-src/socket_server.c:858-860 | in every state of every run the assert at the start of send_buffer_ holds exactly when the low list is empty or its head is no user object |
| `TcpRuns.UserObject` | skynet/skynet-src/socket_server.c:858-860 | two packages, the second a low-priority user object: the run fails at that assert at the next write event |
| `TcpSocket.Socket.TryDirect` | skynet/skynet-src/socket_server.c:1797-1817 | a worker writes directly exactly when the socket is connected, idle and unlocked; everything accepted before is then written |
| `TcpSocket.Socket.FinishDirect` | skynet/skynet-src/socket_server.c:1818-1863 | the bytes the descriptor takes, and the rest of the package left for the socket thread |
| `TcpSocket.Socket.SendSocket` | skynet/skynet-src/socket_server.c:1006-1076 | the package joins the high list when both are empty or by priority; wb_size stays the number of unsent bytes |
| `TcpSocket.Socket.HandleRequest` | skynet/skynet-src/socket_server.c:1340-1398 | requests are handled in the order of the pipe |
| `TcpSocket.Socket.DecSending` | skynet/skynet-src/socket_server.c:1328-1337 | the counter of packages on their way is positive when it is decremented |
| `TcpSocket.Socket.WriteHead` | skynet/skynet-src/socket_server.c:712-742 | one write moves the next bytes of the head package, as many as the descriptor takes, to the wire and drops the package at its end |
| `TcpSocket.Socket.WriteList` | skynet/skynet-src/socket_server.c:712-742 | the bytes and packages that go out, the list that stays and whether it is empty, blocked or failed are what the results of write determine |
| `TcpSocket.Socket.SendList` | skynet/skynet-src/socket_server.c:712-742 | the same, with the socket half closed or closed after a failure |
| `TcpSocket.Socket.SendLow` | skynet/skynet-src/socket_server.c:828-916 | a low-priority package that was begun moves to the high list, so the low list never starts in the middle |
| `TcpSocket.Socket.SendBufferLocked` | skynet/skynet-src/socket_server.c:858-916 | all four steps do what `WriteLists` specifies and keep the invariant; the assert at 892 holds |
| `TcpSocket.Socket.SendBuffer` | skynet/skynet-src/socket_server.c:919-945 | the rest of a direct write goes out before anything else, then the high list, then the low one (`Write`) |
| `TcpSocket.Socket.DropLists` | skynet/skynet-src/socket_server.c:479-492 | the first half of force_close, without the lock: both lists go, the type stays, and a package that was begun leaves its first bytes on the wire |
| `TcpSocket.Socket.FinishClose` | skynet/skynet-src/socket_server.c:493-510 | the second half: waits for a worker's direct write, then the socket is invalid and the rest of that write is lost |
| `TcpSocket.Socket.ForceClose` | skynet/skynet-src/socket_server.c:479-510 | force_close from inside a write section, which holds the lock throughout: what was not written is dropped in order and the socket is invalid |
| `TcpSocket.Socket.CloseWrite` | skynet/skynet-src/socket_server.c:689-710 | a write error ends a closing or read-closed socket and half-closes any other, reporting once |
| `TcpSocket.Socket.CloseRead` | skynet/skynet-src/socket_server.c:1105-1115 | one SOCKET_CLOSE and the socket is closed for reading |
| `TcpSocket.Socket.CloseSocket` | skynet/skynet-src/socket_server.c:1127-1154 | decided before the lock: without unsent data or with shutdown the lists are dropped and force_close is under way, with SOCKET_CLOSE to come exactly when it was not reported before; closing otherwise |
| `TcpSocket.Socket.ReadEvent` | skynet/skynet-src/socket_server.c:1400-1460 | data exactly when bytes arrived and the socket is open for reading; the end of the stream closes it once |
| `TcpSocket.Socket.EofEvent` | skynet/skynet-src/socket_server.c:1736-1744 | force_close is under way, with SOCKET_CLOSE to come exactly when it was not reported before |
| `TcpSocket.Socket.ConnectEvent` | skynet/skynet-src/socket_server.c:1521-1555 | a connecting socket is connected, or force_close is under way with an error to come |
| `TcpSocket.Socket.ResumeSocket` | skynet/skynet-src/socket_server.c:1173-1210 | an accepted socket starts; a closed one is an error |
| `Bigint.Multadd` | game/lib/lua-json/dtoa.c:612-667 | b * m + a in no more words than needed; a number of zero words stays zero |
| `Bigint.Carries` | game/lib/lua-json/dtoa.c:636-654 | the carry loop: the words and the carry out together are b * m + a, without 64-bit overflow |
| `Bigint.Row` | game/lib/lua-json/dtoa.c:845-859 | one row of the product adds a * y to the words from j on |
| `Bigint.Rows` | game/lib/lua-json/dtoa.c:838-859 | all rows: the product of the two numbers |
| `Bigint.Mult` | game/lib/lua-json/dtoa.c:805-913 | the product, without leading zero words; zero has no words |
| `Bigint.Powers.Pow5mult` | game/lib/lua-json/dtoa.c:917-972 | b * 5^k; the cache only grows |
| `Bigint.Powers.Entry` | game/lib/lua-json/dtoa.c:933-966 | entry j of the cache is 625 squared j times, built when first needed |
| `Bigint.SquareIsPower` | game/lib/lua-json/dtoa.c:933-966 | 625 squared j times is 5^(4 * 2^j) |
| `BigDivision.Lshift` | game/lib/lua-json/dtoa.c:974-1032 | b * 2^k, and what the top word becomes |
| `BigDivision.ShiftWords` | game/lib/lua-json/dtoa.c:1001-1011 | the word loop with the bits carried from word to word |
| `BigDivision.Cmp` | game/lib/lua-json/dtoa.c:1034-1066 | negative, zero or positive as the numbers compare |
| `BigDivision.Diff` | game/lib/lua-json/dtoa.c:1068-1160 | the absolute difference and its sign, without leading zero words |
| `BigDivision.Subtract` | game/lib/lua-json/dtoa.c:1113-1124 | the borrow loops: the difference, with no borrow left over |
| `BigDivision.Hi0bits` | game/lib/lua-json/dtoa.c:707-739 | the k for which the word times 2^k has its top bit set; 32 for zero |
| `BigDivision.Dshift` | game/lib/lua-json/dtoa.c:2106-2117 | a shift after which the top word has exactly four leading zero bits |
| `BigDivision.Arrange` | game/lib/lua-json/dtoa.c:4145-4159 | both numbers scaled by the same power of two, the divisor fit for quorem |
| `BigDivision.Estimate` | game/lib/lua-json/dtoa.c:2143-2148 | the quotient of the top words never exceeds the quotient and, for a top word of 2^16 or more, is at most one too small |
| `BigDivision.SubtractMultiple` | game/lib/lua-json/dtoa.c:2160-2190 | b - q * S with carry and borrow, nothing left over |
| `BigDivision.Quorem` | game/lib/lua-json/dtoa.c:2119-2241 | returns the quotient and leaves the remainder, for every top word of the divisor from 2^16 up |
| `BigDivision.Digits` | game/lib/lua-json/dtoa.c:4284-4300 | the digits d1 d2 ... satisfy b * 10^(n-1) = d1 d2 ... dn * S + rest with rest < S; fewer than asked for only when the rest is zero |
| `RbTree.Run` | game/lib/lua-conhash/util_rbtree.c:49-391 | after every sequence of inserts of new nodes and deletes the tree is red-black and its in-order sequence is exactly what the sequence calls for |
| `RbTree.RbTree.Insert` | game/lib/lua-conhash/util_rbtree.c:49-84 | the in-order sequence gains exactly the node, behind all keys not larger; search order, black root, no red-red edge and equal black heights are kept; the stale parent of the root is looked at exactly when red parents with red uncles lead from the new node's place all the way to the root |
| `RbTree.RbTree.Delete` | game/lib/lua-conhash/util_rbtree.c:146-249 | the in-order sequence loses exactly the node and all red-black properties are kept, whatever the root's stale parent; the removed node becomes that parent exactly when it was the root with at most one child |
| `RbTree.StaleRead` | game/lib/lua-conhash/util_rbtree.c:87-143 | two inserts, a delete of the root and three inserts: the last one reads the colour of the removed node |
| `RbTree.RbTree.InsertFixup` | game/lib/lua-conhash/util_rbtree.c:87-143 | from a red node below a possibly red parent to a red-black tree with the same in-order sequence; which parents the loop looks at |
| `RbTree.RbTree.DeleteFixup` | game/lib/lua-conhash/util_rbtree.c:252-327 | from a subtree one black node short to a red-black tree with the same in-order sequence |
| `RbTree.RbTree.Rotate` | game/lib/lua-conhash/util_rbtree.c:329-391 | the pointer writes of a rotation turn the tree at that node and nothing else |
| `RbTree.RbTree.RemoveTwo` | game/lib/lua-conhash/util_rbtree.c:165-242 | a node with two children is replaced by its successor, spliced out of its own place |
| `RbTree.RbTree.RemoveRoot` | game/lib/lua-conhash/util_rbtree.c:178-184 | the only child becomes a black root; its parent field keeps the removed, black node |
| `RbTree.RbTree.Search` | game/lib/lua-conhash/util_rbtree.c:393-407 | the node of the key, or none when no node has it |
| `RbTree.RbTree.Lookup` | game/lib/lua-conhash/util_rbtree.c:409-432 | the first node in order at or after the key, else the first of all |
| `RbTree.RbTree.Min` | game/lib/lua-conhash/util_rbtree.c:35-40 | the first node in order of a subtree |
| `Entries.SuccessorIs` | game/lib/lua-conhash/util_rbtree.c:409-432 | that node has the least key at or after the given one, else the least key |
| `RedBlack.PlugGood` | game/lib/lua-conhash/util_rbtree.c:87-143 | a sound subtree in a sound context is a sound tree with a black root |
| `RedBlack.RecolourKeeps` | game/lib/lua-conhash/util_rbtree.c:93-101 | red parent and red uncle: the violation moves up two levels |
| `RedBlack.SettledKeeps` | game/lib/lua-conhash/util_rbtree.c:111-114 | red parent and black uncle: one rotation gives the red node a black parent |
| `RedBlack.BalancedGood` | game/lib/lua-conhash/util_rbtree.c:283-287 | a red far nephew: one rotation ends the shortage |
| `RbMemory.RotateLaid` | game/lib/lua-conhash/util_rbtree.c:329-391 | cells after the writes of a rotation hold the rotated tree in the unchanged context |
| `RbMemory.SwapDone` | game/lib/lua-conhash/util_rbtree.c:212-242 | cells after the successor took over a node's links hold the tree with the successor in its place |
| `Conhash.Conhash.AddNode` | game/lib/lua-conhash/conhash.c:57-73 | places owned before keep their owners, every new place belongs to the added server, and every replica's place is owned afterwards |
| `Conhash.Conhash.DeleteNode` | game/lib/lua-conhash/conhash.c:75-91 | exactly the server's places go |
| `Conhash.Conhash.Lookup` | game/lib/lua-conhash/conhash.c:93-111 | the owner of the least place at or after the hash, else of the least place; none exactly for an empty ring |
| `Conhash.Conhash.AddReplica` | game/lib/lua-conhash/conhash_inter.c:44-59 | a free place gets the server; on a collision nothing changes; the count of virtual nodes stays the size of the tree |
| `Conhash.Conhash.DeleteReplica` | game/lib/lua-conhash/conhash_inter.c:69-85 | the place goes exactly when the server owns it |
| `Conhash.LookupAroundAdd` | game/lib/lua-conhash/conhash_inter.c:38-60 | what conhash_lookup finds, in the ring before and in the ring after conhash_add_node: the same server or the one added; the same when the addition is refused |
| `Conhash.LookupAroundDelete` | game/lib/lua-conhash/conhash_inter.c:62-86 | what conhash_lookup finds, in the ring before and in the ring after conhash_del_node: the same server unless it was the one deleted, and never that one |
| `Conhash.AddAndDelete` | game/lib/lua-conhash/conhash_inter.c:38-86 | conhash_add_node and conhash_del_node of a server without virtual nodes leave the ring as it was |
| `Sharedata.CountSize` | skynet/lualib-src/lua-sharedata.c:67-89 | the number of keys outside the array part |
| `Sharedata.Conf.FillNoColliding` | skynet/lualib-src/lua-sharedata.c:212-234 | every key whose main position was free has it, every main position in demand is filled, the array part is complete |
| `Sharedata.Conf.FillColliding` | skynet/lualib-src/lua-sharedata.c:236-273 | all keys are placed, each in the chain of its main position |
| `Sharedata.Conf.Collide` | skynet/lualib-src/lua-sharedata.c:251-270 | a free slot is always found: the assert at 260 never fails |
| `Sharedata.Conf.constructor` | skynet/lualib-src/lua-sharedata.c:276-326 | the table is the source: all slots filled, every key in its chain, the array part by index |
| `Sharedata.ChainSecond` | skynet/lualib-src/lua-sharedata.c:261-263 | linking a key behind its main position keeps every chain whole |
| `Sharedata.NoRepeat` | skynet/lualib-src/lua-sharedata.c:502-531 | a chain does not come back to its first slot |
| `Sharedata.Conf.LookupKey` | skynet/lualib-src/lua-sharedata.c:502-531 | the slot of the key, or none exactly when no slot has it; the walk ends |
| `Sharedata.Conf.Get` | skynet/lualib-src/lua-sharedata.c:533-566 | what the source table holds under the key |
| `Sharedata.Conf.NextKey` | skynet/lualib-src/lua-sharedata.c:590-647 | the key behind the given one in the listing, none at its end |
| `Sharedata.Conf.Traverse` | skynet/lualib-src/lua-sharedata.c:590-647 | asking for the next key until there is none gives the listing |
| `Sharedata.Conf.ListingIs` | skynet/lualib-src/lua-sharedata.c:590-647 | the listing has every key of the source exactly once |
| `Seri.RoundTrip` | skynet/lualib-src/lua-seri.c:296-340 | unpacking a packed value followed by any bytes gives the value and leaves exactly those bytes |
| `Seri.RoundTripAll` | skynet/lualib-src/lua-seri.c:555-597 | unpacking a packed list of values gives the list |
| `Seri.PlainComesBack` | skynet/lualib-src/lua-seri.c:239-257 | a value whose pairs do not repeat the array part comes back as it is |
| `Seri.IntegerBack` | skynet/lualib-src/lua-seri.c:142-174 | get_integer undoes wb_integer for every 64-bit integer |
| `Seri.TextBack` | skynet/lualib-src/lua-seri.c:190-213 | strings come back in all three length forms |
| `Seri.SizeBack` | skynet/lualib-src/lua-seri.c:217-227 | the array size comes back from the cookie or from the integer behind it |
| `SeriFormat.PackedIs` | skynet/lualib-src/lua-seri.c:16-33 | the bytes of every packed value in plain numbers: nil 0, booleans 1 and 9, integers behind 2, 10, 18, 34 or 50 in the shortest width, little-endian two's complement, reals behind 66, pointers behind 3, strings behind 4 + 8 n, 21 or 37, tables behind 6 + 8 n or 254, pairs up to a 0 |
| `SeriFormat.NumberReads` | skynet/lualib-src/lua-seri.c:359-410 | what a number is read as, by its first byte and the bytes behind it, and which ones are errors |
| `SeriFormat.TextReads` | skynet/lualib-src/lua-seri.c:423-430 | a short string has its length in the first byte |
| `SeriFormat.LongTextReads` | skynet/lualib-src/lua-seri.c:485-508 | a long string has its length in two or four bytes; any other first byte of its type is an error |
| `SeriFormat.OtherReads` | skynet/lualib-src/lua-seri.c:467-532 | nil, booleans and pointers, and the type 7, which is an error |
| `SeriFormat.TableReads` | skynet/lualib-src/lua-seri.c:434-465 | a table is read exactly when as many values as its first byte says follow, and then pairs up to a nil |
| `SeriFormat.LongTableReads` | skynet/lualib-src/lua-seri.c:434-465 | for an array part from 31 up the number is a packed integer |
| `SeriBlocks.WriteBlock.Push` | skynet/lualib-src/lua-seri.c:65-85 | the bytes are appended, over as many 128-byte blocks as it takes |
| `SeriBlocks.WriteBlock.Flatten` | skynet/lualib-src/lua-seri.c:534-553 | the blocks flattened are the concatenation of all pushes |
| `SeriBlocks.WriteBlock.PackOne` | skynet/lualib-src/lua-seri.c:296-340 | the packed form of the value is appended; fails exactly when a value lies more than 32 levels deep |
| `SeriBlocks.ReadBlock.UnpackOne` | skynet/lualib-src/lua-seri.c:523-532 | the value and the position that the format determines, or an error exactly when it determines none |
| `SeriBlocks.ReadBlock.UnpackTable` | skynet/lualib-src/lua-seri.c:434-465 | the array part and the pairs up to the nil key |
| `SeriBlocks.ReadBlock.UnpackAll` | skynet/lualib-src/lua-seri.c:555-597 | all values up to the end of the bytes, or an error |
| `SeriBlocks.PackUnpack` | skynet/lualib-src/lua-seri.c:555-612 | packing and unpacking give the list back exactly when it is within the depth limit |
| `Frames.CutAppend` | skynet/lualib-src/lua-netpack.c:26-28 | cutting a stream into packages does not depend on where the stream was split |
| `Frames.CutWire` | skynet/lualib-src/lua-netpack.c:430-453 | packages written with write_size are cut back into the same packages |
| `Netpack.Queue.Filter` | skynet/lualib-src/lua-netpack.c:227-307 | a chunk yields exactly the packages that residue and chunk hold; what is left is the socket's single record; other sockets are untouched |
| `Netpack.Queue.PushMore` | skynet/lualib-src/lua-netpack.c:188-215 | all whole packages join the ring in order, the rest becomes a record |
| `Netpack.Queue.FindUncomplete` | skynet/lualib-src/lua-netpack.c:92-114 | takes the socket's record out of its chain when there is one |
| `Netpack.Queue.PushData` | skynet/lualib-src/lua-netpack.c:150-167 | the package goes last, in a larger ring if need be |
| `Netpack.Queue.Expand` | skynet/lualib-src/lua-netpack.c:133-148 | a full ring moves to a larger one in order |
| `Netpack.Queue.Pop` | skynet/lualib-src/lua-netpack.c:396-410 | the oldest package, or none |
| `Netpack.Run` | skynet/lualib-src/lua-netpack.c:227-410 | in every run over many sockets, what is handed out, in which order, what waits in the ring and what is left of each socket's bytes are what the events alone determine |
| `Netpack.OrderIff` | skynet/lualib-src/lua-netpack.c:227-410 | the packages of one socket are handed out in the order in which they were made exactly when none that is returned at once finds an older one of its socket waiting |
| `Netpack.HandedInOrder` | skynet/lualib-src/lua-netpack.c:227-410 | then what was handed out and what waits are, in order, the packages that the socket's bytes hold |
| `Netpack.Overtaken` | skynet/lualib-src/lua-netpack.c:260-307 | two packages in one chunk wait, a third that ends its own chunk is handed out before them |
| `Netpack.Conserved` | skynet/lualib-src/lua-netpack.c:227-410 | every package made is handed out or waits, exactly once, in any run |
| `Netpack.MadeIs` | skynet/lualib-src/lua-netpack.c:227-307 | the packages made of one socket are those that its bytes hold, whatever the other sockets do |
| `Netpack.ExpectIsCut` | skynet/lualib-src/lua-netpack.c:227-307 | for a socket that is not closed, that is the cut of its whole stream |
| `Des.FinalUndoesInitial` | skynet/lualib-src/lua-crypt.c:208-230 | DES_FP and DES_IP undo each other |
| `DesTables.InitialRow1` | skynet/lualib-src/lua-crypt.c:208-217 | row 1 of the table IP of FIPS 46-3, 58 50 42 34 26 18 10 2: where these bits of DES_IP come from, both halves rotated by one bit |
| `DesTables.InitialRow2` | skynet/lualib-src/lua-crypt.c:208-217 | row 2 of the table IP of FIPS 46-3, 60 52 44 36 28 20 12 4: where these bits of DES_IP come from, both halves rotated by one bit |
| `DesTables.InitialRow3` | skynet/lualib-src/lua-crypt.c:208-217 | row 3 of the table IP of FIPS 46-3, 62 54 46 38 30 22 14 6: where these bits of DES_IP come from, both halves rotated by one bit |
| `DesTables.InitialRow4` | skynet/lualib-src/lua-crypt.c:208-217 | row 4 of the table IP of FIPS 46-3, 64 56 48 40 32 24 16 8: where these bits of DES_IP come from, both halves rotated by one bit |
| `DesTables.InitialRow5` | skynet/lualib-src/lua-crypt.c:208-217 | row 5 of the table IP of FIPS 46-3, 57 49 41 33 25 17 9 1: where these bits of DES_IP come from, both halves rotated by one bit |
| `DesTables.InitialRow6` | skynet/lualib-src/lua-crypt.c:208-217 | row 6 of the table IP of FIPS 46-3, 59 51 43 35 27 19 11 3: where these bits of DES_IP come from, both halves rotated by one bit |
| `DesTables.InitialRow7` | skynet/lualib-src/lua-crypt.c:208-217 | row 7 of the table IP of FIPS 46-3, 61 53 45 37 29 21 13 5: where these bits of DES_IP come from, both halves rotated by one bit |
| `DesTables.InitialRow8` | skynet/lualib-src/lua-crypt.c:208-217 | row 8 of the table IP of FIPS 46-3, 63 55 47 39 31 23 15 7: where these bits of DES_IP come from, both halves rotated by one bit |
| `DesTables.RoundIs` | skynet/lualib-src/lua-crypt.c:232-247 | DES_ROUND asks box i for its six bits of the expansion E with its six bits of the subkey, and folds the eight answers together, for any boxes |
| `DesTables.RoundsAre` | skynet/lualib-src/lua-crypt.c:320-336 | the rounds are the alternation of halves of FIPS 46-3, two subkey words each |
| `DesTables.BlockIs` | skynet/lualib-src/lua-crypt.c:320-342 | a block is permuted, goes through sixteen rounds with its halves exchanged at the end, and is permuted back |
| `DesTables.SubkeysCount` | skynet/lualib-src/lua-crypt.c:232-247 | for boxes that tell their entries apart and have their own bits of the result, subkeys that give the same round agree on every bit that is used |
| `DesTables.BigEndian` | skynet/lualib-src/lua-crypt.c:192-206 | the bytes of a block are taken most significant first |
| `DesTables.BlockByBlock` | skynet/lualib-src/lua-crypt.c:461-485 | every block is encrypted on its own |
| `DesTables.PaddingIs` | skynet/lualib-src/lua-crypt.c:379-406 | the bytes of a padding: 0x80 and zeroes, or its length over and over |
| `Des.RoundsBack` | skynet/lualib-src/lua-crypt.c:232-247 | sixteen rounds are undone by the reversed subkey pairs with the halves exchanged, for any substitution boxes |
| `Des.CryptBack` | skynet/lualib-src/lua-crypt.c:320-342 | des_crypt under the reversed subkeys undoes des_crypt |
| `Des.Encode` | skynet/lualib-src/lua-crypt.c:461-485 | every block of the padded text encrypted |
| `Des.ReverseKeys` | skynet/lualib-src/lua-crypt.c:491-496 | the subkey pairs in reverse order |
| `Des.RemoveIso` | skynet/lualib-src/lua-crypt.c:385-400 | the size of an ISO 7816-4 padding, 0 exactly when the text ends in none |
| `Des.RemovePkcs` | skynet/lualib-src/lua-crypt.c:408-418 | the size of a padding as in section 6.3 of RFC 5652, when the text ends in one of at most 8 bytes, whatever lies in front of the buffer; reads in front of it exactly when the text is one byte over and over whose value exceeds its length |
| `Des.Decode` | skynet/lualib-src/lua-crypt.c:487-517 | every block decrypted and the padding removed; an error exactly for a bad length or no padding |
| `Des.EncodeDecode` | skynet/lualib-src/lua-crypt.c:461-517 | decoding what was encoded gives the text, for every text and both padding modes |
| `DiffieHellman.MulModP` | skynet/lualib-src/lua-crypt.c:795-815 | a * b mod P in wrapping 64-bit arithmetic |
| `DiffieHellman.PowModP` | skynet/lualib-src/lua-crypt.c:817-828 | a^b modulo P; only P to the first power comes back as P |
| `DiffieHellman.PowMod` | skynet/lualib-src/lua-crypt.c:830-836 | a^b mod P exactly when it is not P to the first power |
| `DiffieHellman.NeverZero` | skynet/lualib-src/lua-crypt.c:868-888 | no public value is zero |
| `DiffieHellman.Agree` | skynet/lualib-src/lua-crypt.c:853-888 | for all nonzero private values both sides derive 5^(x y) mod P, as in section 2.1.1 of RFC 2631 |
| `RwLock.RunInv` | skynet/skynet-src/rwlock.h:19-47 | in every run, write is set exactly while one thread owns it and read counts the readers between increment and decrement |
| `RwLock.Exclusion` | skynet/skynet-src/rwlock.h:19-47 | a writer past rwlock_wlock excludes every reader past rwlock_rlock and every other writer |
| `RwLock.ReaderGetsIn` | skynet/skynet-src/rwlock.h:19-30 | with no writer about, a thread gets past rwlock_rlock by its own moves, whatever other readers there are, and leaves the lock as it was |
| `RwLock.WriterGetsIn` | skynet/skynet-src/rwlock.h:32-42 | with no reader and no writer about, a thread gets past rwlock_wlock by its own moves, and leaves the lock as it was |
| `RwLock.TwoWriters` | skynet/skynet-src/rwlock.h:32-37 | with a compare-and-swap that writes the value found back into the expected one, two writers get in |

## Left out

- TimingWheel.Timer.Timeout: the wall clock, the conversion to centiseconds and the thread that calls it are not modelled.
- Dict.ScanAll: the iterators with fingerprints.
- Dict.Dict.Replace: more than 2^63 - 1 entries, where the source would insert without a check.
- Random and sampled keys, statistics, callbacks for freeing keys and values in dict.c; keys are equal up to the key comparison of the dictionary.
- Scheduler.RunInv: a service that is registered and has no queue yet, between lines 155 and 156 of skynet_server.c; overload reports, the monitor, statistics and the profile of a service; harbors and remote messages.
- TcpSocket.Life: UDP, listening and bound sockets, warning sizes, statistics, keep-alive, failures to change the event mask, and the report of an error event.
- TcpSocket.Socket.ReadEvent: the doubling and halving of the read buffer, and SOCKET_MORE as a separate report.
- Bigint.Multadd: the free lists of Balloc and Bfree; every allocation is new, with unknown contents.
- BigDivision.Digits: rounding of the last digit and the shortest-digits mode of dtoa, and all floating-point parts of dtoa.c.
- RbTree.RbTree.Delete: node memory is not given back, so a removed root stays readable as the stale parent; `RbTree.RbTree.Insert` says when it is read.
- Conhash.Conhash.DeleteNode: the source frees the nodes it removes, also the one that the root keeps as its stale parent.
- Conhash.Conhash.DeleteReplica: likewise, the removed node is not freed here.
- BigDivision.Lshift: numbers of zero words, for which the source shifts a word that is not there.
- BigDivision.Diff: a smaller number of zero words, for which the source subtracts a word that is not there.
- Conhash.Conhash.AddNode: the MD5 hash, the formatting of virtual node names, and changes to a server's name or replica count while it is in the ring.
- Sharedata.Conf.constructor: interning of strings (keys are compared as strings), conversion of nested tables (a reference here), keys that do not fit 32 bits, memory errors, and the reference-counted update of a shared table.
- SeriBlocks.ReadBlock.UnpackOne: string lengths of 2^31 or more in a foreign stream, where the source converts to a negative int; the building of Lua tables from the values read.
- Netpack.Queue.Filter: creation of the queue on first use, lclear, and freeing of buffers.
- Des.Encode: the key schedule and the check of the key's size.
- Des.CryptBack: the contents of the substitution boxes and the key schedule are parameters; `DesTables` ties the rest to FIPS 46-3.
- Hashes, HMAC, base64 and hex in lua-crypt.c: easy codecs or constants.
- Lua stack handling, metatables and error control flow in all lua-*.c files.
- skynet_handle.c beyond an atomic table, service_harbor.c, service_gate.c, lua-stm.c, lua-curl, lua-lfs, ltls.c, the logger, the module loader and the allocator hooks.
