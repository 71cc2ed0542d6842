# FAS store: a verified model

FAS is an in-memory key-value store with a RESP front end. This project models
its core in Dafny and proves what that core keeps over every run:

- the **store** (`Ring.dfy`, `Heap.dfy`, `HeapTracking.dfy`, `Store.dfy`): a map
  shadowed by a byte counter, a wrap-around ring of non-expiring keys with
  tombstones, and two heaps whose stale entries are told apart by version. Each
  operation of the class is proved to be a step of a plain state machine
  (`StoreModel.dfy`), on which the invariants (`StoreInvariant.dfy`), the eviction
  theorems (`StoreEviction.dfy`), the timed-map refinement and the snapshot round
  trip (`TimedMap.dfy`), the use counts that eviction compares (`Usage.dfy`) and the
  linearizability of the double-checked Get (`LockedGet.dfy`) are proved;
- the **RESP codec** (`Text.dfy`, `Resp.dfy`, `RespCode.dfy`): the printer, the
  incremental byte parser and the stream parser, as functions and as the loops
  that compute them; `RespCases.dfy` and `InlineCommand.dfy` state them byte by byte;
- the **event loop** (`Drain.dfy`, `EventLoop.dfy`): the drain loop under any
  chunking, the authentication gate, the output buffer under partial writes;
- the **append-only log and restart**: log and command execution (`Aof.dfy`,
  `Server.dfy`), the replies over whole runs (`Replies.dfy`), replay and snapshot
  (`Restart.dfy`, `Replay.dfy`, `HeapReplay.dfy`), restarts that evict
  (`RestartEviction.dfy`, `RestartLoss.dfy`, `RestartLimit.dfy`), a crash at any byte
  (`Recovery.dfy`), appending to a cut log (`TornCommand.dfy`, `AppendAfterCut.dfy`) and
  SETs of several connections at once (`ConcurrentSet.dfy`);
- **slots and routing** (`Slot.dfy`, `SlotKeys.dfy`, `Cluster.dfy`) and **publish/subscribe**
  (`PubSub.dfy`) under every interleaving.

Clock readings, the order of a Go map walk, socket chunks, partial-write sizes and
subscriber identities are parameters or arbitrary choices. `dafny verify
dfyconfig.toml` checks the project.

## How the pieces connect

`Stores.Store.Abs()` maps the concrete store to a `StoreModel.State`; every method
ensures `StoreModel.Step` (or its function) between the old and the new `Abs()` and
keeps `Valid()`, which holds the exact byte count, the queue order and the heap
coherence. Theorems about runs are then induction over `StoreModel.Run`. Parsers,
log reading, CRC, range lookup and publishing are loops proved equal to functions,
and the theorems are about those functions. `Recovery.CrashAndRestart` joins codec,
log, command execution, replay and store into one statement.

What the proofs brought out about the code:

- The empty key is the ring's tombstone and the heaps' "nothing left" answer. It is
  modelled as it behaves: the invariant `Inv` holds with it, but it is never queued,
  and an LRU or LFU eviction that meets it stops. `EmptyKeyStaysOver` exhibits the
  effect on the memory limit. `LimitExact`, `UntrackedLimit` and `TrackedLimit` say
  when a Set ends over the limit, from the state it evicts from; where keys tie in
  rank with the empty key the outcome depends on the shape of the heap, and
  `TrackedLimitTight` says exactly when it may and when it must end over the limit.
- A negative TTL stores a key that never expires and is not queued (store.go:411,
  438), so FIFO cannot evict it: `NegativeTtlStaysOver` is a Set that ends over the
  limit, `LimitExact` counts such keys as pinned.
- A snapshot that names a key twice is charged for it twice: `ChargedExactly`.
- A log cut inside an argument makes `ReadCommands` return an error, and with it the
  start of the server, while a cut anywhere else is a clean end: `TruncatedLog`
  gives the exact condition.
- After a clean but partial cut the server starts, keeps the partial command and
  appends after it. `SecondRestart` says what the next restart reads, for every such
  cut: at a command boundary, and two or three bytes into the array header, everything;
  one byte in, between two arguments, and in the header of the command name, an error;
  in or after the header of the key or the value, as many of the appended bytes as the
  surviving digits say become that argument, if CR LF happens to follow them.
  `SecondRestartBogus` is a cut after which a SET nobody sent is read, `LuckyCut` one
  after which everything is right, so no condition on the cut alone decides.
- The policy numbered 0, FIFO, is turned into all-keys-random when a server is made
  (server.go:51-53), so "noeject" evicts at random and FIFO is reached through the
  store alone: `Filled`. `FifoReplayRebuilds` is therefore about the store.
- Under volatile-random a server evicts nothing, since its SETs carry no TTL, and stays
  over its limit (`VolatileEvictsNothing`); its log always rebuilds its contents.
- A run can evict nothing and still not be rebuilt by its log: under LRU or LFU the empty
  key can keep eviction from starting, depending on reads that are not logged
  (`EmptyKeyShields`). `EvictsNothingRepeats` shows that this needs the empty key,
  `LogRebuilds` and `LogExact` give the condition on the log.
- Conversely a run that evicts can be rebuilt exactly: under LRU and LFU while no read
  hits and the clock rises from SET to SET, because the order of last writes, which
  decides the victims, is in the log (`HeapReplayRebuilds`).
- A snapshot followed by the whole log can exceed a memory limit that the original
  run never reached. `RestartExact` says when the contents are rebuilt all the same: if
  every key present at an overflow that the policy can evict is written again later.
  Conversely a key present at the first overflow, evictable and not written again, is
  lost: under the random policies by some restart; under LRU and LFU, if the log has
  written it, by every restart in which the clock reads an earlier time at its SETs than
  elsewhere. Restored keys that the log has not written by then tie with one another, and
  the positions in the heap, which the model leaves open, decide which goes first; one of
  them is lost in any case if none is written later and the empty key is not among them.
  `RestartLosesKey` is a loss, `HarmlessOverflow` an overflow without one. Beyond the
  first overflow the condition is sufficient only: what can still be present there
  depends on which earlier victims were just enough, a subset-sum question.
- SET applies its write and appends it to the log in two critical sections. Two
  connections can have their SETs of one key applied in one order and appended in
  the other; the replayed value is then wrong (`RaceLosesWrite`). `ConcurrentRestart`
  gives the exact condition, `NoRaceOrders` a discipline that ensures it.
- Bytes that arrive in the same read as the end of the stream are buffered and the
  connection is closed without parsing them (eventloop_linux.go:165-182), so the last
  commands of a client that closes early may not be executed: `Client.Read`.
- The first slot-ownership check is skipped during replay, the second is not
  (server.go:602-621). Replay is still never redirected, because the table of a new
  server is in force until after the replay: `FreshTableIsLocal`.
- The byte parser does not look at the two bytes after an argument; the stream parser
  insists on CR LF: `BulkTerminator` for one argument, `TerminatorsMatter` for whole
  commands. They agree on everything the printer writes (`RoundTrip`) and on null bulk
  strings (`NullBulkIsEmpty`). Where a line does not start with a dollar sign as it
  should, the byte parser waits for ever and the stream parser fails (`NoDollar`).
- A line that begins with a blank and then an asterisk is an inline command to the byte
  parser and an array to the stream parser (`StarAfterBlank`), since only the latter
  trims before it looks at the first byte. Only the byte parser limits the length of a
  line (`InlineRoundTrip`).

## Model

| member | source | states |
|---|---|---|
| FifoRing.CompactSnoc | pkg/store/store.go:471-481 | writing one more slot appends its key to the queue, unless it is a tombstone |
| FifoRing.CompactTombstone | pkg/store/store.go:483-496 | a tombstone over the first occurrence removes exactly that occurrence from the queue |
| FifoRing.CompactIdempotent | pkg/store/store.go:536-562 | compaction leaves the queue unchanged |
| FifoRing.SlotIsRemainder | pkg/store/store.go:474-503 | the position computed with a remainder is the wrapped position |
| FifoRing.Ring.constructor | pkg/store/store.go:98-110 | a new ring is an empty queue |
| FifoRing.Ring.Reset | pkg/store/store.go:163-163 | the queue becomes empty although the slots keep their contents |
| FifoRing.Ring.Add | pkg/store/store.go:471-481 | the queue gains the key at its end; head, size and tail stay consistent with a free slot; the overwrite-oldest branch is unreachable |
| FifoRing.Ring.EnsureCapacity | pkg/store/store.go:512-534 | growth leaves the window unchanged and makes room for one more |
| FifoRing.Ring.Remove | pkg/store/store.go:483-496 | the first occurrence leaves the queue, the rest keeps its order |
| FifoRing.Ring.Pop | pkg/store/store.go:499-510 | the oldest key is returned and removed, tombstones are skipped; the empty string exactly when no key is left |
| FifoRing.Ring.CompactIfNeeded | pkg/store/store.go:536-562 | the queue is unchanged and the window does not grow |
| FifoRing.Ring.CopyLive | pkg/store/store.go:544-556 | the copy holds the queue and nothing else |
| MinHeaps.RootMinimal | pkg/store/store.go:602-631 | in heap order no entry is below the root |
| MinHeaps.SiftUp | pkg/store/store.go:569-572 | one swap upward moves the only possible disorder to the parent |
| MinHeaps.SiftDown | pkg/store/store.go:574-592 | one swap with the smallest child moves the only possible disorder to that child |
| MinHeaps.PickChild | pkg/store/store.go:574-592 | the child compared is one that no sibling is below |
| MinHeaps.MinHeap.Push | pkg/store/store.go:605-607 | heap order is kept and the contents gain exactly the entry |
| MinHeaps.MinHeap.Pop | pkg/store/store.go:608-614 | heap order is kept; the entry leaves the contents, and no entry left has a lower timestamp, respectively a lower frequency or the same one and a lower timestamp |
| HeapTracking.TrackPush | pkg/store/store.go:569-572 | after an access with a new id exactly its key becomes findable and versions stay unique |
| HeapTracking.TrackPopStale | pkg/store/store.go:576-580 | a popped entry that fails the version test changes nothing that matters |
| HeapTracking.TrackPopFresh | pkg/store/store.go:576-579 | a popped entry that passes it is the latest access of a findable key, which it untracks |
| HeapTracking.MinimalEntryMinimalKey | pkg/store/store.go:574-592 | a minimal fresh entry names a key that no findable key ranks below |
| HeapTracking.TrackNothing | pkg/store/store.go:161-161 | entries left over from replaced data match nothing |
| Stores.QueueForget | pkg/store/store.go:428-442 | dropping the first occurrence drops the key, and a key that expires or is missing was not queued |
| Stores.Store.constructor | pkg/store/store.go:98-110 | a new store is the empty state with the given limit and policy |
| Stores.Store.Get | pkg/store/store.go:385-405 | answers value, not found or wrong type; expired keys are deleted and counted, hits get a new id, time and frequency in both heaps |
| Stores.Store.Set | pkg/store/store.go:408-446 | is a Set step of the model, eviction included, and keeps every invariant |
| Stores.Store.Write | pkg/store/store.go:408-443 | stores exactly the value under its deadline with frequency one, requeues the key by its TTL, and keeps the byte count exact |
| Stores.Store.DeleteKey | pkg/store/store.go:454-462 | removes the key from data, count, queue and both sets of findable keys, and nothing else |
| Stores.Store.EvictIfNeeded | pkg/store/store.go:255-288 | ends in a state the policy's plain victim-by-victim scan can reach |
| Stores.Store.EvictFifo | pkg/store/store.go:269-287 | each victim is the oldest queued key or, with none queued, a key with a TTL, and goes only while over the limit |
| Stores.Store.EvictRandom | pkg/store/store.go:290-300 | each victim is eligible and goes only while over the limit; it stops within the limit or with nothing eligible left |
| Stores.Store.EvictByHeap | pkg/store/store.go:302-320 | each victim has the lowest rank among the findable keys when it goes, and no findable key left was used earlier (LRU), respectively less often or as often and earlier (LFU), than a victim; the loop terminates |
| Stores.Store.PopFresh | pkg/store/store.go:574-592 | returns a key than which no findable key was used earlier (LRU), respectively less often or as often and earlier (LFU); the empty key when none is findable |
| Stores.Store.ActiveExpire | pkg/store/store.go:205-240 | only overdue keys go; all of them when the data fits the sample or most of a sample was overdue |
| Stores.Store.ExpireSample | pkg/store/store.go:213-230 | at most 20 keys are examined and the overdue ones among them are removed and counted |
| Stores.Store.ExpireAll | pkg/store/store.go:232-239 | every overdue key goes |
| Stores.Store.SnapshotEntries | pkg/store/store.go:134-154 | lists each unexpired item exactly once with its value, type and deadline |
| Stores.Store.RestoreSnapshot | pkg/store/store.go:157-187 | replaces the data by the unexpired entries, whatever they are, with new ids and the queue in entry order, and charges every entry let in; when no two of those share a key, every invariant holds again, the exact byte count included |
| StoreFacts.UsedSplit | pkg/store/store.go:449-462 | the byte total is the sum of the item sizes in any order |
| StoreFacts.EvictedParts | pkg/store/store.go:255-320 | eviction deletes its victims and touches nothing else of data and queue |
| StoreInvariant.InvWritten | pkg/store/store.go:408-443 | a write keeps sizes, unique ids, the queue and the findable keys in step with the data |
| StoreInvariant.InvLooked | pkg/store/store.go:385-405 | a Get, hit or lazy expiry, keeps them in step |
| StoreInvariant.InvLoaded | pkg/store/store.go:157-187 | restoring entries of which no two unexpired ones share a key re-establishes the whole invariant |
| StoreInvariant.ChargedExactly | pkg/store/store.go:162-181 | the byte counter after a restore is the total of the stored sizes if and only if no key was let in twice, and otherwise more |
| StoreInvariant.InvEvicted | pkg/store/store.go:255-320 | eviction under any policy keeps the invariant |
| StoreInvariant.InvStep | pkg/store/store.go:157-469 | every operation keeps the invariant; regular ones also keep every non-expiring key queued |
| StoreInvariant.InvRun | pkg/store/store.go:157-469 | every state of every run satisfies the invariant, under every policy |
| StoreInvariant.IdsNeverReused | pkg/store/store.go:564-567 | an access id handed out once denotes the same item of the same key in every later state |
| StoreEviction.LimitExact | pkg/store/store.go:255-300 | under FIFO, all-keys-random and volatile-random a Set ends over the limit if and only if the items the policy cannot evict are alone over it |
| StoreEviction.UntrackedLimit | pkg/store/store.go:302-320 | under LRU and LFU, with no heap entry for the empty key, a Set ends over the limit if and only if the empty key is stored and alone over it |
| StoreEviction.TrackedLimit | pkg/store/store.go:302-320 | with a heap entry for the empty key, it ends over the limit if that key and what ranks above it are over it, and only if that key and what does not rank below it are; one condition when nothing ties with it |
| StoreEviction.TrackedLimitTight | pkg/store/store.go:302-320 | both conditions are exact: the first says when every choice among ties ends over the limit, the second when some choice does |
| StoreEviction.RegularLimit | pkg/store/store.go:445-445 | in a regular store a regular Set ends within the limit, with at most one key per hundred bytes, under all policies but volatile-random |
| StoreEviction.AlwaysWithinLimit | pkg/store/store.go:205-462 | in every regular run whose restored snapshots fit, no state is ever over the limit, under all policies but volatile-random |
| StoreEviction.VolatileExcess | pkg/store/store.go:290-300 | under volatile-random what stays over the limit has no TTL |
| StoreEviction.EmptyKeyStaysOver | pkg/store/store.go:304-307 | a concrete Set of the empty key that ends over the limit under FIFO, LRU and LFU |
| StoreEviction.NegativeTtlStaysOver | pkg/store/store.go:438-442 | a concrete Set with a negative TTL that ends over the limit under FIFO |
| StoreEviction.EvictionNecessary | pkg/store/store.go:271-319 | survivors keep their items, and without its last victim eviction would not have reached the limit |
| StoreEviction.HeapEvictsLowest | pkg/store/store.go:302-320 | no survivor has an earlier access (LRU), respectively a lower frequency or the same one and an earlier access (LFU), than an evicted key |
| Usages.ItemsAreUsedAs | pkg/store/store.go:385-443 | in every run the frequency of an item is one plus the hits of its key since it was written or restored, and its access time that of its latest use |
| Usages.EvictsLeastUsed | pkg/store/store.go:602-631 | in every run, at a Set under LRU no evicted key was used later than a surviving one, and under LFU none more often since it was written, nor as often and later |
| StoreEviction.FifoVictims | pkg/store/store.go:269-287 | the i-th victim is the i-th queued key, and beyond the queue a key with a TTL |
| StoreEviction.FifoEvictsOldest | pkg/store/store.go:269-287 | FIFO eviction removes exactly a prefix of the queue, and a key with a TTL only after the whole queue |
| StoreEviction.QueueByRecency | pkg/store/store.go:428-442 | in every run the queue is in order of the most recent Set or position in the last restore |
| TimedMap.StoredIsLatest | pkg/store/store.go:352-462 | in every run a stored item is the latest write of its key that no Delete or restore has undone |
| TimedMap.HitIsLatest | pkg/store/store.go:385-405 | a hit returns that write, and its deadline has not passed |
| TimedMap.NoEvictionBelowLimit | pkg/store/store.go:255-258 | up to the limit, and without one, a Set evicts nothing |
| TimedMap.FittingEvictsNothing | pkg/store/store.go:255-258 | a run never over its limit evicts nothing |
| TimedMap.RefinesTimedMap | pkg/store/store.go:352-462 | in every run, under every policy and over the limit or not, Get misses exactly the keys evicted and not written since, and answers for all others as a map with deadlines does |
| TimedMap.SetThenGet | pkg/store/store.go:385-413 | a Set that leaves its key stored is answered with its value up to TTL after the clock reading and as not found ever after; without a TTL with its value at all times |
| TimedMap.GetKeepsOrExpires | pkg/store/store.go:385-405 | a Get removes its key and counts it exactly if it is over, and otherwise changes no value, type or deadline |
| TimedMap.TickExact | pkg/store/store.go:205-240 | a tick removes only keys that are over, and with at most twenty keys all of them |
| TimedMap.TickCounts | pkg/store/store.go:213-239 | a tick counts at most twenty removals; if more than ten, no key that is over is left, and otherwise the data shrinks by exactly that number |
| TimedMap.ExpiryInvisible | pkg/store/store.go:205-240 | an expiry step, active or lazy, changes no answer from its time on |
| TimedMap.SnapshotRoundTrip | pkg/store/store.go:134-187 | restoring a snapshot into any store shows exactly what the source would still show; no earlier heap entry can match a restored item |
| LockedGet.Linearizable | pkg/store/store.go:352-383 | every interleaving of double-checked Gets with other operations has a sequential run with the same answers and final store, each Get after its start |
| Text.ScanDec | pkg/protocol/parser.go:149-172 | a printed number scans back to itself |
| Text.ScanDecInt | pkg/protocol/parser.go:144-172 | a printed number of either sign scans back to itself within 64 bits |
| Text.ScanAround | pkg/protocol/parser.go:149-172 | a sign or a blank before a number and anything but a digit after it are accepted, a line feed before it is not |
| Text.ScanRefuses | pkg/protocol/parser.go:149-172 | a text that begins with anything else is refused, and so is a number beyond 64 bits |
| Text.IndexCrlf | pkg/protocol/parser.go:193-200 | the position of the first CR LF, or -1 when there is none |
| Text.HeaderEnds | pkg/protocol/writer.go:24-30 | looking for CR LF and reading up to LF find the same end of a header |
| Resp.ParseExtend | pkg/protocol/parser.go:109-191 | any result but "incomplete" is unchanged by more bytes |
| Resp.ParseBytes | pkg/protocol/parser.go:109-120 | a parsed command takes between one and all of the bytes |
| Resp.ParseStream | pkg/protocol/parser.go:24-104 | every successful read consumes something |
| Resp.RoundTrip | pkg/protocol/writer.go:21-34 | on the printed form of in-limit arguments, CR, LF and empty ones included, followed by anything, both parsers return the same command and stop at its end |
| RespCases.PrintedForm | pkg/protocol/writer.go:21-34 | what is printed, byte by byte |
| RespCases.LimitsAre | pkg/protocol/parser.go:10-14 | the limits within which commands round-trip: 1 to 1024 arguments of at most 524288 bytes |
| RespCases.PrintedSet | pkg/protocol/writer.go:21-34 | the bytes of a SET of a one-byte key to a one-byte value |
| InlineCommands.InlineRoundTrip | pkg/protocol/parser.go:32-142 | words in any blanks, CR LF and anything are read by both parsers as the first word with just its lower-case letters raised and the other words in order, ending after the line, unless its length exceeds the limit of the byte parser |
| InlineCommands.BlankLine | pkg/protocol/parser.go:32-142 | both parsers read a blank line as no command and stop right after it, unless its length exceeds the limit of the byte parser |
| InlineCommands.StarAfterBlank | pkg/protocol/parser.go:32-142 | a blank before an asterisk makes an inline command for the byte parser and an array for the stream parser |
| Resp.PrefixIncomplete | pkg/protocol/parser.go:144-191 | on every strict prefix of the printed form the byte parser waits |
| Resp.NullBulkIsEmpty | pkg/protocol/parser.go:76-79 | both parsers read a null bulk string as an empty argument |
| RespCases.ArrayLengths | pkg/protocol/parser.go:48-156 | in both parsers more than 1024 arguments are refused, none are no command, and a negative number panics |
| RespCases.ArrayWithoutNumber | pkg/protocol/parser.go:48-156 | both parsers refuse an array header without a number |
| RespCases.BulkLengths | pkg/protocol/parser.go:61-176 | in both parsers an argument longer than 524288 is refused, length -1 is the empty argument, and less panics |
| RespCases.BulkArrives | pkg/protocol/parser.go:81-182 | the byte parser waits for an argument and two more bytes; the stream parser ends cleanly right after the header, fails inside the argument or on other bytes than CR LF, and otherwise reads it |
| RespCases.NoDollar | pkg/protocol/parser.go:61-176 | where a line should be an argument header and is not, the byte parser waits and the stream parser fails |
| RespCases.BulkWithoutNumber | pkg/protocol/parser.go:61-172 | both parsers refuse an argument header without a number |
| RespCases.FirstBadArgument | pkg/protocol/parser.go:59-183 | both parsers end a command as its first unreadable argument ends, whatever well-formed arguments come before it: waiting, with its error or with a panic |
| RespCases.NoLineYet | pkg/protocol/parser.go:24-142 | without a line feed neither parser reads anything |
| Resp.BulkTerminator | pkg/protocol/parser.go:81-91 | the byte parser takes an argument whatever two bytes follow it, the stream parser if and only if they are CR LF, and fails otherwise |
| Resp.TerminatorsMatter | pkg/protocol/parser.go:24-191 | of an array whose arguments end in any two bytes, the byte parser reads the command, the stream parser the same command if and only if every argument ends in CR LF |
| RespCode.ScanCrlf | pkg/protocol/parser.go:193-200 | the scanning loop finds the first CR LF |
| RespCode.WriteCommand | pkg/protocol/writer.go:21-34 | the loop writes the array of bulk strings |
| RespCode.ParseCommandFromBytes | pkg/protocol/parser.go:109-120 | the code computes the specified incremental parse |
| RespCode.ParseInlineLine | pkg/protocol/parser.go:122-142 | the inline branch, with its length limit and its blank lines |
| RespCode.ParseRespArray | pkg/protocol/parser.go:144-191 | the array branch, with errors, limits and faults |
| RespCode.ParseArgLoop | pkg/protocol/parser.go:156-183 | the argument loop collects exactly the specified arguments |
| RespCode.NextBulk | pkg/protocol/parser.go:159-182 | one round of the argument loop |
| RespCode.ParseCommand | pkg/protocol/parser.go:24-104 | the stream parser computes its specification and leaves the reader at the right byte |
| RespCode.ReadBulk | pkg/protocol/parser.go:61-93 | one round of its loop, telling a clean end from a torn argument |
| RespCode.Reader.ReadLine | pkg/protocol/parser.go:26-29 | a whole line or the end of the file |
| RespCode.Reader.ReadFull | pkg/protocol/parser.go:81-86 | exactly n bytes, or end of file, or a short read |
| Draining.DrainSplit | pkg/server/eventloop_linux.go:184-198 | draining in two passes is draining once |
| Draining.DrainEnds | pkg/server/eventloop_linux.go:184-198 | a pass ends at the first bytes that parse to no command, keeping exactly these; an error closes the connection and nothing else does, panics apart |
| Draining.ChunkingIndependence | pkg/server/eventloop_linux.go:158-198 | however the stream is cut, the commands, the status and the unread bytes are those of the whole stream |
| Draining.RequestsArrive | pkg/server/eventloop_linux.go:184-198 | the commands of a well-behaved client arrive, all and in order, under any chunking |
| EventLoops.ServeGate | pkg/server/eventloop_linux.go:199-233 | one reply per command, and exactly the commands after the first correct AUTH are executed |
| EventLoops.ServeReplies | pkg/server/eventloop_linux.go:197-233 | the commands let through run one after the other, each on what those before it left, and every command is answered in its place, by the gate while that is closed and by its own response after |
| EventLoops.GateOpensOn | pkg/server/eventloop_linux.go:199-217 | the gate opens on AUTH, in letters of any case, with exactly the password as its one argument, and on nothing else |
| EventLoops.GateAnswers | pkg/server/eventloop_linux.go:199-217 | it answers OK then, and an error line to everything else |
| EventLoops.NoPasswordNoEntry | pkg/server/eventloop_linux.go:199-217 | a client that never sends the password has nothing executed, and gets an error line for each command |
| EventLoops.ValueReply | pkg/server/eventloop_linux.go:219-232 | a response text that is not reserved reaches the client unchanged |
| EventLoops.ReservedReplies | pkg/server/eventloop_linux.go:219-232 | the bytes for OK, nil and error texts |
| EventLoops.IntegerReply | pkg/server/eventloop_linux.go:222-225 | an integer text of either sign becomes the integer reply of that number |
| EventLoops.Client.constructor | pkg/server/eventloop_linux.go:152-153 | a new connection is authenticated exactly when authentication is off |
| EventLoops.Client.HandleCommand | pkg/server/eventloop_linux.go:197-233 | gate, execution and reply of one command, as specified |
| EventLoops.Client.DrainBuffer | pkg/server/eventloop_linux.go:184-234 | the drain loop serves exactly the parsed commands, in order, and keeps the unread rest |
| EventLoops.Client.Read | pkg/server/eventloop_linux.go:158-235 | after a round of chunks the commands so far are those of all bytes so far, and the connection closes exactly on a parse error; a round that ends in end of file or an error closes it and nothing of that round is parsed or executed |
| EventLoops.Client.Write | pkg/server/eventloop_linux.go:237-264 | sent bytes and pending bytes remain the replies in order; pending bytes are watched; a drained buffer is not |
| EventLoops.Client.QueueWrite | pkg/server/eventloop_linux.go:266-286 | appends to the pending bytes and asks for write events |
| AppendLog.Aof.Write | pkg/persistence/aof.go:69-103 | appends the printed form of the command |
| AppendLog.Aof.ReadCommands | pkg/persistence/aof.go:128-153 | hands out exactly the commands read from the start, and how reading ended |
| AppendLog.CutCommand | pkg/protocol/parser.go:59-94 | a command cut short is never reported; the read fails exactly when an argument is torn |
| AppendLog.TruncatedLog | pkg/persistence/aof.go:128-153 | a log cut at any byte yields exactly the commands wholly before the cut, and an error if and only if the cut tore an argument |
| AppendLog.IntactLog | pkg/persistence/aof.go:128-153 | an intact log reads back completely and without error |
| Replays.ReplayFits | pkg/server/server.go:188-204 | a replay of a run that never exceeded the limit never exceeds it |
| Replays.VolatileEvictsNothing | pkg/store/store.go:290-300 | under volatile-random a run of writes without TTL evicts nothing, over the limit or not |
| Replays.EvictsNothingRepeats | pkg/store/store.go:290-320 | under all-keys-random, and under LRU and LFU without the empty key, a run that evicts nothing was never over its limit |
| Replays.ReplayRebuilds | pkg/server/server.go:188-204 | replaying the logged writes of a run that evicted nothing, reads and ticks between them or not, rebuilds its contents and its queue; under LRU and LFU if the run was not over its limit |
| Restart.RestartFitsExactly | pkg/server/server.go:206-229 | a restart from snapshot and log stays below the limit if and only if none of the contents it passes through, computed from snapshot and log, outweighs the limit |
| RestartEviction.VolatileRecoverable | pkg/store/store.go:290-300 | under volatile-random contents without deadlines meet the condition of the next theorems whatever the log |
| RestartEviction.RestartRebuilds | pkg/server/server.go:206-229 | under any policy and whatever it evicts, a restart ends with the snapshot overlaid by the whole log if every key present at an overflow that can be evicted is written again later |
| RestartEviction.FittingRecoverable | pkg/server/server.go:188-204 | the log of a run never over its limit meets that condition |
| RestartEviction.LogRebuilds | pkg/server/server.go:188-204 | the log alone rebuilds the contents of a run that evicted nothing; under LRU and LFU if its log meets that condition |
| RestartEviction.SnapshotReplayRebuilds | pkg/server/server.go:206-229 | with a snapshot from any point of a run that evicted nothing and its whole log, such a restart ends with the contents of the run; under volatile-random every run and every restart does |
| RestartLoss.LosingReplay | pkg/server/server.go:188-204 | a key exposed at the first overflow of a log (present, evictable, not written again) is lost: under the random policies by some replay, under LRU and LFU by every replay in which its SETs read an earlier time than all others, no tie involved |
| RestartLoss.LogExact | pkg/server/server.go:188-204 | every replay of a log alone, at whatever times, rebuilds its contents if the condition holds at all overflows, and under every policy a server can have only if it holds at the first one; an if-and-only-if when no later overflow violates it alone |
| RestartLoss.LosingRestart | pkg/server/server.go:206-229 | the same for a snapshot and a log, under LRU and LFU for keys the log has written when it overflows |
| RestartLoss.LosingUntouched | pkg/server/server.go:206-229 | under LRU and LFU, if the restored keys not yet written at the first overflow are never written, and the empty key is not among them, every restart whose clock goes on from the restore loses one of them |
| RestartLoss.RestartExact | pkg/server/server.go:206-229 | every restart, at whatever times, rebuilds the contents if the condition holds at all overflows, and only if at the first one no key is exposed except, under LRU and LFU, restored keys not yet written; an if-and-only-if when no later overflow violates it alone and, under LRU and LFU, the log has written every restored key by then |
| Replays.SameVictims | pkg/store/store.go:269-287 | without deadlines FIFO eviction depends on contents and queue alone |
| Replays.FifoReplayRebuilds | pkg/store/store.go:269-287 | under FIFO, on the store, a replay of any run of writes without TTL rebuilds its contents and its queue, evictions included |
| HeapReplay.TwinEvictions | pkg/store/store.go:302-320 | two states with the same contents, findable keys and order of use, no two used at one time, evict the same keys under LRU and LFU |
| HeapReplay.HeapReplayRebuilds | pkg/server/server.go:188-204 | under LRU and LFU a replay of a run of writes without TTL in which no read hits rebuilds its contents and its queue, evictions included, if the clock rises from SET to SET in both |
| Restart.CutLogReplays | pkg/server/server.go:188-204 | a cut log replays exactly the writes wholly before the cut |
| RestartLimit.RestartLosesKey | pkg/server/server.go:206-229 | a run within its limit whose restart from snapshot and log loses a key |
| RestartLimit.HarmlessOverflow | pkg/server/server.go:206-229 | a snapshot and a log that overflow the limit and are always rebuilt |
| RestartLimit.EmptyKeyShields | pkg/store/store.go:302-320 | an LRU run that evicts nothing because of the empty key and an unlogged GET, while every outcome of the replay of its log at times 1, 2, 3 lacks a key |
| Servers.Server.ExecuteCommand | pkg/server/server.go:594-651 | routing, argument and replica checks, the store step, the log append and the reply of SET and GET; a GET that runs here returns the stored string, nil if it is missing or over, and the wrong-type error otherwise |
| Servers.GetReplies | pkg/server/server.go:640-654 | a GET with one argument that runs here logs nothing and is answered with the string stored, with nil if the key is missing or over, with the wrong-type error for another type |
| Servers.SetReplies | pkg/server/server.go:623-639 | a SET with two arguments that runs here is answered with OK, performed without a TTL and logged, except on a replica that is not replaying, where it is refused and not logged |
| Servers.MovedReplies | pkg/server/server.go:602-621 | a command that does not run here is answered with its slot and the owner, and neither performed nor logged |
| Servers.OtherReplies | pkg/server/server.go:651-708 | every other command changes neither store nor log, MIGRATE apart, which is not part of this model |
| Servers.Server.RestoreData | pkg/server/server.go:206-229 | loads the snapshot and then replays the whole log without appending to it; fails exactly when reading the log failed |
| Servers.Server.ReplayOne | pkg/server/server.go:195-197 | a logged command is executed and not logged again |
| Servers.Filled | pkg/server/server.go:46-53 | a server never has the FIFO policy nor a limit of zero; other settings are kept |
| Servers.FilledIn | pkg/server/server.go:47-53 | a missing limit is one gibibyte, and policy number 0 is all-keys-random |
| Servers.Server.constructor | pkg/server/server.go:106-122 | a new server has an empty store with the filled-in limit and policy, the filled-in slot count and a table that gives every slot to itself |
| Servers.HistoryGoesOn | pkg/server/server.go:624-639 | on a server whose log holds exactly the writes of its store's run, this still holds after any commands executed one after the other |
| Servers.LogIsHistory | pkg/server/server.go:624-639 | whatever commands a new server executes, one after the other, its log holds exactly the writes of the run its store has made, in order |
| Replies.GetSeesLatestSet | pkg/server/server.go:623-654 | in every run of a server and under every policy, a GET is answered with the value of the latest SET of its key, or with nil if there was none or the key has been evicted since |
| Replies.SetIsStored | pkg/server/server.go:623-639 | in every run a SET answered with OK is at the end of the log and, unless evicted at once, in the store; on a replica neither changes |
| Servers.ReplayOpsAreWrites | pkg/server/server.go:188-204 | a new server that replays a log of SETs performs exactly those writes |
| Recovery.CrashAndRestart | pkg/server/server.go:125-229 | a server that executes commands one after the other has its log cut at any byte: a new server starts if and only if the cut tore no argument, and what it has replayed is exactly what the old one held at some moment, its queue included, not earlier than any moment whose log was complete; under volatile-random always, else if nothing was evicted (under LRU and LFU below the limit), and under LRU and LFU with evictions too if no GET hit and the clock rose from SET to SET |
| Recovery.NextGeneration | pkg/server/server.go:188-229 | a server restarted from a log cut between two commands and going on again has a log that holds exactly the writes of a run of its store, replayed ones first |
| TornCommands.CutHeaderReads | pkg/protocol/parser.go:61-93 | what is read from a header cut after any number of bytes and an appended command: an error without a digit, else as many bytes as the surviving digits say, if and only if they are there and CR LF follows |
| TornCommands.CleanCut | pkg/protocol/parser.go:59-94 | a cut tears no argument if and only if it is in the array header, at, in or just after the header of an argument, or at the end |
| TornCommands.ResumedReads | pkg/protocol/parser.go:24-104 | a SET cut at, in or after the header of any of its arguments, before an appended SET: inside the name always an error, for key and value the command that the surviving digits and the appended bytes make |
| AppendAfterCut.SecondRestart | pkg/persistence/aof.go:33-50 | for every cut of a log that tears no argument, followed by further SETs, what the next restart reads |
| AppendAfterCut.SecondRestartBogus | pkg/persistence/aof.go:33-50 | cut cleanly after the header of a two-byte key and appended to, the log reads back a SET of "*3" to "SET" and a line "$n" in place of the first new SET, and goes on inside its key |
| AppendAfterCut.LuckyCut | pkg/persistence/aof.go:33-50 | a cut after the header of a value and an appended SET that read back exactly right |
| ConcurrentSet.AlwaysAccounted | pkg/server/server.go:632-637 | in every interleaving each applied SET is in the log once or still to be appended by one thread |
| ConcurrentSet.LogRebuildsExactly | pkg/server/server.go:632-637 | with nothing pending, replaying the log gives the applied contents if and only if for each key the SET appended last wrote the value of the SET applied last |
| ConcurrentSet.NoRaceOrders | pkg/server/server.go:632-637 | if no SET is applied while another of its key is still to be appended, the log has the SETs of each key in the order applied |
| ConcurrentSet.ConcurrentRestart | pkg/server/server.go:188-204 | for concurrent connections, a store that evicted nothing and a log that meets the condition of `RestartEviction.RestartRebuilds` (under volatile-random any store and any log), a replay on a new server rebuilds the store if and only if the last SETs agree, and they do without such races |
| ConcurrentSet.RaceLosesWrite | pkg/server/server.go:632-637 | two SETs of one key applied in one order and appended in the other: the store holds the second value, the log ends with the first |
| Slots.ComputeCrc16 | pkg/server/slot.go:4-17 | the nested loops compute the specified register |
| Slots.KnownAnswer | pkg/server/slot.go:4-17 | the check value of the Redis Cluster specification, Appendix A |
| Slots.CrcLinear | pkg/server/slot.go:4-17 | the checksum of an XOR of equal-length inputs is the XOR of the checksums |
| Slots.CheckValue | pkg/server/slot.go:4-17 | appending the checksum, big end first, gives 0 |
| Slots.WindowBijection | pkg/server/slot.go:4-17 | between any fixed bytes, each checksum is reached by exactly one two-byte window |
| Slots.KeySlotInRange | pkg/server/slot.go:19-24 | for 1 to 65535 slots the slot is in range |
| Slots.HitsIsKeySlot | pkg/server/slot.go:19-24 | a window hits a slot if and only if the key that contains it goes to that slot |
| Slots.FourWindowsPerSlot | pkg/server/slot.go:19-24 | each of 16384 slots is hit by exactly four two-byte windows, which are the windows of the keys with these surroundings that go to it |
| SlotKeys.KeyBytes | pkg/server/slot.go:4-17 | the checksum is taken over the bytes of the key themselves |
| SlotKeys.KnownKeySlot | pkg/server/slot.go:19-24 | the key "123456789" goes to slot 12739, by the check value of the Redis Cluster specification, Appendix A |
| SlotKeys.KeySlotEdges | pkg/server/slot.go:19-24 | without slots every key goes to slot 0; the slot count works modulo 65536, and its multiples divide by zero |
| SlotKeys.FourPairsPerSlot | pkg/server/slot.go:19-24 | whatever bytes surround them, exactly four pairs of bytes put a key into each of 16384 slots |
| Cluster.OwnerIsFirstMatch | pkg/server/cluster.go:34-39 | the owner is the first range with start <= slot <= end, overlaps or not |
| Cluster.NoMatch | pkg/server/cluster.go:34-45 | a slot in no range goes to the first range, or to nobody when there is none |
| Cluster.ClusterState.constructor | pkg/server/cluster.go:22-27 | a new table gives every slot to this node |
| Cluster.ClusterState.SetRanges | pkg/server/cluster.go:29-31 | the table is replaced |
| Cluster.ClusterState.Lookup | pkg/server/cluster.go:34-45 | first match, else the first range, else nothing |
| Cluster.KeyedRouting | pkg/server/server.go:602-621 | a command with a key runs on exactly the owner of its slot; every other node, leader or not, answers with that owner |
| Cluster.OneRedirectSuffices | pkg/server/server.go:602-621 | among nodes that share a table the node a client is sent to does not redirect again |
| Cluster.UnkeyedRouting | pkg/server/server.go:602-612 | without a key a node redirects exactly when it is not the leader, does not replay and does not own slot 0, and then to the owner of that slot |
| Cluster.NeverToNobody | pkg/server/server.go:602-621 | no command is sent to a node without an address nor to the node it is on; with an empty table everything runs here |
| Cluster.FreshTableIsLocal | pkg/server/server.go:602-621 | with the table of a new server nothing is redirected |
| PubSub.KeepsInv | pkg/pubsub/pubsub.go:22-91 | every step of every thread keeps the invariant |
| PubSub.AlwaysSafe | pkg/pubsub/pubsub.go:22-91 | no send on a closed channel, no double close, each channel registered at most once and only while open, at most 100 buffered, received and buffered messages an in-order selection of the attempts, all attempts accounted for |
| PubSub.SendEnabled | pkg/pubsub/pubsub.go:81-86 | a send in progress can always proceed without a panic |
| PubSub.SendOutcome | pkg/pubsub/pubsub.go:81-86 | a subscriber with fewer than a hundred messages waiting takes the message at the end and is counted; any other drops it |
| PubSub.SubscribeOutcome | pkg/pubsub/pubsub.go:22-29 | a new subscriber is open, empty and the last one of its channel, and no other list or subscriber changes |
| PubSub.RemoveOutcome | pkg/pubsub/pubsub.go:32-55 | removing takes just this subscriber out of its channel, and marks it to be closed if and only if it was there |
| PubSub.CloseOutcome | pkg/pubsub/pubsub.go:32-57 | a removed subscriber is closed, keeps what it has buffered, and no other one is touched |
| PubSub.AlwaysTagged | pkg/pubsub/pubsub.go:71-91 | in every interleaving a Publish in progress has tried exactly its done subscribers, once each, and exactly the accepted ones have received or buffered its message, once |
| PubSub.PublishCounts | pkg/pubsub/pubsub.go:71-91 | when a Publish returns it has tried each subscriber of its channel exactly once and no other, none has its message twice, and the result is the number of those that have received or buffered it |
| PubSub.SendsAreOffers | pkg/pubsub/pubsub.go:80-90 | uninterrupted, the steps of a Publish do what its loop does |
| PubSub.OfferAllAt | pkg/pubsub/pubsub.go:81-89 | each subscriber of the channel is offered the message once and no other is touched |
| PubSub.OfferByRoom | pkg/pubsub/pubsub.go:81-86 | an offer is appended exactly if fewer than a hundred messages wait |
| PubSub.RoomCounts | pkg/pubsub/pubsub.go:80-90 | the number that a Publish returns is the size of the set of subscribers with fewer than a hundred messages waiting |
| PubSub.Hub.AddSubscriber | pkg/pubsub/pubsub.go:22-29 | a new channel is appended to the list of its topic |
| PubSub.Hub.Unregister | pkg/pubsub/pubsub.go:32-57 | the subscriber leaves the list, an empty list leaves the registry, and only a subscriber that was found is to be closed |
| PubSub.Hub.Publish | pkg/pubsub/pubsub.go:71-91 | offers the message to every subscriber and counts those with room |

## Left out

- Integer widths: sizes, counters, ids and deadlines are unbounded integers; 64-bit overflow is not modelled.
- Text outside ASCII: `strings.TrimSpace`, `strings.Fields`, `strings.ToUpper` and the blanks of `fmt.Sscanf` are modelled for ASCII, so Unicode spaces and letters are treated as plain bytes.
- Negative RESP lengths: the source panics on them; they are the separate outcomes `Fault` and `Crash`, about which nothing is claimed beyond that.
- Stores.Store.ActiveExpire: does not claim more about the expired counter than the sample pass gives it; the source does not count the deletions of the full pass.
- The tombstone counter of the ring: it only decides when to compact, so nothing is claimed about its value.
- The flag that allows keys with a TTL to be evicted after the queue is empty: always on in the source, so it is not a parameter.
- The two heap entry types of the source are one type here, with the frequency unused by the LRU order.
- Slot counts outside 1 to 65535: `KeySlot` follows the source there, division by zero included, and the routing theorems do not cover them.
- Servers.Server.ExecuteCommand: PUBLISH, PING, INFO, CLUSTER, SAVE and BGSAVE are one reply that touches neither store nor log; MIGRATE, whose local delete is not logged, is not part of this model.
- Servers.Server.RestoreData: requires distinct keys in the snapshot, which every snapshot of a map has; `ChargedExactly` says what a hand-made one does to the byte counter.
- Servers.LogIsHistory: sequential execution only, as in the event loop; concurrent connections are covered by `ConcurrentSet`, where only SETs without TTL, reads and expiry ticks interleave.
- RestartLoss.RestartExact: beyond the first overflow the condition is sufficient and not claimed to be necessary; under LRU and LFU nothing is claimed to be lost for restored keys that tie, except by `LosingUntouched`, because the positions in the heap decide; under FIFO, which no server has, there is no converse.
- Expiry ticks during a restart: the runs of `RestartEviction` and `RestartLoss` hold the restore and the SETs only, so when a snapshot has deadlines an entry may also expire before the replay ends.
- Replays.ReplayRebuilds: for LRU and LFU the queue is claimed to be rebuilt only for runs never over their limit; `LogRebuilds` covers the contents of the others.
- EventLoops.Client: the executor is any function of a server state; failing epoll calls are not modelled.
- Blank lines and empty arrays in the event loop: the drain loop stops at them without consuming them, as in the source; no progress past them is claimed.
- Replication, leader election and the replica stream: writes between snapshot and registration are not streamed and full channels drop commands, so convergence does not hold.
- The snapshot file format and its atomic rename: saving and loading are the identity on entries.
- Sockets, TLS, CIDR checks, metrics, fsync timing, configuration, the CLI client, the text form of slot ranges and the macOS event loop.
