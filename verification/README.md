# Verified model of the key-value store

A C key-value store keeps its data in four engines (array, red-black tree, hash table, skip list) behind one command table, logs successful writes to an append-only file, saves binary snapshots, and replicates from a Primary to a Replica: a snapshot crosses RDMA, the rest of the log crosses TCP. This project models that system in Dafny and proves what it is for: a Replica is a copy, recovery is exact, the engines are maps, the file formats and protocols read back what was written, and the allocator never hands out overlapping memory.

`dafny verify dfyconfig.toml` checks everything.

## How the pieces fit

- **Bytes, Codec, CodecWaits, ControlLines, ControlForms** - byte strings, the RESP2 command codec (arrays of bulk strings), what its parser waits for, and the text lines of the replication protocol, byte for byte. The loops of the parser and the encoder are proved against functions, and those functions against a declarative wire format.
- **Store, Strings, Server, Replies** - the command table, each engine as a finite map, `strcmp`, the executor shared by clients, recovery and replication, and what clients are answered, in terms of the tables.
- **Aof, AofFile, Crc, CrcDivision, Snapshot, SnapshotFormat, SnapshotFile, SnapshotIo, Recovery** - persistence: the log as concatenated canonical encodings, the snapshot format byte for byte with its CRC-32 (section 8 of RFC 1952, formally section 8.1.1.6.2 of ITU-T V.42) as polynomial division, the buffered writer, the replication's snapshot files, and crash recovery over whole runs in all three persistence modes.
- **Uring** - the io_uring batch writer against a kernel that may interrupt, shorten, reorder and cancel. A ghost field records the first real error of the kernel; contracts of the writers name it, so that without one they succeed.
- **Rdma, Replication, Managers** - the RDMA pending-flag discipline; every replication callback as a step function; and the manager objects of both sides, whose methods change fields in place and are proved to compute those step functions.
- **Cluster** (state machine), **ClusterInvariant**, **ClusterGrowth**, **ClusterNetwork**, **ClusterPrimary**, **ClusterReplica**, **ClusterCatchUp**, **ClusterHandshake**, **ClusterPsync** (each step keeps the invariant), **ClusterTheorems** (what holds in every run), **ClusterFiles** (what lies at the final snapshot path), **ClusterProgress** (a transfer always advances), **ClusterRefusals** (what each side refuses), **ClusterCalm**, **ClusterSync**, **ClusterStart**, **ClusterConverge** and **ClusterUndisturbed** (runs without failures: undisturbed callbacks never fail, the handshake leads to a session, a full synchronisation always goes on to its end, and the Replica then becomes equal to the Primary) - Primary, Replica, TCP and RDMA as one state machine. Nondeterminism is in the choice of step: completion order, read sizes, where TCP cuts the stream, response capacities, client writes on the Primary and SAVEs on the Replica between any two steps, disconnects and Replica restarts at any point. A run is without failures when no step closes a connection or restarts a process, and connection events are those of the RDMA connection the Replica started: its request, and its end once the Primary has asked for it.
- **RbGraph, RbInsert, RbDelete, RbTree** - the red-black tree on the heap, with parent pointers and the shared mutable sentinel. A ghost graph records what the heap holds; invariants are local to a node and its neighbours. `nil->parent` is left open, because deletion uses it as scratch.
- **SkipLevels, SkipList** - the skip list on the heap, for every outcome of the random level.
- **PoolLayout, Slabs, Regions, Allocator** - the slab and large-object allocator: bitmaps in bytes, free lists threaded through the free blocks, region geometry, and headers found by masking addresses. A ghost counter of refused kernel calls says when a request may fail.
- **Buffers, Reader** - the growable connection buffers and the pipelined reader loop.

Sizes follow an LP64 platform: `size_t` has 64 bits, `int` 32, a slab header 64 bytes, a large-object header 32, and the strictest alignment is 16.

## Where code and documentation differ

- `SET` on an existing key overwrites and returns 0 in every engine; the reply "key already exists" is never produced by a `SET`. The model follows the code.
- "*0" followed by a carriage return, and a field whose first delimiter byte is wrong, are refused one byte later than they could be (CodecWaits.OneByteLate).
- `HDEL` of a missing key is an error, not ":0"; the other engines report 0.
- Aligning the Replica's AOF to the checkpoint fixes only its length. Only the bytes from the boundary on are the Primary's, and that is what is proved.
- Any pointer into the first 64 KiB of a large region frees the object, because only the header is looked at. For slabs every pointer but the start of a block in use is refused.

## Model

| member | source | states |
|---|---|---|
| `ClusterTheorems.StepOk` | src/replication/replication.c:652-849 | any callback of either side, network action, client write, close or Replica restart keeps the joint invariant |
| `ClusterTheorems.RunOk` | src/replication/replication.c:955-1326 | the invariant holds after every finite run from the initial state |
| `ClusterTheorems.ReplicaFollowsPrimary` | src/replication/replication.c:408-450 | in every reachable state a Replica in CATCH_UP or ONLINE holds the Primary's four maps as of the AOF offset equal to its own AOF length, and both AOFs agree byte for byte from the snapshot boundary to that length |
| `ClusterTheorems.OffsetDeterminesData` | src/replication/replication.c:384-389 | comparing byte offsets is enough: two copies with equal AOF length hold equal data |
| `ClusterTheorems.ReplicationNeverFails` | src/replication/replication.c:594-644 | no replicated command and no ONLINE line is ever refused by the Replica, wherever TCP cuts the stream |
| `ClusterTheorems.StreamIsSpliced` | src/replication/replication.c:1175-1326 | the bytes sent after the notification are AOF[O..n), one ONLINE n line, AOF[n..sent), with O and n command boundaries and at most one such line per session |
| `ClusterTheorems.SnapshotIsBoundary` | src/replication/replication.c:1359-1456 | the file of a session loads as the maps at the announced command boundary, with that boundary as checkpoint |
| `ClusterTheorems.TransferIsStopAndWait` | src/replication/replication.c:913-1173 | Primary ack <= Replica ack <= Replica bytes <= Primary bytes <= Replica bytes + 1 MiB; the temporary file is a prefix of the snapshot; bytes + remaining = file size on both sides; at most one message is under way and none ever met an unposted receive |
| `ClusterFiles.InstalledExactly` | src/replication/replication.c:488-523 | the final snapshot path changes in exactly two kinds of steps: the completion of a transfer puts the whole announced file there, of exactly the announced size, of the session of the current connection; a SAVE of an online Replica puts its own snapshot there |
| `ClusterFiles.CatchingUpKeepsFile` | src/replication/replication.c:488-523 | in every run the file at the final path is the announced one throughout CATCH_UP |
| `ClusterFiles.SaveReplacesAnnounced` | src/kvstore.c:111-127 | a client SAVE on an online Replica replaces the announced file by a snapshot of the Replica itself, which loads as its own maps at its own AOF offset; it stays online |
| `ClusterFiles.FilesRun` | src/kvstore.c:111-127 | in every run, past full sync: the committed file is the announced one, and the final path holds it or a later snapshot of the same history |
| `ClusterFiles.OnlineIsEarned` | src/replication/replication.c:1645-1651 | is_online holds only after receive, commit, install and an ONLINE line of this session, on a live connection; the final path holds the announced file or a later snapshot of the same history |
| `ClusterTheorems.OnlyOnlineLineRaises` | src/replication/replication.c:338-405 | a Replica becomes ONLINE only through an ONLINE line that names exactly its own AOF length, in CATCH_UP |
| `ClusterTheorems.SessionUndisturbed` | src/replication/replication.c:1359-1365 | a PSYNC or the closing of another connection changes nothing of the active session or of the bytes under way to it |
| `ClusterSync.SyncMeasureFalls` | src/replication/replication.c:652-848 | in a run without failures every step either brings an active synchronisation closer to its end, by a measure over all stages from the notification to the end of the connection, or does not touch it |
| `ClusterSync.SyncNeverStuck` | src/replication/replication.c:652-848 | until both sides have left FULL_SYNC some step without a failure and without a client lowers the measure: notification read, route resolved, request accepted, connection established, blocks and acknowledgements, disconnect on either side first |
| `ClusterSync.FullSyncCompletes` | src/replication/replication.c:1042-1172 | from the notification, or any later state, one run without failures of at most as many steps as the measure leads both sides out of FULL_SYNC, in the same session |
| `ClusterSync.Stages` | src/replication/replication.c:652-848 | in a run without failures an active synchronisation is in one of six stages: notified, requested, on a shared connection, left by the Replica, left by the Primary, over |
| `ClusterCalm.CleanStep` | src/replication/replication.c:113-131 | without failures the two ends always belong together: an accepted connection is shared, or the other side has regularly left it |
| `ClusterCalm.CalmRunsAreClean` | src/replication/replication.c:652-848 | and so in every run without failures from such a state |
| `ClusterUndisturbed.NothingFails` | src/replication/replication.c:652-1326 | only the surroundings end a connection: while reads return at least one byte of what is left, completions are real, events are those of the one RDMA connection, answers find room and a PSYNC meets a snapshot, no callback and no handler of either side fails |
| `ClusterUndisturbed.UndisturbedRunsAreCalm` | src/replication/replication.c:652-1326 | so every such run from the start is a run without failures |
| `ClusterConverge.Converges` | src/replication/replication.c:1175-1326 | from any state of a synchronisation a run without failures and without new writes leads to an online Replica with the AOF length and the four maps of the Primary |
| `ClusterConverge.CalmRunConverges` | src/replication/replication.c:202-450 | whatever a run without failures has done since the start, with or without a session, it can go on to that state: a PSYNC that can be served is all it takes |
| `ClusterConverge.Reconverges` | src/replication/replication.c:168-200 | whatever any run has done, failures, refusals and restarts included: once the open connections are closed, a run without failures leads to an online Replica that equals the Primary |
| `ClusterStart.OwnerRun` | src/replication/replication.c:1351-1431 | in every run a session whose connection is open on the Primary is the active one |
| `ClusterStart.HandshakeStages` | src/replication/replication.c:202-242 | without a session the two connected sides are exchanging exactly one of three lines: PING, PONG or PSYNC |
| `ClusterStart.HandshakeMoves` | src/replication/replication.c:138-242 | and some step without a failure brings the session closer: connect, read, answer PING by PONG, PONG by PSYNC, PSYNC by the notification, which always fits a response of 1024 bytes |
| `ClusterStart.SessionStarts` | src/replication/replication.c:1327-1456 | so from every such state a run without failures reaches a session |
| `ClusterProgress.MeasureFalls` | src/replication/replication.c:1042-1172 | on a shared connection, whatever failed before, every step of the transfer either changes nothing or lowers a measure over unsent bytes, the message stage, and the pending flags |
| `ClusterProgress.NeverStuck` | src/replication/replication.c:748-848 | on a shared connection, whatever failed before, some step of a side or of the network advances an unfinished transfer |
| `ClusterProgress.TransferCompletes` | src/replication/replication.c:748-848 | from every reachable shared connection there is a run of such steps until the Primary asks for its end |
| `ClusterProgress.TransferEnds` | src/replication/replication.c:1042-1172 | and on to a state in which both sides, one after the other, have left FULL_SYNC and the connection |
| `ClusterRefusals.PrimaryEventRefused` | src/replication/replication.c:984-1041 | a failed connection, an event of the other side, or an end before everything is acknowledged ends the session on the Primary |
| `ClusterRefusals.PrimaryMessageRefused` | src/replication/replication.c:1104-1172 | so does any message but the READY of this synchronisation before the first block and the acknowledgement of exactly the bytes sent after it |
| `ClusterRefusals.SecondPsyncRefused` | src/replication/replication.c:1351-1365 | a PSYNC while a session or its connection exists changes nothing |
| `ClusterRefusals.ReplicaEventRefused` | src/replication/replication.c:672-747 | a failed connection, an event of the other side, or an end before everything is acknowledged makes the Replica drop the connection; files and maps stay |
| `ClusterRefusals.InstalledOnlyAtBoundary` | src/replication/replication.c:488-523 | the Replica leaves FULL_SYNC only with a file that loads with the announced offset as its checkpoint, and then holds its maps and an AOF of that length |
| `ClusterRefusals.WrongSnapshotRefused` | src/kvstore.c:1276-1295 | any other complete file is refused, and the engines are left empty |
| `ClusterRefusals.BlockRefused` | src/replication/replication.c:529-558 | a block outside FULL_SYNC, an empty one, one of more than 1 MiB or longer than the rest of the snapshot is refused |
| `ClusterRefusals.LineRefused` | src/replication/replication.c:202-331 | the handshake understands PONG and a well-formed notification and refuses every other line |
| `ClusterRefusals.OnlineExactly` | src/replication/replication.c:338-405 | an ONLINE line raises the Replica exactly when it has the form of one and names the Replica's own AOF length; every other line is refused and changes nothing |
| `ClusterPrimary.PrimaryPollOk` | src/replication/replication.c:955-1326 | the Primary's stream callback keeps the invariant for every event, completion and read size |
| `ClusterReplica.ReplicaPollOk` | src/replication/replication.c:652-849 | the Replica's stream callback keeps the invariant for every event and completion |
| `ClusterHandshake.ReplicaHandleOk` | src/replication/replication.c:560-646 | the Replica's message callback keeps the invariant on any buffered input |
| `ClusterPsync.PrimaryHandleOk` | src/replication/replication.c:1460-1472 | the Primary's message callback keeps the invariant for any lines of any connection and any response capacity; only a batch that starts a session needs a valid snapshot |
| `ClusterPsync.BatchStartsOnce` | src/replication/replication.c:1359-1365 | a batch of lines starts at most one full synchronisation, and none while one is active |
| `ClusterCatchUp.ReplicatedInputAccepted` | src/replication/replication.c:594-644 | the input of a Replica that is catching up is always a prefix of a command or of an ONLINE line that will be accepted, or starts with one |
| `Managers.RdmaSync.Close` | src/replication/replication.c:113-131 | the synchronisation state is cleared in place |
| `Managers.PrimaryManager.SendSnapshotChunk` | src/replication/replication.c:913-953 | reads one block and sends it; counters, flags and reader change exactly as in the step function |
| `Managers.PrimaryManager.FullSyncRound` | src/replication/replication.c:1042-1172 | one FULL_SYNC round computes the step function that the joint invariant is proved for; when it fails only the connection, which is closed next, is left open |
| `Managers.PrimaryManager.StartAofCatchUp` | src/replication/replication.c:876-910 | opens the AOF range from the snapshot boundary to the current end |
| `Managers.PrimaryManager.AofRounds` | src/replication/replication.c:1175-1326 | the loop over reader rounds computes the AOF part of the step function, with ONLINE announced once |
| `Managers.PrimaryManager.Stream` | src/replication/replication.c:955-1326 | the whole callback computes the step function; after a failure the state is that of the step function once the connection is closed |
| `Managers.PrimaryManager.OnReplicaDisconnected` | src/replication/replication.c:1614-1643 | only the active connection ends the session; all of its state is reset |
| `Managers.PrimaryManager.HandleFrame` | src/replication/replication.c:1327-1456 | PING and PSYNC lines change the manager exactly as in the step function, others are answered by an error; a response that does not stay below the capacity is refused, after the session has started |
| `Managers.PrimaryManager.StartSession` | src/replication/replication.c:1351-1431 | the PSYNC branch: refused while a session or connection is there, else exactly the new session and its notification |
| `Managers.PrimaryManager.HandleLines` | src/network/buffer.c:155-227 | the loop over complete lines handles them in order within the response capacity, concatenates the answers, reports the bytes consumed, and leaves the manager as the step function says also when a line is refused |
| `Managers.ReplicaManager.OnPrimaryConnected` | src/replication/replication.c:138-166 | the handshake starts with a PING on the new connection |
| `Managers.ReplicaManager.OnPrimaryDisconnected` | src/replication/replication.c:168-200 | everything but the files and the maps is reset |
| `Managers.ReplicaManager.InstallSnapshot` | src/kvstore.c:1255-1317 | loads the snapshot into empty engines and aligns the AOF to its checkpoint, or fails |
| `Managers.ReplicaManager.FinishSync` | src/replication/replication.c:488-523 | commit, install, compare the checkpoint with the announced offset, enter CATCH_UP |
| `Managers.ReplicaManager.ReceiveSnapshotData` | src/replication/replication.c:529-558 | one block goes to the temporary file; the last one finishes the transfer |
| `Managers.ReplicaManager.Acknowledge` | src/replication/replication.c:748-760 | a cumulative acknowledgement whenever bytes are unacknowledged and no send is pending |
| `Managers.ReplicaManager.TransferRound` | src/replication/replication.c:748-848 | one round after the connection event computes the step function, files and maps also when it fails |
| `Managers.ReplicaManager.UpstreamStream` | src/replication/replication.c:652-849 | the whole callback computes the step function; after a failure the state is that of the step function once the connection is closed |
| `Managers.ReplicaManager.HandleHandshakeFrame` | src/replication/replication.c:202-331 | PONG and FULLRESYNC lines change the manager exactly as in the step function, also when they are refused; that this handshake leads to a session is ClusterStart.SessionStarts |
| `Managers.ReplicaManager.HandleOnlineFrame` | src/replication/replication.c:338-405 | accepted exactly when the offset is the Replica's own AOF length; refused lines change nothing |
| `Managers.ReplicaManager.ExecuteReplicated` | src/replication/replication.c:408-450 | executes, logs and advances the offset, or fails, with the state of either outcome |
| `Managers.ReplicaManager.HandleControlLine` | src/replication/replication.c:456-482 | takes one line and dispatches on the phase, with the state of either outcome |
| `Managers.ReplicaManager.HandleUpstream` | src/replication/replication.c:560-646 | commands and control lines are told apart by their first byte, one per call, with the state of either outcome |
| `ControlLines.FindLineEnd` | src/network/buffer.c:128-153 | the loop finds the first line feed and a carriage return before it |
| `ControlLines.OnlineRoundTrip` | src/replication/replication.c:338-382 | a printed ONLINE line is read back as its offset |
| `ControlLines.ResyncRoundTrip` | src/replication/replication.c:202-260 | a printed FULLRESYNC line is read back as its five fields |
| `ControlLines.LinePending` | src/network/buffer.c:128-153 | a line is recognised only when it has arrived completely |
| `ControlForms.LineExactly` | src/network/buffer.c:128-153 | a line ends at the first line feed, a carriage return just before it is dropped, and without a line feed there is none |
| `ControlForms.ResyncParsedExactly` | src/replication/replication.c:244-275 | the notification is understood exactly as "FULLRESYNC_RDMA ", identifier, offset, size, port and synchronisation identifier, one blank between each |
| `ControlForms.OnlineParsedExactly` | src/replication/replication.c:338-382 | an ONLINE line is understood exactly as "ONLINE " and a run of digits |
| `ControlForms.ResyncPrinted` | src/replication/replication.c:1420-1431 | the notification is printed in that form, without leading zeros |
| `ControlLines.MessageSizes` | src/replication/replication.c:652-700 | READY and ACK messages stay below the 64 bytes of their buffers, terminator included |
| `Rdma.Connection.Receive` | src/network/rdma_transport.c:226-264 | refused exactly while a receive is posted |
| `Rdma.Connection.Submit` | src/network/rdma_transport.c:267-310 | refused exactly for no data, too much data, or an unfinished send |
| `Rdma.Connection.Poll` | src/network/rdma_transport.c:312-372 | a completion clears exactly its own pending flag |
| `RbTree.Tree.LeftRotate` | src/engines/kvs_rbtree.c:38-58 | the pointers after the rotation are the rotated graph |
| `RbTree.Tree.RightRotate` | src/engines/kvs_rbtree.c:61-81 | the pointers after the rotation are the rotated graph |
| `RbGraph.RotateLeftOk` | src/engines/kvs_rbtree.c:38-58 | a rotation keeps key order and parent/child consistency of every node |
| `RbGraph.RotateRightOk` | src/engines/kvs_rbtree.c:61-81 | the same for the mirror image |
| `RbTree.Tree.InsertFixup` | src/engines/kvs_rbtree.c:83-128 | from one possible red-red edge to a balanced tree, same nodes, same order; terminates |
| `RbTree.Tree.Insert` | src/engines/kvs_rbtree.c:131-178 | exactly one new binding and one new node, and the tree is valid; an equal key changes nothing |
| `RbTree.Tree.DeleteFixup` | src/engines/kvs_rbtree.c:180-248 | from one missing black level, also at the sentinel, to a balanced tree; terminates |
| `RbTree.Tree.Delete` | src/engines/kvs_rbtree.c:250-298 | exactly the binding of the node goes; the detached node carries its key and value; the sentinel stays BLACK without key and value |
| `RbTree.Tree.Mini` | src/engines/kvs_rbtree.c:9-14 | the leftmost node of a subtree |
| `RbTree.Tree.Successor` | src/engines/kvs_rbtree.c:23-35 | the next node in key order, or the sentinel |
| `RbTree.Tree.Search` | src/engines/kvs_rbtree.c:300-328 | finds the key exactly when it is stored, within twice the black height |
| `RbTree.BlackHeightBound` | src/engines/kvs_rbtree.c:83-128 | a subtree of black height b holds at least 2^b - 1 nodes |
| `RbTree.LogarithmicHeight` | src/engines/kvs_rbtree.c:300-328 | the height of a tree of n keys is at most 2 log2(n + 1) |
| `RbTree.Tree.Set` | src/engines/kvs_rbtree.c:512-548 | code 0, and the stored map with the key bound to the value, whether the key was there or not |
| `RbTree.Tree.Get` | src/engines/kvs_rbtree.c:551-556 | the stored value; a missing key ends at the sentinel |
| `RbTree.Tree.Del` | src/engines/kvs_rbtree.c:558-568 | code 0 and exactly this key removed, or code 1 for a missing key and nothing changed |
| `RbTree.Tree.Mod` | src/engines/kvs_rbtree.c:570-595 | code 0 and the new value for a stored key, or code 1 for a missing key and nothing changed |
| `RbTree.Tree.Exist` | src/engines/kvs_rbtree.c:597-606 | code 0 exactly when the key is stored; nothing changes |
| `RbTree.Tree.Destroy` | src/engines/kvs_rbtree.c:492-509 | removes every node and terminates |
| `RbTree.Tree.ForEach` | src/engines/kvs_rbtree.c:607-671 | every binding once, in key order, up to the call that the visitor refuses; the result tells which |
| `Strings.CompareEqual` | src/engines/kvs_rbtree.c:300-328 | the string comparison is zero exactly for equal keys |
| `Strings.LessTransitive` | src/engines/kvs_rbtree.c:300-328 | and orders keys transitively |
| `Strings.LessExactly` | src/engines/kvs_rbtree.c:300-328 | a string is smaller exactly if it ends, or has the smaller byte, at the first difference |
| `Strings.BindingsInsert` | src/engines/kvs_rbtree.c:131-178 | a key put into its gap of a sorted list is one more binding |
| `Strings.BindingsRemove` | src/engines/kvs_rbtree.c:250-298 | a key taken out of a sorted list is one binding fewer |
| `SkipList.SkipList.Advance` | src/engines/kvs_skiplist.c:132-138 | the inner loop of every search ends at the last node of the level before the slot, and never reads past a forward array |
| `SkipList.SkipList.Descend` | src/engines/kvs_skiplist.c:129-139 | update[i] is the last node before the slot that reaches level i; the node found is the first whose key is not smaller |
| `SkipList.SkipList.SearchNode` | src/engines/kvs_skiplist.c:190-208 | the node of the key, or null exactly when it is not stored |
| `SkipList.SkipList.LinkAll` | src/engines/kvs_skiplist.c:155-158 | links the new node on each of its levels and leaves the others as they are |
| `SkipList.SkipList.Insert` | src/engines/kvs_skiplist.c:141-159 | one more binding; every level is in order again, `level` is the highest in use |
| `SkipList.SkipList.Set` | src/engines/kvs_skiplist.c:125-172 | for every random level: code 0, and the stored map with the key bound to the value |
| `SkipList.SkipList.RandomLevel` | src/engines/kvs_skiplist.c:118-123 | any level up to the maximum |
| `SkipList.SkipList.UnlinkAll` | src/engines/kvs_skiplist.c:236-241 | the loop stops exactly at the first level the node does not reach, and the node is gone from all levels |
| `SkipList.SkipList.LowerLevel` | src/engines/kvs_skiplist.c:242-244 | `level` becomes the highest non-empty level, or 0 |
| `SkipList.SkipList.Del` | src/engines/kvs_skiplist.c:219-251 | code 0 and exactly this key removed, or code 1 for a missing key and nothing changed |
| `SkipList.SkipList.Mod` | src/engines/kvs_skiplist.c:257-274 | code 0 and the new value for a stored key, or code 1 for a missing key and nothing changed |
| `SkipList.SkipList.Get` | src/engines/kvs_skiplist.c:209-218 | the stored value, if any |
| `SkipList.SkipList.Exist` | src/engines/kvs_skiplist.c:276-285 | code 0 exactly when the key is stored; nothing changes |
| `SkipList.SkipList.ForEach` | src/engines/kvs_skiplist.c:286-319 | every binding once, in key order, up to the call that the visitor refuses; the result tells which |
| `SkipList.SkipList.Destroy` | src/engines/kvs_skiplist.c:88-117 | gives every node back exactly once, the header last |
| `SkipList.SkipList.LevelIsLinked` | src/engines/kvs_skiplist.c:177-186 | the pointers of a level link exactly the nodes that reach it, up to null |
| `SkipList.SkipList.LevelIsSortedSublist` | src/engines/kvs_skiplist.c:177-186 | each level is strictly sorted and a sublist of the level below |
| `SkipLevels.LinkLevel` | src/engines/kvs_skiplist.c:155-158 | linking on one level, without effect on any other level |
| `SkipLevels.UnlinkLevel` | src/engines/kvs_skiplist.c:236-241 | unlinking on one level, without effect on any other level |
| `SkipLevels.LevelFacts` | src/engines/kvs_skiplist.c:177-186 | what a level holds: increasing positions, all nodes tall enough, contained in the level below |
| `Uring.PrepareWrites` | src/persistence/uring_io.c:24-86 | one request for the unwritten part of each block, none when everything is written |
| `Uring.SubmitPrepared` | src/persistence/uring_io.c:98-133 | partial submission and interruption: the submitted requests are a prefix, counted exactly; it fails only when the kernel does, with its first error |
| `Uring.ReceiveResult` | src/persistence/uring_io.c:148-179 | collects one completion of any request in flight |
| `Uring.AbortRequests` | src/persistence/uring_io.c:189-268 | afterwards nothing is in flight, and the file changed inside the blocks only |
| `Uring.CollectRound` | src/persistence/uring_io.c:400-571 | collects every completion of a round in any order and adds up short counts; it fails only with the first real error of the kernel |
| `Uring.Rounds` | src/persistence/uring_io.c:400-571 | repeats until nothing is left; terminates on bytes left and interruptions left; short counts and interruptions alone never fail it |
| `Uring.WriteBatch` | src/persistence/uring_io.c:400-571 | it succeeds unless the ring is unusable, the blocks are refused or the kernel reports a real error, which is then the one returned: short counts, interruptions and partial submissions alone always end in success; on success every block's range holds its data and no other byte changed; on every return nothing is in flight |
| `Uring.PatchedUnique` | src/persistence/uring_io.c:400-571 | the resulting file does not depend on completion order, short counts or rounds |
| `Uring.Sync` | src/persistence/uring_io.c:325-398 | keeps the contents; nothing is in flight afterwards; it fails only with a real error of the kernel |
| `PoolLayout.Geometry` | src/memory/kvs_allocator.c:279-318 | every size class leaves room for header and bitmap, has a bit for every block, and fits the 64 KiB unit |
| `PoolLayout.BlockPlace` | src/memory/kvs_allocator.c:317-330 | a block is aligned, behind header and bitmap, inside its unit; masking its address gives the header |
| `PoolLayout.LiveObjects` | src/memory/kvs_allocator.c:157-164 | objects in use are pairwise disjoint, aligned, at least as large as asked for, and behind the header of the region found by masking |
| `PoolLayout.TakeBlockKeeps` | src/memory/kvs_allocator.c:197-222 | handing out a free block keeps all of this |
| `PoolLayout.GiveBlockKeeps` | src/memory/kvs_allocator.c:370-411 | taking a block back keeps all of this |
| `PoolLayout.AddLargeKeeps` | src/memory/kvs_allocator.c:448-494 | a large object in a clear region keeps all of this |
| `PoolLayout.DropLargeKeeps` | src/memory/kvs_allocator.c:497-531 | giving a large region back keeps all of this |
| `PoolLayout.LiveInMore` | src/memory/kvs_allocator.c:543-553 | one more region adds exactly its own objects to the count |
| `Slabs.BitSet` | src/memory/kvs_allocator.c:216-217 | setting a block's bit changes no other block's bit |
| `Slabs.BitCleared` | src/memory/kvs_allocator.c:402-402 | clearing a block's bit changes no other block's bit |
| `Slabs.Slab.CountIsBits` | src/memory/kvs_allocator.c:24-35 | used_count is the number of set bits; the free list is duplicate-free and exactly the clear bits |
| `Slabs.Slab.AllocBlock` | src/memory/kvs_allocator.c:197-222 | null exactly when the slab is full, otherwise a block that was free; bitmap, counter and list agree |
| `Slabs.Slab.IndexOf` | src/memory/kvs_allocator.c:376-393 | the index of a block start; every other address is refused |
| `Slabs.Slab.FreeBlock` | src/memory/kvs_allocator.c:370-411 | -1 exactly for anything but the start of a block in use, so also for a second free |
| `Slabs.Slab.OwnerWrites` | src/memory/kvs_allocator.c:203-213 | what the owner writes into a block never reaches the free list |
| `Slabs.Thread` | src/memory/kvs_allocator.c:323-330 | the initial free list holds every block once |
| `Regions.RegionMemoryAlloc` | src/memory/kvs_allocator.c:228-276 | an aligned region that no other mapping overlaps, with nothing more left mapped; 0 exactly when the sizes do not fit or the kernel refuses a call |
| `Regions.SlabList.FindFree` | src/memory/kvs_allocator.c:348-353 | the first slab with a free block: every slab before it is full; null exactly when all are full |
| `Regions.LargeList.Insert` | src/memory/kvs_allocator.c:484-490 | the doubly linked list with one more element in front |
| `Regions.LargeList.Remove` | src/memory/kvs_allocator.c:497-531 | the element is unlinked; when the region cannot be unmapped the list is as before |
| `Allocator.OwnClass` | src/memory/kvs_allocator.c:185-194 | the size search finds the class of a block size itself |
| `Allocator.PoolAllocator.FindSizeClass` | src/memory/kvs_allocator.c:185-194 | the smallest class that can hold the size |
| `Allocator.PoolAllocator.AllocSmall` | src/memory/kvs_allocator.c:336-367 | a new object from the smallest class that can hold it; none exactly when every slab of the class is full and the kernel refuses a new region |
| `Allocator.PoolAllocator.MappingSize` | src/memory/kvs_allocator.c:448-475 | the least number of whole pages that holds header and object; 0 exactly when none fits a size_t |
| `Allocator.PoolAllocator.AllocLarge` | src/memory/kvs_allocator.c:448-494 | a new object in a region of whole pages, less than a page larger than needed; none, and nothing changed, exactly when it does not fit a size_t or the kernel refuses the region |
| `Allocator.PoolAllocator.FreeSmall` | src/memory/kvs_allocator.c:370-411 | succeeds exactly for pointers in use |
| `Allocator.PoolAllocator.FreeLarge` | src/memory/kvs_allocator.c:497-531 | the object is gone, or, exactly when the kernel refuses, nothing changed |
| `Allocator.PoolAllocator.Alloc` | src/memory/kvs_allocator.c:128-144 | in any run: a new object that overlaps nothing in use; it fails exactly when the size is zero, the pool is not initialised, the size fits no region, or the kernel refuses memory that is needed; the pool stays valid |
| `Allocator.PoolAllocator.Free` | src/memory/kvs_allocator.c:146-182 | succeeds for every pointer in use unless the kernel refuses to unmap its large region; a slab refuses every other pointer; any pointer into a large region's first unit frees its object |
| `Allocator.PoolAllocator.OwnHeader` | src/memory/kvs_allocator.c:157-164 | masking a pointer in use finds its own region's header, of the right kind |
| `Allocator.PoolAllocator.Stats` | src/memory/kvs_allocator.c:533-567 | live_objects is the number of pointers in use, and the region counts and bytes are those of the lists |
| `Allocator.PoolAllocator.Init` | src/memory/kvs_allocator.c:88-105 | a second initialisation is refused |
| `Allocator.PoolAllocator.Destroy` | src/memory/kvs_allocator.c:107-126 | refused while an object is in use; otherwise an empty pool, unless the kernel refuses to unmap a region |
| `Snapshot.SaveLoad` | src/persistence/snapshot_store.c:670-702 | loading what a save writes gives back the four maps and the checkpoint |
| `Snapshot.SavedValidates` | src/persistence/snapshot_store.c:855-920 | a saved file passes validation with its own header and records |
| `SnapshotFormat.SavedForm` | src/persistence/snapshot_store.c:670-702 | a save writes exactly the version 2 format, byte for byte: magic, version, flags, count, offset, records, checksum, all numbers most significant byte first |
| `SnapshotFormat.AcceptedExactly` | src/persistence/snapshot_store.c:855-920 | validation accepts exactly the files of the format, of version 1 or 2 |
| `SnapshotFormat.LoadedExactly` | src/persistence/snapshot_store.c:999-1053 | loading succeeds exactly for the files of the format whose records list every binding of some stores once, with at most 1024 in the array, and gives these stores and the checkpoint of the header |
| `Snapshot.LoadIsInsertAll` | src/persistence/snapshot_store.c:999-1053 | after validation the load pass meets no format or bounds error |
| `Snapshot.ValidatedChecksum` | src/persistence/snapshot_store.c:855-920 | an accepted file ends in the CRC of all bytes before, however its lengths parse |
| `Snapshot.SmallDamageRejected` | src/persistence/snapshot_store.c:855-920 | a change of an accepted file within four consecutive bytes, before or exactly in the checksum, is rejected |
| `Crc.BurstDetected` | src/persistence/snapshot_store.c:170-188 | any change within four bytes changes the checksum |
| `CrcDivision.ChecksumIsRemainder` | src/persistence/snapshot_store.c:170-188 | the checksum is the complement of the remainder that the message, its first 32 bits complemented and 32 zeros appended, leaves on long division by the CRC-32 generator polynomial |
| `CrcDivision.UpdateDivides` | src/persistence/snapshot_store.c:170-188 | feeding the data to any register is dividing them bit by bit, in pieces of any size |
| `CrcDivision.PolynomialIsGenerator` | src/persistence/snapshot_store.c:180-180 | 0xEDB88320 is the generator with its coefficients reversed and the leading one left out |
| `Crc.StepsInjective` | src/persistence/snapshot_store.c:170-188 | the bit step never merges two registers |
| `Crc.BitStepXor` | src/persistence/snapshot_store.c:170-188 | the bit step is linear |
| `Crc.BitLoop` | src/persistence/snapshot_store.c:170-188 | the inner loop is eight bit steps |
| `Crc.UpdateLoop` | src/persistence/snapshot_store.c:170-188 | the loop over the bytes computes the register |
| `SnapshotFile.BufferedWriter.Flush` | src/persistence/snapshot_store.c:262-333 | on success the buffer is empty and the file holds everything appended; it fails only with a real error of the kernel |
| `SnapshotFile.BufferedWriter.Append` | src/persistence/snapshot_store.c:341-393 | written file ++ buffered bytes grows by exactly the data, for any sizes; it fails only with a real error of the kernel |
| `SnapshotFile.BufferedWriter.WriteRecord` | src/persistence/snapshot_store.c:549-603 | appends the record's bytes and feeds them to the checksum |
| `SnapshotFile.BufferedWriter.WriteContents` | src/persistence/snapshot_store.c:670-702 | counts the bindings the four traversals hand over, refused beyond 64 bits, and writes header, their records engine by engine, and checksum |
| `Snapshot.ListingsEnumerate` | src/persistence/snapshot_store.c:626-664 | the records of the four traversals, one engine after the other, are every binding of the store exactly once |
| `SnapshotFile.SortedLists` | src/engines/kvs_rbtree.c:607-671 | a sorted traversal of a table, as tree and skip list give it, hands over each of its bindings once |
| `SnapshotFile.TilingAppends` | src/persistence/snapshot_store.c:262-333 | writing blocks that tile the buffer at the end of the file appends it |
| `SnapshotFile.SaveThenLoad` | src/persistence/snapshot_store.c:1065-1188 | constructor, buffered writer and read cursor run one after the other: a save that completes loads as the same maps and checkpoint, and only counts and lengths beyond the format or a real error of the kernel stop it |
| `SnapshotIo.PartReader.Open` | src/persistence/snapshot_io.c:38-69 | only a file of exactly the announced size |
| `SnapshotIo.PartReader.Read` | src/persistence/snapshot_io.c:72-109 | the next bytes up to the capacity; bytes read + remaining = size; fails exactly for a read that fails or ends early |
| `SnapshotIo.PartWriter.Write` | src/persistence/snapshot_io.c:156-201 | appends exactly what it reports; bytes written + remaining = announced size; fails only beyond that size, when closed, or with an error of the kernel |
| `SnapshotIo.PartWriter.Commit` | src/persistence/snapshot_io.c:203-236 | replaces the installed file only by a complete one of the announced size |
| `SnapshotIo.PartWriter.Abort` | src/persistence/snapshot_io.c:238-265 | the installed file stays |
| `Aof.ReplayIsApplyAll` | src/persistence/aof.c:384-486 | replaying an encoded log is executing the log |
| `Aof.ReplayRefusesTornTail` | src/persistence/aof.c:384-486 | a file that ends inside a command is refused |
| `AofFile.AofWriter.Append` | src/persistence/aof.c:297-383 | one canonical command longer, or position and logged bytes as before; it fails exactly for a wrong number of fields, beyond INT64_MAX, or with a real error of the kernel |
| `AofFile.AofWriter.ResetTo` | src/persistence/aof.c:138-178 | the file has exactly the requested length, unless it is not open or the kernel refuses |
| `AofFile.AofRangeReader.Open` | src/persistence/aof.c:179-227 | only ranges inside the file |
| `AofFile.AofRangeReader.Read` | src/persistence/aof.c:228-281 | the next bytes of the range up to the capacity; offset + remaining stays; fails exactly for a read that fails or ends early |
| `AofFile.ReplayFile` | src/persistence/aof.c:384-486 | the loop over a mapped file from a checkpoint |
| `Store.ArrayBounded` | src/kvstore.c:47-81 | no log outgrows the array engine |
| `Store.ApplyAllNext` | src/kvstore.c:133-146 | a log that succeeds succeeds command by command |
| `Store.SetBinds` | src/kvstore.c:47-81 | in all four engines SET changes exactly one table and binds the key to the value, new or not; it is refused exactly for a new key in a full array |
| `Store.DelRemoves` | src/kvstore.c:47-81 | DEL succeeds exactly for a bound key and removes exactly it, in every engine |
| `Store.ModChanges` | src/kvstore.c:47-81 | MOD succeeds exactly for a bound key and gives it the new value |
| `Store.OnlyWritesApply` | src/kvstore.c:133-146 | only the twelve names of SET, DEL and MOD are ever applied from a log |
| `Store.NameFound` | src/kvstore.c:47-81 | the search finds each of the twenty names as its own command |
| `Server.InternalIsApply` | src/kvstore.c:1012-1066 | recovery and replication execute exactly the successful writes; only replication logs |
| `Server.ClientWritesLogged` | src/kvstore.c:216-270 | a client command either is a successful write, logged in its canonical encoding, or changes neither maps nor log; in particular HDEL of a missing key is not logged |
| `Server.ReplicaReadOnly` | src/kvstore.c:216-270 | no client command changes a Replica's maps or log |
| `Server.NotCommands` | src/kvstore.c:47-81 | PING and SAVE never reach an engine |
| `Server.CommandServer.HandleMessage` | src/kvstore.c:1068-1144 | the executor on the process globals computes the specified state, reply and consumed bytes; what these are is the subject of Replies |
| `Replies.GetReplies` | src/kvstore.c:833-863 | in every engine GET is answered "$", length and value of the stored value, and "$-1" exactly for an unbound key; nothing changes |
| `Replies.SetReplies` | src/kvstore.c:869-909 | SET is answered +OK and binds the key, in one table and logged; a Replica, and a full array for a new key, answer the error and change nothing |
| `Replies.DelReplies` | src/kvstore.c:911-939 | DEL is answered :1 and removes exactly a bound key, :0 for an unbound one, and the error in the hash engine or on a Replica |
| `Replies.ModReplies` | src/kvstore.c:941-968 | MOD is answered +OK and changes a bound key; an unbound key is answered "key not found" |
| `Replies.ExistReplies` | src/kvstore.c:969-997 | EXIST is answered :1 exactly for a bound key, else :0, also on a Replica; nothing changes |
| `Replies.SaveReplies` | src/kvstore.c:743-776 | SAVE is answered +OK exactly when the saved file has replaced the snapshot |
| `Replies.NulReplies` | src/kvstore.c:665-692 | fields with NUL bytes are refused before anything else is looked at, and change nothing |
| `Replies.LoadingReplies` | src/kvstore.c:716-741 | a Replica that is not online answers everything but PING by LOADING and changes nothing |
| `Replies.ArityReplies` | src/kvstore.c:783-812 | a command with the wrong number of fields is refused by its own name and changes nothing |
| `Replies.UnknownReplies` | src/kvstore.c:815-831 | every other name is an unknown command and changes nothing |
| `Replies.SetThenGet` | src/network/ntyco.c:305-472 | on the wire: SET k v followed by GET k is answered +OK and v, in every engine, for all keys and values that fit a command |
| `Replies.RequestErrors` | src/kvstore.c:1095-1123 | input that cannot become a command is answered by one error and dropped as a whole; an incomplete one below the limit is kept and answered by nothing |
| `Server.CommandServer.ExecuteInternally` | src/kvstore.c:1005-1066 | recovery and replication accept exactly the writes that succeed |
| `Recovery.AnyRunRecovers` | src/kvstore.c:1341-1399 | after any run of commands, SAVEs and restarts: with an AOF, alone or beside snapshots, the files rebuild the maps exactly and a restart changes nothing; with snapshots alone they rebuild the maps of the last SAVE |
| `Recovery.AnyRunRefusesTornTail` | src/kvstore.c:1351-1399 | with an AOF a file torn inside the next command is refused |
| `Recovery.UnusableSnapshotRefused` | src/kvstore.c:1341-1378 | no server starts from a snapshot that is not accepted, nor a hybrid one from a snapshot without a checkpoint |
| `Codec.ReadNumber` | src/protocol/codec.c:6-40 | the loop computes the number or the verdict |
| `Codec.ScanDigitsComplete` | src/protocol/codec.c:6-40 | every numeral up to SIZE_MAX is accepted with its value |
| `Codec.ScanDigitsSound` | src/protocol/codec.c:6-40 | an accepted digit run has exactly the returned value |
| `Codec.ReadField` | src/protocol/codec.c:43-79 | one bulk string within the byte limit |
| `Codec.ReadCommand` | src/protocol/codec.c:82-118 | the loop computes the verdict on the buffered bytes |
| `Codec.AcceptedExactly` | src/protocol/codec.c:82-118 | accepted exactly: a well-formed command of at most max bytes and at most capacity fields |
| `Codec.WireAccepted` | src/protocol/codec.c:82-118 | a well-formed command within the limits is recognised whatever follows it |
| `Codec.VerdictStable` | src/protocol/codec.c:82-118 | verdicts 1 and -1 never change when more bytes arrive |
| `Codec.PrefixWaits` | src/protocol/codec.c:82-118 | every proper prefix of an accepted command is incomplete |
| `CodecWaits.WaitsOnlyForCommands` | src/protocol/codec.c:6-118 | and nothing else is waited for: an incomplete input is a proper prefix of a well-formed command, or the next byte, whatever it is, is refused |
| `CodecWaits.OneByteLate` | src/protocol/codec.c:6-40 | the refusal can come that late: "*0" and a carriage return is waited on although no command starts so |
| `Codec.LimitExact` | src/protocol/codec.c:82-118 | the limit removes exactly the commands longer than max |
| `Codec.FullBufferNeverCompletes` | src/kvstore.c:1095-1123 | an incomplete input of at least the limit can no longer become a command |
| `Codec.RoundTrip` | src/protocol/codec.c:197-234 | parsing an encoded command gives its fields and consumes exactly its bytes |
| `Codec.EncodedPrefixWaits` | src/protocol/codec.c:197-234 | every proper prefix of an encoded command is incomplete |
| `Codec.ReencodeCanonical` | src/protocol/codec.c:197-234 | re-encoding gives the same bytes exactly when no numeral has leading zeros |
| `Codec.EncodingPrefixFree` | src/protocol/codec.c:197-234 | a concatenation of encodings has one reading |
| `Codec.CountDigits` | src/protocol/codec.c:135-143 | the number of decimal digits |
| `Codec.EncodedSize` | src/protocol/codec.c:157-183 | the exact size, refused exactly when it exceeds size_t |
| `Codec.WriteDecimal` | src/protocol/codec.c:186-195 | the canonical numeral, written from the last digit, nothing else touched |
| `Codec.WriteCommand` | src/protocol/codec.c:197-234 | the buffer holds the canonical encoding and the rest of it is untouched; refused, with nothing written, exactly when the size overflows or the buffer is too small |
| `Buffers.ByteBuffer.EnsureSpace` | src/network/buffer.c:7-52 | free space without changing the contents; fails only beyond INT_MAX |
| `Buffers.ByteBuffer.Consume` | src/network/buffer.c:112-122 | the consumed bytes go, the rest moves to the front |
| `Reader.ServeSplit` | src/network/ntyco.c:305-472 | serving a stream in two pieces is serving it at once, wherever it is cut |
| `Reader.ServeIsOneByOne` | src/network/ntyco.c:305-472 | a stream of well-formed commands within the limits is executed command by command, with nothing refused and nothing left over |
| `Reader.CutAnywhere` | src/network/ntyco.c:305-472 | and any cut of it gives the same state and the same replies |
| `Reader.RunCommand` | src/network/ntyco.c:330-400 | one pass of the dispatch loop: at most one command, reply appended, input consumed; it fails exactly when the output would outgrow an int |
| `Reader.RunCommands` | src/network/ntyco.c:330-400 | the inner loop executes everything complete, and cannot fail while every stored value fits a reply |
| `Reader.HandleFits` | src/network/ntyco.c:330-400 | clients store only values that fit, so every reply fits behind the largest unsent output |
| `Reader.ServerReader` | src/network/ntyco.c:277-472 | succeeds whenever the stored values fit a reply, on any stream; then all received commands executed, all replies sent in order, and at every receive all replies to earlier commands have been sent |

## Left out

- Array and hash engines: used as finite maps (the array bounded by 1024 keys); their loops add only easy members, and the hash index is defined for non-negative `char` only.
- malloc failure inside engines, buffers and the skip list's or tree's node creation: allocation succeeds there. In the allocator it may fail.
- Sockets, coroutines, deadlines, accept and connect, and the RDMA verbs and connection-manager resources: only the pending flags and an abstract source of events and completions are kept.
- mmap, munmap, open, fsync, rename, ftruncate and the kernel side of io_uring: small actions of the environment, which may fail; nothing is proved about them.
- Primary restart inside the joint state machine: the Primary runs throughout; its own recovery is the subject of Recovery. Replica restarts are steps.
- File read or write errors during a transfer beyond those that end the connection, and cleanup failures of an RDMA connection: a failing callback closes the connection, as in the code.
- Rejected connection requests: the details of turning away a second RDMA connection.
- `sscanf` laxness: control lines are read as single blanks and plain digits; extra blanks or signs that `sscanf` would also accept, and its width and overflow limits on longer runs of digits, are not modelled.
- Identification of a connection as client or Replica by its first bytes: connections of the state machine are Replica connections, those of the reader loop are clients.
- Reader on connections with a close or stream handler: they flush after every command instead of at 64 KiB; only the client path is modelled.
- Malformed client frames: such a frame swallows the whole buffered input, so independence of the cut is stated for streams in which nothing is refused.
- Random identifiers: fresh values of the right shape.
- Snapshot version 1: read and validated, never written.
- A failed AOF append: it ends the process, so it is not an event of a run; the writer's own contract covers it.
- Allocator system backend: plain malloc and free.
- NULL arguments and use of an engine after its destruction: the error returns for them add only easy members. `kvs_skiplist_get` does not check for a destroyed list.
- Allocator regions as bytes: a slab keeps the first word of each block and the bitmap bytes; other user data is not represented.
- Slabs.Slab.OwnerWrites: speaks of the first word of a block only, the one that the free list borrows.
- Uring.WriteBatch: on failure it says that bytes outside the blocks are kept, not which part of a block was written.
- ClusterSync.FullSyncCompletes: with ClusterSync.SyncMeasureFalls it says that every run without failures ends the synchronisation once the steps that are possible are taken; that a scheduler takes them is not modelled.
- RbTree.Tree.Destroy: freeing the sentinel and clearing the two pointers afterwards, because the tree object ends there.
- A SAVE on the Replica that fails, which leaves the file at the final path as it is, and any SAVE on the Primary, which goes to another file than the one it transfers: neither is a step of the joint state machine.
- Configuration, logging, clients, benchmarks and orchestration scripts, error texts written to the log, and errno values beyond those that steer a branch.
