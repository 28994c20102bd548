# A Dafny model of the log daemon's core algorithms

The daemon follows container logs and serves them to web clients, writes collector configs for containers, hands out
disk project ids, and carries a few general utilities. This project models the parts of it that hold state or
arithmetic, and proves what they promise over every input, every split of a stream into reads, and every interleaving
of their steps. `dafny verify dfyconfig.toml` checks all of it.

Code that changes things step by step is modelled by methods and classes with the source's fields; each is tied to a
function or a step of a state machine on values, and the theorems are about those. What the daemon gets from outside
(readers, writers, random draws, timers, directory contents, factory failures) enters as a parameter or as a free choice.

| file | component |
|---|---|
| `Wrappers.dfy`, `Bytes.dfy`, `Streams.dfy` | optional values, bytes, big-endian sizes, shuffles; readers and writers that answer in pieces |
| `StdCopy.dfy` | the multiplexed log stream: `stdWriter.Write` and `StdCopy` |
| `Confound.dfy` | `LineConfound` and `logMessage` |
| `Connection.dfy`, `ConnectDef.dfy` | the coalescing connection as a machine of atomic steps, and as an object |
| `Pipeline.dfy` | from the container's framed output to what the client receives |
| `LabelTree.dfy`, `MountLookup.dfy` | the label tree and `hostDirOf` |
| `ConfigGc.dfy` | when a dead container's config is deleted |
| `ProjectQuota.dfy` | project ids: allocation, scan, restart |
| `ShardedMap.dfy`, `FanIn.dfy`, `KeyGather.dfy` | the sharded map, its iterator and its `Keys` |
| `ConnPool.dfy`, `HttpRange.dfy`, `SkipLimit.dfy` | connection pool, byte ranges, limit writer and skip reader |

## Main results

- **Log stream.** `StdCopy.Run` refines the pure parser `StdCopy.Parse` for every stream, every finite plan of read
  answers (short reads, end of file with or after data, errors beside data) and every plan of write answers. `Parse`
  itself is shown equal to an independent account of the stream as frames followed by a tail that stops the copy, in
  both directions. The copy ends with a read error if and only if its last read failed, with that read's error, after
  reads that did not; then it has delivered exactly the frames of all that had been read before that read.
- **Connection.** For every key and every interleaving of locked operations, delivered bytes followed by cached bytes
  are the written bytes. The flush that runs without the lock is split into its sub-steps: pick an entry, send it, delete
  what is there by then. Whether one such turn keeps the balance is false in general and is decided exactly, from the
  bytes cached at the pick and the writes and locked flushes around the send (`Connection.TurnConservesIff`). For a key
  that nobody writes during its turns, as the log key, whole runs never lose a byte and repeat none if and only if no
  locked flush meets cached bytes inside a turn (`Connection.UnwrittenConservesIff`). For any key, a run whose completed
  turns all balance loses and repeats nothing (`Connection.BalancedTurnsConserve`). Cached bytes of an open connection
  always have a timer callback coming; the sending flag is set as well if and only if the unlocked flush has not ended
  since the last write. A write never postpones a pending callback, and every timer's callback runs at most once. After close nothing is sent, exactly unless that loop is running.
- **End to end.** All that enters the channel under the log key, with what is still owed, is the lines the frames show, in order,
  with a known amount of noise from a known alphabet shuffled in, and nothing else, if and only if no locked flush comes
  between the pick and the delete of the log entry by the unlocked flush at the end of a session and no message sent
  past the cache carries log bytes; otherwise there is more text, never less. The daemon sends only status messages past
  the cache, so for its sessions the first condition alone decides.
- **Label tree.** It holds a path exactly when every dotted prefix of it is a label, with that label's value; the build
  fails exactly on a label whose first component is no label. Sorting is what makes this true.
- **Config collector.** A path with unread bytes stays listed over every run; dead containers do not cover each other.
  This holds for all container ids: the character-set trim of file names only affects what counts as covered, and the
  exact condition for the trim to give the id back is proved. Whether a config stays or goes is also stated on raw
  offsets and sizes.
- **Project ids.** Every issued id is fresh in every interleaving of calls, constructions and scans until the 32-bit
  counter wraps, and a wrap always breaks it. A first start on any flat disk, any sequential run and a second start give
  the second process the first one's map, with distinct ids for all paths given one in between; each call on the object
  is a run of the interleaving machine. The key of a call and the key of the scan coincide exactly when the base path and its real path are both the root or both not.
- **Sharded map.** Every sequence of operations answers as one plain map. Every interleaving of the iterator's senders
  and forwarders terminates, never gets stuck, and emits each entry once; so do the senders of `Keys`, on a channel of
  any capacity.
- **Skip reader.** The promise that it hands out the source from the skip point on is false for a reader that returns
  bytes beside an error while skipping (`SkipLimit.FailureEatsBytes` shows a run). For every source, every plan of its
  answers and every sequence of reads it holds if and only if nothing lies beyond the skip point or no failing answer
  given while skipping carried bytes (`SkipLimit.HandsOutTailIff`).

Where the documentation and the code differ the code is followed: `StdCopy`'s comment says it ends with a nil error at
end of file, and the model includes the daemon-error, unknown-type, short-write and read-error endings; the frame header
holds the length modulo 2^32.

## Model

| member | source | states |
|---|---|---|
| Bytes.BigEndianRoundTrip | container_log/StuCopy.go:55 | the four size bytes give the length back modulo 2^32 |
| Bytes.BigEndianOrder | container_log/StuCopy.go:142 | the first differing size byte decides the order: the field is big-endian |
| StdCopy.ParseSplits | container_log/StuCopy.go:94-193 | every stream is a sequence of complete frames and a tail that stops the copy, with the parser's frames and outcome |
| StdCopy.SplitsAreParsed | container_log/StuCopy.go:94-193 | that split is the only one: any split of the stream carries what the parser delivers |
| StdCopy.ParseFrame | container_log/StuCopy.go:121-192 | one frame in front of any stream is delivered first, whatever follows |
| StdCopy.UntakenFrameStops | container_log/StuCopy.go:176-184 | a frame the writer refuses or takes in part is the last: its message has gone out and the outcome is the write error or a short write |
| StdCopy.EncodedIsRaw | container_log/StuCopy.go:46-69 | the header names the payload if and only if its length is below 2^32 |
| StdCopy.RoundTrip | container_log/StuCopy.go:46-192 | framed payloads come back in order with the sum of their lengths, whatever stop follows |
| StdCopy.TruncatedFrameStops | container_log/StuCopy.go:106-165 | a frame cut off anywhere delivers nothing and is no error |
| StdCopy.DaemonFrameStops | container_log/StuCopy.go:167-171 | a complete Systemerr frame stops the copy with its payload as the error |
| StdCopy.WriteFrame | container_log/StuCopy.go:46-69 | nil writer, nil payload, header and payload in one write, reported count without the header, beside an error too |
| StdCopy.Resumes | container_log/StuCopy.go:104-192 | after accepted frames any continuation is copied as if it stood alone |
| StdCopy.Fill | container_log/StuCopy.go:105-119 | the read loop neither loses nor reorders bytes; its reads are those the source answers, and on a failure the error is the last read's and the bytes before it are known |
| StdCopy.Grow | container_log/StuCopy.go:144-149 | the buffer grows to hold the frame and keeps its contents |
| StdCopy.Shift | container_log/StuCopy.go:188-191 | the bytes after the frame are moved to the front |
| StdCopy.ReadFrame | container_log/StuCopy.go:105-165 | a frame is buffered whole, or the stream ended, showed an unknown type, or the last read failed, with all bytes accounted for up to that read |
| StdCopy.DeliverFrame | container_log/StuCopy.go:167-186 | one message per frame goes out before the write; daemon errors, write errors and short writes stop |
| StdCopy.Run | container_log/StuCopy.go:94-193 | for every source, every plan of its answers and every writer, deliveries, count and error are those of the whole-stream parser; a read error is that of the last read and then the parser is applied to exactly what had been read before it |
| StdCopy.ReadErrorIsPlanned | container_log/StuCopy.go:105-119 | a copy that ends with a read error has used, as its last answer, a failing one with that error, and delivering ones before; otherwise only delivering ones |
| StdCopy.CopyBack | container_log/StuCopy.go:46-192 | framed payloads read back through any never-failing reader: all messages, full count, nil error |
| Confound.AddNoise | utils/Common.go:231-239 | the insertion loop stays in bounds and yields a result of some sequence of valid random draws |
| Confound.LineConfound | utils/Common.go:219-240 | the same with the optional cut after the last carriage return |
| Confound.ConfoundsShape | utils/Common.go:216-240 | every result is the line shuffled with n/600 alphabet bytes above the limit and unchanged otherwise; first byte and last two kept |
| Confound.ShowsOneLine | container_log/ConnectionManage.go:185-190 | every message shows one line and no other: what follows its space, or the message itself |
| Confound.SpacedLineIsCarried | container_log/ConnectionManage.go:186-187 | for every non-empty line, the log message of a space and the line carries the line after the key, shuffled with the noise of its length |
| Confound.BareLineIsCarried | container_log/ConnectionManage.go:188-189 | a message of at most one byte, or without a space in front, is carried whole |
| Confound.LogMessage | container_log/ConnectionManage.go:185-190 | the log key followed by the confounded line the message shows |
| Connection.StepKeepsInv | container_log/ConnectionManage.go:67-113 | every step, unlocked sub-steps included, keeps the invariant; locked steps keep the stronger one |
| Connection.RunKeepsInv | container_log/ConnectionManage.go:67-178 | so does every run |
| Connection.StepConserves | container_log/ConnectionManage.go:74-113 | flushed plus left cached equals cached before plus written, per key |
| Connection.Conservation | container_log/ConnectionManage.go:67-113 | the same balance over every locked run |
| Connection.NothingLostNothingTwice | container_log/ConnectionManage.go:67-113 | from a new connection: delivered then cached bytes of a key are exactly its written bytes in order |
| Connection.FlushSplit | container_log/ConnectionManage.go:74-113 | what a locked run delivers and leaves cached, told by the writes before and after its last emptying step |
| Connection.TurnConservesIff | container_log/ConnectionManage.go:104-111 | one turn of the unlocked loop (pick, send, delete, with any locked steps between) neither loses nor repeats bytes if and only if the writes and flushes in it balance: with a flush after the send, v + x + a == x + a + b; with one before it only, v == x + b; with none, nothing was written |
| Connection.BalancedTurnsConserve | container_log/ConnectionManage.go:99-113 | for any key and any interleaving with the unlocked flush that is not inside a turn of the key: if all its turns balance, delivered and cached bytes are the written ones |
| Connection.WireIsShuffle | container_log/ConnectionManage.go:67-113 | the channel carries the flushed messages and the mid messages sent while open, each once and in its own order |
| Connection.WireOfRun | container_log/ConnectionManage.go:67-73 | the channel carries under a key what the flushes deliver, and more exactly when messages sent past the cache carry bytes of it |
| Connection.WriteInWindowIsLost | container_log/ConnectionManage.go:106-109 | what is written between the unlocked send and delete is deleted without having been sent |
| Connection.FlushInWindowRepeats | container_log/ConnectionManage.go:106-109 | a locked flush between pick and send delivers the bytes the loop then sends again |
| Connection.UnlockedEndDropsFlag | container_log/ConnectionManage.go:112 | the unlocked flush can end with the flag clear and bytes cached, by skipping an entry made after its range began |
| Connection.UninterruptedLoopIsFlush | container_log/DockerLog.go:249 | run without interference the unlocked flush has the state and deliveries of the locked one |
| Connection.GuardedStart | container_log/ConnectionManage.go:102-103 | started on a closed connection or an empty cache, the unlocked flush only clears the flag |
| Connection.AllUnreachedAtStart | container_log/ConnectionManage.go:104 | the range begins with every entry of the cache still to produce |
| Connection.EveryEntryIsReached | container_log/ConnectionManage.go:104-111 | an entry that is there when the range begins is picked before the flush ends, unless a locked flush takes it |
| Connection.WriteTimers | container_log/ConnectionManage.go:87-95 | a write with the flag set leaves every timer as it was; with the flag clear it arms one new timer and no other stays armed |
| Connection.OthersKeepTimers | container_log/ConnectionManage.go:67-178 | no other operation touches a timer |
| Connection.NotPostponed | container_log/ConnectionManage.go:87-95 | over any run in which the flag stays set the pending callback stays the same one: writes never postpone it |
| Connection.CallbackOnce | container_log/ConnectionManage.go:92-94 | in any run each timer's callback runs at most once |
| Connection.UnwrittenConservesIff | container_log/ConnectionManage.go:99-113 | over any interleaving with the unlocked flush, for a key not written during its turns: delivered and owed bytes are the written ones if and only if no locked flush meets cached bytes of the key inside a turn; otherwise there are more of them |
| Connection.StoppedBeforeFlush | container_log/DockerLog.go:243-249 | a writer that has returned before the unlocked flush starts leaves its key unwritten in every turn |
| Connection.LockedHasNoTurns | container_log/ConnectionManage.go:99-113 | without the unlocked flush there are no turns to disturb |
| Connection.CallbackIsComing | container_log/ConnectionManage.go:87-113 | in every reachable open state with cached bytes the current timer's callback is pending, and the flag is set if and only if the unlocked flush has not ended since the last write |
| Connection.CallbackDeliversAll | container_log/ConnectionManage.go:92-112 | that callback delivers every cached byte and empties the cache |
| Connection.ClosedIsSilent | container_log/ConnectionManage.go:70-71 | once closed nothing enters the channel, when no unlocked loop is running |
| Connection.ClosedLoopStillSends | container_log/ConnectionManage.go:102-111 | otherwise, with the loop past its checks of the flag and the cache, some run still sends |
| Connection.EndsOnce | container_log/ConnectionManage.go:165-178 | monitor close, cancel and hub removal at most once, exactly once when closed |
| ConnectHub.Hub.Destroy | container_log/ConnectionManage.go:60-66 | closes the websocket and removes the id if it is registered, and nothing otherwise |
| ConnectHub.ConnectDef.constructor | container_log/ConnectionManage.go:37-58 | a registered, open, empty connection |
| ConnectHub.ConnectDef.WriteMid | container_log/ConnectionManage.go:67-73 | is the machine's step: sent at once unless closed, cache untouched |
| ConnectHub.ConnectDef.Write | container_log/ConnectionManage.go:74-97 | is the machine's step: merged under its key, timer stopped and armed when the flag was clear |
| ConnectHub.ConnectDef.Flush | container_log/ConnectionManage.go:99-113 | is the machine's step for some order of the map's keys |
| ConnectHub.ConnectDef.Callback | container_log/ConnectionManage.go:92-94 | the fired timer's flush as a step |
| ConnectHub.ConnectDef.OnClose | container_log/ConnectionManage.go:165-178 | is the machine's step, with the websocket closed and the hub entry removed once |
| Pipeline.OtherKindsOtherKeys | container_log/ConnectionManage.go:180-200 | status, resource and GPU messages carry their text and never use the log key |
| Pipeline.SelectFromMixed | container_log/DockerLog.go:205-226 | writers under other keys in between leave the log messages in order |
| Pipeline.ClientReceivesFrames | container_log/DockerLog.go:243-250 | the log bytes on the channel and those owed are the lines the frames show, in order, shuffled with the exact amount of noise, if and only if no locked flush disturbs the unlocked one at the log entry and no mid message carries log bytes; they are never fewer |
| Pipeline.SessionReceivesFrames | container_log/DockerLog.go:205-250 | for a session (the copy, then steps that write no log message, the unlocked flush among them, with status messages as mid messages) the first of the two conditions decides |
| Pipeline.LockedRunReceivesFrames | container_log/DockerLog.go:243-245 | before the unlocked flush only mid messages with log bytes could break it, and do |
| Pipeline.ClientReceivesPayloads | container_log/StuCopy.go:46-192 | the same for framed payloads once nothing is owed |
| LabelTree.PrefixIsLess | pilot/pilot.go:708 | string order puts a proper prefix first |
| LabelTree.LessAtDifference | pilot/pilot.go:708 | otherwise the first difference decides |
| LabelTree.SplitJoin | pilot/pilot.go:731 | splitting the dotted join of dotless components gives them back |
| LabelTree.InsertAddsOnePath | pilot/pilot.go:667-683 | inserting a new path adds that path alone under an existing parent, nothing otherwise; error exactly without a first node |
| LabelTree.InsertReplaces | pilot/pilot.go:667-683 | inserting an existing path gives its node the new value and drops everything below it |
| LabelTree.LogInfoNode.Insert | pilot/pilot.go:667-683 | the in-place recursive insert computes the insertion on values |
| LabelTree.LogInfoNode.Get | pilot/pilot.go:685-690 | the child's value or the empty string |
| LabelTree.NoLabelIsHidden | pilot/pilot.go:711-728 | neither the custom-config test nor the single-dot test ever skips a log label |
| LabelTree.InsertHolds | pilot/pilot.go:730-733 | one insertion in sorted order keeps the tree equal to the grounded labels, and fails exactly when the first component is missing |
| LabelTree.BuiltHolds | pilot/pilot.go:708-735 | the whole loop builds exactly the grounded paths, and fails exactly if some label is an orphan |
| LabelTree.SortedNames | pilot/pilot.go:700-708 | the label names in strictly ascending order, all of them |
| LabelTree.BuildTree | pilot/pilot.go:700-735 | the built tree has a path iff every dotted prefix is a label, with its value; failure iff an orphan exists |
| MountLookup.DirOfPath | pilot/pilot.go:495 | one step up drops one component |
| MountLookup.HostDirOf | pilot/pilot.go:481-501 | the loop returns the component-wise answer and terminates; the root mount answers for the root alone |
| MountLookup.PathThroughAncestor | pilot/pilot.go:489 | the relative path is what follows the ancestor and a slash in the path |
| MountLookup.HostDirIsDeepest | pilot/pilot.go:481-501 | in the path the deepest non-root mount point at or above it is replaced by its source; the rest of the path stays |
| MountLookup.HostDirEmptyIff | pilot/pilot.go:481-501 | empty iff no such mount exists, or the path itself is mounted from an empty source |
| ConfigGc.TrimRightExactIff | pilot/filebeat_piloter.go:177 | the id comes back from the file name iff it does not end in one of the trimmed characters |
| ConfigGc.HexIdsTrimExactly | pilot/filebeat_piloter.go:177 | hexadecimal ids meet that condition |
| ConfigGc.ScanKeepsListing | pilot/filebeat_piloter.go:99-121 | one scan never deletes the last config listing a path with unread bytes |
| ConfigGc.RunKeepsListing | pilot/filebeat_piloter.go:99-155 | over every run of creations, deaths and scans such a path stays listed |
| ConfigGc.DeadDoNotCover | pilot/filebeat_piloter.go:173-194 | if only dead containers list the path, none of their configs is deleted |
| ConfigGc.VolumePathsWait | pilot/filebeat_piloter.go:142-145 | an unread volume path keeps its own config whoever else lists it |
| ConfigGc.RemovedIff | pilot/filebeat_piloter.go:99-155 | with exact ids, a dead container's config goes iff it parses, deletion works, and each path is read or covered by a live container |
| ConfigGc.BytesLeftKeepConfig | pilot/filebeat_piloter.go:123-155 | a globbed file with its registered offset below its size keeps the configs of all containers listing its path when those are dead |
| ConfigGc.AllReadConfigGoes | pilot/filebeat_piloter.go:99-155 | when every globbed file of every path is missing, unregistered or read to its size, a parsable dead config whose deletion works goes |
| ConfigGc.ScanTouchesOnlyDead | pilot/filebeat_piloter.go:99-121 | a scan deletes only configs of dead containers, changes none, and watches a dead container exactly while its config is there |
| ConfigGc.FilebeatPiloter.Feed | pilot/filebeat_piloter.go:230-236 | the container joins the watched set |
| ConfigGc.FilebeatPiloter.LoadConfigPaths | pilot/filebeat_piloter.go:173-194 | collects exactly the paths of configs taken to be live |
| ConfigGc.FilebeatPiloter.CanRemoveConf | pilot/filebeat_piloter.go:123-155 | true iff the config parses and every globbed file that exists, is registered and has its offset below its size belongs to a covered host path |
| ConfigGc.FilebeatPiloter.Scan | pilot/filebeat_piloter.go:99-121 | in whatever order the watched set is visited, the result is the closed form of one scan |
| ProjectQuota.StepKeepsInv | quota/ProjectQuota.go:87-127 | the counter stays above every bound, every issued id and every stored id, unless it wraps |
| ProjectQuota.WrapBreaksInv | quota/ProjectQuota.go:114 | a wrapping step always breaks that |
| ProjectQuota.IssuedIdIsFresh | quota/ProjectQuota.go:100-115 | a newly issued id exceeds every minimum, every scanned id, every id issued before and every id in the maps |
| ProjectQuota.KeysCoincideIff | quota/ProjectQuota.go:554-556 | call key and scan key of a child coincide iff base and real path are both the root or both not |
| ProjectQuota.JoinedPath | quota/ProjectQuota.go:383-404 | a joined path lies in its directory and ends in its name |
| ProjectQuota.PathOfInjective | quota/ProjectQuota.go:383-408 | distinct directories of the scan have distinct keys |
| ProjectQuota.RecordedIds | quota/ProjectQuota.go:365-377 | in any visiting order the map gets exactly the positive ids of the visited places |
| ProjectQuota.RecordedOnDisk | quota/ProjectQuota.go:360-412 | a whole scan records a directory iff its id is positive, and a subdirectory iff its id is positive and the directory above has no id or the base id |
| ProjectQuota.ClearedAbove | quota/ProjectQuota.go:373-375 | the counter ends above every visited id, never goes back, and is where it was or one past some visited id |
| ProjectQuota.PquotaState.UpdateMinProjID | quota/ProjectQuota.go:558-564 | the counter ends above the minimum, never below where it was and no further than needed; with the largest uint32 as minimum it starts over at 0 |
| ProjectQuota.Control.FindNextProjectID | quota/ProjectQuota.go:360-412 | the nested loops visit exactly the scanned places, and succeed iff the home and every directory descended into can be listed and every id can be read; otherwise map and counter have the places before the one that stopped it |
| ProjectQuota.Control.SetDirQuota | quota/ProjectQuota.go:87-127 | a known path keeps its id and the counter; a new one gets the counter, which goes up by one; a failure changes neither; only the target directory is touched |
| ProjectQuota.ScanIsStep | quota/ProjectQuota.go:360-412 | the scan is the interleaving machine's scan step: the same counter, the same entries added, all others kept |
| ProjectQuota.CallIsThreeSteps | quota/ProjectQuota.go:87-120 | a call that runs alone is look-up, allocation and store of the machine in a row |
| ProjectQuota.SetQuotaIsCall | quota/ProjectQuota.go:87-120 | a call on the object is the machine's run of look-up, allocation and store, on the same counter and map, with the known and the failing case |
| ProjectQuota.IdsIssuedOnce | quota/ProjectQuota.go:100-119 | over any sequential run the paths given ids get distinct ones, each costs one id, and earlier entries stay |
| ProjectQuota.ActsKeepMatch | quota/ProjectQuota.go:87-127 | over any sequential run the map equals the ids on disk |
| ProjectQuota.ScanRebuildsMap | quota/ProjectQuota.go:360-412 | scanning such a disk gives the same map back |
| ProjectQuota.ScanMatchesDisk | quota/ProjectQuota.go:360-412 | what a scan records of any flat disk matches that disk |
| ProjectQuota.Start | quota/ProjectQuota.go:528-551 | a start on such a disk has the one map that matches it, and a counter past the minimum and every id in it |
| ProjectQuota.Restart | quota/ProjectQuota.go:536-550 | first start, any sequential run with distinct new ids, second start: the new process has the same map and a counter past the minimum and all ids in use |
| ShardedMap.Fnv32 | utils/map.go:285-293 | the loop computes the wrapped 32-bit hash |
| ShardedMap.XorBit | utils/map.go:290 | bit by bit, a bit of the result is set iff the two bits differ |
| ShardedMap.MixBit | utils/map.go:289-290 | one round is the product modulo 2^32 with the bits of the byte flipped |
| ShardedMap.MergedAt | utils/map.go:30-32 | a key is in the union iff it is in the shard its hash selects |
| ShardedMap.CountIsCardinality | utils/map.go:94-103 | the sum of shard sizes is the size of the union |
| ShardedMap.OpRefines | utils/map.go:34-139 | each operation answers as the plain map and keeps keys in their shards |
| ShardedMap.RunRefines | utils/map.go:34-139 | so does every sequence of operations |
| ShardedMap.PlainLaws | utils/map.go:34-139 | what each one-key operation of the plain map leaves for a later look-up and reports |
| ShardedMap.ConcurrentMap.constructor | utils/map.go:21-27 | an empty map of 32 distinct shards |
| ShardedMap.ConcurrentMap.SetKey | utils/map.go:44-50 | plain map update |
| ShardedMap.ConcurrentMap.SetAll | utils/map.go:34-41 | plain map union with the given entries |
| ShardedMap.ConcurrentMap.UpsertKey | utils/map.go:59-67 | stores and returns what the callback makes of the old value |
| ShardedMap.ConcurrentMap.SetKeyIfAbsent | utils/map.go:70-80 | a present key leaves the contents unchanged and answers false; an absent one is stored and answers true |
| ShardedMap.ConcurrentMap.GetKey | utils/map.go:83-91 | plain map lookup |
| ShardedMap.ConcurrentMap.HasKey | utils/map.go:106-114 | plain map membership |
| ShardedMap.ConcurrentMap.RemoveKey | utils/map.go:117-123 | plain map removal |
| ShardedMap.ConcurrentMap.PopKey | utils/map.go:126-134 | removal with the old value |
| ShardedMap.ConcurrentMap.CountAll | utils/map.go:94-103 | the cardinality of the map |
| ShardedMap.ConcurrentMap.IsEmptyMap | utils/map.go:137-139 | true iff the map is empty |
| ShardedMap.ConcurrentMap.AllKeysOf | utils/map.go:243-271 | every key of the map once |
| FanIn.EachEntryOnce | utils/map.go:173-209 | every interleaving that ends has emitted each entry as often as the shards hold it |
| FanIn.EmittedExactlyOnce | utils/map.go:158-209 | for a map's own shards that is exactly once |
| FanIn.CapacitiesHold | utils/map.go:158-167 | no channel exceeds its capacity, and a shard's sender never waits for room |
| FanIn.StepsRunOut | utils/map.go:196-209 | every step uses up work, so every interleaving is finite |
| FanIn.NeverStuck | utils/map.go:196-209 | until the consumer's loop has ended some step is possible |
| FanIn.ItemsRebuildsMap | utils/map.go:212-221 | the collected map is the map itself |
| KeyGather.GatheredOnce | utils/map.go:243-271 | every interleaving that ends has gathered each key as often as the senders found it, whatever the capacity |
| KeyGather.KeysOfMap | utils/map.go:243-271 | on a map's own shards that is each of its keys exactly once, and nothing else |
| KeyGather.NoSenderWaits | utils/map.go:244-245 | with the count as capacity a sender never waits for room |
| KeyGather.StepsRunOut | utils/map.go:246-263 | every step uses up work |
| KeyGather.NeverStuck | utils/map.go:246-269 | until the caller's loop has ended some step is possible |
| ConnPool.StepKeepsInv | utils/pool.go:46-142 | every operation keeps each connection in one place and the pool within its channel |
| ConnPool.EveryConnectionOnce | utils/pool.go:46-142 | in all runs a made connection is exactly one of pooled, lent, or released once |
| ConnPool.FillTopsUp | utils/pool.go:46-92 | a failure-free fill ends at the smaller of the initial size and the capacity |
| ConnPool.HalfEmptyPoolIsRefilled | utils/pool.go:50-78 | so it does whenever the guard lets it start |
| ConnPool.FillOnlyAdds | utils/pool.go:51-78 | with any failures a fill only adds new connections at the end of the pool or releases them, and stops early only with a pool of the initial size or a synchronous fill's failure |
| ConnPool.FillReleasesWhenFull | utils/pool.go:63-68 | a connection is released only for want of room |
| ConnPool.NetPool.FillPool | utils/pool.go:51-78 | the loop with its failures, releases and early exit |
| ConnPool.NetPool.GetConn | utils/pool.go:94-116 | the oldest pooled connection, else a new one, else the factory's error |
| ConnPool.NetPool.PutConn | utils/pool.go:118-132 | to the end of the pool when there is room, released when not, and no longer lent |
| ConnPool.NetPool.Release | utils/pool.go:133-142 | all pooled connections released, capacity reset to the initial size |
| HttpRange.PrintValue | utils/httprange.go:177 | decimal printing is undone by decimal reading |
| HttpRange.ParsesMeaning | utils/httprange.go:108-166 | a header of that shape is accepted iff it means a range, and is read as that range |
| HttpRange.AcceptedHasMeaning | utils/httprange.go:108-166 | every accepted header has that shape |
| HttpRange.WindowIsSelection | utils/httprange.go:49-105 | the window is the positions section 14.1.2 of RFC 9110 selects, inside the resource; error iff an int-range starts at or past the end; no step of the int64 arithmetic wraps |
| HttpRange.AcceptedWindow | utils/httprange.go:49-166 | the same for every accepted header and every size |
| HttpRange.ClosedHeader | utils/httprange.go:49-166 | bytes=a-b on numbers: the window from a to b cut at the end, invalid when b is before a or a is past the end |
| HttpRange.OpenHeader | utils/httprange.go:49-166 | bytes=a-: from a to the end |
| HttpRange.SuffixHeader | utils/httprange.go:49-166 | bytes=-n: the last n bytes or the whole, invalid for 0 |
| HttpRange.NoRangeIsWhole | utils/httprange.go:49-105 | no range is the whole resource; a negative size has no length; without a window nothing is printed |
| HttpRange.PrintParseRoundTrip | utils/httprange.go:169-178 | the printed range parses to the same window |
| SkipLimit.ChunkingDoesNotMatter | utils/ioutil.go:126-156 | over a writer that takes all it is offered, the output is the window of the whole input however it is cut into writes |
| SkipLimit.LimitHolds | utils/ioutil.go:126-156 | over any writer, with short writes and errors, it never gets more than the limit, which is charged for what was taken |
| SkipLimit.LimitWriter.Write | utils/ioutil.go:134-156 | reports the full length and the writer's error, and offers the part inside the window |
| SkipLimit.SkipReader.Discard | utils/ioutil.go:196-205 | the loop ends where the source's answers put it: what is left to skip, what is left to read, and the error |
| SkipLimit.SkipReader.Read | utils/ioutil.go:191-207 | count, error, bytes and new state are a function of the source, its answers, the skip count and the room, for failing reads too |
| SkipLimit.HandsOutTailIff | utils/ioutil.go:191-207 | for every source, answer plan and sequence of reads, the caller gets the source from the skip point on if and only if nothing lies beyond it or no failing answer given while skipping carried bytes |
| SkipLimit.FailureEatsBytes | utils/ioutil.go:200-203 | a run in which the caller gets [3] where [2, 3] is due |
| SkipLimit.NeverFailingAnswers | utils/ioutil.go:191-207 | a source that never fails meets the condition |
| SkipLimit.PlainRead | utils/ioutil.go:191-207 | over a source that hands over all it can: the bytes behind the skip point as room allows, and the end exactly when there are none |
| SkipLimit.ErrorsAreReported | utils/ioutil.go:191-207 | a call reports the failing answer it met, in the skip or after it, and makes up none; the end only when the source is used up |

## Left out

- StdCopy.Run: the reported count is an unbounded number, not an int64; the text of error messages is not modelled; the read plan is finite and the source then hands over all it can, which covers every run that ends.
- StdCopy.WriteFrame: the pooled scratch buffer is taken to be empty when it is fetched, as the code leaves it.
- Confound.LineConfound: the recover handler, which no input reaches.
- Connection.Conservation: steps are atomic as under the mutex, and the unlocked flush reads its two guards in one step; blocking on the unbuffered channel and the deadlock it can cause are not modelled, and neither is the runtime's own check for concurrent map access during the unlocked flush.
- Connection.ClosedIsSilent: the MinIO reader puts messages on the channel directly, past the mutex and the closed flag; it is not part of this model.
- ConnectHub.ConnectDef.constructor: starting the monitor and the two websocket goroutines is not modelled; what they do to the connection are the machine's steps.
- ConnectHub.ConnectDef.OnClose: the hub is a set of ids; two live connections registered under one id are not modelled.
- LabelTree.BuildTree: one log prefix; the values of the custom-config label and `parseLogConfig` are not modelled.
- MountLookup.HostDirOf: for clean absolute paths, which is what its only caller passes.
- ConfigGc.FilebeatPiloter.Scan: a scan is atomic with respect to creations and deaths; glob results, file sizes, registered offsets and the volume-path pattern are inputs; a stat error other than a missing file is not modelled.
- ProjectQuota.Control.SetDirQuota: direct children of the base path; setting the quota limit itself, `ReleaseDir`, nested quota directories and symbolic links are not modelled.
- ProjectQuota.Start: for base project id 0 on a disk that can be read; `Control.FindNextProjectID` has the other cases of the scan itself.
- ProjectQuota.Restart: for sequential runs with base project id 0 and quotas on direct children only.
- ShardedMap.ConcurrentMap.AllKeysOf: gathers the shards one after another; the goroutines and the channel are those of `KeyGather.dfy`.
- ShardedMap.RunRefines: operations are atomic, as under the shard locks; `IterCb` and JSON output are not modelled.
- FanIn.ItemsRebuildsMap: no writer runs beside the iterator.
- ConnPool.EveryConnectionOnce: `IsActive` is always true, as in the repository, and callers hand back only what they were lent.
- SkipLimit.LimitWriter.Write: the limit is not negative (the code panics on a negative one), and a writer takes no more than it is given.
- HTTP and websocket handlers, the Docker, Kubernetes and MinIO clients, retries, and the polling loop that finds a pod: input and output only.
- The GPU packages, the dynamic loader and the ioctl constants: calls into foreign libraries.
- Token encryption and JSON web tokens: library code.
