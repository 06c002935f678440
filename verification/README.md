# PacketReplay in Dafny

PacketReplay captures packets, suppresses repeated ones for a while, puts fragmented datagrams back together,
stores the result in an append-only list, indexes that list for search, and replays it in time order with a
cursor that lets an interrupted replay resume. This project models that pipeline, from the text of a stream key
to the resumed replay, and proves what its parts promise, alone and together.

Components that change state in place are classes whose methods are proved against functions on values; the
theorems are lemmas about those functions, over every input and every run.

| file | models |
|---|---|
| `Text.dfy`, `StreamKeys.dfy`, `Packets.dfy` | cutting, trimming and printing text; the stream key, its parser and its printed form; packets, their names, the input of the dedup hash |
| `Windows.dfy` | the reassembly window |
| `AssemblerModel.dfy`, `Assemblers.dfy` | the assembler on values, and the object proved against it |
| `AssemblerInvariant.dfy`, `AssemblerRuns.dfy` | closed forms of eviction and flush; the invariant of every reachable state |
| `Conservation.dfy`, `Evictions.dfy` | where every fragment and byte goes; when the wrong window is evicted, and starvation |
| `OrderIndependence.dfy`, `StreamIndependence.dfy` | arrival order; streams apart |
| `Stores.dfy`, `Chunking.dfy`, `Dedups.dfy` | the store, its chunk table, the dedup window |
| `Reassembly.dfy`, `ReassemblyRuns.dfy` | reassembly and store together |
| `IndexModel.dfy`, `Indexes.dfy`, `Rebuilding.dfy` | the index tables, the index object, concurrent rebuilds as a step system |
| `Stamping.dfy`, `Replaying.dfy`, `ReplayTheorems.dfy` | ordering a chunk, the replay service, what replay and resume promise |
| `Deliveries.dfy` | puts, replays and resumes in any order: what has gone out by the end |
| `Capturing.dfy`, `EndToEnd.dfy` | the capture loop, and a datagram's way from capture to store |
| `Prelude.dfy` | words, options, sequences, sorting |

## How the model reads the program

- Each mutex-protected section is one step. `Rebuilding` interleaves the sections of any number of rebuilds with
  each other and with puts; elsewhere a method runs alone.
- Wall-clock readings are parameters: a function from the number of the expiry to its reading in the assembler, an
  argument in capture and dedup. So are xxhash (`digest`), `strings.ToLower` (`lower`), and the sort by timestamp
  (`sorter`), which is any fixed function that returns a time-sorted permutation, because `sort.Slice` is not stable.
- Output callbacks, cursor saves and cursor loads may each fail, as an arbitrary function of how many came before.
  A save that fails leaves the old cursor.
- A capture source is the sequence of what it yields, packets and failing reads, and may fail to open or close.
- The index looks packets up in the store it is rebuilt from, as `main.go:54-55` wires it. In the class the lookup
  may also be absent or another store.
- Fields the program does not have and the statements need: `views` (the values of the live windows), `added` and
  `held` (what the index tables have been given since they were emptied), `spans` (the same as stretches of the
  store's list: the snapshot, then each delta merged), `last`, `overlapped` and `fetchedAt` (which rebuild emptied
  the tables last, whether another cut across, how much was stored at its Since), `saved` (how many packets lie in
  chunks whose cursor was saved).

## Where the code and its comments differ

For each promise that fails there is the exact condition under which the code keeps it, and an input for which it does
not.

- `internal/reassemble/assembler.go:94` promises to evict the oldest window when there are more than the limit. The age
  list keeps elements of streams whose window is gone, and they count. `EvictsOldestExactly` says when an opening ends
  what it should, `EvictsEarlyExactly` when it ends a live window below the limit, `EvictedEarly` is such a run, and
  `NoStaleEvictsOldest` says that without stale elements all is well. The window just opened can be the victim:
  `OpenFresh` says when, `OrphanedExactly` when its fragment is lost with it, `OrphanRun` is such a run. Whatever the
  limit, a stream that has the assembler to itself can lock itself out for good: `StreamStarves`.
- `internal/reassemble/assembler.go:139` has a flush clear the state. The age list keeps one element for each stream
  flushed, and the queue stays as it is when no window was live: `FlushClearsExactly`. `FlushLeavesStale` is such a run.
- `internal/index/rebuild.go:18-19` promises that nothing written during a rebuild is lost. A put between Since and the
  history record is counted in the version and not listed: `LatePutMissesRecord`. `RecordExact` and `RecordExactAlone`
  say when the record is right.
- `internal/index/index.go:144` calls the result of `PacketsAt` storage order; it is sorted by ID.
  `HistoryInStorageOrder` says when the two are the same, `HistoryReordered` is a history where they are not.
- `internal/index/index.go:12` has all conditions joined by "and". The source address is never looked at, and a query
  without other conditions finds nothing. `SearchAsMeant` and `EmptyQueryAsMeant` say when the answer is right all the
  same, `SourceIgnored` is one that is not.
- `internal/dedup/dedup.go:10` lets equal payloads through once per window. The store releases the key of what it
  stores, so a copy of a stored packet is let through: `CopySuppressedExactly` and `DatagramCopySuppressedExactly` say
  when a copy is suppressed, `CopyStored` gives two stored copies, `WindowHoldsExactly` what the window holds. The very
  packet captured again is refused for its ID instead, which ends the capture without a flush: `StoredCopyRefused`.
- The same comment makes a payload storable again once the window has passed. One that was not stored is when a purge
  finds its key a window old, and not before: `KeyOutlivesWindow`.
- `internal/replay/replay.go:128` resumes with only what was not yet replayed. What went out of a chunk whose cursor was
  not saved comes again, whatever the timestamps: `UnsavedChunkRepeats`, and in the first chunk `UnsavedComesAgain`. So
  does the tail of a saved chunk, when packets tied with its last come out in another order: `TiedTailRepeats`.
  `NothingRepeatedExactly` says when nothing does, wherever a replay stopped. What a resume emitted that did not go
  through comes again with the next one: `ResumeRepeatsExactly`, with a run in `UnsavedComesAgain`.
- Nor is all that was not yet replayed emitted. A packet stored since that is no later than the cursor's is skipped:
  `EarlierArrivalMissed`. `InterruptedReplayExact` says when nothing is, `DeliveredExactly` what never goes out over whole
  runs.
- `internal/replay/replay.go:37` outputs in time order. A stream is replayed in storage order and sorted chunk by chunk
  only: `StreamReplayOrder` says when the output is in time order, `StreamOutOfOrder` is a stream for which it is not.

Beside these:

- The key leaves out sequence number and offset (`internal/model/packet.go:146-152`), so a datagram with two equal parts
  is never put together: `EqualPartsNeverAnswered`, `EqualPartsNeverStored`.
- `internal/stamp/stamp.go:30` describes a key with the sequence number as its second part; the key is the millisecond
  alone, and the comparison does not use it.
- `internal/capture/service.go:55` retries a failed write once. A refused `Put` changes nothing, so the retry meets the
  same refusal: `StoreDirectly`.

## Model

| member | source | states |
|---|---|---|
| StreamKeys.ParserRange | internal/model/stream.go:25-104 | The keys the parser can return, field by field: addresses not empty, trimmed and free of the separators that end them, ports not zero, protocol 6 or 17 |
| StreamKeys.ParsesExactly | internal/model/stream.go:61-104 | The parser returns a key for exactly the texts of a grammar: two endpoints, a dash between, a slash and "tcp" or "udp", spaces only where it trims them |
| StreamKeys.ErrorsExactly | internal/model/stream.go:61-104 | Of a text with slash and dash, which of the errors it gets, or none |
| StreamKeys.ParsesBothProtocols | internal/model/stream.go:61-90 | For all trimmed addresses without separators and ports not zero, the text ending in "/udp" parses to protocol 17, the one ending in "/tcp" to protocol 6 |
| StreamKeys.PrintedForm | internal/model/stream.go:39-41 | What is printed: source, destination and protocol number with their separators |
| Text.TrimExactly | internal/model/stream.go:61-104 | Trimming takes off the spaces at both ends and nothing else |
| StreamKeys.ParseAcceptsCaptureText | internal/model/stream.go:61-90 | Every such key is returned for the text a capture file would give it |
| StreamKeys.PrintedFormNeverParses | internal/model/stream.go:39-41 | No key's printed form is accepted back by the parser |
| StreamKeys.ColumnsSeparate | internal/model/stream.go:39-41 | The printed form of a parseable key splits back into its five columns |
| Packets.NamesDecode | internal/model/packet.go:75-100 | The ID of a datagram, fragment, reassembled or partial packet splits back into key columns and suffix |
| Packets.SuffixDecodes | internal/reassemble/assembler.go:80-82 | The suffix tells the four kinds of ID apart |
| Packets.NamesUnique | internal/model/packet.go:75-100 | Equal IDs mean the same kind, stream, sequence number and, for fragments, offset |
| Packets.DigestInputDetermines | internal/model/packet.go:146-152 | Two packets feed the dedup hash the same bytes exactly when stream and payload are equal; sequence number and offset do not enter |
| Windows.Window.constructor | internal/reassemble/window.go:31-40 | A new window is empty and wants offsets up to total minus one in uint32, so a zero total wants all of them |
| Windows.Window.Add | internal/reassemble/window.go:48-61 | Outside and duplicate fragments are refused and change nothing; an accepted one is recorded once, counted, and completes the window when it was the last missing |
| Windows.Window.Complete | internal/reassemble/window.go:64-71 | Complete means that every offset of the closed interval is held |
| Windows.Window.Assemble | internal/reassemble/window.go:74-85 | The fragments are joined by ascending offset, in whatever order the map yields them |
| Windows.Window.Expire | internal/reassemble/window.go:88-94 | Only an unfinished window is marked; the count of fragments is returned |
| Windows.JoinedParts | internal/reassemble/window.go:74-85 | A window that holds a datagram's parts joins to the parts in order |
| Assemblers.Assembler.ExpireEntry | internal/reassemble/assembler.go:108-128 | The window leaves the live ones, is marked, and queues a partial packet if it has payload |
| Assemblers.Assembler.EnforceLimit | internal/reassemble/assembler.go:94-105 | The in-place loop over the age list does what the model's eviction does, and marks exactly the evicted windows |
| Assemblers.Assembler.Open | internal/reassemble/assembler.go:55-66 | The fragment's window is the live one, or a new one that replaces an older datagram's, or a new one its own opening may have evicted |
| Assemblers.Assembler.Feed | internal/reassemble/assembler.go:45-91 | For every packet and every state, the new state and the answer are those of the model; a packet that is no fragment is its own answer, and a datagram put together has the name, stream, number, timestamp and protocol of its last fragment and no fragment fields |
| Assemblers.Assembler.Drain | internal/reassemble/assembler.go:131-137 | Hands out and empties the queue, nothing else changes |
| Assemblers.Assembler.FlushExpired | internal/reassemble/assembler.go:140-166 | The walk that removes elements from the list it walks does what the model's flush does |
| AssemblerInvariant.EnforceEvictsFront | internal/reassemble/assembler.go:94-105 | Eviction takes the surplus off the front of the age list and ends exactly the live streams named in it, each leaving its partial in order of first occurrence |
| AssemblerInvariant.FlushCompletes | internal/reassemble/assembler.go:140-166 | A flush leaves no live window, returns the queue and then one partial per live window with payload in order of first occurrence, and keeps one list element per stream flushed |
| AssemblerInvariant.EvictedPartials | internal/reassemble/assembler.go:108-128 | Eviction queues exactly one partial per window it ends that has payload, with its name, stream, number, protocol, the reading of its expiry and what it held joined by offset |
| AssemblerInvariant.FlushedPartials | internal/reassemble/assembler.go:108-166 | A flush hands out, or leaves queued, exactly such a partial per live window |
| AssemblerInvariant.FirstLiveInOrder | internal/reassemble/assembler.go:144-163 | Those windows are in the order in which their streams first occur in the age list |
| AssemblerRuns.OpenFresh | internal/reassemble/assembler.go:55-60 | Opening evicts the very window it opens exactly when a stale element of the stream is among the surplus |
| AssemblerRuns.FeedKeepsInv | internal/reassemble/assembler.go:45-91 | Every Feed keeps the invariant |
| AssemblerRuns.ReachableInv | internal/reassemble/assembler.go:45-166 | After any run of Feed, Drain and FlushExpired live windows are partial and incomplete, hold only offsets of their interval and count them, number at most the limit, and have their streams in the age list |
| Conservation.Conserved | internal/reassemble/assembler.go:52-89 | Over every run, fragments or bytes fed = dropped + live + reassembled + expired + orphaned |
| Conservation.CountersAgree | internal/reassemble/assembler.go:54-74 | The ledger's fragments fed and dropped are the assembler's own counters |
| Conservation.AnswersCounted | internal/reassemble/assembler.go:46-89 | Over every run the assembler counts as passed through what came back as it was, and as assembled the datagrams it handed out |
| Conservation.BytesConserved | internal/reassemble/assembler.go:52-166 | Over every run, bytes fed = dropped + live + payloads reassembled + partials handed out or queued + orphaned |
| Conservation.OrphanedExactly | internal/reassemble/assembler.go:55-76 | A Feed orphans its fragment exactly when its opening evicted its own window, the offset fits, and it was not the whole datagram |
| Conservation.NoOrphansAfresh | internal/reassemble/assembler.go:56-60 | If no stream is opened while the age list still has it, nothing is ever orphaned |
| Evictions.EvictsOldestExactly | internal/reassemble/assembler.go:94-105 | An opening ends the oldest live window when there are more than the limit, and none otherwise, exactly when the surplus of the age list names as many live streams as there are too many |
| Evictions.EvictsEarlyExactly | internal/reassemble/assembler.go:94-105 | Within the limit it ends a live window exactly when the part of the age list to be cut names one |
| Evictions.EvictedEarly | internal/reassemble/assembler.go:56-60 | A run that does, with room for two windows and two open |
| Evictions.NoStaleEvictsOldest | internal/reassemble/assembler.go:94-105 | With no stale element on the age list eviction is as documented |
| Evictions.StreamStarves | internal/reassemble/assembler.go:56-60 | For every limit: after that many datagrams of one fragment on a stream alone, from a fresh assembler, no datagram of several fragments of it is ever answered |
| Evictions.OrphanRun | internal/reassemble/assembler.go:56-76 | A run of two fragments whose second is orphaned |
| Evictions.FlushClearsExactly | internal/reassemble/assembler.go:139-166 | A flush leaves no window; it clears the age list exactly when there was none, and the queue exactly when there was one or nothing was queued |
| Evictions.FlushLeavesStale | internal/reassemble/assembler.go:140-166 | A run of one fragment and a flush that leaves the stream on the age list |
| OrderIndependence.Collects | internal/reassemble/assembler.go:67-90 | While a fragment is missing none of the datagram's is answered and its window holds exactly what arrived, whatever other streams and older packets of the stream do |
| OrderIndependence.OrderIndependent | internal/reassemble/assembler.go:67-88 | In any order, with duplicates, other streams and older packets of the same, a fragment is answered exactly when it is the last missing one, with the datagram: the parts in order, at the time and of the protocol of that fragment |
| OrderIndependence.PermutationReassembles | internal/reassemble/assembler.go:67-88 | Any permutation of a datagram's fragments is answered on its last, with that datagram |
| StreamIndependence.StreamsIndependent | internal/reassemble/assembler.go:45-128 | On every run that keeps the age list within the limit, a stream's answers, live window and partials, timestamps aside, are those of its own packets fed alone |
| Stores.Store.Put | internal/store/store.go:56-81 | A storable packet with a new ID is appended, every table kept in step and its dedup key released; any other is refused and changes nothing, as invalid exactly when it is malformed, field by field |
| Stores.RefusedExactly | internal/model/packet.go:58-72 | Invalid: no ID, an empty address, a zero port, a protocol other than 6 and 17, a fragment of nothing or outside its datagram, no payload; already stored: none of these, and its ID is there |
| Stores.RunKeepsFirst | internal/store/store.go:56-68 | Over every run of puts the store holds exactly the first storable packet of each ID |
| Stores.Store.Get | internal/store/store.go:84-89 | The stored packet of that ID, and none exactly when there is none |
| Stores.Store.GetStream | internal/store/store.go:92-104 | The stream's packets in storage order |
| Stores.StreamsPartition | internal/store/store.go:70-71 | The stream lists partition the store: each packet as often as stored, in its own stream's list alone |
| Stores.Store.ListStreams | internal/store/store.go:107-116 | Every stream with packets once, sorted by printed form |
| Stores.Store.Stats | internal/store/store.go:119-129 | All five counts, from the list: packets, distinct streams, full and begun chunks, checksums, generation |
| Stores.Store.TakeSnapshot | internal/store/snapshot.go:16-24 | The generation is the number of packets, the IDs are theirs in order |
| Stores.Store.Since | internal/store/snapshot.go:27-42 | What was stored after a version, and nothing for a version not reached |
| Stores.Store.Resolve | internal/store/snapshot.go:45-56 | The packets a snapshot names, each as often as named, in time order; for any snapshot taken earlier, the list as it was then |
| Stores.Store.Ordered | internal/store/snapshot.go:59-66 | Every stored packet once, in time order: the permutation the sort yields |
| Stores.SortersExist | internal/store/snapshot.go:59-66 | Functions such as the one assumed for the sort exist |
| Stores.Store.Segments | internal/store/segment.go:14-30 | The chunk table read back gives the intervals cut all at once, numbered, with their lengths |
| Chunking.ChunkTablePush | internal/store/store.go:72-75 | One more packet turns the table for n packets into the table for n + 1 |
| Chunking.TableLaysOutToChunks | internal/store/segment.go:14-30 | The table filled packet by packet lays out to the same intervals as cutting at once |
| Chunking.ChunksCover | internal/replay/chunk.go:19-29 | The intervals are contiguous, not empty, all of full size but the last, and cover the range |
| Chunking.Scheduler.Chunks | internal/replay/chunk.go:19-29 | The loop yields those intervals |
| Chunking.Scheduler.ChunkCount | internal/replay/chunk.go:32-37 | The closed form counts them |
| Dedups.Dedup.Record | internal/dedup/dedup.go:41-49 | The first recording of a key stands |
| Dedups.Dedup.PurgeExpired | internal/dedup/dedup.go:59-70 | Exactly the keys a whole window old are removed, and counted |
| Reassembly.TakenAll | internal/reassemble/reassemble.go:35-39 | A store takes a whole list exactly when all of it is storable and no ID occurs twice or is there already |
| Reassembly.Service.Handle | internal/reassemble/reassemble.go:30-44 | Partials that came due are stored, then the datagram if it has an ID, up to the first refusal, whose answer is returned; nothing stays pending |
| Reassembly.Service.Flush | internal/reassemble/reassemble.go:47-55 | No live window remains; the partials are stored up to the first refusal |
| ReassemblyRuns.RunSettles | internal/reassemble/reassemble.go:30-55 | Over every run of Handle and Flush, refusals or not, nothing stays pending, the assembler's invariant holds, the store only grows and keeps its IDs unique |
| ReassemblyRuns.FlushDelivers | internal/reassemble/reassemble.go:47-55 | After any such run a flush hands the store exactly one partial per live window with payload, in order of first occurrence |
| ReassemblyRuns.RunAccounts | internal/reassemble/reassemble.go:30-55 | Over every run, bytes handed in = stored + in live windows + lost on the way in + refused by the store or behind a refusal |
| ReassemblyRuns.FlushedRunStoresAll | internal/reassemble/reassemble.go:30-55 | A run without refusals that ends in a flush has stored every byte not lost on the way in |
| IndexModel.AddRepresents | internal/index/index.go:60-71 | Adding a packet makes tables for a set of packets into tables for one more |
| IndexModel.MergeAllRepresents | internal/index/rebuild.go:43-49 | Merging adds exactly the packets missing, and counts them |
| IndexModel.AllListedSorts | internal/index/rebuild.go:72-77 | The recorded list is the sorted IDs of what is indexed, in whatever order the map yields the streams |
| IndexModel.LookUpPrefix | internal/index/rebuild.go:32-37 | A snapshot's IDs look up to the packets it was taken of |
| Indexes.Intersect | internal/index/index.go:189-201 | Exactly the common elements, without repetition if the first list has none |
| Indexes.Index.Add | internal/index/index.go:60-71 | The packet is entered once under stream, protocol and port, and the tables stand for one packet more |
| Indexes.Index.TextMatches | internal/index/index.go:108-117 | The IDs of exactly the packets in whose stream, printed and lowered, the lowered text occurs somewhere; each once exactly when no two of these streams share an ID |
| Indexes.Index.Search | internal/index/index.go:74-106 | Sorted; with a condition set and no ID in two streams, exactly the indexed packets meeting every condition, each once; by text alone exactly the packets in whose printed stream it occurs, each once exactly when no match shares an ID across streams; empty without a condition |
| Indexes.ContainedExactly | internal/index/index.go:112 | A text contains another exactly when it is that with something before and something after |
| Indexes.MatchesExactly | internal/index/index.go:74-99 | What meeting every condition comes to: the stream, the lowered protocol, the destination port, the text within the printed stream |
| Sorting.StringLeqExactly | internal/index/index.go:104 | Sorted means: no later than its extensions, and than any with a greater character where they first differ |
| Indexes.SearchAsMeant | internal/index/index.go:12-19 | A search finds what its conditions mean together, source address included, exactly when no packet meeting the others fails that one; without other conditions, exactly when nothing meets it |
| Indexes.EmptyQueryAsMeant | internal/index/index.go:99-101 | The query without any condition is answered rightly exactly by an empty index |
| Indexes.SourceIgnored | internal/index/index.go:74-106 | An index of one packet, searched by its stream and its destination as source address, finds it |
| Indexes.HistoryInStorageOrder | internal/index/index.go:144-155 | A recorded list is in storage order exactly when the IDs were stored in sorted order |
| Indexes.HistoryReordered | internal/index/index.go:144-155 | The ninth and tenth packet of a stream, recorded the other way round |
| Indexes.Index.Size | internal/index/index.go:170-178 | One for each stream and ID listed, which is one for each packet where IDs are unique |
| Indexes.Index.Resolve | internal/index/index.go:120-135 | The packets of the IDs that can be looked up, each as often as named, in time order |
| Indexes.Index.ResetAndBuild | internal/index/rebuild.go:29-38 | Whatever was in the tables, they stand for what the snapshot looks up to, and that is counted |
| Indexes.Index.Merge | internal/index/rebuild.go:43-49 | The tables stand for what they had and the delta, and the additions are counted |
| Indexes.Index.ContainsId | internal/index/rebuild.go:62-69 | Whether any stream lists the ID |
| Indexes.Index.RecordHistory | internal/index/rebuild.go:72-80 | The sorted list of everything listed is recorded under the packet count |
| Indexes.Index.Rebuild | internal/index/rebuild.go:20-54 | Undisturbed, it indexes exactly the store, counts it, and records its sorted IDs under its size |
| Indexes.Operations | internal/index/rebuild.go:20-54 | A store and its index, put through any puts and undisturbed rebuilds, go through the lists and histories of the run on values; what `PacketsAt` gave for a recorded version it still gives |
| Indexes.AuditStable | internal/index/rebuild.go:72-80 | Over every such run each recorded version is and stays the sorted IDs of the first that many packets |
| Rebuilding.NextKeepsInv | internal/index/rebuild.go:20-54 | Every put and every section of every rebuild keeps the protocol's invariant |
| Rebuilding.RebuildsConverge | internal/index/rebuild.go:20-54 | Once all rebuilds are done, however they interleaved with puts and each other, the index stands for a prefix of the list: as far as the merges since the tables were last emptied reach, and at least to the Since of the rebuild that emptied them |
| Rebuilding.EachIdOnce | internal/index/rebuild.go:20-54 | Standing for packets means each ID exactly once under its own stream, protocol and port |
| Rebuilding.RebuildCounts | internal/index/rebuild.go:31-49 | Built is the snapshot's length; for a rebuild no other cut across, built and merged add up to what was stored at its Since |
| Rebuilding.RecordExactAlone | internal/index/rebuild.go:50 | A rebuild no other cut across records the current list exactly when nothing was stored since its Since |
| Rebuilding.RecordExact | internal/index/rebuild.go:50 | Any rebuild does, however others cut across, exactly when the snapshot last refilled from and the deltas merged since cover every position of the list; once the rebuild that emptied the tables has merged, exactly when they reach its end |
| Rebuilding.LatePutMissesRecord | internal/index/rebuild.go:41-50 | A run in which a put after Since is counted in the version and not listed |
| Stamping.ComparePreorder | internal/stamp/stamp.go:36-52 | Compare is a total preorder |
| Stamping.ShiftIn | internal/stamp/batch.go:29-35 | The shifting loop inserts one element into the sorted part of the array, after its equals |
| Stamping.TagAndSortBatch | internal/stamp/batch.go:26-38 | The in-place sort leaves the stable sort of the tagged batch |
| Stamping.SortedBatch | internal/stamp/batch.go:26-38 | That is a permutation in Compare order, ties by position, every entry pointing at its own packet, with keys nondecreasing |
| Stamping.SortedBatchInFigures | internal/stamp/stamp.go:30-52 | A key times 1000000 is at most its timestamp in nanoseconds, and the next key more; entries are by timestamp, sequence number, place in the batch |
| Stamping.SortedBatchUnique | internal/stamp/batch.go:26-38 | These properties leave one list |
| Replaying.IndexAfter | internal/replay/replay.go:162-172 | The loop finds the position after the first packet of the ID; the start for no ID or an unknown one |
| Replaying.CursorStore.Save | internal/replay/cursor.go:33-49 | A save that fails leaves the old cursor; every attempt counts |
| Replaying.ReplayService.RunTask | internal/replay/replay.go:65-90 | Wherever it stops, what was emitted is a prefix of the whole replay, the saved chunks a prefix of that on a chunk boundary, with one save for each, and the cursor names the last packet saved; it reports a failure exactly when its last output or its last save was refused, and is done exactly when none was |
| Replaying.ReplayService.DoneExactly | internal/replay/replay.go:75-89 | With that account of outputs and saves, done means that none of them was refused |
| Replaying.ReplayService.Replay | internal/replay/replay.go:93-111 | A prefix of the chunked replay of the list, all of it unless the last output was refused and none before |
| Replaying.ReplayService.ReplayStream | internal/replay/replay.go:114-126 | The same for one stream's packets; an empty stream leaves everything alone |
| Replaying.ReplayService.Resume | internal/replay/replay.go:129-159 | Rebuilds the index, emits what comes after the cursor's packet in time order, and moves the cursor exactly when all of it went out and the save held; each failure it reports is one that happened, a load failure exactly when the cursor could not be read |
| ReplayTheorems.StampedChunk | internal/stamp/batch.go:26-38 | A chunk comes out whole, ordered by timestamp and sequence number |
| ReplayTheorems.ReplayOrder | internal/replay/replay.go:65-90 | A replay carried through emits every stored packet once, in time order across all chunk boundaries |
| ReplayTheorems.ChunkOrder | internal/replay/replay.go:73-82 | Between one boundary and the next the output is that chunk, ordered by timestamp and sequence number |
| ReplayTheorems.SameForEveryChunkSize | internal/replay/replay.go:69-82 | With distinct timestamps the output is the time-ordered list, for every chunk size |
| ReplayTheorems.StreamReplayOrder | internal/replay/replay.go:93-126 | A replay in storage order is in time order exactly when no packet of a chunk is later than one of a later chunk |
| ReplayTheorems.InterruptedReplayLosesNothing | internal/replay/replay.go:65-159 | Stopped anywhere after a saved chunk, saved chunks and what Resume emits cover everything stored |
| ReplayTheorems.NothingSavedCovers | internal/replay/replay.go:162-172 | With no chunk saved, Resume covers everything exactly when the old cursor names nothing stored |
| ReplayTheorems.InterruptedReplayExact | internal/replay/replay.go:65-159 | With distinct timestamps, whatever was stored in between: saved chunks followed by Resume's output are the time-ordered list, and cover what is stored, exactly when all that was stored in between is later than the cursor's packet |
| ReplayTheorems.NothingRepeatedExactly | internal/replay/replay.go:128-159 | Wherever the replay stopped, Resume emits nothing that it sent exactly when: after a save, it stopped right after one and the last saved chunk has no packet tied with its last and numbered later; before the first, it sent nothing, or its last packet is not behind the old cursor and Compare puts nothing there before it |
| ReplayTheorems.FirstChunkRepeats | internal/replay/replay.go:71-86 | Before the first save, with a cursor that names nothing stored, all that went out comes again |
| ReplayTheorems.ResumeRepeatsExactly | internal/replay/replay.go:129-159 | For any cursor: the Resume after a Resume emits nothing of what that sent exactly when that sent nothing or went through, and begins with the same packets if it did not |
| ReplayTheorems.UnsavedChunkRepeats | internal/replay/replay.go:83-85 | Two packets a second apart: the second goes out, its save fails, and Resume emits it again |
| ReplayTheorems.TiedTailRepeats | internal/replay/replay.go:75-85 | Two packets of one instant in one saved chunk, one of which Resume emits again |
| ReplayTheorems.ResumeTail | internal/replay/replay.go:129-151 | After a complete replay Resume emits only packets at the latest timestamp, however ties were sorted |
| ReplayTheorems.StreamOutOfOrder | internal/replay/replay.go:114-126 | A stored stream that is replayed out of time order |
| ReplayTheorems.SecondResumeEmpty | internal/replay/replay.go:129-159 | A second Resume emits nothing if the first went through and nothing was stored in between |
| Deliveries.RunReaches | internal/replay/replay.go:65-159 | Over any run of puts, replays and resumes, each stopping anywhere: what does not lie behind the cursor went out at least once, or was stored no later than the packet the cursor named then; if the last call went through, that holds of everything. Ties are allowed where nothing is stored in between, and then everything went out |
| Deliveries.DeliveredExactly | internal/replay/replay.go:128-159 | With distinct timestamps, after replays, then puts and resumes, the last of which went through, exactly the packets stored no later than the one the cursor named then never went out |
| Deliveries.Serve | internal/replay/replay.go:65-159 | The service object, put through any calls, goes through such a run, so `RunReaches` speaks of what its sink received; if no output, save or load is refused, a last call that is no put goes through, and what is stored is out |
| Deliveries.EarlierArrivalMissed | internal/replay/replay.go:128-151 | A run in which a packet stored after a save, with an earlier timestamp, is never emitted by the Resume that goes through |
| Deliveries.UnsavedComesAgain | internal/replay/replay.go:74-85 | Runs in which a packet of the first chunk, or of a Resume, goes out and its save fails, and the next Resume emits it again |
| Capturing.CaptureService.StoreDirectly | internal/capture/service.go:77-88 | The retry after a refusal ends as the first attempt did |
| Capturing.CaptureService.ProcessOne | internal/capture/service.go:56-91 | Each packet is counted received and as exactly one of deduped, stored, failed, by what dedup, assembler and store answer |
| Capturing.CaptureService.Process | internal/capture/service.go:94-115 | It takes packets in order up to the first refusal, failing read or cancellation, flushes at the end of the source, reports which of these it was and why, and counts a failing close |
| Capturing.SourceUsedUpExactly | internal/capture/service.go:103-114 | It ends flushed exactly when the source is used up, no packet was refused and it is not cancelled then |
| Capturing.EndingDetermined | internal/capture/service.go:94-115 | What it takes and how it ends is determined by source, clock, cancellation and the state before |
| EndToEnd.WholeSourceFlushed | internal/capture/service.go:94-115 | An uncancelled source of packets, none refused, is taken to its end and flushed: no window stays live, and it ends without refusal exactly when the store takes every partial, which are then stored in order |
| Capturing.RunBalances | internal/capture/service.go:56-91 | Over every run, received = stored + failed + deduped |
| Capturing.ProcessBalances | internal/capture/service.go:94-115 | A whole Process keeps the equation exactly when the source closes cleanly |
| Capturing.RunStaysDirect | internal/capture/service.go:56-91 | Without an assembler, over every run of packets and purges, stored is the store's packet count and every key in the window belongs to a packet whose put failed |
| Capturing.SuppressedOnlyAfterFailure | internal/capture/service.go:62-66 | Such a capture suppresses a packet only as the copy of a failed one |
| Capturing.WindowHoldsExactly | internal/dedup/dedup.go:33-70 | With an assembler or without, over every run of packets and purges, the window holds exactly the keys of packets let through since when nothing of that key was stored and no purge came a window later, each with its own reading |
| Capturing.PurgeBeside | internal/dedup/dedup.go:59-70 | A purge of the window object beside the service object is such an event |
| Capturing.CopySuppressedExactly | internal/dedup/dedup.go:33-49 | However capture is wired, a copy right behind its original is suppressed exactly when the original was, or keys are not released, or nothing stored for the original has the key |
| Capturing.DatagramCopySuppressedExactly | internal/capture/service.go:56-91 | For a packet that is no fragment: exactly when the original was suppressed or refused, or keys are not released |
| Capturing.CopyStored | internal/store/store.go:77-79 | Two packets of equal stream and payload that are both stored within one window, with the assembler attached |
| Capturing.StoredCopyRefused | internal/capture/service.go:67-88 | A stored packet captured again, no fragment or without an assembler, is refused for its ID where keys are released, not suppressed |
| Capturing.KeyOutlivesWindow | internal/dedup/dedup.go:33-70 | A packet let through and not stored stays suppressed until a purge finds its key a window old |
| EndToEnd.CaptureFeeds | internal/capture/service.go:56-91 | Capture leaves the assembler as if fed directly what the dedup window let through, and drained |
| EndToEnd.CapturedWhole | internal/capture/service.go:62-75 | Whatever the order of a datagram's fragments, however often each is sent again and whatever the traffic in between, if none shares its dedup key with anything but its own copies, and unless the datagram's window is evicted: the last missing fragment is counted stored exactly when the store takes the partials due with it and the datagram is valid, not empty and new in name; and the store then has it with all its parts in order, at the time and of the protocol of that fragment |
| EndToEnd.EqualPartsNeverAnswered | internal/model/packet.go:146-152 | Of a datagram with two equal parts, captured without a purge, no fragment that reaches the assembler is answered, however often they come, as long as nothing stored releases the key of those parts |
| EndToEnd.EqualPartsNeverStored | internal/model/packet.go:146-152 | And no packet under its name is ever stored |

## Left out

- HTTP handlers, the monitor page, process wiring, configuration files and environment: no logic of the pipeline; the positivity of chunk sizes and limit is a precondition.
- `internal/filter`, `TaskTracker`, `MeasureWindow`, headers, descriptions and error wrapping: no packet passes through them on its way from capture to replay.
- File and live sources, line parsing, `Run`, `Stop` and their ticker: a source is the sequence it yields; `Process` stands for the loop.
- `Rebuilt` and `LastError` of the capture statistics, and the replay statistics: plain counters beside what is modelled.
- The file operations of the cursor store, and its missing file: one cell that starts with the empty cursor.
- `FileCursorStore` surviving a restart: the model has one process.
- `ParseTimestamp` and `ParseHexPayload`: bound to library parsers.
- StreamKeys.ParserRange: addresses are cut at the first colon, so `NormalizeIP` only ever sees text without colons and is modelled as trimming, which it is for dotted addresses without leading zeros and for everything it cannot parse.
- Text is a sequence of characters: UTF-8 encoding, and lower-casing beyond an arbitrary function, are not modelled. Order of strings is by character.
- Windows.Window.Complete: the loop counter is unbounded, while in the program a window of zero total that held all 2^32 fragments would loop for ever.
- Stamping.SortedBatch: timestamps are unbounded integers of nanoseconds, so the overflow of `UnixMilli` far from the epoch is not modelled; likewise the saturation of `time.Sub` in Dedups.Dedup.PurgeExpired.
- Counters, the generation and the index version are unbounded.
- The wrapper around each window in the assembler's map is dropped: the map holds the windows themselves.
- A window's copy of a fragment's payload, and packets sharing payload slices: payloads are values.
- Indexes.Index.Rebuild: states what is indexed only when lookup and source are the same store, or there is no lookup; with another store it says no more than that the tables are consistent.
- Rebuilding.RebuildsConverge: lookup is in the store rebuilt from, as the program is wired.
- StreamIndependence.StreamsIndependent: the timestamps of partials are left open, since expiries of other streams take clock readings in between.
- Deliveries.DeliveredExactly: a replay begun after a packet was skipped may emit it; of such runs `RunReaches` says what it says, and which skipped packets went out is left open.
- EndToEnd.EqualPartsNeverStored: a partial or a reassembled datagram of the same stream that happens to have the payload of the equal parts, stored in between, releases their key; such runs are left open.
- EndToEnd.CapturedWhole: says nothing of fragments that arrive after the datagram is complete, which open a new window.
- `CurrentVersion`, `History`, `Len`, `ChunkSize`, `Ports` and `Span`: accessors.
