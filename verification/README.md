# A verified model of the content-addressed storage engine

These Dafny modules model the storage engine under `core/` and the anchor's quota manager, and prove what the code is
for: the DAG and file builders produce one canonical tree whatever path they take, reading inverts building, garbage
collection keeps what the walk from a sealed root comes to and exactly which DAGs and files that saves is proved, the hybrid
store behaves as a plain map, the chunkers cut by content alone, and placement moves as little as possible when a peer leaves or joins. Where the code falls
short of what it promises, the exact condition under which it keeps the promise is proved instead.

`dafny verify dfyconfig.toml` verifies the project. Code that updates state in place is modelled by classes and loops and
proved against specification functions; the promises are proved about those functions.

| module | models | proves |
|---|---|---|
| `Common` | MIDs, blocks, hash and text form as parameters | – |
| `Wire`, `WireFields` | the protobuf wire form of a `DAGNode` | the internal-node classifier accepts exactly the encoder's images; how any encoder's fields are read; UTF-8 by code points |
| `Carry` | the carry-propagating level buffers and the batch reduction, for any tree | both give the same root and the same blocks |
| `DagBuild`, `DagResolve`, `DagStat` | `core/dag` builder, resolver, statistics | build then resolve is the identity; depth and totals |
| `DagParallel` | the goroutine pipeline of `BuildParallel` as a state machine | every interleaving ends, and ends as `Build` does |
| `MemfsBuild`, `MemfsParallel`, `MemfsPipeline` | `core/memfs` FILE trees and the goroutines of `AddFile` | one canonical tree for every interleaving |
| `MemfsFlatten`, `MemfsReader` | reading FILE trees back | flatten inverts add; the reader is a cursor over one byte string |
| `InputSource`, `FastCdc`, `Rabin` | `core/chunk` content-defined chunkers over an arbitrarily fragmenting reader | cuts depend on content only, and exactly where they fall |
| `CountingBloom` | the counting filter | exact counters over matched runs; over any run, when a held item is shown |
| `StoreDisk`, `HybridStore`, `StoreRun` | block and DAG namespace of `core/store` over Pebble, flat files and the filter | over whole runs with restarts what is answered, and when that is what plain maps answer |
| `StoreWalk`, `Gc`, `StoreGc` | the depth-first walk, mark-and-sweep, and both over the hybrid store | walk = reachability closure; GC keeps exactly what is marked; a second run frees nothing; what is reported freed |
| `Tower` | trees of blocks as the walk sees them, level by level | how far the walk comes when something below is missing |
| `SealedDag`, `SealedFile`, `SealedDir` | the engine end to end | what every kind of block leads to; exactly when a sealed DAG or FILE survives GC, what a sealed directory keeps, and how it reads back |
| `Shard`, `ShardOrder`, `ShardStability` | `core/shard` rendezvous placement with failure domains | who is chosen, in terms of the scores; minimum disruption |
| `Quota` | `anchor/quota.go` | pins survive; victims are the least recently touched |
| `Witness` | a concrete hash, envelope check, text form and node codec | the assumptions below can be met together; a sealed DAG that loses a chunk |

## Parameters and assumptions

* Hash, MID text form, MemFSNode and descriptor codecs, HRW score and the filter's hash pair are parameters. `Env.Sound`
  says digests are accepted multihash envelopes, those are neither empty nor over 2 GiB, and parsing the text of a MID with an
  accepted envelope gives the MID back; `Fs.Sound` says
  decoding a MemFSNode inverts encoding it when its sizes fit a uint64; `PlainText` says MID texts are valid UTF-8. Collision-freedom is required only on
  the payloads of a theorem.
* Pebble is a map keyed by multihash, flat files are a map keyed by the codec-bearing MID, and time is a parameter.
* The quota manager's backend is the set of MIDs it can delete, each deleted at most once a pass, and the sizes it answers.
* Readers are scripts of everything `io.Reader` may do (`InputSource.Event`), a GC run does not overlap a write, and
  recursion over untrusted links carries a depth bound that the source leaves to the call stack.

## What turned out not to hold

* **A chunk can be taken for an internal node by the resolver.** A leaf whose bytes are a canonical link list is followed
  (`DagResolve.LookalikeChunkIsFollowed`). Round trips hold for chunks that are not such encodings, and for one-chunk streams
  only for those (`DagResolve.OneChunkRoundTripIff`); with several chunks the other direction would need more of the hash than
  collision-freedom, since a look-alike's links may lead to other stored chunks.
* **A sealed DAG can lose chunks to GC.** The walk decodes leniently where the resolver insists on the canonical form: any raw
  block of at most 16384 bytes that decodes with a link is internal to the walk. If that link leads nowhere the walk fails, GC
  goes on with the marks made so far, and every later chunk is deleted, although the DAG resolved before
  (`SealedDag.LenientChunkLosesTheRest`, `SealedDag.LenientChunkResolves`; `Witness.LossIsReal` is one such store in full, and
  any size up to 16384 bytes will do). Call a chunk settled when it is larger than that, decodes to no links, or has the closure
  of its links in the store. A DAG survives whenever all its chunks but the last are settled (`SealedDag.SealedDagSurvives`), and
  when nothing else keeps its last chunk exactly then (`SealedDag.SealedDagSurvivesIff`). DAGs from either content-defined
  chunker, or of fixed 256 KiB chunks, never lose a block (`SealedDag.ContentDefinedSurvives`, `SealedDag.LargeChunksSurvive`).
* **A sealed one-block file can lose its block.** The walk treats a FILE with inline data as a leaf, the reader always fetches
  the block from the store. With nothing else to keep it, a one-block file keeps its block exactly when it is not inline
  (`SealedFile.OneBlockFileKeptIff`), and a file in general survives exactly when it is not inline and all chunks but the last
  are settled (`SealedFile.SealedFileSurvivesIff`).
* **GC misreports eight-byte blocks.** With flat files on, the sweep takes any stored value of eight bytes for a length; one
  block can be counted as 64 PiB (`StoreGc.EightBytesMiscounted`, `StoreGc.MisreportsEightBytes`). A payload is counted right
  exactly when it is not an inline eight-byte payload that reads as something else than 8 (`StoreGc.ReportedIs`), and the report
  of a run is off by the sum of these errors (`StoreGc.CollectAndAccount`, `StoreGc.ReportIsRightIff`).
* **GC leaves flat files behind.** For a key that goes it removes the file under the raw codec only; a large payload written
  under another codec keeps its file (`StoreGc.Collect`, `StoreGc.RawGone`).
* **Seek does not always clamp.** The target is added in int64: past the first byte, seeking 2^63 - 1 further is refused as
  negative (`MemfsReader.SeekTooFar`). Targets are clamped exactly as long as they fit (`MemfsReader.Reader.Seek`).
* **AddFile can hang after a failure.** It stops taking results at the first failed read or batch write, and with erasure
  coding on it then waits for its workers, who are gone only when all but a channel's worth of results has been taken
  (`MemfsPipeline.GoneOnlyWhenDrained`).
* **Deleting an absent MID can hide a held one, at once or later.** `Delete` decrements the filter without looking
  (`HybridStore.StrayDeleteHidesHeld`, `CountingBloom.StrayRemoveHidesLater`). Over any run nothing held is ever denied exactly
  when every removal spares the buckets of what is still held (`CountingBloom.AlwaysShowsIff`,
  `HybridStore.MemStore.Delete`).
* **Deleting a DAG node can destroy a block, and a large block read under another codec comes back as its length.** Both
  namespaces share the flat file of a large payload, `DeleteDAG` removes it, and its name carries the codec while keys do not. A
  payload comes back exactly when it is inline or has a file under the very MID asked for, else its 8-byte length does
  (`StoreDisk.ServedIff`, `StoreRun.SharedFileIsLost`). `StoreRun.CarefulRunIsPlain` says what care a caller must take.
* **The minimum age protects raw blocks only.** The sweep looks timestamps up under the raw codec
  (`Gc.FreshMemfsBlockIsNotSpared`).
* **The Rabin window is 81 bytes, not 64.** A byte leaves with weight 1 although its own weight was shifted out long ago, so
  bytes aged 64 to 80 still decide the mask test (`Rabin.WindowIsNot64`); `Rabin.SameTailIff` says exactly when they do not.

## Model

| member | source | states |
|---|---|---|
| `Wire.VarintRoundTrip` | core/dag/dag.go:219-226 | the decoder reads back every 64-bit varint the encoder writes, whatever follows it (Protocol Buffers Encoding, "Base 128 Varints") |
| `Wire.NextLinkRecord` | core/dag/dag.go:215-227 | the decoder reads a length-delimited link record back, with its exact size, whatever follows ("Length-Delimited Records") |
| `Wire.MergeLinks` | core/dag/dag.go:215-227 | decoding the encoding of a link list yields those links, in order |
| `Wire.InternalNodeIffCanonical` | core/dag/resolve.go:165-185 | isInternalNode returns links exactly when the bytes are the canonical encoding of that non-empty list |
| `Wire.MarshalLinksInjective` | core/dag/dag.go:211-232 | two link lists never share an encoding |
| `WireFields.RecordRead` | core/store/walk.go:164-166 | a field of any wire type, groups nested to the limit included, is read with its number, body and exact size, whatever follows |
| `WireFields.VarintReadIff` | core/store/walk.go:164-166 | a varint, shortest form or not, ends at the first byte below 128, within ten bytes, and must fit in 64 bits |
| `WireFields.WrongEndRefused` | core/store/walk.go:164-166 | a group closed under another number is refused, whatever complete fields it holds |
| `WireFields.BadTagRefused` | core/store/walk.go:164-166 | field numbers outside the format, stray group ends and unknown wire types are refused |
| `WireFields.UnmarshalFields` | core/store/walk.go:164-166 | decoding any sequence of fields: the links in order, the last data, the last MID; all else is passed over; links and MID must be text |
| `WireFields.Utf8Iff` | core/dag/resolve.go:165-185 | exactly the encodings of Unicode scalar values count as text (RFC 3629, section 3) |
| `Carry.Append` | core/dag/dag.go:153-167 | one more entry leaves all full groups alone or completes exactly one |
| `Carry.BufferIsDigit` | core/dag/dag.go:89-101 | after N pushes buffer i holds exactly the i-th base-174 digit of N |
| `Carry.MemoryBound` | core/dag/dag.go:89-94 | memory is O(fanout x depth): no more buffers than the number of entries has base-174 digits, less than 174 entries in each |
| `Carry.HeightBounds` | core/dag/dag.go:89-101 | the tree over n entries has the height h with 174^(h-1) < n <= 174^h |
| `Carry.Regroup` | core/dag/dag.go:96-101 | if every parent expands to its group's expansion, a whole level expands like the one below |
| `DagBuild.FirstOverflow` | core/dag/dag.go:96-101 | 175 entries make one node over 174, one over the last alone, and a root over the two |
| `DagBuild.LevelStack.Collapse` | core/dag/dag.go:211-232 | writes the one internal node over the children and returns its MID; an empty group is an error |
| `DagBuild.LevelStack.Push` | core/dag/dag.go:153-167 | a stack streaming `s` streams `s + [m]` afterwards, with exactly the completed blocks written, and never ends with an empty buffer on top |
| `DagBuild.LevelStack.Topmost` | core/dag/dag.go:197-204 | true exactly when every higher buffer is empty |
| `DagBuild.LevelStack.Finalize` | core/dag/dag.go:173-194 | root and written blocks are those of the level-complete batch reduction, lone trailing groups and cascades included |
| `DagBuild.Build` | core/dag/dag.go:102-139 | succeeds exactly on non-empty runs of good chunks, then with the batch root and exactly the batch blocks; otherwise the first bad chunk decides the error |
| `DagResolve.Walk` | core/dag/resolve.go:62-130 | the pipe receives exactly the bytes of the functional walk, and ends for the same reason |
| `DagResolve.NeverServesWrongBytes` | core/dag/resolve.go:134-147 | a store of any content yields a prefix of the true bytes, and all of them if the walk ends cleanly |
| `DagResolve.VerifiedStores` | core/dag/resolve.go:134-147 | in a store that hashes on write, presence means the right bytes |
| `DagResolve.NodeRecognised` | core/dag/resolve.go:149-185 | every internal node Build writes is classified as one, with its own links |
| `DagResolve.BuildThenResolve` | core/dag/resolve.go:62-130 | for every non-empty good chunk list with no look-alike chunk, resolving the built root ends cleanly with exactly the chunks in order |
| `DagResolve.LookalikeChunkIsFollowed` | core/dag/resolve.go:149-185 | a one-chunk stream holding a link list builds but resolves to an error |
| `DagResolve.OneChunkRoundTripIff` | core/dag/resolve.go:149-185 | a one-chunk stream read back from what Build wrote gives the chunk exactly when the chunk is no canonical link list |
| `DagStat.Stats.Count` | core/dag/stats.go:70-81 | one more distinct block keeps every total right |
| `DagStat.Stats.Walk` | core/dag/stats.go:48-98 | a counting walk that ends has counted exactly what lies below and reports its depth |
| `DagStat.Stat` | core/dag/stats.go:37-106 | reports the distinct blocks, leaves, internal nodes, width, bytes and depth of exactly the DAG below the root, and succeeds whenever the resolver does |
| `DagStat.ResolvableHasDepth` | core/dag/stats.go:110-134 | depthOnly is defined wherever the resolver ends cleanly |
| `DagStat.UniformDepth` | core/dag/stats.go:110-134 | a DAG whose leaves all sit at depth d reports d, at every recursion bound that reaches it |
| `DagStat.LongestDescent` | core/dag/stats.go:110-134 | there is a way down to a leaf with as many nodes as the depth reported |
| `DagStat.NoLongerDescent` | core/dag/stats.go:110-134 | and none with more |
| `DagStat.DepthOfBuiltDag` | core/dag/stats.go:110-134 | in a DAG built over N chunks all leaves sit at one depth d, which is the depth reported, with 174^(d-2) < N <= 174^(d-1) for N >= 2 |
| `DagParallel.RunKeepsInv` | core/dag/parallel.go:44-104 | over every interleaving no chunk index is lost or duplicated unless an error is reported, and an error has a cause |
| `DagParallel.FinishedRun` | core/dag/parallel.go:48-137 | when results end, no chunk arrived twice; an error was reported exactly when some chunk is bad; otherwise all arrived |
| `DagParallel.FirstErrorStays` | core/dag/parallel.go:48-137 | over every interleaving the first error reported is the one returned, and it says what is wrong with some chunk |
| `DagParallel.NeverStuck` | core/dag/parallel.go:44-130 | no reachable state is stuck before the consumer has seen the end of the results, also when workers gave up |
| `DagParallel.RunsEnd` | core/dag/parallel.go:44-130 | every run is finite: at most five steps a chunk, and one a worker and channel |
| `DagParallel.Reorder.Offer` | core/dag/parallel.go:112-129 | one arrival releases the longest complete run, in order |
| `DagParallel.Reorder.AllReleased` | core/dag/parallel.go:112-130 | once all have arrived all are released and nothing waits |
| `DagParallel.Absorb` | core/dag/parallel.go:121-128 | storing and pushing the next leaf in order extends the streamed prefix by exactly that chunk |
| `DagParallel.AcceptArrival` | core/dag/parallel.go:112-130 | after each arrival exactly the released prefix of chunks has been pushed |
| `DagParallel.BuildParallel` | core/dag/parallel.go:30-144 | for every run and arrival order: a root is returned exactly when Build would return one, the same root with the same blocks, and an error says what is wrong with some chunk |
| `DagParallel.Conclude` | core/dag/parallel.go:132-144 | the error reported, the empty-input error, or the root over all chunks |
| `MemfsBuild.MemfsStack.PutNode` | core/memfs/builder.go:392-399 | stores the node under the hash of its encoding with the MemFS codec |
| `MemfsBuild.MemfsStack.Collapse` | core/memfs/builder.go:370-401 | the intermediate FILE sums its children's sizes and keeps sizes for raw children only |
| `MemfsBuild.MemfsStack.Push` | core/memfs/builder.go:354-368 | streaming one more reference, with exactly the completed nodes written |
| `MemfsBuild.MemfsStack.PushLeaf` | core/memfs/builder.go:343-352 | totals and inline data follow the leaves pushed so far |
| `MemfsBuild.MemfsStack.StackIsSmall` | core/memfs/builder.go:330-368 | between any two leaves the buffers obey the same memory bound |
| `MemfsBuild.MemfsStack.Topmost` | core/memfs/builder.go:403-410 | true exactly when every higher buffer is empty |
| `MemfsBuild.MemfsStack.Finalize` | core/memfs/builder.go:412-466 | the root sits over the reference top level, and exactly the reference intermediate nodes were written |
| `MemfsBuild.MemfsStack.BuildRoot` | core/memfs/builder.go:468-519 | FileSize, attributes, children and inline data of the root |
| `MemfsBuild.AddChunk` | core/memfs/builder.go:343-352 | stores one raw block and extends the streamed leaves by its reference |
| `MemfsBuild.AddFile` | core/memfs/builder.go:112-323 | for every chunk list, empty included: the reference root and exactly the reference blocks |
| `MemfsParallel.AddFileReordered` | core/memfs/builder.go:290-323 | for every arrival order: any failure fails the call, otherwise leaves are pushed in chunk order and the root is AddFile's |
| `MemfsParallel.Accept` | core/memfs/builder.go:300-312 | one arrival pushes exactly the leaves it completes |
| `MemfsPipeline.RunKeepsInv` | core/memfs/builder.go:208-288 | over every interleaving of reader, batching workers and consumer no chunk is lost or doubled unless a failure is under way, and none is reported as stored that is not |
| `MemfsPipeline.FinishedRun` | core/memfs/builder.go:208-288 | at the end a failure has arrived exactly when a read or batch write failed; otherwise every chunk arrived once and is stored |
| `MemfsPipeline.NeverStuck` | core/memfs/builder.go:208-300 | as long as the consumer listens some goroutine can step, until the end of the results |
| `MemfsPipeline.RunsEnd` | core/memfs/builder.go:208-300 | every run is finite: at most seven steps a chunk, one a worker, and four to close |
| `MemfsPipeline.BatchWrites` | core/memfs/builder.go:211-263 | over every run each batch written holds 32 chunks, but for the last ones, written when the reader is done and no work is left |
| `MemfsPipeline.GoneOnlyWhenDrained` | core/memfs/builder.go:265-298 | over every run the workers are gone only when all results but those in the channel were taken, so a consumer that stops early and waits for them never returns |
| `MemfsPipeline.AddFileConcurrently` | core/memfs/builder.go:112-323 | for every interleaving AddFile fails exactly when a read or batch write failed; otherwise root and stored blocks are those of AddFile on the chunks in order |
| `MemfsFlatten.FlattenFileBlocks` | core/memfs/reader.go:49-83 | the appending recursion returns exactly the functional flattening; a non-FILE or a missing child is an error |
| `MemfsFlatten.FlatLevel` | core/memfs/builder.go:370-401 | one level up: the same raw blocks in the same order, and sizes still add up |
| `MemfsBuild.ParentsSum` | core/memfs/builder.go:370-401 | sizes of the parents of a level add up to the sizes of the level |
| `MemfsFlatten.FlattenInvertsAddFile` | core/memfs/reader.go:49-83 | flattening the tree of any list of non-empty chunks returns exactly their MIDs in order; FileSize is the total |
| `MemfsFlatten.FileRootFields` | core/memfs/builder.go:468-519 | every field of the root: size, mode, time, MIME type, inline data, and for fewer than 174 chunks each block reference |
| `MemfsFlatten.FirstIntermediate` | core/memfs/builder.go:370-401 | 174 chunks go below one intermediate node, every field of it, with size 0 in the root |
| `MemfsFlatten.IntermediateSizes` | core/memfs/builder.go:370-401 | FileSize of every intermediate node is the sum of the raw sizes below it |
| `MemfsReader.Reader.Read` | core/memfs/reader.go:88-113 | the bytes at the cursor, progress unless EOF or an empty buffer, EOF exactly at the end, failure only on a missing block |
| `MemfsReader.Reader.Seek` | core/memfs/reader.go:117-173 | moves to the target clamped to FileSize exactly when the target is not negative and fits int64, else it is refused; bad requests and missing blocks move nothing |
| `MemfsReader.SeekTooFar` | core/memfs/reader.go:121-131 | from any position past the start, the largest relative offset fails instead of clamping |
| `MemfsReader.Reader.BlockAt` | core/memfs/reader.go:138-155 | finds the block that holds the target and its offset, or the first missing block on the way |
| `MemfsReader.Reader.Deliver` | core/memfs/reader.go:103-112 | hands out the next bytes of the current block and keeps the cursor right |
| `MemfsReader.Reader.ReadAll` | core/memfs/reader.go:88-113 | draining from any state with any buffer yields the rest of the flat byte string |
| `MemfsReader.OffsetStep` | core/memfs/reader.go:117-173 | block i is the slice of the flat string between the totals before and after it |
| `MemfsReader.PlacedAdvance` | core/memfs/reader.go:103-111 | consuming n bytes of a block delivers flat bytes and keeps pos = earlier blocks + offset |
| `InputSource.Source.Read` | core/chunk/fastcdc.go:75-86 | whatever a Read delivers, delivered plus remaining bytes are the input |
| `FastCdc.CutFacts` | core/chunk/fastcdc.go:23-30 | blocks are non-empty, at most 512 KiB, at least 64 KiB but the last, and concatenate to the input |
| `FastCdc.CutPrefix` | core/chunk/fastcdc.go:62-130 | the first cut is decided by the first 512 KiB |
| `FastCdc.AppendKeepsBlocks` | core/chunk/fastcdc.go:62-130 | appending to the input changes no block ending more than 512 KiB before the old end |
| `FastCdc.GearTable` | core/chunk/fastcdc.go:14-21 | the table by its recurrence |
| `FastCdc.CutPointIff` | core/chunk/fastcdc.go:88-127 | a block ends exactly at the first offset from 64 KiB on where the sum of table entries, weighted by 2 to the age, vanishes modulo 2^17, or 2^19 from 128 KiB on; else at 512 KiB or with the input |
| `FastCdc.CutEnds` | core/chunk/fastcdc.go:62-130 | every block of an input is of that kind, seen from where it begins |
| `FastCdc.WindowIs17Or19` | core/chunk/fastcdc.go:27-28 | the masks see only the last 17 or 19 bytes |
| `FastCdc.Chunker.Shift` | core/chunk/fastcdc.go:67-73 | the in-place shift loses no buffered byte |
| `FastCdc.Chunker.Fill` | core/chunk/fastcdc.go:75-86 | buffered plus unread bytes are unchanged by a read |
| `FastCdc.Chunker.FindCut` | core/chunk/fastcdc.go:96-127 | the scan ends exactly where the weighted sums say |
| `FastCdc.Chunker.Next` | core/chunk/fastcdc.go:62-130 | emits the first block of what is left, ended where the weighted sums say, however reads are fragmented |
| `FastCdc.ChunkAll` | core/chunk/fastcdc.go:62-142 | for every script of the reader the blocks concatenate to the input bytes and each ends where the weighted sums say |
| `Rabin.LowBitsClosedForm` | core/chunk/rabin.go:133-142 | the low 18 bits are a closed form over the last 81 bytes since the cut |
| `Rabin.CutLocality` | core/chunk/rabin.go:104-111 | the mask test depends only on the bytes aged 0 to 17 and 64 to 80 |
| `Rabin.WindowIsNot64` | core/chunk/rabin.go:30-32 | two inputs with the same last 64 bytes can differ in the mask test |
| `Rabin.SameTailIff` | core/chunk/rabin.go:133-142 | two inputs with the same last 64 bytes have equal low 18 bits exactly when their weighted bytes aged 64 to 80 agree modulo 2^18 |
| `Rabin.CutFacts` | core/chunk/rabin.go:19-32 | blocks concatenate to the input within the size bounds, but for a short last one |
| `Rabin.CutAtIff` | core/chunk/rabin.go:97-113 | a block ends exactly after the first 64 KiB or more of bytes where the sum of the last 18, weighted by 2 to the age, less twice that of the 17 bytes 64 further back, vanishes modulo 2^18; else at 512 KiB or with the input |
| `Rabin.CutEnds` | core/chunk/rabin.go:91-128 | every block of an input is of that kind, seen from where it begins |
| `Rabin.Chunker.RollByte` | core/chunk/rabin.go:133-142 | through the circular buffer, the rolled value stays the fingerprint of everything since the cut |
| `Rabin.Chunker.CutBlock` | core/chunk/rabin.go:146-157 | emits the pending bytes and restarts the window |
| `Rabin.Chunker.Next` | core/chunk/rabin.go:91-128 | emits the first block of what is left, ended where the weighted sums say, however reads are fragmented |
| `Rabin.ChunkAll` | core/chunk/rabin.go:91-157 | for every script of the reader the blocks concatenate to the input bytes and each ends where the weighted sums say |
| `CountingBloom.AddKeepsExact` | core/store/counting_bloom.go:70-89 | each counter stays 255 or the exact number of hits, an item hitting a bucket twice included |
| `CountingBloom.RemoveKeepsExact` | core/store/counting_bloom.go:92-113 | removing a held item keeps the counters exact for the rest |
| `CountingBloom.NoFalseNegatives` | core/store/counting_bloom.go:116-135 | exact counters never deny a held item |
| `CountingBloom.RunIsExact` | core/store/counting_bloom.go:70-135 | over every run whose removes match held items the counters are exact and nothing held is denied |
| `CountingBloom.AddShows` | core/store/counting_bloom.go:70-89 | adding hides nothing and shows the added item, on counters in any state |
| `CountingBloom.RemoveShowsIff` | core/store/counting_bloom.go:92-113 | removing any item, held or not, from counters in any state keeps items shown exactly when it drains none of their buckets |
| `CountingBloom.AlwaysShowsIff` | core/store/counting_bloom.go:70-135 | over every run, stray removals included, nothing held is ever denied exactly when every removal passes that guard |
| `CountingBloom.StrayRemoveHidesLater` | core/store/pebble.go:569-571 | a stray removal can be harmless and make a later matched one hide a held item, whatever the hash |
| `CountingBloom.RemoveOfAbsentItemHidesIff` | core/store/pebble.go:569-571 | for every shape, exactly when removing an absent item hides the one held item |
| `CountingBloom.RemoveOfAbsentItemLosesHeldOne` | core/store/pebble.go:569-571 | removing an absent item can hide a held one, with one bucket and any hash |
| `CountingBloom.CountingBloomFilter.Add` | core/store/counting_bloom.go:70-89 | all counters and the count after a saturating add |
| `CountingBloom.CountingBloomFilter.Remove` | core/store/counting_bloom.go:92-113 | all counters and the count after a remove that leaves stuck counters alone |
| `CountingBloom.CountingBloomFilter.Test` | core/store/counting_bloom.go:116-135 | true exactly when every bucket of the item is non-zero |
| `StoreDisk.MarkerValue` | core/store/pebble.go:249-251 | the eight bytes left in place of a large payload decode to its length |
| `StoreDisk.WriteLeaves` | core/store/pebble.go:232-261 | below 1 MiB a payload is kept under its key; from there on the key holds its length, readable as such, and the file the payload |
| `StoreDisk.ReadBackServes` | core/store/pebble.go:424-480 | for every MID, whatever codec it was written under and whether its file is there: Get reads the payload, or its length marker exactly when a large payload has no file under this MID |
| `StoreDisk.ServedIff` | core/store/pebble.go:171-182 | a payload comes back exactly when it is inline or has a file under this very MID |
| `StoreDisk.SidePut` | core/store/pebble.go:232-261 | a written block, inline or as a file, extends the represented map by exactly that payload |
| `StoreDisk.SideDelete` | core/store/pebble.go:548-576 | a delete removes exactly that key from the represented map |
| `HybridStore.LoadBloom` | core/store/bloom.go:93-150 | snapshot or not, after the rescan of both prefixes the filter counts every key once for each namespace it is in |
| `HybridStore.MemStore.Open` | core/store/pebble.go:137-199 | opening over existing disk state gives a valid store standing for the same maps and files |
| `HybridStore.MemStore.Put` | core/store/pebble.go:207-277 | for any MID: accepts exactly non-zero MIDs with matching content; then the block map holds the payload, a large one its file, the write is stamped, the filter shows it |
| `HybridStore.MemStore.PutDAG` | core/store/pebble.go:363-420 | the same in the DAG namespace |
| `HybridStore.MemStore.PutBatch` | core/store/pebble.go:280-360 | all or nothing on map and stamps; files are written exactly up to the first bad block |
| `HybridStore.MemStore.StageAll` | core/store/pebble.go:292-341 | every block of a batch is checked and staged until one is not acceptable; the database stays as it was |
| `HybridStore.MemStore.Commit` | core/store/pebble.go:342-359 | the staged map becomes the block map and every key of the batch is in the filter |
| `HybridStore.MemStore.Get` | core/store/pebble.go:424-480 | for any MID: what the block map, else the DAG map, serves, wherever its bytes sit, unless the filter denies it; on a sighted store it never does |
| `HybridStore.MemStore.GetDAG` | core/store/pebble.go:483-510 | what the DAG map serves, the filter not asked |
| `HybridStore.MemStore.Has` | core/store/pebble.go:513-530 | membership in either map for any codec, unless the filter denies it; on a sighted store it never does |
| `HybridStore.MemStore.HasDAG` | core/store/pebble.go:533-545 | membership in the DAG map unless the filter denies it |
| `HybridStore.MemStore.Delete` | core/store/pebble.go:548-576 | removes key, file, stamp and object record; a held key keeps the store valid; in general no remaining key is denied exactly when the decrement spares their buckets |
| `HybridStore.MemStore.DeleteDAG` | core/store/pebble.go:579-603 | removes the key from the DAG map only, but file, stamp and object record too; filter as for Delete |
| `HybridStore.MemStore.RemoveFromFilter` | core/store/bloom.go:179-188 | a counted key is uncounted; in general what is shown stays shown exactly when the guard holds |
| `HybridStore.MemStore.AddToFilter` | core/store/bloom.go:167-176 | the key is counted and shown, and nothing else is hidden |
| `HybridStore.MemStore.Close` | core/store/pebble.go:620-642 | hands out an exact snapshot and leaves the maps on disk |
| `HybridStore.StrayDeleteHidesHeld` | core/store/pebble.go:548-576 | a store on which deleting an absent MID makes Has of a held one answer false, whatever the hash |
| `StoreRun.Exec` | core/store/pebble.go:207-642 | each request, restart included, answers and changes maps and files exactly as specified |
| `StoreRun.Run` | core/store/pebble.go:207-642 | over every run of all operations with restarts, deletes being of held keys, answers and final contents are exactly those specified |
| `StoreRun.CarefulRunIsPlain` | core/store/pebble.go:207-642 | with one codec per multihash and no DeleteDAG of the file of a large block, over every run the answers and contents are those of two plain maps |
| `StoreRun.SharedFileIsLost` | core/store/pebble.go:595-597 | without that care: after DeleteDAG a large block of the same MID reads as its length where the plain map has the payload |
| `StoreWalk.UniverseClosed` | core/store/walk.go:60-193 | links of a finite store stay within a finite set, which is why the walk ends |
| `StoreWalk.DfsSound` | core/store/walk.go:71-190 | a subwalk calls only for reachable MIDs, each once and after a parent; if it ends, everything new is expanded; if it fails, something below is missing |
| `StoreWalk.DfsAgrees` | core/store/walk.go:71-190 | stores that agree on the blocks the walk looked at give the same walk |
| `StoreWalk.DfsProgresses` | core/store/walk.go:71-190 | also a failing walk visits the children of every visited block in order, up to and including the first incomplete one |
| `StoreWalk.WalkIsClosure` | core/store/walk.go:60-193 | the walk succeeds exactly when everything reachable is present; then its calls are exactly the reachable MIDs, once each, parents first |
| `StoreWalk.CompleteUnfold` | core/store/walk.go:177-187 | a present block has a complete DAG exactly when all its children have |
| `StoreWalk.Walker.Explore` | core/store/walk.go:71-190 | the recursive closure makes exactly the calls of the functional depth-first walk, in order, over the children that the `SealedDir` rows give each kind of block |
| `StoreWalk.Walk` | core/store/walk.go:56-71 | a zero root is an error, otherwise the functional walk: same calls, same order, same outcome |
| `SealedDir.LargeRawIsLeaf` | core/store/walk.go:92-109 | raw blocks over 16384 bytes are leaves unread, smaller ones are read like any other |
| `SealedDir.DirClass` | core/store/walk.go:147-161 | a directory leads to its entries in order, raw ones as raw blocks, all others as MemFS nodes; an empty one is a leaf |
| `SealedDir.FileClass` | core/store/walk.go:123-146 | a file leads to its blocks in order, those with a size as raw blocks, the others as MemFS nodes; without blocks, or inline, it is a leaf |
| `SealedDir.OtherClass` | core/store/walk.go:121-163 | all other MemFS nodes are leaves |
| `SealedDir.MalformedSkipped` | core/store/walk.go:132-160 | an entry or block with an empty or malformed multihash is passed over |
| `SealedDir.DescriptorClass` | core/store/walk.go:15-35 | a block that decodes to a descriptor, bare or between magic, version and signature, leads to its root, then its blocks |
| `SealedDir.UnparsedSkipped` | core/store/walk.go:113-120 | a MID text that does not parse is passed over |
| `SealedDir.LinksClass` | core/store/walk.go:164-174 | any other block is read as a DAG node, whose links lead on in order; without links it is a leaf |
| `SealedDir.UndecodedIsLeaf` | core/store/walk.go:121-174 | what does not decode is a leaf |
| `Gc.SparedIff` | core/store/gc_tracker.go:65-92 | age spares a well-formed key exactly when its raw-codec stamp is within minAge, or within five minutes when minAge reaches back before 1970; with minAge 0 never |
| `Gc.MarkedIff` | core/store/seal.go:216-237 | marked are exactly: the key of a direct seal, of anything its walk came to, and of every shard listed in the manifest of such a thing |
| `Gc.FreshMemfsBlockIsNotSpared` | core/store/seal.go:270-287 | a block stamped only under another codec is not spared however fresh |
| `Gc.RootMarksAreLive` | core/store/seal.go:227-236 | marks are live; a root with a complete DAG marks everything live from it, whatever the other seals are |
| `Gc.MarksAreLive` | core/store/seal.go:216-237 | with all sealed DAGs complete the marks are exactly the live keys |
| `Gc.MarkRoot` | core/store/seal.go:227-236 | the marks are the root and the calls of its walk with the shards listed for them (`Gc.MarkedIff`), as far as the walk got |
| `Gc.Mark` | core/store/seal.go:216-237 | the marks are those of all direct seals |
| `Gc.Sweep` | core/store/seal.go:255-319 | exactly the kept keys remain with their values; the 64-bit counter grows by what is reported for the rest |
| `Gc.Store.GCWithMinAge` | core/store/seal.go:181-322 | in a store without flat files both namespaces keep what the seals account for, shards included, with its value, and with minAge 0 nothing else; freed is the size of what is gone, to 64 bits |
| `Gc.Store.GCTwice` | core/store/seal.go:181-322 | an immediate second run frees nothing, complete or not |
| `Gc.SameReach` | core/store/seal.go:216-237 | GC neither breaks nor completes a sealed DAG, and a complete one reaches the same MIDs afterwards |
| `Gc.SealedSurvives` | core/store/seal.go:228-237 | a complete sealed root keeps everything live from it, shards of its erasure manifests included, for any minAge and whatever the other seals are |
| `Gc.VisitedSurvives` | core/store/seal.go:228-237 | whatever the walk from a sealed root came to before it ended or failed survives, for any minAge and whatever the other seals are |
| `Gc.OnlyVisitedMarked` | core/store/seal.go:216-237 | with one seal and no manifests nothing else is marked |
| `Gc.CollectedIff` | core/store/seal.go:255-287 | with all sealed DAGs complete exactly the live keys and those spared by age are kept |
| `Gc.KeptIff` | core/store/seal.go:181-322 | exactly the keys so accounted for are kept, and those stamped under the raw codec within minAge, or five minutes when minAge reaches back before 1970 |
| `Gc.AccountedSurvives` | core/store/seal.go:228-237 | what is accounted for keeps its value through every run, for any minAge |
| `Gc.ListedShardSurvives` | core/store/seal.go:155-171 | a stored shard that the manifest of a visited block lists survives |
| `Gc.SizeAdds` | core/store/seal.go:289-294 | an entry counts three bytes of prefix, its key and its value |
| `Gc.SameWalk` | core/store/seal.go:227-236 | a run never changes what the walk does from a sealed root, complete or not |
| `Gc.SameMarks` | core/store/seal.go:181-322 | so the same keys are marked in a second run and nothing more is collected |
| `StoreGc.Collect` | core/store/seal.go:181-322 | GC over the hybrid store: both namespaces keep exactly what the seals account for in what filter and files let the walk see, and what age spares; of the flat files exactly the raw-codec ones of keys gone are removed; valid stays valid; freed is what the sweep counts |
| `StoreGc.ReportedIs` | core/store/seal.go:288-295 | a stored payload is counted by its length, except an inline eight-byte payload with flat files on, which is counted as the number it reads as |
| `StoreGc.EightBytesMiscounted` | core/store/seal.go:289-292 | a block of eight bytes that is counted as 2^56 |
| `StoreGc.CollectAndAccount` | core/store/seal.go:288-295 | freed is the size of the payloads gone plus the errors on the eight-byte ones among them, to 64 bits |
| `StoreGc.ReportIsRightIff` | core/store/seal.go:288-295 | when no payload gone reads as less than 8 and the counter does not wrap, the report is right exactly when every eight-byte payload gone reads as 8 |
| `StoreGc.MisreportsEightBytes` | core/store/seal.go:288-295 | a store of one eight-byte block, collected: the report is the key's length plus the block read as a number |
| `StoreGc.SightedSeesAll` | core/store/walk.go:97-103 | when the filter denies nothing and no file is missing the walk sees all of the plain map |
| `StoreGc.DeniedRootMarksOnlyItself` | core/store/seal.go:227-236 | if the filter denies a sealed root only the root key is marked |
| `Tower.TowerComplete` | core/store/walk.go:71-190 | the root of a tree of full groups is complete for the walk exactly when every entry is |
| `Tower.WalkVisitsTower` | core/store/walk.go:71-190 | if all entries but the last are complete the walk visits the whole tree, even if it fails in the end |
| `Tower.LastEntryVisitedIff` | core/store/walk.go:71-190 | the walk comes to the key of the last entry exactly when all entries before it are complete, if nothing else leads there |
| `SealedDag.BuiltNodeIsInternal` | core/store/walk.go:92-108 | with 32-byte digests no built node is taken for a large leaf: 174 records of 64 bytes are at most 16384 |
| `SealedDag.RootReaches` | core/store/walk.go:164-187 | the walk from a built root reaches every entry and every internal node |
| `SealedDag.BuiltCompleteIff` | core/store/walk.go:92-109 | for the walk a built DAG is complete exactly when every chunk is a leaf to it or has the closure of its links present |
| `SealedDag.SealedDagSurvives` | core/store/seal.go:181-322 | GC keeps every block of a sealed DAG whose chunks but the last are settled, for any minAge and whatever the other seals are |
| `SealedDag.SealedDagSurvivesIff` | core/store/seal.go:181-322 | with no other seal, minAge 0 and nothing else leading to its last chunk, a DAG survives exactly when all chunks but the last are settled; else it loses the last |
| `SealedDag.LargeChunksSurvive` | core/store/walk.go:92-109 | chunks over 16384 bytes need no condition: if all but the last are, the sealed DAG never loses a block |
| `SealedDag.ContentDefinedSurvives` | core/store/walk.go:92-109 | a sealed DAG of either content-defined chunker never loses a block to GC |
| `SealedDag.ChunkSealCollectResolve` | core/dag/resolve.go:62-130 | chunk, build, seal, collect, resolve: the input bytes come back after any run of the collector |
| `SealedDag.SealedDagStillResolves` | core/store/seal.go:181-322 | after that run the resolver reads the DAG back completely |
| `SealedDag.CollectThenResolve` | core/dag/resolve.go:62-130 | running the collector, then the resolver, writes exactly the chunks of a sealed DAG whose chunks but the last are settled |
| `SealedDag.LenientChunkIsInternal` | core/store/walk.go:164-174 | a link followed by a Data field is an internal node to the walk and none to the resolver |
| `SealedDag.LenientChunkResolves` | core/dag/resolve.go:149-185 | a DAG with such a chunk, its link leading nowhere, resolves |
| `SealedDag.LenientChunkLosesTheRest` | core/store/seal.go:228-236 | sealed and collected with minAge 0 it keeps its root and that chunk and loses all others |
| `SealedDag.ChunkBuildResolve` | core/dag/dag.go:102-139 | either content-defined chunker, Build, then Resolve give back the input bytes |
| `SealedFile.RootChildren` | core/store/walk.go:123-146 | the walk's children of a FILE root: its entries, or none when it is inline |
| `SealedFile.FileReaches` | core/store/walk.go:123-146 | from a FILE root that is not inline the walk reaches every block AddFile wrote |
| `SealedFile.RawBlockReachedIff` | core/store/walk.go:128-130 | a raw block of a file is reached exactly when the file is not inline |
| `SealedFile.FileCompleteIff` | core/store/walk.go:123-146 | for the walk a FILE is complete exactly when it is inline or every chunk is settled |
| `SealedFile.SealedFileSurvives` | core/store/seal.go:181-322 | GC keeps every block of a sealed file that is not inline and whose chunks but the last are settled |
| `SealedFile.SealedFileSurvivesIff` | core/store/seal.go:181-322 | with no other seal, minAge 0 and nothing else leading to its last chunk, a file survives exactly when it is not inline and all chunks but the last are settled |
| `SealedFile.LargeFileSurvives` | core/store/walk.go:92-109 | a file that is not inline and whose chunks but the last are over 16384 bytes never loses a block |
| `SealedFile.OneBlockFileKeptIff` | core/store/walk.go:123-146 | a sealed one-block file keeps its block exactly when it is not inline |
| `SealedFile.InlineFileLosesItsBlock` | core/memfs/reader.go:95-98 | a sealed inline file loses the one block its reader needs |
| `SealedFile.ReadFile` | core/memfs/reader.go:34-113 | opening and draining a file AddFile built returns the file |
| `SealedFile.CollectThenRead` | core/memfs/reader.go:34-113 | running the collector, then opening and draining a sealed file that survives returns the file |
| `SealedDir.SealedParentSurvives` | core/store/seal.go:181-322 | any sealed block whose children but the last are complete keeps itself, its children and everything below the complete ones |
| `SealedDir.DirChildren` | core/store/walk.go:147-161 | the walk's children of a stored directory are its entries |
| `SealedDir.SealedDirSurvives` | core/store/seal.go:181-322 | a sealed directory whose entries but the last are complete keeps itself, every stored entry and everything below the complete ones |
| `SealedDir.FileInDirSurvives` | core/store/seal.go:181-322 | every block of a file in such a directory survives, if it is not inline and its chunks are settled |
| `Shard.SortRanks` | core/shard/hashring.go:167-172 | the higher score comes first, and between equal scores the smaller ID; none is lost |
| `Shard.LessIff` | core/shard/hashring.go:171 | IDs compare by the first byte in which they differ, a prefix before its extensions |
| `Shard.RankedUnique` | core/shard/hashring.go:167-172 | a set of scored peers has one ranking |
| `Shard.Select` | core/shard/hashring.go:178-203 | the two passes take a prefix of the domain-aware preference order |
| `Shard.HashRing.AddPeerWithDomain` | core/shard/hashring.go:58-75 | a new peer is appended, a known one only changes its domain, an empty ID changes nothing |
| `Shard.HashRing.RemovePeer` | core/shard/hashring.go:78-88 | exactly that peer leaves list and map, the others keep their order |
| `Shard.HashRing.Assign` | core/shard/hashring.go:129-206 | error cases and result are those of the reference assignment, which the `ShardOrder` rows pin to the scores |
| `Shard.HashRing.IsOwner` | core/shard/hashring.go:108-122 | true exactly for assigned peers |
| `Shard.AssignOrderIndependent` | core/shard/hashring.go:4-9 | the assignment does not depend on the order in which peers were added |
| `ShardOrder.BestPeerFirst` | core/shard/hashring.go:124-125 | the first assigned peer has the highest score of all, and among equals the smallest ID |
| `ShardOrder.AssignedOutranks` | core/shard/hashring.go:178-203 | an assigned peer outranks every unassigned one of its own domain, of no domain, or of a domain that gets nothing |
| `ShardOrder.AssignmentOrder` | core/shard/hashring.go:124-203 | assigned peers come in falling order of score, ties by ID, except that one repeating a domain may follow a worse one |
| `ShardOrder.UndomainedOrder` | core/shard/hashring.go:124-125 | without named domains the assigned peers are the best, in falling order |
| `ShardStability.AssignIsSelection` | core/shard/hashring.go:129-206 | an answer exactly for a non-zero MID, 1 to 64 replicas and a ring with peers: min(replicas, n) distinct peers of the ring |
| `ShardStability.DomainRepeatsLast` | core/shard/hashring.go:127-128 | in the preference order a named domain repeats only when every named domain and every undomained peer is in |
| `ShardStability.AssignmentRepeatsLast` | core/shard/hashring.go:124-206 | two assigned peers of a ring share a named domain only if every named domain of the ring hosts an assigned peer and every undomained peer is assigned |
| `ShardStability.DropFits` | core/shard/hashring.go:178-203 | how both passes change when one peer leaves the ranking: at most one deferred peer is promoted |
| `ShardStability.PreferenceStable` | core/shard/hashring.go:178-203 | before the leaving peer's place the preference order is unchanged, and nobody falls back |
| `ShardStability.MinimumDisruption` | core/shard/hashring.go:78-88 | removing a peer keeps every other assigned peer, brings in at most one, and changes nothing if it was not assigned |
| `ShardStability.JoinDisruption` | core/shard/hashring.go:4-9 | a joining peer brings in nobody else, displaces at most one, and changes nothing if it is not assigned |
| `ShardStability.ComputeMigration` | core/shard/hashring.go:209-224 | reports exactly the MIDs whose ownership changes, in order |
| `ShardStability.RemovalMigration` | core/shard/hashring.go:209-224 | after another peer leaves a peer loses nothing and gains only MIDs that peer owned |
| `Quota.QuotaManager.SetMaxBytes` | anchor/quota.go:56-60 | changes the limit only |
| `Quota.QuotaManager.Touch` | anchor/quota.go:63-93 | the MID moves to the front, pins are never taken back, a zero size keeps the known one |
| `Quota.QuotaManager.Pin` | anchor/quota.go:96-98 | pins that item, changes no other, and keeps all pins |
| `Quota.QuotaManager.EnforceQuota` | anchor/quota.go:115-175 | victims are the least recently touched deletable unpinned items; by a ledger of sizes written out, each eviction was needed, and the pass ends when the limit is met, a Size call fails or no candidate is left; exactly the victims leave; no pin is lost |
| `Quota.PlainPass` | anchor/quota.go:137-154 | if the first answer exceeds what the victims free: before each eviction what was freed was not enough, and in the end it is, or nothing else could be evicted |
| `Quota.PassHasLedger` | anchor/quota.go:150-162 | an eviction takes its size off the estimate unless it reaches it; then the next Size answer replaces the estimate or its failure ends the pass |
| `Quota.RunAll` | anchor/quota.go:63-175 | over every run nothing pinned before or during it is evicted or downgraded |
| `Quota.PassedStep` | anchor/quota.go:137-166 | one turn of the eviction loop keeps victims a needed prefix of the candidates |
| `Quota.CandidatesEligible` | anchor/quota.go:143-149 | the candidates are exactly the unpinned items whose delete succeeds |
| `Witness.AssumptionsAreConsistent` | core/mid/mid.go:192-302 | the assumptions on digests, envelopes, text form, node codec and decoders hold together, with no collision among payloads of up to 16 bytes |
| `Witness.LossIsReal` | core/store/seal.go:228-236 | a sealed DAG of two chunks, every block stored: it resolves, and one run with minAge 0 deletes its second chunk |
| `Witness.RoundTripIsNotVacuous` | core/dag/dag.go:102-139 | a one-byte input meets every hypothesis of the build-resolve round trip |

## Left out

- verifyBlock and verifyContent: the model compares whole multihashes under one hash function; the source compares digest bytes, always re-hashing with the default algorithm.
- Malformed multihashes inside FILE nodes: the walk skips them as the source does; the flattener keeps them as absent MIDs where the source puts a zero MID, and both then fail to read.
- Widths: FileSize and block sizes are uint64 and files that do not fit are excluded; reader offsets are int64 and GC byte counts uint64; filter counts and quota sizes are unbounded; codecs have 63 bits, fingerprints 64.
- DagResolve.Walk: the retry with back-off for blocks that arrive late and the visit hook are not modelled, and recursion carries a depth bound, so a cyclic answer from a rogue store ends in an error here and in a stack overflow there.
- DagStat.Stat: the same depth bound.
- MemfsFlatten.FlattenFileBlocks: the same depth bound; the theorems hold at every bound from the height of the tree on.
- MemfsBuild.AddFile: chunks are given; read and write failures are in `MemfsPipeline.AddFileConcurrently`. Object records are not modelled, and of the erasure workers only that AddFile waits for them.
- MemfsParallel.AddFileReordered: its hypotheses on arrivals are what `MemfsPipeline.FinishedRun` proves of every run.
- MemfsReader.Reader.constructor: files of 2^63 bytes or more, whose size turns negative when converted, are not opened.
- SealedFile.ReadFile: the same limit.
- HybridStore.MemStore.Put: the tracker's record of a write is left out, since no write overlaps a GC run.
- StoreGc.Collect: each key is asked for under one codec, and to the model's walk a denied block is missing; the source's size probe bypasses the filter, so a denied raw leaf over 16384 bytes is still visited there.
- Gc.Store.GCWithMinAge: no write overlaps the run, so the tracker's active buffer is empty; cancellation and errors of the temporary database are not modelled.
- Quota.QuotaManager.EnforceQuota: a backend whose deletes come to fail or succeed depending on earlier ones of the same pass is not modelled.
- StoreRun.Run: deletes are of held keys and hooks are off; the operations themselves are specified for all keys.
- Seal, Unseal and DeleteRecursive: nested child-record bookkeeping; only direct and child records as GC reads them are modelled.
- Snapshot byte format, Bloom sizing and the FNV, HRW and content hashes: parameters.
- GetSize: the walk's size probe is modelled as the payload length; the decoding of a length marker for inline 8-byte payloads is not.
- MemFSNode and DescriptorPayload encodings: parameters with a round trip; only the DAGNode wire form is modelled in full.
- Fixed-size chunker, DIR and SYMLINK building: easy beside the FILE case.
- Reed-Solomon coding, signatures, hooks and plugins, DropAll, Pebble internals, locking, networking, HTTP, CLI and UI code.
