# Verified model of the orchestrator's image pipeline and its small protocols

This project models the hard core of the orchestrator in Dafny 4.11 and proves
what it is for. Two groups of code are covered.

**The EROFS compressed-image writer and its reader (`internal/erofs`).** The writer
cuts file data into spans, encodes them with a hand-written LZ4 encoder (a lazy form
and an optimal parse), stores them right-aligned in blocks with dedupe, describes
them with full or bit-packed indexes, packs small files into one hidden inode, plans
inodes and directories, and lays the image out metadata-first or data-first. The
reader undoes each step. The main results:

- Each encoder writes exactly the block of one plan, a function of the source; the plan
  decodes to the source and obeys the end-of-block conditions
  (`Lz4Plan.GreedyPlanOk`, `Lz4Plan.OptPlanOk`); giving up, and the answer
  `withinLimit`, are exactly a matter of the plan's size
  (`Lz4Encoder.Encoder.CompressBlock`, `Lz4Encoder.Encoder.CompressBlockOptLimit`); the
  prices of the dynamic program are exact byte counts (`Lz4Plan.BatchPath`,
  `Lz4Plan.TakenPathOk`), and no path of the matches its finder offered, with literal
  runs below 30, is cheaper than the one taken (`Lz4Cheapest.BatchCheapest`). What an
  encoder's chains held before does not matter (`Lz4Stable.GreedyPlanStable`, `Lz4Stable.OptPlanStable`).
- A span is stored raw if and only if compressing it saves no block, and no span the
  search tried that saves one is larger than the one it packs
  (`SpanPacker.Worker.PackSpan`, `SpanPacker.Worker.ChosenMeans`); this holds of every
  span of every file and stream (`ZFile.CompressStream`, `StreamPacker.PackJob`).
- A file that is packed, stored, indexed, placed, opened and read back, block by block,
  in any order and beside any other readers of the one remembered extent, is unchanged,
  in both index layouts (`ReadBack.CompressThenRead`, `ZRead.Inode.ReadBlock`,
  `CompactWriter.CompactRoundTrip`); so are small files that share the packed inode
  (`FragmentReads.PackThenRead`). Each fails or refuses exactly for the reasons its
  contract names, in terms of the inputs.
- A whole image, built from its nodes and asked by inode number or by name, gives every
  reader its node's bytes and its node's own attributes (`ImageBuilder.BuildImage`,
  `ImageReads.BuildThenRead`).
- Whatever order workers finish in and whatever each job comes out as, extents and spool
  are those of storing the same results in stream order, and the stream reads back
  (`StreamPacker.StreamPacker.Finish`, `StreamPacker.CompressParallel`,
  `FilePool.Pool.CompressAll`).
- Directories are found again exactly (`Dirents.Lookup`, `Dirents.AnswerIsExact`), inode
  regions are disjoint and inside their blocks (`Layout.PlanLayout`), and every address
  is honest (`ImageWriter.WriteImage`).

**Protocols.** The warm-unit claim protocol, a sidecar's one-shot claim racing its
shutdown, and the callback dispatcher with its circuit breakers are state machines
whose invariants hold at every state of every interleaving (`Claim.RunKeeps`,
`Sidecar.RunKeeps`, `Dispatcher.RunKeeps`). A claim that reports exhaustion has tried
everything it could (`Claim.ExhaustedTriedAll`); an event is dropped only at its
eleventh refusal or for want of room (`Dispatcher.FateExactly`); a host's breaker is
closed exactly as the run's deliveries to it say (`Dispatcher.ClosedBelowThreshold`).
The artifact scheduler is a pair of methods over sequences and sets (`Artifacts.Partition`, `Artifacts.RunInOrder`).

## How it is built

Code that updates buffers and fields is modelled by methods and classes with the same
fields; each is tied to a specification function or predicate, and the laws are lemmas
about those. Concurrency appears in two forms: as explicit steps of a state machine,
or as a call that lets others act at any point: any unfinished job of a worker pool
finishes, any other reader replaces the remembered extent.
Bytes are integers below 256, addresses and sizes are unbounded integers except where
a field's width matters (16-bit end markers and name offsets, 12-bit compacted fields,
11-bit block counts, 32-bit addresses, 63-bit fragment offsets, the fields of an inode
core), which is written out. The modules come in the order of the pipeline: `Lz4Format`, `Lz4Emit`,
`Lz4Finder`, `Lz4Pricing`, `Lz4Plan`, `Lz4Cheapest`, `Lz4LongRun`, `Lz4Stable`,
`Lz4Encoder`, `SpanPacker`, `Spool`,
`FileMap`, `ZFile`, `ZIndex`, `Bits`, `CompactIndex`, `CompactWriter`, `ZRead`,
`ZTrailing`, `ZLoad`, `BlockSize`, `ReadBack`, `StreamPacker`, `FilePool`, `Fragments`,
`FragmentReads`, `FlatRead`, `Dirents`, `Layout`, `InodeCore`, `ImageWriter`,
`ImageBuilder`, `ImageReads`; then
`Claim`, `Sidecar`, `CircuitBreaker`, `Delivery`, `Dispatcher`, `Artifacts`. `Bytes` and
`Arith` are helpers.

## Where the code and its own words differ

The model follows the code.

- The optimal parse is said to backtrack the cheapest encoding of a batch. Among the
  paths of matches its finder offered it does, against every path whose literal runs are
  all shorter than 30 (`Lz4Cheapest.BatchCheapest`): an entry knows only its last run, so
  a dearer end may win over a run that would have gone on, one byte for every 15 literals
  beyond that. At 30 a cheaper path can be missed (`Lz4LongRun.LongRunLoses`).
- The circuit breaker's comment says that half-open allows one request; the code lets
  every request through until a result is recorded (`CircuitBreaker.TwoTrials`). A
  single trial goes through if and only if at most one request is asked from the end of
  the cooldown on (`CircuitBreaker.TrialsAdmitted`).
- The option check admits 1 MiB physical clusters with 512-byte blocks, 2048 blocks,
  which collides with the flag bit of the count's field. A count survives if and only
  if it is below 2048 (`ZIndex.CountSurvives`), and an extent of 2048 blocks cannot be
  read (`ZRead.BigExtentLost`), so cluster profiles are taken to stay below that.
- The writer accepts blocks of up to 1 MiB (`BlockSize.WrittenNotRead`). The reader
  opens such an image if and only if its blocks are at most 64 KiB
  (`BlockSize.OpensUpTo64K`).
- The reader takes the end of a directory block modulo 65536. Every name of a directory
  is answered for if and only if none of its blocks is 64 KiB long (`Dirents.Lookup`,
  `Dirents.SomeNameLost`).
- A compact inode is said to be one whose time is the build time. Its time is compared
  with the build time's seconds and with zero nanoseconds, but read as the build time
  with its nanoseconds: it is kept if and only if the build time has no fraction of a
  second (`InodeCore.TimesKept`).
- The reader asks for 64 bytes of an inode even where 32 are left. Of a built image it
  cannot read exactly a compact inode in the last 32 bytes (`ImageReads.LastSlotLost`).
- Unreleased mounts are said to be released at shutdown. A mount is left behind if and
  only if a claim's rollback failed, or a release failed and none succeeded
  (`Sidecar.LeftMounted`); both happen (`Sidecar.RollbackLeaks`,
  `Sidecar.ReleaseLeaks`), and after a failed rollback nothing is tried any more
  (`Sidecar.LeakStays`).
- An accepted event may stay queued for ever when its call races the shutdown
  (`Dispatcher.Stranded`). When no worker is left, events are stranded if and only if
  some arrived after the last worker had gone (`Dispatcher.StrandedExactly`); a shutdown
  with no call in flight and nothing queued, waiting or newly taken strands nothing
  (`Dispatcher.QuietClose`).

## Model

| member | source | states |
|---|---|---|
| Lz4Format.ParseRoundTrip | internal/erofs/lz4enc.go:244-309 | the LZ4 block format: parsing the encoding of any well-formed block gives the block back, and nothing is left over |
| Lz4Format.FirstByteNonZero | internal/erofs/zread.go:421-428 | no block with non-empty output starts with a zero byte, so a reader may skip the zeros a region is padded with |
| Lz4Format.EncodeSequenceSize | internal/erofs/lz4enc.go:267-309 | the exact length of an encoded sequence, extension bytes included |
| Lz4Format.EncodeTailSize | internal/erofs/lz4enc.go:244-262 | the exact length of the closing literals-only sequence |
| Lz4Format.ReadLengthRoundTrip | internal/erofs/lz4enc.go:301-309 | an extended length reads back whatever follows it |
| Lz4Emit.PutLenExt | internal/erofs/lz4enc.go:301-309 | writes exactly the extension bytes of a length, into exactly the room they need |
| Lz4Emit.EmitTail | internal/erofs/lz4enc.go:244-262 | returns 0 if and only if the closing literals do not fit, and otherwise appends exactly their encoding |
| Lz4Emit.EmitSequence | internal/erofs/lz4enc.go:267-297 | appends exactly the encoding of a sequence, or leaves the buffer alone when it is within two bytes of being too small |
| Lz4Emit.CommitMatch | internal/erofs/lz4enc.go:226-238 | committing a verified match extends what the parse replays to, up to the end of the match |
| Lz4Emit.TailCompletes | internal/erofs/lz4enc.go:244-262 | a committed parse followed by its literals decodes to the whole source and obeys the end-of-block conditions |
| Lz4Emit.Commit | internal/erofs/lz4enc.go:267-297 | appends exactly the encoding of the match's sequence; a refusal leaves less room than that sequence and two bytes more |
| Lz4Emit.CommitWithin | internal/erofs/lz4enc.go:549-555 | the same under a byte limit: refused exactly for the room or for the bytes committed so far |
| Lz4Emit.RefusedBy | internal/erofs/lz4enc.go:267-297 | the conservative room check is still exact for the whole plan: a front of it that was refused condemns it, because the closing literals need at least six bytes |
| Lz4Emit.RefusedWithin | internal/erofs/lz4enc.go:398-402 | a plan whose complete encoding meets buffer and limit is never refused |
| Lz4Emit.PlanBound | internal/erofs/lz4enc.go:167-170 | no parse of a source needs more than the standard worst-case size, so a buffer of that size is never refused |
| Lz4Pricing.PriceIsSize | internal/erofs/lz4enc.go:334-349 | the price of a sequence is the number of bytes its encoding takes |
| Lz4Pricing.PricedStable | internal/erofs/lz4enc.go:512-524 | settled positions never change: updates beyond them keep every settled entry valid |
| Lz4Pricing.LiteralSettles | internal/erofs/lz4enc.go:463-476 | settling a position by one more literal keeps the table priced exactly and keeps the cheaper of that literal and the match that stood there |
| Lz4Pricing.MatchEntryPending | internal/erofs/lz4enc.go:497-524 | a priced match is a valid entry at its end |
| Lz4Pricing.SeededPriced | internal/erofs/lz4enc.go:446-461 | the lengths of the first match make a correctly priced table |
| Lz4Pricing.OfferedPriced | internal/erofs/lz4enc.go:512-524 | offering one match end keeps the table priced and the settled part as it was, and an open position keeps the cheaper entry |
| Lz4Pricing.RoundPriced | internal/erofs/lz4enc.go:462-526 | every round of the dynamic program settles its position, and a round that ends the batch leaves nothing pending |
| Lz4Pricing.BatchPriced | internal/erofs/lz4enc.go:462-526 | after the forward pass every position of the batch is settled with its exact price |
| Lz4Pricing.PathExact | internal/erofs/lz4enc.go:528-544 | the backtracked sequences tile the batch up to the chosen end, are genuine matches, and cost exactly that end's price |
| Lz4Finder.TriedAround | internal/erofs/lz4enc.go:122-160 | extending a candidate both ways gives a genuine match around the position, whatever the chains hold |
| Lz4Finder.RunUnique | internal/erofs/lz4enc.go:57-70 | the length of a common run is determined by the bytes |
| Lz4Plan.ResolvedOk | internal/erofs/lz4enc.go:195-224 | the overlap loop ends, commits only genuine truncated matches and leaves a genuine one |
| Lz4Plan.GreedyPlanOk | internal/erofs/lz4enc.go:170-241 | for every source and whatever the chains held, the greedy plan is a parse of the source: its block decodes to it and obeys the end-of-block conditions |
| Lz4Plan.TakenPathOk | internal/erofs/lz4enc.go:545-557 | a backtracked path extends the plan by genuine matches and by exactly its cost in bytes |
| Lz4Plan.BatchPath | internal/erofs/lz4enc.go:446-544 | the sequences a batch chooses are genuine, end where its last sequence ends, and cost exactly what the table says |
| Lz4Plan.OptPlanOk | internal/erofs/lz4enc.go:403-567 | for every source and whatever the chains held, the optimal plan is a parse of the source |
| Lz4Cheapest.TableFinished | internal/erofs/lz4enc.go:462-526 | whatever matches are offered in whatever order, in the finished table no offered match and no literal leads from one position to another at less than the latter's price |
| Lz4Cheapest.PathBound | internal/erofs/lz4enc.go:462-526 | the end of any path of offered matches is priced at no more than the path costs plus what its long literal runs may lose |
| Lz4Cheapest.ShortRunsLoseNothing | internal/erofs/lz4enc.go:334-349 | a path whose literal runs are all shorter than 30 loses nothing |
| Lz4Cheapest.BatchFinished | internal/erofs/lz4enc.go:446-526 | the table of every batch of every source is such a finished table over the matches its finder offered |
| Lz4Cheapest.BatchCheapest | internal/erofs/lz4enc.go:389-544 | the backtracked encoding of a batch, followed by literals, costs no more than any other path of offered matches to the same end plus that path's loss, and less when literals follow; no loss for runs below 30 |
| Lz4Cheapest.BatchBytes | internal/erofs/lz4enc.go:528-557 | in bytes written: no more than the sequences of any other offered path to the batch's end, plus its loss and one byte when literals were pending |
| Lz4LongRun.LongRunLoses | internal/erofs/lz4enc.go:462-526 | a sequence of offers with a path that has one run of 30 literals and costs 41, whose end the table settles, and takes, at 42 |
| Lz4Stable.GreedyPlanStable | internal/erofs/compress.go:392-397 | the greedy plan does not depend on what the encoder encoded before, for every source: reused encoders keep the output deterministic |
| Lz4Stable.OptPlanStable | internal/erofs/lz4enc.go:82-94 | nor does the optimal plan of any source of up to 64 KiB |
| Lz4Stable.WrapLeads | internal/erofs/lz4enc.go:82-94 | a position indexed after a newer one of its chain gets a link that leads 64 KiB below that newer one, indexed or not |
| Lz4Stable.StaleReached | internal/erofs/lz4enc.go:354-387 | beyond 64 KiB the finder can reach an old delta: with the same source and the same positions indexed, one stale delta decides whether it finds a match of 4 or of 20 bytes |
| Lz4Encoder.MatchLenAt | internal/erofs/lz4enc.go:57-80 | the length of the common run at two positions, eight bytes at a time |
| Lz4Encoder.Encoder.Reset | internal/erofs/lz4enc.go:174-179 | no entry points, and the old deltas where there is room for the source |
| Lz4Encoder.Encoder.Insert | internal/erofs/lz4enc.go:82-94 | head and chain afterwards, exactly: the delta to the newest position, wrapped when that one is ahead |
| Lz4Encoder.Encoder.Candidate | internal/erofs/lz4enc.go:103-115 | the first position before the current one on its chain |
| Lz4Encoder.Encoder.TryCandidate | internal/erofs/lz4enc.go:126-154 | the quick rejects change nothing: the result is the candidate extended both ways when that is wider |
| Lz4Encoder.Encoder.WiderMatch | internal/erofs/lz4enc.go:103-165 | the walk of at most 64 candidates computes the widest match, which is genuine, covers the position and starts no earlier than allowed |
| Lz4Encoder.Encoder.ForwardMatch | internal/erofs/lz4enc.go:353-387 | computes the longest match starting exactly at the position |
| Lz4Encoder.Encoder.ResolveOverlap | internal/erofs/lz4enc.go:195-224 | follows the plan's overlap resolution, or shows that the plan does not fit the buffer |
| Lz4Encoder.Encoder.GreedyRound | internal/erofs/lz4enc.go:186-239 | one round does what the plan does and moves on, or shows that the plan does not fit |
| Lz4Encoder.Encoder.CompressBlock | internal/erofs/lz4enc.go:170-241 | terminates for every input; writes exactly the greedy plan's block, and returns 0 if and only if that block is longer than the buffer; a non-zero result decodes to the source |
| Lz4Encoder.Encoder.SeedBatch | internal/erofs/lz4enc.go:446-461 | writes exactly the seeded table |
| Lz4Encoder.Encoder.Relax | internal/erofs/lz4enc.go:512-524 | one match end offered to the table, with the gap left open |
| Lz4Encoder.Encoder.PriceMatch | internal/erofs/lz4enc.go:497-525 | all lengths of a match offered, at prices that grow at the right lengths, never outside the table |
| Lz4Encoder.Encoder.RunBatch | internal/erofs/lz4enc.go:446-526 | the forward pass leaves exactly the batch's table and chains, independent of what the scratch held |
| Lz4Encoder.Encoder.Backtrack | internal/erofs/lz4enc.go:528-544 | following the entries back yields exactly the recorded path, last step first |
| Lz4Encoder.Encoder.EmitBatch | internal/erofs/lz4enc.go:545-557 | emits the path in order as the plan does, or shows that the plan is refused |
| Lz4Encoder.Encoder.CompressBatch | internal/erofs/lz4enc.go:446-557 | prices and emits one batch as planned; with no literals pending it writes exactly the price of its end |
| Lz4Encoder.Encoder.OptRound | internal/erofs/lz4enc.go:424-564 | one round does what the plan does and moves on by at least one byte, or shows that the plan is refused |
| Lz4Encoder.Encoder.OptAdvance | internal/erofs/lz4enc.go:571-578 | moves on by what was consumed and indexes exactly the positions skipped, bounded by the window |
| Lz4Encoder.Encoder.CompressBlockOptLimit | internal/erofs/lz4enc.go:403-567 | writes exactly the optimal plan's block, whose batches are the cheapest as Lz4Cheapest.BatchCheapest says; n is 0 if and only if that block exceeds the buffer or its sequences alone exceed the limit; withinLimit holds if and only if the whole block meets both; a non-zero result decodes to the source |
| Lz4Encoder.Encoder.CompressBlockOpt | internal/erofs/lz4enc.go:393-396 | without a limit, the same plan's block; 0 if and only if it exceeds the buffer |
| SpanPacker.Clamp | internal/erofs/compress.go:850-864 | a candidate span is non-empty, within the window and aligned unless it ends a final stream |
| SpanPacker.Steer | internal/erofs/compress.go:872-919 | the next candidate of the guided search is again a legal cut, larger than the best so far |
| SpanPacker.Worker.Compress | internal/erofs/compress.go:302-320 | in scratch sized for any extent the high-compression encoder always yields an encoding, and always the same for the same input whatever it encoded before; an error is exactly the vendored compressor failing on this input |
| SpanPacker.Worker.constructor | internal/erofs/compress.go:310-319 | a worker's scratch holds the encoding of any extent of its profile |
| SpanPacker.Worker.Probe | internal/erofs/compress.go:872-885 | a fitting probe is moved to the kept buffer by swapping, any other leaves the kept buffer alone; an error is exactly the compressor failing on this candidate |
| SpanPacker.Worker.LargestIs | internal/erofs/compress.go:875-916 | the search's best is the largest of the tried spans that save a block |
| SpanPacker.Worker.Search | internal/erofs/compress.go:872-916 | tries spans until the cluster is nearly full, the window is exhausted, five were tried or nothing is left between the best and the overflowing one; the best is the largest tried that saves a block and its encoding is in the kept buffer |
| SpanPacker.Worker.PackSpan | internal/erofs/compress.go:843-935 | the span packed is the largest tried that saves a block; if none does, a single cluster's input, raw if and only if compressing that saves no block; a compressed one stays in budget and its encoding is in the kept buffer despite the swaps; the new ratio estimate is stated |
| SpanPacker.Worker.ChosenMeans | internal/erofs/compress.go:917-935 | a span is stored raw if and only if compressing it saves no block, and then no span that was tried saves one; no tried span that saves a block is larger than the one chosen |
| SpanPacker.Worker.RefineSpan | internal/erofs/compress.go:940-965 | the stronger encoder's block is taken if and only if the span compressed to three quarters or less, the block fits the scratch and it takes fewer blocks; otherwise the probe's encoding, untouched |
| SpanPacker.Worker.PackNext | internal/erofs/compress.go:713-736 | the span is chosen as PackSpan says, and the bytes packed for it encode exactly it and are no longer than its first encoding |
| SpanPacker.Worker.PackSegment | internal/erofs/packedstream.go:187-212 | terminates and partitions a segment into storable non-empty spans, block-aligned except the last of a final stream, each chosen by the search on what the spans before it leave; an error comes from the vendored compressor failing on a stretch of this segment |
| Spool.SkipPadding | internal/erofs/zread.go:421-425 | skipping leading zeros recovers right-aligned data that does not start with zero |
| Spool.FewerBlocks | internal/erofs/compress.go:866-870 | an encoding that fits occupies fewer physical blocks than the span has logical ones, and its count leaves the flag bit free |
| Spool.StoreReadsBack | internal/erofs/compress.go:979-1036 | what is appended for a span reads back to it |
| Spool.ReadsBackStable | internal/erofs/compress.go:1038-1050 | appending to the spool changes no earlier reading |
| Spool.PutAllAppend | internal/erofs/compress.go:979-1036 | storing a list of spans in two goes is storing it in one |
| Spool.Remembered | internal/erofs/compress.go:1031-1035 | every span stored before is in the dedupe map, with the extent it got |
| Spool.StoredOnce | internal/erofs/compress.go:988-996 | storing bytes that were stored before, however they were encoded, returns the extent they got and leaves the spool as it was; without dedupe every span is appended |
| Spool.Store.constructor | internal/erofs/compress.go:208-286 | an empty store is consistent |
| Spool.Store.StoreSpan | internal/erofs/compress.go:979-1036 | over every run of stores each extent handed out, dedupe hits included, reads back to its span; physical bytes are encoded plus raw plus padding; references are stored plus deduped; each counter is exact over the spans appended; the new state is that of the storing function |
| Spool.Store.AppendSpan | internal/erofs/compress.go:997-1035 | a new span is appended in whole blocks, counted once, and nothing handed out before stops reading back |
| Spool.Store.CountStored | internal/erofs/compress.go:1000-1030 | each counter is the sum over the spans appended of what it counts, encoded and raw bytes, compressed, raw and segment-end extents; the slack grows by the padding of a segment's last span |
| FileMap.ContentSize | internal/erofs/compress.go:1109-1112 | logical clusters and file size determine each other |
| FileMap.BlockInExtent | internal/erofs/zread.go:337-342 | a logical block lies inside its extent at the offset the reader computes |
| FileMap.ClusterCount | internal/erofs/zread.go:96-97 | a file has as many index entries as blocks |
| ZIndex.CountSurvives | internal/erofs/compress.go:1128-1131 | a block count survives the flag bit it shares its field with if and only if it is below 2048 |
| ZIndex.IndexEntries | internal/erofs/compress.go:1109-1139 | lists one correct entry for every logical cluster of the file, in order |
| ZIndex.AllStorable | internal/erofs/compress.go:1172-1201 | every entry fits its on-disk fields |
| ZIndex.EntryRoundTrip | internal/erofs/zread.go:103-117 | an on-disk entry reads back |
| ZIndex.EntryMeans | internal/erofs/compress.go:1109-1139 | what an entry means to a reader: a head's address, a delta that stays in the extent, or where the file ends |
| ZIndex.FullIndexRoundTrip | internal/erofs/zread.go:103-117 | a full index array read back gives a correct entry for every cluster |
| Bits.PutCompactBits | internal/erofs/compress.go:1204-1211 | sets exactly the bits of the value in its field and no other |
| Bits.GetBitsExact | internal/erofs/zread.go:119-128 | decoding a field gives the value of its bits although it is read through a whole word |
| CompactIndex.CountBlocks | internal/erofs/zread.go:186-203 | the walk back from a head counts exactly the blocks before it in its pack |
| CompactIndex.ReadCompactIndex | internal/erofs/zread.go:131-206 | expands one compacted index exactly as the format defines it, in both pack kinds |
| CompactWriter.FillPack | internal/erofs/compress.go:1230-1263 | the fields of a pack hold exactly its records |
| CompactWriter.WritePack | internal/erofs/compress.go:1229-1270 | a pack holds its records and the base address that the entries so far imply, and moves the writer on by its entries |
| CompactWriter.CursorSteps | internal/erofs/compress.go:1234-1263 | the writer's running address and pending-head flag are those of its position in the file |
| CompactWriter.BaseSteps | internal/erofs/compress.go:1232-1264 | the base a pack stores is the one from which its heads are reached |
| CompactWriter.HeadAddress | internal/erofs/zread.go:186-205 | walking back inside a pack recovers the exact address of every head |
| CompactWriter.NonHeadReads | internal/erofs/zread.go:166-184 | every non-head reads a delta that stays within its extent, at the end of a pack too |
| CompactWriter.PackMeans | internal/erofs/zread.go:131-206 | reading any record of a written pack gives a correct index |
| CompactWriter.WriteCompactIndexes | internal/erofs/compress.go:1213-1293 | the array is exactly as long as planned and every cluster's pack stands where a reader looks for it |
| CompactWriter.CompactRoundTrip | internal/erofs/zread.go:131-206 | for every physically contiguous file and every cluster: type, exact head address and a delta whose walk ends at the head, across two- and sixteen-entry packs, capped deltas and the tail padding |
| ZRead.CountZeros | internal/erofs/zread.go:421-428 | counts the leading zeros of a region |
| ZRead.DecodeRegion | internal/erofs/zread.go:417-438 | decodes the right-aligned block of a region, or fails when it is short, all zero, malformed or of another size |
| ZRead.BigExtentLost | internal/erofs/zread.go:371-400 | in every file written with an extent of 2048 blocks, the index says that the extent has none, and it cannot be decoded whatever the image holds |
| ZRead.ExtentSizeExact | internal/erofs/zread.go:392-404 | the size computed for an extent, from the end marker or the file's size, is exact |
| ZRead.Inode.constructor | internal/erofs/zread.go:69-98 | a fresh reader remembers no extent |
| ZRead.Inode.WalkBack | internal/erofs/zread.go:288-306 | following deltas from any cluster ends at its extent's head, or stays at a plain cluster or the end marker |
| ZRead.Inode.ScanExtent | internal/erofs/zread.go:374-398 | the forward scan counts the extent's clusters, finds its block count and the end marker |
| ZRead.Inode.ExtentData | internal/erofs/zread.go:364-445 | returns the extent's bytes, remembered or decoded, whatever other readers remember meanwhile |
| ZRead.Inode.Others | internal/erofs/zread.go:37-43 | any number of concurrent readers replacing the remembered extent keep it one of the file's |
| ZRead.Inode.CopyCachedBlock | internal/erofs/zread.go:348-360 | what is served from the remembered extent is the file's block |
| ZRead.Inode.FindHead | internal/erofs/zread.go:288-324 | finds the entry that serves a block, stepping over an end marker |
| ZRead.Inode.ReadBlock | internal/erofs/zread.go:282-346 | for any order of reads, and for any interleaving with other readers at the lock's boundaries, a block is exactly the file's bytes |
| ZFile.StoreAll | internal/erofs/compress.go:600-616 | spans stored in order read back in order, as the storing function says |
| ZFile.CompressBuffer | internal/erofs/compress.go:713-736 | a file packed in memory is stored as the storing function says and its spans partition it, each chosen by the search; an error comes from the compressor failing on a stretch of it |
| ZFile.CompressStream | internal/erofs/compress.go:795-838 | the same through a window of at most one extent, with the same choices as on the whole file; a reader that ends early is an error |
| ZFile.PartitionRaws | internal/erofs/compress.go:795-838 | a partition of a file is the file, cut at block boundaries |
| ZTrailing.PlacedMapped | internal/erofs/compress.go:1113-1114 | stored extents shifted to the region's base map the file in the image |
| ZTrailing.PlaceKeepsCompact | internal/erofs/compress.go:1052-1069 | whether a file may be compacted does not depend on where its extents are placed |
| ZTrailing.HeaderRoundTrip | internal/erofs/zread.go:66-95 | the map header reads back, for files inside the packed inode and for both index layouts |
| ZTrailing.CompactEntries | internal/erofs/compress.go:1052-1069 | a file that may use compacted indexes has only entries that fit their 12 bits |
| ZTrailing.WriteTrailing | internal/erofs/compress.go:1143-1202 | the bytes written behind an inode are exactly as many as planned and hold the header and the indexes |
| ZLoad.PackOfAligned | internal/erofs/zread.go:131-160 | planning with relative offsets and reading with absolute ones agree on the packs |
| ZLoad.OpenIndexed | internal/erofs/zread.go:59-100 | an inode opened over written bytes has a correct index for every cluster |
| ZLoad.DescribedHeader | internal/erofs/zread.go:59-95 | the header is found behind the alignment padding |
| ZLoad.Open | internal/erofs/zread.go:59-100 | opening succeeds exactly for block sizes of 512 bytes to 64 KiB and a header that can be read and is supported, with the fields it implies |
| ZLoad.ReadPacked | internal/erofs/zread.go:238-257 | reads a range of the packed inode block by block: the bytes there, or an error exactly when the range leaves the inode |
| ZLoad.LoadBlock | internal/erofs/zread.go:209-235 | the block at a position, from own extents or the packed inode, exactly |
| ZLoad.ReadMany | internal/erofs/zread.go:209-235 | any sequence of reads through the one remembered extent gives exact blocks |
| ReadBack.CompressThenRead | internal/erofs/compress.go:1143-1202 | end to end: unless the compressor fails on a stretch of the file, it is cut as the search chooses, stored as packed, and any positions in any order read back exactly, in both index layouts, if and only if all blocks have 32-bit addresses, which its size decides, and a reader takes the block size |
| ReadBack.WriteFile | internal/erofs/compress.go:1143-1202 | the image maps the stored file and describes it behind its inode; refused if and only if the first whole block behind the inode plus the stored blocks exceeds the addresses |
| ReadBack.Reopen | internal/erofs/zread.go:59-100 | the inode of a described file is opened exactly when the block size is supported, and then serves the file |
| BlockSize.Writer.SetBlockSize | internal/erofs/mkfs.go:1331-1347 | accepts exactly the powers of two from 512 bytes to 1 MiB, and only one of them |
| BlockSize.Writer.BlockBits | internal/erofs/mkfs.go:1444-1446 | the recorded exponent is that of the block size |
| BlockSize.OpenImage | internal/erofs/erofs.go:143-147 | the reader takes exponents 9 to 16 |
| BlockSize.OpensUpTo64K | internal/erofs/erofs.go:143-147 | of the block sizes the writer accepts, an image is opened if and only if its blocks are at most 64 KiB |
| BlockSize.WrittenNotRead | internal/erofs/writer.go:16-17 | blocks of 128 KiB to 1 MiB are accepted by the writer and opened by no reader |
| StreamPacker.CutIsUnique | internal/erofs/packedstream.go:57-70 | full segments and a short rest are how a stream is cut, however it was written |
| StreamPacker.PackAllCovers | internal/erofs/packedstream.go:187-212 | whatever each job came out as, the spans of all segments partition the whole stream |
| StreamPacker.PackJob | internal/erofs/packedstream.go:187-212 | a worker's result on a segment is sound, each span chosen by the search; an error comes from the compressor failing on a stretch of that segment |
| StreamPacker.PackWindowed | internal/erofs/compress.go:795-838 | one worker streaming a large file through its window gives what a sound packing gives for the file as a single segment, which is what the pool's single-worker branch takes |
| StreamPacker.StreamPacker.constructor | internal/erofs/packedstream.go:36-55 | a fresh packer has nothing written |
| StreamPacker.StreamPacker.Interleave | internal/erofs/packedstream.go:44-53 | workers finishing at any time change no outcome |
| StreamPacker.StreamPacker.CollectOne | internal/erofs/packedstream.go:110-127 | collects the oldest segment only; its extents and the spool are those of sequential packing |
| StreamPacker.StreamPacker.Submit | internal/erofs/packedstream.go:93-108 | hands the tail on, first making room, and loses nothing |
| StreamPacker.StreamPacker.Write | internal/erofs/packedstream.go:57-70 | takes in all bytes, or stops at a segment boundary where the stream so far, whatever follows, cannot be packed |
| StreamPacker.StreamPacker.ReadFull | internal/erofs/packedstream.go:74-91 | takes in exactly the requested bytes, or keeps what was complete when the reader is short |
| StreamPacker.StreamPacker.Finish | internal/erofs/packedstream.go:137-155 | succeeds if and only if every segment can be packed; extents and spool are then those of packing the stream segment by segment, and the spans cover the stream |
| StreamPacker.SameBoundaries | internal/erofs/packedstream.go:184-186 | both parallel packers cut a stream at the same places; they differ only in the final flag of a last full segment |
| StreamPacker.CompressParallel | internal/erofs/compress.go:1350-1452 | whatever order workers finish in, extents and spool are those of storing the same results in stream order; an error is reported if and only if a segment fails or the reader ends early |
| FilePool.Lookup | internal/erofs/compress.go:689-703 | hashing only files whose size repeats still finds every identical file |
| FilePool.RunReads | internal/erofs/compress.go:592-709 | after a sequential run every file, sharing or not, reads back from its extents, for any choice of sound results |
| FilePool.Pool.constructor | internal/erofs/compress.go:518-545 | an empty pool is consistent |
| FilePool.Pool.Collect | internal/erofs/compress.go:592-616 | the oldest job's extents go to its file and to exactly the files that wait for them |
| FilePool.Pool.CountSizes | internal/erofs/compress.go:533-543 | counts the sizes of the files that may share |
| FilePool.Pool.Share | internal/erofs/compress.go:690-700 | a duplicate gets its canonical file's extents at once or waits for them |
| FilePool.Pool.AddSmall | internal/erofs/compress.go:661-705 | takes in an ordinary file, collecting first when the queue is full |
| FilePool.Pool.CompressLarge | internal/erofs/compress.go:795-798 | a large file goes to parallel segments, or is packed as one stream when there is a single worker; it fails exactly when it cannot be read in full or packed |
| FilePool.Pool.AddLarge | internal/erofs/compress.go:644-660 | a large file is stored only after everything before it |
| FilePool.Pool.CompressAll | internal/erofs/compress.go:592-709 | for every interleaving of file workers the extents and the spool are those of compressing the files one after another, it fails exactly when that does, and every file reads back |
| Fragments.OrderIsPermutation | internal/erofs/compress.go:452-474 | for every list of hot paths the packing order is a permutation of the files |
| Fragments.OrderFragments | internal/erofs/compress.go:452-474 | listed paths first, cleaned, each at its first mention, then the rest in their own order |
| Fragments.CountSizes | internal/erofs/compress.go:436-441 | counts the files of each size |
| Fragments.FragmentPacker.AddFragment | internal/erofs/compress.go:762-788 | a file's range of the packed stream is its content, found again by its hash when it was there already; an error is a short file or a stream that cannot be packed so far |
| Fragments.FragmentPacker.StreamFragment | internal/erofs/compress.go:479-487 | the same for a file of unique size, straight from its reader |
| Fragments.FragmentPacker.AddNext | internal/erofs/compress.go:476-490 | the next file extends the stream by its content exactly when no earlier file has it or dedupe is off; hashing only repeated sizes finds every duplicate |
| Fragments.FragmentPacker.AddAll | internal/erofs/compress.go:472-500 | the stream is the files' content, each once where dedupe is on; every file has its range and identical files share one; it fails exactly when a file is short or that stream cannot be packed |
| Fragments.FragmentPacker.Pack | internal/erofs/compress.go:425-517 | succeeds if and only if every file can be read and their stream can be packed; the packed inode's extents then cover that stream, in which every small file has its range |
| Fragments.ReadFragment | internal/erofs/zread.go:238-257 | a small file's block comes back exactly, whichever fragments were read before and whatever other readers do meanwhile |
| FragmentReads.PackThenRead | internal/erofs/compress.go:425-517 | end to end for small files: it fails if and only if a file is short or the stream cannot be packed; otherwise the stream is stored as packed, and any files at any positions read back exactly if and only if all blocks have addresses and a reader takes the block size |
| FragmentReads.ReadAll | internal/erofs/zread.go:238-257 | any sequence of reads of any small files through the packed inode gives exact blocks |
| Dirents.FillBlock | internal/erofs/writer.go:617-635 | a block takes as many entries as fit, at least one |
| Dirents.DirentDataSize | internal/erofs/layout.go:216-252 | the planned size is the size of the bytes the writer emits |
| Dirents.SameSize | internal/erofs/layout.go:216-252 | a directory's size depends on its names alone, so it can be planned before inodes have numbers |
| Dirents.WriteDirents | internal/erofs/writer.go:590-677 | writes the entries block after block, all but the last padded |
| Dirents.WriteHeaders | internal/erofs/writer.go:640-655 | writes headers whose 16-bit name offsets add up |
| Dirents.WriteBlock | internal/erofs/writer.go:637-664 | writes the headers of a block, then its names |
| Dirents.DirentReads | internal/erofs/erofs.go:1355-1387 | every entry of a written block decodes to itself, except the last of a 64 KiB block, which does not decode |
| Dirents.FirstReads | internal/erofs/erofs.go:1320-1351 | the first name of a written block is read, padding or not, except the only one of a 64 KiB block |
| Dirents.LookupBlock | internal/erofs/erofs.go:1389-1422 | binary search inside a block below 64 KiB answers for every name; in one of 64 KiB the last name is an error |
| Dirents.DirBlockAt | internal/erofs/writer.go:590-677 | block k of the directory is where a reader loads it |
| Dirents.Lookup | internal/erofs/erofs.go:1252-1317 | the two-level search finds a name with its nid and type, or reports that it is not there, for every directory without 64 KiB blocks; with one, the last name of the first block is an error |
| Dirents.SomeNameLost | internal/erofs/erofs.go:1368-1373 | every directory with a 64 KiB block lists such a name, so all names are answered for if and only if there is no such block |
| Dirents.AnswerIsExact | internal/erofs/erofs.go:1252-1317 | found with this nid and type if and only if the directory has that entry; not found if and only if it has no such name |
| FlatRead.LoadBlock | internal/erofs/erofs.go:518-560 | loads the rest of the block at a position, from data blocks or from behind the inode; end of file exactly past the last block |
| Layout.PlanOnePlaced | internal/erofs/layout.go:46-161 | wherever the previous inode ended, the next one starts at a slot less than a block on, its core and its inline tail stay within a block, and the trailing size is that of the chosen layout |
| Layout.ChooseFits | internal/erofs/layout.go:71-159 | an inode is moved only to a block start, and the late re-check never has to undo an inline choice |
| Layout.PlanLayout | internal/erofs/layout.go:10-165 | each inode is planned where the one before it ends, and every one soundly |
| Layout.RegionsOrdered | internal/erofs/layout.go:46-162 | planned regions are ordered and disjoint |
| Layout.MetadataBytes | internal/erofs/writer.go:219-233 | the metadata size is where the last region ends |
| Layout.LargestEnd | internal/erofs/writer.go:159-170 | computing it as the largest end gives the same |
| Layout.WriteOne | internal/erofs/writer.go:335-400 | an inode is written at its offset; the gap before it fits the block of zeros it is cut from |
| Layout.WriteMetadata | internal/erofs/writer.go:332-412 | every inode stands at exactly 32 times its number, and the area is padded to whole blocks |
| InodeCore.CoreRoundTrip | internal/erofs/writer.go:444-500 | every field of an inode core reads back in both forms, whatever follows it; a compact one has the image's time |
| InodeCore.CountReads | internal/erofs/format.go:57-62 | the size of the extended attributes is recovered from their count |
| InodeCore.TimesKept | internal/erofs/layout.go:50-53 | a core whose form the writer chooses without giving up times reads back whole if and only if it is extended or the build time has no fraction of a second |
| ImageWriter.WriteTrailingOf | internal/erofs/writer.go:417-442 | for every kind of node the trailing bytes written are as many as planned and are the node's content |
| ImageWriter.ZOfKind | internal/erofs/compress.go:1052-1069 | what planning asks about a compressed file is already settled before the file has an address |
| ImageWriter.AssignDataBlocks | internal/erofs/writer.go:155-198 | assigns each region the address right after those before it, in both orders |
| ImageWriter.WriteDataBlocks | internal/erofs/writer.go:680-732 | writes the flat regions one after another, padded to blocks |
| ImageWriter.DataRegionAt | internal/erofs/writer.go:680-732 | a flat region starts right after the blocks of those before it |
| ImageWriter.CountBlocks | internal/erofs/writer.go:235-251 | the superblock's count is the sum of all regions |
| ImageWriter.AssignedDisjoint | internal/erofs/writer.go:155-198 | assigned regions do not overlap and stay inside the image |
| ImageWriter.MetadataFirst | internal/erofs/writer.go:86-101 | in metadata-first order every address is where its region is written |
| ImageWriter.DataFirst | internal/erofs/writer.go:107-137 | in data-first order, with the superblock filled in last, every address is where its region is written |
| ImageWriter.WriteImage | internal/erofs/writer.go:86-137 | either order: honest addresses, disjoint regions, and a size of exactly the superblock's block count |
| ImageBuilder.InodeInImage | internal/erofs/writer.go:332-415 | an inode of the metadata area stands in the image where its number says |
| ImageBuilder.AddressesFit | internal/erofs/writer.go:155-198 | when the compressed region is addressable every data address fits its 32-bit field |
| ImageBuilder.WriteInodes | internal/erofs/writer.go:332-442 | every inode is serialised as planned: its core carries its node's attributes, which ImageReads.StatAt reads back, and says where its data is; its content is behind it |
| ImageBuilder.BuildImage | internal/erofs/writer.go:74-137 | a whole image from its nodes: planned, addressed, every inode at its number with its node's attributes and content, every external region where its core says, nothing overlapping; refused if and only if there are more blocks than addresses |
| ImageReads.CompressedInImage | internal/erofs/zread.go:59-66 | a compressed inode of the image describes its file to the reader |
| ImageReads.InlineInImage | internal/erofs/erofs.go:536-557 | inline data is read back from behind its inode |
| ImageReads.FileInImage | internal/erofs/compress.go:1297-1311 | the compressed region maps every file whose extents were stored in it |
| ImageReads.InfoReads | internal/erofs/erofs.go:920-1005 | an inode's core reads back by its number if and only if 64 bytes of the image follow its start |
| ImageReads.LastSlotLost | internal/erofs/erofs.go:925-945 | of a built image exactly a compact inode in the last 32 bytes cannot be read |
| ImageReads.OpenNode | internal/erofs/erofs.go:920-1018 | opens an inode as its core says: flat, inline, or compressed with its map header |
| ImageReads.FlatNode | internal/erofs/erofs.go:528-560 | every flat node of a built image, inline or external, holds its content where its core says |
| ImageReads.OwnNode | internal/erofs/zread.go:59-110 | a compressed node of a built image opens over its extents and serves its content |
| ImageReads.SmallNode | internal/erofs/zread.go:59-80 | a small node of a built image opens as its range of the packed inode |
| ImageReads.LoadAt | internal/erofs/erofs.go:518-682 | reading a node of a built image by its number gives its bytes from the position to the end of the block; nothing exactly when an inode cannot be read or the position is behind the end |
| ImageReads.StatAt | internal/erofs/erofs.go:1019-1057 | the attributes read for a node of a built image are its own: mode, links, owner, group, size of what it reads, device number, blocks, and its time or, of a compact inode, the image's; nothing exactly when its inode cannot be read |
| ImageReads.OpenPacked | internal/erofs/zread.go:262-278 | the packed inode is opened exactly when its core can be read, and holds the packed stream |
| ImageReads.AnswerNames | internal/erofs/erofs.go:1252-1317 | what a directory answers is the number of the node the name leads to and the type it is listed with, and it answers exactly for the names it has |
| ImageReads.FindName | internal/erofs/erofs.go:1252-1317 | a directory of a built image, inline or external, finds exactly its names with the numbers of their nodes and their types, unless it has 64 KiB blocks, of which the last name of the first is an error |
| ImageReads.BuildThenRead | internal/erofs/writer.go:74-137 | end to end for a whole image: built from its nodes and asked by inode or by name, in any order, each request gets its node's bytes, compressed, small, flat, link target or listing, or its node's attributes and listed type; built if and only if there are enough addresses |
| Claim.TakesKeeps | internal/claim/claim.go:147-197 | every step of a claimant keeps who owns, activated and discarded what, whatever the backend and the sidecars answer and even when a failed write landed; that no step gives up early is Claim.StaysOnTrack |
| Claim.RunKeeps | internal/claim/claim.go:92-197 | it holds at every state of every interleaving of any number of claimants |
| Claim.ActivatedOnce | internal/claim/claim.go:179-197 | each unit's gate is taken at most once, with or without success |
| Claim.ReturnedIsOwn | internal/claim/claim.go:92-129 | a returned unit was reserved and activated by that caller, is not discarded, and was returned to nobody else |
| Claim.PoisonedIsOwn | internal/claim/claim.go:147-197 | a claim that reports a poisoned unit took that unit's gate itself; the unit is discarded or reported as undiscardable, and returned to nobody |
| Claim.DiscardsOwn | internal/claim/claim.go:179-197 | no claimant discards a unit another one activated |
| Claim.FinishedIsSettled | internal/claim/claim.go:92-197 | each unit a finished claim reserved was returned, discarded, reported as undiscardable, or left to a conflicting peer |
| Claim.FateStays | internal/claim/claim.go:147-197 | a settled unit stays settled the same way |
| Claim.Progress | internal/claim/claim.go:92-171 | every step brings a claim closer to its end, so it terminates |
| Claim.StaysOnTrack | internal/claim/claim.go:92-171 | every step keeps that what a pass listed is tried, in hand or still ahead, that a unit is created only after all of that was tried, and that a second pass follows only a created unit lost to someone else |
| Claim.ExhaustedTriedAll | internal/claim/claim.go:92-171 | over every run: a claim that reports exhaustion has tried, in order, every unit its last listing gave, and each was lost, failed to reserve, was left to a peer, discarded or reported as undiscardable, as its fate says; with a cold policy it also created a unit and lost it, otherwise it created none |
| Sidecar.WinnerSteps | internal/proxy/pool.go:72-161 | every step of the winning claim keeps its position in line with the shared state |
| Sidecar.ShutdownSeen | internal/proxy/proxy.go:177-192 | so does every step of shutdown |
| Sidecar.RunKeeps | internal/proxy/pool.go:59-161 | the invariant holds at every state of every interleaving, and the gate is taken exactly when one request has won it |
| Sidecar.AtMostOneClaim | internal/proxy/pool.go:72-78 | at most one claim passes the gate |
| Sidecar.BoundMeansSucceeded | internal/proxy/pool.go:112-193 | the data plane is bound exactly when a claim succeeded, answered 200 or about to be, after its workload was signalled and never on a failed record |
| Sidecar.FailureIsFinal | internal/proxy/pool.go:79-94 | a failed claim record never becomes healthy and the pod never serves |
| Sidecar.MountsReleased | internal/proxy/pool.go:139-150 | when all have finished, a release was tried on whatever a claim mounted, by the claim, by shutdown, or by both; what is still mounted has a failed release |
| Sidecar.LeakStays | internal/sidecar/runner.go:302-341 | what a failed rollback leaves mounted is released by nobody, because no runner is kept for it |
| Sidecar.LeftMounted | internal/sidecar/runner.go:302-356 | when all have finished, something is left mounted if and only if a claim's rollback failed, or a release failed and none succeeded |
| Sidecar.RollbackLeaks | internal/sidecar/runner.go:302-341 | a run in which a failed rollback is left mounted |
| Sidecar.ReleaseLeaks | internal/proxy/proxy.go:184-192 | a run in which a claim succeeds, shutdown's release fails, and the mount is left |
| Sidecar.ClosingRefuses | internal/proxy/pool.go:65-71 | over every run: a request that has not looked at the closing flag when shutdown begins never passes the gate |
| Sidecar.IdleStays | internal/proxy/pool.go:65-78 | a pod that is unclaimed with nobody at its gate when shutdown begins is never claimed, never mounts and never serves |
| Sidecar.AnsweredFor | internal/proxy/pool.go:59-161 | over every run: a request is answered 401 only for its credentials, 409 only because the pod is claimed or closing, 400 only for its body, and 422 only because preparing, mounting or signalling failed or a shutdown made it undo its mounts |
| CircuitBreaker.ClosedByStreak | internal/circuitbreaker/breaker.go:71-115 | over any history a breaker is closed exactly when fewer failures than the threshold followed the last success |
| CircuitBreaker.TrialsAdmitted | internal/circuitbreaker/breaker.go:71-87 | an open breaker lets a single trial through if and only if at most one request is asked from the end of the cooldown on |
| CircuitBreaker.TwoTrials | internal/circuitbreaker/breaker.go:71-87 | two requests after the cooldown are both let through |
| CircuitBreaker.OpenBlocks | internal/circuitbreaker/breaker.go:99-115 | a failure leaves the breaker open if and only if it is the threshold-th in a row or later, a failed trial included; from then a request passes if and only if more than the cooldown has passed since that failure |
| CircuitBreaker.Breaker.constructor | internal/circuitbreaker/breaker.go:56-68 | starts closed, with defaults for thresholds and cooldowns that are not positive |
| CircuitBreaker.Breaker.Allow | internal/circuitbreaker/breaker.go:71-87 | answers and moves as the breaker's value says |
| CircuitBreaker.Breaker.RecordSuccess | internal/circuitbreaker/breaker.go:90-96 | closes the breaker |
| CircuitBreaker.Breaker.RecordFailure | internal/circuitbreaker/breaker.go:99-115 | counts a failure and opens the breaker at the threshold or after a failed trial |
| Delivery.RetriedMeans | internal/dispatcher/delivery.go:33-57 | sent exactly when an attempt succeeds after only transient failures; rejected, given up and cancelled likewise |
| Delivery.WithRetry | internal/dispatcher/delivery.go:33-57 | attempts at most one more time than it may retry, announces every retry, and stops at the first decisive attempt |
| Delivery.WithCircuitBreaker | internal/dispatcher/delivery.go:62-79 | an open circuit is reported exactly when the breaker refuses, without an attempt; every other outcome is recorded |
| Dispatcher.FlowMoves | internal/dispatcher/memory.go:155-246 | a step moves an event from one place to another; only a successful enqueue adds one |
| Dispatcher.StepKeeps | internal/dispatcher/memory.go:86-246 | every step keeps all books |
| Dispatcher.RunKeeps | internal/dispatcher/memory.go:86-246 | they hold at every reachable state of every interleaving |
| Dispatcher.Conservation | internal/dispatcher/memory.go:86-246 | accepted events are those delivered, failed, dropped after acceptance, queued, in a worker, waiting to requeue, or abandoned |
| Dispatcher.AtMostOnce | internal/dispatcher/memory.go:208-246 | no event is delivered twice or enters the delivery chain more than eleven times |
| Dispatcher.FateExactly | internal/dispatcher/memory.go:186-246 | over every run: an event is accepted if and only if its call found room, delivered or failed if and only if a delivery of it did, abandoned if and only if its requeue saw the shutdown, and dropped if and only if the breaker refused it the eleventh time or the queue was full when its cooldown was over |
| Dispatcher.InOrder | internal/dispatcher/memory.go:86-181 | over every run: workers take events in the order they came into the queue, which takes one whenever there is room |
| Dispatcher.ClosedBelowThreshold | internal/circuitbreaker/breaker.go:71-115 | over every run: a host's breaker is closed if and only if fewer than five deliveries to that host failed since the last that succeeded, as the run's steps say, and that number is its count |
| Dispatcher.BreakerHistory | internal/dispatcher/delivery.go:62-79 | at every state of every run a host's breaker is where the requests, successes and failures of that host's deliveries have taken it |
| Dispatcher.SentExactly | internal/dispatcher/delivery.go:67-69 | an event is sent while fewer than five deliveries to its host failed in a row; right after a fifth or later failure it is sent if and only if more than a cooldown has passed since that failure |
| Dispatcher.Stranded | internal/dispatcher/memory.go:86-152 | a concrete run in which an accepted event stays queued for ever, because its call enqueued after the last worker left |
| Dispatcher.StrandedExactly | internal/dispatcher/memory.go:86-152 | when no worker is left, events are stranded in the queue if and only if some arrived after the last worker had gone |
| Dispatcher.QuietClose | internal/dispatcher/memory.go:120-246 | if at shutdown no call is in flight and nothing is queued, waiting or newly taken by a worker, nothing is ever stranded: once no worker is left every accepted event was delivered, failed, dropped or abandoned |
| Artifacts.MarkPost | internal/artifact/graph.go:13-32 | marks exactly the ids whose dependency chain reaches a sentinel, and terminates |
| Artifacts.Partition | internal/artifact/graph.go:12-40 | an order-preserving split whose post half is exactly the artifacts that reach a sentinel |
| Artifacts.PhasesSplit | internal/artifact/graph.go:12-40 | nothing is lost, doubled or put in both halves |
| Artifacts.RunOne | internal/artifact/graph.go:71-93 | one artifact is run, skipped because its dependency failed, or left for a later pass |
| Artifacts.RunInOrder | internal/artifact/graph.go:59-107 | terminates; calls each id at most once and after its in-scope dependency succeeded; with distinct ids misses no artifact that was ready; returns the last failure |
| Artifacts.CalledExactly | internal/artifact/graph.go:59-107 | with distinct ids exactly the artifacts whose in-scope ancestor chain is acyclic and all succeeded are called |

## Left out

- Lz4Encoder.Encoder.CompressBlockOptLimit: each batch is compared with the matches its own finder offered, not with matches it does not look for or with other batches.
- Lz4LongRun.LongRunLoses: given by the offers of each round; no source is given whose finder makes them.
- Lz4Stable.OptPlanStable: stated for sources of up to 64 KiB. For longer ones `Lz4Stable.StaleReached` shows that the match finder can reach an old delta through a link that wrapped; no source is given whose whole plan differs.
- SpanPacker.Worker.PackSpan: the ratio estimate that steers the search is a real number, without rounding.
- ZLoad.Open: the superblock's feature flags are not modelled.
- ImageBuilder.BuildImage: the superblock and the extended attributes are opaque bytes of the planned length; a reader is given the metadata address, the build time and the packed inode's number.
- ImageReads.BuildThenRead: chunked files are written but not read; attributes are the core's fields, without the extended ones; a path is one name in one directory, without symbolic links.
- ImageWriter.WriteTrailingOf: chunk indexes are opaque groups of eight bytes.
- ReadBack.WriteFile: refuses where the blocks outnumber the 32-bit addresses; the writer itself does not check and its addresses would wrap.
- ImageWriter.WriteImage: block addresses are unbounded here; the writer does not check that they fit 32 bits, and `ImageBuilder.BuildImage` refuses where they do not.
- Dirents.Lookup: sorting is the library's; directories are taken as sorted listings of distinct, non-empty, NUL-free names, and file types stay raw numbers.
- FilePool.Pool.CompressAll: entries without a data source are not modelled; what a worker makes of a file is any sound result.
- Fragments.OrderFragments: path cleaning is the library's and enters as a function.
- Claim.Progress: liveness of the backend is not modelled; only that no claimant step is repeated for ever.
- Sidecar.LeftMounted: a claim's mounts are one unit; a release that unmounts some of them and fails on others counts as failed.
- Dispatcher.Conservation: the requeue counter and latency metrics are not modelled; cooldowns end whenever the step is taken.
- SHA-256 is taken to be injective, and the vendored LZ4 decoder to be the format's; the vendored fast compressor may fail, give nothing, or give a valid block.
- Parallel runs are compared with storing the same jobs' results in order; that a sequential run yields the same results is stated for the encoders, not for whole segments.
- Word-wise comparison in the match finder is modelled as comparison of bytes.
- Buffer pools and their reuse, spool files on disk, and error texts.
- Chunk-based files and device tables, the merge and whiteout tree, squashfs images, kernel mounts, HTTP handlers, request validation, signing, metrics and configuration: either foreign calls or easy claims.
