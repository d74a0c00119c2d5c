# Verified models of tactmon

tactmon watches the distribution of game builds: it reads manifests and archives in a block-table encoding, stores what it
sees in a database and answers requests for files. This project models the parts of it that carry the most logic, and
proves what they promise. `dafny verify dfyconfig.toml` checks everything in a few minutes.

| files | what they model |
|---|---|
| `Regex*`, `First*`, `PointSet`, `PossessiveOptimisation`, `OptimiserInvisible`, `RepeatFusion` | the regular-expression matcher: a backtracking evaluator over a stack of nodes, its first sets, the collision test, the optimiser that makes greedy repeats possessive, the merging of adjacent repeats; its meaning is the language a pattern covers |
| `BlockStream`, `BlockStreamTransform`, `Fragmentation`, `BlockArchive`, `BlockModes`, `Failover` | the incremental decoder of block-table encoded streams, as a state machine and as the object that runs it, and the driver that continues a download on the next server; `BlockModes` is about both decoders |
| `BatchFormat`, `BatchLoader`, `BatchRoundTrip` | the decoder for whole archives |
| `IndexFormat`, `IndexLoader`, `IndexRoundTrip` | archive indices |
| `EncodingFormat`, `EncodingLoader`, `EncodingRoundTrip` | encoding manifests |
| `MemoryStreams`, `TypedReads`, `Bytes` | the streams under them |
| `Words`, `Lookup3`, `Lookup3Paths`, `Lookup3Vectors` | Jenkins' hash and its three ways over a key |
| `SqlComponents`, `SqlRenderer`, `SqlNumbering`, `SqlLexing`, `SqlMapper`, `SqlQueries` | the renderer of queries with numbered placeholders, the classes that queries are built of, their texts and parameter types |
| `ConnectionPool` | the pool of connections with its condition variable |
| `RibbitMonitor` | the monitor of sequence numbers |
| `TupleLayout`, `TupleConcatenation` | tuples stored by alignment |
| `Tokenizer` | cutting texts |
| `Arithmetic`, `Concatenation` | facts used by several of them |

Code that changes things step by step is modelled by methods and classes with the source's loops. Each is proved against a
specification function, and the lemmas are about that function. Objects keep their invariant in `Valid()`.

Numbers are unbounded unless a width matters. Then it is written out: 32-bit words in the hash, 64-bit sizes in the index
and in the offsets of a download, 64-bit characters in the complement of a character set.

## Where the code does not do what it is meant to

The model follows the code. Where a promise fails, a lemma names an input or states exactly when it holds.

- The incremental decoder waits for one byte less than it consumes (`Fragmentation.GuardsPart`, `Fragmentation.AsWrittenFragments`);
  on an archive it goes wrong exactly at a fragment that ends one byte short of the end of a block
  (`BlockArchive.AsWrittenOnArchive`). Fragmentation and failover are proved for the guard that covers what is consumed.
- It also takes the digest of a block without its last byte, reads a filler of the header as blocks, insists on one value
  of the flags and on eight bytes behind the header. It decodes an archive that the batch decoder accepts exactly under
  the conditions of `BatchRoundTrip.IncrementalDecodesWhen` and `BatchRoundTrip.IncrementalDecodesFilled`, and otherwise
  stops as `BatchRoundTrip.IncrementalDecoderGivesUp` and `BlockArchive.ArchiveDecodes` say.
- After the last byte of a range the length is zero, and a request without length is for the whole archive
  (`Failover.RequestedRest`); such a request is never found to be served (`Failover.Session.ProcessRequest`).
- The search for an index footer does not end in files of fewer than 44 bytes (`IndexFormat.SearchEnds`); a footer with
  entries of size zero makes it divide by zero (`IndexLoader.ArchiveIndex.Load`).
- The pages of an encoding manifest are looked for with the wrong key size, so manifests whose key sizes differ are misread
  (`EncodingRoundTrip.ShorterKeysAreMisread`, `EncodingRoundTrip.MisreadUnless`); which ones are not is exactly
  `EncodingRoundTrip.ManifestIsRead`.
- The complement of a character set can leave out the largest 64-bit value (`FirstSets.ComplementMissesMaximum`).
- The first byte of an empty chunk is read (`BatchFormat.EmptyChunk`).
- A zero-terminated text without a zero is read for ever (`TypedReads.ReadCString`), and so is an empty delimiter looked for
  (`Tokenizer.TokenizeString`).
- The option that disables the optimiser changes repeats of greedy repeats that can be empty
  (`RegexBoundaries.OptimiserChangesNested`), iterations of a repeat are never revised (`RegexBoundaries.IterationsAreFinal`),
  swapping possessive repeats changes what they accept (`RegexBoundaries.SwappedFusion`), and merging repeats with an
  empty range can make them match (`RepeatFusion.FusionOfEmptyRange`).
- The target of a conflict clause and the entity of a deletion are rendered but their parameters are not declared
  (`SqlLexing.UndeclaredIsOutOfStep`, `SqlMapper.QueriesMatchParameters`), and a bound parameter of index zero renders as a
  bare dollar sign (`SqlLexing.BoundParameterIsEarlier`).
- Preparing statements goes past the end of the pool when a connection is out (`ConnectionPool.PrepareNeedsAll`).

## Model

| member | source | states |
|---|---|---|
| RegexLoops.Evaluate | src/libtactmon/libtactmon/detail/ctre.hpp:4356-4453 | The evaluator, written with the loops of the source, decides every stack of nodes as the recursive specification does: same match, same captures, and `Diverges` exactly where the loops would not end |
| RegexLoops.EvaluatePossessive | src/libtactmon/libtactmon/detail/ctre.hpp:4625-4648 | The possessive loop, which updates position and captures in place, computes the specified outcome for every content and every rest |
| RegexLoops.EvaluateLazy | src/libtactmon/libtactmon/detail/ctre.hpp:4577-4622 | So do the two loops of a lazy repeat |
| RegexLoops.EvaluateRepeat | src/libtactmon/libtactmon/detail/ctre.hpp:4688-4724 | So does the greedy repeat: the choice between the possessive form and the counted loop, by whether the first sets collide |
| RegexLoops.EvaluateRecursive | src/libtactmon/libtactmon/detail/ctre.hpp:4651-4686 | And the recursion behind it: iterate first, fall back to the rest |
| RegexSoundness.Peel | src/libtactmon/libtactmon/detail/ctre.hpp:4356-4453 | A successful evaluation of a stack went through its first node: that node covers a span, and the rest was evaluated from its end. If the node is a group, it is recorded with that span; so are those inside it that every match passes |
| RegexSoundness.MatchIsSound | src/libtactmon/libtactmon/detail/ctre.hpp:5262-5267 | For every plain pattern, optimised or not: a match covers the whole subject, every matched capture spans a text of its group, and a group is matched if every match has to pass it: outside repeats that may be left out, and in all options of a choice |
| RegexPreference.RepeatTakes | src/libtactmon/libtactmon/detail/ctre.hpp:4578-4724 | For any content and any rest: a greedy repeat that is not made possessive takes the largest number of iterations after which the rest matches, a lazy one the smallest, a possessive one as many as there are |
| RegexPreference.FirstOption | src/libtactmon/libtactmon/detail/ctre.hpp:4356-4453 | A choice decides as the first of its options that does not fail, and fails if all do |
| RegexPreference.TextIsLetters | src/libtactmon/libtactmon/detail/ctre.hpp:4356-4453 | A text is matched as its characters one after the other |
| RegexPreference.WholeGroup | src/libtactmon/libtactmon/detail/ctre.hpp:4727-4736 | A group that is the whole pattern is recorded from the beginning to the end of the subject |
| RegexPreference.RepeatedGroup | src/libtactmon/libtactmon/detail/ctre.hpp:4727-4736 | A repeated group keeps the span of its last iteration |
| RegexExactness.Complete | src/libtactmon/libtactmon/detail/ctre.hpp:4578-4724 | For repeats over content of one fixed width, greedy, lazy or possessive: a stack that spans a part of the subject is accepted, unless it would be an empty iteration |
| RegexExactness.MatchIsExact | src/libtactmon/libtactmon/detail/ctre.hpp:5262-5267 | For those patterns, optimised or not: matching ends, and accepts a subject exactly when the pattern spans all of it, a possessive repeat spanning as many iterations as there can be |
| RegexExactness.MatchIsExactWithoutPossessive | src/libtactmon/libtactmon/detail/ctre.hpp:5262-5267 | Without possessive repeats this is the language in which the mode of a repeat does not count |
| RegexExactness.PeelPart | src/libtactmon/libtactmon/detail/ctre.hpp:4356-4453 | The other direction, stack by stack: what an accepting evaluation went through is spanned by its first node |
| RegexExactness.ExhaustSpans | src/libtactmon/libtactmon/detail/ctre.hpp:4625-4648 | The possessive loop stops only where one more iteration is not allowed or not possible |
| RegexSpans.CoversSpans | src/libtactmon/libtactmon/detail/ctre.hpp:4356-4453 | Where no repeat is possessive, whatever a node covers it spans |
| FirstSets.GapsCover | src/libtactmon/libtactmon/detail/ctre.hpp:4094-4157 | Whatever order the items of a negative set come in, every value below the running start that no item matches is in a callback |
| FirstSets.ComplementCovers | src/libtactmon/libtactmon/detail/ctre.hpp:4148-4157 | The callbacks of a negative set cover every 64-bit value that the set matches, with the possible exception of the largest |
| FirstSets.ComplementMissesMaximum | src/libtactmon/libtactmon/detail/ctre.hpp:4148-4157 | The largest 64-bit value, which is no character, is left out exactly if the last item of the set ends with it or with the value before it |
| FirstSets.PopulateHolds | src/libtactmon/libtactmon/detail/ctre.hpp:4279-4300 | Filling the point set loses no character of the first set |
| FirstSets.EnumerationIsSet | src/libtactmon/libtactmon/detail/ctre.hpp:1563 | An enumeration derives from the set of its characters, so wherever it has no overload of its own it is taken as that set: it matches the same, and gives the same intervals and gaps |
| FirstSets.CommonCharacterCollides | src/libtactmon/libtactmon/detail/ctre.hpp:4303-4310 | First sets with a character in common collide; so a negative answer means that they are disjoint |
| FirstSets.MeetsIsOverlap | src/libtactmon/libtactmon/detail/ctre.hpp:4235-4250 | Intervals with a value in common meet; for intervals that are not empty the four comparisons say exactly that |
| FirstSets.ComplementIsTight | src/libtactmon/libtactmon/detail/ctre.hpp:4148-4157 | If the values of a negative set come in order, its callbacks hold nothing else |
| FirstExactness.FirstIsExact | src/libtactmon/libtactmon/detail/ctre.hpp:3794-4071 | For patterns without assertions and negative sets the first set is exactly the set of characters that their texts begin with |
| FirstExactness.CollidesIsExact | src/libtactmon/libtactmon/detail/ctre.hpp:4303-4310 | First sets of positive classes collide exactly if they have a character in common |
| FirstExactness.OptimisesWhen | src/libtactmon/libtactmon/detail/ctre.hpp:4696-4700 | So a greedy repeat is made possessive exactly if no character begins both another iteration and what follows |
| FirstCoverage.FirstCovers | src/libtactmon/libtactmon/detail/ctre.hpp:3794-4071 | The character with which any continuation starts to consume is in the first set computed for it |
| FirstCoverage.FirstKeeps | src/libtactmon/libtactmon/detail/ctre.hpp:3794-4071 | Computing on only adds to the characters that are allowed |
| PointSets.IntervalsFit | src/libtactmon/libtactmon/detail/ctre.hpp:4074-4092 | The capacity computed for the array is enough for every item |
| PointSets.LowerBoundIs | src/libtactmon/libtactmon/detail/ctre.hpp:4185-4202 | The position that the binary search looks for is unique |
| PointSets.PointSet.FindLowerBound | src/libtactmon/libtactmon/detail/ctre.hpp:4185-4202 | The binary search returns that position |
| PointSets.PointSet.ShiftIn | src/libtactmon/libtactmon/detail/ctre.hpp:4203-4228 | Shifting the array in place puts the new point between what was before and behind the insertion point |
| PointSets.PointSet.InsertPoint | src/libtactmon/libtactmon/detail/ctre.hpp:4203-4228 | Insertion keeps the array sorted and changes its contents as inserting into a sequence does |
| PointSets.CollidesInPlace | src/libtactmon/libtactmon/detail/ctre.hpp:4303-4310 | The collision test on the array, which never overflows, answers as the specification does |
| PossessiveOptimisation.OptionUnused | src/libtactmon/libtactmon/detail/ctre.hpp:4696-4700 | Without greedy repeats the option has no effect |
| PossessiveOptimisation.NeverDiverges | src/libtactmon/libtactmon/detail/ctre.hpp:4578-4724 | Evaluation ends if whatever a repeat iterates has no greedy repeat in it or cannot be empty |
| PossessiveOptimisation.IterationEnds | src/libtactmon/libtactmon/detail/ctre.hpp:4633-4644 | An iteration over such content ends, and consumes something when it matches |
| OptimiserInvisible.NoFallBack | src/libtactmon/libtactmon/detail/ctre.hpp:4696-4700 | Without collision, where one more iteration can consume something the rest of the stack consumes nothing: it matches only by ending an enclosing iteration, empty |
| OptimiserInvisible.FallBackFails | src/libtactmon/libtactmon/detail/ctre.hpp:4696-4700 | So giving iterations back does not help: if the rest fails behind all of them, it fails before any of them |
| RegexLanguage.NullableMeans | src/libtactmon/libtactmon/detail/ctre.hpp:4662-4677 | Whether content can be empty is read off its syntax: exactly if it covers an empty span of some subject |
| OptimiserInvisible.OptimiserIsInvisible | src/libtactmon/libtactmon/detail/ctre.hpp:4689-4724 | Replacing greedy by possessive repeats when the first sets do not collide changes neither the decision nor a capture, on any subject, for repeats inside repeats as well, as long as what iterates a greedy repeat cannot be empty |
| OptimiserInvisible.MatchTerminates | src/libtactmon/libtactmon/detail/ctre.hpp:5262-5267 | Matching such a pattern ends on every subject |
| RegexBoundaries.OptimiserChangesNested | src/libtactmon/libtactmon/detail/ctre.hpp:4684-4698 | Where iterated content can be empty it does change: `(?:a*)*` on the empty subject matches with the optimiser and never ends without |
| RegexBoundaries.IterationsAreFinal | src/libtactmon/libtactmon/detail/ctre.hpp:4662-4677 | A repeated choice of "a" and "ab" followed by "c" does not match "abc", which it covers: an iteration is never revised |
| RepeatFusion.FusionCovers | src/libtactmon/libtactmon/detail/ctre.hpp:2354-2360 | The merge of two adjacent greedy or lazy repeats of the same content has the concatenated language |
| RepeatFusion.FusionOfEmptyRange | src/libtactmon/libtactmon/detail/ctre.hpp:2354-2360 | For content of one character and a range whose minimum exceeds its maximum, the merge keeps the meaning exactly if the merged range is empty as well or no character is matched |
| RepeatFusion.FusionKeepsMatch | src/libtactmon/libtactmon/detail/ctre.hpp:2378-2387 | Matching cannot tell a pattern with the merged repeat from the pattern with both |
| RepeatFusion.PossessiveFusion | src/libtactmon/libtactmon/detail/ctre.hpp:2362-2364 | Two possessive loops merged in the order they stand in give the same outcome, captures included, with everything that follows |
| RegexBoundaries.SwappedFusion | src/libtactmon/libtactmon/detail/ctre.hpp:2408-2413 | For content of one character and the repeat as the whole pattern: merged in the other order, they accept the same subjects exactly under a condition on the four bounds, or if no character is matched |
| MemoryStreams.GrowableMemoryStream.Write | src/libtactmon/libtactmon/io/MemoryStream.cpp:58-68 | A write replaces what is at the cursor and grows the data by the rest; zeros fill a gap before the cursor |
| MemoryStreams.GrowableMemoryStream.ReadBytes | src/libtactmon/libtactmon/io/MemoryStream.cpp:50-56 | From a cursor that is not past the end, a read takes what is left, as many bytes as asked for at most, and advances over it |
| TypedReads.ReverseElements | src/libtactmon/libtactmon/io/IReadableStream.hpp:127-148 | The loop that reverses elements in place turns whole elements that were read into the groups reversed, and leaves the other bytes |
| TypedReads.GroupsTwice | src/libtactmon/libtactmon/io/IReadableStream.hpp:132-141 | Reversing the groups twice gives the bytes back |
| TypedReads.ReversalReadsBigEndian | src/libtactmon/libtactmon/io/IReadableStream.hpp:132-141 | A little-endian machine reads from the reversed bytes the big-endian value |
| TypedReads.ReadCString | src/libtactmon/libtactmon/io/IReadableStream.hpp:102-114 | The text up to the first zero; the loop ends exactly if a zero is ahead or nothing is |
| BlockStreamTransform.Transform.TakeHeader | src/tactmon/beast/BlockTableEncodedStreamTransform.cpp:20-38 | One turn of the loop in the header step does what the state machine does |
| BlockStreamTransform.Transform.TakeChunkHeaders | src/tactmon/beast/BlockTableEncodedStreamTransform.cpp:39-76 | One turn over the table of blocks, with the loop over its entries |
| BlockStreamTransform.Transform.TakeBlock | src/tactmon/beast/BlockTableEncodedStreamTransform.cpp:77-99 | One turn over a block: wait, check the digest, read the mode |
| BlockStreamTransform.Transform.Deliver | src/tactmon/beast/BlockTableEncodedStreamTransform.cpp:99-165 | The modes: hand on, inflate, nested stream, error |
| BlockStreamTransform.Transform.Parse | src/tactmon/beast/BlockTableEncodedStreamTransform.cpp:14-170 | A call appends and then runs the machine until it waits or fails; the loop ends for every input |
| Fragmentation.AdvanceStable | src/tactmon/beast/BlockTableEncodedStreamTransform.cpp:18-167 | What a step does with the bytes it has, it does with more bytes behind them |
| Fragmentation.RunFed | src/tactmon/beast/BlockTableEncodedStreamTransform.cpp:14-18 | Running, feeding and running again is feeding and running once |
| Fragmentation.FragmentationIndependence | src/tactmon/beast/BlockTableEncodedStreamTransform.cpp:14-170 | Fed in any fragments a body leads to the output, step and error of the body in one piece, with the guard that covers what is consumed |
| Fragmentation.PlainFragmentation | src/tactmon/beast/BlockTableEncodedStreamTransform.cpp:14-170 | In particular for every body of which no mode byte is that of a nested stream |
| Fragmentation.NoNestedRun | src/tactmon/beast/BlockTableEncodedStreamTransform.cpp:145-153 | Such a body never meets a nested stream and never reports an error while the loop goes on |
| Fragmentation.ContinuesDecoding | src/tactmon/net/Session.cpp:148-155 | Decoding one more fragment is decoding everything so far in one piece |
| Fragmentation.GuardsPart | src/tactmon/beast/BlockTableEncodedStreamTransform.cpp:80-98 | The guard as written and the covering one differ in a state exactly if one byte of the awaited block is missing |
| Fragmentation.ExposedFaults | src/tactmon/beast/BlockTableEncodedStreamTransform.cpp:80-104 | There, the source reads a byte that is not there exactly if the digest holds and the mode is known |
| Fragmentation.AsWrittenRun | src/tactmon/beast/BlockTableEncodedStreamTransform.cpp:80-104 | A call of the source ends as it should exactly if it does not end waiting in such a state |
| Fragmentation.AsWrittenFragments | src/tactmon/beast/BlockTableEncodedStreamTransform.cpp:80-104 | Over the fragments of a body it ends as it should exactly if no fragment ends in such a state |
| BlockArchive.PrefixDecodes | src/tactmon/beast/BlockTableEncodedStreamTransform.cpp:18-167 | For any table and any blocks: given the header and any of the bytes behind it, the decoder takes nothing before eight bytes more than the announced header are there; then it has handed on the contents of the complete blocks, up to the first that is not good, which stops it |
| BlockArchive.RunBlocks | src/tactmon/beast/BlockTableEncodedStreamTransform.cpp:77-167 | From any state before some blocks: where the decoder ends, block by block, and how the first block that is not good stops it |
| BlockArchive.ArchiveStops | src/tactmon/beast/BlockTableEncodedStreamTransform.cpp:83-95 | The first block whose digest is not the one the table gives ends the decoding with an error, behind the contents of the blocks before it |
| BlockArchive.ArchiveDecodes | src/tactmon/beast/BlockTableEncodedStreamTransform.cpp:41-42 | For any table, flags, filler and trailing bytes: what comes of an archive; it is decoded without error exactly if enough bytes follow, the flags are the expected ones, and there are blocks and all of them are good |
| BlockArchive.FragmentedArchiveDecodes | src/tactmon/beast/BlockTableEncodedStreamTransform.cpp:14-170 | The same however the archive is cut, if it has no nested streams |
| BlockArchive.AsWrittenOnArchive | src/tactmon/beast/BlockTableEncodedStreamTransform.cpp:80-104 | Over the fragments of any such archive or of a prefix of it, the source with its own guard ends as it should exactly if none of them ends eight bytes or more behind the header and one byte short of the end of a block, with only good blocks before |
| BlockModes.StreamByMode | src/tactmon/beast/BlockTableEncodedStreamTransform.cpp:99-165 | A block with mode byte 78 contributes its bytes as they are, one with 90 what they inflate to, one with 70 what the archive in it decodes to, in order |
| BlockModes.StreamStopsByMode | src/tactmon/beast/BlockTableEncodedStreamTransform.cpp:83-165 | The first block that cannot be handed on stops the decoder with the error for its digest, its inflating or its mode, behind the contents before it |
| BlockModes.HeaderErrors | src/tactmon/beast/BlockTableEncodedStreamTransform.cpp:20-48 | Another signature, other flags or an empty table end the decoding with their errors |
| BlockModes.SmallArchive | src/tactmon/beast/BlockTableEncodedStreamTransform.cpp:20-108 | An archive of one stored block, byte by byte, and what each of the two decoders makes of it |
| BlockModes.ArchiveIsDecodable | src/tactmon/net/Session.cpp:148-197 | An archive is a range with which no session fails exactly if its digests, without their last bytes, and its modes are right |
| Failover.Session.Feedback | src/tactmon/net/Session.cpp:151-155 | The feedback moves offset and length by the bytes read, in 64 bits |
| Failover.StaysInStep | src/tactmon/net/Session.cpp:148-155 | A fragment leaves the decoder where it would be had it been given all fragments at once |
| Failover.RequestedRest | src/tactmon/net/Session.cpp:165-166 | The next request asks for the rest of the range exactly if there is a rest or the range was unlimited |
| Failover.Session.Put | src/tactmon/net/Session.cpp:187-192 | A fragment keeps offset plus length, the received bytes as that part of the archive, and the decoder as if fed at once; it is undefined, or fails, exactly as the specification of the decoder says, and never for a range that can be decoded |
| Failover.FragmentDecodes | src/tactmon/net/Session.cpp:187-192 | If a range decodes in one piece, no fragment of it makes the decoder fail or read what is not there |
| Failover.Session.ReadBody | src/tactmon/net/Session.cpp:187-192 | So does a body |
| Failover.Session.TryCdn | src/tactmon/net/Session.cpp:157-196 | So does the answer of one server; it ends the request exactly if it is complete and the range was limited |
| Failover.Session.ProcessRequest | src/tactmon/net/Session.cpp:157-200 | Over every sequence of servers and failures all of that is kept; if one serves to the end the whole range was received once; with a limited range it is served as soon as a server that delivers everything is asked, and a request for a whole archive never is, unless it is empty. With a server that delivers everything, a limited range without nested streams is served without failure exactly if it can be decoded, and the client has its decoding |
| Failover.SessionOutput | src/tactmon/net/Session.cpp:148-197 | The client gets the decoding, in one piece, of the part of the range that was fetched |
| IndexFormat.SearchEnds | src/libtactmon/libtactmon/tact/data/Index.cpp:13-32 | The search for the footer ends exactly for files of 44 bytes or more, and then finds the largest footer with the digest |
| IndexFormat.AnswerIs | src/libtactmon/libtactmon/tact/data/Index.cpp:13-32 | What is found is a footer of twice its checksum and twelve bytes with the digest, and no longer one has it |
| IndexFormat.LayoutFits | src/libtactmon/libtactmon/tact/data/Index.cpp:55-63 | The computed number of blocks, with the table of contents, fits before the footer |
| IndexFormat.EntryFits | src/libtactmon/libtactmon/tact/data/Index.cpp:56-58 | Every entry lies inside its block |
| IndexFormat.BlockFits | src/libtactmon/libtactmon/tact/data/Index.cpp:71-79 | Every block and every block hash lie inside the file |
| IndexFormat.RecordsAre | src/libtactmon/libtactmon/tact/data/Index.cpp:71-97 | The index has the records of the entries with a key that is not all zeros, in blocks whose digest begins with their hash, and no others |
| IndexLoader.ReadNumber | src/libtactmon/libtactmon/tact/data/Index.cpp:108-114 | Shifting bytes into 64 bits gives the big-endian value modulo 2 to the 64 |
| IndexLoader.FindFooter | src/libtactmon/libtactmon/tact/data/Index.cpp:13-32 | The loop finds that footer, or repeats a turn that changes nothing |
| IndexLoader.ArchiveIndex.LoadBlocks | src/libtactmon/libtactmon/tact/data/Index.cpp:71-97 | The nested loops with their seeks fill the key buffer and the entries with exactly the records of the file |
| IndexLoader.ArchiveIndex.Load | src/libtactmon/libtactmon/tact/data/Index.cpp:7-100 | The constructor: it loops for ever, gives up, divides by zero or loads, as the file says |
| IndexLoader.KeyAt | src/libtactmon/libtactmon/tact/data/Index.cpp:117-119 | Keys lie one behind the other: offset and length give each key back |
| IndexLoader.ArchiveIndex.Find | src/libtactmon/libtactmon/tact/data/Index.cpp:121-130 | The entry found is the first with the key; none is found exactly if no record has it |
| IndexRoundTrip.EntryReadsBack | src/libtactmon/libtactmon/tact/data/Index.cpp:102-115 | An entry that is written is read back: key, size and offset |
| IndexRoundTrip.BlockReadsBack | src/libtactmon/libtactmon/tact/data/Index.cpp:82-96 | So are the entries of a block, with unused ones left out |
| IndexRoundTrip.FileLayout | src/libtactmon/libtactmon/tact/data/Index.cpp:54-63 | The number of blocks computed for a written file is the number of its blocks |
| IndexRoundTrip.FileReadsBack | src/libtactmon/libtactmon/tact/data/Index.cpp:7-100 | Reading a written file gives every record back in order if it has 44 bytes or more, and does not end otherwise |
| IndexRoundTrip.DamagedFileReadsBack | src/libtactmon/libtactmon/tact/data/Index.cpp:71-97 | If other bytes stand where some blocks were written, with other digests, the file is read as the records of the other blocks in order |
| IndexRoundTrip.WhenLongEnough | src/libtactmon/libtactmon/tact/data/Index.cpp:13-19 | With a block a file is long enough; an index without blocks is so only with full checksums |
| EncodingLoader.ReadUInt40 | src/libtactmon/libtactmon/tact/data/Encoding.cpp:10-18 | The five-byte size, or nothing defined when fewer bytes are left |
| EncodingLoader.TakeHeader | src/libtactmon/libtactmon/tact/data/Encoding.cpp:20-35 | The header fields, all zero when the header does not fit |
| EncodingLoader.TakeEntry | src/libtactmon/libtactmon/tact/data/Encoding.cpp:37-49 | An entry of varying length, with zeros for the bytes that are missing |
| EncodingLoader.TakePage | src/libtactmon/libtactmon/tact/data/Encoding.hpp:56-81 | A page is read up to padding or its end, and the cursor comes back behind the entry of the table |
| EncodingLoader.Encoding.Load | src/libtactmon/libtactmon/tact/data/Encoding.cpp:126-142 | The manifest is the header and its pages, each read where it is |
| EncodingLoader.Encoding.Count | src/libtactmon/libtactmon/tact/data/Encoding.cpp:159-164 | The count is the sum over the pages |
| EncodingLoader.Encoding.FindFile | src/libtactmon/libtactmon/tact/data/Encoding.cpp:170-181 | The first entry for a content key in page order, with its size and all its encoding keys; nothing exactly if there is none |
| EncodingFormat.PresentHasKeys | src/libtactmon/libtactmon/tact/data/Encoding.hpp:70-76 | An entry that is kept was not read at the end of the stream, so the loop over a page ends |
| EncodingRoundTrip.EntryReadsBack | src/libtactmon/libtactmon/tact/data/Encoding.cpp:37-49 | A written entry is read back and is where the next one starts |
| EncodingRoundTrip.PageReadsBack | src/libtactmon/libtactmon/tact/data/Encoding.hpp:70-79 | So is a page: all entries in order, padding left out |
| EncodingRoundTrip.ShorterKeysAreMisread | src/libtactmon/libtactmon/tact/data/Encoding.cpp:132-138 | When encoding keys are shorter than content keys and zeros stand before the pages, a written manifest is read back exactly if no page has an entry |
| EncodingRoundTrip.MisreadUnless | src/libtactmon/libtactmon/tact/data/Encoding.cpp:132-138 | In particular a manifest is misread unless the byte where its first page is looked for is the count of keys of the first entry of that page |
| EncodingRoundTrip.PageIsRead | src/libtactmon/libtactmon/tact/data/Encoding.hpp:70-79 | For any bytes: a page is read as given entries exactly if, up to its end, they stand there one behind the other and no other entry that is kept follows |
| EncodingRoundTrip.ManifestIsRead | src/libtactmon/libtactmon/tact/data/Encoding.cpp:126-142 | Whatever the key sizes, the table and what follows: a written manifest is read back exactly if the entries of every page stand where the source looks for that page and no other entry follows them |
| EncodingRoundTrip.SignatureDecides | src/libtactmon/libtactmon/tact/data/Encoding.cpp:126-130 | With fewer than 22 bytes or another signature than 45 4E there are no pages |
| EncodingRoundTrip.TotalIsCount | src/libtactmon/libtactmon/tact/data/Encoding.cpp:159-164 | Counting page by page counts all entries |
| EncodingRoundTrip.FileReadsBack | src/libtactmon/libtactmon/tact/data/Encoding.cpp:126-142 | With equal key sizes, or without pages, a written manifest is read back, header and every page |
| BatchLoader.TakeTable | src/libtactmon/libtactmon/tact/BLTE.cpp:47-61 | The table is read, and each offset is the header size plus the sizes before it |
| BatchLoader.Blte.Load | src/libtactmon/libtactmon/tact/BLTE.cpp:95-161 | A chunk is appended decoded, refused, or its missing first byte is read |
| BatchLoader.Blte.LoadAll | src/libtactmon/libtactmon/tact/BLTE.cpp:72-81 | The loop leaves the contents of the chunks in order |
| BatchLoader.ParseArchive | src/libtactmon/libtactmon/tact/BLTE.cpp:30-91 | The whole of it, with either key, decides as specified |
| BatchFormat.ChunkAccepted | src/libtactmon/libtactmon/tact/BLTE.cpp:95-161 | A chunk is accepted exactly if it is in bounds, has its digest and decodes |
| BatchFormat.AcceptedIsSound | src/libtactmon/libtactmon/tact/BLTE.cpp:72-81 | If an archive is accepted all its chunks are so, at their offsets, and the output is their contents in order |
| BatchFormat.AcceptedWhen | src/libtactmon/libtactmon/tact/BLTE.cpp:66-90 | An archive is accepted with an output exactly if the keys hold and sound chunks make up the output |
| BatchFormat.EmptyChunk | src/libtactmon/libtactmon/tact/BLTE.cpp:96-107 | The first byte of an empty chunk is read exactly if the digest of nothing is the one in the table |
| BlockModes.BatchByMode | src/libtactmon/libtactmon/tact/BLTE.cpp:95-151 | An archive is accepted exactly if every block has its digest and the mode byte 78, or 90 and inflates; the output is what they stand for, in order |
| BlockModes.OtherSignature | src/libtactmon/libtactmon/tact/BLTE.cpp:31-40 | Data that begin with another signature are rejected |
| BatchRoundTrip.HeadReadsBack | src/libtactmon/libtactmon/tact/BLTE.cpp:31-61 | The table of a written archive is read back |
| BatchRoundTrip.ArchiveReadsBack | src/libtactmon/libtactmon/tact/BLTE.cpp:30-91 | A written archive decodes to its contents exactly if the keys asked for are its keys, and is refused otherwise |
| BatchRoundTrip.PlainContents | src/libtactmon/libtactmon/tact/BLTE.cpp:108-112 | Payloads stored as they are come back |
| BatchRoundTrip.DeflatedContents | src/libtactmon/libtactmon/tact/BLTE.cpp:113-151 | So do deflated ones, when inflating undoes deflating |
| BatchRoundTrip.IncrementalDecodesWhen | src/tactmon/beast/BlockTableEncodedStreamTransform.cpp:39-95 | The incremental decoder decodes an archive of the batch decoder, without filler, exactly if the flags are the expected ones and there are blocks and leaving out its last byte changes the digest of none; with fewer than eight bytes behind the header it hands on nothing |
| BatchRoundTrip.IncrementalDecodesFilled | src/tactmon/beast/BlockTableEncodedStreamTransform.cpp:39-95 | With filler it decodes it exactly if, besides, the bytes that follow the table, filler included, are good blocks with the same contents |
| BatchRoundTrip.IncrementalDecoderGivesUp | src/tactmon/beast/BlockTableEncodedStreamTransform.cpp:83-95 | The first block whose digest changes when its last byte is left out stops the incremental decoder with an error, behind the contents of the blocks before it, while the batch decoder accepts the archive |
| Lookup3.MixReversible | src/libtactmon/libtactmon/crypto/lookup3.hpp:116-124 | `mix` has an inverse |
| Lookup3.FinalReversible | src/libtactmon/libtactmon/crypto/lookup3.hpp:151-160 | `final` has an inverse |
| Lookup3.DigestReversible | src/libtactmon/libtactmon/crypto/lookup3.hpp:284-452 | For a key of any length the map from the first state to the last is a permutation |
| Lookup3.SecondarySeedZero | src/libtactmon/libtactmon/crypto/lookup3.hpp:454-463 | With a secondary seed of zero the primary hash of `hashlittle2` is `hashlittle` |
| Lookup3Vectors.FourScore | src/libtactmon/libtactmon/crypto/lookup3.hpp:284-638 | The hash of "Four score and seven years ago" is the pair that its author publishes |
| Lookup3Vectors.EmptyKey | src/libtactmon/libtactmon/crypto/lookup3.hpp:287-292 | An empty key hashes to the seed plus the initial value, in 32 bits |
| Words.RotIsTwoShifts | src/libtactmon/libtactmon/crypto/lookup3.hpp:70 | Rotation is the two shifts of the macro |
| Lookup3Paths.WordByMask | src/libtactmon/libtactmon/crypto/lookup3.hpp:319-334 | What a mask leaves of the last word is the word as if zeros followed, for both byte orders |
| Lookup3Paths.HashByWords | src/libtactmon/libtactmon/crypto/lookup3.hpp:293-334 | Reading words computes the hash, whatever lies behind the key |
| Lookup3Paths.HashByHalves | src/libtactmon/libtactmon/crypto/lookup3.hpp:359-405 | So does reading half words |
| Lookup3Paths.HashByBytes | src/libtactmon/libtactmon/crypto/lookup3.hpp:407-451 | So does reading bytes |
| Lookup3Paths.HashLittle2At | src/libtactmon/libtactmon/crypto/lookup3.hpp:465-638 | `hashlittle2` gives the same pair for every address of the key and every machine |
| Lookup3Paths.HashLittleAt | src/libtactmon/libtactmon/crypto/lookup3.hpp:284-452 | So does `hashlittle` |
| Lookup3Paths.HashBigAt | src/libtactmon/libtactmon/crypto/lookup3.hpp:648-768 | So does `hashbig` |
| Lookup3Paths.HashWord | src/libtactmon/libtactmon/crypto/lookup3.hpp:175-208 | `hashword` is `hashlittle` on the little-endian bytes of the words and `hashbig` on the big-endian ones |
| SqlNumbering.RenderIsSpelling | src/tactmon/backend/db/orm/detail/VariadicRenderable.hpp:19-40 | Rendering any component appends its pieces to the text in order, numbering new placeholders from the counter, and advances the counter by their number; it does not compile exactly if one refers to a parameter that is not earlier |
| SqlNumbering.ListIsSpelled | src/tactmon/backend/db/orm/detail/VariadicRenderable.hpp:26-40 | So does a list with its separators |
| SqlNumbering.OperandIsSpelled | src/tactmon/backend/db/orm/Shared.hpp:77-110 | So do parameters and bound parameters |
| SqlNumbering.CounterInStep | src/tactmon/backend/db/orm/Shared.hpp:28-203 | For every component the number of new placeholders is the length of the parameter list plus those the list leaves out; with none left out the types agree one by one |
| SqlLexing.DigitsReadBack | src/tactmon/backend/db/orm/Shared.hpp:16-20 | The digits of a number read back as the number |
| SqlLexing.PlaceholdersMatchParameters | src/tactmon/backend/db/orm/Query.hpp:20-22 | In the text of a query the placeholders come in the order 1, 2, 3, as many as there are parameters, the k-th where the k-th type belongs; any other refers back |
| SqlLexing.UndeclaredIsOutOfStep | src/tactmon/backend/db/orm/insert/Query.hpp:69-81 | The largest placeholder is the number of parameters exactly if none stands in a conflict target or another place the list leaves out |
| SqlLexing.BoundParameterIsEarlier | src/tactmon/backend/db/orm/Shared.hpp:97-110 | A bound parameter compiles exactly if it is smaller than the counter; index zero leaves a dollar sign without number |
| SqlLexing.NeatIsSeparated | src/tactmon/backend/db/orm/Selectors.hpp:29-160 | In a neat component, whose texts have no dollar sign and keep digits away from placeholders, they can be told apart in the text |
| SqlLexing.TextReadsBack | src/tactmon/backend/db/orm/Query.hpp:20-22 | The numbers read back from the text are those of the pieces, new ones in the order 1, 2, 3, whether or not the list leaves some out |
| SqlMapper.FreeIsNeat | src/tactmon/backend/db/orm/Selectors.hpp:29-160 | Every component built of the classes of the mapper, to any depth, is neat if no name in it has a dollar sign |
| SqlMapper.QueriesMatchParameters | src/tactmon/backend/db/orm/Query.hpp:20-22 | So for every query built of these classes with such names: its placeholders are numbered 1, 2, 3, as many as its parameters exactly if the list leaves none out, and then type by type |
| SqlQueries.TypesAreWritten | src/tactmon/backend/db/orm/Shared.hpp:77-95 | The parameter list of any query has one type for each new parameter, in order: the one written in the column that it is compared with or stored in, or the declared result of a function |
| SqlQueries.PlaceholdersHaveWrittenTypes | src/tactmon/backend/db/orm/Shared.hpp:77-95 | So the k-th placeholder in the text stands for a value of the type written in the k-th column that is asked for |
| SqlQueries.QueryText | src/tactmon/backend/db/orm/Query.hpp:20-22 | Every query has the text that its classes spell out, to any depth, with each placeholder numbered by those before it |
| ConnectionPool.RunsKeep | src/tactmon/backend/ConnectionPool.cpp:26-44 | In every interleaving each connection is free or held by one call, and while anyone sleeps no more connections are free than notifications and woken calls are under way |
| ConnectionPool.StepKeeps | src/tactmon/backend/ConnectionPool.cpp:26-44 | Every step keeps this |
| ConnectionPool.HoldersAndFree | src/tactmon/backend/ConnectionPool.cpp:15-17 | Free and held connections are ten together |
| ConnectionPool.SleepersAreServed | src/tactmon/backend/ConnectionPool.cpp:29-43 | From every reachable state, finishing what has begun leads in a bounded number of steps to one where nobody sleeps while a connection is free |
| ConnectionPool.FinishingEnds | src/tactmon/backend/ConnectionPool.cpp:29-43 | Each finishing step brings that nearer |
| ConnectionPool.Pool.TryTake | src/tactmon/backend/ConnectionPool.cpp:26-36 | The body of the waiting loop takes the front connection or goes to sleep, as a step of the protocol |
| ConnectionPool.Pool.Return | src/tactmon/backend/ConnectionPool.cpp:38-44 | Returning puts the connection at the back, as a step of the protocol |
| ConnectionPool.Pool.NotifyOne | src/tactmon/backend/ConnectionPool.cpp:42-43 | The notification wakes one sleeper, or nobody when there is none, as a step of the protocol |
| ConnectionPool.PrepareNeedsAll | src/tactmon/backend/ConnectionPool.cpp:20-24 | Preparing over ten connections finds them in the deque exactly while none is out |
| RibbitMonitor.MaximaIncrease | src/tactmon/backend/RibbitMonitor.cpp:52-57 | Notified numbers increase strictly and start above what was stored |
| RibbitMonitor.LargestIs | src/tactmon/backend/RibbitMonitor.cpp:43-57 | What is stored is the largest of what was stored and what came |
| RibbitMonitor.MaximaAre | src/tactmon/backend/RibbitMonitor.cpp:43-57 | A number is notified once if it exceeds what was stored and everything before it, and not otherwise |
| RibbitMonitor.IdsAre | src/tactmon/backend/RibbitMonitor.cpp:39-50 | The numbers that count for a product are those of its records without flags |
| RibbitMonitor.FollowsConcat | src/tactmon/backend/RibbitMonitor.cpp:39-59 | One summary after another behaves as all their records at once |
| RibbitMonitor.Monitor.OnRecord | src/tactmon/backend/RibbitMonitor.cpp:39-58 | A record is passed over, or stored and notified, and keeps all of that for every product |
| RibbitMonitor.Monitor.OnUpdate | src/tactmon/backend/RibbitMonitor.cpp:31-60 | So does a tick |
| RibbitMonitor.Monitor.NotifyProductUpdate | src/tactmon/backend/RibbitMonitor.cpp:66-69 | Every listener is called once |
| RibbitMonitor.Watch | src/tactmon/backend/RibbitMonitor.cpp:17-60 | Over any run every listener hears, product by product, exactly the new largest unflagged numbers, and the largest is stored |
| TupleLayout.SortPermutes | src/tactmon/utility/Tuple.hpp:93-99 | Sorting the types permutes them |
| TupleLayout.SortSorts | src/tactmon/utility/Tuple.hpp:80-81 | It puts larger alignments first |
| TupleLayout.LayoutOrder | src/tactmon/utility/Tuple.hpp:80-99 | Of elements aligned alike the one declared last comes first in the storage |
| TupleLayout.PlaceOf | src/tactmon/utility/Tuple.hpp:115-136 | Every declared element has exactly one place in the storage |
| TupleLayout.ReorderingIsInvisible | src/tactmon/utility/Tuple.hpp:150-180 | `get<I>` gives the I-th constructor argument and `tuple_element<I>` the I-th type |
| TupleLayout.LayoutHasNoPadding | src/tactmon/utility/Tuple.hpp:93-99 | Sorted storage has no padding between members |
| TupleConcatenation.IndexGen | src/tactmon/utility/Tuple.hpp:355-375 | The nested loops fill the two tables with the pairs in order |
| TupleConcatenation.PairsEnumerate | src/tactmon/utility/Tuple.hpp:355-375 | The pairs enumerate the concatenation |
| TupleConcatenation.TupleCat | src/tactmon/utility/Tuple.hpp:377-406 | The concatenated tuple has the types and values of the tuples in order |
| Tokenizer.TokenizeString | src/libtactmon/libtactmon/detail/Tokenizer.hpp:10-36 | The loop over a string delimiter computes the split; it does not end exactly for an empty delimiter and a text that is not empty |
| Tokenizer.TokenizeChar | src/libtactmon/libtactmon/detail/Tokenizer.hpp:74-100 | So does the loop over one character |
| Tokenizer.TokenizeAny | src/libtactmon/libtactmon/detail/Tokenizer.hpp:102-132 | So does the loop over several characters, with the loop that finds the earliest |
| Tokenizer.JoinedTokens | src/libtactmon/libtactmon/detail/Tokenizer.hpp:18-33 | Joining the tokens with the delimiter gives the text back, up to one delimiter at its end |
| Tokenizer.TokensAreFree | src/libtactmon/libtactmon/detail/Tokenizer.hpp:18-33 | No token contains the delimiter |
| Tokenizer.RemovingIsFiltering | src/libtactmon/libtactmon/detail/Tokenizer.hpp:27-29 | Removing empty tokens is filtering the tokens |
| Tokenizer.AnyTokensAreFree | src/libtactmon/libtactmon/detail/Tokenizer.hpp:110-129 | The same two for delimiter characters |
| Tokenizer.CharacterTokensJoin | src/libtactmon/libtactmon/detail/Tokenizer.hpp:82-97 | Joining what splitting at a character gives is the text, without its last character exactly if that is the delimiter |
| Tokenizer.TokenizingUndoesJoining | src/libtactmon/libtactmon/detail/Tokenizer.hpp:82-97 | Splitting joined parts gives them back exactly if there are none or the last is not empty |

## Left out

- Fragmentation.FragmentationIndependence: asks that the header announces room for its own table and that no nested stream reports an error, because the source looks at the error of a nested stream only after the next block, and reads partial integers from a shorter table.
- BlockArchive.FragmentedArchiveDecodes: no block is a nested stream, because the source looks at the error of one only after the next block; in one piece, nested streams are included.
- BlockArchive.AsWrittenOnArchive: no block is a nested stream, and the flags are the expected ones; with others both guards stop at the table.
- BlockArchive.PrefixDecodes: after a nested stream that fails it says only that the decoding does not end without error.
- BlockModes.StreamStopsByMode: the block that stops the decoder is not a nested stream, because the source looks at the error of one only after the next block.
- Failover.Session.ProcessRequest: uses the covering guard, takes a server to be a function of the requested range that delivers a prefix of it in fragments or fails, and does not model servers that answer with an error page as a body.
- RegexExactness.MatchIsExact: repeats are over content of one fixed positive width, because an iteration is never revised and lists of other widths fail (`IterationsAreFinal`); possessive repeats are included; captures are covered by MatchIsSound for every plain pattern.
- OptimiserInvisible.OptimiserIsInvisible: a greedy repeat stands inside a repeat only if what that one iterates cannot be empty, because otherwise it fails (`OptimiserChangesNested`).
- FirstExactness.OptimisesWhen: no assertions, no negative sets and nothing that matches nowhere; first sets that contain them are covered in one direction, because what follows an assertion counts and unordered negative sets give too much.
- RepeatFusion.FusionOfEmptyRange: content of one character, because content with assertions can cover something only at some places of a subject; the merge within the bounds is proved for any content.
- RegexBoundaries.SwappedFusion: content of one character and nothing around the repeat, because what follows can reject all the subjects on which the orders differ.
- MemoryStreams.GrowableMemoryStream.ReadBytes: does not model a read cursor that was skipped past the end, where the source's subtraction wraps.
- TypedReads.ReverseElements: does not model a read that is cut inside an element, where the source's loop runs past the end of what was read; the formats call such a number undefined.
- IndexRoundTrip.FileReadsBack: the written footer is taken to be the longest with its digest, which a collision of MD5 could spoil.
- EncodingRoundTrip.FileReadsBack: the two key sizes agree or there is no page, because otherwise the pages are not found.
- TupleLayout.LayoutHasNoPadding: alignments divide one another and sizes are multiples of alignments, as in C++; empty members that share an address are not modelled.
- In the matcher: the grammar of patterns, Unicode properties, UTF-8, case-insensitive and multi-line modes, boundaries, lookaround, back-references, and the search that is not anchored.
- MD5 and inflate are parameters; inflating hands its output on in one piece.
- The incremental decoder updates a digest of the header that is never compared; it is not modelled.
- The header digest of the batch decoder is an abstract function of the header fields.
- The request header for a range lacks the unit that section 14.2 of RFC 9110 asks for; servers are taken to understand it.
- `SpanStream` and `MemoryStream`, whose reads do not copy from the cursor, and file mapping.
- Names of archives as hexadecimal text: the index takes the bytes.
- The second table of an encoding manifest and its strings, which the source skips, and the debug assertion on the unknown header byte.
- In the hash: the variants for memory checkers, `hashword2`, and the normalisation of paths.
- In the renderer: `DISTINCT ON`, raw numbers and components without parameter list, which do not compile inside queries; whether the text is valid SQL (`DELETE FROM` lacks a space, `Constant<0>` is empty); prepared statements and result conversion.
- Value types: a component without one has an empty name here and does not compile as the left side of a parameter in the source.
- `mp_sort` belongs to Boost; it is modelled as the partition around the first element that its sources describe.
- Swapping and assigning tuples, access by type.
- The overload of the tokenizer for several strings, which keeps the address of a loop variable.
- The timer, the network and the Ribbit protocol around the monitor; writes to its database succeed.
- Fairness of the mutex and of the scheduler around the pool, connecting, and reconnecting.
- The Discord commands, the caches of products, the thread pool, logging, configuration files, install manifests, and the vendored assertion library.
