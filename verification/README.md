# bzip2, SFMT, gSOAP's id resolver and Lua's references: models and proofs

The first and largest part models the vendored libbzip2 1.0.6 (`dep/bzip2`), a complete lossless compressor. Every stage is
given twice: as a plain function on sequences that says what it means, and in the form of the C code, with arrays, loops,
explicit stacks and objects that are updated in place, proved against that function. The stages are then composed:

- **Block sorting.** Rotations and their order (`Rotations`, `RotOrder`); the fallback sort by prefix doubling (`Refinement`,
  `BitTable`, `FallbackQSort`, `FallbackSort`); the main sort with its radix step, quicksort, two-ended copy scan and quadrant
  cache (`SmallBuckets`, `MainRadix`, `MainCompare`, `MainSimpleSort`, `MainQSort`, `CopyScan`, `QuadrantCache`,
  `RunningOrder`, `MainSort`); both quicksorts share `ThreeWay` and `QSortStack`. "Sorted" means non-descending: the order of
  equal rotations is free, and only the last column is unique.
- **Coding.** Move-to-front with run coding (`Mtf`, `GenerateMtf`, `SlidingMtf`, `SymbolMaps`), code lengths (`HuffmanHeap`,
  `HuffmanTree`, `HuffmanLengths`), canonical codes and their decoding tables (`CanonicalCode`), the choice of tables
  (`TableChoice`, `Selectors`), the bit buffers (`BitIO`, `BitSource`), the layout of a block (`BlockFormat`, `BlockLayout`)
  and its writer (`SendMtf`).
- **The compressor.** `RunLength`, `Gatherer`, `BlockSort`, `Compressor` and the state machine `Encoder`.
- **The decompressor.** `Coroutine` is the block decoder as a function from one bit request to the next. `BlockReader` is
  the same decoder as in the C code: it works on arrays, loses its local variables whenever it runs out of input, and
  restores them from a save area. `InverseBwt`, `Unsort` and `SmallVector` undo the block sort in the fast and the small
  form, `OutputStage` undoes the run-length coding, and `Decompressor` puts it together.
- **The whole way.** `Stream` and `RoundTrip`: what the compressor hands out decompresses to its input.

Three smaller parts model the SFMT random number generator (`Sfmt`), the resolver for ids and hrefs in gSOAP (`IdTable`,
`Resolver`, and whole runs of it in `ResolverRun`) and Lua's references (`RefList`).

Where the code and its documentation disagree, the model follows the code. Some properties one might expect do not hold, and
the model says exactly when they do:

- `URandom(min, max)` reaches every value from `min` to `max` if and only if the range is not the whole of 32 bits; there the
  length of the interval wraps to 0 and only `min` comes out (`Sfmt.ScaledRange`). Otherwise each value stands for 2^32 / n of
  the 32-bit words, rounded down or up, and all for equally many if and only if n divides 2^32 (`Sfmt.ScaledShares`).
- A successful `soap_resolve` makes every copy that was asked for if and only if the objects and the places were not nested in a circle when
  it was called: some order of the ids goes down from the id of an object to the id of each place inside it
  (`Resolver.Soap.Resolve`; over whole runs `ResolverRun.RunAll`). An element with an id and an href to that same id is such a
  circle (`ResolverRun.CircleWitness`).
- In gSOAP an id keeps the type it was first mentioned with. References that come after the definition are checked against the
  definition's type if and only if the first mention had that type (`ResolverRun.CheckedAgainstDefinition`); a definition with
  another type is accepted if and only if no place waits for a copy (`ResolverRun.DefinedWithAnotherType`). A slot of type 1, a
  definition of type 2 and then a slot of type 2 is refused (`ResolverRun.TypeWitness`).
- Releasing a number that is not negative in Lua keeps a table that live references and a free list explain if and only if the
  number is a live reference or the key right after all that have been used (`RefList.ReleaseExact`). A second release in a row
  makes the free list lead from the key to itself (`RefList.ReleasedTwice`).

## Model

| member | source | states |
|---|---|---|
| Rotations.LastColumnUnique | dep/bzip2/blocksort.c:1018-1030 | any two sorted listings of a block's rotations, periodic blocks included, have the same last column, so the symbols that are coded do not depend on the sorter; origPtr, the row of the block itself, may still differ where rotations are equal |
| Rotations.SortedBeyond | dep/bzip2/blocksort.c:311-313 | rotations in order on more bytes than the block has are in order on any number of bytes |
| RotOrder.LeqAfter | dep/bzip2/blocksort.c:347-469 | rotations that agree on h bytes compare as the rotations h positions on do |
| Radix.DropStep | dep/bzip2/blocksort.c:236-241 | dropping a position at its bucket's decremented pointer keeps every bucket filled from the top, no entry overwritten |
| Radix.PointersEnd | dep/bzip2/blocksort.c:234-245 | after all drops each pointer stands at the start of its bucket, which is what later steps take it for |
| FallbackSort.Sort | dep/bzip2/blocksort.c:212-329 | for every non-empty block of up to 900000 bytes, fmap is a permutation that lists all rotations in non-descending order, the H loop ends, and the block is rebuilt unchanged |
| FallbackSort.RefineBuckets | dep/bzip2/blocksort.c:273-306 | one pass turns buckets sorted on H bytes into buckets sorted on 2H, keeps the sentinels, and reports 0 not done only if every bucket is a single one |
| FallbackSort.Classify | dep/bzip2/blocksort.c:266-271 | the equivalence classes compare as the rotations do on H bytes |
| FallbackSort.ScanHeaders | dep/bzip2/blocksort.c:299-304 | within a sorted bucket, headers are set exactly where the class changes |
| FallbackSort.Reconstruct | dep/bzip2/blocksort.c:315-328 | the sorted bytes written back to their positions give the original block |
| Refinement.ClassesDouble | dep/bzip2/blocksort.c:266-271 | among rotations equal on H bytes, the class at offset H decides their order on 2H bytes, and no order settled before is undone |
| Refinement.BucketDone | dep/bzip2/blocksort.c:294-305 | sorting one bucket by class and setting its headers leaves everything up to its end refined |
| Refinement.DepthSuffices | dep/bzip2/blocksort.c:311-313 | buckets sorted on more bytes than the block has, or single buckets, are sorted rotations |
| BitTable.BhTab.Skip | dep/bzip2/blocksort.c:277-292 | the scan by bits, then by whole words, then by bits stops at the first flag that differs, given one that differs ahead |
| FallbackQSort.QSort3 | dep/bzip2/blocksort.c:93-180 | the range is permuted into ascending order of class, the loop ends, and the stack of 100 is never full (assertion 1004), for up to 900000 entries |
| FallbackQSort.SimpleSort | dep/bzip2/blocksort.c:32-59 | the two insertion passes, gap 4 and gap 1, sort the range by class and touch nothing outside |
| ThreeWay.Partition | dep/bzip2/blocksort.c:128-170 | the range is permuted into smaller, equal and larger keys, at the returned borders |
| QSortStack.Settle | dep/bzip2/blocksort.c:102-180 | replacing the top range by pieces keeps: every pair of entries is in order or lies together in a range still to be sorted |
| QSortStack.DepthBound | dep/bzip2/blocksort.c:64-84 | a range that has been passed over i times by smaller ones is at least (3/2)^i times smaller than the start, so fewer than 30 are stacked |
| MainRadix.ListPairs | dep/bzip2/blocksort.c:769-830 | block and quadrant are extended, ptr lists the positions by their first two bytes, and each ftab entry is the start of its small bucket |
| MainCompare.MainGtU | dep/bzip2/blocksort.c:347-469 | the comparison, by bytes, then by bytes and quadrants in rounds of eight, agrees with the order of rotations as long as the quadrants mean what they should, ends, and reads no cell beyond the overshoot area |
| MainSimpleSort.SimpleSort | dep/bzip2/blocksort.c:485-555 | the shell sort permutes its range and, if the budget lasts, leaves it sorted; a call cut short still leaves a permutation |
| MainQSort.SortThree | dep/bzip2/blocksort.c:699-715 | of the three pieces the largest is pushed first, each piece kept |
| MainQSort.QSort3 | dep/bzip2/blocksort.c:621-717 | the range is permuted and, if the budget lasts, sorted; the stack of 100 is never full (assertion 1001), and no range with a depth over 15 is compared |
| RunningOrder.Order | dep/bzip2/blocksort.c:832-860 | the shell sort lists all 256 big buckets once each, from the smallest to the largest |
| CopyScan.PredsSorted | dep/bzip2/blocksort.c:923-934 | stepping back one byte from sorted rotations lists those with the same preceding byte in sorted order |
| CopyScan.FillSlot | dep/bzip2/blocksort.c:923-934 | every entry the two scans write falls into a free slot of its unfinished small bucket and leaves the entries known to be right alone |
| CopyScan.MissingNext | dep/bzip2/blocksort.c:937-944 | if a rotation that begins with ss twice were still missing when the scans meet, the next position would be missing too, round the whole block |
| CopyScan.CopyEnds | dep/bzip2/blocksort.c:918-944 | assertion 1007 always holds: the scans meet, or the block is one byte repeated; and every unfinished small bucket [t,ss] is then full and sorted, finished ones untouched |
| MainSort.CopyStep | dep/bzip2/blocksort.c:918-944 | the two loops over copyStart and copyEnd perform that scan on the arrays |
| QuadrantCache.RankedQuadrants | dep/bzip2/blocksort.c:964-1002 | ranks in a sorted big bucket, shifted down to 16 bits, keep the quadrants' meaning: a smaller quadrant is a smaller rotation |
| QuadrantCache.CacheOrder | dep/bzip2/blocksort.c:989-1004 | the loop that stores the ranks keeps that meaning for all positions and the overshoot; each rank fits 16 bits (assertion 1002) |
| MainSort.FinishBig | dep/bzip2/blocksort.c:868-1004 | one round, with budget left, leaves every small bucket with a marked table entry sorted, the big bucket ss and all [t,ss] among them, and the quadrants right |
| MainSort.Sort | dep/bzip2/blocksort.c:751-1011 | if it ends with budget left, ptr is a permutation that lists all rotations in non-descending order; the block is unchanged in any case; assertion 1006 holds |
| BlockSort.SortBlock | dep/bzip2/blocksort.c:1031-1089 | with either sorter and any work factor, ptr lists the rotations in order, the block is unchanged, and origPtr is the row of the block itself (assertion 1003) |
| RunLength.DecodeUndoesEncode | dep/bzip2/bzlib.c:216-247 | decoding the stored form of any sequence of runs of up to 255 that differ from their neighbours gives back the bytes they stand for |
| Gatherer.RunBuffer.AddPairToBlock | dep/bzip2/bzlib.c:216-247 | the pending run is stored, at most five bytes, with the checksum and the inUse flags to match |
| Gatherer.RunBuffer.AddChar | dep/bzip2/bzlib.c:260-284 | a byte joins the pending run or starts another; block and pending run together stand for all bytes taken, in order |
| Gatherer.RunBuffer.FlushRL | dep/bzip2/bzlib.c:252-256 | flushing moves the pending run into the block and loses nothing |
| Crc.FoldAppend | dep/bzip2/bzlib_private.h:157-172 | the checksum of a text is that of its parts one after the other, whatever the table |
| SymbolMaps.MakeMapsE | dep/bzip2/compress.c:106-115 | the bytes in use are numbered in ascending order |
| SymbolMaps.MakeMapsD | dep/bzip2/decompress.c:27-36 | the decoder lists the same bytes in the same order |
| SymbolMaps.NumberedBack | dep/bzip2/compress.c:106-115 | the decoder's map undoes the encoder's |
| GenerateMtf.GenerateMTFValues | dep/bzip2/compress.c:120-231 | the symbols written over the pointers, two to a word, are the move-to-front coding of the last column with its runs and end mark; no pointer is overwritten before it is read; mtfFreq counts the symbols |
| Mtf.DecodeUndoesEncode | dep/bzip2/decompress.c:375-486 | accepting the symbols of any column gives back exactly that column within the block and run limits |
| Mtf.RunWritten | dep/bzip2/compress.c:174-188 | a run of z written in bijective base 2 is read as z copies of the byte at the front, and never trips the limit on N |
| SlidingMtf.SlidingList.Init | dep/bzip2/decompress.c:358-370 | at first the list holds 0 to 255 in order |
| SlidingMtf.SlidingList.Take | dep/bzip2/decompress.c:423-475 | taking entry nn from the 16 sliding groups, the repacking included, gives the entry and moves it to the front of the list they stand for |
| SlidingMtf.GroupsApart | dep/bzip2/decompress.c:423-475 | the groups never overlap |
| HuffmanHeap.UpHeap | dep/bzip2/huffman.c:33-42 | an entry put at the end rises until the heap is in order again, under the sentinel |
| HuffmanHeap.DownHeap | dep/bzip2/huffman.c:44-59 | an entry put at the root sinks until the heap is in order again |
| HuffmanTree.MergeKeeps | dep/bzip2/huffman.c:100-110 | merging two least roots keeps the forest balanced: a tree of height h weighs at least the Fibonacci-like bound for h |
| HuffmanTree.LeavesFill | dep/bzip2/huffman.c:114-121 | the depths of a full tree's leaves fill the code space: their Kraft sum is exactly 1 |
| HuffmanLengths.AddWeightsPacks | dep/bzip2/huffman.c:25-31 | adding packed words adds the weights and takes one more than the greater depth, without a carry between the parts |
| HuffmanLengths.ScalingProgress | dep/bzip2/huffman.c:142-146 | when a code is too long, halving the weights makes their sum smaller, so the outer loop ends |
| HuffmanLengths.MakeCodeLengths | dep/bzip2/huffman.c:63-148 | for frequencies whose sum fits the packed words and 12 <= maxLen <= 20, the loop ends with lengths in 1..maxLen whose Kraft sum is exactly 1; with maxLen 17 they pass assertions 3004 and 3005 |
| CanonicalCode.AssignCodes | dep/bzip2/huffman.c:152-166 | code s is the canonical code of symbol s |
| CanonicalCode.PrefixFree | dep/bzip2/huffman.c:152-166 | for lengths within the code space no code begins another |
| CanonicalCode.CreateDecodeTables | dep/bzip2/huffman.c:170-200 | limit, base and perm are those of the canonical code |
| CanonicalCode.VecBounded | dep/bzip2/huffman.c:190-196 | whatever lengths of up to 20 bits are given, even if they overfill the code space, the running code stays below 2^31 |
| CanonicalCode.SearchFinds | dep/bzip2/decompress.c:74-102 | the search by length stops at the code's own length with its symbol |
| CanonicalCode.SearchStops | dep/bzip2/decompress.c:74-102 | with a full code the search stops at the greatest length at the latest, whatever the bits |
| CanonicalCode.SearchInside | dep/bzip2/decompress.c:74-102 | where the search stops at a code at or above the base, the index lies within perm |
| BitIO.BitWriter.W | dep/bzip2/compress.c:58-79 | the bits handed out and buffered grow by exactly the n bits of v, most significant first, at any alignment |
| BitIO.BitWriter.FinishWrite | dep/bzip2/compress.c:46-54 | the last bits go out, padded with fewer than 8 zeros |
| BitSource.BitReader.GetBits | dep/bzip2/decompress.c:43-65 | the next n bits come out as a number, or there are fewer than n, all input has been taken into the buffer, and none of it is lost |
| Selectors.EncodeSelectors | dep/bzip2/compress.c:461-478 | decoding the positions that are sent gives back the selectors |
| Selectors.DecodeSelectors | dep/bzip2/decompress.c:302-314 | the decoder's loop is that inverse |
| TableChoice.PackedCosts | dep/bzip2/compress.c:330-394 | two 16-bit lanes added 50 times never carry into each other: the fast costs are the plain ones |
| TableChoice.ChooseAll | dep/bzip2/compress.c:342-435 | every group takes the first table of least cost, and rfreq counts the symbols by the table that codes them |
| TableChoice.RefineTables | dep/bzip2/compress.c:319-458 | after the iterations every table has lengths in 1..17 with Kraft sum 1, there are as many selectors as groups, at most 18002, and every symbol has a code in its group's table |
| SendMtf.SendBlock | dep/bzip2/compress.c:271-598 | the bits written are exactly the layout of a block with these symbols; the number of selectors used equals nSelectors (assertion 3007) |
| BlockLayout.BlockParts | dep/bzip2/compress.c:494-594 | the layout splits into its parts and its length is bounded by the number of selectors and symbols |
| Compressor.RoomEnough | dep/bzip2/compress.c:619-619 | header, block and trailer always fit into the part of arr2 behind the block |
| Compressor.EncodeBlock | dep/bzip2/compress.c:602-653 | a gathered block is sorted and coded into a block the decoder undoes, in the room there is |
| BlockFormat.SearchRead | dep/bzip2/decompress.c:74-102 | the bits of a symbol's code, fed one request at a time, lead the decoder to that symbol |
| BlockFormat.BlockRead | dep/bzip2/decompress.c:198-491 | the decoder, fed the layout of a block whose symbols are accepted, stops at its end with its column, its origPtr and its checksum, and leaves the bits that follow |
| Stream.BlockBack | dep/bzip2/decompress.c:198-578 | a block the encoder made decodes to its last column, and undoing the sort and the runs gives the bytes that went in |
| Stream.DecompressUndoesCompress | dep/bzip2/compress.c:602-667 | the whole stream of any number of encoded blocks unzips to all of their input, with matching block checksums and combined checksum |
| Encoder.EState.CompressBlock | dep/bzip2/compress.c:602-667 | the block is coded behind what has been sent; the bits of header, blocks and trailer so far stay a well-formed stream; zbits never overflow |
| Encoder.EState.CopyInputUntilStop | dep/bzip2/bzlib.c:289-329 | input is taken byte by byte until the block is full, the input used up, or the announced amount reached; nblock stays at most nblockMAX+9 |
| Encoder.EState.CopyOutputUntilStop | dep/bzip2/bzlib.c:334-356 | output is handed over in order until it or the room is used up |
| Encoder.EState.HandleCompress | dep/bzip2/bzlib.c:361-403 | the loop ends, and only for want of input or of room; no byte of input is lost or repeated across blocks; progress is reported exactly |
| Encoder.EState.BzCompress | dep/bzip2/bzlib.c:407-464 | over any calls of RUN, FLUSH and FINISH with any buffers: exactly which call gets which return code and mode, avail_in_expect equals avail_in, and STREAM_END means all input is taken, all output delivered, and the output decodes to the input; after it only SEQUENCE_ERROR |
| BlockReader.SavedAndRestored | dep/bzip2/decompress.c:165-193 | what is saved is restored, whatever the locals held |
| BlockReader.Reader.Decompress | dep/bzip2/decompress.c:106-641 | one call, begun with arbitrary values in all locals, does what the decoder as a function does: same state, same block, same code, from every label, on well-formed input or not; a stream that announces more than the 18002 selectors the code's arrays hold (up to 32767 can be announced) is outside the comparison with the code |
| BlockReader.Feed | dep/bzip2/decompress.c:43-65 | bytes in any pieces, through bsBuff and bsLive, with the locals lost between calls, give the result of one call on all of them: code, state, block and bits left over, well-formed input or not; streams that announce more than 18002 selectors are outside the comparison with the code here too |
| Unsort.MakeCftab | dep/bzip2/decompress.c:494-503 | cftab holds the number of smaller bytes for each byte |
| Decompressor.CountsInRange | dep/bzip2/decompress.c:495-516 | the checks on unzftab and cftab never fail for counts of a column |
| Unsort.SortOrderStable | dep/bzip2/decompress.c:559-564 | the counting sort's order is the stable one |
| Unsort.BuildFast | dep/bzip2/decompress.c:559-564 | afterwards each word of tt holds its byte of the column and the position that follows in the stable order |
| InverseBwt.InverseUndoesForward | dep/bzip2/decompress.c:559-576 | following the stable order of the last column from origPtr gives the block, for every block and every sorted listing, periodic blocks included |
| SmallVector.PackedVector.Set | dep/bzip2/bzlib_private.h:458-470 | storing a 20-bit entry in ll16 and a shared nibble of ll4 changes that entry only |
| SmallVector.BuildSmall | dep/bzip2/decompress.c:526-534 | the packed vector holds the inverse of the stable order |
| SmallVector.ReverseCycle | dep/bzip2/decompress.c:536-545 | pointer reversal turns the cycle through origPtr round, ends, and leaves all other entries alone |
| SmallVector.IndexIntoF | dep/bzip2/bzlib.c:687-698 | the binary search finds the byte whose bucket the index lies in |
| OutputStage.DState.UnRleFast | dep/bzip2/bzlib.c:536-682 | as many bytes come out as there is room for, they are the next bytes of the decoded block, and the checksum takes in just those |
| OutputStage.DState.UnRleSmall | dep/bzip2/bzlib.c:706-804 | the same contract as the fast form: with any sequence of room sizes both give the same bytes and checksum |
| Decompressor.Decoder.BzDecompress | dep/bzip2/bzlib.c:808-858 | on an encoder's stream: the output is always the next part of the plain text; a call returns OK only if its room or its input is used up; STREAM_END comes with the whole text, and SEQUENCE_ERROR exactly after that |
| Decompressor.StopsBeforePad | dep/bzip2/bzlib.c:808-858 | the decoder comes to the end of the stream without the padding bits, so no further input is waited for |
| RoundTrip.StreamForDecoder | dep/bzip2/bzlib.c:407-464 | what a finished compressor has handed out is a stream as the decompressor takes it, standing for all of the input |
| RoundTrip.Decompressed | dep/bzip2/bzlib.c:808-858 | that output, fed to a decompressor of either form in any pieces and with any room, ends in STREAM_END with exactly the compressor's input |
| Sfmt.RecursionBack | dep/SFMT/SFMT.h:137-150 | the recursion loses nothing of its first argument: x xor x shifted by bytes can be undone |
| Sfmt.NothingForgotten | dep/SFMT/SFMT.h:332-353 | the map from one state to any later state is injective |
| Sfmt.Generator.Generate | dep/SFMT/SFMT.h:332-353 | the two in-place loops replace N words of the recurrence by the N words that follow |
| Sfmt.OddByFolding | dep/SFMT/SFMT.h:310-311 | folding a word by shifts of 16, 8, 4, 2 and 1 leaves its parity in the lowest bit |
| Sfmt.AdjustedCertified | dep/SFMT/SFMT.h:305-326 | state[0] has odd parity against the certification vector afterwards, whatever it was before |
| Sfmt.Generator.Certify | dep/SFMT/SFMT.h:292-330 | the loops flip the lowest bit of the vector's first part that has one if parity is even, and nothing else |
| Sfmt.Generator.RandomInit | dep/SFMT/SFMT.h:167-187 | the sequence that follows starts from the certified words of the seed |
| Sfmt.Generator.BRandom | dep/SFMT/SFMT.h:239-249 | draw number i is the i-th 32-bit word of the recurrence, refills included |
| Sfmt.Generator.URandom | dep/SFMT/SFMT.h:207-224 | the drawn word scaled to the interval; without a draw if the interval is empty or a single value |
| Sfmt.ScaledRange | dep/SFMT/SFMT.h:207-224 | the result lies between min and max, and every value can come out if and only if the range is not the whole of 32 bits |
| Sfmt.ScaledShares | dep/SFMT/SFMT.h:207-224 | outside the full range, the words scaled to each value are a stretch of 2^32 / n, rounded down or up; all stretches are equally long if and only if n divides 2^32 |
| Sfmt.ChosenGood | dep/SFMT/SFMT.h:74-81 | the constants of exponent 11213 have the properties the other results ask for |
| IdTable.Lookup | dep/gsoap/stdsoap2.cpp:7194-7200 | an id is found if and only if it is in the plain map, with the map's entry |
| IdTable.Entered | dep/gsoap/stdsoap2.cpp:7210-7221 | putting a new entry in front of its bucket enters it into the plain map |
| Resolver.Soap.IdLookup | dep/gsoap/stdsoap2.cpp:7596-7673 | HREF exactly when the id is defined and was first mentioned with another type; otherwise the slot p joins those that refer to the id and is in use from then on, and no other cell changes |
| Resolver.Soap.IdForward | dep/gsoap/stdsoap2.cpp:7684-7731 | HREF exactly when type or size differ from what is known; otherwise the place p joins those that wait for a copy and is in use from then on |
| Resolver.Soap.IdEnter | dep/gsoap/stdsoap2.cpp:7740-7794 | exactly when a definition is refused, and with which error; otherwise the id is defined there and nothing that waits is lost |
| Resolver.Soap.LinkPhase | dep/gsoap/stdsoap2.cpp:2269-2290 | every chain of slots of a defined id is followed to its end and filled in; MISSING_ID if an id with # is not defined |
| Resolver.Soap.CopyRound | dep/gsoap/stdsoap2.cpp:2291-2333 | a round that copies leaves fewer ids waiting, so the rounds end; one that does not leaves only ids that cannot be copied |
| Resolver.Soap.Resolve | dep/gsoap/stdsoap2.cpp:2263-2345 | MISSING_ID if and only if an id with # is not defined; otherwise every slot that refers to a defined id holds its location, no copy is left to be made if and only if objects and places were not nested in a circle, copies that are made hold what the object holds at the end, and nothing else in memory has changed |
| Resolver.Soap.AllCopied | dep/gsoap/stdsoap2.cpp:2291-2333 | one half of that: unless objects are nested in a circle, nothing waits for a copy afterwards |
| Resolver.RankFromOrder | dep/gsoap/stdsoap2.cpp:2291-2333 | the other half: if everything was copied, the order in which the rounds copied shows that there was no circle |
| ResolverRun.RunAll | dep/gsoap/stdsoap2.cpp:7596-7794 | any sequence of references, forwards and definitions on addresses apart from each other, then soap_resolve: the answer is that of a plain map from ids to what is known of them; on success every slot that refers to a defined id holds its location, whichever came first, and every place holds its copy if and only if there is no circle |
| ResolverRun.NothingMissing | dep/gsoap/stdsoap2.cpp:2269-2290 | after a successful run every id with # that anything refers to has been defined |
| ResolverRun.LaterReference | dep/gsoap/stdsoap2.cpp:7622-7628 | a reference after the definition is refused if and only if its type is not that of the id's first mention |
| ResolverRun.CheckedAgainstDefinition | dep/gsoap/stdsoap2.cpp:7785-7789 | such references are checked against the definition's type if and only if the first mention had that type |
| ResolverRun.DefinedWithAnotherType | dep/gsoap/stdsoap2.cpp:7771-7778 | a definition with another type than the first mention is accepted if and only if no place waits for a copy |
| ResolverRun.TypeWitness | dep/gsoap/stdsoap2.cpp:7785-7789 | three calls after which a slot of the definition's own type is refused and one of the first type accepted |
| ResolverRun.CircleWitness | dep/gsoap/stdsoap2.cpp:2291-2333 | an id with an href to itself: the run succeeds, though its copy can never be made |
| RefList.References.Ref | dep/lualib/lauxlib.c:522-539 | the reference is new or released before, never a live one; live references keep their values; nil gets the fixed reference |
| RefList.References.Unref | dep/lualib/lauxlib.c:543-551 | a live reference goes to the head of the free list; negative ones change nothing |
| RefList.OneHole | dep/lualib/lauxlib.c:522-551 | a free list has one hole in the table, its last entry, and no free list means no hole |
| RefList.OneBorder | dep/lualib/lauxlib.c:522-539 | lua_rawlen, asked only without a free list, has one possible answer, the number of keys |
| RefList.KeyCount | dep/lualib/lauxlib.c:522-551 | the table has as many keys as live and free references together, so it grows no further than the most that were ever live at once |
| RefList.ReleaseExact | dep/lualib/lauxlib.c:543-551 | from a table in order, releasing r >= 0 leaves a table that some live references and some free list explain if and only if r is live or the key right after all that have been used: not for released keys anywhere in the list, key 0, or keys further on |
| RefList.ReleasedTwice | dep/lualib/lauxlib.c:543-551 | releasing a key twice in a row makes the free list lead from that key to itself |

## Left out

- No identity of compressed bytes is claimed, neither between different ways of dividing the same input over calls nor between the sorters (in a periodic block origPtr can be any of the equal rows): only that all of them decode to the input.
- Randomised blocks (BZ_RAND macros, randtable.c): the decoder model reads the bit but the theorems are about streams with 0 there, as this encoder writes them.
- The stdio wrappers, BuffToBuff functions, verbosity, error strings, allocation and its failures, the parameter checks of the Init functions, and the 64-bit total counters of bz_stream.
- The contents of the CRC table: any table of 256 words is taken, and both sides fold alike.
- The quality of the initial grouping of symbols into tables: only that it is a valid start.
- Decompressor.Decoder.BzDecompress: what is decoded is stated for streams this encoder makes; for others only independence of input pieces is proved (BlockReader.Feed), not which error is returned when.
- BlockReader.Feed: like Reader.Decompress it takes sequences for the selectors, of which a stream can announce up to 32767; the code has room for 18002.
- BlockReader.Reader.Decompress: the selectors and the per-table arrays limit, base, perm and len are sequences, so their fixed capacities are not modelled; labels that read one value the same way (MTF_1 and MTF_2 to the others) are merged; the code after the sanity checks on unzftab, which sets up the inverse vectors, is in Decompressor.OpenBlock.
- The places where C lays two arrays over one memory area: eclass and its bytes, block and zbits in arr2, quadrant behind block, mtfv over ptr (kept, two symbols to a word), and ll16 or tt, are separate arrays here; the decoder collects the column in one array and copies it into the form that was asked for.
- FallbackSort.Sort: bhtab words are modelled as 32 flags each, with the scan by whole words kept.
- MainSort.Sort: the block is widened into an array of numbers with the overshoot area at its end; loops the C code unrolls by hand are loops.
- TableChoice.PackedCosts: the 50 unrolled additions are a loop.
- Bitwise or of fields that do not overlap is addition, with Bits.OrDisjoint for the equality; words are natural numbers with their width written out.
- Sfmt: Random, with its floating point, IRandom with its signed overflow, the SSE instructions and aligned allocation; 128-bit words are sequences of bits. The parameter set is that of exponent 11213, Sfmt.Chosen, and the proofs hold for any set with the properties of Sfmt.Good.
- Resolver.Soap.IdLookup: references at different pointer levels, which allocate chains of pointers, are not modelled: all references and definitions are at one level.
- Resolver.Soap.IdForward: the list kept outside memory for copies with a conversion function, for objects smaller than a pointer or for ids without #; only places chained through memory are modelled.
- Resolver.Soap.Resolve: memory is an array of pointer-sized cells, and a definition may not begin strictly inside a place that is still to be overwritten.
- IdTable.Lookup: buckets are sequences rather than linked nodes, and characters are taken as they are.
- RefList: Lua tables are maps, lua_rawlen returns any border of the table, and keys are unbounded; garbage collection and the stack interface are not modelled.
- The rest of gSOAP, of the Lua library, and all other vendored and game server code.
