# bzip2 and the zlib checksums, verified

A Dafny 4.11 model of the bzip2 1.0.6 codec bundled in `dep/bzip2` and of the CRC-32 and Adler-32 code in
`dep/zlib`. `dafny verify dfyconfig.toml` checks everything.

The main result is `RoundTrip.RoundTrip`: for every input, every sequence of `BZ2_bzCompress` calls that
finishes the stream, every cutting of that stream into chunks and every output room offered per call,
`BZ2_bzDecompress`, in its FAST and in its SMALL form, reports no error and delivers the bytes that were fed
in, in order; it reports the end exactly when it has delivered all of them, and it does as soon as the calls
that have all of the stream offer room for them. `BzCompress.Compressor.BzCompress` says when a stream gets
finished: a finish that leaves room has ended it. `BuffToBuff` puts both together for the one-call interface.
It is composed of the results about the stages:

* **Block sorting.** Rotations are compared by `Rotations.Cmp`, which is the lexicographic order of the
  rotations as strings. `FallbackSpec`, `FallbackQSort` and `FallbackSort` prove the prefix-doubling sort;
  `MainOrder`, `ShellSort`, `MainSimple`, `MainQSort`, `MainRadix`, `SmallBuckets`, `BucketOrder`,
  `PointerScan` and `MainSort` prove the radix sort with string quicksort, quadrants and pointer scanning;
  `Repetition`, `Quadrants` and `QuadrantTies` say what quadrants mean for equal rotations.
  `ThreeWay` holds what the two quicksorts share. `BlockSort` chooses between them by length and budget.
* **Burrows-Wheeler transform.** `Bwt` proves that any two sorted permutations give one last column, and that
  the links made from it alone spell the block; `InverseBwt` proves the FAST words and the in-place SMALL
  pointer reversal against it.
* **Move-to-front and runs.** `MoveToFront` is the list form with its inverse; `GenerateMtf` is the encoder,
  writing over the memory it reads; `MtfWindows` is the decoder's two-level table and `SymbolStage` its loop.
* **Huffman coding.** `HuffmanHeap`, `HuffmanTree` and `HuffmanLengths` prove the length builder, with the
  Fibonacci bound on depths and the retry measure; `HuffmanOptimal` proves that what it builds is a code of
  least total cost; `Canonical` proves codes and decode tables.
* **Bit format.** `Bits`, `BitIO`, `BlockFormat`, `BlockParts` and `BlockTail` define the bits of a block;
  `SendMtf` and `CompressBlock` write them, `ImageSize` and `StreamSize` bound them, and `Decompress` reads them back,
  resumable at every read.
* **Stream machines.** `RunLength`, `RunSize`, `BlockBuffer` and `BzCompress` on one side, `OutputStage` and
  `BzDecompress` on the other.
* **Check values.** `BlockCheckKnown` and `BlockCheckTable` prove that the table of crctable.c makes the check value of
  a block the cyclic redundancy check it is meant to be, and what it detects; the codec is proved for any table.
* **Known values.** `KnownStream` ties the format to a stream known from elsewhere, `Crc32Known` and
  `Adler32.KnownChecksum` the checksums to known ones.
* **Checksums.** `Words` and `Crc32` prove tables, word loops and combination against the bit-by-bit shift
  register of section 8 of RFC 1952; `Adler32` proves the deferred reductions and the combination against
  the sums of section 2.2 of RFC 1950.

Arrays an operation only reads are passed to its helpers as sequences. Ghost parameters carry what a caller
knows: the block being sorted, the image being sent, the bits still to come.

What the comments of the sorter claim, and what holds:

* The comment at `dep/bzip2/blocksort.c:1056-1062` says the stream does not depend on the sorter. Sortedness, which
  is what both sorters are proved to guarantee, determines the last column always, but the row of the original only
  if the block is no repetition of a shorter one (`Bwt.OriginUnique`, `Bwt.OriginAmbiguous`). Whether the two
  sorters ever choose different rows is not settled here; either row decodes to the block.
* The comment at `dep/bzip2/blocksort.c:964-985` says a smaller quadrant means a rotation that precedes. That is
  false of the block of two bytes in turn, for every length mainSort gets (`QuadrantTies.TieRun`). It holds of a
  bucket exactly if the number of equal rotations of a kind divides the window of positions that share a quadrant,
  so in blocks that are no repetition of a shorter one, and without a shift only in those (`Quadrants.StrictIff`,
  `Quadrants.StrictIfNoShift`). Not greater holds always and is what the sort needs.

## Model

| member | source | states |
|---|---|---|
| `RoundTrip.RoundTrip` | dep/bzip2/bzlib.c:407-464 | For every finished compressor and every schedule of calls (any cutting of its output into chunks, any output room per call, FAST or SMALL) no call reports an error, what comes out is a prefix of the bytes that were fed in, and the end of the stream is reported exactly when it is all of them; that is so whenever the calls from the last chunk on offer as much room as there are bytes, and otherwise every byte of that room has been used |
| `RoundTrip.Replay` | dep/bzip2/bzlib.c:808-858 | The same for any complete stream: whatever the schedule, a prefix of the blocks' plain text, all of it exactly at the reported end, and the end whenever there is room |
| `RoundTrip.AtOnce` | dep/bzip2/bzlib.c:1299-1348 | If all input comes with the first call, all room offered counts: with as much room as there are bytes the end is reached |
| `BuffToBuff.BuffToBuffCompress` | dep/bzip2/bzlib.c:1247-1295 | One finish call either leaves a complete stream for the source with fewer than eight bits behind it, or has filled the whole destination with the front of one and can take or give no more; it succeeds whenever the destination has more than 6457 bytes and three for each byte of the source; it is one block if the run-length code of the source is below a full block; parameters are refused exactly when out of range |
| `BuffToBuff.BuffToBuffDecompress` | dep/bzip2/bzlib.c:1299-1348 | On a complete stream: exactly the source if the destination has room for it, otherwise an overflow report and as much of its front as fits |
| `StreamSize.FullBound` | dep/bzip2/compress.c:602-667 | A stream whose blocks were not cut short by flushes has at most 6457 bytes and three for each byte taken in |
| `StreamSize.StreamBound` | dep/bzip2/compress.c:602-667 | Any stream, finished or not, has at most 22 bits for each byte taken in and a fixed cost for each block, and no block is empty |
| `StreamSize.RunsShrink` | dep/bzip2/bzlib.c:215-247 | The initial run-length coding adds at most one byte to every four |
| `BuffToBuff.BuffRoundTrip` | dep/bzip2/bzlib.c:1247-1348 | Compressing into one buffer and back gives the source, and succeeds whenever that much room is offered |
| `KnownStream.KnownIsStream` | dep/bzip2/compress.c:494-667 | The 37 bytes known as a bzip2 stream of the one byte "a" are a stream for it, field for field: header, marks, check values, map, selector, tables, symbols and the bits behind |
| `KnownStream.DecompressKnown` | dep/bzip2/bzlib.c:1299-1348 | Decompressing them, in the FAST and in the SMALL form, gives the byte |
| `KnownStream.Marks` | dep/bzip2/decompress.c:204-237 | The block mark is pi and the end mark its square root, in decimal digits |
| `RunSize.BlockLength` | dep/bzip2/bzlib.c:215-284 | A block sent is as long as its bytes say: of each run of up to 255 the first four, and one more behind the fourth |
| `RunSize.OneBlock` | dep/bzip2/bzlib.c:288-399 | If that length of all the bytes is below a full block, no flush intervening, they are sent in one block |
| `RoundTrip.Opener.Open` | dep/bzip2/decompress.c:195-221 | The four stream-header bytes, met at any chunk boundary, are read exactly once and hand over an untouched rest |
| `BzCompress.Compressor.BzCompress` | dep/bzip2/bzlib.c:407-464 | In any run of calls, bytes taken in plus bytes still offered never change, output only grows by what the room shrinks, and blocks sent are kept. Return codes exactly: an action out of sequence moves nothing and says so; RUN takes and gives all it can, a parameter error if that is nothing; FLUSH and FINISH go on only while there is no room left, so that a finish that leaves room has ended the stream, sending only blocks of at least 100000 times the block size less 19 bytes but for the last. An ended stream is complete, handed out, and stands for exactly the bytes taken in |
| `BzCompress.Compressor.HandleCompress` | dep/bzip2/bzlib.c:360-403 | Terminates, keeps the machine's invariant, stops only when there is no output room or no input left to take, and reports progress exactly when a byte was taken or handed out |
| `BzCompress.Compressor.Turn` | dep/bzip2/bzlib.c:366-400 | One round of draining and filling: input shrinks or the rank of what is left to do drops, so the loop ends; each kind of progress is reported exactly when it was made |
| `BzCompress.Compressor.FinishAction` | dep/bzip2/bzlib.c:452-461 | A finish with room moves something; it ends the stream unless it ran out of room, and what it leaves can go on |
| `BzCompress.Compressor.FlushAction` | dep/bzip2/bzlib.c:442-450 | A flush is over exactly when everything taken in is in finished blocks whose bytes are handed out; otherwise it ran out of room |
| `BzCompress.Compressor.CopyInputUntilStop` | dep/bzip2/bzlib.c:288-329 | Takes bytes until the block has 100000 times the block size less 19 bytes, the input is empty or the promised amount is used up, and accounts for each of them; progress is reported exactly when a byte was taken |
| `BzCompress.Compressor.CopyOutputUntilStop` | dep/bzip2/bzlib.c:333-356 | Hands out finished bytes in order until room or bytes run out; progress is reported exactly when a byte was handed out |
| `BzCompress.Compressor.TakeByte` | dep/bzip2/bzlib.c:260-284 | One input byte joins what has been taken in; the block never exceeds NBLOCKMAX + 4 entries before the last run |
| `BzCompress.Compressor.CompressBlock` | dep/bzip2/compress.c:602-667 | The block becomes the last of the blocks sent, behind those sent before, with its check value combined; the bytes written only add to the stream and fit behind the block in arr2 |
| `BzCompress.Compressor.PutTrailer` | dep/bzip2/compress.c:656-667 | End mark, combined check value and zero padding to a byte complete the stream |
| `BzCompress.Compressor.PrepareNewBlock` | dep/bzip2/bzlib.c:116-127 | A new block starts empty, keeping the run in progress and everything already promised to the caller |
| `BzCompress.BzCompressInit` | dep/bzip2/bzlib.c:148-211 | Accepts exactly block sizes 1..9 and work factors 0..250 and starts with nothing fed and nothing sent |
| `BlockBuffer.Buffer.AddPair` | dep/bzip2/bzlib.c:215-247 | A run of 1..255 goes into the block as its run-length code; the block stays the encoding of its runs, its check value that of their expansion, its byte map exact |
| `BlockBuffer.Buffer.AddChar` | dep/bzip2/bzlib.c:260-284 | Plain text of the block followed by the run in progress grows by exactly the new byte |
| `BlockBuffer.Buffer.Flush` | dep/bzip2/bzlib.c:251-256 | The run in progress moves into the block and nothing is pending |
| `RunLength.UnRleInvertsEncode` | dep/bzip2/bzlib.c:215-247 | Undoing the initial run-length coding of any list of runs of up to 255 gives back their bytes, and the code is well formed to its last byte |
| `BlockSort.Sort` | dep/bzip2/blocksort.c:1031-1089 | Whatever the work factor, the listing is a permutation with the rotations in non-decreasing order, the block bytes are unchanged, and origPtr is the row of the original |
| `BlockSort.FindOrigin` | dep/bzip2/blocksort.c:1083-1088 | The search for the original succeeds (assertion 1003) |
| `MainSort.MainSort` | dep/bzip2/blocksort.c:750-1011 | If the budget is not spent, ptr lists all rotations in non-decreasing order; the block itself is left as it was |
| `MainSort.OrderBigBuckets` | dep/bzip2/blocksort.c:832-860 | The shell sort of the big buckets leaves each of them in the running order once, the least full first |
| `MainSort.SortRest` | dep/bzip2/blocksort.c:878-907 | Step 1: all small buckets [ss, j] with j != ss end up sorted and flagged, the others untouched, or the budget is spent |
| `MainSort.SortSmall` | dep/bzip2/blocksort.c:887-906 | A flagged or trivial small bucket is skipped, any other sorted; every rotation stays in its small bucket |
| `MainSort.ScanBucket` | dep/bzip2/blocksort.c:911-946 | Step 2: after the two scans every small bucket [t, ss] with t not done is full and sorted, [ss, ss] included, the two ends have met (assertion 1007), and the flags say so |
| `MainSort.UpdateQuadrants` | dep/bzip2/blocksort.c:989-1004 | Step 3: the new 16-bit quadrants are the positions in the bucket shifted by the least shift that fits; they and their copies in the overshoot area never contradict the order of the rotations; and they put a rotation strictly before another exactly if the number of equal rotations of a kind divides 2^shift, which without a shift means that the block is no repetition of a shorter one |
| `MainOrder.StrictIfPrimitive` | dep/bzip2/blocksort.c:964-985 | In a block that is no repetition of a shorter one a smaller quadrant with the same first byte is a strictly smaller rotation, as the comment says |
| `Quadrants.StrictIff` | dep/bzip2/blocksort.c:964-1004 | For every sorted bucket: a smaller quadrant is always a strictly smaller rotation if and only if the number of times the block repeats divides 2^shift |
| `Quadrants.StrictIfNoShift` | dep/bzip2/blocksort.c:964-1004 | In a bucket of at most 65534, exactly if the block is no repetition of a shorter one, for this bucket as for all |
| `Quadrants.CutThrough` | dep/bzip2/blocksort.c:992-1003 | A cut between two equal rotations of a sorted bucket leaves no multiple of that number in front of it |
| `Quadrants.ShrWindow` | dep/bzip2/blocksort.c:994-1002 | The positions that share a quadrant are a window of 2^shift |
| `Repetition.SameNumber` | dep/bzip2/blocksort.c:964-985 | There are equally many rotations of every kind |
| `Repetition.ClosedSize` | dep/bzip2/blocksort.c:964-985 | A set that holds with a rotation all equal to it holds a multiple of that number |
| `QuadrantTies.TieRun` | dep/bzip2/blocksort.c:989-1004 | For every even length from 10000 to 900000: step 3, carried out on the block of two bytes in turn, leaves quadrants one of which is smaller although the rotations are equal |
| `MainSort.Shifts` | dep/bzip2/blocksort.c:992-1003 | The shift makes every position of the bucket fit in 16 bits (assertion 1002) |
| `Quadrants.ShrMonotone` | dep/bzip2/blocksort.c:994-1002 | Shifting positions never swaps two of them, so different quadrants order rotations as their positions do |
| `MainSort.QuadsUpdated` | dep/bzip2/blocksort.c:964-1004 | Quadrants taken from the sorted positions keep the meaning the source gives them: with equal first bytes, a smaller quadrant is a rotation that is not greater |
| `MainSort.ScanSorted` | dep/bzip2/blocksort.c:911-946 | Every small bucket flagged after the scan is sorted, those flagged before included |
| `MainRadix.CountPairs` | dep/bzip2/blocksort.c:769-792 | Backwards over the block, ftab counts every two-byte key |
| `MainRadix.CopyOvershoot` | dep/bzip2/blocksort.c:795-798 | The first 34 bytes follow the block |
| `MainRadix.Fill` | dep/bzip2/blocksort.c:805-830 | Every rotation lands in the small bucket of its first two bytes, each exactly once, and ftab ends with the bucket starts |
| `PointerScan.PutOk` | dep/bzip2/blocksort.c:923-934 | Writing the rotation before a scanned one into its next free slot keeps everything the scan relies on: slots filled in scan order, coverage, the two ends of the big bucket sorted, distinct, descending in front and ascending behind |
| `PointerScan.SkipOk` | dep/bzip2/blocksort.c:923-934 | So does passing over a rotation whose big bucket is done |
| `PointerScan.HasRoom` | dep/bzip2/blocksort.c:926-933 | copyStart never passes copyEnd: a rotation still to be placed always finds a free slot in its own small bucket |
| `PointerScan.EveryReached` | dep/bzip2/blocksort.c:911-935 | Unless the whole block is one run, the scan reaches every rotation of the big bucket, however long its runs of ss |
| `PointerScan.ScanMet` | dep/bzip2/blocksort.c:937-944 | After the scans the two ends have met, or the block is one single run |
| `PointerScan.StillPlaced` | dep/bzip2/blocksort.c:918-935 | After the scans ptr is again a permutation with every rotation in its small bucket |
| `PointerScan.ColumnSorted` | dep/bzip2/blocksort.c:911-935 | The small buckets the scan filled are sorted |
| `PointerScan.OthersKept` | dep/bzip2/blocksort.c:918-935 | No other entry of ptr has moved |
| `SmallBuckets.DescendsFirst` | dep/bzip2/blocksort.c:911-917 | Of two rotations with the same first byte, one greater than its successor comes before one smaller than its successor |
| `SmallBuckets.StillIsUniform` | dep/bzip2/blocksort.c:937-944 | Only in a block that is one run can a rotation equal its successor |
| `SmallBuckets.KeysDecide` | dep/bzip2/blocksort.c:802-830 | A smaller two-byte key is a smaller rotation; equal keys share two bytes |
| `BucketOrder.RunOfBuckets` | dep/bzip2/blocksort.c:862-876 | Neighbouring sorted small buckets form one sorted range |
| `BucketOrder.AllSorted` | dep/bzip2/blocksort.c:862-1006 | When every small bucket is sorted the listing is a sorted permutation of the rotations |
| `BucketOrder.OneMoreSorted` | dep/bzip2/blocksort.c:892-905 | Sorting one small bucket leaves every other sorted bucket sorted |
| `MainQSort.QSort3` | dep/bzip2/blocksort.c:620-717 | Sorts a range of rotations that share dSt bytes unless the budget runs out; the stack never reaches its limit (assertion 1001) |
| `MainQSort.RangeSplit` | dep/bzip2/blocksort.c:696-716 | Replacing a range by its three parts, the largest lowest, keeps every settled pair settled, every range's shared depth right, and the work left smaller |
| `MainQSort.RangeDeeper` | dep/bzip2/blocksort.c:691-694 | If all keys are equal the same range goes on one byte deeper, never past depth 15 |
| `MainQSort.SplitLow` | dep/bzip2/blocksort.c:644-654 | A range long enough to be split lies below stack slot 32 |
| `MainQSort.BySize` | dep/bzip2/blocksort.c:702-711 | The three conditional exchanges order the parts by size |
| `MainQSort.Med3` | dep/bzip2/blocksort.c:581-592 | The median of three: one of its arguments, with at least one on either side |
| `MainSimple.MainSimpleSort` | dep/bzip2/blocksort.c:484-555 | Unless the budget runs out the range is sorted; in any case it is only rearranged |
| `MainSimple.Sink` | dep/bzip2/blocksort.c:511-522 | One insertion moves an entry past greater rotations only; at stride 1 the sorted part grows by one |
| `ShellSort.SinkDone` | dep/bzip2/blocksort.c:511-522 | Inserting into a sorted range at the place found keeps it sorted, for any transitive order |
| `MainOrder.MainGtU` | dep/bzip2/blocksort.c:345-469 | The exact verdict and the exact budget spent: the first twelve bytes decide at no cost, after that the first place where a byte or its quadrant differs, at the cost of one unit for each round of eight before it; nothing past nblock + 33 is read |
| `MainOrder.GtIsRight` | dep/bzip2/blocksort.c:410-468 | A verdict found so never contradicts the order of the rotations, wrapped around or not |
| `MainOrder.EqualByQuadrants` | dep/bzip2/blocksort.c:410-468 | Equal rotations are told apart by their quadrants alone, and count as not greater if those agree |
| `FallbackSort.Sort` | dep/bzip2/blocksort.c:211-329 | Terminates with a sorted permutation of all rotations and the block rebuilt byte for byte |
| `FallbackSort.SkipBits` | dep/bzip2/blocksort.c:277-292 | The single-bit and 32-bit scans stop at the next differing header bit, the sentinels at the latest |
| `FallbackSort.ComputeClasses` | dep/bzip2/blocksort.c:266-271 | eclass becomes the bucket of the rotation H places on |
| `FallbackSort.RefinePass` | dep/bzip2/blocksort.c:273-306 | One pass turns order and bucket heads at depth H into order and heads at depth 2H |
| `FallbackSpec.StartsAreClasses` | dep/bzip2/blocksort.c:266-271 | Equal class numbers mean equal next H bytes, smaller ones smaller bytes |
| `FallbackSpec.PassSort` | dep/bzip2/blocksort.c:294-305 | Sorting a bucket by class and marking the changes sorts it by 2H bytes and marks its new buckets |
| `FallbackSpec.PassDone` | dep/bzip2/blocksort.c:275-311 | After the last bucket, header bits delimit exactly the groups equal on 2H bytes |
| `FallbackSpec.SortedAtLast` | dep/bzip2/blocksort.c:311-313 | With all buckets single, or H past the block length, the rotations are sorted |
| `FallbackQSort.QSort3` | dep/bzip2/blocksort.c:92-180 | Sorts a range by class; the stack stays below its 100 slots for up to 900000 entries |
| `ThreeWay.SimpleSort` | dep/bzip2/blocksort.c:30-59 | The stride-four and the plain insertion pass leave the range sorted by class and only rearranged |
| `ThreeWay.Partition` | dep/bzip2/blocksort.c:661-700 | The Bentley-McIlroy split: below, equal and above the key, in that order, or all equal; only rearranged |
| `ThreeWay.StackStep` | dep/bzip2/blocksort.c:105-179 | Replacing a range on the stack by its parts leaves no pair both unsettled and outside a common range |
| `Rotations.CmpIsLexOfRotations` | dep/bzip2/blocksort.c:247-251 | The comparison used throughout is the lexicographic order of the rotations as strings |
| `Rotations.CmpSplit` | dep/bzip2/blocksort.c:259-271 | Comparing g + h bytes is comparing g and then, on a tie, h from there: what makes doubling work |
| `Bwt.LastColumnUnique` | dep/bzip2/compress.c:163-168 | Any two sorted permutations, ties in any order, give the same last column |
| `Bwt.WalkInvertsTransform` | dep/bzip2/decompress.c:559-573 | For every block, periodic or not, following the links from the original's row spells the block |
| `Bwt.OriginUnique` | dep/bzip2/blocksort.c:1056-1062 | For a block that is no repetition of a shorter one every sort finds the original in the same row, so the stream does not depend on the sorter |
| `Bwt.OriginAmbiguous` | dep/bzip2/blocksort.c:1056-1062 | For any other block there is a second sorted permutation with the original in another row: there the claim that the stream is always the same does not follow |
| `InverseBwt.ComputeFastLinks` | dep/bzip2/decompress.c:559-564 | The links go into the upper 24 bits without touching the bytes, and form the inverse of the stable sort |
| `InverseBwt.SmallTable.ComputeSlots` | dep/bzip2/decompress.c:526-534 | The SMALL table first holds every entry's slot in 20 bits |
| `InverseBwt.SmallTable.Set` | dep/bzip2/bzlib_private.h:458-473 | 16-bit and 4-bit halves hold a 20-bit link without loss and without touching another |
| `InverseBwt.SmallTable.ReverseCycle` | dep/bzip2/decompress.c:536-545 | Pointer reversal stops after exactly one cycle and turns it round, leaving entries off the cycle alone |
| `InverseBwt.SmallFollowsLinks` | dep/bzip2/decompress.c:526-554 | On that cycle the SMALL table and the FAST links lead to the same rows for any number of steps |
| `InverseBwt.IndexIntoF` | dep/bzip2/bzlib.c:687-698 | The binary search finds the byte whose range of the first column holds the row |
| `MtfWindows.MtfTable.Move` | dep/bzip2/decompress.c:424-474 | The 16-window table behaves as one list: it yields entry nn and moves it to the front, sliding and rebuilding without losing an entry |
| `MtfWindows.MtfTable.Rebuild` | dep/bzip2/decompress.c:463-472 | The in-place rebuild overwrites no entry it still needs; the list stays the same |
| `MtfWindows.MtfTable.Init` | dep/bzip2/decompress.c:358-370 | The table starts as the list 0..255 |
| `MoveToFront.DecodeInvertsCode` | dep/bzip2/compress.c:163-226 | Decoding the move-to-front and run code of any column gives the column back |
| `MoveToFront.CodeShort` | dep/bzip2/compress.c:120-147 | At most one symbol per byte and the end of the block |
| `MoveToFront.RunRoundTrip` | dep/bzip2/compress.c:174-188 | The RUNA/RUNB digits denote the run length they were made from |
| `MoveToFront.RunDigits` | dep/bzip2/compress.c:174-188 | Symbol 0 is the digit 1 and symbol 1 the digit 2: with place values 1, 2, 4 and so on they add up to the run length |
| `MoveToFront.CodeSpans` | dep/bzip2/compress.c:163-226 | Counting runs by these digits and every other symbol as one byte, the code of a column stands for as many bytes as the column has |
| `GenerateMtf.GenerateMtfValues` | dep/bzip2/compress.c:119-231 | The symbols are the code of the last column, with exact frequencies, although they overwrite the sort order they are made from; at most nblock + 1 of them, standing for exactly nblock bytes with 0 and 1 as the digits of runs, the last the end of the block |
| `ByteMaps.MakeMapsE` | dep/bzip2/compress.c:105-115 | Every used byte gets the number of used bytes below it |
| `ByteMaps.MakeMapsD` | dep/bzip2/decompress.c:26-36 | The used bytes in order |
| `ByteMaps.MapsInverse` | dep/bzip2/decompress.c:26-36 | The decoder's map undoes the encoder's |
| `SymbolStage.BlockSymbols.Take` | dep/bzip2/decompress.c:375-486 | Symbol by symbol the decoder's run and move-to-front loop rebuilds the encoder's last column and its byte counts, ending exactly at the end-of-block symbol |
| `SymbolStage.RunFits` | dep/bzip2/decompress.c:379-390 | No run an encoder sends reaches the 2 MB guard or overruns the block |
| `HuffmanLengths.MakeCodeLengths` | dep/bzip2/huffman.c:63-148 | Terminates for every frequency vector an encoder can have, with all lengths in 1..maxLen and a Kraft sum of exactly one; these are the lengths of a prefix code, and none has a smaller total cost for the frequencies flattened as often as there were rescales; before each rescale a prefix code of least cost was longer than maxLen; frequencies that add up to less than a Fibonacci number are never flattened; entries past the alphabet stay |
| `HuffmanOptimal.GreedyIsCheapest` | dep/bzip2/huffman.c:85-121 | The depths of the leaves of a tree built by always merging the two lightest roots cost no more than any lengths that satisfy Kraft's inequality |
| `HuffmanOptimal.DepthsAreCode` | dep/bzip2/huffman.c:100-121 | The depths of the leaves of any such tree satisfy Kraft's inequality, so they are the lengths of a prefix code |
| `HuffmanOptimal.LowerBound` | dep/bzip2/huffman.c:85-112 | Whatever depths are given to the leaves, they cost at least the sum of the inner weights |
| `HuffmanOptimal.MergeStep` | dep/bzip2/huffman.c:100-112 | One merge: depths before it give depths after it that cost less by the merged weight |
| `HuffmanOptimal.BringDown` | dep/bzip2/huffman.c:100-112 | The two lightest nodes may be taken to be the two deepest, equally deep, without more cost or code space |
| `HuffmanOptimal.MergeGreedy` | dep/bzip2/huffman.c:100-112 | Each merge of the two lightest roots keeps the forest greedy |
| `HuffmanLengths.BuildTree` | dep/bzip2/huffman.c:85-112 | Merging the two lightest nodes until one is left gives a tree over all symbols whose depth field never overflows |
| `HuffmanLengths.RescaleShrinks` | dep/bzip2/huffman.c:142-146 | Rescaling never increases the total weight and lowers it if some weight is 3 or more |
| `HuffmanLengths.LongNeedsHeavy` | dep/bzip2/huffman.c:114-146 | A code longer than 12 bits needs a weight of 3 or more, so every retry makes progress |
| `HuffmanTree.TreeIsComplete` | dep/bzip2/huffman.c:100-121 | Depths in one binary tree have a Kraft sum of exactly one |
| `HuffmanTree.MergedHeavy` | dep/bzip2/huffman.c:29-31 | Every merged node weighs at least the Fibonacci number of its depth: a deep code needs a heavy tree |
| `HuffmanHeap.UpHeap` | dep/bzip2/huffman.c:33-42 | A new leaf rises to its place: heap order is restored by rearranging only |
| `HuffmanHeap.DownHeap` | dep/bzip2/huffman.c:44-58 | A new root sinks to its place: heap order is restored by rearranging only |
| `HuffmanHeap.RootLightest` | dep/bzip2/huffman.c:100-102 | The root of the heap is a lightest node |
| `Canonical.AssignCodes` | dep/bzip2/huffman.c:152-165 | Every symbol gets its canonical code |
| `Canonical.PrefixFree` | dep/bzip2/huffman.c:152-165 | No code of a decodable table is a prefix of another symbol's |
| `Canonical.CreateDecodeTables` | dep/bzip2/huffman.c:170-200 | limit, base and perm describe exactly the canonical code |
| `Canonical.LimitTest` | dep/bzip2/decompress.c:90-101 | The limit test succeeds at the length of the code that was sent and at no shorter one, and then perm yields its symbol |
| `Canonical.GetSymbol` | dep/bzip2/decompress.c:87-102 | Uninterrupted, the bit-by-bit loop returns the symbol written and consumes exactly its bits |
| `BitIO.BitWriter.BsW` | dep/bzip2/compress.c:71-78 | The bits written so far grow by exactly the n bits of the value |
| `BitIO.BitWriter.Finish` | dep/bzip2/compress.c:45-53 | The last bits go out with fewer than eight zero bits behind them |
| `BitIO.BitReader.GetBits` | dep/bzip2/decompress.c:43-65 | Either the next n bits are taken, or all input is used up and no bit is lost: the same call can be repeated with more input |
| `SendMtf.SendMtfValues` | dep/bzip2/compress.c:238-598 | What is written is the bit image of the used-byte map, the selectors, the tables and the symbols, with tables a decoder accepts; two tables, and three, four, five, six from 200, 600, 1200, 2400 symbols on, and a selector for every fifty symbols; selectors and tables are the outcome of four passes from first tables dealt in fair pieces: each pass gives every group the first cheapest table of the pass before, and makes each table, complete and decodable, a prefix code of least cost for exactly the groups that took it, after as many rescales as were needed |
| `SendMtf.InitialTables` | dep/bzip2/compress.c:279-317 | The first tables deal the alphabet out in contiguous pieces, from the last table to the first; each piece is the shortest with an equal share of the frequency left, every other one a symbol short of it; they reach the last symbol if the frequencies are those of the symbols |
| `SendMtf.QuotientIs` | dep/bzip2/compress.c:287-287 | The share is the quotient towards zero, as C divides |
| `SendMtf.Pass` | dep/bzip2/compress.c:322-435 | Every group of fifty gets a cheapest table, the first of several, and every table the exact frequencies of the groups it codes |
| `SendMtf.PassAndTables` | dep/bzip2/compress.c:322-452 | A pass and the tables made from it: each table is a prefix code for the frequencies of exactly the groups that chose it, of least cost unless such a code was too long and they were flattened |
| `SendMtf.CheapestTable` | dep/bzip2/compress.c:395-401 | The first of the cheapest tables wins |
| `SendMtf.CodeSelectors` | dep/bzip2/compress.c:461-478 | The selectors' move-to-front positions |
| `BlockParts.UndoSelectors` | dep/bzip2/decompress.c:302-314 | Undoing the selectors' move-to-front coding gives the encoder's selectors back |
| `CompressBlock.PutHeader` | dep/bzip2/compress.c:632-650 | Block mark, check value, the zero randomisation bit and origPtr |
| `CompressBlock.WriteBlock` | dep/bzip2/compress.c:630-653 | The block's image is written, and describes a block whose plain text is what was fed in |
| `CompressBlock.NumberBits` | dep/bzip2/compress.c:82-89 | Writing a number byte by byte or in one go gives the same bits |
| `ImageSize.BlockSize` | dep/bzip2/compress.c:494-594 | An upper bound on the bits of any block image whose codes have at most a given length: map, selectors of at most 6 bits, delta-coded tables, symbols |
| `ImageSize.ImageFits` | dep/bzip2/compress.c:602-667 | With carried-over bits, stream header, trailer and padding, the image of any block fits in the rest of arr2 |
| `Decompress.Decompressor.Decompress` | dep/bzip2/decompress.c:106-641 | From any stopping point, for any cutting of an encoder's stream, the parser stays at the point the bits read so far determine, never reports an error, and stops only for input, at a complete block or at the end |
| `Decompress.Decompressor.ReadStep` | dep/bzip2/decompress.c:43-65 | One read from any of the resumable states leads to the state that belongs to the remaining bits; a read that lacks bits changes nothing |
| `Decompress.Decompressor.Supply` | dep/bzip2/decompress.c:43-65 | New input joins what is unread |
| `Decompress.Decompressor.EnoughInput` | dep/bzip2/decompress.c:43-65 | In a complete stream no read can ever lack bits |
| `Decompress.Decompressor.StepMapping2` | dep/bzip2/decompress.c:276-284 | The used-byte map is received bit for bit |
| `Decompress.Decompressor.StepSelector3` | dep/bzip2/decompress.c:291-300 | The unary selector positions are received |
| `Decompress.Decompressor.StepCoding3` | dep/bzip2/decompress.c:319-328 | The delta-coded lengths are received |
| `Decompress.Decompressor.TableComplete` | dep/bzip2/decompress.c:317-347 | A complete table of lengths is the encoder's; after the last the decode tables are made |
| `Decompress.Decompressor.TestCode` | dep/bzip2/decompress.c:88-101 | The zn/zvec/zj test decides as soon as the code is complete and not before |
| `Decompress.Decompressor.TakeSymbol` | dep/bzip2/decompress.c:375-486 | A decoded symbol is the encoder's next one, and after the last the block is handed over whole |
| `BzDecompress.BzDecompressor.Decompress` | dep/bzip2/bzlib.c:808-858 | Blocks are delivered in order and each check value agrees, the combined one included; at the end of the stream the output is the plain text of all blocks |
| `BzDecompress.BzDecompressor.FinishBlock` | dep/bzip2/bzlib.c:824-836 | The stored and the calculated check value of a delivered block agree |
| `BlockCheckTable.ChangeDetected` | dep/bzip2/bzlib_private.h:155-172 | With the table of crctable.c no byte of a block can change without changing its check value |
| `BlockCheckTable.CheckIsRegister` | dep/bzip2/bzlib_private.h:155-172 | That check value is the complement of a shift register that starts with all ones and takes the bytes bit by bit, for the polynomial 0x04c11db7 |
| `BlockCheckTable.TableIs` | dep/bzip2/crctable.c:31-99 | The 256 entries of crctable.c are the bytes clocked through an empty register |
| `BlockCheckTable.CheckOfA` | dep/bzip2/bzlib_private.h:155-172 | The check value of the one-byte block "a" is 0x19939b6b |
| `BlockCheckKnown.ByteDetected` | dep/bzip2/bzlib_private.h:167-172 | The same for every table whose low bytes are pairwise different |
| `BlockCheckKnown.UpdateIsClocks` | dep/bzip2/bzlib_private.h:167-172 | One table step is eight clocks of the register with the byte in its highest places |
| `BlockCheckKnown.ByteTableDiffers` | dep/bzip2/crctable.c:31-99 | The low bytes of that table are pairwise different |
| `BlockCheckKnown.CombineIs` | dep/bzip2/compress.c:606-608 | The combined check value is rotated up by one bit before the next one is mixed in |
| `BlockCheckKnown.StreamDetects` | dep/bzip2/compress.c:606-608 | If the check value of one block changes, so does that of the stream |
| `OutputStage.DState.BeginOutput` | dep/bzip2/decompress.c:488-578 | From column, counts and origPtr of a sorted block the inverse tables are built and nothing is delivered yet |
| `OutputStage.DState.UnRleToOutput` | dep/bzip2/bzlib.c:535-804 | For every sequence of output rooms the bytes delivered are those of the run-length-decoded block, in order, stopping only when the room is used up |
| `OutputStage.DState.UnRleToOutputFast` | dep/bzip2/bzlib.c:589-681 | The FAST loop: as many bytes as fit, the rest of a run kept for the next call, the look-ahead byte never past the block's end |
| `OutputStage.DState.UnRleToOutputSmall` | dep/bzip2/bzlib.c:759-803 | The SMALL loop delivers the same |
| `OutputStage.DState.Fetch` | dep/bzip2/bzlib_private.h:444-479 | The byte read is the next byte of the block, in the FAST as in the SMALL form, the walk stays in step with it, and the corruption check does not fire |
| `OutputStage.DState.GetSmall` | dep/bzip2/bzlib_private.h:475-479 | A first-column search and a 20-bit link give byte and next row |
| `Crc32.Tables.MakeCrcTable` | dep/zlib/crc32.c:90-140 | The eight tables hold the register after a byte and zero to three zero bytes, in both byte orders |
| `Crc32.PolyIs` | dep/zlib/crc32.c:105-108 | The terms listed make the polynomial of section 8 of RFC 1952 |
| `Crc32.Tables.Crc32Bytes` | dep/zlib/crc32.c:227-235 | The table loop computes the bit-by-bit checksum of every input |
| `Crc32.Tables.Crc32Little` | dep/zlib/crc32.c:247-277 | So does the little-endian word loop, for every length and alignment, loading words at aligned addresses only |
| `Crc32.Tables.Crc32Big` | dep/zlib/crc32.c:287-320 | So does the big-endian word loop on a byte-reversed register |
| `Crc32.Tables.Crc32` | dep/zlib/crc32.c:204-236 | Whichever form is chosen the checksum is the same; without a buffer it is 0 |
| `Crc32Known.FourDetected` | dep/zlib/crc32.c:204-236 | Four neighbouring bytes cannot change, in whatever way, without changing the checksum |
| `Crc32Known.ByteDetected` | dep/zlib/crc32.c:204-236 | Nor can a single byte |
| `Crc32Known.ZeroDetected` | dep/zlib/crc32.c:227-235 | A zero byte in front changes the checksum of every message |
| `Crc32Known.Residue` | dep/zlib/crc32.c:204-236 | A message with its own checksum behind it, lowest byte first, always has the checksum 0x2144df1c |
| `Crc32Known.CheckValue` | dep/zlib/crc32.c:204-236 | The checksum of "123456789" is 0xcbf43926 |
| `Crc32Known.ZeroByte` | dep/zlib/crc32.c:204-236 | The checksum of one zero byte is 0xd202ef8d |
| `Crc32Known.NotIs` | dep/zlib/crc32.c:227-235 | The register is complemented in all its bits |
| `Crc32.WordStep` | dep/zlib/crc32.c:241-243 | Thirty-two clocks are four table look-ups |
| `Crc32.WordStepSwapped` | dep/zlib/crc32.c:281-283 | The same on a byte-reversed register |
| `Crc32.RegisterAffine` | dep/zlib/crc32.c:67-89 | The register is affine in its start value over GF(2) |
| `Crc32.MatrixTimes` | dep/zlib/crc32.c:327-341 | Multiplying by the operator of n zero bits is clocking the register n times |
| `Crc32.MatrixSquare` | dep/zlib/crc32.c:344-352 | Squaring an operator doubles its bits |
| `Crc32.Crc32Combine` | dep/zlib/crc32.c:355-408 | The checksum of a concatenation from those of its parts and the length of the second, for all byte strings; for lengths not positive the first checksum |
| `Crc32.CombineJoins` | dep/zlib/crc32.c:355-408 | Why: zero bytes behind the first part make room for the second; and checksums can be carried on |
| `Adler32.Adler32` | dep/zlib/adler32.c:65-133 | For every length but one, whatever the running checksum, and both reductions, the result is the two sums reduced; no 32-bit sum overflows; for one byte it is that exactly if the second half needs at most one subtraction, as after any reduced checksum; without a buffer it is 1 |
| `Adler32.KnownChecksum` | dep/zlib/adler32.c:65-133 | The checksum of "123456789" is 0x091e01de |
| `Adler32.OneByte` | dep/zlib/adler32.c:77-85 | The single-byte branch gives the checksum exactly if second half plus reduced first half stay below twice the base; otherwise the second half is off by exactly the base |
| `Adler32.OneByteMisfit` | dep/zlib/adler32.c:77-85 | A running checksum for which it does not: 0xfffffff0 and a zero byte, where 13 is due |
| `Adler32.AddBytes` | dep/zlib/adler32.c:104-129 | Up to NMAX bytes added without a reduction stay within 32 bits and congruent to the sums |
| `Adler32.NmaxIsLargest` | dep/zlib/adler32.c:15-16 | NMAX is exactly the largest number of bytes whose sums fit |
| `Adler32.Mod28` | dep/zlib/adler32.c:35-39 | Without division, values below 2^28 are fully reduced |
| `Adler32.Mod` | dep/zlib/adler32.c:40-44 | Without division, every 32-bit value is fully reduced |
| `Adler32.Mod63` | dep/zlib/adler32.c:45-57 | Without division, every non-negative 63-bit value is fully reduced |
| `Adler32.ChecksumConcat` | dep/zlib/adler32.c:65-133 | A checksum may be computed piece by piece |
| `Adler32.Adler32Combine` | dep/zlib/adler32.c:136-162 | The checksum of a concatenation from those of its parts, for all byte strings; carrying any running checksum on, reduced or not, exactly if the conditional subtractions suffice; a negative length gives 0xffffffff |
| `Adler32.CombineMisfit` | dep/zlib/adler32.c:136-162 | An unreduced first checksum for which they do not |

## Left out

- Malformed streams: the decoder is modelled on streams the encoder can produce; the checks that reject others are followed where they stand in the way, and proved not to fire.
- Randomised blocks: the encoder always sends the bit as 0, and only that bit is read.
- `FILE*` wrappers, allocation, NULL and other parameter checks of one branch, verbosity output.
- The 64-bit totals of bytes in and out, which nothing reads back.
- The 50-fold unrolled loops, the packed cost lanes and the triple copies are written as one loop, or as a loop over the copies.
- arr1 and arr2: sort order, symbols, block, quadrants and output are separate arrays here, except that `GenerateMtf` does work in one memory of 16-bit halves, copied from the sort order first, and that the room for the output behind the block is proved to suffice (`ImageSize.ImageFits`).
- Header bits of `fallbackSort`: an array of booleans in place of 32-bit words, with the whole-word tests kept as tests of 32 bits; ftab serves as their memory in the original and is separate here.
- Two-dimensional tables of code lengths, codes and frequencies are sequences of rows; the pointers gLimit, gBase and gPerm are a table number.
- The output of the compressor is kept as one growing sequence: numZ counts from where the current block started, instead of being set back to 0.
- HuffmanLengths.MakeCodeLengths: asks for a total frequency below 1346269, which the block size guarantees the encoder, so that weights and depths fit in their 24 and 8 bits.
- Crc32: registers are of 32 bits, also where the original uses a wider unsigned long; making the tables on first use, its flags, and the generated table file are left out.
- BuffToBuff.BuffToBuffCompress: the size that is always enough is not the least one; every code counts with the encoder's longest, 17 bits.
- The thresholds of the sorters, their increments and the budget follow the source, but no result depends on them: they decide how long a sort takes, and which sorter does it.
- How soon mainSort's budget runs out: the spending per comparison is exact, its sum over a sort is not bounded.
- Deflate, inflate and the other directories of the repository.
