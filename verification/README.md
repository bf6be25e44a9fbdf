# bzip2 and zlib, verified in Dafny

A model of the two compression libraries under `dep/`: the bzip2 1.0.6
block codec and its streaming interface, and the checksums, code tables,
history window and block decoding of zlib 1.2.7.

Two results join everything for bzip2:

- `RoundTrip.DecodeAll`: for any bytes, good or corrupt, every way of cutting
  them and the output room into calls, and both decoders (FAST and SMALL),
  decompressing ends, writes the text these bytes stand for
  (`Playback.Play`), and reports the verdict on them, having taken no byte
  beyond the end of a stream. Two exceptions are exact and proved (see
  Findings): for a selector count above 18002 the source writes out of bounds,
  and where a block is cut short FAST does not count what its last call wrote.
- `RoundTrip.CompressThenDecompress`: for all data and every block size, with
  the calls on both sides cut in any way, compressing and then decompressing
  gives the data back, whatever follows the stream. The blocks are those the
  source makes: they share out the maximal runs of the data, all but the last
  are full, and each has the tables its passes settle on.

And for zlib, `InflateStream.InflateBlockData`: from a block's code lengths and
its bits, in any pieces and with any room, behind any output and in the middle
of a byte, inflate_table and inflate (with inflate_fast wherever it is entered)
put out what the bits spell (`DeflateBits.Ahead`), each match copied from all
output so far. This holds for every window size as long as no distance met is
beyond the window (`DeflateBits.Farthest`), which for the largest window none is;
`InflateStream.InflateTokens` says it for the bits of given literals and matches.

The bzip2 results run on the model's imperative form of the source. The
compressor is `EState` with fallbackSort, generateMTFValues,
BZ2_hbMakeCodeLengths and sendMTFValues on arrays; the decompressor is `DState`
with the bit register of GET_BITS, the tables of BZ2_hbCreateDecodeTables, the
sliding move-to-front lists, unzftab, cftab, and tt or ll16 and ll4. Each part
is proved against a plain specification of its own:

- **Run-length front end and mode machine** (`Runs`, `FrontEnd`, `Compressor`):
  stream conservation, stream-end safety and where blocks are closed, over every
  sequence of calls.
- **Block sort** (`Radix`, `QuickSort`, `FallbackSort`): prefix doubling with
  header bits sorts the cyclic rotations; ties are allowed.
- **Inverse transform** (`InverseBwt`, `BlockVectors`, `BlockOutput`): the
  packed vector and the reversed cycle both spell the block, over any output
  buffers; randomised and cut-off blocks included.
- **Move-to-front and zero runs** (`MoveToFront`, `MtfEncoder`, `SlidingMtf`,
  `ColumnDecoder`).
- **Huffman** (`WeightHeap`, `OptimalCode`, `HuffmanTree`, `HuffmanCost`,
  `CodeLengths`, `CanonicalCode`, `TableChoice`): the tree is optimal, and the
  shallowest optimal one, so a table is rescaled only when every optimal code
  for it is too long.
- **Bits and blocks** (`BitString`, `BitIO`, `BlockFormat`, `BlockWriter`,
  `BlockReader`, `BlockRoundTrip`, `DecoderSound`, `SelectorBounds`,
  `StreamBounds`, `BitReading`, `DecoderMachine`), **streams** (`BzStream`,
  `BlockEncoder`, `BlockSize`, `Playback`, `CutBlocks`, `Decompressor`,
  `RoundTrip`).

For zlib: `Adler32`, `Crc32` and `Crc32Check` (with `Registers`, shared with
bzip2's `BzCrc`, `BzCrcLaw` and `BzCrcTable`); the history window
(`HistoryWindow`); the two-level code tables (`LsbCode`, `InflateTable`,
`SubTables`, `TableSize`, `InflateBuild`, `InflateLookup`, `InflateTrees`) and
the most room they take (`Enough`, `EnoughReached`), which zlib found by
exhaustive search; and what decodes with them: the meaning of the
bits (`DeflateBits`, `DeflateTokens`, `InflateCodes`), the bit accumulator
(`BitHold`), the states of inflate (`InflateBlock`, `InflateStream`) and
inflate_fast (`InflateFast`).

How the source's form is kept. Loops over arrays are methods on arrays; EState,
DState, the bit writer and reader, the output state, the sliding lists, the
inflate window, the bit accumulator and the state of inflate are classes.
BZ2_decompress is a resumable switch: `Need` is what the GET_BITS at a label
asks for and `Step` is the code up to the next label, on plain values of type
`BlockReader.Phase`; `DecoderMachine.Machine` does the same on the decoder's
own storage, and its `Answer` is proved to be `Step`. Where the source relies
on machine arithmetic the model has it written out: 32-bit registers wrap, the
packed Huffman weights carry their height in the low byte, `|` on disjoint bits
is addition under a proved disjointness, Adler sums are reduced modulo 2^32 and
proved never to reach it.

Check everything with `dafny verify dfyconfig.toml`.

## Findings

- dep/bzip2/decompress.c:288-314 stores as many selectors as a 15-bit field
  announces, up to 32767, in the two arrays of BZ_MAX_SELECTORS = 18002 entries
  (dep/bzip2/bzlib_private.h:125 and 402-403). The field is only checked to be
  at least 1. `SelectorBounds.SelectorsFitIffField`: the writes stay inside the
  arrays, whatever bits follow, if and only if the field is at most 18002;
  `LargestFieldFails` is a stream whose field 32767 runs past their end. On a
  stream whose counts all fit the decoder stays inside them to the end
  (`StreamBounds.StaysInside`), and the compressor's do: it never writes more
  than 18001 selectors (`TableChoice.ChoiceIsValid`, `StreamBounds.StreamFits`).
- dep/bzip2/bzlib.c:632-634: when unRLE_obuf_to_output_FAST reports a cut-off
  block it returns without storing next_out and avail_out, so what it wrote in
  that call is in the caller's buffer but not counted; SMALL counts it.
  `RoundTrip.DecodeAll`: what is counted is all of the text if and only if the
  decoder is SMALL or the text does not end in a block that is not randomised
  and ends between four equal characters and their count; otherwise at least
  one byte of it is lost, however the room is cut. `CutBlocks.CutStream` gives
  bytes that reach any such block, `FourAlikeStream` the smallest.
- dep/zlib/inffast.c:41-46 and 309 say that fewer than eight bits are held when
  inflate_fast is entered. inflate.c:1021-1023 enters it with up to fourteen,
  after a call that ended inside a code. `InflateFast.EntryAssumption`: it is so
  on all inputs if and only if no literal/length code is longer than eight bits;
  `InflateStream.HoldsEight` is a call that ends with eight bits of one held.
  No harm is done: the bytes given back are never more than were pulled
  (`InflateStream.BlockInflater.FastRounds`, `InflateFast.GiveBack`).
- dep/zlib/adler32.c:78-86: for a single byte, one conditional subtraction does
  not reduce the second half of every start word. The result is the reduced
  checksum if and only if `Adler32.Spills` is false; `SpillHappens` names a start
  word and a byte where it is not, and no reduced start word spills.
- dep/zlib/inftrees.c:211-213 and 280-282 give up on a code when its table
  takes ENOUGH_LENS = 852 or ENOUGH_DISTS = 592 slots (`>=`), although inftrees.h
  and the storage of inflate.h:118 provide just that many. So inflate refuses
  some valid codes: `Enough.EnoughForInflate` proves that no code it builds
  takes more, `Enough.GivesUpAtMost` that it gives up if and only if the table
  takes exactly that room, and `EnoughReached.LensFull` and `DistsFull` are
  complete codes of 286 and 30 symbols that do.

## Model

| member | source | states |
|---|---|---|
| `RoundTrip.CompressThenDecompress` | dep/bzip2/bzlib.c:407-464 | For all data, block sizes, input pieces and output room on both sides, both decoders and anything behind the stream: every call sequence ends, the data comes back byte for byte, and of what is behind the stream nothing is taken. The stream handed out is that of blocks which share out the maximal runs of the data, all but the last of them full, each under the tables the source chooses |
| `RoundTrip.DecodeAll` | dep/bzip2/bzlib.c:808-858 | Any bytes, good or corrupt, whose selector counts are at most 18002 (`StreamBounds.CountsFit`; beyond it the source writes out of bounds), in any positive pieces with any positive room: the calls end, verdict and bytes taken are those of the bits themselves, and what is written is their text, whatever the pieces. What is counted as output is all of the text if and only if the decoder is SMALL or the text does not end in a block cut short (`CutShort`); otherwise at least one byte of it is lost |
| `RoundTrip.OneCall` | dep/bzip2/bzlib.c:808-858 | With input and room every call takes or gives at least one byte, unless it ends or the input is used up; all it wrote is counted, unless FAST found a block cut short |
| `CutBlocks.CutStream` | dep/bzip2/bzlib.c:632-634 | Every cut-off block, whatever its column and origin, is met in some bytes, and whatever follows them their text ends with it in that error |
| `CutBlocks.FourAlikeStream` | dep/bzip2/bzlib.c:632-634 | The smallest of them, for any character c: bytes with four equal characters as column stand for c + 4 of them, cut short |
| `CutBlocks.ColumnBits` | dep/bzip2/decompress.c:195-486 | Every column, with any origin and checksum, is what some bits lead the decoder to |
| `RoundTrip.FinishedPlays` | dep/bzip2/bzlib.c:808-858 | The bytes of a finished compressor, followed by anything, stand for all it took in, and end where its last bit does |
| `RoundTrip.FeedAll` | dep/bzip2/bzlib.c:422-426 | BZ_RUN calls with non-empty input and room always make progress, end with all data taken, and close no block before it is full |
| `RoundTrip.BlockStaysOpen` | dep/bzip2/bzlib.c:389-397 | A BZ_RUN call with less data than can fill a block takes it all in and hands out nothing |
| `RoundTrip.FlushAll` | dep/bzip2/bzlib.c:441-449 | BZ_FLUSH calls with room end, in BZ_RUN_OK, with all data taken in and every byte of it in a block whose bits are handed out or held; at most one block, the last, is closed before it is full |
| `RoundTrip.FinishAll` | dep/bzip2/bzlib.c:452-461 | BZ_FINISH calls with room always reach BZ_STREAM_END, taking nothing more; they close at most one block before it is full, the last |
| `RoundTrip.FinishedStream` | dep/bzip2/compress.c:602-667 | What a finished compressor handed out is header, blocks and trailer bit for bit, and its blocks stand for all input taken |
| `RoundTrip.FinishedRuns` | dep/bzip2/bzlib.c:255-329 | Without a flush, the runs of all blocks together are the maximal runs of the data, every block is the code of its own, and all but the last hold at least 100000 * level - 19 bytes |
| `QuickSort.InsertByFour` | dep/bzip2/blocksort.c:42-50 | One carry of the stride-four pass only rearranges the range |
| `QuickSort.InsertByOne` | dep/bzip2/blocksort.c:52-58 | Inserting an entry into the sorted rest of a range leaves the longer range sorted and rearranged |
| `QuickSort.SimpleSort` | dep/bzip2/blocksort.c:32-59 | fallbackSimpleSort sorts the range by eclass and only rearranges it |
| `QuickSort.Partition` | dep/bzip2/blocksort.c:132-160 | The three-way partition leaves equal, smaller, larger and equal entries in that order, as a rearrangement |
| `QuickSort.VSwap` | dep/bzip2/blocksort.c:66-75 | fvswap exchanges two disjoint stretches and nothing else |
| `QuickSort.Divide` | dep/bzip2/blocksort.c:126-170 | One partitioning round splits the range into smaller, equal and larger entries at n and m |
| `QuickSort.PeakAfterSplit` | dep/bzip2/blocksort.c:172-178 | A range split with d ranges left below it satisfies 11*2^d <= range size, so d + 2 stays below the stack size |
| `QuickSort.QSort3` | dep/bzip2/blocksort.c:93-180 | fallbackQSort3 sorts the range by eclass as a rearrangement, and its stack pointer exceeds 2 by at most log2 of the range size, so assertion 1004 cannot fail |
| `Radix.CountCharacters` | dep/bzip2/blocksort.c:231-234 | ftab becomes the cumulative counts and ftabCopy the counts of the block's characters |
| `Radix.PlaceCharacters` | dep/bzip2/blocksort.c:236-241 | The radix pass lists every position once, grouped by first character |
| `Radix.ReconstructBlock` | dep/bzip2/blocksort.c:322-328 | The counts and the sorted order give back the block the sort overwrote |
| `FallbackSort.InitialState` | dep/bzip2/blocksort.c:243-257 | After the radix pass the header bits delimit exactly the classes of equal first character |
| `FallbackSort.FillEclass` | dep/bzip2/blocksort.c:266-271 | eclass of a position is the start of the class of the position H further on, cyclically |
| `FallbackSort.NextBucket` | dep/bzip2/blocksort.c:274-292 | The word-wise scan finds the next maximal run without header bits, or reports that none is left |
| `FallbackSort.MarkChanges` | dep/bzip2/blocksort.c:300-304 | Within a sorted bucket a header bit is set exactly where the key changes |
| `FallbackSort.DoubledOrder` | dep/bzip2/blocksort.c:259-313 | Comparing classes at depth H of positions H apart is comparing 2H characters |
| `FallbackSort.PassDoubles` | dep/bzip2/blocksort.c:266-306 | One pass turns 'sorted and delimited by H characters' into the same for 2H characters |
| `FallbackSort.Double` | dep/bzip2/blocksort.c:266-311 | The pass as executed on fmap, eclass and bhtab keeps that invariant, and reports nothing unresolved only if every entry is its own class |
| `FallbackSort.DeepEnough` | dep/bzip2/blocksort.c:311-312 | Once H reaches the block length, whole rotations are sorted |
| `FallbackSort.AllDistinct` | dep/bzip2/blocksort.c:311-312 | So they are once every entry is its own class, at whatever depth |
| `FallbackSort.FallbackSort` | dep/bzip2/blocksort.c:212-329 | For every non-empty block fmap ends as a permutation listing the rotations in nondecreasing order, ties included, and the block is restored |
| `InverseBwt.FindOrigin` | dep/bzip2/blocksort.c:1083-1088 | The row of rotation 0 is found, so assertion 1003 cannot fail |
| `InverseBwt.LastToFirstOrder` | dep/bzip2/decompress.c:529-534 | The last-to-first map orders rows by character, then by row |
| `InverseBwt.InverseBothWays` | dep/bzip2/decompress.c:559-564 | T is a permutation and undoes the last-to-first map both ways |
| `InverseBwt.SortedRowsUnique` | dep/bzip2/blocksort.c:1023-1030 | The listings that hold the sorted order all hold the same rotations row by row: how ties are broken changes no row |
| `InverseBwt.RowBefore` | dep/bzip2/compress.c:166-168 | Following T from a row leads to a row holding the rotation one further on |
| `InverseBwt.InversionSpellsBlock` | dep/bzip2/decompress.c:559-573 | For any order sorting the rotations, walking T from the row of rotation 0 spells the block, periodic blocks included |
| `BlockVectors.MakeCftab` | dep/bzip2/decompress.c:500-503 | cftab holds the number of smaller characters in the last column |
| `BlockVectors.CheckUnzftab` | dep/bzip2/decompress.c:495-499 | Counts of a real column always pass the range check on unzftab |
| `BlockVectors.CheckCftab` | dep/bzip2/decompress.c:504-517 | Counts of a real column always pass the decoder's range and order checks |
| `BlockVectors.BuildFast` | dep/bzip2/decompress.c:559-564 | Each tt cell ends with its character in the low byte and T above it |
| `BlockVectors.SetLL` | dep/bzip2/bzlib_private.h:458-473 | Storing 20 bits over ll16 and ll4 changes that cell and no other |
| `BlockVectors.BuildSmall` | dep/bzip2/decompress.c:526-534 | The cells end holding the last-to-first map while the column is overwritten in place |
| `BlockVectors.ReverseCycle` | dep/bzip2/decompress.c:536-545 | Pointer reversal inverts the map on exactly the cycle through origPtr, and ends |
| `BlockVectors.CycleWalk` | dep/bzip2/decompress.c:536-549 | On that cycle the reversed links are T, so SMALL walks as FAST does |
| `BlockVectors.IndexIntoF` | dep/bzip2/bzlib.c:687-698 | The bisection returns the first-column character of its position |
| `RunLength.PushPair` | dep/bzip2/bzlib.c:216-247 | Appending the code of a run of 1..255 characters extends what the block stands for by exactly that run |
| `Runs.OnlyRuns` | dep/bzip2/bzlib.c:255-281 | Data falls in only one way into runs of at most 255 that end where the character changes or at 255: which runs the front end must code is fixed by the data |
| `Runs.CodedExpands` | dep/bzip2/bzlib.c:216-247 | The code of such runs is read back as them |
| `Runs.CodedSize` | dep/bzip2/bzlib.c:216-247 | The code is at most five quarters of the data |
| `Runs.UnforcedRuns` | dep/bzip2/bzlib.c:371-393 | Blocks closed only when full cut no run in two |
| `BzCrcLaw.UpdateIsBitSerial` | dep/bzip2/bzlib_private.h:167-172 | The table-driven checksum step is the bit-serial register with the byte entering at the top; its table entries are the constants of BZ2_crc32Table (`BzCrcTable`) |
| `BzCrcTable.Entries00To1f` | dep/bzip2/crctable.c:35-42 | The constants for top bytes 0x00 to 0x1f are what eight shifts of the register make of them |
| `BzCrcTable.Entries20To3f` | dep/bzip2/crctable.c:43-50 | The constants for top bytes 0x20 to 0x3f are what eight shifts of the register make of them |
| `BzCrcTable.Entries40To5f` | dep/bzip2/crctable.c:51-58 | The constants for top bytes 0x40 to 0x5f are what eight shifts of the register make of them |
| `BzCrcTable.Entries60To7f` | dep/bzip2/crctable.c:59-66 | The constants for top bytes 0x60 to 0x7f are what eight shifts of the register make of them |
| `BzCrcTable.Entries80To9f` | dep/bzip2/crctable.c:67-74 | The constants for top bytes 0x80 to 0x9f are what eight shifts of the register make of them |
| `BzCrcTable.Entriesa0Tobf` | dep/bzip2/crctable.c:75-82 | The constants for top bytes 0xa0 to 0xbf are what eight shifts of the register make of them |
| `BzCrcTable.Entriesc0Todf` | dep/bzip2/crctable.c:83-90 | The constants for top bytes 0xc0 to 0xdf are what eight shifts of the register make of them |
| `BzCrcTable.Entriese0Toff` | dep/bzip2/crctable.c:91-98 | The constants for top bytes 0xe0 to 0xff are what eight shifts of the register make of them |
| `BzCrc.TurnBits` | dep/bzip2/compress.c:607 | The turn of the stream checksum, bit by bit: each bit comes from the place below, the lowest from the top |
| `Registers.XorBits` | dep/bzip2/compress.c:608 | Exclusive-or, bit by bit |
| `BzStream.StreamChecksum` | dep/bzip2/compress.c:607-608 | The stream checksum is the exclusive-or of all block checksums, each turned left by as many places as blocks follow it |
| `BlockOutput.RunDelivers` | dep/bzip2/bzlib.c:636-661 | A run read at a run start advances the expansion by exactly that run and ends at a run start, or behind the end of a block cut off before its count |
| `BlockOutput.CutRun` | dep/bzip2/bzlib.c:656-660 | Of a block cut off after four equal characters a reader makes the run that the character it meets next would announce |
| `BlockOutput.OutputState.Get` | dep/bzip2/bzlib_private.h:444-479 | Both fetches give the next character of any column from any origin and advance the walk; the range check never fires |
| `BlockOutput.OutputState.Fetch` | dep/bzip2/bzlib.c:565-568 | A fetch unmasks the character of a randomised block with the right number of the table, however often the table wraps |
| `BlockOutput.OutputState.NextRunFast` | dep/bzip2/bzlib.c:640-660 | The FAST order of tests reads one run |
| `BlockOutput.OutputState.NextRunSmall` | dep/bzip2/bzlib.c:782-800 | The SMALL order of tests reads the same run |
| `BlockOutput.OutputState.Drain` | dep/bzip2/bzlib.c:589-680 | For any column, origin and room, each call writes on in the text of the block, stopping only when the room is full or all is written; corruption is reported only for a block cut off between four equal characters and their count, after all its text. All that was written is counted, except where FAST reports: then nothing of at least one byte is, and the state is the one before the call |
| `BlockOutput.OutputState.DoneMeansAll` | dep/bzip2/bzlib.c:824-831 | Done means that the block is complete, its whole expansion was delivered, and the running checksum is its checksum |
| `BlockOutput.OutputState.CutOffMeansAll` | dep/bzip2/bzlib.c:632-634 | Where a block is found cut off, all its text has been written, and the block is not complete |
| `MoveToFront.ValueOfDigits` | dep/bzip2/compress.c:174-188 | The emitted RUNA/RUNB digits are the bijective base-2 numeral of the run length |
| `MoveToFront.DigitsOfValue` | dep/bzip2/decompress.c:381-398 | Every digit string is the numeral of its value, so the numeral is unique |
| `MoveToFront.RunWritten` | dep/bzip2/compress.c:174-188 | A run is written as symbols 0 and 1, and (symbol + 1) * 2^i summed over them is its length |
| `MoveToFront.RunRead` | dep/bzip2/decompress.c:381-398 | Symbols 0 and 1 in a row are read as a run of that sum, if they are at most 21; from the 22nd on they are refused |
| `MoveToFront.AcceptRun` | dep/bzip2/decompress.c:383-396 | The digits of a run of at most 900000 accumulate it and never trip the N guard |
| `MoveToFront.SymbolsBounded` | dep/bzip2/compress.c:163-231 | Emitted symbols never outnumber consumed characters and stay within the alphabet |
| `MoveToFront.MtfRoundTrip` | dep/bzip2/decompress.c:375-486 | Decoding the emitted symbols gives back the column, for every column, pending run and unused tail of the list |
| `MtfEncoder.MakeMapsE` | dep/bzip2/compress.c:106-115 | unseqToSeq is the rank of a byte among those in use |
| `MtfEncoder.MakeMapsD` | dep/bzip2/decompress.c:27-36 | seqToUnseq lists the bytes in use in ascending order |
| `MtfEncoder.UsedAtRank` | dep/bzip2/decompress.c:27-36 | The decoder's map undoes the encoder's on every byte in use |
| `MtfEncoder.FindAndMove` | dep/bzip2/compress.c:189-206 | The register shuffle returns the position of the character and moves it to the front |
| `MtfEncoder.EncodeMiss` | dep/bzip2/compress.c:172-209 | Writing the pending run and the position overwrites no row still to be read |
| `MtfEncoder.GenerateMtfValues` | dep/bzip2/compress.c:120-231 | mtfv, produced in the storage of ptr, holds the symbols of the last column and end-of-block |
| `SlidingMtf.MoveRowsIsMove` | dep/bzip2/decompress.c:446-463 | Carrying one entry over each list boundary is one move-to-front on the whole 256-entry list |
| `SlidingMtf.Repack` | dep/bzip2/decompress.c:464-472 | The repack moves all lists to the top of the buffer without overwriting a cell still to be read |
| `SlidingMtf.MtfList.Take` | dep/bzip2/decompress.c:423-475 | For every position the 16 sliding lists behave as the plain list and stay ordered, disjoint and inside the buffer |
| `WeightHeap.UpHeap` | dep/bzip2/huffman.c:33-42 | UPHEAP restores the heap order as a rearrangement; the sentinel stops it |
| `WeightHeap.DownHeap` | dep/bzip2/huffman.c:44-59 | DOWNHEAP restores the heap order as a rearrangement |
| `WeightHeap.ExtractLightest` | dep/bzip2/huffman.c:101-102 | A lightest node leaves the heap, the others stay |
| `HuffmanTree.JoinFib` | dep/bzip2/huffman.c:100-110 | Joining the two lightest nodes keeps frequency at least Fibonacci of height |
| `HuffmanTree.JoinForest` | dep/bzip2/huffman.c:100-110 | One join keeps the forest: two children per inner node, no other root lighter than they were, total frequency, Fibonacci bounds; heights stay below 33, so the low byte never carries |
| `CodeLengths.JoinAll` | dep/bzip2/huffman.c:100-112 | The heap loop ends with one tree over all symbols, of at most 515 nodes |
| `HuffmanTree.TreeDepths` | dep/bzip2/huffman.c:114-121 | No symbol is deeper than 32, and none deeper than m when the total is below the Fibonacci number of m + 1 |
| `OptimalCode.Deepen` | dep/bzip2/huffman.c:100-110 | Any prefix code can be changed, for no more bits and none deeper, so that the two lightest items have longest codes of one length |
| `OptimalCode.JoinStep` | dep/bzip2/huffman.c:100-110 | So it gives one for the items after the two lightest are joined, for as many bits less as they weigh together |
| `HuffmanCost.CutIsBest` | dep/bzip2/huffman.c:100-121 | Huffman's theorem: at every stage no other lengths for the roots spend fewer bits than their depths in the finished tree, and none that spend as few stay less deep, whatever heights they carry |
| `HuffmanCost.CutIsFull` | dep/bzip2/huffman.c:114-121 | Across every cut of the finished tree the Kraft sum is exactly one |
| `HuffmanCost.TreeIsOptimal` | dep/bzip2/huffman.c:25-31 | The tree's lengths are optimal among all prefix codes, and thanks to the height in the low byte of the weights they are within a limit if any optimal code is |
| `OptimalCode.FrequentShorter` | dep/bzip2/huffman.c:63-148 | Of two symbols of an optimal code the more frequent never has the longer code |
| `HuffmanCost.SmallTotal` | dep/bzip2/huffman.c:100-121 | Frequencies whose total is below the Fibonacci number of m + 1 have an optimal code no longer than m |
| `CodeLengths.RescaleShrinks` | dep/bzip2/huffman.c:142-146 | Rescaling lowers the total as long as it exceeds two per symbol |
| `CodeLengths.EndsSoon` | dep/bzip2/huffman.c:142-146 | So for every limit that lets twos in every leaf pass rescaling leads to an optimal code within it |
| `CodeLengths.MeasuredAtOnce` | dep/bzip2/huffman.c:140 | Where some optimal code for the frequencies themselves is short enough, the lengths are optimal for them |
| `CodeLengths.MakeCodeLengths` | dep/bzip2/huffman.c:63-148 | The lengths are 1..maxLen with Kraft sum exactly one, and optimal for the frequencies, zeros counted as one, rescaled just as often as it takes until some optimal code is short enough; it ends whenever there is such a number of times |
| `CanonicalCode.CodeFits` | dep/bzip2/huffman.c:152-167 | Under Kraft's inequality every code fits its length |
| `CanonicalCode.PrefixFree` | dep/bzip2/huffman.c:152-167 | Under Kraft's inequality no code is a prefix of another |
| `CanonicalCode.AssignCodes` | dep/bzip2/huffman.c:152-167 | The assigned numbers are the canonical codes |
| `CanonicalCode.CreateDecodeTables` | dep/bzip2/huffman.c:171-205 | limit is one below the codes in use at each length, base maps a code to its rank, perm lists the symbols by rank |
| `BitIO.BitWriter.Write` | dep/bzip2/compress.c:58-78 | bsW appends exactly the n bits of v to everything written |
| `BitIO.BitWriter.Finish` | dep/bzip2/compress.c:46-54 | bsFinishWrite puts out all bits, padded with zeros to a byte |
| `BitIO.BitWriter.WriteWord` | dep/bzip2/compress.c:83-89 | bsPutUInt32 appends the 32 bits, most significant first |
| `BitIO.KeepsTake` | dep/bzip2/decompress.c:43-65 | The shift and mask of GET_BITS give the oldest n unused bits and keep the rest |
| `BitIO.KeepsLoad` | dep/bzip2/decompress.c:55-59 | Loading a byte in 32-bit arithmetic appends its bits although older bits are shifted out |
| `TableChoice.BestTable` | dep/bzip2/compress.c:396-401 | The chosen table is a cheapest one, the first on a tie |
| `TableChoice.SelectTables` | dep/bzip2/compress.c:343-434 | Every group of fifty gets a cheapest table, the first on a tie, and every table counts exactly the symbols of the groups it was given |
| `TableChoice.InitialTables` | dep/bzip2/compress.c:264-309 | The alphabet is cut into consecutive shares, one for each table: each is the shortest that takes its part of the frequency left, every second one but the last goes without its last symbol; a table costs 0 in its share and 15 outside |
| `TableChoice.ChooseTables` | dep/bzip2/compress.c:239-452 | Four passes from the initial tables: in each, every group of fifty selects its cheapest table, the first on a tie, and every new table is optimal, at most 17 bits long, for the symbols of the groups that selected it (as MakeCodeLengths measures them) |
| `TableChoice.ChoiceIsValid` | dep/bzip2/compress.c:455-458 | What they settle on is a coding the format and the decoder admit, with at most 18001 selectors |
| `BlockWriter.MakeSelectorMtf` | dep/bzip2/compress.c:461-478 | selectorMtf holds the selectors' positions in a list that moves each used table to the front |
| `BlockWriter.SendMtfValues` | dep/bzip2/compress.c:480-594 | Exactly the block body is written: map, counts, unary selectors, delta-coded lengths, codes in groups of fifty |
| `BlockReader.FieldsChecked` | dep/bzip2/decompress.c:195-330 | In front of the symbols exactly these are refused, each at once: bytes other than BZh1..9 and the two magic numbers, an origin above 100000 * level + 10, a table count outside 2..6, no selector, a selector beyond the tables, a code length outside 1..20 |
| `BlockReader.RunResumes` | dep/bzip2/decompress.c:113-165 | Suspending for input anywhere and resuming gives the same run of the decoder |
| `BlockReader.ReadsRun` | dep/bzip2/decompress.c:43-65 | Bits the decoder takes exactly leave it where it would stand with more input behind them |
| `BlockRoundTrip.ReadMapping` | dep/bzip2/decompress.c:266-283 | The two-level map of bytes in use reads back |
| `BlockRoundTrip.SelectorsRoundTrip` | dep/bzip2/decompress.c:302-314 | Undoing the selector move-to-front gives back the selectors |
| `BlockRoundTrip.ReadSelectors` | dep/bzip2/decompress.c:286-314 | The unary selectors read back |
| `BlockRoundTrip.ReadRow` | dep/bzip2/decompress.c:316-329 | A delta-coded table of lengths in 1..20 reads back |
| `BlockRoundTrip.PrefixFails` | dep/bzip2/decompress.c:89-95 | A proper prefix of a code never passes the limit test |
| `BlockRoundTrip.LookupFinds` | dep/bzip2/decompress.c:96-100 | A complete code passes it and base and perm give its symbol |
| `BlockRoundTrip.ReadCode` | dep/bzip2/decompress.c:74-101 | The limit/base/perm loop takes exactly one code and returns its symbol |
| `BlockRoundTrip.ReadCodes` | dep/bzip2/decompress.c:372-486 | All codes of a block, in groups of fifty, feed all symbols to the move-to-front decoder |
| `BlockRoundTrip.BlockReadsBack` | dep/bzip2/decompress.c:216-486 | For every last column, origin, checksum and valid coding of at most 18002 selectors, the block's bits are taken exactly and give back the same column and origin |
| `DecoderSound.LookupInRange` | dep/bzip2/decompress.c:88-100 | Whatever the lengths, a code that passes the limit test lies in its own length's share of perm: the range check never fires and no stale entry is read |
| `DecoderSound.AcceptOk` | dep/bzip2/decompress.c:375-486 | Whatever the symbols, only bytes in use are met, the block never exceeds its size, and es stays within 32 bits |
| `DecoderSound.StepKeepsSound` | dep/bzip2/decompress.c:195-486 | Every step of the decoder, on any bits, keeps code lengths, the tables selectors name, list positions, the block size and es in range; how many selectors are stored is another matter |
| `SelectorBounds.RunKeepsBounds` | dep/bzip2/decompress.c:286-314 | While every selector count read is at most 18002, no more selectors are stored than the arrays hold |
| `SelectorBounds.SelectorsFitIffField` | dep/bzip2/decompress.c:286-314 | From the selector count on, whatever bits follow, the selectors stored stay within the arrays if and only if the count is at most 18002 |
| `SelectorBounds.LargestFieldFails` | dep/bzip2/decompress.c:195-300 | A concrete stream, from its first byte on: header, block header, all bytes in use, two tables, the count 32767 and 18003 zero bits store more selectors than the arrays hold |
| `StreamBounds.StaysInside` | dep/bzip2/decompress.c:286-314 | On bits whose selector counts all fit, the decoder stands inside its arrays wherever the input is cut, in the first block or any later one, good or corrupt |
| `StreamBounds.SafeRuns` | dep/bzip2/decompress.c:286-314 | Standing inside with only fitting counts ahead is kept by any part of the run, whatever comes later |
| `StreamBounds.StreamFits` | dep/bzip2/compress.c:455-458 | What the compressor writes has only counts that fit, whatever follows it |
| `DecoderSound.RunKeepsSound` | dep/bzip2/decompress.c:195-486 | So does every run, on good or corrupt input |
| `BitReading.BitReader.GetBits` | dep/bzip2/decompress.c:43-65 | GET_BITS over any pieces of input returns the next n bits and loads no byte it does not need, or keeps all bits when the input ends first |
| `DecoderMachine.UndoSelectors` | dep/bzip2/decompress.c:302-314 | The loop over pos gives the selectors of the plain move-to-front list |
| `DecoderMachine.Machine.Request` | dep/bzip2/decompress.c:43-101 | Every GET_BITS on the decoder's own storage asks for the bits the plain machine asks for, minLens included |
| `DecoderMachine.Machine.Answer` | dep/bzip2/decompress.c:113-486 | On limit, base, perm, sliding lists, unzftab, tt or ll16, groupNo and groupPos, everything between two requests is the step of the plain machine, on good or corrupt bits |
| `DecoderMachine.Resume` | dep/bzip2/decompress.c:106-644 | BZ2_decompress on its own storage is the machine's run on the unused bits and the new input, and stops only for input, a block, the end or an error |
| `ColumnDecoder.TryCode` | dep/bzip2/decompress.c:88-101 | On limit, base and perm as built, the loop body decides as the machine does, for every code it can meet |
| `ColumnDecoder.Builder.TakeSymbol` | dep/bzip2/decompress.c:375-486 | Sliding lists, tt or ll16, unzftab, es and N together do with each symbol exactly what the list decoder does |
| `FrontEnd.RunCoder.AddPair` | dep/bzip2/bzlib.c:216-247 | The block then stands for its old content and the pending run; marks and checksum follow |
| `FrontEnd.RunCoder.AddChar` | dep/bzip2/bzlib.c:260-284 | What was taken in grows by exactly the character, in the block or in the pending run; the block stays the code of maximal runs, of which a character adds at most one |
| `FrontEnd.RunCoder.Flush` | dep/bzip2/bzlib.c:252-256 | Everything taken in is in the block, and no run is pending |
| `BlockEncoder.EncodeBlock` | dep/bzip2/compress.c:606-653 | Sorting, move-to-front, table choice and transmission write exactly the bits of a valid block for the given bytes, under the tables and selectors the four passes settle on |
| `BzStream.PackedReadsBack` | dep/bzip2/decompress.c:216-486 | The decoder reads such a block's bits exactly |
| `BlockSize.PackedSize` | dep/bzip2/compress.c:494-594 | A block of n bytes is written in at most 20n + 260000 bits |
| `BlockSize.FitsRoom` | dep/bzip2/bzlib.c:176-178 | That, with header, trailer and leftover bits, fits the space behind the block in arr2 at every block size |
| `Compressor.EState.CompressBlock` | dep/bzip2/compress.c:602-667 | The block joins the stream, which stays bit-exact, header first, trailer and padding last; zbits never outgrows arr2 |
| `Compressor.EState.TakeByte` | dep/bzip2/bzlib.c:289-329 | Consumed bytes stay the decodings of the finished blocks, the current block and the pending run |
| `Compressor.EState.CopyInput` | dep/bzip2/bzlib.c:289-329 | Copies until the block is full, the input ends or all promised input is in |
| `Compressor.EState.FlushBlock` | dep/bzip2/bzlib.c:384-388 | The last block of a flush or finish holds all pending input; nblock is at most nblockMAX+9 |
| `Compressor.EState.FullBlockHasRun` | dep/bzip2/bzlib.c:389-393 | A full block always leaves a run pending and fits the block size |
| `Compressor.EState.HandleCompress` | dep/bzip2/bzlib.c:361-403 | Ends for every input and room, keeps the stream invariant, stops a finish only when room is short or the trailer-bearing block is drained, and closes a block only when it is full, or the last one once all promised input is in |
| `Compressor.EState.Compress` | dep/bzip2/bzlib.c:407-464 | Over every sequence of RUN/FLUSH/FINISH calls with any sizes: BZ_STREAM_END only after all promised input is in and the complete stream is handed out; a finished flush leaves nothing pending; RUN with input and room, FLUSH, and FINISH with room, made with the promised input, are never a sequence error, and each comes nearer its end. Other calls in a flush or finish, or with another amount of input than promised, are refused and change nothing; a RUN or FINISH call without progress is an error. A call adds only full blocks, but for one at the end of a flush or finish; a RUN call that closes none hands out nothing of a new one |
| `Compressor.EState.FullUnlessForced` | dep/bzip2/bzlib.c:389-393 | A block not closed by a flush or finish holds at least 100000 * level - 19 bytes |
| `Compressor.EState.NotYetFull` | dep/bzip2/bzlib.c:389-397 | Data too short to fill a block closes none but by a flush or finish |
| `Compressor.EState.IdleIsComplete` | dep/bzip2/bzlib.c:458-461 | In the end state the bytes handed out are the whole stream for exactly the bytes consumed |
| `Decompressor.StartOutput` | dep/bzip2/decompress.c:494-576 | From the cells and counts the symbol loop left, for any column and origin, all checks pass and both variants start delivering the block they spell |
| `Playback.PlayResumes` | dep/bzip2/bzlib.c:808-858 | What was read may be forgotten: the rest of the story depends only on the decoder's state and the bits left, whatever comes later |
| `Playback.GoodBlockPlays` | dep/bzip2/decompress.c:216-576 | The bits of a good block stand for its expansion and lead on to the next block, its checksum agreeing and folded in |
| `Playback.StreamPlays` | dep/bzip2/bzlib.c:808-858 | A stream of good blocks stands for what its blocks stand for and ends with its last bit, whatever follows |
| `Decompressor.DState.BlockIsOver` | dep/bzip2/bzlib.c:824-838 | A delivered block is intact exactly if the checksums agree, and what lies ahead is then the next block |
| `Decompressor.DState.BlockIsCut` | dep/bzip2/bzlib.c:822-823 | A block cut off before a count ends the text in an error, right where the source reports it |
| `Decompressor.DState.Decompress` | dep/bzip2/bzlib.c:808-858 | On any input each call writes the next part of the text its bits stand for, whatever comes later; BZ_OK means the room is full or the input used up, BZ_STREAM_END that the stream ends within the last byte taken, an error that the bits break off right here. All that is written is counted in avail_out, unless FAST finds a block cut short: then at least one byte is not, and what is not counted still lies ahead. While the selector counts ahead fit, no call leaves the selector arrays |
| `Adler32.DeferredModulo` | dep/zlib/adler32.c:14-20 | Reducing once at the end of a batch is reducing at every byte, from any start |
| `Adler32.BatchFits` | dep/zlib/adler32.c:14-16 | Within NMAX bytes neither sum reaches 2^32, whatever word the batch starts from |
| `Adler32.BatchTight` | dep/zlib/adler32.c:14-16 | From the largest reduced start, NMAX + 1 bytes of 255 do reach it |
| `Adler32.Checksum` | dep/zlib/adler32.c:65-133 | From every start word adler32 is the byte-wise modular definition, for every length, short paths included; the packed result is reduced except exactly where a single byte spills |
| `Adler32.Mod28Exact` | dep/zlib/adler32.c:35-39 | MOD28 is % 65521 below 2^28 |
| `Adler32.ModExact` | dep/zlib/adler32.c:40-44 | MOD is % 65521 on 32-bit values |
| `Adler32.Mod63Exact` | dep/zlib/adler32.c:45-57 | MOD63 is % 65521 below 2^63 |
| `Adler32.CombineContinues` | dep/zlib/adler32.c:136-162 | The combination continues any checksum by a string known only by checksum and length |
| `Adler32.Combine` | dep/zlib/adler32.c:136-162 | On packed words adler32_combine_ gives the checksum of the concatenation, and the error word for a negative length |
| `Adler32.CombineFits` | dep/zlib/adler32.c:146-155 | No product or sum in it leaves 32 bits |
| `Crc32.Polynomial` | dep/zlib/crc32.c:97-108 | The constant's bits are the terms of the polynomial: 26, 23, 22, 16, 12, 11, 10, 8, 7, 5, 4, 2, 1 and 0 |
| `Crc32Check.DigitsChecked` | dep/zlib/crc32.c:205-231 | The checksum of the digits 1 to 9 is 0xcbf43926 |
| `Crc32.ByteStep` | dep/zlib/crc32.c:200-201 | Eight shifts of the register are one table look-up and a byte shift |
| `Crc32.WordStep` | dep/zlib/crc32.c:241-244 | Thirty-two shifts are four look-ups, one per table |
| `Crc32.AbsorbWord` | dep/zlib/crc32.c:241-244 | Absorbing a little-endian word is absorbing its four bytes in turn |
| `Crc32.MakeCrcTable` | dep/zlib/crc32.c:90-130 | Table k holds, for each byte, the register after it and k zero bytes |
| `Crc32.Crc32Bytes` | dep/zlib/crc32.c:205-231 | The byte loop is the bit-serial definition |
| `Crc32.Crc32Little` | dep/zlib/crc32.c:247-278 | So is the four-bytes-at-a-time loop, for every start value, length and alignment |
| `Crc32.TimesApplies` | dep/zlib/crc32.c:327-341 | Multiplying by the matrix of k zero bits applies k zero bits to any register |
| `Crc32.MatrixSquare` | dep/zlib/crc32.c:344-352 | Squaring the matrix of k zero bits gives the matrix of 2k |
| `Crc32.CombineLaw` | dep/zlib/crc32.c:355-408 | The checksum of a concatenation is zeros applied to the first, plus the second |
| `Crc32.Combine` | dep/zlib/crc32.c:355-408 | crc32_combine_ gives the checksum of the concatenation for all byte strings |
| `HistoryWindow.Inflater.UpdateWindow` | dep/zlib/inflate.c:378-426 | The circular window holds the last whave bytes of all output, ending just before wnext |
| `HistoryWindow.Inflater.Match` | dep/zlib/inflate.c:1122-1166 | A match is refused exactly when it reaches beyond the window; else the bytes copied are those of the naive copy from all output |
| `HistoryWindow.Inflater.FastMatch` | dep/zlib/inffast.c:186-281 | In all three window cases of inflate_fast the whole match is the naive copy |
| `HistoryWindow.Inflater.RefusedIffBeforeStart` | dep/zlib/inflate.c:1127-1132 | Up to the window size, refused exactly when the distance reaches before the first byte output |
| `LsbCode.BackwardIncrement` | dep/zlib/inftrees.c:241-250 | The backwards increment of huff is the reversal of code + 1 |
| `LsbCode.NextBits` | dep/zlib/inftrees.c:241-257 | In sorted order the next symbol's key is the incremented one |
| `LsbCode.KeysDisjoint` | dep/zlib/inftrees.c:232-239 | No table index continues two codes |
| `SubTables.LookAhead` | dep/zlib/inftrees.c:268-276 | Where the look-ahead stops, no code sharing the sub-table is too long for it |
| `SubTables.NewSlot` | dep/zlib/inftrees.c:259-266 | A root slot gets at most one sub-table |
| `SubTables.EnterSub` | dep/zlib/inftrees.c:217-239 | Filling a sub-table places the symbol and disturbs no other |
| `InflateBuild.StringsLeft` | dep/zlib/inftrees.c:130-136 | left ends as the free strings, negative exactly for over-subscribed lengths |
| `InflateBuild.SortSymbols` | dep/zlib/inftrees.c:140-148 | work lists the coded symbols by length, then by symbol |
| `InflateBuild.FillEntry` | dep/zlib/inftrees.c:232-239 | Exactly the slots whose low bits are the code get the entry |
| `InflateBuild.SubSize` | dep/zlib/inftrees.c:268-276 | The sub-table is wide enough for all codes that share it and, for a complete code, no wider |
| `TableSize.LookAheadExact` | dep/zlib/inftrees.c:268-276 | Where the look-ahead of a complete code stops is the length of the longest code with that root prefix |
| `TableSize.NextSoFar` | dep/zlib/inftrees.c:260-283 | From one symbol to the next the room taken grows by nothing or by the sub-table of a new root prefix |
| `InflateBuild.FillTable` | dep/zlib/inftrees.c:205-290 | The loop enters every symbol and takes just the total room, or gives up exactly when that total reaches ENOUGH |
| `InflateTrees.BuildTable` | dep/zlib/inftrees.c:32-305 | Refuses exactly the over-subscribed sets and the incomplete ones other than a single one-bit code; gives up exactly when 2^root plus the sub-table sizes reach ENOUGH, never for the code-length code, whose caller provides the room; on return 0 every coded symbol can be found |
| `Enough.RoomIdentity` | dep/zlib/inftrees.c:260-283 | The room of the sub-tables of a complete code, up to any length, is the number of codes in them plus what each shorter length leaves open under the prefix it has begun |
| `Enough.TwoEach` | dep/zlib/inftrees.c:260-283 | Every sub-table has at least two codes |
| `Enough.EnoughLens` | dep/zlib/inftrees.h:39-49 | No complete code of at most 286 symbols and 15 bits needs more than 852 slots with a root of 9 bits |
| `Enough.EnoughDists` | dep/zlib/inftrees.h:39-50 | No complete code of at most 30 symbols and 15 bits needs more than 592 slots with a root of 6 bits |
| `Enough.EnoughForInflate` | dep/zlib/inflate.c:993-1014 | So no table inflate asks for takes more, complete code or single, root widened or narrowed to the lengths in use |
| `Enough.GivesUpAtMost` | dep/zlib/inftrees.c:278-282 | On what inflate passes, inflate_table gives up on a code if and only if its table takes exactly 852 or 592 slots |
| `EnoughReached.LensFull` | dep/zlib/inftrees.c:278-282 | There is such a literal/length code of 286 symbols: complete, its table takes 852 slots, and it is given up on |
| `EnoughReached.DistsFull` | dep/zlib/inftrees.c:278-282 | And a distance code of 30 symbols whose table takes 592 |
| `InflateTrees.CodesNeedLittle` | dep/zlib/inflate.c:922-926 | The code-length code as inflate.c passes it, lengths of three bits and seven root bits, needs 128 slots at most |
| `InflateLookup.LookupFindsCode` | dep/zlib/inflate.c:1030-1047 | Bits that start with a symbol's code reach its entry by the root table and at most one sub-table, using up exactly the code |
| `InflateLookup.LookupNeedsWholeCode` | dep/zlib/inflate.c:1030-1047 | On a complete code a look succeeds exactly when the loaded bits hold the whole code: zero padding is never taken for input |
| `InflateLookup.RootWritten` | dep/zlib/inftrees.c:215-305 | On a complete code no root slot is left unwritten |
| `InflateLookup.SubWritten` | dep/zlib/inftrees.c:215-305 | Nor any sub-table slot |
| `InflateCodes.BuiltServes` | dep/zlib/inflate.c:993-1014 | For every code inflate_table accepts, complete, single or empty, a look at its table with any bits tells what the code itself says: the symbol whose code they begin with, an error, or nothing yet |
| `InflateCodes.AnswerSoon` | dep/zlib/inflate.c:1030-1047 | Fifteen bits always hold a whole code or an error |
| `DeflateBits.NextMore` | dep/zlib/inflate.c:1020-1122 | Where the bits at hand lead does not depend on the bits that follow: a call may end anywhere |
| `DeflateBits.AfterLenOk` | dep/zlib/inftrees.c:60-65 | Every length symbol and its extra bits give a length of 3 to 258 |
| `DeflateBits.AfterDistOk` | dep/zlib/inftrees.c:66-73 | Every distance symbol and its extra bits give a distance of 1 to 32768 |
| `DeflateTokens.LengthStart` | dep/zlib/inftrees.c:60-62 | The length a symbol begins with, in closed form |
| `DeflateTokens.LengthsMeet` | dep/zlib/inftrees.c:60-65 | The lengths of each symbol end where those of the next begin, up to 258, which symbol 284 could spell too |
| `DeflateTokens.DistancesMeet` | dep/zlib/inftrees.c:66-73 | The distances of each symbol end where those of the next begin, up to 32768 |
| `DeflateTokens.EveryToken` | dep/zlib/inftrees.c:60-73 | With codes for all symbols every literal, length and distance of the format has a spelling: the ranges of the symbols leave no gap |
| `DeflateTokens.BlockPlays` | dep/zlib/inflate.c:1020-1171 | The bits that spell any tokens and end the block are read back as those tokens, each match copied from all output so far, up to the first whose distance reaches before the first byte |
| `BitHold.Hold.Pull` | dep/zlib/inflate.c:488-494 | A byte pulled lies above the bits held; of those and the rest of the input nothing is lost |
| `BitHold.Hold.NeedBits` | dep/zlib/inflate.c:498-502 | NEEDBITS pulls no byte it does not need, or leaves all bits held when the input ends |
| `InflateBlock.LookUp` | dep/zlib/inflate.c:1030-1048 | The lookup loops, over any pieces of input, read exactly the next code at the root table or a sub-table; they wait only while the bits held do not contain it, and leave less than a byte they pulled |
| `InflateBlock.ReadState` | dep/zlib/inflate.c:1020-1115 | LEN, LENEXT, DIST and DISTEXT on hold and the built tables lead where the bits themselves lead, or stop for want of input |
| `InflateFast.FastCode` | dep/zlib/inffast.c:127-138 | With fifteen bits held both levels of inflate_fast read the same code; a second-level entry is never a link |
| `InflateFast.FastLength` | dep/zlib/inffast.c:121-151 | A literal or a length of inflate_fast is that of the slow states, and pulls at most three bytes |
| `InflateFast.FastDistance` | dep/zlib/inffast.c:152-186 | So is a distance; it pulls at most four bytes, four only if fewer than four bits were left, so a pair stays within the six bytes asked for |
| `InflateFast.GiveBack` | dep/zlib/inffast.c:309-313 | Whole bytes held go back to the input and nothing read is lost, never before where inflate_fast began |
| `InflateFast.EntryAssumption` | dep/zlib/inffast.c:40-46 | Fewer than eight bits are held whenever inflate_fast is entered if and only if no literal/length code is longer than eight bits |
| `InflateStream.BlockInflater.FastTurn` | dep/zlib/inffast.c:120-307 | One round of inflate_fast, bits and copies together, leaves ahead what was ahead, within six bytes of input and 258 of room |
| `InflateStream.BlockInflater.FastRounds` | dep/zlib/inffast.c:120-307 | So do all rounds, and however many bits were held on entry no more whole bytes are held than were pulled |
| `InflateStream.BlockInflater.TurnMatch` | dep/zlib/inflate.c:1122-1166 | A match cut anywhere by the room leaves the same output and distances to come; it is refused only if its distance reaches before the first byte or beyond the window, and at the start of a call it always is |
| `InflateStream.BlockInflater.Call` | dep/zlib/inflate.c:1018-1244 | One call with any input and room: its output, followed by what all bits not yet used lead to, is what they led to before, and no distance is ahead that was not; it stops only at the end of the block or an error, without room, or without a whole code or field, where it holds all bits as they came; the window then holds the end of all output |
| `InflateStream.InflateRest` | dep/zlib/inflate.c:1018-1244 | The rest of a block's data behind any output and any bits held, however input and room are cut into calls and whenever inflate_fast runs: output and verdict are those of reading symbol after symbol with each match copied from all output; only a distance that is met and beyond the window may be refused, and with one byte of room a call one is if and only if there is such a distance; at the end of the block window and bits are as the next needs them |
| `InflateStream.NearIsExact` | dep/zlib/inflate.c:1127-1132 | If no distance met within the output is beyond the window, or the window is the largest, text and verdict are exactly those of the bits |
| `DeflateBits.FarthestBound` | dep/zlib/inftrees.c:66-73 | Whatever the codes and the bits, no distance met is beyond 32768 |
| `InflateStream.InflateAll` | dep/zlib/inflate.c:1018-1244 | The same for a first block and every window size, the text and verdict exact if no distance met is beyond the window, and where the input that was not used begins |
| `InflateStream.InflateTokens` | dep/zlib/inflate.c:1018-1244 | A block that spells tokens whose distances fit the window, behind any output and in the middle of a byte, adds the text of the tokens one after the other, and behind its end-of-block code lies what was there |
| `InflateStream.InflateBlockData` | dep/zlib/inflate.c:993-1244 | From the code lengths on, with any window and any bits held before: both tables are built exactly for the lengths inflate_table accepts, and then any bits in any pieces are inflated as above |
| `InflateStream.FirstByte` | dep/zlib/inflate.c:1030-1034 | For a code longer than eight bits there is a byte that begins it and holds no whole code |
| `InflateStream.HoldsEight` | dep/zlib/inflate.c:1020-1034 | A block's data that begins with such a byte, given alone: the call stays at the code with eight bits held, and the next may enter inflate_fast so |

## Left out

- mainSort and its helpers (dep/bzip2/blocksort.c:345-1011): every block is sorted by fallbackSort; any other sorter that meets `Rotations.SortsRotations` would do, since no result depends on how ties are broken.
- RoundTrip.DecodeAll: the selectors are sequences, so for a stream whose selector count exceeds 18002 it says what the decoder would do with room for them; the source writes out of bounds there (see Findings).
- Decompressor.DState.Decompress: what a caller gets by calling on after BZ_DATA_ERROR or BZ_DATA_ERROR_MAGIC is stated only where FAST found a block cut short, since its state is then the one before that part of the call.
- Decompressor.StartOutput: tt, or ll16 and ll4, are allocated for each block instead of once for the stream; no result depends on what they held.
- BlockOutput.OutputState.Fetch: BZ2_rNums is a parameter, any table of 512 numbers; its constants are not part of the model.
- Compressor.EState.CompressBlock: zbits is a sequence of its own; that it fits behind the block in arr2 is stated as a bound on its length.
- QuickSort.QSort3: the two stacks are one sequence of ranges, and eclass is passed by value since it does not change.
- FallbackSort.NextBucket: bhtab is an array of bits read in aligned groups of 32, not an array of words; eclass and eclass8 are separate storage, and restoring the block is stated on its own.
- TableChoice.ChooseTables: the packed cost additions for six tables are the plain sums; mtfFreq is counted in a pass of its own.
- CodeLengths.MakeCodeLengths: asks for a sum of frequencies below 2^23, since the source keeps them shifted by 8 in 32-bit integers; and that rescaling leads to a short enough code (`CodeLengths.RescalingEnds`), since otherwise the source does not end.
- File and stdio layers of both libraries, allocation, null and parameter checks, verbosity, 64-bit byte counters.
- The deflate encoder: its block emission is in trees.c, which is not part of this model.
- inflate's header, stored-block and dynamic-header states, preset dictionaries, inflateSync and infback.c.
- InflateStream.BlockInflater.Call: the data of one block; at its end the call returns, as with Z_BLOCK, instead of going on to the next header. The messages, state->back and state->was are left out.
- InflateStream.InflateBlockData: the two tables are built in arrays of their own instead of side by side in state->codes, with ENOUGH_LENS and ENOUGH_DISTS slots each.
- InflateStream.InflateRest: with a window of less than 32768 bytes and a distance met beyond it, which calls refuse it depends on how the output is cut into calls; the contract fixes it for one byte of room a call and allows both otherwise.
- HistoryWindow.Inflater.Match: the compile-time option that allows distances too far back is off, as it is by default.
- Adler32.Checksum: a null buffer is left out; the sixteen-fold unrolled loop is a plain one. Both builds are covered, since each division-free reduction is proved to be the remainder.
- Crc32.MakeCrcTable: the polynomial is its constant 0xedb88320, whose bits are `Crc32.Polynomial`, not assembled from its exponents; the constants of crc32.h are those of the tables made here and not compared one by one; the byte-reversed tables and crc32_big are left out.
