# Verified cores of the cruft runtime

Dafny models of five algorithmic cores of the repository, with proofs of what they promise. Run
`dafny verify dfyconfig.toml` to check all of it.

- **DEFLATE, gzip and zlib** (`crates/compression`). Bytes are numbers below 256 and compressed data are streams of
  bits. `Bits` and `BitIO` hold the bit reader and writer; `Huffman` canonical codes; `Coins`, `PackageChain` and
  `PackageMerge` the length-limited code construction and its optimality; `Lz77` the hash-chain tokenizer;
  `DeflateTables` and `Inflate` the decompressor; `Locality` and `Truncation` what decompression depends on;
  `CodeLengths`, `TokenCode`, `CodeChoice`, `Dynamic`, `FixedBlock` and `Deflate` the compressor and its inversion by
  the decompressor; `TokenChoice` which tokens it takes; `BlockExact` and `Streams` which inputs decompress to what;
  `Crc32`, `Containers` and `ContainersExact` the checksums and file formats.
- **The diff and deep equality of `assert`** (`crates/cruft/src/assert.rs`). `Myers` is the greedy shortest edit script
  with its in-place V array and its walk back through the snapshots; `ObjectGraph` says when
  possibly cyclic object graphs are equal and `ObjectPaths` what that means for paths, `DeepEqual` is the comparison
  with its memo of assumed pairs, and `DeepEqualExact` which equal graphs it accepts.
- **HPACK** (`crates/cruft/src/hpack.rs`). `HpackInteger`, `HpackHuffman`, `Hpack` and `HpackFields`: prefix integers, the
  Huffman trie, the dynamic table, header blocks and what they say.
- **DER** (`crates/asn1-der`). `DerLength`, `Der` and `DerValues`: canonical lengths, values, trees, integers and object
  identifiers.
- **`events.on`** (`crates/cruft/src/events.rs`). `EventsOn`: the iterator as a state machine over its six kinds of steps;
  `EventsOnLaw`: how every promise ends.

Code that updates state is modelled as classes and methods with loops; growing vectors are sequences, the hash chains
and the V array are arrays updated in place. Each is proved against a specification function,
and what the source promises is proved about that function in terms of bytes, paths, runs or steps: as round trips,
invariants, minimality and exact characterisations of what is accepted and what comes out.

Choices worth knowing:

- Numbers are unbounded except where the width shows: the 32-bit positions of the hash chains and of the V array,
  the 64-bit word of HPACK integers and object identifier arcs, the 32-bit size of a gzip member.
- `Decompresses(c, d)` says that c, followed by any bytes and under any limit of at least |d|, inflates to d with |c| bytes
  consumed. All encoders are proved to produce such a c.
- The Huffman table of HPACK is any prefix-free table for 256 bytes and an end symbol of at least eight ones. Its 257
  entries are not spelled out.
- Deep equality is sound: a positive answer exhibits a bisimulation. It is not complete, for two reasons, each with a
  lemma that shows it: a pair is refused while one of its sides is being compared with another partner (`CyclesRefused`),
  and Sets and Maps are matched greedily (`SetsRefused`). Without collections the first reason is the only one, and
  `YesWithoutCollections` says exactly when the answer is yes; with them `StraightAnswer` gives a sufficient
  condition, in which entries that share a possible partner are interchangeable.
- An object identifier's first two arcs share one byte. The encoder does not check that they fit, so `OidBack` says
  exactly which arcs survive. The sum is taken in 64 bits, which does not change its low byte. The decoder refuses an
  identifier that stops inside an arc only when the groups read of it are not all zero (`OidExact`, `OidCutShort`).
- Where the code is more lenient than RFC 1951 (incomplete and over-subscribed codes are accepted), the model follows
  the code.

## Model

| member | source | states |
|---|---|---|
| BitIO.BitReader.ReadBits | crates/compression/src/lib.rs:65-80 | reading n bits gives the n-bit field at the reader's position of the bit stream and moves by n, or fails exactly when fewer bits are left |
| BitIO.BitReader.AlignToByte | crates/compression/src/lib.rs:82-87 | the position becomes the next byte boundary |
| BitIO.BitReader.ReadAlignedU16Le | crates/compression/src/lib.rs:89-97 | an aligned little-endian 16-bit number is the 16-bit field of the stream |
| BitIO.BitReader.ReadAlignedBytes | crates/compression/src/lib.rs:99-106 | exactly the next n bytes, or an error exactly when fewer are left |
| BitIO.BitWriter.WriteBits | crates/compression/src/lib.rs:564-572 | the stream written so far grows by the bits of the value, lowest first, for every field of up to 24 bits |
| BitIO.BitWriter.WriteHuff | crates/compression/src/lib.rs:573-577 | the stream grows by the code, highest bit first |
| BitIO.BitWriter.Finish | crates/compression/src/lib.rs:578-584 | the bytes hold exactly the stream written, in the fewest bytes, with zero bits after it |
| BitIO.PacksOnce | crates/compression/src/lib.rs:578-584 | the stream written determines the bytes |
| Bits.FieldWritten | crates/compression/src/lib.rs:65-80 | a field that was written is the field that is read, wherever it stands in a stream |
| Huffman.FromLengths | crates/compression/src/lib.rs:120-144 | the count/symbol table is built exactly when no length exceeds 15, also for over-subscribed and incomplete lengths, and then holds the symbols of each length in order |
| Huffman.DecodeSymbol | crates/compression/src/lib.rs:146-161 | decoding with the table is decoding with the code lengths, on every stream |
| Huffman.CodeFits | crates/compression/src/lib.rs:915-937 | under Kraft's inequality every canonical code fits its length |
| Huffman.DecodeWritten | crates/compression/src/lib.rs:113-162 | for lengths up to 15 with Kraft sum at most 1, the code of a symbol followed by anything decodes to that symbol and consumes exactly its length |
| Huffman.DecodeSound | crates/compression/src/lib.rs:146-161 | for any lengths at all, a symbol that is decoded has the bits read as its canonical code |
| Huffman.DecodeRefuses | crates/compression/src/lib.rs:146-161 | a prefix code refuses exactly the bits that start with no code, as the end of the input when fewer than fifteen bits are left and as an invalid code otherwise |
| Huffman.CanonicalCodes | crates/compression/src/lib.rs:915-937 | the encoder's code numbers are the canonical ones (section 3.2.2 of RFC 1951) |
| Coins.StableSortStable | crates/compression/src/lib.rs:887-904 | the stable sort keeps the order of coins of equal weight |
| Coins.MergeCheapest | crates/compression/src/lib.rs:901-904 | in a merge of two sorted coin lists every prefix is at most as heavy as any choice of as many coins from the fronts of the two lists |
| PackageChain.CompleteKraft | crates/compression/src/lib.rs:864-913 | the lengths counted off a chain of package choices have a Kraft sum of exactly 1 |
| PackageMerge.TopIsComplete | crates/compression/src/lib.rs:864-913 | with 2 to 2^max_bits active symbols every active symbol gets a length in 1..max_bits, inactive ones 0, and the Kraft sum is exactly 1 |
| PackageMerge.TopIsOptimal | crates/compression/src/lib.rs:864-913 | no assignment of lengths up to max_bits that satisfies Kraft's inequality costs less |
| PackageMerge.PackageMerge | crates/compression/src/lib.rs:864-913 | for at most 2^max_bits active symbols, including none and one: exactly the occurring symbols get lengths, a prefix code, complete from two symbols on, and of least total cost |
| Lz77.FindsLongest | crates/compression/src/lib.rs:815-836 | no position among the 256 nearest with the same hash and at most 32768 back matches longer than the match found |
| Lz77.WalkChain | crates/compression/src/lib.rs:813-836 | whatever the chains hold, a match reported can be copied; below 2^31 bytes walking the 32-bit hash chains is the search over all earlier positions with that hash |
| Lz77.Enter | crates/compression/src/lib.rs:853-857 | entering a position keeps the chains those of the search |
| Lz77.Tokenize | crates/compression/src/lib.rs:803-862 | for every input the tokens, replayed as literals and (overlapping) copies, spell the input; below 2^31 bytes they are the greedy tokens of the search |
| TokenChoice.TokensAreGreedy | crates/compression/src/lib.rs:803-862 | at every place the token of the search is a match if one of the 256 nearest positions with the same hash, at most 32768 back, repeats three bytes, and then the longest and among those the nearest; otherwise the byte |
| DeflateTables.LengthFits | crates/compression/src/lib.rs:594-604 | every match length 3..258 is its code's base plus an offset that fits the code's extra bits |
| DeflateTables.DistFits | crates/compression/src/lib.rs:605-615 | every distance 1..32768 likewise |
| DeflateTables.ClOrderPermutes | crates/compression/src/lib.rs:202-204 | the transmission order of code length codes is a permutation of the 19 symbols |
| DeflateTables.EncLengthCode | crates/compression/src/lib.rs:594-604 | the early-exit scan finds the last code whose base does not exceed the length |
| DeflateTables.EncDistanceCode | crates/compression/src/lib.rs:605-615 | the early-exit scan finds the last code whose base does not exceed the distance |
| Inflate.Inflated | crates/compression/src/lib.rs:321-365 | on every input and limit decompression terminates; on success the output is within the limit and no more than the input is consumed |
| Inflate.CopyRepeats | crates/compression/src/lib.rs:301-309 | a copy leaves the output before it alone, and each of its bytes equals the one the distance before it, also where it reads what it has just written |
| Inflate.Complement | crates/compression/src/lib.rs:337-339 | the exclusive-or test of a stored block's lengths is that they add up to 0xFFFF |
| Inflate.ReadDynamicTables | crates/compression/src/lib.rs:206-267 | the two tables are those of the code lengths in the header, or the header's error |
| Inflate.DecompressBlock | crates/compression/src/lib.rs:269-311 | the loop decodes the block of the stream, with copies only from bytes already produced, and the same errors in the same order |
| Inflate.InflateWithLimitConsumed | crates/compression/src/lib.rs:321-365 | the decoder loop computes decompression of the stream: output, consumed bytes and errors; StreamBack, StreamRead and InflatedCut say what that is |
| Streams.StreamBack | crates/compression/src/lib.rs:321-365 | any bytes that start with the bits of a list of stored, fixed and dynamic blocks, each right after the one before it except for the padding inside stored blocks, decompress to what the blocks spell together, with copies into earlier blocks, and the bytes that hold those bits are consumed |
| Streams.HeaderRead | crates/compression/src/lib.rs:206-267 | a dynamic header that is accepted was written so: counts, code length code and run symbols that unroll to the code lengths |
| Streams.StreamRead | crates/compression/src/lib.rs:321-365 | conversely, whatever decompresses, for any code lengths at all, starts with the bits of such a list of blocks that spell the output, and exactly the bytes that hold them are consumed |
| Truncation.InflatedCut | crates/compression/src/lib.rs:65-365 | decompressing fewer bytes than are consumed fails with the error for the end of the input, wherever the cut is |
| Locality.InflatedLocal | crates/compression/src/lib.rs:321-365 | decompression depends only on the bytes it consumes: any input that starts with them gives the same output and count |
| Locality.InflatedLimit | crates/compression/src/lib.rs:269-365 | the limit decides only whether the output fits: under another limit the result is the same, or the output-too-large error exactly when it is longer |
| CodeLengths.RunLengths | crates/compression/src/lib.rs:981-1026 | the 16/17/18 run symbols stand for exactly the code lengths, and are the ones of RunsChosen |
| CodeLengths.RunsChosen | crates/compression/src/lib.rs:981-1026 | at every place the symbol sent is the one for the rest of the maximal run there: up to 138 zeros from eleven on, up to ten from three on, up to six repetitions from three on after the first, else the length itself |
| CodeLengths.RunsRead | crates/compression/src/lib.rs:219-262 | the decoder unrolls written run symbols to the lengths they stand for |
| CodeLengths.ClLensRead | crates/compression/src/lib.rs:211-214 | the decoder reads back the code length code although trailing zero lengths are not sent |
| CodeChoice.CountFreqs | crates/compression/src/lib.rs:941-952 | how often each literal/length and distance symbol occurs, the end of the block once |
| CodeChoice.BlockLength | crates/compression/src/lib.rs:1052-1072 | the bits of a block are the cost of its two codes at these frequencies plus extra bits that no code changes |
| CodeChoice.CheapestIsShortest | crates/compression/src/lib.rs:954-972 | codes of least cost give the shortest block |
| CodeChoice.ChooseCodes | crates/compression/src/lib.rs:941-972 | the codes chosen can code the tokens, and no pair of prefix codes of up to 15 bits codes the same tokens in a block of fewer bits |
| Dynamic.ChooseCl | crates/compression/src/lib.rs:1027-1034 | the code length code is the cheapest for the run symbols, and exactly the trailing zeros of the transmission order are dropped |
| TokenCode.CopyRebuilds | crates/compression/src/lib.rs:301-309 | a copy rebuilds the bytes it stands for, also where it overlaps itself |
| TokenCode.BlockBack | crates/compression/src/lib.rs:269-311 | a block of Huffman-coded tokens under any two prefix codes decodes to the data that the tokens spell |
| BlockExact.BlockRead | crates/compression/src/lib.rs:269-311 | conversely, for any code lengths at all: the bits of a block that is accepted are the codes and extra bits of literals and copies that spell exactly the bytes it adds, and the end symbol |
| BlockExact.BlockDecodesExactly | crates/compression/src/lib.rs:269-311 | under prefix codes a block decodes to d and ends at a position exactly when its bits up to there are such items that spell d, within the limit |
| BlockExact.ItemIsToken | crates/compression/src/lib.rs:594-615 | an item is written with the codes and extra bits that the encoder chooses for its length and distance, except length 258 given as 227 plus 31 |
| Dynamic.HeaderBack | crates/compression/src/lib.rs:206-267 | the decoder reads back the code lengths of both codes from a dynamic header |
| Dynamic.DynamicBack | crates/compression/src/lib.rs:206-365 | a dynamic block decompresses to the data its tokens spell |
| Dynamic.DeflateDynamic | crates/compression/src/lib.rs:939-1074 | for every input: inflating the result, whatever follows it and under every limit the input fits, returns the input and consumes exactly the result; the result is exactly the stream of the searched tokens under codes that no other codes beat |
| FixedBlock.FixedCodeIsCanonical | crates/compression/src/lib.rs:586-593 | the closed-form fixed codes are the canonical codes of the fixed lengths |
| FixedBlock.FixedPrefixCodes | crates/compression/src/lib.rs:164-184 | both fixed codes are prefix codes, the literal/length code complete |
| FixedBlock.SmallBestMatch | crates/compression/src/lib.rs:718-737 | the longest match over all earlier positions, the farthest of the longest, or none below three bytes |
| FixedBlock.DeflateFixed | crates/compression/src/lib.rs:625-703 | for every input the fused tokenizer and fixed-code writer is inverted by inflate, and writes exactly the fixed block of the searched tokens |
| FixedBlock.DeflateFixedLiterals | crates/compression/src/lib.rs:705-716 | likewise for one literal a byte |
| FixedBlock.DeflateFixedSmallLazy | crates/compression/src/lib.rs:760-792 | inverted by inflate; writes exactly the block of the tokens of TokensAreLazy |
| TokenChoice.TokensAreLazy | crates/compression/src/lib.rs:760-792 | at every place the token is the best match, unless the next place promises as much and no match has just been put off; otherwise the byte |
| Deflate.StoredDecompresses | crates/compression/src/lib.rs:1091-1114 | stored blocks decompress to the data, whatever follows them |
| Deflate.DeflateStored | crates/compression/src/lib.rs:1091-1114 | inverted by inflate, with five bytes for each block of up to 65535 bytes and one block for empty data |
| Deflate.StoredBlocksIs | crates/compression/src/lib.rs:1091-1114 | n bytes take n / 65535 blocks, rounded up, and one block if there are none |
| Deflate.DeflateBest | crates/compression/src/lib.rs:1076-1089 | inverted by inflate whichever encoding is picked; the shortest of the three, in the source's order among equals, so never longer than storing |
| Crc32.Crc32 | crates/compression/src/lib.rs:367-385 | the table-driven CRC equals the register fed one bit at a time, on every byte string |
| Crc32.TableStep | crates/compression/src/lib.rs:380-383 | one table lookup is eight steps of the register; rests on linearity over exclusive or |
| Crc32.StepsLinear | crates/compression/src/lib.rs:367-378 | the stepped register is linear over exclusive or |
| Crc32.DetectsBursts | crates/compression/src/lib.rs:367-385 | messages of equal length that differ only within 32 consecutive bits have different CRCs |
| Crc32.CrcOfByte | crates/compression/src/lib.rs:367-385 | the CRC of the byte 0x7F is 0x12B88320, which shows the polynomial and both masks |
| Containers.Adler32 | crates/compression/src/lib.rs:490-498 | the running sums modulo 65521 are the two sums of section 8.2 of RFC 1950 |
| Containers.AdlerOfByte | crates/compression/src/lib.rs:490-498 | the value of nothing is 1, that of one byte b is b + 1 in both halves |
| Containers.ZlibInflateWithLimit | crates/compression/src/lib.rs:504-533 | computes zlib decoding with the source's checks, errors and their order; ZlibExactly says what is accepted |
| ContainersExact.ZlibExactly | crates/compression/src/lib.rs:504-533 | accepted with output x exactly when the first two bytes are a multiple of 31 with method 8 and no dictionary, the middle starts with bytes that decompress to x, the last four bytes are Adler-32 of x, highest first, and x fits the limit |
| Containers.ZlibDeflateStored | crates/compression/src/lib.rs:1116-1129 | zlib inflation returns the data under every limit they fit; the bytes are 78 01, the best encoding and Adler-32 |
| Containers.GunzipMember | crates/compression/src/lib.rs:408-488 | computes member decoding with all optional header fields and the source's errors in order; MemberExactly says what is accepted |
| ContainersExact.HeadBack | crates/compression/src/lib.rs:412-459 | for every extra field below 65536 bytes, every name and comment without a zero byte, every header checksum and each combination of flags, the header written out as bytes is skipped exactly |
| ContainersExact.HeadRead | crates/compression/src/lib.rs:412-459 | conversely, a header that is accepted has that form |
| ContainersExact.MemberExactly | crates/compression/src/lib.rs:408-488 | the first n bytes are accepted as a member with contents x exactly when they are such a header, bytes that decompress to x, and the CRC-32 and the length modulo 2^32 of x, and x fits the limit, whatever follows |
| Truncation.MemberCut | crates/compression/src/lib.rs:408-488 | unpacking fewer bytes than the member has fails with the error for the end of the input, wherever the cut is |
| Containers.MemberLocal | crates/compression/src/lib.rs:408-488 | bytes after a member, and any limit its contents fit, do not change how it is read |
| Containers.GunzipWithLimit | crates/compression/src/lib.rs:391-406 | the loop with its shrinking budget computes the unpacking of GunzipExactly; the output never exceeds the limit |
| ContainersExact.GunzipExactly | crates/compression/src/lib.rs:391-406 | accepted with output y exactly when the input is one or more members of the form of MemberExactly, then bytes that do not start with 1f 8b, and y, which fits the limit, is their contents one after the other |
| Containers.GunzipConcat | crates/compression/src/lib.rs:391-406 | members by any encoder, one after the other and followed by bytes that start no member, unpack to their contents one after the other |
| Containers.GzipDeflateStored | crates/compression/src/lib.rs:1131-1153 | the output is one member whose contents are the data: a plain header for system 255, the best encoding, CRC and size |
| Containers.GzipDeflateNodeDefault | crates/compression/src/lib.rs:1155-1186 | likewise for system 3, with the block of the lazy tokens for up to sixteen bytes that are not all the same |
| Myers.FarIsFarthest | crates/cruft/src/assert.rs:472-498 | no path with the same numbers of insertions and deletions matches more lines than the greedy search, on the grid without border |
| Myers.ReachIff | crates/cruft/src/assert.rs:472-498 | with given numbers of insertions and deletions exactly the numbers of matches up to the farthest can be had |
| Myers.Project | crates/cruft/src/assert.rs:478-495 | a path that leaves the grid projects to its border with as many matches |
| Myers.FirstStopIsEnd | crates/cruft/src/assert.rs:493-495 | the first point where the search stops is exactly the end of both sides |
| Myers.FarBound | crates/cruft/src/assert.rs:470-492 | until then no x exceeds n + m, so the 32-bit array never overflows when n + m < 2^31 |
| Myers.StopExists | crates/cruft/src/assert.rs:472-499 | the search always stops within n + m rounds |
| Myers.Round | crates/cruft/src/assert.rs:473-497 | one round in place on the V array: it fills its diagonals with the farthest points, or stops at the end of both sides |
| Myers.Backtrack | crates/cruft/src/assert.rs:502-547 | the snapshots lead back along matches and one edit a round; the result is an alignment with exactly as many edits as rounds |
| Myers.ScriptSpells | crates/cruft/src/assert.rs:462-547 | dropping deletions from an alignment gives the actual lines, dropping insertions the expected lines; with the comma option up to one trailing comma on matches |
| Myers.Diff | crates/cruft/src/assert.rs:462-500 | the result is an alignment, no alignment has fewer insertions and deletions, and it is the one of OneScript |
| Myers.OneScript | crates/cruft/src/assert.rs:517-547 | from the end: wherever a deletion can come next in a shortest alignment it does, else an insertion, else a match; this leaves one alignment |
| Myers.LinesMatch | crates/cruft/src/assert.rs:442-460 | lines match when they are equal or, with the comma option, one is the other with a comma at its end |
| Myers.NopComma | crates/cruft/src/assert.rs:522-531 | a match shows one of the two lines, with the trailing comma if either has it |
| DeepEqual.Memo.Enter | crates/cruft/src/assert.rs:1659-1681 | a pair seen before counts as equal, a side active with another partner as different, otherwise the pair becomes active; the active maps stay inverse to each other |
| DeepEqual.Memo.Leave | crates/cruft/src/assert.rs:1683-1690 | only the pair's own entries leave the active maps |
| DeepEqual.Compare | crates/cruft/src/assert.rs:2261-2411 | answer and memo are those of the function Answer, on every heap; the active maps are restored whatever the answer; yes means the values are related under pairs that are all active or hold |
| DeepEqual.ComparePair | crates/cruft/src/assert.rs:1693-1705 | likewise for a pair of objects: known pairs are equal, pairs with an active side different, others are compared while active |
| DeepEqual.CompareObjects | crates/cruft/src/assert.rs:2283-2392 | likewise; yes means the two objects look the same under the pairs entered |
| DeepEqual.CompareProps | crates/cruft/src/assert.rs:2368-2387 | likewise; yes means the same keys with related values |
| DeepEqual.CompareEntries | crates/cruft/src/assert.rs:2523-2549 | likewise; yes means the entries of the two collections are matched one to one |
| DeepEqual.FindPartner | crates/cruft/src/assert.rs:2527-2546 | the first free partner that equals the entry; a failed candidate leaves the memo unchanged, a successful one brings its pairs along |
| DeepEqual.SoundAnswer | crates/cruft/src/assert.rs:2261-2411 | from justified pairs, a yes leaves justified pairs that relate the values |
| DeepEqual.StraightPartner | crates/cruft/src/assert.rs:2527-2546 | where some free partner is certain to be accepted, a partner is found no later than it, and what is found is bisimilar |
| DeepEqual.Replan | crates/cruft/src/assert.rs:2523-2549 | when an entry takes the partner planned for another, interchangeable entries can exchange their partners, so a greedy choice never leaves one without |
| DeepEqual.StraightAnswer | crates/cruft/src/assert.rs:2261-2411 | along the paths of a bisimulation in which collection entries that share a possible partner share all of them, and no object meets two partners on a path, the answer is yes |
| DeepEqual.DeepEqual | crates/cruft/src/assert.rs:2256-2411 | the answer is that of Answer; yes means the pairs assumed are a bisimulation relating the values, which agree along all paths as in BisimilarByPaths; yes is certain when a bisimulation as in StraightAnswer relates them |
| DeepEqual.PrimitivesAnswer | crates/cruft/src/assert.rs:2393-2411 | two primitives are equal exactly when both are symbols with the same description, or both NaN, or otherwise strictly equal in strict and loosely equal in loose mode |
| ObjectPaths.BisimilarByPaths | crates/cruft/src/assert.rs:2256-2411 | values are bisimilar exactly when, under some pairing of the entries of collections, every path of keys and entries of the first can be followed on the other, and at its end are primitives equal in the mode, one object, or objects of the same shape: prototype in strict mode, kind, array length, numbers of keys, symbols and entries |
| DeepEqualExact.AnswerIsWalk | crates/cruft/src/assert.rs:1659-1705 | on values related by a bisimulation without Maps and Sets, the comparison gives the answer and the memo of a walk along the keys that never compares values and fails only at a new pair with an active side |
| DeepEqualExact.YesExactlyWhen | crates/cruft/src/assert.rs:2256-2411 | yes without meeting a Map or Set, exactly when a bisimulation without them relates the values and that walk does not fail |
| DeepEqualExact.YesWithoutCollections | crates/cruft/src/assert.rs:2256-2411 | in a heap without Maps and Sets, yes exactly when the values are bisimilar and that walk does not fail |
| DeepEqualExact.YesByPaths | crates/cruft/src/assert.rs:2256-2411 | likewise said of paths: yes exactly when the values agree along all paths and that walk does not fail |
| DeepEqualExact.CyclesRefused | crates/cruft/src/assert.rs:1665-1674 | a cycle of one object and a cycle of two are bisimilar, yet the answer is no |
| DeepEqualExact.SetsRefused | crates/cruft/src/assert.rs:2523-2549 | the entries of two Sets can be paired off loosely, yet the answer is no: an entry takes the partner another one needs |
| ObjectGraph.AlikeMono | crates/cruft/src/assert.rs:2276-2411 | more pairs assumed never make objects differ, which is what lets candidate memos be adopted |
| ObjectGraph.BisimulationIsDeep | crates/cruft/src/assert.rs:2256-2411 | objects paired by a bisimulation are not told apart at any depth |
| ObjectGraph.MatchingIsOnto | crates/cruft/src/assert.rs:2523-2549 | a matching of equally many entries leaves no entry of the other collection out |
| HpackInteger.DecodeInteger | crates/cruft/src/hpack.rs:427-460 | the loop with its unchecked shift and checked sum computes the decoding that IntegerExact characterises |
| HpackInteger.IntegerExact | crates/cruft/src/hpack.rs:427-460 | an integer is accepted exactly when it is in the prefix or continues for one to nine groups, and its value is then exact: no bits are lost |
| HpackInteger.IntegerRefused | crates/cruft/src/hpack.rs:427-460 | input that ends while up to nine bytes all ask for more is truncated; a tenth byte is an overflow or too large |
| HpackInteger.EncodeInteger | crates/cruft/src/hpack.rs:627-640 | the bytes that IntegerBack proves to be read back, for every prefix byte: the integer is ORed into it |
| HpackInteger.IntegerBack | crates/cruft/src/hpack.rs:427-460 | under a prefix whose low bits are zero, decoding inverts encoding exactly for values whose excess over the prefix is below 2^63 |
| HpackHuffman.BuildTree | crates/cruft/src/hpack.rs:344-363 | the trie has a node for the root and each nonempty prefix of a code, and symbols exactly at the ends of codes |
| HpackHuffman.NodeDepth | crates/cruft/src/hpack.rs:408-425 | the breadth-first search terminates and returns the number of bits since the last symbol |
| HpackHuffman.HuffmanDecode | crates/cruft/src/hpack.rs:365-406 | the trie walk decodes the bits of the input, with the source's errors |
| HpackHuffman.HuffmanExact | crates/cruft/src/hpack.rs:365-406 | for every prefix-free table with an all-ones end symbol of at least eight bits: accepted exactly when the bits are the codes of a string followed by at most seven ones, and the result is that string |
| Hpack.FitIsLongest | crates/cruft/src/hpack.rs:516-524 | eviction keeps exactly the longest run of newest entries that fits |
| Hpack.InsertEvicts | crates/cruft/src/hpack.rs:503-514 | push-then-evict is the evict-then-insert rule of section 4.4 of RFC 7541 |
| Hpack.HpackDecoder.Evict | crates/cruft/src/hpack.rs:516-524 | keeps the longest run of newest entries that fits, with the size field exact |
| Hpack.HpackDecoder.InsertDynamic | crates/cruft/src/hpack.rs:503-514 | the size field stays the sum of the entry sizes and within the limit |
| Hpack.HpackDecoder.SetMaxSize | crates/cruft/src/hpack.rs:526-529 | likewise under a new limit |
| Hpack.HpackDecoder.LookupEntry | crates/cruft/src/hpack.rs:531-545 | index 1 to 61 is the static table, 62 on the dynamic table from the newest entry; an error otherwise |
| HpackFields.IndexBack | crates/cruft/src/hpack.rs:547-556 | from bytes: an index stands for that entry, and without one it is an error that leaves the table alone |
| HpackFields.StaticIndices | crates/cruft/src/hpack.rs:2-64 | eleven of the static entries as the one-byte blocks that decode to them |
| Hpack.HpackDecoder.DecodeLiteral | crates/cruft/src/hpack.rs:575-589 | reads a literal field without touching the table, and fails with the first error of its parts |
| Hpack.HpackDecoder.Decode | crates/cruft/src/hpack.rs:547-573 | the block is decoded field by field; after a failure the table is as the fields before it left it; DecodeExactly says what decodes to what |
| HpackFields.DecodeExactly | crates/cruft/src/hpack.rs:547-589 | a block decodes to header fields and a table exactly when its bytes are a list of the four representations, with integers and strings in any accepted form, that mean them: entries by index, literals that enter the table before its newest entry, literals that do not, and limits, with the most newest entries kept that fit |
| HpackFields.AddedThenIndexed | crates/cruft/src/hpack.rs:547-573 | after any literals with indexing, index 62 + i is the literal i before the last, then the earlier entries, as far as they fit together; beyond that it is out of range |
| HpackFields.AddedTwice | crates/cruft/src/hpack.rs:547-573 | a literal with indexing followed by BE decodes to the header twice, exactly when name, value and 32 octets fit the table |
| HpackFields.LimitedThenIndexed | crates/cruft/src/hpack.rs:526-573 | after a size update exactly the newest entries that fit can be indexed |
| HpackFields.PassBack | crates/cruft/src/hpack.rs:566-570 | a literal without indexing, marked never to be indexed or not, leaves every index as it was |
| Hpack.DecodeString | crates/cruft/src/hpack.rs:462-479 | raw or Huffman-coded strings with the source's errors |
| Hpack.BlockWithin | crates/cruft/src/hpack.rs:547-573 | whatever a block holds and wherever it fails, the table stays within its limit |
| Hpack.DecodeConcat | crates/cruft/src/hpack.rs:547-573 | if a block decodes, decoding it followed by another is decoding both in turn, with the same table |
| Hpack.Encode | crates/cruft/src/hpack.rs:608-618 | the bytes that RoundTrip proves to decode to the headers and EncodesLiterals to be plain literals |
| HpackFields.EncodesLiterals | crates/cruft/src/hpack.rs:608-618 | literals without indexing, with names in lower case, one after the other |
| Hpack.RoundTrip | crates/cruft/src/hpack.rs:608-645 | from every table, decoding what was encoded returns the headers with names in lower case and leaves the table unchanged |
| DerLength.ParseLength | crates/asn1-der/src/lib.rs:152-180 | the loop computes the length function whose accepted inputs LengthBack and LengthCanonical characterise exactly |
| DerLength.EncodeLength | crates/asn1-der/src/lib.rs:394-407 | the loop produces the one encoding that LengthCanonical proves the parser accepts, for every machine-word length |
| DerLength.LengthBack | crates/asn1-der/src/lib.rs:152-180 | an encoded length is read back exactly when it is below 2^32 |
| DerLength.LengthCanonical | crates/asn1-der/src/lib.rs:152-180 | a length that is accepted is below 2^32 and stands there in its one encoding |
| Der.DerReader.ReadTlv | crates/asn1-der/src/lib.rs:90-104 | reads one value and moves past it; an error leaves the reader where it was |
| Der.ValueBack | crates/asn1-der/src/lib.rs:90-104 | a value written with a legal tag is read back, whatever follows it |
| Der.ValueCanonical | crates/asn1-der/src/lib.rs:90-180 | a value that is accepted has a legal tag and contents below 2^32 bytes, and is written exactly so |
| Der.ParseSingle | crates/asn1-der/src/lib.rs:363-370 | accepts one value with nothing after it; with ValueBack and ValueCanonical, exactly the bytes the writer produces |
| Der.EncodeTlv | crates/asn1-der/src/lib.rs:409-415 | the bytes that ValueBack proves are read back |
| Der.EncodeSequence | crates/asn1-der/src/lib.rs:417-423 | the bytes that SequenceOfTrees proves to be a legal tree when the items are |
| Der.SequenceOfTrees | crates/asn1-der/src/lib.rs:417-423 | a sequence of encoded trees is the encoding of the tree that has them as children |
| Der.ValidateDerTree | crates/asn1-der/src/lib.rs:372-392 | the recursive walk with its reader computes the validation that ValidatorExact characterises, with the same errors |
| Der.ValidatorExact | crates/asn1-der/src/lib.rs:372-392 | accepted exactly when the bytes are those of a tree of legal values nested at most max_depth constructed levels deep |
| Der.TreeIsUnique | crates/asn1-der/src/lib.rs:372-392 | bytes stand for at most one tree |
| DerValues.AsI64 | crates/asn1-der/src/lib.rs:230-240 | accepted exactly for minimal contents of up to eight bytes; the value is their two's-complement number and fits 64 bits |
| DerValues.MinimalIsUnique | crates/asn1-der/src/lib.rs:195-214 | accepted integer contents are determined by their number |
| DerValues.MinimalExists | crates/asn1-der/src/lib.rs:195-214 | every number has minimal contents |
| DerValues.UnsignedExact | crates/asn1-der/src/lib.rs:195-228 | an unsigned integer is accepted exactly for minimal contents of a number that is not negative, and the result is that number without a leading zero |
| DerValues.EncodeIntegerUnsigned | crates/asn1-der/src/lib.rs:425-441 | the bytes that UnsignedBack proves to be read back as the same number, for every magnitude including the empty one |
| DerValues.UnsignedBack | crates/asn1-der/src/lib.rs:216-228 | reading an encoded unsigned integer gives the magnitude without leading zeros, the same number |
| DerValues.AsOid | crates/asn1-der/src/lib.rs:269-300 | the loop computes the decoding that OidReadBack describes on what the encoder writes, with its overflow and truncation errors |
| DerValues.EncodeOid | crates/asn1-der/src/lib.rs:462-480 | the bytes of which OidReadBack and OidBack prove what is read back |
| DerValues.OidReadBack | crates/asn1-der/src/lib.rs:462-480 | any two or more 64-bit arcs: the first two come back as the quotient and remainder by 40 of the one byte that holds both, the others unchanged |
| DerValues.OidBack | crates/asn1-der/src/lib.rs:269-300 | 64-bit arcs are read back as written exactly when there are at least two, the second is below 40 and the first byte holds both |
| DerValues.OidChanged | crates/asn1-der/src/lib.rs:465-470 | the arcs 2.100 are read back as 4.20 |
| DerValues.OidExact | crates/asn1-der/src/lib.rs:269-300 | an identifier is accepted exactly when, after its first byte, it is arcs in groups of seven bits that fit a word and then at most an unfinished arc of zeros |
| DerValues.OidCutShort | crates/asn1-der/src/lib.rs:269-300 | so an identifier that stops inside an arc is not always refused: 2A 80 is read as 1.2 |
| EventsOn.OnIterator.OnEvent | crates/cruft/src/events.rs:2432-2450 | the event listener is one step of the machine and keeps the invariant of all runs |
| EventsOn.OnIterator.OnError | crates/cruft/src/events.rs:2454-2470 | likewise for an error: only the first waiter is rejected, or the error is kept for the next call |
| EventsOn.OnIterator.OnAbort | crates/cruft/src/events.rs:2487-2510 | likewise for an abort: every waiter is rejected, first to last, each settled once |
| EventsOn.OnIterator.OnClose | crates/cruft/src/events.rs:2537-2553 | likewise for a close: every waiter is finished, queued payloads stay |
| EventsOn.OnIterator.CallNext | crates/cruft/src/events.rs:2564-2600 | likewise for a call: queued payloads come before a kept error, and that before the end |
| EventsOn.OnIterator.CallReturn | crates/cruft/src/events.rs:2602-2645 | likewise for return: every waiter and the call itself are finished and later events are not received |
| EventsOn.RunInv | crates/cruft/src/events.rs:2432-2645 | in every state of every run queue and waiters are never both non-empty and every promise is either settled or waiting |
| EventsOn.SettledOnce | crates/cruft/src/events.rs:2432-2645 | a settled promise keeps its settlement for the rest of the run |
| EventsOn.Fifo | crates/cruft/src/events.rs:2432-2645 | in every run the payloads delivered and then those queued are the payloads emitted before return, in order; they go to promises in call order; a promise has a payload exactly when it was delivered one |
| EventsOnLaw.Settlements | crates/cruft/src/events.rs:2432-2645 | in every run and for every step, said of the steps and of how earlier promises ended: an event or a heard error settles exactly the call that has waited longest; an abort rejects and a close or return finishes every waiting call; a call takes the next payload nobody got, else the error that was left since the last call without payload, else the end, else it waits |
| EventsOnLaw.NoneWaitsAfterEnd | crates/cruft/src/events.rs:2564-2600 | a call after a close, return, abort or heard error is settled at once |

## Left out

- Myers.Diff: assumes n + m < 2^31, the range in which the source's 32-bit array entries cannot overflow.
- BitIO.BitWriter.WriteBits: assumes fields of at most 24 bits, which together with seven pending bits fit the 32-bit buffer, and values that fit the field, since the source does not mask them; the encoders write at most 13 bits.
- Myers.Round: assumes the same n + m < 2^31.
- FixedBlock.DeflateFixedSmallLazy: assumes at most 32768 bytes, since its matcher has no window; the source calls it for at most 16.
- DeepEqual.DeepEqual: the branches for errors, DOM exceptions, boxed primitives, regular expressions, URLs, dates and binary data depend on the runtime and are not modelled; objects are ordinary, arrays, arguments objects, functions, Sets and Maps.
- DeepEqual.Compare: the same branches are not modelled.
- DeepEqual.CompareObjects: the same branches are not modelled.
- DeepEqual.CompareEntries: covers both Sets and Maps, told apart by a flag; where entries have several possible partners, which answer is given is stated by the function AnswerEntries only.
- Hpack.DecodeString: strings are byte strings; the check that they are UTF-8 is not modelled.
- HpackFields.IndexBack: assumes indices below 2^63 + 127, which the decoder can read.
- HpackFields.AddedThenIndexed: assumes indices and text lengths that the decoder can read, and a table within its limit, as every decoder state is.
- HpackFields.LimitedThenIndexed: assumes indices and limits that the decoder can read.
- Hpack.RoundTrip: assumes texts whose length is below 2^63 + 127 bytes, which every string of the source's platform meets.
- Streams.StreamBack: assumes that the codes of dynamic blocks satisfy Kraft's inequality; over-subscribed codes, which the decoder also takes, have no decoding of their own, and only StreamRead speaks of them.
- Huffman.DecodeRefuses: assumes Kraft's inequality likewise.
- Lz77.Tokenize: that the tokens are those of the search is stated below 2^31 bytes; from there on the 32-bit positions wrap and only the spelling of the input is claimed.
- Brotli wrappers and the HTTP fallback from zlib to raw deflate: calls into other crates and a heuristic without a round trip.
- Rendering of diffs and messages: presentation only.
- Bit strings, booleans, times and strings of DER: tag, length and padding checks around contents that are handed on as they stand; the framing they rest on is proved in Der.
- Installing and removing listeners on the emitter and the signal, and keeping the iterator alive: effects on the runtime; the model keeps only whether the listeners are installed.
