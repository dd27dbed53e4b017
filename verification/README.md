# Verified model of the blob server's compressor, replication protocol and request parser

The blob server answers requests with DEFLATE data, replicates its blobs with other
servers, and parses HTTP requests as they arrive. This project models those three parts in
Dafny and proves what they are for.

**The compressor** (`3rd/zopfli`) is a chain of stages, each proved against a simple
specification:

* `PackageMerge`, `MinimumRedundancy`, `CodeLengths`: length-limited code lengths by plain
  package-merge, their completeness and their optimality among all prefix codes;
  `BoundaryStep` and `Katajainen`: the lazy boundary algorithm and the garbage-collected
  node pool that compute the same lengths.
* `Bits`, `CanonicalCode`, `Symbols`, `Inflate`: canonical codes, the symbol tables, and a
  strict decoder written from sections 3.2.3 to 3.2.7 of RFC 1951 (it takes complete codes,
  and codes of a single bit as common decoders do).
* `TreeHeader`, `RunLengths`, `BlockEncoding`, `BitWriter`, `DeflateBlock`, `TreeExamples`:
  blocks as bit strings, their round trips, and the writers and size estimates of the code.
* `HashChain`, `MatchSpec`, `ChainWalk`, `MatchFinder`, `MatchCache`, `LongestMatch`,
  `CacheOverrun`: the ring-buffer hash chains, the search on true positions they stand for,
  what it finds among the positions visited, and the cache that must not show, with an input
  on which it does.
* `Lz77Store`, `Greedy`, `CostModel`, `Prices`, `ShortestPath`, `ParseGraph`, `Squeeze`,
  `SqueezeRuns`: the two parsers, lossless, one following the lazy rule and the other optimal;
  prices are the bits written.
* `BlockSplitter`, `Deflate`, `Checksums`, `Containers`: splitting where it pays, master
  blocks, the two wrappers, and the end-to-end theorem that decoding what was written gives
  the input.

**Replication** (`blobserver/src`): `BlobKeys`, `Paging`, `BlobIndex`, `BlobServer`, `Sync`,
`Replication`: the ordered content-addressed index, paging while it grows, one round
between two servers with failing requests and other clients at work, and runs of rounds
between many.

**The request parser**: `RequestParser` (the machine and the object), `RequestText`
(printing, and the proof that parsing undoes it), `RequestGrammar` (the language accepted).

## What the code does that its comments do not say

* An empty input emits no block at all, so a decoder refuses the result
  (`Deflate.Compress`, `Containers.CompressAs`).
* The tree size estimate counts a whole byte more whenever the tree does not fill whole
  bytes, although its comment means it to be exact (`DeflateBlock.CalculateTreeSize`; a
  block of each kind is in `TreeExamples`).
* The cache lookup can raise the limit of a search instead of lowering it
  (`LongestMatch.TransparentExactly` says exactly when, `CacheOverrun.Overrun` shows a
  call); no caller in the code asks in that way.
* Splitting into stored blocks puts the first cut at the start, so the first stored block
  is empty (`BlockSplitter.BlockSplitSimple`).
* After the first round the splitter judges the last block without its last item
  (`BlockSplitter.FindLargestSplittableBlock`).
* Parsing a reference never fails, because a 32-bit position is compared with a 64-bit
  "not found" (`BlobKeys.DashlessKey`).
* Hashes stop at the first NUL, so contents that agree up to there share their keys
  (`BlobIndex.SharedKeys`).
* The zlib checksum covers the size modulo 2^32 only (`Containers.ZlibCompress`, and an
  input it misses in `Containers.ChecksumMisses`).

## Preconditions taken from the code

* `numiterations` is at least 1.
* Stored blocks need the split-first path, or an input below 65536 bytes: the split-last
  path runs into an assertion for them, and so does a larger single block.
* The size handed to the CRC must not be negative as an int.
* Frequencies, estimated entropies (0 to 64 bits per symbol) and sizes below 2^64 are
  exact numbers.
* Each stored content is not empty, as the code asserts.

## Model

| member | source | states |
|---|---|---|
| `PackageMerge.MergeBalance` | 3rd/zopfli/katajainen.cc:120-139 | after every item of the merge no package already taken outweighs the next leaf and no leaf already taken outweighs the next package |
| `PackageMerge.MergedOrder` | 3rd/zopfli/katajainen.cc:94-104 | merging a sorted level with the leaves gives a sorted level of positive weights |
| `PackageMerge.LevelSize` | 3rd/zopfli/katajainen.cc:234-241 | how many items each level of the merge has, so that no level runs dry |
| `PackageMerge.EnoughItems` | 3rd/zopfli/katajainen.cc:209-212 | with n at most 2^maxbits symbols the last level has the 2n - 2 items the code needs |
| `PackageMerge.LevelShape` | 3rd/zopfli/katajainen.cc:94-104 | every chain of a level is well formed: leaf counts shrink towards its tail, and its value and depth are those of its position |
| `PackageMerge.KraftOfValue` | 3rd/zopfli/katajainen.cc:158-171 | a chain of value v gives lengths whose Kraft sum is determined by v |
| `PackageMerge.CodeIsComplete` | 3rd/zopfli/katajainen.cc:237-245 | the chain chosen after all runs gives every one of the n symbols a length in 1..maxbits, and the Kraft sum is exactly 1 |
| `MinimumRedundancy.MergeIsMinimal` | 3rd/zopfli/katajainen.cc:94-104 | the first k merged items weigh no more than any k leaves and packages put together |
| `MinimumRedundancy.LevelIsMinimal` | 3rd/zopfli/katajainen.cc:94-104 | for every other set of lengths, what it needs from a level weighs at least what the merge takes |
| `MinimumRedundancy.KraftNeedsItems` | 3rd/zopfli/katajainen.cc:158-171 | any lengths that satisfy the Kraft inequality need at least 2n - 2 items |
| `MinimumRedundancy.CodeIsMinimal` | 3rd/zopfli/katajainen.cc:237-245 | among all lengths up to maxbits that satisfy the Kraft inequality none costs fewer bits than the package-merge code |
| `CodeLengths.SortProperties` | 3rd/zopfli/katajainen.cc:222-224 | sorting the leaves gives an ascending permutation of them, as multisets |
| `CodeLengths.LengthsSupport` | 3rd/zopfli/katajainen.cc:163-251 | lengths are at most maxbits, and a symbol has length 0 exactly when it is unused |
| `CodeLengths.LengthsComplete` | 3rd/zopfli/katajainen.cc:180-251 | with at least two used symbols that fit, the Kraft sum of the lengths is exactly 1 |
| `CodeLengths.LengthsMinimal` | 3rd/zopfli/katajainen.cc:180-251 | minimum redundancy: no other prefix code with lengths up to maxbits takes fewer bits for these frequencies |
| `BoundaryStep.StepInStep` | 3rd/zopfli/katajainen.cc:105-139 | one boundary step keeps both chains of every list equal to the last two items the eager merge has produced, or stale past its end and never used |
| `BoundaryStep.RefinesPackageMerge` | 3rd/zopfli/katajainen.cc:234-245 | after the 2n - 4 runs the last list holds exactly the chain plain package-merge chooses |
| `BoundaryStep.StepShallow` | 3rd/zopfli/katajainen.cc:105-139 | list j only ever holds chains of at most j + 1 nodes |
| `Katajainen.NodePool.MarkChain` | 3rd/zopfli/katajainen.cc:76-82 | marks exactly the nodes of one chain and no others, at most as many as the chain is long |
| `Katajainen.NodePool.ClearMarks` | 3rd/zopfli/katajainen.cc:71-74 | clears every in-use mark and changes nothing else |
| `Katajainen.NodePool.Collect` | 3rd/zopfli/katajainen.cc:69-84 | after a collection every node reachable from any list is marked, nothing else in the nodes changed, and some node is free |
| `Katajainen.NodePool.GetFreeNode` | 3rd/zopfli/katajainen.cc:67-89 | terminates and returns a node reachable from no list, leaving all chains as they were |
| `Katajainen.NodePool.InitNode` | 3rd/zopfli/katajainen.cc:54-59 | fills in one node, marks it in use and leaves the other nodes alone |
| `Katajainen.Merger.constructor` | 3rd/zopfli/katajainen.cc:145-156 | all lists start with the two lightest leaves |
| `Katajainen.Merger.BoundaryPM` | 3rd/zopfli/katajainen.cc:105-139 | on pool nodes and with collections inside the recursion, the chains the lists hold change by exactly one boundary step |
| `Katajainen.Merger.ExtractBitLengths` | 3rd/zopfli/katajainen.cc:163-171 | the lengths read off a chain are those of the specification |
| `Katajainen.LengthLimitedCodeLengths` | 3rd/zopfli/katajainen.cc:180-251 | an error exactly when 2^maxbits is below the number of used symbols; otherwise the lengths of plain package-merge |
| `Katajainen.MergeLeaves` | 3rd/zopfli/katajainen.cc:226-250 | the boundary runs and the extraction give the package-merge lengths of the sorted leaves |
| `CanonicalCode.CodeFits` | 3rd/zopfli/tree.cc:30-69 | with a Kraft sum of at most 1 every used code fits in its length |
| `CanonicalCode.PrefixFree` | 3rd/zopfli/tree.cc:30-69 | the leading bits of a longer code exceed every shorter code |
| `CanonicalCode.NoPrefix` | 3rd/zopfli/tree.cc:30-69 | as bit strings, no used code is a prefix of another |
| `CanonicalCode.CodesAscend` | 3rd/zopfli/tree.cc:30-69 | codes of equal length ascend with the symbol (section 3.2.2 of RFC 1951) |
| `CanonicalCode.DecodeEncoded` | 3rd/zopfli/tree.cc:30-69 | reading a code bit by bit, with anything after it, finds its symbol and leaves the rest |
| `CanonicalCode.LengthsToSymbols` | 3rd/zopfli/tree.cc:30-69 | the symbols array holds the canonical code of every used symbol and 0 elsewhere |
| `DeflateBlock.CalculateBitLengths` | 3rd/zopfli/tree.cc:96-101 | the frequencies are always encodable within maxbits, so the assertion on the error never fires, and the lengths are the package-merge ones |
| `Symbols.LengthRoundTrip` | 3rd/zopfli/util.cc:123-202 | the symbol, extra bit count and extra value of every match length agree with the table of section 3.2.5 of RFC 1951 and give the length back |
| `Symbols.DistRoundTrip` | 3rd/zopfli/util.cc:26-121 | the same for every distance from 1 to 32768 |
| `Lz77Store.Counts` | 3rd/zopfli/lz77.cc:445-468 | the histograms count every literal, length and distance symbol of the range, with one end symbol |
| `Lz77Store.ReplaysMatch` | 3rd/zopfli/lz77.cc:59-65 | appending a genuine match extends the data the items replay to by exactly its bytes |
| `Lz77Store.ReplaysLiteral` | 3rd/zopfli/lz77.cc:59-65 | appending the next byte as a literal extends the replayed data by it |
| `Lz77Store.ReplaysSplit` | 3rd/zopfli/deflate.cc:639-645 | cutting the items anywhere cuts the bytes they replay to |
| `Lz77Store.ReplaysValid` | 3rd/zopfli/deflate.cc:413-416 | items that replay are valid and stand for exactly the bytes added |
| `TreeHeader.TreesRoundTrip` | 3rd/zopfli/deflate.cc:99-215 | decoding the emitted HLIT, HDIST, HCLEN, code-length codes and run-length symbols (section 3.2.7 of RFC 1951) restores both length arrays, runs across the border included |
| `TreeHeader.ReadRle` | 3rd/zopfli/deflate.cc:137-177 | decoding the run-length symbols restores the lengths, for every run length and every mixture of 16, 17 and 18 |
| `RunLengths.RleByRule` | 3rd/zopfli/deflate.cc:137-177 | each run-length entry follows from its place alone: zeros 11 to 138 at a time, or 3 to 10, another length written once and then repeated six or three at a time, fewer than three singly |
| `TreeHeader.EntryCodeComplete` | 3rd/zopfli/deflate.cc:181-188 | the code for the run-length symbols of a block's trees always fills its code space, so a strict decoder takes it |
| `TreeHeader.TrimOrder` | 3rd/zopfli/deflate.cc:191-193 | what is trimmed is zero, and what is kept ends with a length in use |
| `TreeHeader.TrimLit` | 3rd/zopfli/deflate.cc:123-125 | the same for the literal and length codes |
| `TreeHeader.TrimDist` | 3rd/zopfli/deflate.cc:123-125 | the same for the distance codes |
| `BlockEncoding.PatchedComplete` | 3rd/zopfli/deflate.cc:84-97 | after the patch the distance code is complete with at least two codes, no used length has changed, and of the unused ones at most those of symbols 0 and 1 |
| `BlockEncoding.DynamicComplete` | 3rd/zopfli/deflate.cc:380-392 | the literal and length code built for any non-empty items is complete |
| `BlockEncoding.DynamicUsable` | 3rd/zopfli/deflate.cc:380-392 | the literal and length code of any items, none included, is one a decoder takes |
| `BlockEncoding.DynamicCovers` | 3rd/zopfli/deflate.cc:380-392 | the trees built for items have a code for every symbol the items and the end of the block need |
| `BlockEncoding.FixedTrees` | 3rd/zopfli/deflate.cc:280-287 | the fixed trees are complete codes and cover all valid items |
| `BlockEncoding.DataRoundTrip` | 3rd/zopfli/deflate.cc:241-278 | decoding a block's data appends what its items stand for and stops right after the end symbol |
| `BlockEncoding.BlockRoundTrip` | 3rd/zopfli/deflate.cc:359-422 | decoding a whole block, whatever follows it, appends the bytes of its items and then stops or goes on according to its final bit |
| `BitWriter.Writer.AddBit` | 3rd/zopfli/deflate.cc:36-41 | appends one bit to the bits written so far |
| `BitWriter.Writer.AddBits` | 3rd/zopfli/deflate.cc:43-53 | appends the low bits of a number, least significant first |
| `BitWriter.Writer.AddHuffmanBits` | 3rd/zopfli/deflate.cc:59-70 | appends a code, most significant bit first |
| `BitWriter.Writer.Align` | 3rd/zopfli/deflate.cc:525-526 | pads with zeros to the byte boundary and keeps the bytes |
| `BitWriter.AlignWritten` | 3rd/zopfli/deflate.cc:36-41 | the bits of the whole bytes are the bits written and zero padding |
| `DeflateBlock.RunLengthCode` | 3rd/zopfli/deflate.cc:137-177 | produces the run-length symbols of the specification |
| `DeflateBlock.OrderAgrees` | 3rd/zopfli/deflate.cc:118-121 | the order in which the code length codes are sent is the one the decoder expects |
| `DeflateBlock.AddDynamicTree` | 3rd/zopfli/deflate.cc:99-215 | appends exactly the bits of the tree header |
| `DeflateBlock.AddLZ77Data` | 3rd/zopfli/deflate.cc:241-278 | appends exactly the coded items; the length check inside never fails |
| `DeflateBlock.PatchDistanceCodes` | 3rd/zopfli/deflate.cc:84-97 | changes the array, in place, to the patched lengths |
| `DeflateBlock.GetFixedTree` | 3rd/zopfli/deflate.cc:280-287 | the length arrays of section 3.2.6 of RFC 1951 |
| `DeflateBlock.DynamicTree` | 3rd/zopfli/deflate.cc:380-389 | counts, lengths and patch give the trees of the specification |
| `DeflateBlock.AddLZ77Block` | 3rd/zopfli/deflate.cc:359-422 | appends exactly the bits of a block of type 1 or 2 |
| `DeflateBlock.CalculateBlockSymbolSize` | 3rd/zopfli/deflate.cc:292-311 | is the exact number of data bits |
| `DeflateBlock.CalculateTreeSize` | 3rd/zopfli/deflate.cc:217-234 | is the tree's bit count, or 8 more exactly when that is not a multiple of 8 |
| `DeflateBlock.CalculateBlockSize` | 3rd/zopfli/deflate.cc:313-340 | equals the bits AddLZ77Block appends for fixed blocks, and for dynamic ones the same or 8 more, exactly when the tree does not fill whole bytes |
| `TreeExamples.NoItemsExcess` | 3rd/zopfli/deflate.cc:217-234 | a block without items has a tree of 87 bits, and the estimate is 8 too many |
| `TreeExamples.OneLiteralExact` | 3rd/zopfli/deflate.cc:217-234 | a block with the single literal 97 has a tree of 96 bits, and the estimate is exact |
| `DeflateBlock.DeflateNonCompressedBlock` | 3rd/zopfli/deflate.cc:508-536 | appends exactly the bits of a stored block |
| `DeflateBlock.StoredRoundTrip` | 3rd/zopfli/deflate.cc:508-536 | decoding a stored block, at any bit position of a whole number of bytes, appends its bytes |
| `HashChain.ChainTable.constructor` | 3rd/zopfli/hash.cc:29-51 | empty tables stand for an empty history |
| `HashChain.ChainTable.Update` | 3rd/zopfli/hash.cc:98-107 | appending one hash value keeps heads, links and values of the ring buffers true to the history |
| `HashChain.ChainTable.Lookup` | 3rd/zopfli/hash.cc:98-107 | a link read from the ring buffer leads to the latest earlier position in the window with the same hash value |
| `HashChain.RingDistance` | 3rd/zopfli/lz77.cc:335-337 | the wrapped difference of two slots is the true distance |
| `MatchFinder.CountRepeats` | 3rd/zopfli/hash.cc:108-118 | continuing from the count before, the count is the number of repeats of this byte, up to 65535 |
| `MatchFinder.Hash.constructor` | 3rd/zopfli/hash.cc:130-135 | initial tables and the two bytes shifted in stand for no positions |
| `MatchFinder.Hash.Update` | 3rd/zopfli/hash.cc:91-128 | after taking in one more position both tables, the repeat counts and the hash values are those of the history |
| `MatchSpec.SearchSound` | 3rd/zopfli/lz77.cc:264-350 | the length and distance found, and the distance recorded for every shorter length, are genuine byte-for-byte matches inside the window and the limit |
| `MatchSpec.SearchLimited` | 3rd/zopfli/squeeze.cc:365-373 | whenever the full search reaches length l, the search limited to l returns exactly l and the distance the full search recorded for it; otherwise both return the same |
| `ChainWalk.SearchIsLongest` | 3rd/zopfli/lz77.cc:258-343 | the search gives the longest match among the positions it visits, at most 8192 of them, and for every shorter length the nearest of them that matches so far; it stops earlier only at the limit or where the chain ends or leaves the window |
| `ChainWalk.Skipped` | 3rd/zopfli/lz77.cc:285-288 | a byte that differs just past the best length rules a longer match out |
| `MatchSpec.RunSearch` | 3rd/zopfli/squeeze.cc:249-266 | inside a long run the search finds 258 bytes at distance 1 |
| `MatchFinder.GetMatch` | 3rd/zopfli/lz77.cc:105-139 | eight bytes at a time and then singly, finds how far the match reaches |
| `MatchFinder.TryDistance` | 3rd/zopfli/lz77.cc:286-302 | the skip over repeated bytes does not change the match length found |
| `MatchFinder.WalkChains` | 3rd/zopfli/lz77.cc:258-343 | walking slots of the ring buffers with accumulated distances, the second hash included, computes the search on true positions |
| `MatchCache.SublenToCache` | 3rd/zopfli/cache.cc:48-79 | packs up to eight runs of the per-length distances and records how far they reach |
| `MatchCache.CacheToSublen` | 3rd/zopfli/cache.cc:81-102 | unpacking restores the distances up to the requested length |
| `MatchCache.Cache.constructor` | 3rd/zopfli/cache.cc:28-40 | an empty cache is valid for its block |
| `MatchCache.Cache.Store` | 3rd/zopfli/lz77.cc:192-211 | storing a full search keeps every entry either vacant or equal to what the search at its position gives |
| `LongestMatch.ReadCache` | 3rd/zopfli/lz77.cc:148-186 | an entry read from the cache answers for the limited search |
| `LongestMatch.FindLongestMatch` | 3rd/zopfli/lz77.cc:215-350 | cache transparency: same length, distance and per-length distances as the search without the cache, under the limit the code obeys, when the length is at least 3, otherwise both below 3; a full search leaves the entry filled |
| `LongestMatch.TransparentExactly` | 3rd/zopfli/lz77.cc:159-186 | with a filled entry the answer is that of the search under the limit asked for, unless distances are asked for, the limit is below 258 and the entry holds a part of a longer match that reaches the limit; exactly then the match reported is longer than the limit |
| `CacheOverrun.Found` | 3rd/zopfli/lz77.cc:264-343 | on a given input of ten blocks the full search finds 11 bytes and nine distances, one more than the cache holds |
| `CacheOverrun.EntryIsPartial` | 3rd/zopfli/cache.cc:48-79 | whatever the entry at that position looks like, it holds part of a match of 11 bytes |
| `CacheOverrun.Overrun` | 3rd/zopfli/lz77.cc:159-183 | on that input a search with a limit of 3 after a full search reports 11 bytes, where the search without cache reports 3 |
| `Greedy.StartHash` | 3rd/zopfli/lz77.cc:376-380 | the hash has taken in the window before the block |
| `Greedy.LazyItem` | 3rd/zopfli/lz77.cc:388-438 | every item of the lazy parse at its byte position: a match exactly where the search finds one worth at least 3 that the next position does not outdo by more than 1, else the literal |
| `Greedy.GreedyItem` | 3rd/zopfli/lz77.cc:388-438 | the same for the parse of a block, with the matches of its search |
| `Greedy.LazyStep` | 3rd/zopfli/lz77.cc:388-438 | every decision of lazy matching keeps the items replaying to the data and equal to the beginning of the lazy parse of the block |
| `Greedy.LZ77Greedy` | 3rd/zopfli/lz77.cc:352-443 | the items replay to exactly the input and are exactly the lazy parse, whatever the cache holds |
| `CostModel.FixedIsModel` | 3rd/zopfli/squeeze.cc:120-134 | the fixed-tree price is a price of the length plus a price of the distance symbol |
| `CostModel.StatIsModel` | 3rd/zopfli/squeeze.cc:141-152 | so is the price from symbol statistics |
| `Prices.ItemsPrice` | 3rd/zopfli/squeeze.cc:120-152 | priced by the code lengths of two trees, items cost exactly the bits they take |
| `Prices.FixedPrice` | 3rd/zopfli/squeeze.cc:120-134 | the fixed-tree price of valid items is the bit size of their fixed block without its 3 header bits and its 7-bit end symbol |
| `CostModel.GetCostModelMinCost` | 3rd/zopfli/squeeze.cc:158-193 | the least price any match of any length and distance has, and one that some match has |
| `ShortestPath.StepSet` | 3rd/zopfli/squeeze.cc:275-294 | taking a cheaper step keeps the tables true and all earlier steps accounted for |
| `ShortestPath.StepSkip` | 3rd/zopfli/squeeze.cc:283-286 | a step that cannot improve may be skipped |
| `ShortestPath.NextByte` | 3rd/zopfli/squeeze.cc:242-297 | after all its steps a byte is finished: everything one step ahead is reached and cheap enough |
| `ShortestPath.TraceIsPath` | 3rd/zopfli/squeeze.cc:313-325 | tracing back from a reached byte gives a way to it whose cost is the byte's cost |
| `ShortestPath.NoCheaperPath` | 3rd/zopfli/squeeze.cc:268-299 | no way is cheaper than what the finished tables say |
| `ParseGraph.ParsesValid` | 3rd/zopfli/squeeze.cc:268-297 | literals and recorded matches form steps that stay inside the block and have bounded prices |
| `ParseGraph.PathItemsCost` | 3rd/zopfli/squeeze.cc:268-297 | the price of a way is the price of its items |
| `Squeeze.ShortcutIs` | 3rd/zopfli/squeeze.cc:249-255 | the shortcut is taken exactly where one byte fills the 258 positions before and the 518 from there on, more than 259 bytes into the block |
| `Squeeze.JumpSteps` | 3rd/zopfli/squeeze.cc:249-266 | all positions the shortcut jumps, and the two before, allow every match length, 258 at distance 1 |
| `Squeeze.JumpReached` | 3rd/zopfli/squeeze.cc:249-261 | where the shortcut starts, the 257 bytes it copies costs from have been reached |
| `Squeeze.TakeShortcut` | 3rd/zopfli/squeeze.cc:255-265 | the jump leaves tables whose every step is a genuine one |
| `Squeeze.RelaxStep` | 3rd/zopfli/squeeze.cc:272-294 | tries one step and takes it if it is cheaper |
| `Squeeze.RelaxAll` | 3rd/zopfli/squeeze.cc:271-296 | tries the literal and every match length, pruned ones included, and finishes the byte |
| `Squeeze.GetBestLengths` | 3rd/zopfli/squeeze.cc:208-305 | the steps recorded lead to the end at the cost returned; without the shortcut no parse built from literals and recorded matches is cheaper |
| `Squeeze.TraceBackwards` | 3rd/zopfli/squeeze.cc:313-332 | collecting backwards and mirroring in place gives the steps in order |
| `Squeeze.StepFound` | 3rd/zopfli/squeeze.cc:365-373 | searching again with the step's length as limit gives that length and the recorded distance |
| `Squeeze.FollowPath` | 3rd/zopfli/squeeze.cc:334-390 | the items are those of the path and replay to exactly the input |
| `SqueezeRuns.LZ77OptimalRun` | 3rd/zopfli/squeeze.cc:431-445 | a run gives a parse that replays to the input, costs what is returned and, without the shortcut, is the cheapest |
| `SqueezeRuns.CheapestHasFewestBits` | 3rd/zopfli/squeeze.cc:519-543 | a cheapest parse for the fixed tree takes the fewest bits as a fixed block |
| `SqueezeRuns.LZ77OptimalFixed` | 3rd/zopfli/squeeze.cc:519-543 | the parse replays to the input and, without the shortcut, no parse built from literals and recorded matches takes fewer bits as a fixed block |
| `SqueezeRuns.LZ77Optimal` | 3rd/zopfli/squeeze.cc:447-517 | each run is a cheapest parse for its statistics, whatever these are; the result replays to the input and is the first of the runs with the smallest estimated size |
| `BlockSplitter.FindMinimumExact` | 3rd/zopfli/blocksplitter.cc:45-56 | tries every position and returns the first of the best |
| `BlockSplitter.FindMinimumNarrowing` | 3rd/zopfli/blocksplitter.cc:57-92 | terminates for every function where narrowing round by round to the neighbours of the best of nine spots ends: a position inside the range, one of those tried and no worse than any of them; the nine spots of the first round are among them |
| `BlockSplitter.FindMinimum` | 3rd/zopfli/blocksplitter.cc:43-94 | a position inside the range, best among those tried: the first of the best of all when there are fewer than 1024, where the narrowing ends otherwise |
| `BlockSplitter.AddSorted` | 3rd/zopfli/blocksplitter.cc:132-147 | inserts the value before the first larger one and shifts the rest |
| `BlockSplitter.FindLargestSplittableBlock` | 3rd/zopfli/blocksplitter.cc:200-218 | finds a block exactly when one is not done with, and then a longest |
| `BlockSplitter.TryCut` | 3rd/zopfli/blocksplitter.cc:246-267 | a cut is made exactly where the place chosen is not the first one and both halves together cost no more than the whole |
| `BlockSplitter.BlockSplitLZ77` | 3rd/zopfli/blocksplitter.cc:220-284 | terminates for every cost function with strictly increasing points strictly inside the data, fewer than the maximum when there is one; every cut pays between two bounds, and nothing more is cut only at the maximum or when no block of at least ten items is worth cutting |
| `BlockSplitter.ToBytePositions` | 3rd/zopfli/blocksplitter.cc:316-328 | finds every point and converts it to the byte where its item starts, strictly inside the input |
| `BlockSplitter.BlockSplit` | 3rd/zopfli/blocksplitter.cc:286-332 | the byte positions are those of a good split of the lazy parse by the dynamic block size, strictly increasing and strictly inside the part |
| `BlockSplitter.BlockSplitSimple` | 3rd/zopfli/blocksplitter.cc:334-344 | cuts at every multiple of the block size, the first at the start itself |
| `Deflate.ExtendsTrans` | 3rd/zopfli/deflate.cc:578-583 | bits that decode to consecutive ranges of the input decode, put together, to both |
| `Deflate.BestParse` | 3rd/zopfli/deflate.cc:442-464 | the dynamic parse, or the fixed one exactly when the dynamic one has fewer than 1000 items and the fixed block is smaller than the estimate for the dynamic one |
| `Deflate.DeflateDynamicBlock` | 3rd/zopfli/deflate.cc:424-475 | the bits added are those of the block BestParse chooses and decode to its bytes |
| `Deflate.DeflateFixedBlock` | 3rd/zopfli/deflate.cc:477-506 | the bits added are those of a fixed block of a parse with the fewest bits and decode to its bytes |
| `Deflate.DeflateOneBlock` | 3rd/zopfli/deflate.cc:538-552 | for each block type the bits added are exactly those of that kind of block and decode to its bytes |
| `Deflate.DeflateSplittingFirst` | 3rd/zopfli/deflate.cc:559-586 | one block between each two split points, the last one final if the part is; together they decode to the part |
| `Deflate.AddSplitBlocks` | 3rd/zopfli/deflate.cc:639-645 | one block for the items between each two points, which decode to all the items stand for |
| `Deflate.DeflateSplittingLast` | 3rd/zopfli/deflate.cc:593-653 | the items of one parse of the part are split by a good split and written block by block; they decode to the part |
| `Deflate.DeflatePart` | 3rd/zopfli/deflate.cc:664-679 | splits first, last or not at all as the options say, and the bits added decode to the part |
| `Deflate.DeflateAll` | 3rd/zopfli/deflate.cc:681-697 | part after part of 20000000 bytes is written as DeflatePart says, the last one final; the bits decode to the whole input, and an empty one adds nothing |
| `Deflate.FinishedStream` | 3rd/zopfli/deflate.cc:681-697 | the finished bytes decode to the input and leave only the padding of the last byte |
| `Deflate.Compress` | 3rd/zopfli/deflate.cc:681-697 | end to end: for every non-empty input the decoder returns exactly the input; for the empty one there is nothing it accepts |
| `Checksums.NoOverflow` | 3rd/zopfli/zlib_container.cc:31-41 | 5550 bytes cannot overflow 32 bits |
| `Checksums.PolynomialTerms` | 3rd/zopfli/gzip_container.cc:41-41 | the polynomial has the terms 26, 23, 22, 16, 12, 11, 10, 8, 7, 5, 4, 2, 1 and 0 below x^32, highest power first |
| `Checksums.Adler32` | 3rd/zopfli/zlib_container.cc:29-48 | with remainders deferred, in 32-bit arithmetic, equals the sums with a remainder after every byte (section 8.2 of RFC 1950) |
| `Checksums.LookupStep` | 3rd/zopfli/gzip_container.cc:63-65 | one table lookup does the work of eight message bits |
| `Checksums.CrcTable.MakeCRCTable` | 3rd/zopfli/gzip_container.cc:34-49 | every entry is eight steps from its index |
| `Checksums.CrcTable.UpdateCRC` | 3rd/zopfli/gzip_container.cc:56-67 | the table-driven CRC is the bit-by-bit CRC (section 8 of RFC 1952) |
| `Checksums.CrcConcat` | 3rd/zopfli/gzip_container.cc:52-67 | continuing a CRC over more bytes is the CRC of all of them |
| `Checksums.CrcOfOnes` | 3rd/zopfli/gzip_container.cc:52-67 | a known value: the CRC of four bytes 255 is 0xffffffff |
| `Containers.StreamInside` | 3rd/zopfli/zlib_container.cc:61-71 | behind its header a container decodes to the data and then the trailer; without data it does not |
| `Containers.ZlibCompress` | 3rd/zopfli/zlib_container.cc:50-71 | starts with the bytes 120 and 1; the zlib decoder returns the input exactly when it is not empty and the checksum covers it, which it always does below 2^32 bytes |
| `Containers.ChecksumMisses` | 3rd/zopfli/zlib_container.cc:54-54 | 2^32 zero bytes are an input whose checksum is not the one written |
| `Containers.GzipCompress` | 3rd/zopfli/gzip_container.cc:77-109 | starts with the ten header bytes of RFC 1952 without a time; the gzip decoder returns the input exactly when it is not empty and the CRC covers it |
| `Containers.CompressAs` | 3rd/zopfli/zopfli_lib.cc:22-37 | in each format decompressing gives the input back exactly when it is not empty and its checksum covers it, as it does below 2^32 bytes |
| `BlobKeys.LessTotal` | blobserver/src/BlobKey.hpp:20-26 | the key order is total and strict |
| `BlobKeys.LessTransitive` | blobserver/src/BlobKey.hpp:20-26 | the key order is transitive |
| `BlobKeys.StrLessIs` | blobserver/src/BlobKey.hpp:20-26 | a text is less than another exactly when, at the first place they differ, it has ended or has the smaller character |
| `BlobKeys.LessIs` | blobserver/src/BlobKey.hpp:20-26 | keys are ordered by name and then by value, both in that way |
| `BlobKeys.Sha1First` | blobserver/src/BlobKey.hpp:20-26 | every SHA-1 key comes before every SHA-256 key |
| `BlobKeys.TextsAscend` | blobserver/src/BlobKey.hpp:36-38 | references of the two kinds of keys are ordered as texts the way the keys are |
| `BlobKeys.DashlessKey` | blobserver/src/BlobKey.cpp:20-30 | parsing never fails: a text without a dash becomes both name and value, and any other is split so that printing gives it back |
| `BlobKeys.BlobrefRoundTrip` | blobserver/src/BlobKey.cpp:20-30 | printing a key and parsing it gives it back exactly when its name has no dash |
| `BlobIndex.SharedKeys` | blobserver/src/Hash.cpp:16-28 | two known contents share a key exactly when they agree up to their first NUL, so NUL-free contents never do |
| `BlobIndex.SomeHasher` | blobserver/src/Hash.cpp:16-28 | there are hashers without collisions for any set of short contents |
| `BlobIndex.HoldsMore` | blobserver/src/BlobIndex.cpp:96-106 | adding a NUL-free content keeps the index exact: it holds the old contents and the new one |
| `BlobIndex.Index.AddBlob` | blobserver/src/BlobIndex.cpp:44-110 | a content goes in under both keys unless a reference was given that names neither; the file is written only once |
| `BlobIndex.Index.Get` | blobserver/src/BlobIndex.cpp:126-139 | the blob with the key the text stands for, if any |
| `BlobIndex.Index.Paginate` | blobserver/src/BlobIndex.cpp:151-175 | the page of keys from the given one on, with their blobs |
| `Paging.PageHolds` | blobserver/src/BlobIndex.cpp:151-175 | a page holds, in order, exactly the keys from its start up to its last key |
| `Paging.ListingComplete` | blobserver/src/request_handler.cpp:245-276 | with an index that only grows, following continueAfter lists strictly increasing keys, each key present at the start, and nothing that is not there at the end |
| `Paging.PageProgress` | blobserver/src/Sync.cpp:115-123 | on a fixed index every full page moves on by all its keys but the last, which starts the next page |
| `Paging.FixedIndexEnds` | blobserver/src/Sync.cpp:115-123 | paging through a fixed index ends |
| `BlobServer.KeysAscend` | blobserver/src/BlobIndex.hpp:44-44 | keys of the index in their order give references that differ upwards at their first difference |
| `BlobServer.HandleEnumerate` | blobserver/src/request_handler.cpp:245-276 | lists 25 of 26 keys and continues at the 26th, or lists all; any two references, the one to continue at included, differ upwards at their first difference |
| `BlobServer.HandleStat` | blobserver/src/request_handler.cpp:326-362 | exactly the references asked about that are in the index |
| `BlobServer.HandleGet` | blobserver/src/request_handler.cpp:157-177 | the file of the blob the reference stands for |
| `BlobServer.HandlePut` | blobserver/src/request_handler.cpp:298-305 | adds the payloads that are not empty; if they are known and free of NUL, the index then holds exactly those more |
| `Sync.FollowListing` | blobserver/src/request_handler.cpp:245-276 | a client that follows the listing text by text, while others upload, sees references in strictly ascending order, every key there at its start and only keys there at its end |
| `Sync.FetchBlob` | blobserver/src/Sync.cpp:263-272 | a successful request adds the content the key belongs to, a failed one changes nothing |
| `Sync.SendBlob` | blobserver/src/Sync.cpp:160-190 | the same in the other direction |
| `Sync.GetPhase` | blobserver/src/Sync.cpp:83-110 | terminates even while others upload to the other side; contents only come from there; without failures everything there at the start is here afterwards, each content fetched at most once |
| `Sync.SendPhase` | blobserver/src/Sync.cpp:111-155 | terminates; the other side gains only from here and from its uploads; without failures it has everything held here; every request sends a content of this side that the other did not have at the start |
| `Sync.SameIndex` | blobserver/src/BlobIndex.cpp:96-99 | equal contents make equal indexes |
| `Sync.SyncHost` | blobserver/src/Sync.cpp:74-158 | contents only spread, whatever fails and whoever uploads meanwhile; with both phases on and no failures each side has all that either had, each content fetched at most once and only missing ones sent, and if nobody interferes both indexes equal the union |
| `Sync.UploadAndSync` | blobserver/src/Sync.cpp:74-158 | two servers started empty hold, after uploads to each and one round without failures, what was uploaded to either |
| `Sync.SmallUploads` | blobserver/src/Sync.cpp:74-158 | that premise can be met for any two short texts |
| `Replication.RunKeepsAll` | blobserver/src/Sync.cpp:59-71 | over every run of rounds between any servers, with any failures, servers only gain and together hold the same |
| `Replication.TwoSweepsConverge` | blobserver/src/Sync.cpp:59-71 | two sweeps of one server over the others without failures leave everything everywhere |
| `RequestParser.StepInv` | blobserver/src/request_parser.cpp:17-270 | every character keeps the body accounted for and every header access in range |
| `RequestParser.RunConserves` | blobserver/src/request_parser.cpp:237-265 | in every run bytes stored and bytes remaining make up the declared length, and an accepted request has its whole body |
| `RequestParser.ChunksDoNotMatter` | blobserver/src/request_parser.hpp:26-37 | verdict, stop offset and request are the same however the input is cut |
| `RequestParser.Parser.Consume` | blobserver/src/request_parser.cpp:17-270 | the object changes by exactly one step of the machine |
| `RequestParser.Parser.Parse` | blobserver/src/request_parser.hpp:26-37 | a chunk is consumed up to the first verdict or its end |
| `RequestText.PrintParse` | blobserver/src/request_parser.cpp:17-270 | printing any well-formed request and parsing it succeeds exactly at the last byte and restores it, names in lower case |
| `RequestText.AtoiReads` | blobserver/src/request_parser.cpp:242-242 | how a header value is read as a number: blanks, a sign, decimal digits, and whatever follows them |
| `RequestText.DeclaredIs` | blobserver/src/request_parser.cpp:241-242 | the declared length is the decimal number in the first content-length header, 0 without one |
| `RequestText.SizedRequest` | blobserver/src/request_parser.cpp:237-267 | a printed request whose header gives its body length is restored at its last byte if the body has at most 16777216 bytes, and refused right before the body otherwise |
| `RequestText.UsualHeader` | blobserver/src/request_parser.cpp:171-202 | Content-Length is that header, whatever its case |
| `RequestText.TokenCharacters` | blobserver/src/request_parser.cpp:272-306 | which characters methods and header names may have |
| `RequestText.AcceptedIsNormal` | blobserver/src/request_parser.cpp:17-270 | whatever input was accepted, its request is well formed, and printed and parsed again it comes out the same |
| `RequestGrammar.SpelledAccepted` | blobserver/src/request_parser.cpp:17-270 | the text of every well-formed message, continuation lines and any spelling of numbers and names included, is accepted at its last byte with the request its parts mean |
| `RequestGrammar.Next` | blobserver/src/request_parser.cpp:17-270 | every character that is not refused extends the parts read so far, and they spell all the text read |
| `RequestGrammar.AcceptsExactly` | blobserver/src/request_parser.cpp:17-270 | the language: an input is accepted at its last byte with a request exactly when it is the text of a well-formed message that means this request |
| `RequestGrammar.BeginningNotRefused` | blobserver/src/request_parser.cpp:17-270 | no beginning of a well-formed message is refused |

## Left out

- Floating point: costs, entropies and estimates are exact numbers, and the value 1e30 that marks an unreached byte is larger than any sum of them.
- Statistics, their mixing and the random restarts: each iteration may use any statistics at all; the best size starts as "none yet" instead of 1e30.
- Optimality of the long-repetition shortcut: only its validity is claimed, as the code claims no more.
- That the match found is the longest in the window: the limit of 8192 positions and the switch to the second hash prevent it; it is the longest among the positions visited (`ChainWalk.SearchIsLongest`).
- The order of leaves with equal frequencies: the library's qsort is modelled as a stable insertion sort, and the difference of two frequencies as an exact number.
- Buffers: growing arrays are sequences, the cache's byte array is one 24-byte row per position, setting a clear bit is an addition, and a byte read just past the data is 0.
- Allocation failures, freeing, verbose printing and the command-line program.
- Byte-swapped and non-64-bit variants of the match comparison, and compile-time options other than those in the source.
- BlobServer.HandlePut: says what the index then holds for payloads without NUL bytes only, because the hashes do not see what follows a NUL.
- Sync.GetPhase: takes the listings and contents the other server sends as already decoded; JSON, multipart and query grammars are not part of this model.
- Sync.SyncHost: other clients may upload to the other side between requests, but not to this one.
- BlobIndex.Index.Paginate: is one atomic step, although the code takes no lock.
- RequestParser.Parser.Consume: version numbers and the declared length are unbounded, where the code uses an int.
- Transport, threads, the file system and the hash functions themselves: requests succeed or fail, files are a map, hashes are functions without collisions among the contents that come up.
- Blob ownership, serialization, configuration, mime types, reply tables, static files and the web interface.
