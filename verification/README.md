# zlib 1.2.3, modelled and proved

A Dafny 4.11 model of the compression library in `zlib/`: deflate and inflate for raw and zlib streams, and the
two checksums. The code is modelled in its own form. What works in place by loops is a method over arrays or a
class whose methods change its fields, and each method is proved against a specification on values. Bit streams are
`seq<bool>`, least significant bit first; numbers are unbounded, with the ranges of the C types as invariants where
they matter; the CRC is on `bv32`.

The results, from the bottom up:

- **Canonical codes** (`Bits`, `Canonical`, `SymbolOrder`). Section 3.2.2 of RFC 1951 as a definition: the codes
  of a set of lengths, what a bit string decodes to, that the codes are prefix free, and that a decision taken on
  some bits never changes when more arrive.
- **Huffman construction** (`HuffmanHeap`, `InitHeap`, `GrowTree`, `HuffmanTree`, `HuffmanOptimal`, `PrefixCodes`,
  `BitLengths`, `GenLengths`, `CodeGeneration`, `TreeBuilder`). `build_tree` always yields a complete code within
  the greatest length, its costs are exact, and when nothing overflows no prefix code at all does better.
- **Decoding tables** (`InfTreesSpec`, `InfTrees`, `TableFill`, `TableRoom`, `InflateTable`). `inflate_table`
  accepts exactly the right sets, its table decodes every bit string as the definition does, and it never needs
  more than `ENOUGH` entries. The comment at `zlib/inftrees.c:168-173` says that the last point has never been
  proven; here it is.
- **The format** (`Format`, `Standard`). A reader that decodes a bit string one step at a time, the specification that
  both directions are proved against: its runs end in at most one way, and more input does not change a run. The orders,
  codes, bases, counts and refusals of RFC 1951 are stated once more as formulas, and hold of the reader's steps and of
  the bits written alike.
- **Writing blocks** (`BitOutput`, `StaticTables`, `BlockCode`, `TreeCode`, `TreeCost`, `Overlay`, `Sending`, `Blocks`,
  `Trees`, `OverlayRoom`). Stored, static and dynamic blocks all read back as what they stand for, the sizes
  `_tr_flush_block` compares are exact, and no block exceeds `pending_buf`. The tokens of a block lie in that buffer
  too, above the bytes being written from them; when none of them is overwritten before its turn is stated exactly.
- **Finding matches** (`RollingHash`, `HashChains`, `Matching`, `Parsing`, `Memory`, `SlidingWindow`, `Coverage`,
  `Deflate`, `DeflateStream`). Each token is the one that the strategy calls for: the state keeps, for every token sent,
  what the search at its place looked at and came to, and greedy and lazy matching miss nothing that they were offered.
  The tokens sent so far always expand to the input up to `strstart` (less one byte when a
  literal is held back), across window slides and for any portions of input and output. Unless tokens were
  overwritten, `deflate` as a whole returns `Z_STREAM_END` only when what it has given out is a complete stream for
  all input, and what follows a full flush is one of its own.
- **Reading** (`BitInput`, `RingWindow`, `InflateStates`, `InflateHeader`, `InflateCodes`, `FastCopy`,
  `InflateFast`, `Inflate`, `InflateZlib`). After any calls, `inflate` is at a state that the reader reaches on the
  input consumed so far; it stops early only for want of room or of input that decides something. `inflate_fast` is
  a shortcut to a state that the slow states reach too. The states for the zlib header and the checksum stand around
  those of the raw stream.
- **Round trip** (`RoundTrip`, and `InflateZlib` for whole zlib streams). How input and room are cut up makes no
  difference to the outcome; whatever `deflate` completed without losing tokens, `inflate` reads back; and loops of
  calls with any buffers of at least one byte always come to an end, in both directions.
- **Checksums** (`Adler32`, `CrcPolynomial`, `Crc32`). Deferred reduction, both forms of `MOD`, the sliced CRC on
  either kind of machine, and both combination functions, against byte-wise and polynomial definitions.

Some things the proofs brought to light:

- The round trip does not hold for all settings. `compress_block` reads its tokens from the upper three quarters of
  `pending_buf` while it fills the buffer from the bottom, and only a debug assertion (`zlib/trees.c:1110-1112`) looks
  whether the two meet. The comment at `zlib/deflate.c:229-231` relies on 24 bits for a pair on the average. With static
  trees every block is safe exactly if no distance is greater than 256 (`OverlayRoom.FixedExactly`); with Z_FIXED and
  a larger window a full buffer of pairs of 25 bits is overwritten at every memory level (`OverlayRoom.FullBlockLost`).
  In general it depends on the code lengths: `Sending.CompressBlock` says for which blocks it happens, exactly. The
  state keeps whether it has happened (`intact`), and all results about what the stream stands for are for runs in
  which it has not. It never does at level 0, with Z_HUFFMAN_ONLY, and with Z_FIXED for window bits up to 9
  (`DeflateStream.Compressor.NothingLost`).
- `adler32_combine` may return a half equal to `BASE` where zero would be right (`zlib/adler32.c:144-147`);
  `Adler32.CombineExact` says exactly for which arguments, and `Adler32.CombineMisses` shows a case.
- The test `ret` 1 of `inflate_table` (`zlib/inftrees.c:280`) can never fire with the root sizes inflate uses.
- In `longest_match_fast` the test `len < MIN_MATCH` behind the comparison never holds, and the loop of
  `fill_window` never runs twice on a window of at least 512 bytes (`SlidingWindow.OneRead`).
- `inflate_fast` is documented for `bits < 8` on entry, but `inflate` may call it with more; the proof covers this.
- The comment in `build_tree` that the forced `node` is 0 or 1 is not quite right: when 1 is the only symbol used
  it is 2 (`InitHeap.ForcedNodeIsNew`); the costs still come out right.
- A single used symbol gets one bit although no bits would do (`TreeBuilder.OneSymbol`), as the format requires; in
  every other case without overflow the lengths are optimal.
- After a slide `match_start` may lie before the window (it wraps around in C); no match is ever taken from there.
- Position 0 of the window is the end mark of every chain, so the string there is never found again; and a string exactly
  MAX_DIST back is looked at only if it is the newest under its hash. What the search is offered (`Parsing.Offered`)
  leaves both out.
- `hash_head` may be stale when fewer than three bytes are left; the cut to the lookahead is what keeps a match
  from coming out of such a search.

## Model

| member | source | states |
|---|---|---|
| RoundTrip.ThereAndBack | zlib/deflate.c:552-856 | for every complete stream, such as any calls of `deflate` end in unless they lose tokens, and any calls of `inflate` on it: the output is a prefix of the input of deflate, no error occurs, the end comes with all of the input and right behind the deflated data, and with the whole stream consumed the decoder is never left waiting for more input |
| RoundTrip.ChunksDoNotMatter | zlib/inflate.c:588-1152 | two decoders given the same input in any portions, with any room at each call, that have both come to an end have the same verdict, the same output and, at DONE, have consumed the same bytes |
| RoundTrip.ReadsBack | zlib/inflate.c:588-1152 | on any stream that stands for some data, whatever follows it, the output is always a prefix of the data, BAD is never reached, DONE comes exactly behind the stream |
| RoundTrip.OnePath | zlib/inflate.c:587-1125 | of two states that the reader reaches on the same bits one is reached from the other |
| RoundTrip.OutGrows | zlib/inflate.c:1046-1076 | output is only ever appended to |
| RoundTrip.InflateAtOnce | zlib/inflate.c:554-1153 | one call with the whole stream and room for one byte more than the data ends with Z_STREAM_END, everything consumed, and the data |
| RoundTrip.InflateInPieces | zlib/inflate.c:554-1153 | fed in pieces of any positive size, with any positive room for each, decompression always comes to its end, with all of the data |
| RoundTrip.CompressUncompress | zlib/deflate.c:552-856 | whatever the level, window, memory level, strategy and wrapper, however the data is cut up, flushed and given room on the way in and out, both loops end, and the data comes back unless a block was written over its own tokens, which the result tells; with settings that are safe it always comes back |
| RoundTrip.DeflateSome | zlib/deflate.c:552-856 | any calls that do not finish leave the compressor ready for more, with exactly the input taken so far in it |
| RoundTrip.DeflateRest | zlib/deflate.c:552-856 | calls with Z_FINISH and any positive room always get to Z_STREAM_END, and the stream is then complete for all input, if no token has been lost |
| RoundTrip.StartBehindFlush | zlib/zlib.h:283-287 | after any calls, a full flush that had room for all its output, and any calls to the end, what was given behind the flush is decompressed on its own to what was compressed behind it, if no token has been lost |
| InflateZlib.ZlibRoundTrip | zlib/inflate.c:554-1153 | the zlib stream that any calls of deflate have written is read to its end by any calls of inflate, header and checksum accepted, and gives back the data, unless tokens were lost, which the result tells; with settings that are safe it always does |
| InflateZlib.EndIsComplete | zlib/inflate.c:1077-1116 | Z_STREAM_END comes only when the bytes consumed are a complete zlib stream of the output: a good header, deflated data that ends there, and the right checksum |
| InflateZlib.ZlibReadsBack | zlib/inflate.c:588-1152 | on a complete zlib stream followed by anything, the output is a prefix of its data, there is no error, the end comes exactly behind the stream, and the decoder never waits for input behind it |
| InflateZlib.InflateZlibInPieces | zlib/inflate.c:554-1153 | fed in pieces of any positive size, with any positive room, a complete zlib stream is always read to its end |
| InflateZlib.ZlibInflater.Inflate | zlib/inflate.c:554-1153 | after any call the input consumed is a header, deflated data read as far as it goes, and part of a trailer, as the state says; BAD exactly for a wrong header, bad data or a wrong checksum; Z_BUF_ERROR exactly if nothing was taken and given, or Z_FINISH asked for more than there was; a call stops early only for want of room or input |
| InflateZlib.ZlibInflater.InflateBody | zlib/inflate.c:1133-1148 | the checksum kept is that of all output so far |
| InflateZlib.JudgeHeader | zlib/inflate.c:611-632 | the tests on the accumulator are those of section 2.2 of RFC 1950 on the two bytes |
| InflateZlib.ReadHead | zlib/inflate.c:589-633 | the header, across any interruption |
| InflateZlib.ReadDictId | zlib/inflate.c:761-770 | the identifier of the dictionary that the stream asks for, across any interruption, in network order |
| InflateZlib.ReadCheck | zlib/inflate.c:1077-1098 | the trailer, across any interruption, accepted exactly if it is the checksum |
| InflateZlib.TrailerIs | zlib/inflate.c:468-470 | comparing the reversed accumulator with the checksum compares four bytes in network order |
| InflateZlib.DeflateHeader | zlib/deflate.c:625-638 | every header that deflate writes passes the tests of inflate |
| InflateTable.InflateTable | zlib/inftrees.c:32-329 | -1 exactly for sets that are over-subscribed or incomplete in a way that is not allowed; on 0 the table decodes every accumulator to the action and length of the symbol whose canonical code it starts with, and to an invalid entry of one bit where no code matches; all entries from `used` on are untouched and `used` stays within the proved bound |
| InflateTable.EnterCodes | zlib/inftrees.c:200-289 | all codes in order are in the table at the end, root entries and sub-tables, with the running code, length and counts as they should be |
| InflateTable.OpenSubTable | zlib/inftrees.c:259-288 | a new sub-table behind the last one keeps all codes entered so far, is wide enough for every code with its prefix, and fits the table |
| InflateTable.CompleteDecodes | zlib/inftrees.c:200-289 | with all codes of a complete set entered, every accumulator is decoded, and rightly |
| InflateTable.ShortDecodes | zlib/inftrees.c:298-323 | with the single one-bit code that is allowed to be incomplete, the remaining root entry is all there is to fill |
| InflateTable.FillRest | zlib/inftrees.c:298-323 | the filling loop writes at most the root entry 1, and ends |
| InflateTable.NewStep | zlib/inftrees.c:259-288 | opening a sub-table turns the invariant for the last code into the invariant for the next one |
| TableRoom.EnoughIsEnough | zlib/inftrees.c:168-173 | the largest literal table (root 9) and the largest distance table (root 6) fit side by side into ENOUGH entries, and the literal table stays below the limit in the code |
| TableRoom.RoomBound | zlib/inftrees.c:268-281 | for every complete set, in any order of lengths, the entries used are at most 2^root plus the number of symbols plus 2^(max - root + 1) |
| TableFill.Fill | zlib/inftrees.c:232-239 | the loop counting down in steps of 2^len writes exactly the entries of the current table whose low bits are the code |
| TableFill.FillLong | zlib/inftrees.c:217-239 | entering a long code places it and disturbs no code entered before, in this sub-table or another |
| TableFill.LinkKeeps | zlib/inftrees.c:283-288 | linking a new sub-table disturbs no code entered before |
| InfTrees.BackIncrement | zlib/inftrees.c:241-250 | incrementing from the top bit down is the increment of the code itself, bit-reversed; all ones become zero |
| InfTrees.SubTableBits | zlib/inftrees.c:268-276 | the width found holds every code with the prefix, and is no larger than the codes need |
| InfTrees.FreeSpace | zlib/inftrees.c:130-136 | negative exactly for over-subscribed sets, otherwise what is missing to a Kraft sum of one |
| InfTrees.SortSymbols | zlib/inftrees.c:140-147 | symbols by length, and by value within a length |
| SymbolOrder.NextCode | zlib/inftrees.c:241-257 | in this order each canonical code is the last one plus one, extended by zeros to its length |
| Canonical.PrefixFree | zlib/trees.c:577-609 | no canonical code, as the decoder sees it, begins with another one |
| Canonical.KraftIsEndCode | zlib/inftrees.c:130-136 | the Kraft sum in units of 2^-m is the code behind the last one of length m |
| Canonical.FindRevCode | zlib/inftrees.c:130-138 | with a complete set every accumulator starts with some code |
| Canonical.UniqueStart | zlib/trees.c:577-609 | at most one code starts a given bit string |
| Canonical.DecodeSymStable | zlib/inflate.c:957-970 | a symbol, or the lack of one, once decided on some bits stays so when more bits arrive |
| PrefixCodes.NoPrefixCodeIsBetter | zlib/trees.c:611-618 | lengths that are optimal, as those of `build_tree` are without overflow unless just one symbol is used, cost no more than any prefix code whatever on the used symbols |
| PrefixCodes.KraftInequality | zlib/trees.c:611-618 | the lengths of any prefix code satisfy Kraft's inequality |
| TreeBuilder.BuildTree | zlib/trees.c:619-701 | the lengths are a complete code within the greatest length that gives every used symbol a code, and no other symbol if at least two are used; the codes are the canonical ones reversed; `max_code` is the largest symbol with a code; `opt_len` and `static_len` grow by exactly the cost of the true frequencies; without overflow the lengths are optimal if and only if the number of used symbols is not one |
| TreeBuilder.OneSymbol | zlib/trees.c:645-656 | a single used symbol is given one bit per occurrence, while the empty word would do |
| TreeBuilder.GenBitlen | zlib/trees.c:490-567 | terminates with all leaf lengths in 1..max_length, a Kraft sum of exactly one, `bl_count` matching, exact costs, and twice as much overflow as there are cut fathers; without overflow the lengths are the depths and minimal in cost |
| TreeBuilder.OptimalFor | zlib/trees.c:645-656 | forcing extra symbols does not touch optimality for the true frequencies |
| BitLengths.Repair | zlib/trees.c:532-546 | the repair loop ends with a Kraft sum of exactly one and as many leaves as before |
| BitLengths.MoveOneEffect | zlib/trees.c:536-546 | each round takes one unit of 2^-max_length off the Kraft sum and no leaf away |
| BitLengths.SomeShorter | zlib/trees.c:536-538 | while there is excess, a leaf shorter than the greatest length exists, so the search for it ends |
| GenLengths.FirstPass | zlib/trees.c:507-529 | every node gets its depth cut to the greatest length; counts and costs match |
| GenLengths.SecondPass | zlib/trees.c:553-566 | reassigning from the repaired counts gives every leaf a length, the counts match, and the cost follows |
| HuffmanTree.MergesOptimal | zlib/trees.c:667-692 | the weights of the merged nodes add up to a lower bound for every feasible assignment of lengths |
| HuffmanTree.DepthsKraft | zlib/trees.c:507-529 | the cut depths exceed a Kraft sum of one by one unit for each merge whose father is at the greatest length already |
| HuffmanTree.DepthsCost | zlib/trees.c:507-529 | without such a merge the depths cost exactly what the merges added up to |
| HuffmanOptimal.MergeStep | zlib/trees.c:667-692 | a lower bound behind the merge of the two lightest nodes gives one before it |
| HuffmanOptimal.Level | zlib/trees.c:667-692 | any feasible lengths can be changed, at no greater cost, so that the two lightest nodes have equal lengths |
| GrowTree.MergeAll | zlib/trees.c:664-697 | the forest becomes one tree in which every merge joined two lightest roots, and the nodes stand in the array from `heap_max` on in order of falling weight, the root first |
| GrowTree.GrowBounds | zlib/trees.c:667-692 | between any two merges the heap and the nodes stored above it do not meet |
| GrowTree.MergeTwo | zlib/trees.c:667-690 | one merge joins the two nodes that go before all others, the lighter first and of equals the one with the lower subtree, gives the new node their weight and one more than the greater height, and keeps all this, with 16-bit frequencies that never overflow and 8-bit depths |
| GrowTree.PqRemove | zlib/trees.c:434-439 | takes out a lightest node, of equals one with a lowest subtree, and leaves a heap of the others |
| InitHeap.StartTree | zlib/trees.c:634-662 | the heap holds the used symbols and forced ones up to two, all of depth zero, and the costs are lowered by what the forced ones will add |
| InitHeap.ForcedNodeIsNew | zlib/trees.c:650-656 | a forced symbol is new and one of the first three; it is 2 exactly when 1 is the only symbol used |
| HuffmanHeap.PqDownHeap | zlib/trees.c:455-478 | restores the heap below k, permutes its nodes and touches nothing behind them |
| HuffmanHeap.RootLeast | zlib/trees.c:441-447 | the root of the heap is least |
| CodeGeneration.GenCodes | zlib/trees.c:577-609 | every symbol with a length gets its canonical code in reversed order, the others keep what they had |
| CodeGeneration.BiReverse | zlib/trees.c:1146-1156 | the code with its bits in the opposite order |
| Bits.ReverseIsMsb | zlib/trees.c:1140-1156 | a reversed code sent from its low end is the code sent from its high end |
| Format.StepStable | zlib/inflate.c:433-465 | a step of the reader is the same when more bits follow |
| Format.FinalUnique | zlib/inflate.c:1114-1119 | a run of the reader ends in at most one way |
| Format.StepSane | zlib/inflate.c:777-1076 | every step keeps the reader's codes usable and its counts in range |
| Format.ReachesMore | zlib/inflate.c:587-1125 | what is reached on some bits is reached on any continuation of them |
| Format.FixedComplete | zlib/trees.c:292-309 | both fixed codes are complete |
| Standard.LowestFirst | zlib/trees.c:192-229 | bytes travel in order, each from its lowest bit on (section 3.1.1) |
| Standard.ExampleCodes | zlib/trees.c:577-609 | the canonical codes of the example in section 3.2.2 |
| Standard.BlockStart | zlib/inflate.c:773-806 | one bit for the last block, two for its kind: 00 stored, from the next byte on, 10 the fixed codes, 01 codes of its own; 11 is refused (section 3.2.3) |
| Standard.BlocksStart | zlib/trees.c:972-997 | the writer puts the same three bits in front of a stored, static and dynamic block |
| Standard.StoredLength | zlib/inflate.c:807-819 | a stored block has a length and its complement of 16 bits each, or it is refused (section 3.2.4) |
| Standard.StoredIs | zlib/trees.c:1197-1219 | behind the padding the writer puts length, complement and bytes |
| Standard.LiteralSymbol | zlib/inflate.c:972-990 | symbols below 256 stand for a byte, 256 ends the block (section 3.2.5) |
| Standard.LiteralIs | zlib/trees.c:1084-1117 | the writer sends a literal as the code of its byte, tokens one after the other, and 256 behind them |
| Standard.LengthCodesAre | zlib/inftrees.c:60-66 | length code 257 + c has no extra bits for c < 8 and c = 28 and c/4 - 1 otherwise, and begins at 3 + c, at 258, and at 3 + (4 + c mod 4) * 2^(c/4 - 1), in the tables of both sides |
| Standard.DistCodesAre | zlib/inftrees.c:67-73 | distance code c has no extra bits for c < 2 and c/2 - 1 otherwise, and begins at 1 + c and at 1 + (2 + c mod 2) * 2^(c/2 - 1), in the tables of both sides |
| Standard.LengthSymbol | zlib/inflate.c:972-1000 | with a symbol above 256 the reader goes to a length with that start and those extra bits; the two symbols without a meaning are refused |
| Standard.DistSymbol | zlib/inflate.c:1001-1025 | the same for a distance symbol |
| Standard.Distance | zlib/inflate.c:1026-1045 | a distance is refused exactly if it reaches back before the output |
| Standard.TablesAre | zlib/trees.c:238-316 | all that the tables of the compressor hold, in these formulas |
| Standard.PairIs | zlib/trees.c:1088-1108 | what the writer sends for a pair: the code of its length, what is left of it in the extra bits, and the same of its distance, in these formulas |
| Standard.Counts | zlib/inflate.c:837-854 | three counts, of 5, 5 and 4 bits, that begin at 257, 1 and 4; more than 286 or 30 codes are refused (section 3.2.7) |
| Standard.HeaderIs | zlib/trees.c:838-862 | the writer puts the same counts in front, and the items of the literal and then of the distance lengths at the end |
| Standard.LengthsInOrder | zlib/inflate.c:855-863 | the lengths of the code length code come for 16, 17, 18, 0, and then outwards from 8: 8 + j in place 4 + 2j and 8 - j in place 3 + 2j |
| Standard.LengthsLeftOut | zlib/inflate.c:864-865 | those that do not come are zero |
| Standard.HeaderField | zlib/trees.c:851-856 | the writer puts the three-bit fields in this order |
| Standard.RepeatCodes | zlib/inflate.c:883-922 | a symbol below 16 is a length, 16 repeats the last one 3 to 6 times, 17 and 18 stand for 3 to 10 and 11 to 138 zeros; too many are refused |
| Standard.NothingToRepeat | zlib/inflate.c:889-899 | 16 as the first symbol is refused |
| Standard.SetsTaken | zlib/inftrees.c:105-138 | a set of lengths is accepted if and only if it is empty, or its codes take up all bit strings, or, except for the code length code, it is a single code of one bit |
| Standard.SetsComplete | zlib/inflate.c:928-949 | behind the last length both sets are tried, and the block goes on exactly if both are accepted |
| StaticTables.TrStaticInit | zlib/trees.c:238-316 | the tables hold, for every length and distance, the code of section 3.2.5 of RFC 1951, the bases, and the fixed codes; `Standard.TablesAre` puts this in formulas |
| StaticTables.DistTables | zlib/trees.c:274-290 | `dist_code` in its two halves gives the distance code of every distance minus one |
| StaticTables.LengthTables | zlib/trees.c:259-272 | `length_code` gives the code of every length, with 258 overwritten at the end |
| StaticTables.LengthFits | zlib/inftrees.c:60-66 | every length is the base of its code in the decoder's table plus a number that fits its extra bits; 258 has a code of its own; where each code begins is in `Standard.LengthCodesAre` |
| StaticTables.DistFits | zlib/inftrees.c:67-73 | every distance up to 32768 is the base of its code in the decoder's table plus a number that fits its extra bits |
| BlockCode.BlockDecodes | zlib/trees.c:1072-1118 | the bits of any tokens under any usable codes read back as their expansion, and the reader stops right behind the end-of-block code |
| BlockCode.TokenDecodes | zlib/trees.c:1084-1108 | a literal or a pair reads back as its byte or its overlapping copy |
| Sending.CompressBlock | zlib/trees.c:1072-1118 | reads the tokens from d_buf and l_buf as they lie in `pending_buf`; no entry is overwritten before it is read if and only if before each token the bytes put, which follow from the bits held and the code lengths, end below its entry; then exactly the bits of the tokens are appended, and otherwise those of the tokens before the first entry that is overwritten |
| Sending.SendEntry | zlib/trees.c:1082-1108 | a token read from the buffer above the bytes put is the token tallied |
| Overlay.PutDown | zlib/trees.c:1027-1028 | the two stores of a tally leave all earlier entries as they are |
| Overlay.StillThere | zlib/trees.c:1110-1112 | an entry is as it was as long as the bytes put end below it |
| BitOutput.Output.PutIs | zlib/trees.c:211-229 | how many bytes have left the bit buffer follows from the number of bits alone, since only whole words are put |
| OverlayRoom.FixedExactly | zlib/deflate.c:229-231 | with static trees, all blocks whose distances are at most `far` are sent without losing a token if and only if `far` is at most 256 |
| OverlayRoom.ThriftySpared | zlib/deflate.c:229-231 | if no token takes more than 24 bits, none is overwritten |
| OverlayRoom.CostlyLost | zlib/trees.c:1110-1112 | with one token of 25 bits or more all over, a full buffer is overwritten, whatever its size |
| OverlayRoom.FullBlockLost | zlib/trees.c:972-989 | behind any 257 bytes there is input for which Z_FIXED writes a static block over its own tokens, at every memory level |
| OverlayRoom.DynamicSpared | zlib/trees.c:990-997 | a dynamic block of literals is never written over its tokens: being shorter than the static one, its header and its first codes cannot take too much |
| OverlayRoom.SafeSpared | zlib/trees.c:972-997 | at level 0, with Z_HUFFMAN_ONLY, and with Z_FIXED up to a distance of 256, no block is written over its tokens |
| TreeCode.HeaderDecodes | zlib/trees.c:838-862 | what `send_all_trees` writes rebuilds exactly both sets of lengths, and all three sets pass the decoder's tests; the order of the three-bit fields is that of `Standard.HeaderField` |
| TreeCode.RleReads | zlib/trees.c:752-797 | a run-length coded set reads back as itself whatever stands before it, so no repeat crosses from the literal into the distance tree |
| TreeCode.RleIsDue | zlib/trees.c:752-797 | every item is the one its place calls for: a length goes by itself if it is new there or fewer than three like it follow, and a repeat goes on to the end of the run or as far as its symbol allows |
| TreeCode.DueOnce | zlib/trees.c:752-797 | so no other sequence of items would do |
| Sending.ScanTree | zlib/trees.c:707-746 | counts exactly the items of the run-length form and sets the guard |
| Sending.SendTree | zlib/trees.c:752-797 | sends exactly the items of the run-length form |
| Sending.SendAllTrees | zlib/trees.c:838-862 | appends exactly the bits of the header |
| TreeCost.BlockCost | zlib/trees.c:490-567 | the size of a block is the sum of frequency times length and extra bits over both trees |
| TreeCost.ItemsCost | zlib/trees.c:803-831 | the same for the items of the header |
| Trees.BuildBlTree | zlib/trees.c:803-831 | `opt_len` grows by exactly the bits of the header, the index returned is the last one with a code, and everything `send_all_trees` needs is there |
| Trees.StaticCost | zlib/trees.c:524-528 | `static_len` is the size of the block under the fixed codes |
| Trees.WellChosenBy | zlib/trees.c:954-987 | in bytes of the true sizes: the stored form is chosen if and only if the data is at hand and with four bytes no longer than either coded form; otherwise the static form if and only if it is no longer than the dynamic one or Z_FIXED asks for it |
| Blocks.FixedDecodes | zlib/trees.c:986-989 | a static block reads back as the expansion of its tokens |
| Blocks.DynamicDecodes | zlib/trees.c:993-997 | a dynamic block reads back as the expansion of its tokens |
| Blocks.StoredDecodes | zlib/trees.c:867-879 | a stored block reads back as its bytes |
| Trees.CopyBlock | zlib/trees.c:1197-1219 | padding to a byte, the length, its complement and the bytes are appended |
| Trees.TreeState.constructor | zlib/trees.c:382-406 | starts an empty block |
| Trees.TreeState.InitBlock | zlib/trees.c:411-424 | the counters are those of an empty block |
| Trees.TreeState.Tally | zlib/trees.c:1022-1067 | puts the token down in d_buf and l_buf and counts its symbols; nothing that has been sent changes; the result is set exactly when the buffer is full |
| Trees.TreeState.BuildTrees | zlib/trees.c:937-952 | `opt_len` and `static_len` are the exact sizes of the block in both forms, and the trees are ready to be sent |
| Trees.TreeState.StoredBlock | zlib/trees.c:867-879 | appends a stored block |
| Trees.TreeState.WriteBlock | zlib/trees.c:972-1001 | appends the block in the form that the sizes in bytes call for, all of it if and only if no token is overwritten before its turn |
| Trees.TreeState.FlushBlock | zlib/trees.c:921-1016 | the stream stays intact if and only if the block keeps all its tokens; then, wherever one starts to read it, the stream, which stood for the input before the block, stands for it with the block, complete and byte-aligned if it is the last; the form is the one that the true sizes call for; the tokens are kept in the record of the blocks; no block exceeds the buffer |
| Trees.TreeState.Align | zlib/trees.c:892-915 | adds exactly one or two empty static blocks, two exactly if the end of the last block and the first empty block leave the decoder less than nine bits |
| Trees.EmptiesRead | zlib/trees.c:880-891 | empty static blocks change nothing in what the stream stands for |
| BitOutput.Output.constructor | zlib/deflate.c:291-295 | an empty buffer |
| BitOutput.Output.PutByte | zlib/deflate.h:264-268 | with `pending_out` at the start of the buffer the byte follows those pending |
| BitOutput.Output.PutShort | zlib/trees.c:177-183 | two bytes, the low one first |
| BitOutput.Output.SendBits | zlib/trees.c:192-229 | everything sent so far is followed by exactly the bits of the value, across the 16-bit accumulator |
| BitOutput.Output.BiFlush | zlib/trees.c:1161-1173 | moves whole bytes out and changes nothing in what was sent |
| BitOutput.Output.BiWindup | zlib/trees.c:1178-1191 | pads with zero bits to a byte boundary |
| BitOutput.Output.FlushPending | zlib/deflate.c:532-549 | gives out the first bytes pending, as many as there is room for; given and pending together stay the same |
| DeflateStream.Compressor.Deflate | zlib/deflate.c:552-856 | for any input, room and flush: input is taken from the front, output appended, and the bytes given and pending only ever grow at their end; Z_STREAM_ERROR and Z_BUF_ERROR come exactly in their cases, for which the last flush value is kept, or forgotten when the room was used up; Z_OK with room left means that all input has been taken and, but for less than MIN_LOOKAHEAD bytes, dealt with, and after a flush that all of it is in and, if no token has been lost, can be read back, also from the last full flush on; Z_STREAM_END means a complete stream with its header and trailer, if no token has been lost; a call with Z_FINISH that returns Z_OK has come closer to the end |
| DeflateStream.Compressor.constructor | zlib/deflate.c:216-311 | a compressor that has read and written nothing, with the window that the header will announce |
| DeflateStream.Compressor.WriteHeader | zlib/deflate.c:624-650 | the zlib header is pending: its two bytes, with the level in the upper two bits of the second |
| DeflateStream.Compressor.WriteTrailer | zlib/deflate.c:832-855 | the checksum follows, once, and the stream is complete when all of it has been given out, if no token has been lost |
| DeflateStream.Compressor.ForgetHistory | zlib/deflate.c:811-818 | behind the block of a full flush a part of the stream begins that stands on its own |
| DeflateStream.Compressor.NothingLost | zlib/deflate.c:216-311 | with safe settings no token is lost at any time |
| DeflateStream.Compressor.TokensLawful | zlib/deflate.c:1448-1674 | at any time and at every level but 0, each token sent so far is the one that the search at its place calls for, with the parameters of the level, and together they span the input up to `strstart`, less one byte that may be held back |
| DeflateStream.Compressor.GreedyRun | zlib/deflate.c:1488-1541 | at levels 1 to 3 a byte is sent as a literal only if no string offered to the search there has three bytes in common with it |
| DeflateStream.Compressor.LazyRun | zlib/deflate.c:1583-1664 | from level 4 on, unless the input is filtered, a byte where a string offered has four bytes in common is sent as a literal only if the search at the next byte came to a longer match than the one found there |
| DeflateStream.Compressor.WithinWindow | zlib/deflate.h:276-280 | no pair sent so far reaches back further than the window size that the header announces, less MIN_LOOKAHEAD |
| DeflateStream.Compressor.Compress | zlib/deflate.c:784-807 | the outcome of one call of the compression function of the level, by its block state; blocks end only where the token buffer is full or the input ends |
| DeflateStream.Compressor.EndBlock | zlib/deflate.c:808-825 | after the empty block of a flush and with room left the application can read back all input, and all input since the last full flush on its own, if no token has been lost |
| DeflateStream.Compressor.Run | zlib/deflate.c:756-856 | the part of `deflate` behind the header, with the reason for each return code |
| DeflateStream.HeaderFields | zlib/deflate.c:625-638 | the fields of section 2.2 of RFC 1950, and a check that makes the header a multiple of 31; the level field is 0 exactly for level 0 or 1 or a strategy from Z_HUFFMAN_ONLY on, otherwise 1 for levels 2 to 5, 2 for 6, and 3 above |
| DeflateStream.HeaderLevel | zlib/deflate.c:625-638 | the same of the bytes; with the default settings they are 0x78 and 0x9c |
| DeflateStream.BigEndianValue | zlib/deflate.c:518-524 | the checksum is put with its most significant byte first |
| DeflateStream.EmptyStoredReads | zlib/deflate.c:811-815 | the empty stored block of a flush adds nothing to what the stream stands for |
| Deflate.Deflater.DeflateFast | zlib/deflate.c:1448-1546 | the tokens of the current block always expand to the input up to `strstart`, and each is the one greedy matching calls for; on return they do again, or the block has been written, and at the end of a flush or of the stream this covers all input; blocks end only where the token buffer is full or the input ends; without a flush the function stops only with less than MIN_LOOKAHEAD bytes left |
| Deflate.Deflater.DeflateSlow | zlib/deflate.c:1554-1674 | the same for lazy matching, up to one byte before `strstart` while a literal or match is held back |
| Deflate.Deflater.SlowRound | zlib/deflate.c:1583-1664 | one round of lazy matching sends the match held back, as that distance and length, exactly if it has at least three bytes and the search at `strstart` comes to nothing longer; otherwise the literal held back, or nothing if there is none; the strings entered are exactly those passed; the result of the search is held back in turn |
| Deflate.Deflater.FindSlow | zlib/deflate.c:1575-1612 | the match found before is what is held back; what is found now is what the search over the strings of the dictionary within reach comes to, given up exactly in the cases of Z_FILTERED and TOO_FAR; nothing only if the match held back is long enough or no string is there |
| Deflate.Deflater.GoOn | zlib/deflate.c:1641-1663 | the literal held back is sent, a full block written, and the new match takes its place |
| Deflate.Deflater.SlowMatch | zlib/deflate.c:1611-1637 | the match held back is sent and all its strings entered |
| Deflate.Deflater.StoredRound | zlib/deflate.c:1404-1436 | the block takes all input there is, but no more than a stored block may hold, and is written exactly if it is that long or as long as MAX_DIST |
| Deflate.LevelsGrow | zlib/deflate.c:137-149 | within the levels of one function the parameters never fall |
| Deflate.Deflater.FastStep | zlib/deflate.c:1469-1541 | one round of greedy matching sends what the search at `strstart` comes to, if that has at least three bytes, and otherwise the byte there; the strings of a match are entered exactly if it is short |
| Deflate.Deflater.FindFast | zlib/deflate.c:1469-1497 | the string is entered, and what is found is what the search over the strings of the dictionary within reach comes to |
| Deflate.Deflater.DeflateStored | zlib/deflate.c:1390-1439 | the same for stored blocks, which always fit `pending_buf` |
| Deflate.Deflater.EmitBlock | zlib/deflate.c:1364-1370 | the block written stands for all input since the last one, also when its start has left the window, if and as long as every block has kept its tokens; with safe settings each has; its form is the one that the true sizes call for; no token is dropped or added |
| Deflate.OnItsOwn | zlib/zlib.h:283-287 | a pair at any position in the input reaches back no further than the last full flush |
| Deflate.Deflater.FlushBlockOnly | zlib/deflate.c:1364-1373 | the same, with output handed over in order |
| Deflate.Deflater.Search | zlib/deflate.c:1476-1497 | a match longer than the previous one is a true match within reach and lookahead; with Z_HUFFMAN_ONLY, and with Z_RLE but for distance one, nothing is searched; otherwise no candidate that the level allows is better, unless the match is long enough; what was looked at is what the dictionary offers, nearest first, up to as many strings as the level allows |
| Deflate.Deflater.constructor | zlib/deflate.c:216-311 | sizes and parameters as `deflateInit2_` sets them: window of 2^window bits, at least 512, memory level + 7 hash bits in three shifts, 2^(memory level + 6) tokens, the parameters of the level |
| Coverage.MatchCovered | zlib/deflate.c:1498-1502 | a true match sent as a pair extends what the tokens cover by its length |
| Matching.LongestMatch | zlib/deflate.c:1027-1168 | the result is a true match within reach and lookahead; unless it is long enough for the level, no candidate among the first `max_chain_length` ones of the chain (a quarter of them behind a good match) agrees in more bytes; those before it on the chain agree in fewer, and in too few to end the search |
| Matching.LongestMatchFast | zlib/deflate.c:1175-1226 | exactly how many bytes the one candidate has in common, cut to the lookahead |
| Matching.Compare | zlib/deflate.c:1132-1148 | the comparison that looks for the end only at every eighth byte stops at the first difference or after 258 bytes, and reads nothing beyond the window |
| Matching.NotBetter | zlib/deflate.c:1121-1124 | the quick tests turn away only candidates that are no better |
| Matching.ChainDescends | zlib/deflate.c:1163-1164 | every position followed through `prev` above the limit lies before `strstart` within MAX_DIST, has three bytes with the same hash, and the positions strictly decrease |
| Matching.ChainReaches | zlib/deflate.c:1163-1164 | and no position is left out: one in the dictionary with the same hash, above the limit, is followed, unless as many as the level allows come before it |
| Matching.CommonMatches | zlib/deflate.c:1085-1160 | what two strings of the input have in common is a match |
| Matching.CommonGreatest | zlib/deflate.c:1085-1160 | and no match of up to 258 bytes is longer |
| Parsing.ChainLook | zlib/deflate.c:1027-1168 | what the search in the window comes to, in terms of the input: all strings of the dictionary that are near and alike are looked at, up to as many as the level allows, and the first of the best is taken |
| Parsing.RunLook | zlib/deflate.c:1175-1226 | the same for the one candidate of Z_RLE |
| Parsing.LawfulStep | zlib/deflate.c:1498-1502 | a token that fits the searches at its place extends the record |
| Parsing.GreedyLaw | zlib/deflate.c:1536-1541 | greedy matching: no string offered at a literal has three bytes in common |
| Parsing.LazyLaw | zlib/deflate.c:1641-1657 | lazy matching: a literal where a string offered has four bytes in common gives way to a longer match at the next byte |
| Parsing.PairLaw | zlib/deflate.c:1498-1640 | a pair is a match with a string of the dictionary, none offered has more in common unless it is long enough, and with lazy matching nothing longer was found at the next byte |
| Parsing.NearestLaw | zlib/deflate.c:1149-1156 | no string nearer than the one a pair goes to has as many bytes in common |
| Parsing.NextLaw | zlib/deflate.c:1611-1617 | nor has one offered at the next byte more, unless the pair is long enough to stop there |
| Matching.ThirdIsEqual | zlib/deflate.c:1126-1133 | the third byte, which is not compared, is equal |
| RollingHash.ThirdByte | zlib/deflate.c:170 | with at least eight hash bits, two equal bytes and an equal hash make the third bytes equal |
| RollingHash.Rolls | zlib/deflate.c:164-170 | the running hash depends on the last three bytes only |
| HashChains.Inserted | zlib/deflate.c:189-193 | INSERT_STRING keeps all chains, each link leading to the nearest earlier string under the same hash, and returns the start of the chain of the new string |
| HashChains.ChainsSlid | zlib/deflate.c:1306-1324 | sliding both tables by the window size keeps all chains |
| SlidingWindow.Window.FillWindow | zlib/deflate.c:1266-1358 | window, chains, hash and checksum stay right across slide and read; the window slides exactly when `strstart` has come within MIN_LOOKAHEAD bytes of its end; input is taken until it is gone or the window is full; all positions stay where they are in the input |
| SlidingWindow.OneRead | zlib/deflate.c:1266-1358 | one read takes all input or leaves MIN_LOOKAHEAD bytes ahead |
| SlidingWindow.Window.ClearHash | zlib/deflate.c:199-201 | the dictionary is empty, whatever still stands in `prev` |
| SlidingWindow.Window.Slide | zlib/deflate.c:1293-1325 | the same window and dictionary, one window size further on |
| SlidingWindow.Window.ReadBuf | zlib/deflate.c:956-981 | takes input into the window and continues the checksum |
| SlidingWindow.Window.InsertString | zlib/deflate.c:189-193 | the string at a position enters the dictionary, and the hash is ready for the next one |
| SlidingWindow.Window.PassMatchFast | zlib/deflate.c:1504-1534 | exactly the strings within a short match enter the dictionary, none of a long one, and window, chains and hash stay right |
| SlidingWindow.Window.PassMatchSlow | zlib/deflate.c:1618-1640 | exactly those strings of the match that have three bytes enter the dictionary, and window, chains and hash stay right |
| SlidingWindow.Window.constructor | zlib/deflate.c:986-1011 | an empty window and dictionary |
| Inflate.Inflater.Inflate | zlib/inflate.c:554-1153 | after any call with any input, room and flush the decoder is at a state the reader reaches on the bytes consumed; input is taken from the front and output appended; each return code comes exactly in its state, Z_BUF_ERROR exactly if nothing was taken and given, or Z_FINISH asked for more than there was; a call that does not end stops only for want of room, or with all input consumed and the reader unable to take another step |
| Inflate.Inflater.constructor | zlib/inflate.c:144-185 | a decoder at the start of a raw stream |
| Inflate.Loop | zlib/inflate.c:587-1125 | the loop over the states terminates and ends in such a state |
| Inflate.Leave | zlib/inflate.c:1133-1139 | the window is brought up to date whenever it may be needed again |
| Inflate.FixedTables | zlib/inflate.c:205-250 | both tables decode the fixed codes |
| InflateFast.Fast | zlib/inffast.c:67-302 | from LEN, with six bytes of input and room for 258, ends at LEN, TYPE or BAD in a state that the reader reaches, having made progress, with fewer than eight bits left |
| InflateFast.FastRound | zlib/inffast.c:120-285 | one round pulls at most six bytes and puts out at most 258, and ends where the slow states get to on the same bits |
| InflateFast.HandedBack | zlib/inffast.c:287-291 | the bytes handed back were read in this call, and are exactly those that the slow states would not have pulled |
| InflateFast.ShadowSymbol | zlib/inffast.c:127-132 | with more bits at hand than it needs the fast form sees the symbol that the slow one sees |
| InflateFast.LengthReach | zlib/inftrees.c:60-66 | no length is greater than 258 |
| FastCopy.CopyFar | zlib/inffast.c:189-242 | a match out of the circular window, in its three cases, is the overlapping copy of the whole output |
| FastCopy.CopyNear | zlib/inffast.c:243-259 | so is one within the output, three bytes at a time |
| InflateStates.TypeState | zlib/inflate.c:773-806 | one step of the reader, or nothing for want of input |
| InflateStates.StoredState | zlib/inflate.c:807-819 | the same for the length of a stored block and its complement |
| InflateStates.CopyState | zlib/inflate.c:820-836 | as many bytes as input, room and block allow |
| InflateStates.TableState | zlib/inflate.c:837-854 | the counts of a dynamic header, refused when too large |
| InflateStates.CopySteps | zlib/inflate.c:820-836 | copying n bytes of a stored block as they are is n steps of the reader, eight bits each |
| InflateHeader.LenLensState | zlib/inflate.c:855-875 | the lengths of the code length code, and its table or BAD |
| InflateHeader.CodeLensState | zlib/inflate.c:876-949 | the items, across any interruption, and both tables or BAD |
| InflateHeader.ReadItem | zlib/inflate.c:877-926 | one item: a length or a repetition, or BAD when it repeats nothing or too much |
| InflateHeader.ItemOutcome | zlib/inflate.c:883-922 | which step of the reader an item stands for, with all its errors |
| InflateHeader.BuildTables | zlib/inflate.c:928-949 | both tables decode their lengths; BAD exactly when one of the sets is refused |
| InflateCodes.LenState | zlib/inflate.c:957-992 | one symbol: a literal, the end, a length or BAD |
| InflateCodes.LenOutcome | zlib/inflate.c:972-992 | which step of the reader a table entry stands for |
| InflateCodes.LenExtState | zlib/inflate.c:993-1000 | the length with its extra bits |
| InflateCodes.DistState | zlib/inflate.c:1001-1025 | one distance symbol or BAD |
| InflateCodes.DistExtState | zlib/inflate.c:1026-1045 | the distance with its extra bits, or BAD exactly when it reaches back before the output |
| InflateCodes.TooFar | zlib/inflate.c:1039-1043 | the test against `whave` and the output of this call is the test against all output |
| InflateCodes.DistReach | zlib/inftrees.c:67-73 | no distance reaches back further than 32768 |
| InflateCodes.MatchState | zlib/inflate.c:1046-1070 | part of a match, from either stretch of the window or from the output, is the overlapping copy of all output |
| InflateCodes.LitState | zlib/inflate.c:1071-1076 | one literal, if there is room |
| RingWindow.UpdateWindow | zlib/inflate.c:323-371 | the ring holds exactly the last 32768 bytes of all output, or all of it |
| RingWindow.RingByte | zlib/inflate.c:1048-1058 | where the byte a given distance back lies in the ring |
| RingWindow.CopyAround | zlib/inflate.c:354-369 | the same when the output is shorter than the window and may go around its end |
| BitInput.NeedBits | zlib/inflate.c:443-447 | pulls bytes until there are n bits, or all input is gone; none if there are enough |
| BitInput.AccumField | zlib/inflate.c:449-451 | BITS(n) is the next field of n bits of the input, whatever byte boundaries it crosses |
| BitInput.AccumDrop | zlib/inflate.c:453-458 | DROPBITS(n) goes on behind it |
| BitInput.Decode | zlib/inflate.c:957-970 | an entry is taken only when its bits are all there, and it is the right one; less than a byte is left behind it; otherwise the input is gone and the symbol is still open |
| BitInput.DecodeShort | zlib/inflate.c:878-882 | the same for a single table |
| BitInput.FrugalBits | zlib/inflate.c:957-970 | if the bits at hand left the symbol open, its code is longer than they are |
| BitInput.UnmatchedLook | zlib/inflate.c:957-970 | bits that match no code find the invalid entry |
| Adler32.Adler32 | zlib/adler32.c:57-125 | the byte-wise checksum of section 2.2 of RFC 1950, for every length and start value, with and without division |
| Adler32.SumsAre | zlib/adler32.c:57-125 | the byte-wise checksum is that of the standard: one and all bytes, and the sum of all values of the first sum, each modulo 65521, the second in the upper half |
| Adler32.Block | zlib/adler32.c:96-121 | a block of up to NMAX bytes with one reduction at its end, never leaving 32 bits |
| Adler32.NmaxFits | zlib/adler32.c:11-13 | with NMAX bytes both sums fit into 32 bits, whatever the bytes and the start |
| Adler32.NmaxIsGreatest | zlib/adler32.c:11-13 | with NMAX + 1 bytes of 255 and the greatest start the second sum does not fit any more |
| Adler32.Ladder | zlib/adler32.c:23-50 | the ladder of subtractions is the remainder, on the whole range |
| Adler32.BytewiseJoin | zlib/adler32.c:57-125 | a checksum can be continued |
| Adler32.Combine | zlib/adler32.c:128-149 | both halves of the result lie in 1..BASE and are congruent to the sums of the parts, without overflow or underflow |
| Adler32.CombineIsConcat | zlib/adler32.c:128-149 | so they are congruent to the checksum of the concatenation |
| Adler32.CombineExact | zlib/adler32.c:128-149 | for all byte strings x and y, the result is the checksum of x + y if and only if neither of the two combined sums is a multiple of BASE, which the arguments show; a half whose sum is one comes out as BASE instead of zero |
| Adler32.CombineMisses | zlib/adler32.c:144-147 | it happens: 257 bytes whose checksum, combined with that of nothing, is not given back |
| Crc32.CrcLittle | zlib/crc32.c:262-293 | four bytes at a time through four tables, from any alignment, is the CRC bit by bit |
| Crc32.CrcBig | zlib/crc32.c:302-335 | so it is on the reversed register with the reversed tables |
| Crc32.CrcBytes | zlib/crc32.c:219-251 | so it is byte by byte, eight bytes in a round |
| Crc32.Checksum | zlib/crc32.c:219-251 | `crc32` on either kind of machine, or zero for a missing buffer |
| Crc32.MakeCrcTable | zlib/crc32.c:106-149 | table k holds the CRC of an octet and k zero octets; tables 4 to 7 hold these reversed |
| Crc32.CrcCombine | zlib/crc32.c:370-423 | for all byte strings x and y, the CRCs of x and y and the length of y give the CRC of x + y |
| Crc32.CombineIsConcat | zlib/crc32.c:370-423 | the CRC of a concatenation is that of the first part shifted through as many zero bytes as the second part has, added to that of the second |
| Crc32.Round | zlib/crc32.c:398-418 | the operators are those of one zero byte raised to successive powers of two |
| Crc32.Gf2MatrixSquare | zlib/crc32.c:359-367 | the square of the operator of k zero bits is that of 2k |
| Crc32.Gf2MatrixTimes | zlib/crc32.c:342-356 | the product over GF(2) |
| Crc32.Continued | zlib/crc32.c:219-251 | a checksum can be continued |
| CrcPolynomial.RegisterIsRemainder | zlib/crc32.c:80-98 | the register is the remainder, by long division, of the message as a polynomial times x^32 with the initial register added at its head |
| CrcPolynomial.FeedIsRemainder | zlib/crc32.c:92-98 | feeding bits into the register is long division |
| CrcPolynomial.DivisorIsPoly | zlib/crc32.c:111-124 | the constant is the polynomial of the standard |
| CrcPolynomial.CrcExamples | zlib/crc32.c:219-251 | the CRC of nothing and of one byte |
| CrcPolynomial.RegisterLinear | zlib/crc32.c:342-423 | registers that differ by d differ by d shifted after the same bytes |

## Left out

- gzip header and trailer in both directions: they add cases around the same code. `inflate` is modelled with window bits 15. Its state HEAD for a raw stream, which only leads to TYPEDO, is folded into the start; the states of a zlib stream before and behind the deflated data are a class around that of the raw stream, with an accumulator of its own, which the raw states leave empty.
- Preset dictionaries (`inflate` stops at DICT, asking for one), `deflateParams`, `deflateTune`, `deflatePrime`, `deflateCopy`, `deflateBound`, `deflateReset`, `inflatePrime`, `inflateSync`, `inflateCopy` and flush value Z_BLOCK: other entry points of the same states.
- The parameter errors of `deflateInit2_` are preconditions of the constructors, and allocation failure does not occur.
- `inflateBack`, gzip file access, `compress` and `uncompress` as such: thin wrappers (`RoundTrip.CompressUncompress` and `InflateZlib.ZlibRoundTrip` compose the two directions themselves).
- `deflate_rle`, which is compiled out, and the build variants UNALIGNED_OK, FASTEST, ASMV, TRUNCATE_BLOCK and those for small machines.
- The literal contents of `crc32.h`, `inffixed.h` and `trees.h`: the code that generates them is modelled. The tables for the fixed codes are built when the decoder is created, in arrays with room to spare, while the source builds or points to them at the first static block. The guard variable of the CRC tables is left out.
- What the source does from the first overwritten token on: it goes on with bytes of its own output read as tokens, which need not have codes or even be in the range of its tables. The model ends the block there, and says nothing about the stream from then on, nor that the source stays within `pending_buf`; that input is consumed, bytes are only appended and loops end is proved of the model. Which inputs lead there with dynamic trees is stated by the code lengths of the block, not by the input. An entry of d_buf is taken to have its low byte first.
- The decoding tables of the two codes lie in arrays of their own; `TableRoom.EnoughIsEnough` shows that they would fit behind each other as in the source.
- Trees are kept in sequences of HEAP_SIZE entries, as long as the heap; the registers of `inflate` are a record passed from state to state; the application's output is a sequence that grows. Pointers as such, and aliasing between the application's buffers, are not modelled.
- `prev` starts with zeros, where the source leaves it uninitialised; no link outside the chains is ever followed to a match either way.
- The guess of the data type (`set_data_type`) has no influence on the stream and is left out, as are the total counters and `adler` fields that only report.
- The user interface, indexing and search code of the repository, and its other bundled libraries.
