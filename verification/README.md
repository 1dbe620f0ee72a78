# ZNNext in Dafny

This project models the parts of ZNNext whose correctness is hardest to see and proves what they are for. It has two
halves: the LZMA decoder that unpacks `.gnu_debugdata` in the loader, and the injector's protocols.

**The LZMA decoder** (`loader/src/external/lzma/LzmaDec.c`).

- `LzmaLayout`, `LzmaCoder`, `LzmaWalk`: the reference. Probability cells by name, the binary range decoder on values, and
  one symbol as a walk through the decision tree of the LZMA specification ("The main loop of decoder").
- `LzmaLookahead`, `LzmaBound`: the decoder that adapts and the look-ahead that does not read the same symbol; no symbol
  takes more than 20 bytes.
- `LzmaStream`, `LzmaChunks`, `LzmaLimits`: the decoder on an unbounded output history, and one function, `Feed`, that says
  what a call does. Chunk independence, limit independence and the absence of internal failures are proved about it.
- `LzmaHistory`, `LzmaContexts`, `LzmaAnswers`: what the specification means. The twelve states, the remembered distances
  and the output against the history of symbols; which probability a bit is decoded with; what each answer says.
- `LzmaSymbols`, `LzmaEncoder`: the partner. The repository has no encoder; this one writes the bits of each symbol and
  aims one unbounded number into nested ranges, and what it encodes is decoded again.
- `LzmaRange`, `LzmaDummy`, `LzmaDecoder`: the code itself. A range decoder object and a decoder object with the flat
  probability array, the circular dictionary, the 32-bit counters and the 20-byte carry-over buffer, updated in place
  and proved against `Feed`.

**The injector's protocols.**

- `BootPlan`: the binary plan written in Rust (`plan.rs`) and read in C++ (`plan.cpp`).
- `ArchRegs`, `TargetMemory`, `Injection`: register layouts, memory behind word-sized ptrace requests, and the remote
  injection that plants a breakpoint, chains remote calls and puts the target back.
- `Targeting`: the bookkeeping that decides which process is attempted.
- `KpmFormat`, `KpmRing`: the 64-slot ring of the kernel module, its text lines and the reader that follows it.
- `Tracefs`, `Fanotify`: event streams that arrive in arbitrary pieces.
- `HookOwnership`: inline hooks under thread interleavings.

`Bits`, `Text` and `Tokens` hold integers as bits and bytes, decimal numbers, and the string operations of the text
protocols.

How the parts are modelled:

- Whatever the system does not control (whether a ptrace request succeeds, what /proc, the clock or another thread do,
  which bytes a read returns) is an arbitrary choice or a parameter, so every result holds for all of it. Between two
  traps the target may change all its memory and registers. A remote symbol lookup may fail at any time; where the symbol
  is does not change during an injection.
- C and Rust integers are unbounded here with the wrap-around written out: the 32-bit range, code and position
  counters of the decoder, addresses that wrap at the end of the target's address space, and register words.
- Multi-byte words in the boot plan and in kernel records are little-endian, as on every architecture the injector
  supports.
- The properties that hold only under a condition carry the exact condition: `LzmaChunks.ChunksAgreeExactly` (a refused
  header), `LzmaCoder.DirectBitKeepsCodeBelow` (code level with range), `BootPlan.RoundTrip` (a missing descriptor),
  `KpmRing.LostExactlyWhenOverwritten`, `KpmRing.DrainTakesWhatFits` (a line that does not fit behind the others),
  `Tracefs.PiecesMakeNoDifference`, `Fanotify.PartsMakeNoDifference`, with inputs that show the failing side:
  `LzmaChunks.SplitShows`, `LzmaCoder.DirectBitLevel`, `KpmRing.OneStaysUnread`, `Tracefs.NineReadsLoseALine`,
  `Fanotify.LongRecordIsLost`.
- Where the code ignores a failure the model does too: a failed register write before `dlerror` leaves the target as it
  was and the state moves on, and the results of the restoring writes are only observed by ghost variables. A ghost
  counter of failed requests lets the contracts say that nothing else makes an operation fail.

Run `dafny verify dfyconfig.toml` to check everything.

## Model

| member | source | states |
|---|---|---|
| `LzmaDecoder.LzmaDec.DecodeToDic` | loader/src/external/lzma/LzmaDec.c:956-1200 | a call does exactly what the specification of a call on values says: new state, bytes held, bytes taken, answer and status; the invariant holds again, the dictionary outside the written part is untouched, and the answer is never SZ_ERROR_FAIL, because every internal break is a dead branch |
| `LzmaChunks.ChunksAgree` | loader/src/external/lzma/LzmaDec.c:956-1195 | for every decoder state, both finish modes and every split of the input, feeding the pieces one by one gives the output, state, held bytes, answer and total consumption of one call with everything, unless the stream's first byte is not zero |
| `LzmaChunks.ChunksAgreeExactly` | loader/src/external/lzma/LzmaDec.c:968-976 | the exact condition: with a refused header the split shows exactly when the first non-empty piece is shorter than five bytes and more input follows; the difference is only how many header bytes are taken |
| `LzmaChunks.SplitShows` | loader/src/external/lzma/LzmaDec.c:968-971 | a two-byte input with a bad first byte shows that difference |
| `LzmaChunks.BadHeaderChunks` | loader/src/external/lzma/LzmaDec.c:968-971 | with a refused header every split ends in the same error and state; bytes taken are min(5, bytes at hand) |
| `LzmaChunks.FeedResumes` | loader/src/external/lzma/LzmaDec.c:1054-1065 | after NEEDS_MORE_INPUT all input was taken, and the next call goes on as if everything had come at once |
| `LzmaChunks.FeedIgnoresRest` | loader/src/external/lzma/LzmaDec.c:1005-1113 | any other answer is final: input behind the stopping point changes nothing |
| `LzmaChunks.FeedKeeps` | loader/src/external/lzma/LzmaDec.c:956-1200 | for every reachable state and input: the invariant is kept, output only grows and never passes the limit, never SZ_ERROR_FAIL |
| `LzmaChunks.DriveResumes` | loader/src/external/lzma/LzmaDec.c:1005-1195 | the main loop, starved and resumed with the held bytes, ends as the loop over all the bytes |
| `LzmaChunks.DriveMoves` | loader/src/external/lzma/LzmaDec.c:1005-1195 | the main loop depends on the bytes ahead of it, not on the buffer (source or carry-over) they stand in |
| `LzmaChunks.DriveIgnoresRest` | loader/src/external/lzma/LzmaDec.c:1005-1195 | the main loop looks at no byte behind its stopping point |
| `LzmaLimits.LimitsAgree` | loader/src/external/lzma/LzmaDec.c:1005-1039 | stopping at a nearer output limit under LZMA_FINISH_ANY and going on later equals having had the farther limit at once, also when a match is cut in the middle |
| `LzmaLimits.FeedLimits` | loader/src/external/lzma/LzmaDec.c:956-1039 | the same for whole calls, the header included |
| `LzmaLimits.FeedAgain` | loader/src/external/lzma/LzmaDec.c:1005-1065 | a call that ended without error short of its limit is a fixed point: the same call again answers the same and changes nothing |
| `LzmaLimits.DriveStopsShort` | loader/src/external/lzma/LzmaDec.c:1005-1065 | a call without error ends short of its limit only because the input ran out inside a symbol or the end marker was seen |
| `LzmaLimits.PieceAgrees` | loader/src/external/lzma/LzmaDec.c:1209-1241 | what a call with less room than asked for means for the whole request |
| `LzmaLimits.FeedMark` | loader/src/external/lzma/LzmaDec.c:1007-1013 | an end marker found under one limit is found, with the same outcome, under every farther one |
| `LzmaDecoder.LzmaDec.DecodeToBuf` | loader/src/external/lzma/LzmaDec.c:1204-1242 | however often the circular dictionary wraps, the calls together are one call with room for the whole request; the caller's buffer gets exactly the new output bytes and keeps the rest |
| `LzmaDecoder.LzmaDec.Piece` | loader/src/external/lzma/LzmaDec.c:1209-1240 | one round: a call up to the end of the buffer or of the request, its output copied behind what was there |
| `LzmaDecoder.LzmaDec.WrapAround` | loader/src/external/lzma/LzmaDec.c:1214-1215 | restarting at the front of the buffer leaves the decoder and every byte a match can reach as they were |
| `LzmaDecoder.LzmaDec.CopyOut` | loader/src/external/lzma/LzmaDec.c:1232-1233 | the new output bytes, and only they, are copied |
| `LzmaDecoder.LzmaDecode` | loader/src/external/lzma/LzmaDec.c:1344-1367 | one call on a whole stream: the buffer holds the specification's output, with the errors for short input, bad properties and truncated streams |
| `LzmaDecoder.LargerBuffer` | loader/src/utils/debugdata.cpp:79-101 | output of a run into a smaller buffer is the beginning of the output into a larger one, and a run that found the end marker is already the final one |
| `LzmaStream.ParseProps` | loader/src/external/lzma/LzmaDec.c:1262-1286 | exactly the first bytes below 225 of at least five bytes are accepted; the properties are in range, give the first byte back, and the dictionary size is the little-endian number behind it, at least 4096 |
| `LzmaStream.PropsRoundTrip` | loader/src/external/lzma/LzmaDec.c:1276-1283 | every choice of lc, lp, pb decodes from the byte (pb*5+lp)*9+lc |
| `LzmaDecoder.LzmaDec.Init` | loader/src/external/lzma/LzmaDec.c:926-930 | the decoder is at the start of a stream whatever it did before |
| `LzmaDecoder.LzmaDec.constructor` | loader/src/external/lzma/LzmaDec.c:1356-1359 | a fresh decoder on the caller's buffer satisfies the invariant |
| `LzmaDecoder.LzmaDec.ReadHeader` | loader/src/external/lzma/LzmaDec.c:963-1003 | header bytes are gathered across calls; a first byte that is not zero and a code of at least kBadRepCode are refused; otherwise the main loop starts from the initial state |
| `LzmaDecoder.LzmaDec.FillHeader` | loader/src/external/lzma/LzmaDec.c:968-969 | the carry-over buffer takes bytes until it has five |
| `LzmaDecoder.LzmaDec.InitProbs` | loader/src/external/lzma/LzmaDec.c:993-997 | every probability becomes 1024 |
| `LzmaDecoder.LzmaDec.StartStream` | loader/src/external/lzma/LzmaDec.c:977-1002 | the state before the first symbol |
| `LzmaDecoder.LzmaDec.Round` | loader/src/external/lzma/LzmaDec.c:1005-1195 | one turn of the main loop leads the call on, or ends it with the specified outcome; the work left strictly decreases |
| `LzmaDecoder.LzmaDec.AtLimit` | loader/src/external/lzma/LzmaDec.c:1022-1039 | what the dictionary limit answers |
| `LzmaDecoder.LzmaDec.FromSource` | loader/src/external/lzma/LzmaDec.c:1043-1114 | a turn on the source: look-ahead when it must, hold back an incomplete or refused symbol, else decode |
| `LzmaDecoder.LzmaDec.RealFromSource` | loader/src/external/lzma/LzmaDec.c:1088-1113 | decoding from the source leads the call on and, when limited to one symbol, takes exactly the bytes the look-ahead counted |
| `LzmaDecoder.LzmaDec.TopUp` | loader/src/external/lzma/LzmaDec.c:1121-1126 | the carry-over buffer becomes the first twenty bytes ahead |
| `LzmaDecoder.LzmaDec.FromTemp` | loader/src/external/lzma/LzmaDec.c:1116-1193 | a turn on the carry-over buffer: same symbol as on all the input ahead, never ending before the bytes already held |
| `LzmaDecoder.LzmaDec.RealFromTemp` | loader/src/external/lzma/LzmaDec.c:1161-1192 | exactly one symbol is decoded from it, and the source position moves by what was not held before |
| `LzmaDecoder.LzmaDec.Hold` | loader/src/external/lzma/LzmaDec.c:1060-1062 | the bytes of an unfinished symbol are kept |
| `LzmaDecoder.LzmaDec.TryDummy` | loader/src/external/lzma/LzmaDec.c:717-908 | for every decoder state and input the look-ahead agrees with the symbol the real decoder decodes: same class, same end including the final normalization, DUMMY_INPUT_EOF exactly when the real step would run out of bytes |
| `LzmaLookahead.LookaheadAgrees` | loader/src/external/lzma/LzmaDec.c:72-85 | decoding with adapting and with frozen probabilities read the same bits and take the same bytes |
| `LzmaLookahead.WalksAgree` | loader/src/external/lzma/LzmaDec.c:72-85 | the same from any node, since along a walk cells have growing ranks and none is read after it changed |
| `LzmaLookahead.RankGrows` | loader/src/external/lzma/LzmaDec.c:88-105 | no probability cell is read twice in one symbol |
| `LzmaLookahead.WholeInWindow` | loader/src/external/lzma/LzmaDec.c:717-722 | a symbol depends only on the bytes it takes |
| `LzmaLookahead.WholeOnPrefix` | loader/src/external/lzma/LzmaDec.c:70-70 | cutting off bytes a symbol did not take does not change it |
| `LzmaLayout.PackingIsInjective` | loader/src/external/lzma/LzmaDec.c:88-155 | the flat layout never puts two cells in one place, also not LenChoice and LenChoice2 and the length trees they overlap |
| `LzmaLayout.UnpackIndex` | loader/src/external/lzma/LzmaDec.c:139-155 | every cell can be read back from its flat position |
| `LzmaLayout.PackingFits` | loader/src/external/lzma/LzmaDec.c:150-165 | every cell of a decoder lies inside its numProbs probabilities |
| `LzmaBound.SymbolWithin20` | loader/src/external/lzma/LzmaDec.h:48-51 | a symbol takes at most 20 bytes, and 20 bytes are always enough, for any probabilities in range |
| `LzmaBound.WalkWithin20` | loader/src/external/lzma/LzmaDec.h:48-51 | the same from every node: each modelled bit leaves 1/67 of the range, each direct bit about half, at most 22 of the one and 26 of the other |
| `LzmaBound.ModelledBitPays` | loader/src/external/lzma/LzmaDec.c:24-29 | a modelled bit pays for itself in the count of bits left |
| `LzmaBound.HalvingsStep` | loader/src/external/lzma/LzmaDec.c:495-504 | a direct bit pays for itself, rounding included |
| `LzmaBound.TooManyBytes` | loader/src/external/lzma/LzmaDec.h:48-51 | no range is left after twenty bytes |
| `LzmaCoder.ModelledBitShrinks` | loader/src/external/lzma/LzmaDec.c:22-29 | after any modelled bit one 8-bit shift restores the range; both sub-intervals are non-empty and at least 1/67 |
| `LzmaCoder.DirectBitShrinks` | loader/src/external/lzma/LzmaDec.c:495-504 | the same for a direct bit |
| `LzmaCoder.AdaptKeepsProb` | loader/src/external/lzma/LzmaDec.c:25-26 | probabilities stay in [31, 2017] |
| `LzmaCoder.AdaptSettles` | loader/src/external/lzma/LzmaDec.c:25-26 | a probability moves towards the bit that was coded and rests exactly at 2017 for zeros and at 31 for ones |
| `LzmaCoder.FairShare` | loader/src/external/lzma/LzmaDec.c:24-24 | a zero bit gets its probability's share of the range, rounded down |
| `LzmaCoder.ModelledBitKeepsCodeBelow` | loader/src/external/lzma/LzmaDec.c:24-26 | a modelled bit keeps code < range |
| `LzmaCoder.DirectBitKeepsCodeBelow` | loader/src/external/lzma/LzmaDec.c:495-511 | a direct bit keeps code < range except exactly when an odd range had its top value coded |
| `LzmaCoder.DirectBitLevel` | loader/src/external/lzma/LzmaDec.c:495-511 | a coder that ends level with its range |
| `LzmaCoder.PullKeepsCodeBelow` | loader/src/external/lzma/LzmaDec.c:22-22 | normalization keeps code < range |
| `LzmaCoder.PullSettles` | loader/src/external/lzma/LzmaDec.c:22-22 | one normalization is enough and takes at most one byte |
| `LzmaWalk.WalkKeeps` | loader/src/external/lzma/LzmaDec.c:255-595 | every symbol keeps coder and probabilities healthy and takes bytes in order |
| `LzmaWalk.ReadBitOk` | loader/src/external/lzma/LzmaDec.c:22-29 | every bit keeps coder and probabilities healthy |
| `LzmaWalk.WalkAfterPull` | loader/src/external/lzma/LzmaDec.c:595-597 | putting the normalization off to the next bit changes nothing |
| `LzmaWalk.NextDecreases` | loader/src/external/lzma/LzmaDec.c:255-595 | every bit brings a symbol nearer its end |
| `LzmaRange.RangeDecoder.Normalize` | loader/src/external/lzma/LzmaDec.c:22-22 | one byte is shifted in when the range is small |
| `LzmaRange.RangeDecoder.DecodeBit` | loader/src/external/lzma/LzmaDec.c:24-29 | an adaptive bit read in place is the bit of the specification's tree, and the rest of the symbol is unchanged |
| `LzmaRange.RangeDecoder.DecodeTree` | loader/src/external/lzma/LzmaDec.c:40-41 | a bit tree walked in place is the specification's walk |
| `LzmaRange.RangeDecoder.DecodeMatchedLiteral` | loader/src/external/lzma/LzmaDec.c:60-65 | the offs/bit trick decodes the literal that follows match bits until the first mismatch |
| `LzmaRange.MatchedStep` | loader/src/external/lzma/LzmaDec.c:60-65 | one bit of that trick |
| `LzmaRange.RangeDecoder.DecodeLen` | loader/src/external/lzma/LzmaDec.c:392-424 | a length from its choice bits and trees |
| `LzmaRange.RangeDecoder.DecodeReverse` | loader/src/external/lzma/LzmaDec.c:475-489 | a middle distance, least significant bit first |
| `LzmaRange.SpecStep` | loader/src/external/lzma/LzmaDec.c:36-36 | REV_BIT_VAR's growing index is the node of a reverse tree |
| `LzmaRange.RangeDecoder.DecodeDirectBits` | loader/src/external/lzma/LzmaDec.c:492-514 | the equiprobable bits of a long distance |
| `LzmaRange.RangeDecoder.DirectBitInPlace` | loader/src/external/lzma/LzmaDec.c:495-504 | one of them without a branch |
| `LzmaRange.SignMask` | loader/src/external/lzma/LzmaDec.c:498-504 | the sign mask undoes the subtraction exactly when it went too far |
| `LzmaRange.RangeDecoder.DecodeAlign` | loader/src/external/lzma/LzmaDec.c:515-524 | the four low bits of a long distance |
| `LzmaRange.RangeDecoder.AlignBit` | loader/src/external/lzma/LzmaDec.c:37-38 | one of the four low bits, read by its running index |
| `LzmaRange.AlignStep` | loader/src/external/lzma/LzmaDec.c:37-38 | REV_BIT_CONST and REV_BIT_LAST index the nodes of a reverse tree |
| `LzmaRange.RangeDecoder.DecodeDistance` | loader/src/external/lzma/LzmaDec.c:464-532 | the distance of a match from its slot |
| `LzmaDummy.NormalizeCheck` | loader/src/external/lzma/LzmaDec.c:70-70 | normalization that reports the end of input |
| `LzmaDummy.BitCheck` | loader/src/external/lzma/LzmaDec.c:72-77 | a bit of the look-ahead is the bit of the frozen walk |
| `LzmaDummy.TreeCheck` | loader/src/external/lzma/LzmaDec.c:79-80 | the same for a bit tree |
| `LzmaDummy.MatchedLiteralCheck` | loader/src/external/lzma/LzmaDec.c:749-766 | the same for a literal after a match |
| `LzmaDummy.LenCheck` | loader/src/external/lzma/LzmaDec.c:826-857 | the same for a length |
| `LzmaDummy.ReverseCheck` | loader/src/external/lzma/LzmaDec.c:871-875 | the same for a middle distance |
| `LzmaDummy.DirectCheck` | loader/src/external/lzma/LzmaDec.c:881-884 | a direct bit of the look-ahead |
| `LzmaDummy.DirectBitsCheck` | loader/src/external/lzma/LzmaDec.c:876-886 | all direct bits of it |
| `LzmaDummy.AlignCheck` | loader/src/external/lzma/LzmaDec.c:887-898 | the low bits of a long distance |
| `LzmaDecoder.LzmaDec.LookLiteral` | loader/src/external/lzma/LzmaDec.c:734-768 | the literal branch of the look-ahead |
| `LzmaDecoder.LzmaDec.LookMatch` | loader/src/external/lzma/LzmaDec.c:769-901 | its match branch |
| `LzmaDecoder.LzmaDec.LookRepHead` | loader/src/external/lzma/LzmaDec.c:786-822 | its repeated-match bits |
| `LzmaDecoder.LzmaDec.LookDistance` | loader/src/external/lzma/LzmaDec.c:859-900 | its distance |
| `LzmaDecoder.LzmaDec.DummyLiteralCoder` | loader/src/external/lzma/LzmaDec.c:738-742 | the literal coder as the look-ahead computes it |
| `LzmaDecoder.LzmaDec.LiteralCoder` | loader/src/external/lzma/LzmaDec.c:241-269 | the lpMask index is 0x300 times the specification's literal coder |
| `LzmaDecoder.LitMask` | loader/src/external/lzma/LzmaDec.c:241-269 | the same as arithmetic, for every counter modulo 2^32 |
| `LzmaDecoder.PosMask` | loader/src/external/lzma/LzmaDec.c:167-167 | the masked 32-bit counter is the position modulo 2^pb |
| `LzmaDecoder.LzmaDec.DecodeLiteral` | loader/src/external/lzma/LzmaDec.c:263-321 | a literal: the specification's byte, output, state, coder and probabilities |
| `LzmaDecoder.LzmaDec.DecodeLiteralBits` | loader/src/external/lzma/LzmaDec.c:272-317 | the byte, plain or led by the byte at the last distance, and the state after it, whose meaning LzmaHistory.StatesOverCalls pins |
| `LzmaDecoder.LzmaDec.DecodeRepHead` | loader/src/external/lzma/LzmaDec.c:334-387 | the repeated-match bits move the chosen distance to the front |
| `LzmaDecoder.LzmaDec.RepeatByte` | loader/src/external/lzma/LzmaDec.c:350-354 | a one-byte repeat |
| `LzmaDecoder.LzmaDec.DecodeFar` | loader/src/external/lzma/LzmaDec.c:462-546 | a simple match: end marker, distance check, new distances and state |
| `LzmaDecoder.LzmaDec.FinishRep` | loader/src/external/lzma/LzmaDec.c:388-391 | a repeated match, written under the limit |
| `LzmaDecoder.LzmaDec.WriteMatch` | loader/src/external/lzma/LzmaDec.c:548-592 | a match is written up to the limit and the rest is owed |
| `LzmaDecoder.LzmaDec.DecodeMatch` | loader/src/external/lzma/LzmaDec.c:323-593 | the match branch |
| `LzmaDecoder.LzmaDec.DecodeOne` | loader/src/external/lzma/LzmaDec.c:255-594 | one turn does exactly the specification's step on state, distances, output, coder and probabilities |
| `LzmaDecoder.LzmaDec.DecodeReal` | loader/src/external/lzma/LzmaDec.c:233-613 | the loop decodes at least one symbol and stops at the limits, the coder normalized |
| `LzmaDecoder.LzmaDec.DecodeReal2` | loader/src/external/lzma/LzmaDec.c:688-702 | stopping where the dictionary becomes full keeps the distance check exact and the counters consistent |
| `LzmaDecoder.LzmaDec.WriteRem` | loader/src/external/lzma/LzmaDec.c:618-654 | the owed bytes are an LZ77 copy; counters and dictionary stay consistent |
| `LzmaDecoder.LzmaDec.CopyMatch` | loader/src/external/lzma/LzmaDec.c:566-591 | straight and wrapping copy loops are the byte-by-byte LZ77 copy, overlapping or not |
| `LzmaDecoder.LzmaDec.Put` | loader/src/external/lzma/LzmaDec.c:319-319 | a byte written to the circular dictionary extends the history it stands for |
| `LzmaDecoder.LzmaDec.ByteBack` | loader/src/external/lzma/LzmaDec.c:291-291 | the wrapped index reads the byte that far back in the output |
| `LzmaStream.CopyRepeats` | loader/src/external/lzma/LzmaDec.c:566-591 | every copied byte equals the one a distance before it |
| `LzmaStream.CopyInTwo` | loader/src/external/lzma/LzmaDec.c:618-654 | a copy done in two parts is the copy |
| `LzmaStream.PaySplit` | loader/src/external/lzma/LzmaDec.c:548-571 | cutting a match at a nearer limit and paying the rest later equals writing it at once |
| `LzmaStream.ApplyKeeps` | loader/src/external/lzma/LzmaDec.c:539-546 | after every symbol each remembered distance reaches a byte the dictionary still has; output grows, never past the limit |
| `LzmaStream.SymbolKeeps` | loader/src/external/lzma/LzmaDec.c:1048-1069 | a symbol is at most 20 bytes, legal, and missing only when fewer are left |
| `LzmaStream.FirstSymbolIsNoRep` | loader/src/external/lzma/LzmaDec.c:657-671 | with a code below kBadRepCode the first symbol is a literal or a simple match, for every input |
| `LzmaStream.BadCodeMeansRep` | loader/src/external/lzma/LzmaDec.c:665-671 | with any other code the first symbol would repeat a match of nothing |
| `LzmaStream.TurnUnderNearLimit` | loader/src/external/lzma/LzmaDec.c:688-702 | a symbol decoded under a nearer limit leads to the same end of the call |
| `LzmaHistory.StatesOverCalls` | loader/src/external/lzma/LzmaDec.c:956-1200 | over any calls with any pieces, limits and modes from a fresh decoder on: the state is the one that the last few symbols stand for, below seven exactly after a literal or at the start; the remembered distances are those of the symbols; the output, with what is still owed, is the text the symbols stand for |
| `LzmaHistory.StateAfter` | loader/src/external/lzma/LzmaDec.c:274-546 | every symbol leads from a state that stands for the symbols so far to one that stands for them and itself; the meaning of the twelve states is a table of symbol kinds |
| `LzmaHistory.OneState` | loader/src/external/lzma/LzmaDec.c:274-293 | every history stands for at most one state |
| `LzmaHistory.LiteralStates` | loader/src/external/lzma/LzmaDec.c:272-272 | the states below seven are those whose last symbol was a literal |
| `LzmaHistory.RemembersAfter` | loader/src/external/lzma/LzmaDec.c:334-387 | the four distances are the ones used last, each match bringing a new one and each repeat moving one to the front |
| `LzmaHistory.OutputAfter` | loader/src/external/lzma/LzmaDec.c:263-592 | output and what is owed grow by exactly the bytes a symbol stands for, whatever the limit cuts off |
| `LzmaHistory.FeedState` | loader/src/external/lzma/LzmaDec.c:956-1200 | the same for one call from any state |
| `LzmaContexts.OnePlacePerQuestion` | loader/src/external/lzma/LzmaDec.c:88-165 | two bits are decoded with the same probability exactly when the same question is asked in the same circumstances (state, position, literal coder, length, place in its tree) |
| `LzmaContexts.SameLiteralCoder` | loader/src/external/lzma/LzmaDec.c:241-269 | two texts share a literal coder exactly when the low lp bits of their lengths and the high lc bits of their last bytes agree |
| `LzmaContexts.CircumstancesOf` | loader/src/external/lzma/LzmaDec.c:255-291 | between symbols these circumstances are those of the text so far, the byte that leads a literal being the one at the last distance |
| `LzmaContexts.SymbolAdaptsOnce` | loader/src/external/lzma/LzmaDec.c:24-29 | after a symbol every probability one of its bits was decoded with has adapted to that bit once, and no other has changed |
| `LzmaSymbols.SymbolBack` | loader/src/external/lzma/LzmaDec.c:255-546 | whatever the circumstances, the bits an encoder writes for a symbol (numbers most significant bit first, reverse trees, a distance by its top bit) lead the decoder to that symbol |
| `LzmaSymbols.WalkFollows` | loader/src/external/lzma/LzmaDec.c:255-595 | the symbol decoded is the one its bits lead to |
| `LzmaEncoder.TextBack` | loader/src/external/lzma/LzmaDec.c:956-1200 | for all properties and every sequence of symbols that can be written, an encoder without a code register gives a stream from which one call decodes exactly those symbols and their text, without an error |
| `LzmaEncoder.TextBackInPieces` | loader/src/external/lzma/LzmaDec.c:956-1200 | the same text from the stream cut into any pieces |
| `LzmaEncoder.WalkAimed` | loader/src/external/lzma/LzmaDec.c:22-29 | a coder whose code aims inside the nested ranges of some bits decodes those bits and aims at the rest |
| `LzmaAnswers.AnswersMean` | loader/src/external/lzma/LzmaDec.c:1005-1070 | what every answer says about state, limit and input: end marker seen with code zero; no room, nothing owed and code zero; all input taken; no room but not finished, an error exactly under LZMA_FINISH_END |
| `LzmaAnswers.ModesDifferAtLimit` | loader/src/external/lzma/LzmaDec.h:91-97 | the finish mode has a meaning only at the output limit: the two modes answer differently exactly when LZMA_FINISH_ANY says that the stream is not finished |
| `BootPlan.RoundTrip` | loader/src/module/plan.cpp:47-116 | for every encodable plan, and whatever memory follows it: parsePlan gets back exactly the plan when every descriptor is there, and refuses it exactly when one is missing |
| `BootPlan.Encode` | injector/src/plan.rs:79-131 | bytes come out exactly for at most 32 modules with indices below 32 and at most 32 KiB, in the wire layout, with no truncated offset |
| `BootPlan.PushString` | injector/src/plan.rs:62-67 | a string and its final zero, with its place and length |
| `BootPlan.PushU32` | injector/src/plan.rs:69-71 | a little-endian word behind the words before it |
| `BootPlan.PushStringRef` | injector/src/plan.rs:73-76 | the two words of a string reference |
| `BootPlan.PushHeader` | injector/src/plan.rs:107-116 | the 60 header bytes |
| `BootPlan.PushModule` | injector/src/plan.rs:118-127 | the 20 bytes of a module |
| `BootPlan.PushPaths` | injector/src/plan.rs:98-102 | all paths in the blob, each reference pointing at its path |
| `BootPlan.ParsePlan` | loader/src/module/plan.cpp:47-116 | accepts exactly the byte strings that satisfy the declarative format and gives the plan they stand for; reads no byte the caller did not map |
| `BootPlan.ParseModules` | loader/src/module/plan.cpp:91-114 | all module records are checked and kept in order |
| `BootPlan.BlobString` | loader/src/module/plan.cpp:32-43 | an accepted string is empty or a slice of the blob with a zero behind it |
| `BootPlan.ParserStaysInside` | loader/src/module/plan.cpp:63-82 | nothing behind the first header.size bytes, or behind a refused header, changes the result |
| `BootPlan.StringsAreTerminated` | loader/src/module/plan.cpp:32-43 | every accepted string that is not empty is a NUL-terminated slice of the plan's own bytes, and every accepted module has a descriptor and an index below 32 |
| `BootPlan.ModuleBack` | loader/src/module/plan.cpp:95-112 | a module record that was printed is accepted exactly with a descriptor, and then unchanged |
| `BootPlan.HeaderInRaw` | loader/src/ipc/plan.h:50-60 | the header words stand where the loader looks for them |
| `ArchRegs.TablesApart` | injector/src/arch.rs:43-98 | the register tables: all fields inside the register set, none overlapping another except the result register with an argument |
| `ArchRegs.ReadBack` | injector/src/arch.rs:213-249 | a field gives back what was written, cut to the target's word |
| `ArchRegs.ReadOther` | injector/src/arch.rs:234-249 | a write leaves every field it does not overlap |
| `ArchRegs.SetPcOnly` | injector/src/arch.rs:168-172 | setting the program counter changes nothing else that is read |
| `ArchRegs.SetSpOnly` | injector/src/arch.rs:178-182 | the same for the stack pointer |
| `ArchRegs.SetLinkOnly` | injector/src/arch.rs:192-196 | the same for the link register |
| `ArchRegs.SetArgumentOnly` | injector/src/arch.rs:198-207 | an argument register changes alone |
| `TargetMemory.Target.ReadMemory` | injector/src/ptrace_ops.rs:29-44 | success gives exactly the addressed bytes, at any alignment and length, across the end of the address space; it fails exactly when a request fails |
| `TargetMemory.Target.WriteMemory` | injector/src/ptrace_ops.rs:46-69 | success changes exactly the addressed bytes; it fails exactly when a request fails, and has then written a first part, nothing when they lie in one word |
| `TargetMemory.Target.WriteWord` | injector/src/ptrace_ops.rs:48-66 | a partial word is read, patched and written back |
| `TargetMemory.PatchWord` | injector/src/ptrace_ops.rs:62-63 | patching the middle of a word changes only those bytes |
| `TargetMemory.LoadStore` | injector/src/ptrace_ops.rs:29-69 | what was written is read |
| `TargetMemory.StoreUndone` | injector/src/ptrace_ops.rs:46-69 | writing back what was there before undoes a write |
| `TargetMemory.StoreInTwo` | injector/src/ptrace_ops.rs:46-69 | two adjoining writes are one |
| `TargetMemory.Target.ReadRegisters` | injector/src/ptrace_ops.rs:71-75 | the register set as it is |
| `TargetMemory.Target.WriteRegisters` | injector/src/ptrace_ops.rs:77-79 | all of the register set, or nothing |
| `TargetMemory.Target.ReadCString` | injector/src/ptrace_ops.rs:133-142 | the bytes up to the first zero, an unreadable byte or 512 |
| `TargetMemory.Target.SetupCall` | injector/src/ptrace_ops.rs:81-131 | program counter, arguments, return address and stack pointer are as the target's calling convention wants them, and memory changes only by the pushes |
| `TargetMemory.Target.PushCall` | injector/src/ptrace_ops.rs:111-128 | the cdecl stack: return address, then the arguments in order |
| `TargetMemory.Target.SetArguments` | injector/src/ptrace_ops.rs:90-94 | arguments go to the argument registers in order, as far as there are any |
| `TargetMemory.CallEnters` | injector/src/ptrace_ops.rs:81-131 | once the registers are written, the target is about to run that function with those arguments and to come back to that address |
| `TargetMemory.PushedBelow` | injector/src/ptrace_ops.rs:103-128 | the pushes of a call leave what lies above the stack pointer |
| `Injection.RunInjection` | injector/src/trace.rs:264-305 | from a trap on, in any phase: at most one trap for every phase and library left (n + 5 from the entry), whatever the target does between them; the plan is handed over if the registers were good at every trap up to the last module's and nothing failed, and only if they were good; at the end, if the restoring writes succeeded, the code is the program's own and the registers are exactly those of the first trap with the program counter on the entry; if nothing was saved, no register was touched |
| `Injection.Inject` | injector/src/trace.rs:208-271 | armed, run to the end and put back: the code at the entry is what it was before, and the target resumes with the registers it trapped with, on the entry; the plan is handed over only if every trap's registers were good, and then whenever nothing failed |
| `Injection.InjectLate` | injector/src/trace.rs:273-283 | the same for a target stopped past its entry: it resumes with exactly the registers it was stopped with |
| `Injection.ResumedAtEntry` | injector/src/trace.rs:349-367 | the registers a release puts back stand on the entry, apart from the thumb bit, and stack pointer, link and arguments are those of the trap |
| `Injection.Step` | injector/src/trace.rs:285-305 | every handled trap keeps the invariant in the next phase, the target having been made to enter that phase's call, exactly when the trap's registers were good and nothing failed; otherwise it asks dlerror or ends transparently; what is saved at the first trap is its registers on the entry, and saved registers, entry and original code never change after it |
| `Injection.GoesOnIn` | injector/src/trace.rs:285-305 | which registers are good in which phase: the expected trap, a descriptor, a handle, a function and a library, an encodable plan |
| `Injection.SameEncodable` | injector/src/trace.rs:680-694 | whether the plan can be encoded depends on the configuration alone |
| `Injection.TrapAtEntry` | injector/src/trace.rs:338-377 | saves the entry registers with the program counter on the entry and makes the target create the loader's file, exactly when the trap is the expected one and nothing failed; when it gives up in state Entry no register was written, so unskipping is all a release has to do |
| `Injection.TrapAtLate` | injector/src/trace.rs:307-336 | the same for a target stopped past its entry, whatever trap it is |
| `Injection.TrapFile` | injector/src/trace.rs:440-468 | a memory file came back and the next call is made, exactly when the descriptor is good, a last module's plan can be encoded and nothing failed; else everything is put back |
| `Injection.FileReady` | injector/src/trace.rs:470-497 | the loader is opened, or the module gets its descriptor, in order |
| `Injection.TrapAfterDlopen` | injector/src/trace.rs:539-615 | dlsym is called after a handle, dlerror after none, unless something failed |
| `Injection.TrapAfterDlsym` | injector/src/trace.rs:617-654 | the function found is kept and never null; goes on exactly when there is one, a library is configured and nothing failed; the modules are the configured libraries, in order, none with a descriptor yet |
| `Injection.TrapAfterDlerror` | injector/src/trace.rs:733-764 | everything is put back |
| `Injection.PumpModules` | injector/src/trace.rs:656-678 | the next module's file is started, or the plan is handed over when none is left |
| `Injection.StartModule` | injector/src/trace.rs:661-677 | the remote memfd_create call for the next module, under its name |
| `Injection.FinishInjection` | injector/src/trace.rs:680-731 | the plan handed over is encodable, has a descriptor for every module, the tracee's modules in order, and lies where the loader's first argument points |
| `Injection.SendPlan` | injector/src/trace.rs:695-719 | the plan is written and passed from the registers the target has |
| `Injection.EnterLoader` | injector/src/trace.rs:695-719 | the encoded plan survives the pushes of the call that passes its address |
| `Injection.LoaderReadsPlan` | loader/src/module/plan.cpp:47-116 | from that address parsePlan reads exactly that plan, whatever else the target's memory holds |
| `Injection.StartDlopen` | injector/src/trace.rs:499-537 | the call passes name, flags, extension block and entry, and the block holds the descriptor |
| `Injection.CallDlsym` | injector/src/trace.rs:582-614 | the call passes the handle and the name of the loader's entry point |
| `Injection.CallDlerror` | injector/src/trace.rs:550-578 | the call to dlerror, or unchanged registers |
| `Injection.ExtInfoFields` | injector/src/trace.rs:505-508 | flag and descriptor lie where android_dlextinfo has them for the word size |
| `Injection.StartFile` | injector/src/trace.rs:379-406 | the remote memfd_create call names the loader or the module by number; until the state leaves Entry no register is written |
| `Injection.StartMemfd` | injector/src/trace.rs:408-423 | that call: number, name and flag |
| `Injection.ArmCall` | injector/src/trace.rs:425-438 | the state leaves Entry before the first register is written |
| `Injection.PushBytes` | injector/src/trace.rs:825-832 | a block below the stack pointer, read back at its address |
| `Injection.SetEntryBreakpoint` | injector/src/trace.rs:913-927 | the original bytes are kept and the breakpoint is in place; a failure leaves at most a first part, and nothing when it lies in one word |
| `Injection.RestoreEntry` | injector/src/trace.rs:929-937 | the original bytes are back |
| `Injection.ArmedAndRestored` | injector/src/trace.rs:913-937 | arming and restoring with nothing in between is the identity on memory |
| `Injection.UnskipEntryInstruction` | injector/src/trace.rs:845-857 | the program counter goes back over a one-byte breakpoint exactly when it stands behind it |
| `Injection.ReleaseTracee` | injector/src/trace.rs:939-946 | code and registers are put back, by unskipping in state Entry and from the saved registers otherwise |
| `Injection.Undo` | injector/src/trace.rs:766-779 | after the first trap every surrender is transparent |
| `Injection.ArmEntry` | injector/src/mode.rs:718-743 | an armed tracee satisfies the invariant and holds the bytes under the breakpoint |
| `Injection.BeginLate` | injector/src/mode.rs:563-591 | a late target is armed at its own program counter and started, or put back |
| `KpmRing.DeliveryIsFaithful` | injector/src/kernel_kpm.rs:48-82 | over every interleaving of exec notes, reads and failed reads: parsed numbers strictly increase, every reported event carries the pid and ppid noted under its number (numbers without a process only advance the cursor), and every number up to the cursor was parsed or lost, never both |
| `KpmRing.DeliveryFromStart` | injector/src/kernel_kpm.rs:38-42 | the same over every run of a fresh module and a fresh tracker |
| `KpmRing.LostExactlyWhenOverwritten` | kpm/src/znn.c:117-123 | a number the reader comes to is lost exactly when 64 newer ones had been noted by then |
| `KpmRing.ReadGetsAhead` | kpm/src/znn.c:126-139 | a read that finds anything new moves the cursor |
| `KpmRing.ApplyKeeps` | kpm/src/znn.c:80-141 | every single step keeps that |
| `KpmRing.Ring.NoteExec` | kpm/src/znn.c:80-90 | the last 64 records are in the ring under their numbers |
| `KpmRing.Ring.WriteRecords` | kpm/src/znn.c:114-141 | the lines of exactly the records behind the cursor that are still there, oldest first, as many as fit; EFAULT exactly when a copy fails |
| `KpmRing.Ring.Channel` | kpm/src/znn.c:143-166 | the length and uid checks in front of it |
| `KpmRing.Ring.Newest` | kpm/src/znn.c:211-232 | the lines of the newest records asked for, as many as fit and as copies go through |
| `KpmRing.Ring.Control` | kpm/src/znn.c:205-233 | -1 for an unknown command, else the lines of the newest records the command asks for, as many as fit and as copies go through |
| `KpmRing.FirstOf` | kpm/src/znn.c:211-219 | the records printed are those still in the ring and, when a number was given, among that many newest ones |
| `KpmRing.ParseReadCommand` | kpm/src/znn.c:183-203 | the command is recognised as its grammar says |
| `KpmRing.ReadCommandOf` | kpm/src/znn.c:183-203 | 'read' asks for everything, 'read N' for N but at most 64, with any blanks around |
| `KpmRing.LinesOfText` | injector/src/kernel_kpm.rs:58-59 | the text of some records splits into their lines |
| `KpmRing.KpmTracker.TakeLines` | injector/src/kernel_kpm.rs:57-77 | the lines of a read give the events of exactly those records, and the cursor its last number |
| `KpmRing.KpmTracker.Round` | injector/src/kernel_kpm.rs:50-80 | one round is a read, a failed read exactly when a copy failed, or nothing new; and it goes on exactly when the buffer came back full |
| `KpmRing.KpmTracker.Drain` | injector/src/kernel_kpm.rs:48-82 | with any execs before each of its reads and any number of copies going through, drain ends in the world that the rounds come to: the events in order, the cursor and the ring |
| `KpmRing.DrainIsARun` | injector/src/kernel_kpm.rs:48-82 | what the rounds come to is a run of execs, reads and failed reads |
| `KpmRing.DrainIsFaithful` | injector/src/kernel_kpm.rs:48-82 | a drain keeps the delivery invariant |
| `KpmRing.DrainTakesWhatFits` | injector/src/kernel_kpm.rs:48-82 | without a failed copy a drain ends with the number noted at its last read, unless the next record's line did not fit behind the others |
| `KpmRing.DrainCatchesUp` | injector/src/kernel_kpm.rs:48-82 | while fewer than 10^9 execs have been noted it always does, and has reported every record still in the ring when it began |
| `KpmRing.OneStaysUnread` | injector/src/kernel_kpm.rs:48-82 | the other side: 64 records with the longest numbers and fields, and drain leaves the last one unread |
| `KpmRing.FailedDrain` | injector/src/kernel_kpm.rs:52-55 | a failed first read leaves cursor and events as they were |
| `KpmFormat.LineRoundTrip` | injector/src/kernel_kpm.rs:91-111 | for every u64 number and i32 pid, tgid, ppid, the least i32 included, the parser finds what the printer wrote |
| `KpmFormat.LineFits` | kpm/src/znn_format.h:25-69 | a line has at most 75 bytes, so the 80-byte buffer never cuts it |
| `KpmFormat.FormatExecRecord` | kpm/src/znn_format.h:55-69 | the buffer holds the line, or as much of it as the capacity allows, and nothing behind the capacity changes |
| `KpmFormat.AppendText` | kpm/src/znn_format.h:27-31 | the same for a text |
| `KpmFormat.AppendU64` | kpm/src/znn_format.h:33-43 | the same for the decimal digits of a number |
| `KpmFormat.CollectDigits` | kpm/src/znn_format.h:35-40 | the digits last one first, at most twenty |
| `KpmFormat.AppendI32` | kpm/src/znn_format.h:45-53 | the same for a signed number |
| `KpmFormat.ParseLine` | injector/src/kernel_kpm.rs:91-111 | the loop over the tokens, the last of each key counting |
| `Text.ValueOfDecimal` | kpm/src/znn_format.h:33-43 | the digits written stand for the number |
| `Tokens.I32Back` | injector/src/kernel_kpm.rs:101-102 | a printed i32 parses back |
| `Tracefs.PiecesMakeNoDifference` | injector/src/kernel_tracefs.rs:114-152 | however the pipe cuts the stream, at every moment exactly the events of its complete lines are reported and exactly the unfinished line is kept, if and only if no unfinished line grows beyond 64 KiB |
| `Tracefs.LongLineIsLost` | injector/src/kernel_tracefs.rs:115-151 | pieces that bring one byte more than 64 KiB of a line, however they are cut, and the tracker keeps nothing of it |
| `Tracefs.NineReadsLoseALine` | injector/src/kernel_tracefs.rs:115-151 | a concrete input: eight full reads of 8192 bytes and one of one byte lose their line |
| `Tracefs.ShortLinesComeOut` | injector/src/kernel_tracefs.rs:136-152 | lines of at most 64 KiB come out whole from any split |
| `Tracefs.CutAnywhere` | injector/src/kernel_tracefs.rs:136-148 | complete lines and rest of a stream cut anywhere |
| `Tracefs.TracefsTracker.EmitLines` | injector/src/kernel_tracefs.rs:136-152 | the events of the complete lines, and the tail kept or dropped |
| `Tracefs.TracefsTracker.Drain` | injector/src/kernel_tracefs.rs:114-134 | reads up to the end of what is there, each followed by emit_lines |
| `Tracefs.ExecLineParses` | injector/src/kernel_tracefs.rs:168-194 | an exec line gives its process and file |
| `Tracefs.ExitLineParses` | injector/src/kernel_tracefs.rs:168-194 | an exit line gives its process and the command name of its comm field |
| `Tracefs.ExecLineNames` | injector/src/kernel_tracefs.rs:168-207 | an exec line without a comm field gives the name in front of the process number at its beginning |
| `Tracefs.TaskName` | injector/src/kernel_tracefs.rs:203-207 | that name is what stands before the last hyphen of the first token |
| `Fanotify.PartsMakeNoDifference` | injector/src/kernel_fanotify.rs:79-101 | however the reads cut the stream, well-formed or not, every whole record is seen once and in order and exactly the rest is kept, if and only if a drain never leaves more than 64 KiB |
| `Fanotify.SmallRecordsComeOut` | injector/src/kernel_fanotify.rs:79-126 | records of at most 64 KiB, perhaps followed by an unfinished one, come out whole, once and in order from any split, and exactly the unfinished part is kept |
| `Fanotify.LongRecordIsLost` | injector/src/kernel_fanotify.rs:98-100 | a drain that leaves 64 KiB and one byte of a longer record keeps nothing of it |
| `Fanotify.CutInsideRecord` | injector/src/sys/fanotify.rs:147-153 | a cut leaves less than one record behind |
| `Fanotify.WellFormedStream` | injector/src/sys/fanotify.rs:143-161 | a stream of well-formed records is walked record by record and consumed to its end |
| `Fanotify.LeftBehind` | injector/src/sys/fanotify.rs:147-153 | a stream that stops inside a record leaves exactly that part |
| `Fanotify.FieldsBack` | injector/src/sys/fanotify.rs:168-192 | the field readers find what the kernel laid out, negative numbers included |
| `Fanotify.CutAnywhere` | injector/src/sys/fanotify.rs:146-161 | records and rest of a stream cut anywhere |
| `Fanotify.Events.Next` | injector/src/sys/fanotify.rs:146-161 | a record is taken exactly when it is whole and its length plausible |
| `Fanotify.EmitRecords` | injector/src/kernel_fanotify.rs:104-126 | every whole record once: its process reported when positive, its descriptor closed once when not negative; consumed is their total length |
| `Fanotify.FanotifyTracker.Drain` | injector/src/kernel_fanotify.rs:79-101 | a drain does what one read of everything would do |
| `HookOwnership.HooksAreOwned` | loader/src/api/hook.cpp:55-97 | over every interleaving of any number of threads: an address is in the table exactly when one token exists for it, two successful hooks of it have a successful unhook between them, and a thread is turned away only from an address that another has |
| `HookOwnership.FreeAddressIsHooked` | loader/src/api/hook.cpp:70-82 | from any reachable state a thread that hooks a free address, the backend agreeing, ends with it in the table and hooked |
| `HookOwnership.RefusedHookChangesNothing` | loader/src/api/hook.cpp:76-80 | when the backend refuses, everything is as it was |
| `HookOwnership.HookedAddressIsUnhooked` | loader/src/api/hook.cpp:84-97 | a hooked address is taken out of table and backend |
| `HookOwnership.UnhookUndoesHook` | loader/src/api/hook.cpp:55-97 | hooking and unhooking undo each other |
| `HookOwnership.HookTable.InlineHook` | loader/src/api/hook.cpp:55-82 | with other threads running between its steps: it succeeds exactly when both arguments are there, the address was free when it was claimed and the backend agrees, and then the address is hooked and in the table; refused by the backend, it leaves neither; its events in the run are exactly these |
| `HookOwnership.HookTable.InlineUnhook` | loader/src/api/hook.cpp:84-97 | it succeeds exactly when the argument is there, the address is found, the backend agrees and the address is still hooked then, and then it is in neither table nor backend; its events in the run are exactly these |
| `HookOwnership.HookTable.Erase` | loader/src/api/hook.cpp:76-80 | giving a place back frees exactly that address |
| `HookOwnership.StepKeepsOwned` | loader/src/api/hook.cpp:70-97 | every step of every thread keeps the accounts |
| `HookOwnership.StepKeepsRun` | loader/src/api/hook.cpp:70-97 | every step keeps hooks and unhooks alternating |
| `HookOwnership.ClaimOnlyWhenFree` | loader/src/api/hook.cpp:72-75 | a claim goes through exactly when nothing accounts for the address |
| `HookOwnership.ClaimedIsNotHooked` | loader/src/api/hook.cpp:72-80 | the owner of a claim is alone and the address is not hooked |
| `Targeting.Daemon.AnyRun` | injector/src/mode.rs:277-532 | over every run of polls, kernel events, rechecks, retries, prunes and expiries, in any mode: after a seizure or a surrender there is no attempt on the process before the daemon let go of it, and done holds exactly the processes that were seized, given up or expired since |
| `Targeting.OneDecisionPerLife` | injector/src/mode.rs:449-489 | between two removals from done a process has at most one seizure or surrender |
| `Targeting.SettledByEntry` | injector/src/mode.rs:449-489 | a process in done has a seizure, a surrender or an expiry in the log, and was not let go of since |
| `Targeting.Daemon.SeizeAndStop` | injector/src/mode.rs:610-716 | called only for a process outside tracees, done and ignored (its precondition, met at every call) |
| `Targeting.Daemon.SeizeTarget` | injector/src/mode.rs:593-608 | seized exactly when nothing stands in the way, put off exactly when another tracer has the process, else given up; the tracee is recorded exactly for a seizure |
| `Targeting.Daemon.SeizeLateTarget` | injector/src/mode.rs:538-591 | the same for a late target, also past its entry when it has one thread or is young |
| `Targeting.Daemon.ArmEntryInjection` | injector/src/mode.rs:718-743 | the same for an entry breakpoint |
| `Targeting.Daemon.ObserveTarget` | injector/src/mode.rs:449-461 | an open process is attempted, once, with the outcome its facts ask for, recorded in tracees for a seizure and in done for a seizure or a surrender; in late mode a held one is deferred instead; the bookkeeping of other processes is untouched |
| `Targeting.Daemon.ObserveLateTarget` | injector/src/mode.rs:463-489 | the same for late mode, with the first deadline of a deferred process |
| `Targeting.Daemon.File` | injector/src/mode.rs:453-460 | an attempt is in the log; all but a retry are in done |
| `Targeting.Daemon.RetryDeferred` | injector/src/mode.rs:491-532 | every deferred process that was released and still is an open target is attempted, every one held past its deadline is given up; only deferred processes stay deferred |
| `Targeting.Daemon.RetryOne` | injector/src/mode.rs:497-531 | released: attempted, or put off again; held past its deadline: given up; held before it: unchanged; released but no target any more: dropped |
| `Targeting.Daemon.RecheckPending` | injector/src/mode.rs:277-301 | every process whose exec showed a target in time is attempted; only unexpired entries are left, with their deadlines |
| `Targeting.Daemon.RecheckOne` | injector/src/mode.rs:283-300 | an open target in time is attempted; else only the entry may go, and exactly when it expired or the process is gone or not open |
| `Targeting.Daemon.PollProcesses` | injector/src/mode.rs:327-429 | when /proc is scanned, every open target in it that is not held too long is attempted, and what was not seen is forgotten; otherwise nothing is attempted |
| `Targeting.Daemon.ConsiderProcess` | injector/src/mode.rs:346-416 | one entry of /proc: an open target is attempted, or given up when held too long; another program is ignored unless it may still become something else |
| `Targeting.Daemon.Scan` | injector/src/mode.rs:346-416 | every entry that is due when the scan begins is attempted |
| `Targeting.Daemon.Abandon` | injector/src/mode.rs:434-447 | giving up is in the log and settles the process |
| `Targeting.Daemon.ExpireTracee` | injector/src/mode.rs:255-274 | an expired tracee is settled or kept |
| `Targeting.Daemon.ConsiderKernelEvent` | injector/src/kernel.rs:265-325 | an exit clears all bookkeeping of the process; an exec of an open process attempts it when it or its path is a target, waits for a recheck when the exec has not happened yet, and otherwise ignores it |
| `Targeting.Daemon.DeferRecheck` | injector/src/kernel.rs:327-344 | the first deadline of a process stands; other programs are ignored |
| `Targeting.Daemon.PruneKernelBookkeeping` | injector/src/kernel.rs:352-356 | exactly the processes no longer alive are dropped |
| `Targeting.Daemon.PruneDeferred` | injector/src/mode.rs:534-536 | the same for deferred processes, on its own |
| `Targeting.Daemon.PruneRecheck` | injector/src/daemon.rs:228-228 | the same for processes waiting for a recheck, on its own |
| `Targeting.Daemon.Free` | injector/src/kernel.rs:275-275 | letting go of processes is what allows a new decision on them |

## Left out

- Dead branches of `LzmaDec_DecodeToDic`: each internal `break` to SZ_ERROR_FAIL is an `assert false`; the assignment behind them is not modelled because nothing reaches it.
- `LzmaDec_InitDicAndState` with only one of its flags (state 275): nothing in the loader calls it; the invariant admits the full initialization only.
- The unrolled variants of the bit trees (`Z7_LZMA_SIZE_OPT` undefined): the loops of the size-optimized variant are modelled, which the unrolled macros repeat; external assembly decoders are not.
- `p->dicPos` set by hand, buffers given as raw pointers, allocation and its failures, `LzmaDec_Allocate*`, `LzmaDec_Free*`: the dictionary and the caller's buffer are separate arrays.
- LzmaDecoder.LzmaDec.DecodeToBuf: requires a dictionary buffer of at least dicSize bytes, as `LzmaDec_Allocate` makes it; with a smaller buffer the wrap would lose bytes a match may still reach.
- The xz backend and `lzmaAlone`'s container header: the xz sources are not part of this model; of the retry loop only the effect of a larger buffer is stated.
- LzmaEncoder.TextBack: streams without an end marker, which is how the encoder writes them; what an end marker leads to is stated by `LzmaAnswers.AnswersMean` and `LzmaLimits.FeedMark`.
- BootPlan.ParsePlan: on a refusal the partly filled output object of the source is not modelled; only whether a plan is accepted, and the accepted plan, are.
- Injection.FinishInjection: only for a 32-bit target under a 64-bit injector, that the plan lies where the argument points is stated for a stack pointer at least plan size + 64 bytes above address zero; below that the source's subtraction, wrapping at 64 bits, leaves the target's address range. In every other case it is unconditional.
- Injection.SendPlan: that the plan is passed is stated with the same exception for a 32-bit target under a 64-bit injector.
- Injection.EnterLoader: that the plan survives the pushes is stated with the same exception for a 32-bit target under a 64-bit injector.
- Injection.StartDlopen: what the call passes is stated with the same exception (block size + 64).
- Injection.CallDlsym: what the call passes is stated with the same exception (name size + 64).
- Injection.CallDlerror: that the target enters dlerror is stated with the same exception (64 bytes).
- Injection.StartMemfd: what the call passes is stated with the same exception (name size + 64).
- Injection.StartFile: what the call passes is stated with the same exception (name size + 64).
- Injection.StartModule: what the call passes is stated with the same exception (name size + 64).
- Injection.TrapAtEntry: when the register read of the very first trap fails, or the trap is not the expected one, nothing is saved and only the code is put back; on x86 the program counter then stays behind the breakpoint. Transparency is claimed from the moment the registers are saved, and until then that no register was touched.
- Injection.Step: a traced process without a breakpoint (state Traced) only continues and is excluded. That the target has been made to enter the phase's call is stated with the same exception for a 32-bit target under a 64-bit injector.
- Injection.SetEntryBreakpoint: a breakpoint that crosses a word boundary (a 4-byte instruction at a 2-byte aligned address) can be left half written when the second request fails; the source does not undo it and neither does the model.
- Events other than traps (signals, group stops, exec, fork), companions, records of success and failure, and logging: they do not touch the state the injection results are about.
- How a symbol, a library list, a configuration or a file is found: results of the lookups are arbitrary, libraries and configuration are fixed for one injection.
- Weak memory in the KPM ring: `znn_note_exec` bumps the counter before it fills the slot and may run beside a read; noting and reading are single steps here.
- KpmRing.Ring.NoteExec: the 64-bit counter is assumed not to reach its end.
- UTF-8: texts are ASCII bytes; replacement characters and non-ASCII white space are not modelled.
- Tracefs.TracefsTracker.Drain: the size of a single read (8192 bytes) is not bounded; any piece is allowed.
- File names of fanotify events: whether a link can be read, and what it says, is arbitrary; only processes and descriptors are stated.
- Targeting.Daemon.AnyRun: which executables are targets, ages of processes and clock values are arbitrary at every question, so one process may be judged differently twice; the property does not depend on it.
- Choice of the tracking mode, init hand-over, starting and stopping event sources: the mode is an arbitrary value that may change at any time.
- Release of tracees at shutdown and the details of `stop_tracee`: `Injection.ReleaseTracee` states what a release does in any state.
- Hook backends, `pltHook` and the maps lookup of `inlineHook`: backend calls are single steps with arbitrary answers, except that unhooking fails on an address that is not hooked.
- ELF symbol parsing, `sh_linker.c`, KernelPatch headers, `machikado.rs`, `zn.rs`, `ctl.rs`, `state.rs`, the web UI: outside the protocols above.
