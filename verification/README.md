# A model of the invoice-index gateway, its encoders and its printers

The Dafny files beside this one model the parts of the repository whose correctness is hardest to
see, and prove what they promise. `dafny verify dfyconfig.toml` checks everything.

**The invoice-index allocator and its gateway.** `IndexState` is the store of
`gateway/index-state.ts` as a class whose methods edit its lists in place, each tied to a function on
the abstract state. `IndexRuns` proves the promises of that file's header over every run, `IndexCrash`
over every interleaving of calls, renames in any order, and crashes. `Gateway` runs one store per
network with the active network resolved per request and switched at any time, `Restarts` the same over
stores that crash. `Framing` is the line protocol of the socket. `Bootstrap` is the shop's seed and
identity state, from start-up to receiver binding, and `ShopLife` its life across restarts.

**The QR generator.** `GF256`, `Polynomials`, `Generator` and `ReedSolomon` go from the field tables to
codewords divisible by the generator. `QrBuffer`, `Segments`, `RsBlocks`, `Interleave` and `CreateData`
are the codeword pipeline and a reader that undoes it. `Patterns` and `Placement` put the modules into
the square, `Capacity` counts what the patterns leave, and `QrSymbol` joins all of it. `QrStandard`,
`Scanner` and `QrFormat` hold what a reader knows from ISO/IEC 18004 alone: block sizes, where things stand,
and the code words of the format. `QrCode` ends with a scanner that is given nothing but the modules.
`Bits`, `Lzw` and `GifRaster` are the GIF raster, `Base64Stream` the data URL.

**Other printers and small protocols.** `Crc32` and `Zip` are the source-archive writer, `StableJson`
the canonical JSON comparison of signed payloads, `History` the merging of imported histories,
`Markdown` the termination of the renderer and `MarkdownText` what it renders, `Login` the single-use
login challenge.

A function on values states what a method of a class or a loop computes; lemmas then say what that
means. Bodies are hidden from a proof (`hide`) where only a contract is needed.

## Where the code differs from what it is meant to do

Each of these is proved: when the code does what is promised, as an if and only if, and an input
where it does not.

- The index reissued has rested longest at every moment if and only if the head of the list always has, which a clock that never goes back ensures: `IndexRuns.OldestFirstIff`, `IndexRuns.ReissuesTheLongestRested`; with the clock set back: `IndexRuns.ClockSetBack`.
- Write-then-rename is meant to make every answer survive a crash. Answers survive all crashes of a run if and only if no crash comes while an answered write is newer than the one renamed last: `IndexCrash.NothingForgottenIff`. Renames in order ensure that (`IndexCrash.InOrderIsHarmless`); one rename that overtakes another gives one index to two live invoices: `IndexCrash.OvertakingRename`.
- A refused start-up has written nothing if and only if there was a seed: with the seed missing a new one is written first, and then refused: `Bootstrap.RefusalWritesIffSeedWasMissing`, `Bootstrap.RefusedWithoutSeed`.
- Replies on the gateway socket carry no name. A chunk of text leaves them in order, whatever follows while the client waits, if and only if it does not end a second request while one is awaited: `Framing.InOrderIff`. Of two lines sent one after the other the second may be answered first if and only if the handler of the first awaits something from outside: `Framing.RepliesOutOfOrderIff`, with the run in `Framing.RepliesOutOfOrder`.
- A release or a settlement names an index but no network, so it ends the quote it is meant for if and only if the operator trades on that quote's network when it is asked: `Gateway.ReleaseFreesIff`; otherwise it may end another live quote: `Gateway.ReleaseFreesAnotherQuote`.
- A receiver whose notification is on-chain is meant to stay. On disk it stays, over all restarts, if and only if no save lands that misses an announcement the file has, as saves in their order never do: `ShopLife.AnnouncedStayIff`, `ShopLife.AnnouncedStayInOrder`; an overtaken save takes one back: `ShopLife.OvertakenSave`.
- A generator of degree 255 has zero coefficients, whose logarithm throws; up to 254 it has none: `Generator.LogsExistIff`.
- The GIF end code is written one bit too narrow for a standard decoder whenever the table ends at a power of two. The zero bits of the flush make up for it, so the decoder misses the end code if and only if the table ends with 16 entries: `Lzw.EndCodeReadableIff`. Eleven pixels are enough: `Lzw.ElevenPixels`; more than 66, as in every QR image, never do it: `Lzw.LargeRastersEndWell`.
- An archive within the 16- and 32-bit field limits reads back if and only if it holds fewer than 65536 entries: `Zip.ArchiveReadsBack`; of 65536 empty ones, which are within the limits, none is found: `Zip.NoneOfTooMany`.
- Two different payloads may print alike: a value owns its text if and only if it holds neither null nor a non-finite number, such as the one the literal 1e999 parses to: `StableJson.OwnsTextIff`, `StableJson.HugeCountsAsNull`. Payload texts that are no JSON are accepted when equal once trimmed, although the comment above the function says they fail: `StableJson.SamePayloadIff`, `StableJson.BraceCountsAsItself`.
- Importing a series a second time should change nothing. With a negative window, which the remote instance may name, it changes nothing if and only if the series is empty, everything was dropped, or the series offers every stamp that was dropped: `History.ImportingAgainIff`; one row a side, and the second import leaves nothing: `History.SecondImportLosesAll`.
- Rendering never ends on a heading whose text holds a lone carriage return, U+2028 or U+2029, at any quote depth, and ends on every other text: `Markdown.HaltsIff`, `Markdown.StuckHeadings`.

## Model

| member | source | states |
|---|---|---|
| IndexState.IndexStore.AllocateIndex | gateway/index-state.ts:104-117 | the first released index in list order that finished its quarantine leaves the list, else a fresh one; it is then issued once and the file equals memory |
| IndexState.IndexStore.ReleaseIndex | gateway/index-state.ts:127-137 | true exactly for an issued index, which then rests from now and is never listed twice; otherwise nothing changes |
| IndexState.IndexStore.SettleIndex | gateway/index-state.ts:144-151 | true exactly for an issued index, which then is in neither list |
| IndexState.StepKeepsPartition | gateway/index-state.ts:104-151 | issued and resting indices stay distinct, disjoint and below the next fresh one, whatever is asked |
| IndexState.RunAgrees | gateway/index-state.ts:104-151 | after every run the lists say exactly what the history of answers says of each index |
| IndexRuns.IssuedWas | gateway/index-state.ts:98-117 | every index handed out was untouched, or had rested the whole quarantine |
| IndexRuns.ReissueIsSafe | gateway/index-state.ts:104-137 | an index handed out twice was released in between, rested the whole quarantine undisturbed, and was never settled before |
| IndexRuns.RetiredNeverReturns | gateway/index-state.ts:139-151 | no later answer of any run concerns a settled index |
| IndexRuns.SpentForever | gateway/index-state.ts:139-151 | once settled, an index is spent at the end of every run |
| IndexRuns.OldestFirstIff | gateway/index-state.ts:98-109 | the index found ready has rested longest at every moment if and only if the head of the list has |
| IndexRuns.ReissuesTheLongestRested | gateway/index-state.ts:98-109 | with a clock that never goes back, the index reissued has rested longest |
| IndexRuns.ClockSetBack | gateway/index-state.ts:98-109 | a run with the clock set back where it has not |
| IndexRuns.Conservation | gateway/index-state.ts:104-151 | the next fresh index is always live plus resting plus settled |
| IndexRuns.ChainStaysDense | gateway/index-state.ts:98-117 | whenever the chain grows every resting index is still in quarantine, so its length is at most settled plus live plus released within one quarantine |
| IndexCrash.AlwaysOnLine | gateway/index-state.ts:74-96 | over every interleaving, renames in any order, memory is the run of the writes in the line, the file the run of those up to the one renamed last, and each pending write the run up to it |
| IndexCrash.ReloadIsTheRunKept | gateway/index-state.ts:74-96 | a reload goes back to exactly the run, and its events, up to the write renamed last |
| IndexCrash.CrashKeepsAnswersIff | gateway/index-state.ts:74-96 | a crash forgets no answer if and only if no answered write is newer than the one renamed last |
| IndexCrash.NothingForgottenIff | gateway/index-state.ts:74-96 | over every run all answers are in the history the store goes on from if and only if every crash was of that kind |
| IndexCrash.InOrderIsHarmless | gateway/index-state.ts:91-96 | with renames in the order of their snapshots nothing answered is ever forgotten |
| IndexCrash.DiskIsAlwaysPartitioned | gateway/index-state.ts:91-96 | file and memory satisfy the partition at every moment, whatever the order of the renames |
| IndexCrash.AnsweredIndexSurvivesCrash | gateway/index-state.ts:104-117 | an index told to a caller, and not released or settled in the file's run since, is issued after a crash that forgets no answer |
| IndexCrash.AnsweredSettlementIsFinal | gateway/index-state.ts:139-151 | while nothing is forgotten, an index whose settlement was acknowledged is not handed out next |
| IndexCrash.AnswersNeverCollide | gateway/index-state.ts:98-137 | while nothing is forgotten, two callers told one index, across crashes, have a release and a whole quarantine between them |
| IndexCrash.OvertakingRename | gateway/index-state.ts:91-96 | two renames out of order and a crash hand one live index to two callers |
| Gateway.ChainsRunIndependently | gateway/gateway.mjs:77-148 | each network's store is what its own requests alone would make it, whatever is interleaved and switched |
| Gateway.RecordsAreOfOneChain | gateway/gateway.mjs:112-131 | every record of a next names the network, code, address and index of the one allocation it was made from |
| Gateway.RecordsDeriveFromTheirReceiver | gateway/gateway.mjs:103-131 | every record derives from what was bound on its own network at some moment of the run, or from the fallback when nothing was |
| Gateway.NextUsesBound | gateway/gateway.mjs:103-131 | from every reachable state a next on a network with an index chain is refused if and only if nothing is bound there and there is no fallback; otherwise, whatever the operator does meanwhile, its record derives from the code a bind last left, announced or not, or from the fallback when none did |
| Gateway.AnnouncedReceiverIsUsed | gateway/gateway.mjs:103-131 | once a network's receiver is announced and no call with another is under way, every later record of it derives from that receiver |
| Gateway.NoTwoLiveQuotes | gateway/gateway.mjs:123-148 | two records with one network and index have a release and a whole quarantine between their allocations |
| Gateway.SettledNeverQuotedAgain | gateway/gateway.mjs:123-148 | every record that quotes a settled index on its network was allocated before the settlement |
| Gateway.ReleaseFreesIff | gateway/gateway.mjs:77-90 | in every reachable state a release or settlement asked for a live quote ends it if and only if the network active when it is asked is the quote's, whatever is switched before it is carried out; a release then leaves the index resting since that moment, a settlement in no list |
| Gateway.ReleaseFreesAnotherQuote | gateway/gateway.mjs:140-148 | a run of two live quotes where a release asked for the first frees the second |
| Gateway.RunConsistent | gateway/gateway.mjs:123-148 | log, calls under way and records agree, and no allocation is answered twice, over every run |
| Restarts.QuotesKeptIff | gateway/index-state.ts:74-96 | over every run with restarts, all quotes of a network are in the history its store goes on from if and only if each restart came when none was newer than the write renamed last |
| Restarts.NoTwoLiveQuotesAcrossRestarts | gateway/gateway.mjs:123-148 | then two records with one network and index, however many restarts lie between, have a release and a whole quarantine between their allocations |
| Framing.HandledOnce | gateway/gateway.mjs:198-217 | however text is cut into chunks and handlers interleave, requests are handled in line order, none twice; when nothing is awaited all ended lines are done with one reply each |
| Framing.TakeRequest | gateway/gateway.mjs:206-209 | the next line that is not blank, and the buffer behind it |
| Framing.ProceedLoop | gateway/gateway.mjs:205-215 | the loop answers lines that are no JSON and stops at the first request it awaits |
| Framing.TakeFirst | gateway/gateway.mjs:206-209 | taking a request splits off exactly the first request of the ended lines |
| Framing.EndedAppend | gateway/gateway.mjs:199-208 | the ended lines of a text and a further chunk are those of the text and of its open end with the chunk |
| Framing.EndedIs | gateway/gateway.mjs:199-208 | the ended lines, each with its line feed back, and the open end make up the text, and none of them holds a line feed |
| Framing.DestroyedIff | gateway/gateway.mjs:199-202 | a chunk destroys the connection if and only if with the buffer it is longer than 65536 |
| Framing.BufferBounded | gateway/gateway.mjs:199-202 | over every run the buffer of a connection that stands holds at most 65536 characters |
| Framing.RepliesInOrder | gateway/gateway.mjs:201-214 | a client that ends no second request while one is awaited gets its replies in order, whatever else it sends |
| Framing.InOrderIff | gateway/gateway.mjs:201-214 | a chunk is followed by replies in order, in every later run of a waiting client, if and only if it ends no second request while one is awaited |
| Framing.RepliesOutOfOrderIff | gateway/gateway.mjs:201-214 | some run in which just two given lines are sent answers the second first, if and only if the handler of the first awaits something from outside |
| Framing.RepliesOutOfOrder | gateway/gateway.mjs:201-214 | such a run, whatever the second line is |
| Bootstrap.ReceiverNeverMovesOnceAnnounced | gateway/bootstrap.ts:291-333 | over every run a receiver never changes once its notification is on-chain, is never the shop's own code, and matches its recorded notification address |
| Bootstrap.OtherNetworksUntouched | gateway/bootstrap.ts:291-333 | operations on other networks leave a network's block as it is |
| Bootstrap.FreezesWhatIsBoundNext | gateway/bootstrap.ts:301-312 | with a notification recorded and no receiver, the first receiver bound is kept for ever |
| Bootstrap.BindIff | gateway/bootstrap.ts:291-318 | when each of the four refusals comes, as an if and only if; otherwise the receiver is the trimmed code with its notification address, and nothing else changes |
| Bootstrap.ActsChange | gateway/bootstrap.ts:320-333 | a switch, a node choice and an announcement each change the one field they are for |
| Bootstrap.BoundIs | gateway/bootstrap.ts:291-318 | after every run of operations a network's receiver is the code the last successful bind left there |
| Prelude.TrimIs | gateway/bootstrap.ts:294 | trimming a pasted payment code takes off white space at both ends, all of it and nothing else |
| Bootstrap.StartGives | gateway/bootstrap.ts:182-250 | after every successful start a network without a block has the three fields its seed derives and no others, one with a block has it as it was but for a missing deposit address, and both files are on disk |
| Bootstrap.StartRefusesIff | gateway/bootstrap.ts:212-227 | a start is refused if and only if some network has a recorded code the seed does not derive, and names the first |
| Bootstrap.DataDir.LoadOrCreate | gateway/bootstrap.ts:182-254 | the outcome, whether a seed was made, and both files, of the start-up whose fields StartGives and refusals StartRefusesIff state |
| Bootstrap.Backfill | gateway/bootstrap.ts:228-249 | the loop adds exactly the missing blocks and deposit addresses, and reports no growth only if nothing changed |
| Bootstrap.FirstDisagreement | gateway/bootstrap.ts:218-227 | the first network, in order, whose recorded code the seed does not derive |
| Bootstrap.SeedIsNeverReplaced | gateway/bootstrap.ts:190-196 | over every sequence of starts, wherever each dies, the first seed on disk stays |
| Bootstrap.EveryStartReturnsTheSame | gateway/bootstrap.ts:182-254 | from the start that wrote or found that seed on, every start has the same outcome, identity or refusal |
| Bootstrap.CrashIsHealed | gateway/bootstrap.ts:190-211 | once a seed is on disk, a start that dies at any point is made good by the next: the files and the outcome of a start that had not died, from any disk |
| Bootstrap.SecondStartChangesNothing | gateway/bootstrap.ts:182-254 | after a start-up that succeeded a second one writes nothing and returns the same |
| Bootstrap.RefusesOrOnlyAdds | gateway/bootstrap.ts:212-250 | with seed and state, a start-up refuses without writing, or ends with every recorded code equal to the derived one and only deposit addresses and blocks added |
| Bootstrap.StartMeetsReceiversOk | gateway/bootstrap.ts:182-254 | start-up keeps the receiver invariant the operations rely on |
| Bootstrap.RefusalWritesIffSeedWasMissing | gateway/bootstrap.ts:190-227 | a refused start-up leaves the files alone if and only if there was a seed |
| Bootstrap.RefusedWithoutSeed | gateway/bootstrap.ts:190-227 | a state whose seed file is gone, where it does not |
| ShopLife.RecordedForGood | gateway/bootstrap.ts:182-333 | over any mix of starts that die anywhere, operator actions and saves landing in any order, no payment code or own address once on disk changes, and the running process has them all |
| ShopLife.AnnouncedStayIff | gateway/gateway.mjs:240-274 | over any such mix every announced receiver stays on disk if and only if no save lands that misses an announcement the disk has |
| ShopLife.AnnouncedStayInOrder | gateway/gateway.mjs:240-274 | when saves land in the order they began, every announced receiver on disk survives everything |
| ShopLife.OvertakenSave | gateway/gateway.mjs:253-265 | two saves in the other order, and an announcement that was on disk is gone |
| GF256.TableRecurrence | assets/js/qrcode.js:1141-1146 | the four-term recurrence that fills the table is repeated multiplication by x modulo the field polynomial |
| GF256.QRMath.constructor | assets/js/qrcode.js:1132-1149 | both tables hold the powers of alpha and their logarithms |
| GF256.QRMath.Glog | assets/js/qrcode.js:1153-1160 | the discrete logarithm, and an error exactly on zero |
| GF256.QRMath.Gexp | assets/js/qrcode.js:1162-1173 | alpha to the exponent modulo 255, for every integer |
| GF256.NoEarlyOne | assets/js/qrcode.js:1138-1149 | no power of alpha between 0 and 255 is one |
| GF256.ExpInjective | assets/js/qrcode.js:1138-1149 | the first 255 powers are distinct |
| GF256.ExpOnto | assets/js/qrcode.js:1138-1149 | and are all the nonzero elements |
| GF256.MulDistributes | assets/js/qrcode.js:1214-1218 | multiplication by logarithms distributes over xor |
| GF256.MulAssociates | assets/js/qrcode.js:1214-1218 | and is associative |
| GF256.RatioIsProduct | assets/js/qrcode.js:1229-1238 | adding a difference of logarithms multiplies by the quotient |
| Polynomials.EvalProduct | assets/js/qrcode.js:1210-1221 | the value of a product is the product of the values |
| Polynomials.TooManyRoots | assets/js/qrcode.js:1182-1245 | a polynomial with as many distinct roots as coefficients is zero |
| Generator.GenRoot | assets/js/qrcode.js:966-972 | alpha to the 0 up to n-1 are roots of the generator of degree n |
| Generator.Neighbours | assets/js/qrcode.js:966-972 | neighbouring coefficients are in the ratio of Gaussian binomials |
| Generator.LogsExistIff | assets/js/qrcode.js:966-972 | among degrees up to 255, all coefficients are nonzero if and only if the degree is at most 254 |
| ReedSolomon.MakePoly | assets/js/qrcode.js:1182-1198 | leading zeros are stripped and the shifted cells are holes that act as zero |
| ReedSolomon.Multiply | assets/js/qrcode.js:1210-1221 | the product of the polynomials exactly when no coefficient is zero, else the error of a logarithm of zero |
| ReedSolomon.ErrorCorrectPolynomial | assets/js/qrcode.js:966-972 | building the generator takes no logarithm of zero up to degree 255 and throws beyond |
| ReedSolomon.Mod | assets/js/qrcode.js:1223-1242 | the recursion terminates with a remainder shorter than the divisor that agrees with the dividend at every root of the divisor |
| ReedSolomon.ErrorCorrection | assets/js/qrcode.js:287-301 | data with the computed check codewords vanish at every root of the generator; it throws exactly above 254 check codewords, but for all-zero data with 255 |
| ReedSolomon.CompletionIsUnique | assets/js/qrcode.js:287-301 | no other check codewords of that number would do |
| QrBuffer.BitBuffer.PutBit | assets/js/qrcode.js:1586-1598 | the buffer's bits grow by the one bit, and unused bits stay zero |
| QrBuffer.BitBuffer.Put | assets/js/qrcode.js:1576-1580 | the buffer's bits grow by the number's, high bit first |
| QrBuffer.BitBuffer.GetAt | assets/js/qrcode.js:1571-1574 | reads the bit that was put there |
| Segments.NumericBack | assets/js/qrcode.js:1622-1648 | a reader of groups of three digits gives the digits back |
| Segments.AlphanumericBack | assets/js/qrcode.js:1679-1718 | a reader of pairs gives the characters back |
| Segments.AlphaIff | assets/js/qrcode.js:1695-1718 | the characters that do not throw are the 45 of Table 5 of ISO/IEC 18004 |
| Segments.PayloadBack | assets/js/qrcode.js:1622-1747 | every legal payload reads back, with what follows it untouched |
| Segments.PayloadLengthIs | assets/js/qrcode.js:1622-1747 | a legal payload has the number of bits section 7.4 of ISO/IEC 18004 gives for its mode and length |
| Segments.SegmentsBack | assets/js/qrcode.js:338-343 | a reader with the count widths of Table 3 and the characters of Table 5 of ISO/IEC 18004 gives the segments back, up to a terminator or fewer than four bits |
| RsBlocks.GetRSBlocks | assets/js/qrcode.js:1526-1551 | the block list of the table row |
| RsBlocks.BlocksWithinReach | assets/js/qrcode.js:1253-1510 | in all 160 rows a block has at most 30 check codewords and the data fits its version group's length fields |
| QrStandard.BlocksAreStandard | assets/js/qrcode.js:1253-1551 | in all 160 rows the blocks are those of a standard reader: as many codewords as the symbol's geometry leaves, shared out evenly with the longer blocks last, each with the check codewords of its version and level |
| Interleave.InterleaveBlocks | assets/js/qrcode.js:311-327 | the two nested loops produce the interleaving of the blocks |
| Interleave.DealInverts | assets/js/qrcode.js:308-329 | dealing an interleaving out by the block sizes gives each block and what follows back |
| Interleave.EncodeBlocks | assets/js/qrcode.js:267-301 | the blocks cut the buffer into consecutive pieces, each with its own check codewords |
| CreateData.StrToNum | assets/js/qrcode.js:1642-1655 | the number of a digit string, and an error exactly on any other character |
| CreateData.WriteNumber | assets/js/qrcode.js:1622-1640 | the buffer grows by the numeric payload, and throws exactly on a character that is no digit |
| CreateData.WriteAlphaNum | assets/js/qrcode.js:1679-1718 | the buffer grows by the alphanumeric payload, and throws exactly on a character outside the set |
| CreateData.WriteSegments | assets/js/qrcode.js:338-343 | the buffer holds mode, length and payload of every segment in order |
| CreateData.PaddingEndsTheList | assets/js/qrcode.js:359-381 | behind the segments a reader finds a terminator or fewer than four bits |
| CreateData.PaddingIs | assets/js/qrcode.js:359-381 | the padding is zeros, at least a terminator where one fits, and then 236 and 17 in turn |
| CreateData.Pad | assets/js/qrcode.js:359-381 | terminator, zero bits and pad bytes fill the buffer to exactly the data capacity |
| CreateData.FittingLengthsFit | assets/js/qrcode.js:338-357 | whatever passes the overflow test has lengths that fit their fields, so none is truncated |
| CreateData.ByteCapacity | assets/js/qrcode.js:338-357 | one byte segment passes the overflow test if and only if it is shorter than the data codewords by 2 below version 10 and by 3 from there on |
| CreateData.CreateCodewords | assets/js/qrcode.js:332-384 | throws exactly on an illegal character or an overflow; else a reader of the interleaved codewords recovers the segments |
| Patterns.PositionsSpaced | assets/js/qrcode.js:863-904 | in all 40 versions the alignment patterns stand apart and inside the symbol |
| Patterns.AlignmentRings | assets/js/qrcode.js:133-162 | an alignment pattern is light exactly in the ring around its centre |
| Patterns.PositionsFollow | assets/js/qrcode.js:863-904 | in all 40 versions the centres start at 6, end 7 from the edge, and lie even, equal gaps apart behind the second |
| Patterns.FormatBitOnce | assets/js/qrcode.js:184-210 | each of the two strips holds every format bit in one place |
| Patterns.VersionBitOnce | assets/js/qrcode.js:164-177 | each version bit has one place in its block |
| Placement.VisitsEachCellOnce | assets/js/qrcode.js:224-263 | on every odd size the zigzag visits each cell outside column 6 once and no other |
| Placement.FinderRings | assets/js/qrcode.js:75-94 | a finder pattern is light exactly in the second and the outermost ring around its centre |
| Placement.FinderRuns | assets/js/qrcode.js:75-94 | through its centre, across and down, its runs are 1:1:3:1:1 |
| Placement.Symbol.SetupPositionProbePattern | assets/js/qrcode.js:75-94 | sets exactly the finder pattern and its separator, clipped to the symbol |
| Placement.Symbol.SetupPositionAdjustPattern | assets/js/qrcode.js:133-162 | sets exactly the 5 by 5 patterns around the pairs of centres that were unset |
| Placement.Symbol.SetupTimingPattern | assets/js/qrcode.js:116-131 | sets exactly the unset modules of row and column 6, alternating |
| Placement.Symbol.SetupTypeInfo | assets/js/qrcode.js:179-214 | sets exactly both format strips and the dark module |
| Placement.Symbol.SetupTypeNumber | assets/js/qrcode.js:164-177 | sets exactly both version blocks |
| Placement.TimingColumnFull | assets/js/qrcode.js:57-66 | for every version the patterns leave no module of column 6 unset |
| Scanner.FormatReads | assets/js/qrcode.js:179-214 | each format bit stands at both places section 7.9 of ISO/IEC 18004 has for it, and the dark module at its own |
| Scanner.VersionReads | assets/js/qrcode.js:164-177 | each version bit stands at its place of section 7.10 in both blocks |
| Scanner.FinderReads | assets/js/qrcode.js:57-59 | the three corners show finder patterns with their separators |
| Scanner.AlignmentReads | assets/js/qrcode.js:133-162 | every pair of centres but the three corners shows an alignment pattern |
| Scanner.TimingReads | assets/js/qrcode.js:116-131 | between the finder patterns row and column 6 alternate, dark on even places |
| Scanner.ZigzagIs | assets/js/qrcode.js:224-263 | which cell is visited when: pairs of columns from the right, up and down in turn, right before left, column 6 passed over |
| QrFormat.GetBCHTypeInfo | assets/js/qrcode.js:920-926 | the division loop ends with the masked BCH code word of the five bits |
| QrFormat.GetBCHTypeNumber | assets/js/qrcode.js:928-934 | the division loop ends with the Golay code word of the six bits |
| QrFormat.FormatWordIs | assets/js/qrcode.js:920-926 | for every level and mask the word is that of Table C.1 of ISO/IEC 18004 |
| QrFormat.VersionWordIs | assets/js/qrcode.js:928-934 | for every version from 7 to 40 the word is that of Table D.1 |
| QrFormat.FormatDistance | assets/js/qrcode.js:920-926 | two format words differ in at least seven bits, so three wrong ones can be corrected |
| QrFormat.MaskIs | assets/js/qrcode.js:940-964 | each mask of Table 10 of ISO/IEC 18004 inverts exactly the modules a reader tells by their residues modulo 2, 3, 4 and 6 |
| Placement.Symbol.MakeImpl | assets/js/qrcode.js:43-73 | every module ends set, the patterns stand as specified, and reading the zigzag through the mask gives the codeword bits, then zeros |
| Placement.Symbol.MapData | assets/js/qrcode.js:216-265 | on any odd square with column 6 full, every unset module is set, no set one changes, and the codewords read back |
| Placement.StreamHoldsCodewords | assets/js/qrcode.js:234-252 | the bits read back are the codewords' bits, high first, then false |
| Capacity.PatternTaken | assets/js/qrcode.js:57-66 | in every version the modules the patterns set outside column 6 are among the listed ones, whose number is known |
| Capacity.BitsLeft | assets/js/qrcode.js:216-265 | so at least the remaining number of bits comes back from the zigzag |
| Capacity.RoomForCodewords | assets/js/qrcode.js:1253-1510 | in all 160 rows of the table the codewords fit what is left |
| QrSymbol.CodewordCount | assets/js/qrcode.js:303-329 | the two loops yield exactly totalCodeCount codewords, so the array has no holes |
| QrSymbol.StreamBack | assets/js/qrcode.js:234-252 | eight bits at a time the stream gives the codewords back |
| QrSymbol.MakeSymbol | assets/js/qrcode.js:43-73 | fails exactly on an illegal character or an overflow; else the patterns stand, every module is set, and a reader told version, level and mask recovers the segments |
| QrCode.MakeCode | assets/js/qrcode.js:43-73 | fails exactly on an illegal character or an overflow; else every module is set and a scanner that is given nothing but the modules and their number finds version, level and mask in them and recovers the segments |
| Lzw.CodesFit | assets/js/qrcode.js:2153-2182 | for every pixel sequence all codes fit their widths, which stay between 3 and 12 |
| Lzw.DecodeInverts | assets/js/qrcode.js:2153-2179 | a decoder as in Appendix F of GIF89a, given the minimum code size and in step with the encoder, gives the pixels back |
| Lzw.RasterRoundTrip | assets/js/qrcode.js:2127-2187 | that decoder, whose clear code, end code and first table follow from the minimum code size 2, gives the pixels of the whole raster back, whatever the padding |
| Lzw.EndCodeReadableIff | assets/js/qrcode.js:2118-2187 | in the flushed bytes the decoder then finds the end code if and only if the table did not end with 16 entries |
| Lzw.LargeRastersEndWell | assets/js/qrcode.js:2127-2187 | it finds the end code of every raster of more than 66 pixels |
| Lzw.ElevenPixels | assets/js/qrcode.js:2127-2187 | eleven pixels whose end code it does not find |
| GifRaster.LzwTable.Add | assets/js/qrcode.js:2196-2202 | adds a key at the next code, and throws exactly on a known one |
| GifRaster.BitOutputStream.Write | assets/js/qrcode.js:2100-2116 | the stream grows by the code's bits, low first, and throws exactly on a code too long |
| GifRaster.BitOutputStream.Flush | assets/js/qrcode.js:2118-2122 | the bytes out hold all bits written, then fewer than eight zero bits |
| GifRaster.GetLZWRaster | assets/js/qrcode.js:2127-2187 | never throws, and its bytes decode to the pixels, with the end code found behind them if and only if the table did not end with 16 entries |
| Base64Stream.Encoder.WriteByte | assets/js/qrcode.js:1909-1919 | the text out is every character whose six bits are known, and the low bits of the uncleared buffer are those still pending |
| Base64Stream.Encoder.Flush | assets/js/qrcode.js:1921-1936 | the text is that of section 4 of RFC 4648 |
| Base64Stream.EncodeAll | assets/js/qrcode.js:2233-2240 | so is the text of the loop that makes the data URL |
| Base64Stream.Decoder.ReadByte | assets/js/qrcode.js:1958-1987 | the loop does what the recursive reader does on the rest of the text |
| Base64Stream.RoundTrip | assets/js/qrcode.js:1879-2006 | with any bits left in the buffer the encoder's text reads back as its bytes and then the end |
| Base64Stream.StaysAtEnd | assets/js/qrcode.js:1962-1976 | and every further read gives the end again |
| Base64Stream.SpacedRoundTrip | assets/js/qrcode.js:1969-1978 | white space anywhere in the text changes nothing |
| Crc32.StepLinear | scripts/pack-source.mjs:70-78 | one step of the reflected register is linear over xor |
| Crc32.FeedAtOnce | scripts/pack-source.mjs:79-83 | feeding bits one by one equals xoring them in at once and stepping |
| Crc32.TableStep | scripts/pack-source.mjs:79-83 | eight bit-at-a-time steps are one lookup and one shift |
| Crc32.Residue | scripts/pack-source.mjs:79-83 | every message followed by its bit-at-a-time CRC, low byte first, has CRC 0x2144df1c, and the empty message has CRC 0 |
| Crc32.CrcTable.constructor | scripts/pack-source.mjs:70-78 | every entry is eight steps of its index |
| Crc32.CrcTable.Crc | scripts/pack-source.mjs:79-83 | the table-driven loop computes the bit-at-a-time CRC, with that residue |
| Zip.BuildZip | scripts/pack-source.mjs:89-117 | the loop produces local records, central records with the running offset, and the end record |
| Zip.CommonFields | scripts/pack-source.mjs:93-103 | the shared header fields, with the smaller of the stored and the deflated body |
| Zip.LocalReads | scripts/pack-source.mjs:104 | a reader of the local header finds the fields it shares with the central one, and the deflated body with method 8 exactly when it is the shorter, else the data with method 0 |
| Zip.CentralReads | scripts/pack-source.mjs:105-108 | a reader of the central header finds versions, flags, method, times, CRC, sizes, name, attributes and local offset |
| Zip.ArchiveReads | scripts/pack-source.mjs:89-117 | a reader that checks both counts, the directory's size and that headers repeat each other gives the first entries, as many as a 16-bit count can say |
| Zip.ArchiveReadsBack | scripts/pack-source.mjs:89-117 | within the field limits all names, contents, times, modes and UTF-8 flags come back in order if and only if there are fewer than 65536 |
| Zip.NoneOfTooMany | scripts/pack-source.mjs:113-117 | 65536 empty entries are within every limit, and a reader finds none |
| StableJson.EscapeUnique | server/crypto.ts:254-261 | the escapes of two strings agree up to a closing quote only if the strings are equal |
| StableJson.SortKeeps | server/crypto.ts:258 | sorting by key keeps every key and value |
| StableJson.SortedUnique | server/crypto.ts:258 | sorted members are determined by what they map |
| StableJson.PrintUnique | server/crypto.ts:254-261 | two printed values followed by anything that may follow a value agree only if the values are equal, null standing for non-finite numbers |
| StableJson.TextsAgreeIff | server/crypto.ts:254-261 | two values print alike if and only if they are equal up to key order at every depth, null standing for non-finite numbers |
| StableJson.NonFiniteIsLost | server/crypto.ts:260 | a value prints like the one with nulls for its non-finite numbers, and equals it if and only if it has none |
| StableJson.TrimmedIs | server/crypto.ts:246-252 | so does trimming the UTF-16 text of a payload |
| StableJson.OwnsTextIff | server/crypto.ts:254-261 | a value shares its text with no different value if and only if it holds neither null nor a non-finite number, at any depth |
| StableJson.SamePayloadIff | server/crypto.ts:246-252 | two texts count as one payload exactly when equal once trimmed, or both parse to equal values |
| StableJson.SamePayloadIsEquivalence | server/crypto.ts:246-252 | an equivalence on all texts, for any parser |
| StableJson.HugeCountsAsNull | server/crypto.ts:246-261 | the payload 1e999 is accepted for the different payload null |
| StableJson.BraceCountsAsItself | server/crypto.ts:246-252 | an opening brace, which is no JSON, is accepted for itself with a space in front |
| History.Combine | scripts/bootstrap-import.mjs:276-289 | the loops compute the combination, with 90 rows without checks, else the remote window, else the local one, else 144 |
| History.LocalWins | scripts/bootstrap-import.mjs:283-286 | the row kept for a stamp is the last local one, or the last remote one if there is no local one |
| History.CombinedIs | scripts/bootstrap-import.mjs:283-289 | strictly increasing rows of the union, the newest ones, at most the cap exactly when it is positive, none dropped needlessly |
| History.ImportingAgainChangesNothing | scripts/bootstrap-import.mjs:276-289 | with a positive window a second import of the same series changes nothing |
| History.ImportingAgainIff | scripts/bootstrap-import.mjs:276-289 | with a negative one it changes nothing if and only if the series is empty, everything was dropped, or the series offers every stamp that was |
| History.SecondImportLosesAll | scripts/bootstrap-import.mjs:288-289 | one row a side and a window of -1, and the second import leaves nothing |
| Markdown.PassAdvances | assets/js/markdown.js:75-102 | a pass takes at least one line, but for a line that starts like a heading and is none, where it takes no line |
| Markdown.NeverEnds | assets/js/markdown.js:72-104 | on a stuck text no number of passes ends the rendering |
| Markdown.HaltsIff | assets/js/markdown.js:72-104 | rendering ends if and only if no line, at any quote depth, is stuck |
| Markdown.Render | assets/js/markdown.js:72-104 | terminates on every other text with the text that enough passes give |
| Markdown.CleanTextsHalt | assets/js/markdown.js:72-73 | a text whose only line terminator is the line feed after normalisation is not stuck |
| Markdown.StuckHeadings | assets/js/markdown.js:79-98 | every heading line with another terminator in its text is |
| MarkdownText.TextsApart | assets/js/markdown.js:72-104 | two texts with an empty line between render to the first's result and then the second's |
| MarkdownText.QuotationRenders | assets/js/markdown.js:82-87 | a text whose lines are all marked as quoted renders to its own result in a blockquote, at any depth |
| MarkdownText.HeadingRenders | assets/js/markdown.js:79-80 | a title behind one to six marks renders to a heading of that level |
| MarkdownText.ListRenders | assets/js/markdown.js:88-95 | items behind dashes or stars render to one list of them in order |
| MarkdownText.ParagraphRenders | assets/js/markdown.js:96-102 | lines that are no other construct render to one paragraph of them, trimmed and joined by spaces |
| Login.Store.TakeNonce | server/store.ts:102-107 | returns and removes the nonce in one step |
| Login.Store.GcNonces | server/store.ts:108-115 | removes exactly the expired nonces |
| Login.Store.GetSession | server/store.ts:125-132 | an unexpired session, and an expired one is removed |
| Login.OneSessionPerChallenge | server/index.ts:207-253 | over every interleaving each challenge opens at most one session, and only a minted challenge does |
| Login.OnePollPerSession | server/index.ts:207-265 | each session reaches at most one poll, one that named its challenge |
| Login.SessionsAreProved | server/index.ts:207-253 | over every run a session that is found belongs to the payment code its request proved for its challenge, was opened within five minutes of it, and ends twelve hours after that |
| Login.TakenOnce | server/store.ts:101-107 | a nonce once taken is never found again |
| Login.LoginCompletes | server/index.ts:207-265 | from every reachable state a login in time ends with the poll getting the session, whatever other events come between its five |

## Left out

- Elliptic-curve, BIP32, BIP39, BIP47 and signature libraries, deflate and random bytes: parameters, or values that are new each time.
- Tor, TLS, DNS, HTTP, file permissions and temporary names; rename is taken to be atomic.
- First loads that overlap: concurrent models start from a loaded state, as lazy loading is not re-entrant.
- Restarts: the store's answers to releases and settlements are not recorded, so nothing is claimed about what their callers were told before a crash.
- Index state files and identity files edited by hand, dates outside the range of Date, and the updated_at stamp.
- Names that every JavaScript object inherits, as keys of networks, nonces or sessions.
- Framing: chunks are decoded text, so a character cut by a chunk is not modelled; how long a request takes is a parameter.
- ShopLife: a save that lands is one whole snapshot; that overlapping saves write one temporary file, and may mix in it, is not modelled.
- The choice of a version and of a mask by penalty scores, test renderings of a symbol, and Kanji mode: easy members, or a search whose result any mask may be.
- The modules of a symbol are one map from cells to values instead of an array of row arrays; rows are never shared in the code.
- Text to bytes: byte segments and archive names are given as bytes.
- GIF headers and sub-blocks around the raster, and DOS time words of an archive.
- Zip.ArchiveReadsBack: does not cover archives beyond 4 GiB or longer names and contents, because their fields wrap; the code makes no check.
- JSON.parse is any parser whose objects have distinct keys and whose numbers are decimal text or non-finite.
- History: stamps are strings, the collation separates them, and the window is a whole number.
- Inline Markdown rules, whose tags may cross, are a parameter; characters are Unicode scalar values.
- Login: restarts between steps, and whether a proof verifies.
- The easy members around these: version comparison, field guards, badge sweeps, readiness, reconciliation reports and the user interface.
