# Verified models of a learning repository's hand-written cores

The repository collects Spring demos around a few pieces of hand-written logic.
This project models those pieces and proves what they are for.

- **QR codes** (`Gf256` to `QrReader`, ISO/IEC 18004:2015). Bytes form GF(256) with
  the primitive element alpha; the tables, the polynomial arithmetic and the
  Reed-Solomon blocks are built on it. Bit buffer, segments, padding, block
  interleaving, BCH words, function patterns, the zig-zag walk and the masks follow.
  The results meet in `QrReader`: a reader that knows the layout of the standard
  only, its blocks included, recovers the texts from the finished grid, exactly when
  each text survives UTF-8. `Capacity` counts the modules of a version, `BlockStandard`
  holds the standard's blocks, `RsBlocks` compares all rows of the program's table with
  them, and `TypeNumber` chooses the version. `ShortRow` is about the one row that
  differs. `StandardMask` has the standard's masks for the reader, and `StandardPatterns`
  compares the finished symbol with drawings of the patterns. `BchDistance`,
  `ErrorCorrection` and `DamagedSymbol` say what damage the words, the codewords and the
  whole symbol survive.
- **Prism's tokenizer** (the modules `Prism...`). Regular expressions are
  arbitrary: a pattern carries a function that says what `exec` answers. Whatever it
  answers, tokenizing ends, loses no character, and the highlighted markup shows
  the text; which patterns can make it throw is known exactly. `PrismPlain` says what the
  tokens are without greedy patterns, `PrismOffers` and `PrismGreedy` what a greedy
  pattern makes of them and that the earlier patterns are tried again behind its match.
- **The ZooKeeper lock** (`ZkNames`, `ZkLock`, `ZkLiveness`, `ZkQueue`) as a step system of
  any number of clients, each with its calling thread and its event thread.
- **The Redis lease lock** (`RedisLock`) with a clock, expiry and renewer threads that
  never end, and **order grabbing** (`OrderService`) under any exclusive lock.
- **The scroll engine of Waypoints**, **the hosts fixer script** and **the RocketMQ listener**
  (`Waypoints`, `HostsFixer`, `RetryListener`).

Code that changes things in place is a class or a method with loops, proved against
functions on values; the properties are lemmas about those functions. Array holes that
`shift` leaves in a QR polynomial count as 0, as they do in every XOR.

`dafny verify dfyconfig.toml` checks everything.

## Where the code and its stated intent differ

The models follow the code.

- The UTF-8 boundaries are compared with `>` instead of `>=` (qrcode.js:39, 44, 48), so
  U+0080 and U+0800 are not encoded as RFC 3629 asks; surrogates are encoded one by one.
  `Utf8.TextRoundTrip` gives the exact condition.
- The row of the block table for version 15, level H lacks its second size of blocks
  (qrcode.js:147): 11 blocks and 396 codewords instead of 18 and 655. A reader of the
  standard cannot read such symbols; `RsBlocks.BlocksStandard` and
  `ShortRow.GivesTextsBackIff` show that this is the only row it happens to. The table of
  limits does not know, so `makeCode` throws for texts that larger versions would hold;
  `QrReader.AsciiMakes` says which lengths fail.
- `_getTypeNumber` reads one row past the limits when a text is too long (qrcode.js:473),
  so its own error is never thrown for a level that exists. `_getUTF8Length` compares a number
  with the text itself (line 507), and counts 4 bytes for a surrogate pair that takes 6.
- `DistributedLock.lock` creates its latch after `tryLock` has returned
  (ZkLock.java:78-81). An event handled in between is lost; `ZkLiveness.CoverIff` shows
  that this is the only way to lose one, `ZkLiveness.EveryoneServedIff` what it costs.
- A lock is waited for by name, but index 0 is taken among the children of all names
  (ZkLock.java:117-145), so that clients of different names wait for each other:
  `ZkLock.ListAcquiresIff`, `ZkLiveness.OtherNameFirst`.
- `RedisLock.unlock` is meant not to release another's lock but reads and deletes in two
  steps (RedisLock.java:76-81), and the renewer reads the value once (line 93).
  `RedisLock.LeaseIff` and `RedisLock.LapseBreaks` say exactly when that fails.
- `matchGrammar` takes an empty match of a greedy pattern at the start of the text for an
  entry before the first (prism.js:3); `PrismThrows.TameIff` gives the exact condition.
- The listener hands a message to the error handler once its retries are used up, but another
  message that fails later in the batch makes it do so again
  (AbstractRocketMQListener.java:74-81); `RetryListener.ErrorsOnlyAtTheEnd` gives the exact
  condition.
- The hosts script drops a line that holds only the host name, and with it the name
  (fix-hosts.py:36-56); `HostsFixer.AtMostOneColumn` gives the exact condition.
- Waypoints' `refresh` and `handleScroll` disagree about a waypoint exactly at the scroll
  position (jquery.waypoints.js:296-299 and 416-419); `Waypoints.RefreshAgrees` gives the
  exact condition.
- `after` calls `beforeHandle`, not `afterHandle` (AbstractRocketMQListener.java:156), so
  nothing is claimed about a record of handled messages.

## Model

| member | source | states |
|---|---|---|
| Gf256.OrderOfAlpha | note/linux/kubeblog/Final/src/main/resources/static/lib/qrcode/qrcode.js:135-137 | no power of alpha below the 255th is 1: the doubling table runs through 255 different bytes |
| Gf256.ExpInjective | note/linux/kubeblog/Final/src/main/resources/static/lib/qrcode/qrcode.js:137 | the entries of the exponent table below 255 are distinct, so filling the logarithm table never overwrites |
| Gf256.LogExists | note/linux/kubeblog/Final/src/main/resources/static/lib/qrcode/qrcode.js:137 | every non-zero byte is a power of alpha, so the logarithm table has no hole |
| Gf256.ExpMod | note/linux/kubeblog/Final/src/main/resources/static/lib/qrcode/qrcode.js:134-135 | powers of alpha repeat with period 255: reducing the exponent modulo 255 does not change them |
| Gf256.MulExp | note/linux/kubeblog/Final/src/main/resources/static/lib/qrcode/qrcode.js:142 | adding logarithms is multiplying field elements |
| Gf256.MulAssociates | note/linux/kubeblog/Final/src/main/resources/static/lib/qrcode/qrcode.js:142 | the product by logarithms is associative |
| Gf256.MulDistributes | note/linux/kubeblog/Final/src/main/resources/static/lib/qrcode/qrcode.js:142 | the product by logarithms distributes over XOR: bytes form the field GF(256) |
| QrMath.ExpRecurrence | note/linux/kubeblog/Final/src/main/resources/static/lib/qrcode/qrcode.js:136 | the XOR of four earlier entries is the next power of alpha |
| QrMath.FillExpTable | note/linux/kubeblog/Final/src/main/resources/static/lib/qrcode/qrcode.js:135-136 | the two loops fill the table with the powers of alpha |
| QrMath.FillLogTable | note/linux/kubeblog/Final/src/main/resources/static/lib/qrcode/qrcode.js:137 | the loop inverts the exponent table |
| QrMath.QRMath.constructor | note/linux/kubeblog/Final/src/main/resources/static/lib/qrcode/qrcode.js:133-137 | the tables are complete |
| QrMath.QRMath.Glog | note/linux/kubeblog/Final/src/main/resources/static/lib/qrcode/qrcode.js:133-134 | throws exactly for 0, otherwise the exponent below 255 whose power the byte is |
| QrMath.QRMath.Gexp | note/linux/kubeblog/Final/src/main/resources/static/lib/qrcode/qrcode.js:134-135 | the power of alpha for any integer exponent, negative ones included |
| QrPolynomial.Construct | note/linux/kubeblog/Final/src/main/resources/static/lib/qrcode/qrcode.js:139-141 | leading zeros are dropped, `shift` zeros appended |
| QrPolynomial.Multiply | note/linux/kubeblog/Final/src/main/resources/static/lib/qrcode/qrcode.js:142-143 | succeeds exactly when no coefficient of either factor is 0, and is then the product over GF(256) without leading zeros |
| QrPolynomial.Mod | note/linux/kubeblog/Final/src/main/resources/static/lib/qrcode/qrcode.js:143-146 | succeeds exactly when no division step takes the logarithm of 0, and is then the remainder of long division; the recursion ends because each step shortens the polynomial |
| QrPolynomial.ErrorCorrectPolynomial | note/linux/kubeblog/Final/src/main/resources/static/lib/qrcode/qrcode.js:123-124 | the repeated multiply builds the generator up to degree 255 and throws beyond it |
| QrPolynomial.GeneratorRoots | note/linux/kubeblog/Final/src/main/resources/static/lib/qrcode/qrcode.js:123-124 | the generator vanishes at alpha^0 .. alpha^(n-1) |
| QrPolynomial.GeneratorNonZero | note/linux/kubeblog/Final/src/main/resources/static/lib/qrcode/qrcode.js:123-146 | all coefficients of the degree-n generator are non-zero if and only if n < 255 |
| QrPolynomial.Generator255 | note/linux/kubeblog/Final/src/main/resources/static/lib/qrcode/qrcode.js:123-124 | the degree-255 generator is x^255 + 1 |
| Polynomials.EvalProduct | note/linux/kubeblog/Final/src/main/resources/static/lib/qrcode/qrcode.js:142-143 | the value of a product is the product of the values |
| Polynomials.DivisionIdentity | note/linux/kubeblog/Final/src/main/resources/static/lib/qrcode/qrcode.js:143-146 | dividend plus remainder is quotient times divisor |
| Polynomials.RemainderStrip | note/linux/kubeblog/Final/src/main/resources/static/lib/qrcode/qrcode.js:143-146 | dropping leading zeros between the steps does not change the remainder |
| Polynomials.FewCoefficientsManyRoots | note/linux/kubeblog/Final/src/main/resources/static/lib/qrcode/qrcode.js:115-116 | a polynomial of length at most 255 with d consecutive roots and at most d non-zero coefficients is zero (the BCH bound) |
| ReedSolomon.CodewordIsMultiple | note/linux/kubeblog/Final/src/main/resources/static/lib/qrcode/qrcode.js:115-116 | data followed by its error-correction bytes is a multiple of the generator |
| ReedSolomon.SyndromesVanish | note/linux/kubeblog/Final/src/main/resources/static/lib/qrcode/qrcode.js:115-116 | data followed by its error-correction bytes is zero at alpha^0 .. alpha^(ec-1) |
| ReedSolomon.MinimumDistance | note/linux/kubeblog/Final/src/main/resources/static/lib/qrcode/qrcode.js:115-116 | two different codewords of at most 255 bytes differ in more than ec bytes |
| ReedSolomon.UniqueCorrection | note/linux/kubeblog/Final/src/main/resources/static/lib/qrcode/qrcode.js:115-116 | at most one codeword lies within ec / 2 wrong bytes of what was received |
| ReedSolomon.ParityUnique | note/linux/kubeblog/Final/src/main/resources/static/lib/qrcode/qrcode.js:115-116 | vanishing syndromes hold for the computed error-correction bytes and for no others |
| CreateBytes.EncodeBlock | note/linux/kubeblog/Final/src/main/resources/static/lib/qrcode/qrcode.js:115-116 | the error-correction bytes of a block are the remainder, zeros restored in front; fails exactly when a logarithm of 0 would be taken |
| CreateBytes.EncodeBlocks | note/linux/kubeblog/Final/src/main/resources/static/lib/qrcode/qrcode.js:115-116 | the block loop cuts the buffer into consecutive slices and computes every parity and both maxima |
| CreateBytes.WriteInterleaved | note/linux/kubeblog/Final/src/main/resources/static/lib/qrcode/qrcode.js:117-118 | one nested output loop appends the bytes column by column and touches nothing before the index |
| CreateBytes.CreateBytes | note/linux/kubeblog/Final/src/main/resources/static/lib/qrcode/qrcode.js:115-119 | succeeds exactly when every block is encodable; the output is all data bytes interleaved, then all error-correction bytes interleaved |
| CreateBytes.CodewordsReadBack | note/linux/kubeblog/Final/src/main/resources/static/lib/qrcode/qrcode.js:115-119 | the output has totalCodeCount bytes; de-interleaving it by the block sizes alone gives words whose syndromes vanish and whose data parts are the buffer |
| CodewordLayout.InterleaveLength | note/linux/kubeblog/Final/src/main/resources/static/lib/qrcode/qrcode.js:117-119 | the final index is the sum of the block lengths |
| CodewordLayout.DeinterleaveInterleave | note/linux/kubeblog/Final/src/main/resources/static/lib/qrcode/qrcode.js:117-119 | no byte is lost or moved: de-interleaving restores blocks of any mix of sizes |
| CodewordLayout.InterleaveDeinterleave | note/linux/kubeblog/Final/src/main/resources/static/lib/qrcode/qrcode.js:117-119 | every sequence of the right length is the interleaving of exactly its de-interleaving |
| CodewordLayout.InterleaveAt | note/linux/kubeblog/Final/src/main/resources/static/lib/qrcode/qrcode.js:117-119 | as long as all blocks reach column i, byte i of block k comes at i times the number of blocks plus k |
| ErrorCorrection.CodewordsAreCode | note/linux/kubeblog/Final/src/main/resources/static/lib/qrcode/qrcode.js:115-119 | all syndromes of all blocks of the output vanish |
| ErrorCorrection.Correctable | note/linux/kubeblog/Final/src/main/resources/static/lib/qrcode/qrcode.js:115-119 | with at most ec / 2 wrong bytes in every block, the drawn codewords are the only ones that fit what was received |
| QrBitBuffer.QRBitBuffer.constructor | note/linux/kubeblog/Final/src/main/resources/static/lib/qrcode/qrcode.js:149 | a new buffer holds no bits |
| QrBitBuffer.QRBitBuffer.Get | note/linux/kubeblog/Final/src/main/resources/static/lib/qrcode/qrcode.js:150 | reads exactly the bit appended at that index |
| QrBitBuffer.QRBitBuffer.PutBit | note/linux/kubeblog/Final/src/main/resources/static/lib/qrcode/qrcode.js:150-152 | appends one bit, growing the byte array when needed; earlier bits stay, later ones are 0 |
| QrBitBuffer.QRBitBuffer.Put | note/linux/kubeblog/Final/src/main/resources/static/lib/qrcode/qrcode.js:150 | appends the low bits of a number, most significant first |
| BitStrings.FromBitsToBits | note/linux/kubeblog/Final/src/main/resources/static/lib/qrcode/qrcode.js:150 | a number is read back from the bits put if and only if it fits the width |
| BitStrings.BytesToBitsToBytes | note/linux/kubeblog/Final/src/main/resources/static/lib/qrcode/qrcode.js:149-152 | bytes and bit strings of whole bytes correspond one to one |
| CreateData.WriteSegments | note/linux/kubeblog/Final/src/main/resources/static/lib/qrcode/qrcode.js:103 | mode, length field and bytes of every segment are appended in order; throws exactly for versions above 40 |
| CreateData.Terminate | note/linux/kubeblog/Final/src/main/resources/static/lib/qrcode/qrcode.js:110-111 | terminator if it fits, then zeros up to a whole byte |
| CreateData.PadBuffer | note/linux/kubeblog/Final/src/main/resources/static/lib/qrcode/qrcode.js:112-114 | pad bytes EC and 11 alternate until exactly the capacity is reached |
| CreateData.FillBuffer | note/linux/kubeblog/Final/src/main/resources/static/lib/qrcode/qrcode.js:103-114 | succeeds exactly when the bits fit, and then leaves exactly totalDataCount bytes: segments, terminator, padding |
| CreateData.Create | note/linux/kubeblog/Final/src/main/resources/static/lib/qrcode/qrcode.js:103-115 | which of the errors is thrown when, and otherwise the codewords of the filled buffer |
| CreateData.SegmentsRoundTrip | note/linux/kubeblog/Final/src/main/resources/static/lib/qrcode/qrcode.js:103-115 | parsing the filled buffer recovers all segments if and only if every length fits its length field |
| CreateData.PadBytes | note/linux/kubeblog/Final/src/main/resources/static/lib/qrcode/qrcode.js:112-114 | the bytes behind the segments and the terminator are EC, 11, EC, 11 and so on, EC first, up to the capacity |
| Utf8.ParseData | note/linux/kubeblog/Final/src/main/resources/static/lib/qrcode/qrcode.js:29-65 | the loop and the three unshifts: UTF-8 bytes, with EF BB BF in front exactly when some character took more than one byte |
| Utf8.DecodeEncoded | note/linux/kubeblog/Final/src/main/resources/static/lib/qrcode/qrcode.js:39-54 | a strict decoder recovers a code from its bytes if and only if it is none of U+0080, U+0800, U+10000 or a surrogate |
| Utf8.TextRoundTrip | note/linux/kubeblog/Final/src/main/resources/static/lib/qrcode/qrcode.js:29-65 | a string is read back from its bytes if and only if it contains none of those codes |
| Utf8.PrefixReadsOther | note/linux/kubeblog/Final/src/main/resources/static/lib/qrcode/qrcode.js:29-65 | no proper prefix of the bytes reads as the same string |
| Bch.GetBCHDigit | note/linux/kubeblog/Final/src/main/resources/static/lib/qrcode/qrcode.js:122-123 | the number of binary digits |
| Bch.Reduce | note/linux/kubeblog/Final/src/main/resources/static/lib/qrcode/qrcode.js:120-122 | the loop shared by both BCH functions ends, because the digit count falls, with the reduced value |
| Bch.GetBCHTypeInfo | note/linux/kubeblog/Final/src/main/resources/static/lib/qrcode/qrcode.js:120-121 | the masked format word |
| Bch.GetBCHTypeNumber | note/linux/kubeblog/Final/src/main/resources/static/lib/qrcode/qrcode.js:121-122 | the version word |
| Bch.ResidueIsRemainder | note/linux/kubeblog/Final/src/main/resources/static/lib/qrcode/qrcode.js:120-122 | the reduced value is shorter than the generator and differs from the start by a multiple of it |
| Bch.TypeInfoWordIsCode | note/linux/kubeblog/Final/src/main/resources/static/lib/qrcode/qrcode.js:120-121 | a word is the format word of data if and only if, unmasked, it starts with data and is a multiple of G15 |
| Bch.TypeNumberWordIsCode | note/linux/kubeblog/Final/src/main/resources/static/lib/qrcode/qrcode.js:121-122 | a word is the version word of data if and only if it starts with data and is a multiple of G18 |
| Bch.FormatDataBack | note/linux/kubeblog/Final/src/main/resources/static/lib/qrcode/qrcode.js:120-121 | unmasking and dropping the check bits recovers the five data bits |
| Bch.FormatZero | note/linux/kubeblog/Final/src/main/resources/static/lib/qrcode/qrcode.js:120-122 | the format word of data 0 is the mask of the standard itself |
| Bch.VersionDataBack | note/linux/kubeblog/Final/src/main/resources/static/lib/qrcode/qrcode.js:121-122 | dropping the check bits recovers the version |
| BchDistance.FormatApart | note/linux/kubeblog/Final/src/main/resources/static/lib/qrcode/qrcode.js:120-122 | the words of different format data differ in at least seven of their fifteen bits |
| BchDistance.VersionApart | note/linux/kubeblog/Final/src/main/resources/static/lib/qrcode/qrcode.js:122 | the words of different versions differ in at least eight of their eighteen bits |
| BchDistance.FormatUnique | note/linux/kubeblog/Final/src/main/resources/static/lib/qrcode/qrcode.js:120-122 | with up to three wrong bits only one format word fits |
| BchDistance.VersionUnique | note/linux/kubeblog/Final/src/main/resources/static/lib/qrcode/qrcode.js:122 | with up to three wrong bits only one version word fits |
| PositionTable.PatternPosition | note/linux/kubeblog/Final/src/main/resources/static/lib/qrcode/qrcode.js:120 | in every row of the table the alignment centres are at least five apart and inside the symbol |
| PositionTable.CentresStandard | note/linux/kubeblog/Final/src/main/resources/static/lib/qrcode/qrcode.js:120 | in every version the centres are the standard's: as many as its formula says, 6 first, then evenly apart from the far edge inwards, by the distances of its annex E |
| QrSymbol.QRCodeModel.AddData | note/linux/kubeblog/Final/src/main/resources/static/lib/qrcode/qrcode.js:87 | appends the segment and drops the cached codewords |
| QrSymbol.QRCodeModel.SetupPositionProbePattern | note/linux/kubeblog/Final/src/main/resources/static/lib/qrcode/qrcode.js:91 | draws one finder pattern with its light border, clipped at the edges, and changes nothing else |
| QrSymbol.QRCodeModel.SetupPositionAdjustPattern | note/linux/kubeblog/Final/src/main/resources/static/lib/qrcode/qrcode.js:96-97 | draws an alignment pattern around every centre that is still free |
| QrSymbol.QRCodeModel.SetupTimingPattern | note/linux/kubeblog/Final/src/main/resources/static/lib/qrcode/qrcode.js:93-96 | alternating modules in row and column 6 where nothing was drawn |
| QrSymbol.QRCodeModel.SetupTypeInfo | note/linux/kubeblog/Final/src/main/resources/static/lib/qrcode/qrcode.js:98-100 | both copies of the format word and the dark module; nothing else changes |
| QrSymbol.QRCodeModel.SetupTypeNumber | note/linux/kubeblog/Final/src/main/resources/static/lib/qrcode/qrcode.js:97-98 | both copies of the version word; nothing else changes |
| QrSymbol.QRCodeModel.DrawPatterns | note/linux/kubeblog/Final/src/main/resources/static/lib/qrcode/qrcode.js:88-91 | all function patterns together, module by module |
| QrSymbol.QRCodeModel.MapData | note/linux/kubeblog/Final/src/main/resources/static/lib/qrcode/qrcode.js:100-103 | the zig-zag loops fill exactly as the walk specification says |
| QrSymbol.QRCodeModel.MakeImpl | note/linux/kubeblog/Final/src/main/resources/static/lib/qrcode/qrcode.js:88-91 | draws the symbol of the current segments, from the cache if there is one; fails exactly when createData does |
| QrSymbol.QRCodeModel.GetBestMaskPattern | note/linux/kubeblog/Final/src/main/resources/static/lib/qrcode/qrcode.js:91-92 | the first of the eight masks whose trial symbol costs least, for any penalty function |
| QrSymbol.QRCodeModel.Make | note/linux/kubeblog/Final/src/main/resources/static/lib/qrcode/qrcode.js:88 | draws the final symbol with that mask |
| Placement.WalkIsBijective | note/linux/kubeblog/Final/src/main/resources/static/lib/qrcode/qrcode.js:100-103 | the walk visits every module outside column 6, and each exactly once |
| Placement.FillOnlyFree | note/linux/kubeblog/Final/src/main/resources/static/lib/qrcode/qrcode.js:100-103 | modules already set stay; no free module that the walk reaches stays null |
| Placement.ReadFill | note/linux/kubeblog/Final/src/main/resources/static/lib/qrcode/qrcode.js:100-103 | unmasking the cells in the same order gives the data bits, then zeros, for every mask |
| Placement.ReadLength | note/linux/kubeblog/Final/src/main/resources/static/lib/qrcode/qrcode.js:100-103 | one bit is read for every free module |
| Placement.MaskIsStandard | note/linux/kubeblog/Final/src/main/resources/static/lib/qrcode/qrcode.js:123 | each of the eight masks flips exactly the modules the standard's does, which are given by the residues of row and column, for every row and column; the reader uses the latter |
| Placement.WalkFollows | note/linux/kubeblog/Final/src/main/resources/static/lib/qrcode/qrcode.js:100-103 | the walk starts in the bottom right corner, and every place is followed by the one the standard asks for: left, then up or down the pair of columns, then over to the next pair |
| Patterns.FreeIffNone | note/linux/kubeblog/Final/src/main/resources/static/lib/qrcode/qrcode.js:88-100 | which modules are left for data does not depend on what the patterns show |
| Patterns.ColumnSixTaken | note/linux/kubeblog/Final/src/main/resources/static/lib/qrcode/qrcode.js:93-96 | column 6, which the walk leaves out, is completely covered by function patterns |
| QrReader.SymbolComplete | note/linux/kubeblog/Final/src/main/resources/static/lib/qrcode/qrcode.js:88-103 | no module of the finished symbol is null, and function modules are as drawn |
| QrReader.FormatReadsBack | note/linux/kubeblog/Final/src/main/resources/static/lib/qrcode/qrcode.js:98-100 | either copy of the format word yields the level and the mask, for every version |
| QrReader.VersionReadsBack | note/linux/kubeblog/Final/src/main/resources/static/lib/qrcode/qrcode.js:97-98 | either copy of the version word yields the version, from version 7 on |
| QrReader.DataReadsBack | note/linux/kubeblog/Final/src/main/resources/static/lib/qrcode/qrcode.js:88-103 | reading the finished symbol gives the codeword bits and then zeros, one bit per free module |
| StandardPatterns.FindersShown | note/linux/kubeblog/Final/src/main/resources/static/lib/qrcode/qrcode.js:88-91 | the finished symbol shows, module by module, the drawing of a finder pattern with its light border in each of the three corners, in every version |
| StandardPatterns.AlignmentsShown | note/linux/kubeblog/Final/src/main/resources/static/lib/qrcode/qrcode.js:96-97 | and the drawing of an alignment pattern around every pair of centres that is in no corner |
| StandardPatterns.TimingShown | note/linux/kubeblog/Final/src/main/resources/static/lib/qrcode/qrcode.js:93-96 | row 6 and column 6 are dark exactly in even places between the corners, alignment patterns included |
| StandardPatterns.DarkModuleShown | note/linux/kubeblog/Final/src/main/resources/static/lib/qrcode/qrcode.js:98-100 | the module beside the lower left finder pattern is dark |
| QrReader.BitsRoundTrip | note/linux/kubeblog/Final/src/main/resources/static/lib/qrcode/qrcode.js:29-115 | a reader of the bit stream gets all texts back if and only if each is encodable and fits its length field |
| Capacity.FreeModulesCount | note/linux/kubeblog/Final/src/main/resources/static/lib/qrcode/qrcode.js:88-103 | how many modules every version has for data, as a formula: all but the three corners with the format bits, the timing patterns, the alignment patterns and the version bits |
| RsBlocks.GetRSBlocks | note/linux/kubeblog/Final/src/main/resources/static/lib/qrcode/qrcode.js:147-149 | the two loops expand the row of a version and level; throws exactly when there is no such row |
| RsBlocks.BlocksFill | note/linux/kubeblog/Final/src/main/resources/static/lib/qrcode/qrcode.js:147-149 | for all 160 rows: every block is at most 255 bytes and smaller in error correction than that, the data bytes are those the limit assumes, the codewords go into the free modules, and they fill them to fewer than eight if and only if the row is not that of version 15, level H |
| RsBlocks.BlocksStandard | note/linux/kubeblog/Final/src/main/resources/static/lib/qrcode/qrcode.js:147-149 | the expanded row is the standard's list of blocks, block by block, if and only if it is not that of version 15, level H |
| TypeNumber.VersionFrom | note/linux/kubeblog/Final/src/main/resources/static/lib/qrcode/qrcode.js:470-502 | the first version whose limit the length keeps, and none if and only if the length exceeds every limit |
| TypeNumber.GetTypeNumber | note/linux/kubeblog/Final/src/main/resources/static/lib/qrcode/qrcode.js:469-503 | the loop over the limits finds that version; a text beyond the last limit makes it read past the table, and a lone surrogate makes encodeURI throw |
| TypeNumber.BytesWithinLength | note/linux/kubeblog/Final/src/main/resources/static/lib/qrcode/qrcode.js:505-508 | without surrogates the bytes, prefix included, are no more than the length counted for them |
| QrSymbol.CreateWords | note/linux/kubeblog/Final/src/main/resources/static/lib/qrcode/qrcode.js:103-115 | createData succeeds exactly when the segments fit the blocks of the version and level; the division never throws |
| QrReader.SymbolReads | note/linux/kubeblog/Final/src/main/resources/static/lib/qrcode/qrcode.js:88-103 | level, mask and all codewords read from the finished grid are those drawn, in every version and level |
| QrReader.TextsReadBack | note/linux/kubeblog/Final/src/main/resources/static/lib/qrcode/qrcode.js:29-119 | a reader with the standard's blocks, which takes level and mask from the grid, gets all texts back if and only if none contains U+0080, U+0800, U+10000 or a surrogate: every list of texts that fits, in every version and level whose row is not short |
| ShortRow.GivesTextsBackIff | note/linux/kubeblog/Final/src/main/resources/static/lib/qrcode/qrcode.js:29-149 | a version and level gives every list of encodable texts back to that reader, and no other, if and only if its row is not the short one |
| ShortRow.ShortUnreadable | note/linux/kubeblog/Final/src/main/resources/static/lib/qrcode/qrcode.js:103-149 | in the short row that reader gets back no texts at all whose bits end before byte 85 |
| ShortRow.LetterFails | note/linux/kubeblog/Final/src/main/resources/static/lib/qrcode/qrcode.js:103-149 | the text "a" at version 15, level H is such a text |
| DamagedSymbol.DrawnMayShow | note/linux/kubeblog/Final/src/main/resources/static/lib/qrcode/qrcode.js:88-119 | the symbol as drawn is within the reach of the corrections |
| DamagedSymbol.DamagedReadsBack | note/linux/kubeblog/Final/src/main/resources/static/lib/qrcode/qrcode.js:29-119 | with up to three wrong bits in a format word and ec / 2 wrong bytes in every block, no other level, mask and codewords fit the grid than those drawn, and they give the texts |
| QrReader.MakeCode | note/linux/kubeblog/Final/src/main/resources/static/lib/qrcode/qrcode.js:581-584 | choosing the version, adding the text and making the symbol: succeeds exactly when the bytes fit the version chosen; whatever mask is chosen, the grid reads back as the text if it contains none of those codes, and unless the row is short only then |
| QrReader.ShortNotEncodable | note/linux/kubeblog/Final/src/main/resources/static/lib/qrcode/qrcode.js:469-584 | a text put into the short row contains one of those codes |
| QrReader.MakesUnlessShort | note/linux/kubeblog/Final/src/main/resources/static/lib/qrcode/qrcode.js:469-584 | a text without surrogates, 3 added to its length, fits the version chosen for it unless that is the short row and the bytes exceed 129 |
| QrReader.AsciiMakes | note/linux/kubeblog/Final/src/main/resources/static/lib/qrcode/qrcode.js:469-584 | an ASCII text, 3 added to its length, is encoded if and only if it keeps the last limit and is not, at level H, between 192 and 217 characters long |
| PrismTokenizer.Tokenize | note/linux/kubeblog/Final/src/main/resources/static/lib/prism/prism.js:3 | the imperative tokenize, started on an array holding the text, computes its specification and ends for every behaviour of the regular expressions |
| PrismTokenizer.MatchGrammar | note/linux/kubeblog/Final/src/main/resources/static/lib/prism/prism.js:3 | the in-place loops over keys and patterns, with target key and early returns, compute their specification on the shared array |
| PrismTokenizer.WalkPattern | note/linux/kubeblog/Final/src/main/resources/static/lib/prism/prism.js:3 | the loop of one pattern over the spliced array, with index and position |
| PrismTokenizer.FindReach | note/linux/kubeblog/Final/src/main/resources/static/lib/prism/prism.js:3 | the loop that finds the entries a greedy match reaches over |
| PrismTokenizer.Replace | note/linux/kubeblog/Final/src/main/resources/static/lib/prism/prism.js:3 | the splice, the token and the one-shot recursion with the current key as target |
| PrismLossless.TokensLossless | note/linux/kubeblog/Final/src/main/resources/static/lib/prism/prism.js:3 | for every text, grammar and oracle the resulting array stands for the text, even after an early stop or a throw, and has at most two entries more than the text has characters; no entry past the end is ever read |
| PrismLossless.MatchedKeeps | note/linux/kubeblog/Final/src/main/resources/static/lib/prism/prism.js:3 | a run from any index keeps the text, the entries before the index and a token at it |
| PrismLossless.ScanKeeps | note/linux/kubeblog/Final/src/main/resources/static/lib/prism/prism.js:3 | position is the length of the entries before the index all through the walk; the text is kept |
| PrismLossless.FindSound | note/linux/kubeblog/Final/src/main/resources/static/lib/prism/prism.js:3 | a greedy match, lookbehind removed, lies inside the text of exactly the entries it replaces |
| PrismLossless.ReachSound | note/linux/kubeblog/Final/src/main/resources/static/lib/prism/prism.js:3 | the reach loop keeps both positions equal to the text before their entries and stops at or after the end of the match |
| PrismGrammar.MergeIs | note/linux/kubeblog/Final/src/main/resources/static/lib/prism/prism.js:3 | merging `rest`: its last entry of every key is there, in the place of an entry with that key if there was one; the other entries stay in place, and there are no more |
| PrismPlain.PlainTokens | note/linux/kubeblog/Final/src/main/resources/static/lib/prism/prism.js:3 | whatever is nested in them, patterns that are not greedy make of every text what a list program without indexes and splicing makes: pattern by pattern, the first match in each string becomes a token and what lies behind it is searched next; also when it throws or stops early |
| PrismGreedy.ReachIff | note/linux/kubeblog/Final/src/main/resources/static/lib/prism/prism.js:3 | the reach loop finds exactly the entries from the one where the match starts to the first that begins at or after its end and is a token or follows a greedy one |
| PrismGreedy.WalkedTokens | note/linux/kubeblog/Final/src/main/resources/static/lib/prism/prism.js:3 | for every grammar: each pattern walks in turn along what the earlier ones made of the text, and after each match that does not replace exactly one entry, every pattern of every earlier key, in order, is offered once the string that follows |
| PrismGreedy.GreedyOffers | note/linux/kubeblog/Final/src/main/resources/static/lib/prism/prism.js:3 | if the greedy pattern finds nothing more after its first match, the result is the entries up to its token and what those offers make of the rest |
| PrismOffers.ScanOffers | note/linux/kubeblog/Final/src/main/resources/static/lib/prism/prism.js:3 | the walk of any pattern in one-shot mode is one offer to the first string, greedy patterns included |
| PrismGreedy.OfferedString | note/linux/kubeblog/Final/src/main/resources/static/lib/prism/prism.js:3 | a pattern that is not greedy, or that is offered the last string, turns its first match there into a token and leaves the string alone if there is none |
| PrismGreedy.EarlierPatternTried | note/linux/kubeblog/Final/src/main/resources/static/lib/prism/prism.js:3 | a match of an earlier pattern in the text that a greedy match over several entries leaves is a token in the result, directly behind the greedy token and the text before the match |
| PrismGreedy.CommentAfterString | note/linux/kubeblog/Final/src/main/resources/static/lib/prism/prism.js:3 | for any three non-empty parts of a text: a comment that starts inside a string gives way to the string, and what the string leaves of it is a comment again |
| PrismSafety.TokensAreMatches | note/linux/kubeblog/Final/src/main/resources/static/lib/prism/prism.js:3 | every token carries key, alias and greediness of a pattern that matched its text, and its content is that text or its tokenization by `inside` |
| PrismSafety.TokensSafe | note/linux/kubeblog/Final/src/main/resources/static/lib/prism/prism.js:3 | nothing throws when all greedy patterns are tame: in no search they are used for do they match the empty string at the start or lack their lookbehind group; names without double quotes make well-formed tags |
| PrismThrows.UntameThrows | note/linux/kubeblog/Final/src/main/resources/static/lib/prism/prism.js:3 | whatever bad match a greedy pattern finds, a grammar that splits the text there first makes matchGrammar throw on it |
| PrismThrows.TameIff | note/linux/kubeblog/Final/src/main/resources/static/lib/prism/prism.js:3 | a pattern after tame ones makes tokenizing throw for some of them and some text if and only if it is not tame |
| PrismThrows.EmptyMatchThrows | note/linux/kubeblog/Final/src/main/resources/static/lib/prism/prism.js:3 | a greedy pattern that matches the empty string makes matchGrammar throw on every text of two characters or more |
| PrismTokens.VisibleEncoded | note/linux/kubeblog/Final/src/main/resources/static/lib/prism/prism.js:3 | encode is undone by a browser, except that non-breaking spaces become plain |
| PrismTokens.MarkupShowsText | note/linux/kubeblog/Final/src/main/resources/static/lib/prism/prism.js:3 | stringify of encoded tokens displays the text of the tokens |
| PrismTokens.TokenMarkup | note/linux/kubeblog/Final/src/main/resources/static/lib/prism/prism.js:3 | a token becomes a span whose class attribute, split at spaces, is "token", its type and its aliases, when these contain no spaces |
| PrismSafety.HighlightShowsText | note/linux/kubeblog/Final/src/main/resources/static/lib/prism/prism.js:3 | highlight, without hooks, displays exactly the highlighted text in a browser that follows double quotes inside tags, for every grammar whose names contain none |
| ZkNames.SameNameOrder | src/main/java/com/ljt/study/zk/lock/ZkLock.java:94-118 | children of one name sort as their sequence numbers, whatever other names share the directory |
| ZkNames.PathInjective | src/main/java/com/ljt/study/zk/lock/ZkLock.java:94-120 | different nodes have different paths, so indexOf finds the own one |
| ZkLock.StepSafe | src/main/java/com/ljt/study/zk/lock/ZkLock.java:77-156 | every step of every client keeps the safety invariant |
| ZkLock.MutualExclusion | src/main/java/com/ljt/study/zk/lock/ZkLock.java:77-156 | in every reachable state of any number of clients a holder owns the smallest live node of its name, and two holders have different names |
| ZkLock.ListAcquiresIff | src/main/java/com/ljt/study/zk/lock/ZkLock.java:117-145 | isMinPath lets a client through exactly when no live node of any name sorts before its own |
| ZkLiveness.CoverIff | src/main/java/com/ljt/study/zk/lock/ZkLock.java:77-155 | a step leaves every waiting client with a watch, an event or a busy event thread, except exactly the step that finds it first before its latch is created |
| ZkLiveness.LostForever | src/main/java/com/ljt/study/zk/lock/ZkLock.java:78-84 | after the step that loses a wake-up its client never acquires, whatever follows |
| ZkLiveness.LostHappens | src/main/java/com/ljt/study/zk/lock/ZkLock.java:78-155 | a run of two clients in which the wake-up is lost |
| ZkLiveness.RunsEnd | src/main/java/com/ljt/study/zk/lock/ZkLock.java:77-156 | every run of n clients is finite, with an explicit bound on its steps |
| ZkLiveness.NoDeadlock | src/main/java/com/ljt/study/zk/lock/ZkLock.java:77-156 | while a node is live and nobody is stuck, some step is possible |
| ZkLiveness.EveryoneServed | src/main/java/com/ljt/study/zk/lock/ZkLock.java:77-156 | a run without the lost step that cannot go on has let every client acquire and release |
| ZkLiveness.EveryoneServedIff | src/main/java/com/ljt/study/zk/lock/ZkLock.java:77-156 | a run that cannot go on has let every client acquire and release if and only if it lost no wake-up |
| ZkLiveness.ListPossible | src/main/java/com/ljt/study/zk/lock/ZkLock.java:117-120 | getChildren never blocks a client |
| ZkLiveness.OtherNameFirst | src/main/java/com/ljt/study/zk/lock/ZkLock.java:77-145 | for any two names that sort that way: a run in which the client that is first of its own name has to wait for a node of the other |
| ZkQueue.AlwaysQueue | src/main/java/com/ljt/study/zk/lock/ZkLock.java:77-156 | with one name, in every reachable state no live node lies strictly between a waiting client's watched node and its own |
| ZkQueue.WakesAtMostOne | src/main/java/com/ljt/study/zk/lock/ZkLock.java:132-155 | with one name, two clients never watch the same node: a delete wakes at most one |
| ZkQueue.RetryShrinks | src/main/java/com/ljt/study/zk/lock/ZkLock.java:135-140 | with one name, isMinPath starts over only when fewer nodes are ahead than it saw before |
| RedisLock.StepSafe | src/main/java/com/ljt/study/redis/lock/custom/RedisLock.java:45-99 | every step with prompt renewals keeps the lease invariant, leftover renewers included |
| RedisLock.KeptIff | src/main/java/com/ljt/study/redis/lock/custom/RedisLock.java:45-99 | a step leaves every holder with its own unexpired key, except exactly one that lets time run past the key's expiry |
| RedisLock.LeaseIff | src/main/java/com/ljt/study/redis/lock/custom/RedisLock.java:45-99 | in any run every holder owns the key all the time if and only if no lease lapses |
| RedisLock.KeptExcludes | src/main/java/com/ljt/study/redis/lock/custom/RedisLock.java:45-81 | then at most one lock object is in its critical section, and unlock reads its own value and removes its own key |
| RedisLock.LapseBreaks | src/main/java/com/ljt/study/redis/lock/custom/RedisLock.java:45-81 | after any lapse the tryLock of any other lock object makes a second holder, and the late delete of the first removes the second one's key |
| RedisLock.PromptNeverLapses | src/main/java/com/ljt/study/redis/lock/custom/RedisLock.java:91-98 | no lease lapses while every holder's renewer has run less than DEF_TIME ago |
| RedisLock.LeaseExclusion | src/main/java/com/ljt/study/redis/lock/custom/RedisLock.java:45-99 | so with prompt renewals, leftover renewers included: a holder's key never lapses, at most one lock object is in its critical section, and unlock removes the holder's own key |
| RedisLock.RenewerNeverEnds | src/main/java/com/ljt/study/redis/lock/custom/RedisLock.java:91-98 | a renewer that has read its own value once loops for the rest of every run |
| RedisLock.LateUnlock | src/main/java/com/ljt/study/redis/lock/custom/RedisLock.java:76-81 | a run with a lapse in which unlock deletes the key of another holder |
| RedisLock.UnlockDeletesIff | src/main/java/com/ljt/study/redis/lock/custom/RedisLock.java:76-81 | reading in unlock changes no key, and a delete before the next tryLock can follow it if and only if the key was there, unexpired, and its own |
| OrderService.StepSafe | src/main/java/com/ljt/study/redis/lock/service/OrderService.java:36-64 | every admitted step keeps the invariant and takes no order back |
| OrderService.GrantedOnce | src/main/java/com/ljt/study/redis/lock/service/OrderService.java:36-64 | under any lock service with exclusion per name, an order is granted at most once, exactly once when a call for it has finished, never when it does not exist, and stays taken |
| OrderService.TwiceWithoutLock | src/main/java/com/ljt/study/redis/lock/service/OrderService.java:36-44 | without exclusion two calls are both granted the order |
| Waypoints.CountingLaw | note/linux/kubeblog/Final/src/main/resources/static/lib/waypoints/jquery.waypoints.js:286-304 | over any run of positions forward moves minus backward moves is the change of side, and directions alternate |
| Waypoints.ScrolledCalls | note/linux/kubeblog/Final/src/main/resources/static/lib/waypoints/jquery.waypoints.js:269-315 | one scroll calls a continuous, enabled waypoint once, in the direction of the scroll, when it crosses the trigger point, and otherwise not at all |
| Waypoints.EngineLaw | note/linux/kubeblog/Final/src/main/resources/static/lib/waypoints/jquery.waypoints.js:269-315 | the callbacks of such a waypoint over any run of handleScroll calls are its moves: they alternate and balance to the change of side |
| Waypoints.QueuedIff | note/linux/kubeblog/Final/src/main/resources/static/lib/waypoints/jquery.waypoints.js:291-304 | exactly the waypoints of the group that changed sides are queued |
| Waypoints.SortSorts | note/linux/kubeblog/Final/src/main/resources/static/lib/waypoints/jquery.waypoints.js:483-489 | the queue is fired in trigger-point order of the direction, with nothing lost or added |
| Waypoints.Group.QueueTrigger | note/linux/kubeblog/Final/src/main/resources/static/lib/waypoints/jquery.waypoints.js:554-556 | appends to one queue only |
| Waypoints.Group.FlushTriggers | note/linux/kubeblog/Final/src/main/resources/static/lib/waypoints/jquery.waypoints.js:523-536 | calls back the continuous waypoints and the last one of every queue in order, then empties all queues |
| Waypoints.Group.Next | note/linux/kubeblog/Final/src/main/resources/static/lib/waypoints/jquery.waypoints.js:539-544 | the neighbour after the waypoint in trigger-point order, or null for the last |
| Waypoints.Group.Previous | note/linux/kubeblog/Final/src/main/resources/static/lib/waypoints/jquery.waypoints.js:547-551 | the neighbour before the waypoint in trigger-point order, or null for the first |
| Waypoints.Context.QueueAxis | note/linux/kubeblog/Final/src/main/resources/static/lib/waypoints/jquery.waypoints.js:286-304 | one axis: every crossed waypoint is queued on its group in the direction of the scroll |
| Waypoints.Context.HandleScroll | note/linux/kubeblog/Final/src/main/resources/static/lib/waypoints/jquery.waypoints.js:269-315 | both axes: of every group the queues and the callbacks afterwards are those of one scroll; groups with a crossed waypoint fire and are emptied, all others are unchanged |
| Waypoints.ScrollOrder | note/linux/kubeblog/Final/src/main/resources/static/lib/waypoints/jquery.waypoints.js:269-315 | the callbacks of one scroll for a group: down and right in rising order of trigger points, up and left in falling order; a continuous waypoint always, another only as the last in that order, a disabled one never, nobody else, and nobody left out |
| Waypoints.RefreshAgrees | note/linux/kubeblog/Final/src/main/resources/static/lib/waypoints/jquery.waypoints.js:415-432 | refresh queues what the change of side asks for if and only if not exactly one of the two trigger points is the scroll position |
| HostsFixer.FixHosts | note/linux/wws/dockerfile/dockerfile-canal.admin/image/alidata/init/fix-hosts.py:17-61 | the reversed loop with its carried line computes the rewriting |
| HostsFixer.FixColumns | note/linux/wws/dockerfile/dockerfile-canal.admin/image/alidata/init/fix-hosts.py:36-49 | the inner loop keeps the host name once, unless the line is that of 127.0.0.1 or a line kept it before |
| HostsFixer.Idempotent | note/linux/wws/dockerfile/dockerfile-canal.admin/image/alidata/init/fix-hosts.py:17-61 | running the rewriting twice is running it once |
| HostsFixer.AtMostOneColumn | note/linux/wws/dockerfile/dockerfile-canal.admin/image/alidata/init/fix-hosts.py:26-56 | afterwards at most one column outside the comments is the host name, and one is if and only if the last line that can keep it has another column besides |
| HostsFixer.UntouchedSurvive | note/linux/wws/dockerfile/dockerfile-canal.admin/image/alidata/init/fix-hosts.py:27-35 | comments and lines that do not mention the host survive in order |
| HostsFixer.LinesRewritten | note/linux/wws/dockerfile/dockerfile-canal.admin/image/alidata/init/fix-hosts.py:17-61 | for every file, line by line: a comment or a line without the name stays, a line with it becomes one line with its other columns in order, with the name where it stood first if it is the last line that may keep it, and vanishes exactly when one column would remain |
| HostsFixer.ContainsIff | note/linux/wws/dockerfile/dockerfile-canal.admin/image/alidata/init/fix-hosts.py:27 | find answers that the name is there exactly when it stands somewhere in the line |
| HostsFixer.SplitJoin | note/linux/wws/dockerfile/dockerfile-canal.admin/image/alidata/init/fix-hosts.py:31-55 | joined columns split into the same columns |
| HostsFixer.SplitWoven | note/linux/wws/dockerfile/dockerfile-canal.admin/image/alidata/init/fix-hosts.py:31 | words set apart by any white space split into exactly those words |
| HostsFixer.RstripIs | note/linux/wws/dockerfile/dockerfile-canal.admin/image/alidata/init/fix-hosts.py:19 | all white space at the end of a line goes, and nothing else |
| RetryListener.Listener.OnMessage | src/main/java/com/ljt/study/rocketmq/core/AbstractRocketMQListener.java:65-82 | which of the four outcomes a message has |
| RetryListener.Listener.ConsumeMessage | src/main/java/com/ljt/study/rocketmq/core/AbstractRocketMQListener.java:85-112 | messages are processed up to the first that throws; success exactly when none does |
| RetryListener.Listener.GetMaxReconsumeTimes | src/main/java/com/ljt/study/rocketmq/core/AbstractRocketMQListener.java:267-273 | the cached limit is the configured one |
| RetryListener.Listener.Deliver | src/main/java/com/ljt/study/rocketmq/core/AbstractRocketMQListener.java:65-112 | whatever the handler does, a batch succeeds within the bound set by its least reconsumeTimes |
| RetryListener.SuccessfulDelivery | src/main/java/com/ljt/study/rocketmq/core/AbstractRocketMQListener.java:65-112 | on the successful delivery every message was handled, skipped or passed to the error handler, once and in order |
| RetryListener.DeliverySays | src/main/java/com/ljt/study/rocketmq/core/AbstractRocketMQListener.java:65-112 | in every delivery, whatever the outside code does: a message is skipped if and only if beforeHandle refuses it, handled if and only if it is not refused and handling succeeds, thrown or passed to the error handler by its count if and only if it fails; the events are those of the messages up to the first thrown |
| RetryListener.EveryEventSays | src/main/java/com/ljt/study/rocketmq/core/AbstractRocketMQListener.java:65-112 | every event of any number of deliveries is one of those |
| RetryListener.ErrorsOnlyAtTheEnd | src/main/java/com/ljt/study/rocketmq/core/AbstractRocketMQListener.java:74-81 | whatever the handler does, no failing delivery passes a message to the error handler if and only if no message below the limit follows one with more reconsumeTimes |
| RetryListener.ErrorsAtMostOnce | src/main/java/com/ljt/study/rocketmq/core/AbstractRocketMQListener.java:65-112 | up to the delivery that succeeds no message goes to the error handler twice, whatever the handler does, under exactly the same condition |

## Left out

- TypeNumber.GetTypeNumber: whether JavaScript finds the text, read as a number, equal to its own length is a parameter, for both outcomes.
- QrReader.TextsReadBack: nothing is said about texts in the short row whose bits reach byte 85 or beyond, except that `ShortRow.GivesTextsBackIff` rules out a general promise.
- QrReader.MakeCode: for a text in the short row, which cannot be encoded, it is not shown that the reader gets something else; levels other than the four that exist, drawing on canvas, SVG or a table are not modelled.
- QrSymbol.QRCodeModel.GetBestMaskPattern: the penalty scoring is an arbitrary function of the grid.
- QrSymbol.QRCodeModel.MakeImpl: `null` modules before the first drawing are an empty grid.
- CreateData.WriteSegments: only byte segments, the only kind the program creates.
- PrismTokenizer.Tokenize: a grammar is a finite tree, so grammars that contain themselves through `inside` or `rest` are not modelled; merging `rest` gives a new grammar value instead of changing the old one.
- PrismGrammar.Exec: answers outside the text or before lastIndex count as no match, as no regular expression gives them; flags are part of the oracle.
- PrismGreedy.GreedyOffers: the first match of the last pattern; `PrismGreedy.WalkedTokens` has the general case.
- PrismGreedy.EarlierPatternTried: one earlier pattern, and a greedy one only for a string that is last; `PrismGreedy.GreedyOffers` has the case of several.
- PrismSafety.HighlightShowsText: no hooks are installed, so no attributes are added to the tags.
- The Prism language tables, plugins, worker and DOM code.
- ZkLock.MutualExclusion: sessions do not expire, waiting threads are not interrupted, each lock object acquires once, and sequence numbers stay within a Java int.
- ZkLiveness.EveryoneServed: `tryLock` is used through `lock`; a client that gives up after `tryLock` would leave its node behind.
- RedisLock.LeaseIff: sleeping between attempts and the timed `tryLock` only repeat `tryLock`.
- OrderService.GrantedOnce: lock names are identified with order ids, and the random sleep is any delay.
- Waypoints.Context.HandleScroll: the order of callbacks between different groups, and callbacks that change waypoints, are not modelled.
- Waypoints.RefreshAgrees: only the decision of `refresh` is modelled; measuring offsets and the delayed flush are not.
- HostsFixer.FixHosts: the host name is a non-empty word, as a host name is; reading, copying and moving files are not modelled.
- RetryListener.Listener.Deliver: the broker raises reconsumeTimes of the whole batch by one after a failure; delays and acknowledgement indexes are not modelled.
- Spring wiring, configuration, DTOs, the MQTT, Kafka and RabbitMQ demos, DingTalk batching and the Curator and Redisson locks: calls into libraries that are not part of this model, or easy partition and map facts.
