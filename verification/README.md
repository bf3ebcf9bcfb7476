# Verified models of bitcoin-lisp's browser and script algorithms

bitcoin-lisp is a Bitcoin node with a browser interface. This project models, in Dafny, the
parts of the repository that compute something intricate, in the form the source gives them,
and proves what they are for.

**The QR encoder** (`ui/js/qr.js`). The tables of GF(256) are proved against a carry-less product
defined without them; Reed-Solomon parity makes a codeword, the only one, at distance n + 1;
format and version words are BCH codewords; the ragged blocks are interleaved and recovered; the
zigzag visits every module outside the timing column once; each mask is fixed by laws that do not
use its formula; the finished symbol has its finder rings, timing lines and alignment patterns; the
matrix of every version has exactly the room for its codewords; the penalty counts what it is said
to count. Together they give the theorem that a reader who sees only the modules recovers every byte
string that fits, also from a symbol with as many wrong bytes as the parity can correct and three
wrong format modules.
Modules: Bytes, BinaryPolynomials, Bch, BchWords, Gf256, GfTables, GfPolynomials, ReedSolomon,
QrTables, BlockTable, CodewordStream, StreamLayout, Grids, Masks, Placement, QrMatrix, QrBase,
SymbolGeometry, Capacity, Penalty, PenaltyMeaning, QrEncode, FinishedSymbol, ErrorCorrection.

**The Mersenne Twister** (`tests/data/minisketch_cpp_vectors.cpp`). A block is regenerated in place;
the outputs are those of the infinite recurrence, whose twist and tempering are linear maps given bit
by bit; different seeds leave different states. Modules: MersenneTwister, TwisterLaws.

**The console** (`ui/js/console.js`). The tokenizer undoes writing in either kind of quotes and cuts
a line at its white space, every written command parses back, and the bounded deduplicating history
refines a function of all pushed commands. Modules: CommandLine, CommandNesting, CommandWriting,
CommandParams, Digits, History.

**Argument declarations** (`scripts/gen-rpc-arg-names.py`). Declarations are written as C++ brace
literals, with comments and white space before their fields, and read by two independent readers: a
recursive one, proved to return the tree, and a flat one, proved to agree with it. Modules:
SourceScanner, SourceText, SourceFields, SourceLiterals, ArgParser, ArgDeclaration, ArgOptions,
ArgReading, ArgRoundTrip, FlatReader, FlatReading, ReaderAgreement.

**Two concurrent protocols**, as state machines over every interleaving with classes for the
source's own functions: the poll chain (`ui/js/app.js`) and borrowing an unlock
(`ui/js/wallet-crypt.js`, `ui/js/wallet.js`). Modules: PollChain, UnlockProtocol, UnlockOutcomes.

**Amounts** (`ui/js/wallet.js`, `src/rpc/amounts.lisp`). What every accepted text is worth, what the
node's own scan makes of it, recipients, and a send call whose payments the node reads as the total
shown for review. Modules: Amounts, FixedPoint, FixedPointScan, Recipients.

Wrappers and FiniteSets hold what several modules share. Imperative source is modelled by methods
and classes, each proved equal to a specification function or against its own postcondition; the
theorems are about those functions.

Some properties have exceptions in the code. Each has its exact condition and a run or text that
shows it:

- `pollEpoch` is documented as invalidating in-flight ticks, but a stale tick that ends
  unauthorized still logs the current session out (PollChain.StaleUnauthorizedLogsOut). Every other
  end of a stale tick is inert (PollChain.StaleTickHarmless).
- `promptUnlock` is documented to settle exactly once. It settles at most once: a form in flight
  that closes the panel after a logout drops the callback unfired, and the call waits for ever
  (UnlockProtocol.LostExactly, UnlockProtocol.BackupLosesPrompt).
- A prompt's form that succeeds after another prompt has taken over the panel closes that one
  (UnlockProtocol.SubmitSparesOthers, UnlockProtocol.LateSubmitReached).
- An unlock granted after its prompt has been cancelled is given back by nobody
  (UnlockProtocol.UnlockGivenBack, UnlockProtocol.UnlockLeftBehind).
- The argument reader takes an argument for hidden when its oneline description spells the hidden
  mark (ArgRoundTrip.RoundTrip, ArgRoundTrip.DecoyExample).
- `skip_trivia` looks for the end of a block comment from its first character, so `/*/` is a whole
  comment to it (SourceScanner.BlockCommentEnds, SourceScanner.BlockCommentExample).
- `_string_literal` does not skip comments: a literal spelled in one becomes part of the text
  (SourceLiterals.CommentRead).
- The send form takes amounts with leading zeros, such as `01`, and forwards them; the node refuses
  them (Amounts.AmountReachesNode, Amounts.LeadingZeroRefused, Recipients.CallPaysReviewTotal).

## Model

| member | source | states |
|---|---|---|
| Gf256.MulCommutes | ui/js/qr.js:106-119 | multiplication, defined without tables as a carry-less product reduced modulo 0x11d, is commutative |
| Gf256.MulAssociates | ui/js/qr.js:106-119 | that product is associative, for all bytes |
| Gf256.MulAddRight | ui/js/qr.js:106-119 | it distributes over exclusive or |
| Gf256.AlphaPrimitive | ui/js/qr.js:110-119 | no power of 2 with exponent 1 to 254 is 1, so the table loop meets every nonzero byte once |
| Gf256.PowAlphaInjective | ui/js/qr.js:110-119 | the 255 entries written to the exp table are pairwise distinct, so no log entry is overwritten |
| Gf256.DiscreteLog | ui/js/qr.js:108-119 | every nonzero byte is a power of 2 below 255: the log table has no gap |
| Gf256.MulInverse | ui/js/qr.js:106-119 | every nonzero byte has an inverse: GF(256) is a field |
| Gf256.NoZeroDivisors | ui/js/qr.js:128-140 | a product is zero exactly when a factor is, which is what the tests for zero around the table lookups rely on |
| GfTables.Tables.constructor | ui/js/qr.js:108-119 | both tables as built: exp holds the powers of 2 twice over and log inverts it on the nonzero bytes |
| GfTables.Tables.FillPowers | ui/js/qr.js:111-117 | the first loop writes 2^j to exp[j] and j to log[2^j], for every j below 255 |
| GfTables.Tables.RepeatPowers | ui/js/qr.js:118 | the second loop continues the powers to all 512 entries |
| GfTables.Tables.TimesPower | ui/js/qr.js:128-129 | a lookup at log[a] + i stays in the doubled table and is the field product a * 2^i, also for a = 0 |
| GfTables.Tables.Times | ui/js/qr.js:138-140 | a lookup at log[a] + log[b] stays in the doubled table and is the carry-less product of a and b modulo 0x11d |
| GfTables.DoubleIsXtime | ui/js/qr.js:115-116 | shifting and conditionally subtracting 0x11d is multiplication by x in the field |
| GfPolynomials.MulIsRemainder | ui/js/qr.js:106-119 | two bytes multiply in the field as their polynomials over GF(2) do, divided by 0x11d: the same carry-less product and division as for the format codes |
| GfPolynomials.IndexAdd | ui/js/qr.js:106-119 | adding bytes is adding polynomials |
| ReedSolomon.BuildGenerator | ui/js/qr.js:124-131 | the nested in-place loops build the polynomial GenPoly |
| ReedSolomon.MultiplyIn | ui/js/qr.js:127-130 | one pass from the top index down multiplies the polynomial in the array by (x - 2^i) in place and touches nothing beyond it |
| ReedSolomon.GenPolyIsProduct | ui/js/qr.js:121-131 | at every point the generator is the product of the linear factors (x - 2^i) |
| ReedSolomon.GenPolyRoots | ui/js/qr.js:121-131 | the generator vanishes at the first n powers of 2 and nowhere else |
| ReedSolomon.RsEcBytes | ui/js/qr.js:123-145 | for all data and every parity count from 1 to 255 the shifting register ends with the remainder of the data, shifted up, by the generator |
| ReedSolomon.Cancel | ui/js/qr.js:139-141 | the inner loop adds the factor times the tail of the generator to the register in place |
| ReedSolomon.Division | ui/js/qr.js:132-144 | data * x^n = quotient * generator + remainder, at every point of the field |
| ReedSolomon.ParityMakesCodeword | ui/js/qr.js:121-145 | data followed by its parity vanishes at 2^0 ... 2^(n-1) |
| ReedSolomon.ParityUnique | ui/js/qr.js:121-145 | the parity is the only suffix of its length with that property |
| ReedSolomon.FewWeightsVanish | ui/js/qr.js:121-145 | at most n nonzero weights at distinct locators cannot have n vanishing power sums (a Vandermonde argument, one position eliminated per step) |
| ReedSolomon.MinimumDistance | ui/js/qr.js:121-145 | different codewords of at most 255 bytes differ in at least n + 1 positions |
| ReedSolomon.EncodedDistance | ui/js/qr.js:121-145 | blocks of equal length with different data differ, with parity, in at least n + 1 positions |
| ReedSolomon.UniqueNearest | ui/js/qr.js:121-145 | a word with at most n / 2 errors is that close to one codeword only, so the errors can be undone |
| Bch.BchRemainder | ui/js/qr.js:149-156 | the loop ends, because the bit length falls every round, with the remainder |
| Bch.RemainderDivides | ui/js/qr.js:149-156 | the remainder is shorter than the generator and congruent to the value over GF(2)[x] |
| Bch.RemainderUnique | ui/js/qr.js:149-156 | no other word is both, so these two facts define it |
| BinaryPolynomials.DivisionUnique | ui/js/qr.js:149-156 | quotient and remainder over GF(2)[x] are unique |
| Bch.SystematicWord | ui/js/qr.js:158-167 | a value shifted up with its remainder below is a multiple of the generator and still carries the value |
| Bch.FormatBits | ui/js/qr.js:159-162 | the 15 format bits of each mask number, proved equal to the masked systematic word |
| Bch.FormatWordCode | ui/js/qr.js:158-162 | unmasked, the format word is a multiple of 0x537 with the mask number on top |
| Bch.VersionBits | ui/js/qr.js:165-167 | the 18 version bits, proved equal to the systematic word |
| Bch.VersionWordCode | ui/js/qr.js:164-167 | the version word is a multiple of 0x1f25 with the version on top |
| BchWords.FormatWords | ui/js/qr.js:158-162 | the eight format words, as numbers |
| BchWords.VersionWordSeven | ui/js/qr.js:164-167 | the version word of version 7, as a number |
| BchWords.FormatDistance | ui/js/qr.js:158-162 | two format words differ in at least seven of their fifteen bits |
| BchWords.FormatNearest | ui/js/qr.js:158-162 | so at most three wrong bits leave one format word nearest |
| QrTables.RsBlocksShape | ui/js/qr.js:18-60 | every version has one or two runs of blocks, each with parity and at most 255 bytes, as block splitting and the Reed-Solomon bounds need |
| BlockTable.TableDetermined | ui/js/qr.js:18-60 | every row of the block table is the one way to share the room in its symbol out among the number of blocks, with the parity, that Table 9 of ISO/IEC 18004 gives for level M |
| CodewordStream.PickVersion | ui/js/qr.js:177-183 | the least version that fits, and none exactly when none fits |
| CodewordStream.CountFieldSuffices | ui/js/qr.js:177-194 | a message that fits a version has a byte count that fits its 8- or 16-bit field |
| CodewordStream.PutBits | ui/js/qr.js:190-192 | the low bits of a value are appended, most significant first |
| CodewordStream.PackLoop | ui/js/qr.js:199-204 | bits are gathered into bytes, most significant first |
| CodewordStream.BuildData | ui/js/qr.js:188-207 | header, bytes, terminator, byte padding and alternating fill, as the specification function |
| CodewordStream.DataCodewordsLength | ui/js/qr.js:193-207 | a message gives exactly the data codewords of its version if and only if it fits |
| StreamLayout.DataLayout | ui/js/qr.js:188-207 | a message that fits is laid out as the bits 0100, its length, its bytes and four zeros, and then 0xEC and 0x11 in turn |
| StreamLayout.ByteBitsValue | ui/js/qr.js:199-204 | the bits of a byte, most significant first, are its number in binary |
| CodewordStream.ParseDataCodewords | ui/js/qr.js:193-207 | parsing mode, count and bytes of the padded stream returns the message |
| CodewordStream.BlocksPartitionData | ui/js/qr.js:209-220 | the blocks take exactly the data codewords |
| StreamLayout.SpecsAt | ui/js/qr.js:209-220 | the blocks of the first group come first, and all blocks of a group have its lengths |
| CodewordStream.FlattenSplit | ui/js/qr.js:209-220 | the blocks are consecutive slices: put together they are the data again |
| CodewordStream.PushColumns | ui/js/qr.js:222-229 | the column loops append the interleaving of ragged blocks |
| CodewordStream.DeinterleaveInterleave | ui/js/qr.js:221-229 | interleaving ragged blocks is undone by collecting each block from where its elements lie, whatever follows |
| CodewordStream.InterleaveLength | ui/js/qr.js:221-229 | interleaving neither drops nor repeats an element: the lengths add up |
| StreamLayout.PositionOrder | ui/js/qr.js:221-229 | the interleaved stream goes by columns, and in a column by blocks |
| CodewordStream.BuildCodewords | ui/js/qr.js:187-231 | the whole stream, data columns then parity columns |
| CodewordStream.CodewordsLength | ui/js/qr.js:187-231 | the stream has exactly the codewords of the version |
| CodewordStream.BlocksAreCodewords | ui/js/qr.js:209-220 | every data block followed by its parity block is a Reed-Solomon codeword |
| CodewordStream.ReadStreamRoundTrip | ui/js/qr.js:187-231 | de-interleaving and parsing the stream returns the message, whatever follows the data columns |
| QrBase.DrawFinder | ui/js/qr.js:249-261 | a finder box clipped to the grid: its cells marked and drawn, all others unchanged |
| QrBase.DrawAlignments | ui/js/qr.js:263-275 | alignment patterns at exactly the centre pairs not on a finder: no two meet, so drawing order does not matter |
| QrBase.DrawTiming | ui/js/qr.js:277-281 | the timing cells not yet taken alternate; nothing else changes |
| QrBase.ReserveCorner | ui/js/qr.js:284-287 | the format cells by the top-left finder are reserved light unless already taken |
| QrBase.ReserveEdge | ui/js/qr.js:288-291 | the other format cells and the dark module are reserved |
| QrBase.ReserveVersion | ui/js/qr.js:293-299 | both version areas are reserved light |
| QrBase.BaseMatrix | ui/js/qr.js:239-301 | the drawn matrix is the skeleton given region by region: exactly the function cells are marked, with their patterns |
| QrBase.SkeletonUnique | ui/js/qr.js:239-301 | the region-by-region description leaves no freedom |
| QrBase.TimingColumnReserved | ui/js/qr.js:277-291 | column 6 is all function modules in every version |
| QrBase.AlignPosShape | ui/js/qr.js:62-104 | the alignment positions of every version keep patterns inside the grid and apart |
| SymbolGeometry.AlignSpacing | ui/js/qr.js:62-104 | the alignment table is the list of 6 and, counted back from the far finder, positions an even step apart, the least step that reaches over the symbol, but 26 in version 32 |
| SymbolGeometry.FindersStand | ui/js/qr.js:249-261 | around a finder centre the rings at distance 2 and 4 are light and the others dark |
| SymbolGeometry.AlignmentsStand | ui/js/qr.js:263-275 | around every alignment centre the ring at distance 1 is light and the rest dark |
| SymbolGeometry.TimingAlternates | ui/js/qr.js:277-281 | row and column 6 alternate between the finders, beginning and ending dark |
| SymbolGeometry.SkeletonSymmetric | ui/js/qr.js:239-301 | turned over its main diagonal the skeleton is itself |
| SymbolGeometry.FormatOrder | ui/js/qr.js:353-364 | one format copy runs down column 8 and the other leftwards along row 8, and each fills exactly its cells |
| SymbolGeometry.VersionReadBack | ui/js/qr.js:367-374 | both version areas give the written word back |
| FinishedSymbol.PatternsStand | ui/js/qr.js:441-465 | a finished symbol still has every pattern: neither data nor information is written over one |
| FinishedSymbol.FinishedFinders | ui/js/qr.js:441-465 | so the three finders of a finished symbol have their rings |
| FinishedSymbol.FinishedInfo | ui/js/qr.js:352-375 | and it has its dark module and, from version 7, its version number in both areas |
| Placement.WalkVisitsOnce | ui/js/qr.js:314-349 | on any odd grid of size 7 or more the serpentine walk visits every cell outside column 6 exactly once and no other |
| SymbolGeometry.WalkSteps | ui/js/qr.js:314-349 | the walk starts in the bottom right corner, goes left, back and up or down by one row, and turns at the edges |
| Placement.PlacedAt | ui/js/qr.js:327-341 | the k-th free cell gets stream bit k (zero past the end) xor its mask |
| Placement.PlacedElsewhere | ui/js/qr.js:328-341 | function modules and unvisited cells are unchanged |
| Placement.ReadPlaced | ui/js/qr.js:317-350 | reading along the walk undoes placing along it |
| QrMatrix.Matrix.PlaceData | ui/js/qr.js:317-350 | the cursor loops, with row, direction, byte and bit index, place the stream along the walk |
| QrMatrix.Matrix.PlaceRow | ui/js/qr.js:327-341 | one row of a column pair, keeping byte and bit index in step with the free cells passed |
| QrMatrix.Matrix.PlaceCell | ui/js/qr.js:328-340 | one cell: a function module is skipped, any other takes the next bit |
| Masks.MaskIs | ui/js/qr.js:303-312 | every mask keeps laws that do not use its formula: 0 flips with every step, 1 with every row, 2 marks every third column, 3 every third anti-diagonal, 4 flips from tile to tile of two rows by three columns, 5 marks where 6 divides the product of row and column, 6 and 7 have period 6 and the values of one square |
| Masks.MaskUnique | ui/js/qr.js:303-312 | the laws of a mask leave no choice: two patterns that keep them are equal at every cell |
| QrMatrix.Matrix.WriteFormat | ui/js/qr.js:353-365 | both format copies and the dark module are written, and no other cell |
| QrMatrix.Matrix.WriteVersion | ui/js/qr.js:367-374 | both version areas are written, and no other cell |
| QrMatrix.Matrix.WriteFormatAndVersion | ui/js/qr.js:352-375 | format and, from version 7, version information stand in the matrix; every other cell is unchanged |
| QrMatrix.FormatReadBack | ui/js/qr.js:353-364 | reading the 15 cells of a format copy gives the written word back |
| Capacity.FreeCountExactly | ui/js/qr.js:317-350 | a walk without repeats offers exactly its length less the function modules it meets |
| Capacity.CoverSize | ui/js/qr.js:239-301 | the number of function modules outside column 6 of each version, exactly |
| Capacity.CoverIs | ui/js/qr.js:239-301 | the rectangles counted are exactly the function modules off column 6 |
| Capacity.RoomForCodewords | ui/js/qr.js:187-350 | in all 40 versions the walk has eight free modules for every codeword and less than eight over |
| Penalty.ScoreRuns | ui/js/qr.js:386-397 | the run-counting loop computes the sum over maximal runs of five or more |
| Penalty.RunLengthMaximal | ui/js/qr.js:386-397 | what is summed over are the maximal one-colour runs |
| Penalty.CloseRun | ui/js/qr.js:390-397 | closing a run adds exactly its cost |
| Penalty.ScoreWindows | ui/js/qr.js:416-425 | the window loop counts the windows equal to either 11-module pattern, 40 points each |
| Penalty.PenaltyBlocks | ui/js/qr.js:401-408 | the block loop is 3 points for each one-colour 2x2 block |
| Penalty.ComputePenalty | ui/js/qr.js:379-434 | all four rules together equal the declarative score; what the balance rule adds is 10 times the number of whole steps of five percent between the dark modules and one half |
| Penalty.BalanceUnique | ui/js/qr.js:428-432 | that law leaves one value |
| Penalty.BalanceMirrored | ui/js/qr.js:428-432 | a symbol and its negative are equally balanced |
| PenaltyMeaning.RunScoreBars | ui/js/qr.js:386-397 | a line of any bars costs, for each bar of five modules or more, its length less two |
| PenaltyMeaning.WindowProportions | ui/js/qr.js:410-425 | the two patterns searched for are dark and light in the proportions 1 : 1 : 3 : 1 : 1 with four light modules on one side |
| PenaltyMeaning.WindowScoreCounts | ui/js/qr.js:416-425 | forty points for every place of a line where one of them stands |
| PenaltyMeaning.BlockScoreCounts | ui/js/qr.js:401-408 | three points for every 2 by 2 block of one colour, overlapping ones included |
| PenaltyMeaning.DarkCountCounts | ui/js/qr.js:428-430 | the dark modules counted are the cells that are dark |
| Penalty.ScoreTransposed | ui/js/qr.js:379-434 | the score of any square matrix is unchanged by transposing it |
| QrEncode.InfoOnFunctionModules | ui/js/qr.js:283-299 | format and version information lies on function modules only, so it overwrites no data |
| QrEncode.ReadFinished | ui/js/qr.js:461-464 | walking a finished symbol reads the placed codeword stream |
| QrEncode.FormatReveals | ui/js/qr.js:461-464 | the format cells of a finished symbol give its mask |
| QrEncode.ReadSymbolRoundTrip | ui/js/qr.js:441-465 | end to end: a reader that sees only the modules (size, format cells, zigzag, de-interleaving, header) returns the message, for every byte string that fits |
| QrEncode.ChooseMask | ui/js/qr.js:447-459 | the lowest-numbered mask of least penalty over trial matrices without format bits |
| QrEncode.Encode | ui/js/qr.js:441-465 | fails exactly when no version fits; otherwise the least version, the forced or best mask, a finished matrix, and the reader gets the bytes back |
| ErrorCorrection.StreamCorrected | ui/js/qr.js:209-230 | a reader that takes each block to the nearest codeword recovers the message from every stream with at most half as many wrong bytes in a block as it has parity bytes |
| ErrorCorrection.DamagedSymbolRead | ui/js/qr.js:441-465 | so a damaged symbol gives the message back under that condition, if at most three format modules of one copy are wrong |
| ErrorCorrection.FormatFound | ui/js/qr.js:158-162 | a reader that looks for the nearest format word finds the mask if at most three of its modules are wrong |
| ErrorCorrection.BlockSent | ui/js/qr.js:209-230 | each block of the interleaved stream, data and parity collected, is the block as it was encoded |
| MersenneTwister.PyRandom.constructor | tests/data/minisketch_cpp_vectors.cpp:64-84 | seeding leaves exactly the state of init_by_array for a one-word key, and nothing drawn |
| MersenneTwister.PyRandom.InitGenrand | tests/data/minisketch_cpp_vectors.cpp:55-60 | the first filling follows its recurrence in every cell |
| MersenneTwister.PyRandom.FirstPass | tests/data/minisketch_cpp_vectors.cpp:70-75 | the first mixing pass, with its wrap at the end of the array |
| MersenneTwister.PyRandom.SecondPass | tests/data/minisketch_cpp_vectors.cpp:76-82 | the second mixing pass, starting and ending in the middle of the array |
| TwisterLaws.MixBits | tests/data/minisketch_cpp_vectors.cpp:55-82 | a step of the filling and of the passes multiplies by its factor after adding the two top bits to the two lowest |
| TwisterLaws.PassesFixed | tests/data/minisketch_cpp_vectors.cpp:64-82 | the factors of the two passes, and what is exclusive, added and taken away in them |
| TwisterLaws.FillingStarts | tests/data/minisketch_cpp_vectors.cpp:55-60 | the first cells of the first filling, as numbers |
| TwisterLaws.SeedsDiffer | tests/data/minisketch_cpp_vectors.cpp:64-84 | different seeds leave different states |
| MersenneTwister.PyRandom.Regenerate | tests/data/minisketch_cpp_vectors.cpp:89-102 | the three in-place loops turn one block of the infinite sequence x(k+624) = x(k+397) xor twist(x(k), x(k+1)) into the next; every index is in bounds |
| MersenneTwister.PyRandom.Genrand | tests/data/minisketch_cpp_vectors.cpp:86-109 | the n-th draw is the tempered n-th term of that sequence, over any number of draws and blocks |
| TwisterLaws.Recurrence | tests/data/minisketch_cpp_vectors.cpp:86-102 | the terms follow the recurrence with offsets 624 and 397 |
| TwisterLaws.TwistSees | tests/data/minisketch_cpp_vectors.cpp:90-100 | the twist depends on the top bit of its first word and the 31 other bits of its second, and on nothing else |
| TwisterLaws.TwistLinear | tests/data/minisketch_cpp_vectors.cpp:90-100 | it is linear over exclusive or |
| TwisterLaws.TwistBits | tests/data/minisketch_cpp_vectors.cpp:90-100 | and its value on every single-bit word: so it is fixed bit by bit |
| TwisterLaws.TemperLinear | tests/data/minisketch_cpp_vectors.cpp:103-108 | tempering is linear over exclusive or |
| TwisterLaws.TemperBits | tests/data/minisketch_cpp_vectors.cpp:103-108 | and its value on every single-bit word |
| MersenneTwister.UntemperTemper | tests/data/minisketch_cpp_vectors.cpp:103-108 | tempering can be undone: it is a bijection on 32-bit words |
| MersenneTwister.OutputsDetermined | tests/data/minisketch_cpp_vectors.cpp:86-109 | 624 consecutive outputs determine every later one, from whatever states and positions they came |
| MersenneTwister.PyRandom.GetRandBits | tests/data/minisketch_cpp_vectors.cpp:113-118 | k bits, low word first, the last word shifted down; it takes one or two draws and is below 2^k |
| MersenneTwister.DrawBound | tests/data/minisketch_cpp_vectors.cpp:113-118 | a k-bit draw is below 2^k |
| TwisterLaws.DrawExactly | tests/data/minisketch_cpp_vectors.cpp:113-118 | a draw of at most 32 bits is the top of one word, a longer one a whole word with the top of the next above it |
| MersenneTwister.BoundBits | tests/data/minisketch_cpp_vectors.cpp:122 | the bit length k of a bound: 2^(k-1) <= n < 2^k |
| MersenneTwister.PyRandom.RandBelow | tests/data/minisketch_cpp_vectors.cpp:121-126 | if the stream holds a draw below n: the first such draw, every earlier one having been at least n |
| MersenneTwister.PyRandom.RandRange | tests/data/minisketch_cpp_vectors.cpp:128-129 | the first draw below stop - start, every earlier one rejected, moved to the range from start up to stop |
| CommandLine.Tokenize | ui/js/console.js:43-105 | the index loop over four modes computes the specification scanner, errors included |
| CommandLine.Round | ui/js/console.js:51-95 | one round of the loop: the next state, and one or two characters taken |
| CommandWriting.RunDouble | ui/js/console.js:53-61 | between double quotes a body is read as the text it denotes, whatever follows |
| CommandWriting.EscapedReads | ui/js/console.js:53-61 | every text can be written there, with quote and backslash escaped |
| CommandWriting.BackslashKept | ui/js/console.js:53-61 | before any other character a backslash stands for itself |
| CommandWriting.SingleQuoted | ui/js/console.js:62-64 | a text between apostrophes joins its token as it is, backslashes and double quotes included, and makes it quoted, at any bracket depth |
| CommandWriting.Unterminated | ui/js/console.js:97-99 | a line that ends inside quotes of either kind is turned down |
| CommandWriting.RunWord | ui/js/console.js:65-95 | a word whose brackets close, with white space and brackets only inside brackets and JSON strings, is read as one token, whatever follows |
| CommandWriting.TokensWritten | ui/js/console.js:43-105 | tokenizing undoes writing: tokens made of bare, double-quoted and single-quoted segments, with any white space around them |
| CommandParams.ConvertSpelled | ui/js/console.js:108-123 | every kind of parameter, spelled as a token, converts to itself: quoted text, true, false, null, number literals and bracketed JSON |
| CommandParams.ConvertExactly | ui/js/console.js:108-123 | exactly which tokens convert to what, and which one cannot be converted |
| CommandParams.NumberExactly | ui/js/console.js:108-123 | the number literals are exactly the JSON ones: sign, whole part without leading zero, fraction, exponent |
| CommandParams.ParseCommand | ui/js/console.js:126-134 | a method name and any list of parameters, in whatever segments and white space they are written, parse back to that command |
| CommandParams.CommandExactly | ui/js/console.js:126-134 | a line is blank, or begins with an unquoted method name and converts token by token, or is turned down for its first fault |
| CommandParams.ParseQuoted | ui/js/console.js:43-134 | in particular any strings come back, each between quotes of either kind that can hold it |
| CommandNesting.RunNests | ui/js/console.js:51-95 | from any state outside quoted arguments the scanner fails exactly when the nesting goes below zero, and otherwise cuts the text into the pieces between separating white space |
| CommandNesting.UnquotedLine | ui/js/console.js:43-105 | a line that opens no quoted argument tokenizes exactly when its brackets balance outside strings, and is otherwise turned down for the first bracket that closes nothing, or for one left open; its tokens are the pieces between depth-0 white space, concatenate to the line without it, and are each balanced |
| CommandNesting.CutKeeps | ui/js/console.js:80-86 | cutting a line into those pieces loses only that white space |
| CommandWriting.Retokenized | ui/js/console.js:43-105 | written with single spaces, the tokens of such a line tokenize to themselves |
| History.DedupMembers | ui/js/console.js:195-203 | the specification history keeps every pushed command, once |
| History.DedupByLastUse | ui/js/console.js:195-203 | it orders them by last use |
| History.PushKeepsLast | ui/js/console.js:195-199 | trimming before later pushes loses nothing: the last n stay the last n |
| History.CommandHistory.Push | ui/js/console.js:195-203 | after any pushes the items are the last `limit` of all pushed commands deduplicated by last use (the class invariant); the pointer is back at the end |
| History.RemoveFirst | ui/js/console.js:196-197 | taking out the first occurrence removes the command |
| History.Trim | ui/js/console.js:199 | dropping from the front keeps the last items |
| History.CommandHistory.Browse | ui/js/console.js:205-209 | one step of the pointer, saving the unfinished line when it leaves the end |
| History.WalkRestoresLine | ui/js/console.js:205-209 | any walk of steps fed its own output shows the unfinished line whenever the pointer is at the end, and the item under the pointer elsewhere |
| History.OlderSteps | ui/js/console.js:205-209 | from the end, n steps up show the n-th newest command, or the oldest if there are fewer |
| History.ThereAndBack | ui/js/console.js:205-209 | and as many steps down lead back to the end and the unfinished line |
| PollChain.Scheduler.StopPolling | ui/js/app.js:155-159 | a new epoch, and no timer pending |
| PollChain.Scheduler.Poll | ui/js/app.js:161-183 | a tick starts only for the current epoch, logged in and visible |
| PollChain.Scheduler.AfterTick | ui/js/app.js:180-182 | a finished tick sets a timer only for the current epoch, logged in and visible |
| PollChain.Scheduler.StartPolling | ui/js/app.js:185-189 | the old chain is stopped before the new one starts |
| PollChain.Scheduler.ShowLogin | ui/js/app.js:45-47 | logging out stops the chain |
| PollChain.Scheduler.ShowApp | ui/js/app.js:61-65 | logging in starts one |
| PollChain.Scheduler.OnVisibilityChange | ui/js/app.js:191-197 | hiding stops the chain and showing starts one if logged in |
| PollChain.Scheduler.OnTimer | ui/js/app.js:161-181 | a timer that fires begins a tick only if its epoch is still the current one, logged in and visible |
| PollChain.Scheduler.OnTick | ui/js/app.js:161-183 | a tick ends well, badly or unauthorized; the class does what the state machine says |
| PollChain.ReachedKeepsInv | ui/js/app.js:155-197 | the scheduler invariant holds after every interleaving of login, logout, hiding, showing, timers and ticks |
| PollChain.OneChain | ui/js/app.js:155-197 | never more than one live chain; exactly one when logged in and visible and none otherwise, once visibility events are delivered; a pending timer is always of the current epoch |
| PollChain.TickBegins | ui/js/app.js:161-197 | a tick begins exactly when somebody logs in, a visibility event arrives or a timer of the current epoch fires, on a page that is then visible with somebody logged in; there is one, of the epoch then current |
| PollChain.TimerSet | ui/js/app.js:180-182 | a timer is set exactly when a tick of the current epoch ends, not unauthorized, on a visible page with somebody logged in |
| PollChain.StaleTickInert | ui/js/app.js:180-182 | a tick of an old epoch that ends, well or badly, changes nothing and schedules nothing |
| PollChain.StaleTickHarmless | ui/js/app.js:161-183 | the end of a stale tick leaves the session and its chain alone exactly when it is not unauthorized or nobody is logged in |
| PollChain.StaleUnauthorizedLogsOut | ui/js/app.js:169-176 | the exception: a tick of an old session that ends unauthorized logs the new session out |
| UnlockProtocol.BorrowedUnlock | ui/js/wallet-crypt.js:204-219 | over all runs the action starts at most once and never after reading locked; a call that is over has called lock exactly when the wallet began locked and its second read found it no longer so; a cancelled call has done neither |
| UnlockProtocol.LockEvenWhenActionThrows | ui/js/wallet-crypt.js:214-218 | the lock follows an action that throws as well as one that returns |
| UnlockProtocol.ActsOnlyAfterYes | ui/js/wallet-crypt.js:209-215 | on a wallet that began locked the action runs only after the own prompt answered yes |
| UnlockProtocol.UnlockGivenBack | ui/js/wallet-crypt.js:204-219 | a call that is over has had the wallet relocked exactly when its second read found it no longer locked and the node did not refuse, and from then on the wallet is never open through its prompt; so an unlock outlives its call only where the prompt answered no, the second read said locked or failed, or the lock was refused |
| UnlockProtocol.UnlockLeftBehind | ui/js/wallet.js:1167-1178 | a run where it does: the panel is cancelled with its form in flight, the call gives up, and the node grants the unlock after that |
| UnlockProtocol.PromptSettlesOnce | ui/js/wallet.js:1396-1415 | a prompt settles at most once, and answers yes exactly when its own flag was up before: the flag rises after the grant and the refresh that follows it, so a panel closed in between answers no |
| UnlockProtocol.LostExactly | ui/js/wallet.js:1059-1065 | a prompt is left unsettled and owed by nobody exactly when some form in flight closed the panel while the page was reset and the panel still owed it |
| UnlockProtocol.LostForever | ui/js/wallet.js:1396-1415 | such a prompt never settles, and the call that awaits it waits in every continuation of the run |
| UnlockProtocol.BackupLosesPrompt | ui/js/wallet.js:333-353 | a run that gets there: a backup is in flight, a prompt is raised, the user logs out, the backup succeeds |
| UnlockProtocol.SubmitSparesOthers | ui/js/wallet.js:1088-1106 | an unlock form that succeeds leaves every other prompt as it was, and owed if it was owed, exactly when the panel owes no other prompt |
| UnlockProtocol.LateSubmitClosesNewPanel | ui/js/wallet.js:1088-1106 | the other prompt that the panel owes settles at once, with no unless its own flag is up; on a reset page it is lost instead |
| UnlockProtocol.LateSubmitReached | ui/js/wallet.js:1396-1415 | a run of two calls that gets there: the first one's form is about to close the panel of the second one's prompt |
| UnlockProtocol.ReachedInv | ui/js/wallet.js:1059-1116 | the invariant behind these holds after every run of any number of calls, prompts and other forms on the one shared panel, with logout at any time |
| UnlockOutcomes.CallOutcome | ui/js/wallet-crypt.js:204-219 | a call returns exactly when its action ended well and no lock after it failed; it fails exactly when a read failed, the action threw, the lock failed or no prompt could be raised; it is cancelled exactly when it is over, raised a prompt and never acted |
| UnlockOutcomes.EncryptionExactly | ui/js/wallet-crypt.js:52-57 | which wallet information means which encryption state: locked exactly for private keys with a lock time of zero |
| UnlockProtocol.SecurityPanel.ResetWallet | ui/js/wallet.js:333-353 | a reset drops the element references and keeps the callback |
| UnlockProtocol.SecurityPanel.ShowWallet | ui/js/wallet.js:461-465 | opening the wallet view builds the page anew unless it stands; an old prompt form is gone, its callback is not |
| UnlockProtocol.SecurityPanel.CloseSecPanel | ui/js/wallet.js:1059-1065 | the callback is cleared before it fires; on a reset page it throws in between and nothing fires |
| UnlockProtocol.SecurityPanel.OpenSecPanel | ui/js/wallet.js:1110-1116 | the replaced panel settles its prompt before the new callback is stored; if closing throws, nothing is stored |
| UnlockProtocol.SecurityPanel.PromptUnlock | ui/js/wallet.js:1396-1415 | raising a prompt settles the one before it and makes the new one the owner of the panel; without a container it throws and leaves detached references |
| Amounts.ParsePrinted | ui/js/wallet.js:163-179 | every amount from 1 satoshi to 21 million coins prints to a text that parses to the same text and value |
| Amounts.NormalizeIdempotent | ui/js/wallet.js:159-179 | an accepted amount is its own normal form, with the same value |
| Amounts.SatsExact | ui/js/wallet.js:163-179 | an amount with d decimals is worth its digits times a coin, divided by ten to the d |
| Amounts.ZeroAppended | ui/js/wallet.js:163-179 | a zero behind the decimals changes nothing |
| Amounts.NormalizeExactly | ui/js/wallet.js:163-179 | exactly which inputs are accepted, the reason for every other one, and the text and satoshis of each |
| Amounts.TrimLaw | ui/js/wallet.js:164 | trimming leaves t exactly if t has no white space at its ends and the input is t with white space around it |
| Amounts.AmountReachesNode | src/rpc/amounts.lisp:214-246 | an amount accepted by the form is read by the node as the same satoshis exactly if its whole part has no leading zero; otherwise the node refuses it |
| Amounts.LeadingZeroRefused | src/rpc/amounts.lisp:159-163 | the least such input: the form takes "01" for a coin and the node refuses it |
| Amounts.PrintedReachesNode | src/rpc/amounts.lisp:214-246 | what is printed is read by the node as what it was printed from |
| FixedPointScan.ParseFixedPoint | src/rpc/amounts.lisp:116-187 | the node's one-pass scan, with its counted zeros and overflow checks, computes the meaning of the literal that the text is |
| FixedPointScan.ProcessMantissaDigit | src/rpc/amounts.lisp:99-114 | one digit: a zero is counted, any other pays for the zeros before it, and it fails exactly when more than eighteen digits count |
| FixedPointScan.ScanWritten | src/rpc/amounts.lisp:139-177 | every well-formed text is scanned into its parts |
| FixedPointScan.ScanOnly | src/rpc/amounts.lisp:139-177 | and nothing else is scanned: sign, whole part without leading zero, fraction, exponent, end |
| FixedPoint.MeaningExact | src/rpc/amounts.lisp:178-187 | what is read is exact: the digits, moved by exponent and decimals |
| FixedPoint.MeaningExactly | src/rpc/amounts.lisp:178-187 | which literals are read: an amount other than zero exactly if it is a whole number of units of at most eighteen digits, however it is written; a zero exactly if its decimals and exponent scale into range |
| Recipients.ValidateRecipients | ui/js/wallet.js:199-228 | accepts exactly non-empty lists of good rows with distinct addresses; cleans all or nothing; reports every problem of every row in order |
| Recipients.NoProblems | ui/js/wallet.js:208-221 | no problem is reported exactly when every row is good and no address repeats |
| Recipients.ProblemsListed | ui/js/wallet.js:208-221 | the report holds exactly what is wrong, each thing once, by row and in a row address before amount before repetition |
| Recipients.AddressExactly | ui/js/wallet.js:186-194 | the address is the input without the white space around it, accepted exactly if something is left, without white space, that the patterns take |
| Recipients.AcceptedRecipients | ui/js/wallet.js:199-228 | the recipients of accepted rows have, in order, the rows' trimmed addresses and normalized amounts, and no address twice |
| Recipients.PaidIsTotal | ui/js/wallet.js:1880-1888 | the node reads the total of normalized recipients if no amount has a leading zero, and refuses them otherwise |
| Recipients.CallPaysReviewTotal | ui/js/wallet.js:236-250 | for accepted recipients the call, by the method their number asks for, pays in order what the form has cleaned, charges the fee to all or none, and carries the options; the node reads exactly the total shown for review if no amount has a leading zero, and refuses the call otherwise |
| SourceScanner.SkipString | scripts/gen-rpc-arg-names.py:21-27 | the index past the closing quote, and past the end of the text when a backslash ends it |
| SourceScanner.SkipTrivia | scripts/gen-rpc-arg-names.py:29-37 | the index of the first character that is neither blank nor comment |
| SourceScanner.BlockCommentEnds | scripts/gen-rpc-arg-names.py:34-35 | a block comment ends where C++ ends it exactly unless a slash follows its star with more text behind: the search begins one place too early |
| SourceScanner.BlockCommentExample | scripts/gen-rpc-arg-names.py:34-35 | the least text on which the two differ |
| SourceText.GapSkipped | scripts/gen-rpc-arg-names.py:29-37 | every written run of white space and comments is skipped, to its end |
| SourceScanner.FindMatching | scripts/gen-rpc-arg-names.py:236-252 | the loop finds the closer that brings the depth to zero, literals and comments skipped |
| SourceScanner.SplitFields | scripts/gen-rpc-arg-names.py:255-273 | the loop finds the fields between commas at depth zero; a blank last field is dropped |
| SourceScanner.FieldsTile | scripts/gen-rpc-arg-names.py:255-273 | for any text, however malformed, the fields lie side by side with one comma between them: no text is lost or shared |
| SourceScanner.UnescapeText | scripts/gen-rpc-arg-names.py:280-291 | the escape loop computes the denoted text |
| SourceText.UnescapeEscape | scripts/gen-rpc-arg-names.py:276-291 | every text survives escaping and unescaping |
| SourceText.EscapeFixes | scripts/gen-rpc-arg-names.py:276-291 | a text equals its escaped form exactly when nothing in it needs escaping |
| SourceLiterals.EscapeDenotes | scripts/gen-rpc-arg-names.py:276-291 | n, t, r and 0 after a backslash denote their control characters, any other character itself |
| SourceLiterals.LiteralsWritten | scripts/gen-rpc-arg-names.py:294-304 | literals one after another denote their values put together, whatever stands between them without a quote |
| SourceLiterals.CommentRead | scripts/gen-rpc-arg-names.py:294-304 | comments are not skipped there: a literal spelled in a comment is read with the rest |
| SourceScanner.StringLiteral | scripts/gen-rpc-arg-names.py:294-304 | the adjacent literals of a span, unescaped and concatenated |
| SourceText.StringEndEscape | scripts/gen-rpc-arg-names.py:21-27 | in a written literal the scanner stops at the closing quote, whatever the value |
| SourceText.MatchingBraced | scripts/gen-rpc-arg-names.py:236-252 | a written brace group is matched with its own closer: brackets of all three kinds nest inside it, and literals and comments may hold anything |
| SourceFields.FieldsJoined | scripts/gen-rpc-arg-names.py:255-273 | splitting joined fields returns exactly the spans they were written to, with comments and white space before them, and no field for a comma after the last |
| ArgOptions.ReadOptions | scripts/gen-rpc-arg-names.py:374-379 | the written options read back: the oneline text always, the hidden mark when written or when the oneline literal spells it |
| ArgOptions.ShownHidden | scripts/gen-rpc-arg-names.py:308 | the search for the hidden mark succeeds exactly when it was written or the escaped oneline text contains it |
| ArgOptions.HiddenSpelled | scripts/gen-rpc-arg-names.py:308 | the hidden mark is the member, white space, an equals sign, white space and true, and nothing else |
| ArgOptions.OnelineSpelled | scripts/gen-rpc-arg-names.py:307 | the value of the oneline member starts behind its name, an equals sign and all white space around it |
| ArgParser.ParseArg | scripts/gen-rpc-arg-names.py:332-380 | the recursive reader with its field loop computes the specification reader: literal, named literal, shared constant, or none |
| ArgReading.ReadWritten | scripts/gen-rpc-arg-names.py:332-380 | a written declaration reads, at any place of any text and after any white space and comments, as its tree cut below depth 8 with decoys turned hidden |
| ArgRoundTrip.AsReadExactly | scripts/gen-rpc-arg-names.py:332-380 | that is the whole tree exactly when it is not too deep and has no decoy |
| ArgRoundTrip.RoundTrip | scripts/gen-rpc-arg-names.py:332-380 | so writing and reading returns the tree exactly when it has at most nine levels (counted from the depth reading starts at) and no description is a decoy, whatever comments and white space stand before the fields and whether or not a comma follows the last |
| ArgRoundTrip.NineLevels | scripts/gen-rpc-arg-names.py:335-336 | the bound is tight: nine levels come back and ten do not |
| ArgRoundTrip.DecoyExample | scripts/gen-rpc-arg-names.py:376 | an argument that is not hidden but described by the text ".hidden = true" reads as hidden |
| ArgRoundTrip.NamedLiteral | scripts/gen-rpc-arg-names.py:340-347 | a qualified type name before the brace does not change what is read |
| ArgRoundTrip.SharedConstant | scripts/gen-rpc-arg-names.py:348-350 | the name of a shared constant reads as the constant one level deeper, and any other name is no argument |
| ArgRoundTrip.NoArgument | scripts/gen-rpc-arg-names.py:335-339 | neither white space and comments alone nor an empty brace group is an argument |
| ArgParser.OnelineVector | scripts/gen-rpc-arg-names.py:426-438 | the renderings of a vector up to its first hidden argument, or none if some argument before it cannot be read |
| ArgRoundTrip.RenderingsFail | scripts/gen-rpc-arg-names.py:426-438 | there are none exactly when something that is no argument comes before any hidden one |
| ArgRoundTrip.VectorRendered | scripts/gen-rpc-arg-names.py:426-438 | for a written vector these are the renderings of its trees, as read, up to the first that reads as hidden |
| FlatReader.ArgEntriesFromVector | scripts/gen-rpc-arg-names.py:57-118 | the flat loop with its six state variables computes the specification of its entries |
| FlatReading.FlatReads | scripts/gen-rpc-arg-names.py:57-118 | on a written vector of declarations and names: one entry per declaration, the name as spelled, the type unless skip_type_check occurs anywhere in the entry, required exactly for the fallback RPCArg::Optional::NO of the entry itself; and the entry of every name that is a shared constant |
| FlatReader.FirstCounts | scripts/gen-rpc-arg-names.py:100-108 | of several types or fallbacks at the entry's level the first one counts |
| FlatReader.PatternsAre | scripts/gen-rpc-arg-names.py:104-106 | the identifiers that name a type or a fallback are exactly a prefix and a word, which may be empty only for a default |
| ReaderAgreement.ReadersAgree | scripts/gen-rpc-arg-names.py:57-118 | both readers see the same number of arguments; names agree exactly when the name needs no escaping; types agree exactly when there is none or skip_type_check does not occur |

## Left out

- ReedSolomon.RsEcBytes: parity counts 0 and above 255 are not modelled; no block of the tables uses them, and above 255 the roots of the generator repeat.
- Penalty.ComputePenalty: the dark-module rule is computed in exact integers, where the source divides doubles and rounds.
- QrEncode.Encode: starts from bytes; the UTF-8 encoding of the text, the SVG and the data URI are not part of this model. The readers are definitions of this model.
- Bch.BchRemainder: values are natural numbers of at most 32 bits; the sign of JavaScript's 32-bit results is not modelled.
- QrMatrix.Matrix.PlaceData: the grids are sequences of rows held in fields of the matrix object; aliasing between rows is not modelled.
- MersenneTwister.PyRandom.RandBelow: needs the ghost promise that the stream holds a draw below n within a given number of tries; that one always comes is not provable from the recurrence.
- CommandParams.ParseCommand: JSON.parse is a parameter, with a spelling it undoes, and a number stays the literal it was written as; a character is one char, so surrogate pairs are two.
- History.CommandHistory.Push: loading from and saving to session storage is not modelled; the history starts empty.
- PollChain.OneChain: what a tick fetches and draws is not modelled; a visibility event may be delivered any time after the change, so the exact count is stated once none is outstanding.
- UnlockProtocol.BorrowedUnlock: a read resolves with any object, since the page may hold a stale one; it and the refresh inside lock fail only on a reset page, where the error cannot be shown. There is one wallet: a lock that goes to another wallet, selected in between, counts as refused.
- UnlockProtocol.LostExactly: the user is free to log out, open the view and use its forms at any time they are on screen; tabs, messages and passphrase fields are not modelled.
- Recipients.ValidateRecipients: the two address patterns are a predicate parameter.
- Amounts.AmountReachesNode: the node's path for JSON numbers, which the browser does not send, is not modelled; its three error messages are one refusal.
- ArgParser.ParseArg: letters, digits and word characters are the ASCII ones; Python also takes other Unicode letters.
- ArgRoundTrip.RoundTrip: declarations are written in Core's field order, with any white space and comments before a field but none after it or before the name; a type is any identifier, every text is arbitrary, and a text is one literal.
- ArgParser.OnelineVector: the rendering of one argument is a function parameter.
- FlatReader.ArgEntriesFromVector: the set of unresolved identifiers it collects for a diagnostic is not modelled; shared constants are a map.
- The Lisp and Coalton node itself, the minisketch library, file globbing, command-line flags and output of the scripts.
- The other browser files (explorer, peers, rpc, dashboard, formatting, transaction building): their pure helpers would only add easy members.
- The document object model, the network and storage: where they matter they are nondeterministic events.
