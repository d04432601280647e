# ESPipes puzzle engine in Dafny

ESPipes is a terminal puzzle. A board of pipe pieces is shown, and the player rotates pieces until a chain of connected pipes joins the start cell to the end cell. Each board cell is one byte. For each of the four directions TOP, LEFT, BOTTOM and RIGHT the byte holds two bits:

- an *open* bit (bits 7, 5, 3, 1), saying the pipe has an opening that way;
- a *connected* bit just below it (bits 6, 4, 2, 0), caching whether that opening meets an opening of the neighbouring cell.

This project models the engine of the game (`a3.c` and `framework.c`) and proves properties of the model:

- **Pipes** (`pipes.dfy`): the bit layout of a pipe byte, the left and right rotations of a byte, and setting one connected bit.
- **Boards** (`board.dfy`): board geometry, including the uint8_t wrap-around of a step off the edge. It also holds the `Board` class over a two-dimensional byte array, with `checkConnection`, `setConnectedBitInDirection`, `setConnectedBits` and `rotatePipe`. Every method is tied to a function on grid values (`seq<seq<bv8>>`). The central invariant is *consistency*: every connected bit equals "both openings face each other". An accepted rotation keeps this invariant.
- **Connectivity** (`solver.dfy`): the depth-first search `arePipesConnectedM` over the `int8_t` marker array `path`, and its wrapper `arePipesConnected`. One turn of the search's loop over the four directions is a method of its own (`TryDirection`), which calls back into the search. On boards of at most 127 cells, the answer is proved equal to reachability along connected bits.
- **Ascii** (`ascii.dfy`): the C-string and `tolower`/`toupper` conventions the text handling relies on.
- **Commands** (`parser.dfy`):
  - `parseCommand` and `parseCommandRotate`, with `strtok` tokenizing, lowering of the command word, and `strtol` number reading including overflow and the `int` and `uint8_t` conversions;
  - the usage-error result, and the result for an unknown command.
- **Highscores** (`highscore.dfy`): the table of `count` entries, in which a score of 0 marks a free slot. It covers `doesScoreBeatHighscore`, the insertion loop of `handleScore`, and the name check of `beatHighscore`.
- **Rendering** (`render.dfy`): the pure helpers of `printMap`. These are `pipeToChar`, `specialPipeToChar`, `getNumberOfDigits` and `power` (computed in uint8_t), plus the digit arithmetic of the column header.
- **Session** (`session.dfy`): `getInput`, `runCommand` and `runGame` over a finite trace of input lines. A reference function `Play` describes a whole game. Lemmas relate the outcome, the score and the final board to it.

Where the design of the game and its code differ, the model follows the code:

- **The score counts rounds, not successful rotations.** `runGame` increments its round counter whenever `runCommand` returns true. That happens for every command except a rejected rotation, so HELP, QUIT and RESTART count as well. The score is `round - 1` (`ScoreCountsRounds`). One consequence: if the puzzle is already solved and the first command is a rejected rotation, the score is 0, and `main` records nothing.
- **Insertion is not stable.** The insertion loop swaps on a strictly greater score. So two entries with equal scores that lie behind the insertion point can trade places (`TiesBehindTheInsertionPointMaySwap`). The table stays sorted by score.
- **The dropped entry may not be the last one.** When the table is full, the entry pushed out carries the largest score (`DroppedHasLargestScore`). It is the first entry of the table that holds that score (`DroppedIsFirstLargest`).

## Model

| member | source | states |
|---|---|---|
| Pipes.MasksAreShifts | a3.c:799-804 | the open bit of direction d is `0x80 >> 2d`; the connected bit is `SWITCH >> 2d`, the bit just below the open bit |
| Pipes.IsPipeOpenInDirection | a3.c:799-804 | a pipe is open towards d exactly when its bit `0x80 >> 2d` is set |
| Pipes.OpenMask | framework.c:14 | `pipe & 0xAA` keeps exactly the four open bits and clears every connected bit |
| Pipes.BitsDetermineByte | a3.c:552-563 | two bytes with the same four open bits and the same four connected bits are equal |
| Pipes.RotateLeft | a3.c:492-495 | after a left rotation, the pipe is open (connected) towards the next direction exactly when it was open (connected) towards d |
| Pipes.RotateRight | a3.c:496-499 | after a right rotation, the pipe is open (connected) towards d exactly when it was open (connected) towards the next direction; bits shifted past bit 7 are dropped, as the store into a uint8_t drops them |
| Pipes.LeftThenRight | a3.c:492-499 | a right rotation undoes a left rotation |
| Pipes.RightThenLeft | a3.c:492-499 | a left rotation undoes a right rotation |
| Pipes.FourLeftRotations | a3.c:492-495 | four left rotations give back the original byte |
| Pipes.FourRightRotations | a3.c:496-499 | four right rotations give back the original byte |
| Pipes.Rotate | a3.c:490-499 | the byte stored for LEFT is undone by a right rotation, the byte for RIGHT by a left rotation; TOP and BOTTOM keep the byte |
| Pipes.OpenCount | framework.c:14-42 | a pipe has at most four openings, and none exactly when its open half is 0 |
| Pipes.RotationKeepsOpenCount | a3.c:490-501 | the byte rotatePipe stores has as many openings as before, whatever the direction |
| Pipes.WithConnected | a3.c:552-563 | the connected bit of d becomes the outcome of the check, and every other bit (every open bit among them) is kept |
| Pipes.OppositeIsInvolution | a3.c:779-790 | the opposite of the opposite direction is the direction itself, and no direction is its own opposite |
| Pipes.GetOppositeDirection | a3.c:779-790 | two decrements, each wrapping below TOP to RIGHT, give the direction two steps away |
| Boards.MoveInDirection | a3.c:736-753 | TOP and BOTTOM change only the row and LEFT and RIGHT only the column, and the changed coordinate always differs from the old one |
| Boards.MoveThereAndBack | a3.c:736-753 | a step towards d followed by a step towards the opposite direction returns to the cell, uint8_t wrap-around included |
| Boards.MoveLeavesCell | a3.c:736-753 | a step always leaves the cell, and steps in two different directions reach two different cells |
| Boards.OnBoardIff | a3.c:762-770 | the test that rejects a row above height - 1, a column above width - 1 and negative values holds exactly when row < height and col < width |
| Boards.WrappedStepIsOffBoard | a3.c:736-770 | a step over the top or left edge wraps to 255, which is never on the board |
| Boards.ReciprocalDependsOnOpenBits | a3.c:574-591 | whether two openings face each other depends on the open bits alone |
| Boards.WithUpdatedBit | a3.c:538-565 | setConnectedBitInDirection sets exactly one bit, the bit of p towards d, to whether the openings face each other; no other bit of the board changes |
| Boards.RefreshUpTo | a3.c:515-529 | after k iterations of the loop, the bits of p towards the first k directions, and the bits of the neighbours facing p, equal reciprocal openness; every other bit and every open bit is kept |
| Boards.NeighbourKeepsOtherBits | a3.c:515-529 | setConnectedBits(p) leaves every bit of a neighbour that does not face p unchanged |
| Boards.RefreshedSpec | a3.c:515-529 | after setConnectedBits(p), the four bits of p and the facing bits of its on-board neighbours are repaired; open bits, the neighbours' other bits and all other cells are unchanged |
| Boards.Rotated | a3.c:490-503 | storing the rotated byte keeps the grid's dimensions |
| Boards.RefreshRepairs | a3.c:501-503 | if a consistent board changed only in the byte of p, refreshing around p makes it consistent again |
| Boards.RotationPreservesConsistency | a3.c:474-506 | an accepted rotation keeps every connected bit equal to reciprocal openness |
| Boards.Board.constructor | a3.c:45-52 | the board holds the given dimensions, start, end and cell bytes |
| Boards.Board.CheckConnection | a3.c:574-591 | the answer is true exactly when the neighbour towards d is on the board and open back towards p |
| Boards.Board.SetConnectedBitInDirection | a3.c:538-565 | the new board is the WithUpdatedBit grid of the old board |
| Boards.Board.SetConnectedBits | a3.c:515-529 | the new board is the refreshed grid of the old board |
| Boards.Board.RotatePipe | a3.c:474-506 | the rotation is accepted exactly when the cell is on the board and is neither start nor end. If accepted, the board becomes the rotated grid; otherwise it is unchanged. Consistency is kept |
| Connectivity.StepBit | framework.c:159 | `0x1 << 2*(3 - dir)` is the connected bit of dir |
| Connectivity.Neighbour | framework.c:157-163 | when the edge test lets a step through, the computed neighbour is on the board and is the cell moveCoordiantesInDirection reaches |
| Connectivity.ReachableFromItself | framework.c:149-152 | every cell reaches itself, so a search from the dest cell answers true at once |
| Connectivity.ReachableThroughNeighbour | framework.c:159-167 | a connected step from a cell to a neighbour that reaches dest means the cell reaches dest |
| Connectivity.IndexInRange | framework.c:9 | the row-major index `width * row + col` of an on-board cell lies inside `path` |
| Connectivity.IndexInjective | framework.c:9 | two on-board cells with the same index are the same cell |
| Connectivity.ArePipesConnectedM | framework.c:147-173 | markers only go from 0 to a positive depth. True means dest is reachable from coord. False means coord and every other cell this call entered have all their connected steps leading to entered cells |
| Connectivity.TryDirection | framework.c:155-171 | one turn of the direction loop: true means dest is reachable from coord; false means the connected step towards dir (if any) leads to an entered cell, and every cell entered meanwhile is finished |
| Connectivity.DepthFits | framework.c:149-153 | with two distinct cells (coord and dest) both unentered, the depth bound (val plus the number of unentered cells at most n + 1) leaves val at most n - 1, so on at most 127 cells the marker fits an int8_t |
| Connectivity.MarkShrinks | framework.c:153 | writing a positive depth over an unvisited marker enters that cell and removes one cell from the unentered ones |
| Connectivity.AfterNestedSearch | framework.c:164-167 | a nested search that fails keeps the markers growing, every entered cell finished and the directions already tried leading to entered cells |
| Connectivity.FinishedCellsAreClosed | framework.c:155-172 | if start is entered and every entered cell has all its steps into entered cells, then every cell reachable from start is entered |
| Connectivity.ArePipesConnected | framework.c:176-185 | on a board of at most 127 cells, the answer is exactly whether dest is reachable from start along connected bits |
| Connectivity.StepIsReciprocalOpenness | framework.c:159 | on a consistent board, a step the search takes is exactly a pair of openings facing each other |
| Ascii.CString | framework.c:217-220 | what C sees of a line is the longest prefix without NUL, it stops at a NUL when one exists, and a line without NUL is seen whole |
| Ascii.ToLower | framework.c:293-296 | tolower maps exactly the upper-case ASCII letters to their lower-case letters (plus 32) and keeps every other character |
| Ascii.ToUpper | a3.c:682-694 | toupper maps exactly the lower-case ASCII letters to their upper-case letters (minus 32) and keeps every other character |
| Ascii.Lower | framework.c:293-296 | the lowered token has the same length and no upper-case letter; each upper-case letter becomes its lower-case partner (plus 32) and every other character is kept |
| Ascii.LowerIsIdempotent | framework.c:293-296 | lowering an already lowered token changes nothing |
| Ascii.LowerInPlace | framework.c:293-296 | the in-place lowering loop leaves the array holding the lowered token |
| Commands.SplitGivesTokens | framework.c:292 | every piece strtok returns is non-empty and contains none of " \t\n" |
| Commands.TokensAreTokens | framework.c:292 | every token of a line is non-empty and contains no separator |
| Commands.SplitIsEmptyIffBlank | framework.c:292-300 | the split of a rest of line is empty exactly when no token is pending and the rest holds only separators |
| Commands.NoTokensIffBlank | framework.c:292-300 | strtok finds no token exactly when the line holds only spaces, tabs and newlines |
| Commands.SplitReadsToken | framework.c:292 | a token followed by more text is read as one piece and splitting goes on after it |
| Commands.TokensOfJoinStep | framework.c:292 | the tokens of one token, a space and the joined rest are that token followed by the tokens of the rest |
| Commands.TokensOfJoin | framework.c:292 | tokenizing tokens joined by single spaces gives back exactly those tokens |
| Commands.LeadingSpaces | framework.c:261 | strtol skips exactly the leading run of white space |
| Commands.LeadingDigits | framework.c:261 | strtol reads exactly the leading run of decimal digits |
| Commands.ClampToLong | framework.c:261 | strtol's out-of-range answer lies within the range of a 64-bit long and equals the number when it fits |
| Commands.StrToL | framework.c:261 | the value lies within the range of a 64-bit long, and the end offset lies within the token |
| Commands.SignedNumber | framework.c:261 | after the white space, the value lies within the range of long and the end offset within the token |
| Commands.ToInt32 | framework.c:261 | `int num = strtol(...)` gives a value in the int range, equal to the long when that fits |
| Commands.ParseNumber | framework.c:261-266 | a token without any digit is refused |
| Commands.Decimal | framework.c:261 | the decimal writing of a number is all digits, without a leading zero |
| Commands.DigitsValueOfDecimal | framework.c:261 | the decimal writing of n reads back as n |
| Commands.ParseNumberOfDecimal | framework.c:261-266 | the decimal writing of any n from 1 to 2^31 - 1 is accepted as n modulo 256 |
| Commands.LargeNumbersWrap | framework.c:266 | the `(uint8_t)` cast turns "257" into 1 and "256" into 0 |
| Commands.LeadingDigitsOfDigits | framework.c:261 | strtol uses every character of a string made of digits |
| Commands.LeadingSpacesOfSpaces | framework.c:261 | strtol skips exactly a written run of white space when no white space follows it |
| Commands.ParseNumberOfWritten | framework.c:260-266 | a token of white space, an optional `+` or `-` and digits (leading zeros allowed) is accepted exactly when its signed value, clamped to long and cut to int, is at least 1, and is then that value modulo 256 |
| Commands.StrToLOfWritten | framework.c:261 | strtol reads all of such a token, and its value is the signed number clamped to long |
| Commands.StrToLAfterSpaces | framework.c:261 | once the white space is skipped, strtol reads the sign and all the digits |
| Commands.SignedNumberOfWritten | framework.c:261 | a sign followed by digits is read whole, negated for `-` |
| Commands.NonPositiveNumbersRefused | framework.c:262 | "-5" and "0" are refused as row or column |
| Commands.BlankLineIsNoCommand | framework.c:292-301 | a line parses to NONE exactly when it holds only separators |
| Commands.ParseRotate | framework.c:235-287 | a successful parse gives a ROTATE command towards LEFT or RIGHT, from exactly three arguments |
| Commands.ParseTokens | framework.c:290-329 | NONE comes from a line with no tokens and from nothing else; the usage error comes only from a first token that lowers to "rotate" |
| Commands.Parse | framework.c:290-329 | a line without NUL is parsed from its tokens, whole |
| Commands.CommandWordIgnoresCase | framework.c:293-322 | two command words that agree after lowering parse the same line the same way |
| Commands.TrailingArgumentsIgnored | framework.c:311-322 | help, quit and restart are accepted whatever tokens follow them |
| Commands.UnknownWordIsReturnedLowered | framework.c:323-326 | the unknown-command result carries the lowered first token, and happens exactly when that token is none of the four command words |
| Commands.RotateArguments | framework.c:235-287 | a rotate line succeeds exactly with "left" or "right" (any case) and two accepted numbers, and with nothing more; every other rotate line is the usage error |
| Commands.NumberNeedsAllCharacters | framework.c:261-265 | a token is accepted as a number exactly when strtol reads all of it and the int value is at least 1 |
| Highscores.FirstFreeSlot | a3.c:617-621 | the index found is a free slot, and no free slot comes before it |
| Highscores.InsertionPoint | a3.c:613-628 | the new entry lands at the first slot that is free or holds a strictly greater score; every slot before it is used, with a score no greater than the new one |
| Highscores.MaxScore | a3.c:613-628 | the maximum bounds every score of the table and is one of them |
| Highscores.Inserted | a3.c:613-628 | the insertion loop keeps the table's size |
| Highscores.InsertedExchange | a3.c:613-628 | as multisets, the new table plus the dropped entry equal the old table plus the new entry |
| Highscores.InsertedEntriesComeFrom | a3.c:613-628 | every entry of the new table was in the old table or is the new entry |
| Highscores.NoQualificationNoChange | a3.c:605-629 | for a score that does not qualify, the loop would leave the table exactly as it was |
| Highscores.QualifyingEntryIsPlaced | a3.c:613-628 | a qualifying entry lands at the insertion point, and every slot before it keeps its entry |
| Highscores.DroppedIsFirstFreeSlot | a3.c:617-621 | in a table with a free slot, the slot given up is the first free one, so every used entry survives |
| Highscores.Dropped | a3.c:613-628 | the entry the loop still holds at the end is the new entry or one of the table |
| Highscores.DroppedIsFirstLargest | a3.c:613-628 | in a full table into which the new entry qualifies, the entry pushed out is the first entry of the table holding the largest score |
| Highscores.DroppedHasLargestScore | a3.c:613-628 | in a full table, the entry pushed out carries the largest score among the table and the new entry |
| Highscores.ShapedTail | a3.c:613-628 | the tail of a well-kept table is well kept |
| Highscores.ShapedCons | a3.c:613-628 | an entry that fits before a well-kept table gives a well-kept table |
| Highscores.InsertionKeepsShape | a3.c:613-628 | inserting a score of at least 1 keeps a table in shape: free slots last, used slots ascending |
| Highscores.LastIsLargest | a3.c:613-628 | in a full, well-kept table the last entry has the largest score |
| Highscores.InsertionOnShapedTable | a3.c:600-632 | on a well-kept table, a qualifying score of at least 1 gives a table of the same size, still in shape, holding the new entry behind all entries with a lower or equal score. With a free slot, exactly that slot is given up; otherwise exactly one entry with the last (largest) score is dropped |
| Highscores.ExchangeInMultiset | a3.c:613-628 | exchanging one element of a multiset for another is a removal followed by an addition |
| Highscores.TiesBehindTheInsertionPointMaySwap | a3.c:622-627 | inserting X 3 into [A 5, B 5, C 7] gives [X 3, B 5, A 5]: tied entries can change order |
| Highscores.InsertionExamples | a3.c:613-628 | 5 into [3, free, free] gives [3, 5, free]; 1 into [3, 5, free] gives [1, 3, 5]; 9 does not qualify for [1, 2, 3] |
| Highscores.ValidNamesAreLetters | a3.c:680-694 | a name passes the check exactly when it has three characters, each an ASCII letter of either case |
| Highscores.CheckName | a3.c:680-694 | the name is accepted exactly when what C sees of the line passes the check, and the accepted name is upper-cased |
| Highscores.InsertionStep | a3.c:613-628 | one iteration of the loop keeps "written prefix plus insertion of the rest equals the insertion into the whole table" |
| Highscores.Highscore.constructor | a3.c:60-64 | the table holds the given entries |
| Highscores.Highscore.DoesScoreBeatHighscore | a3.c:641-652 | the answer is true exactly when some slot is free or holds a strictly greater score |
| Highscores.Highscore.InsertEntry | a3.c:613-628 | the array afterwards holds the insertion of the new entry into the old table |
| Highscores.Highscore.HandleScore | a3.c:600-632 | a qualifying score is inserted under the given name; any other score leaves the table unchanged |
| Rendering.PipeToChar | framework.c:12-43 | every ordinary cell is drawn as exactly one character |
| Rendering.SpecialPipeToChar | framework.c:46-61 | every start or end cell is drawn as exactly one character |
| Rendering.OpenMaskOfOpenBits | framework.c:14 | bytes with the same open bits have the same open half |
| Rendering.GlyphIgnoresConnectedBits | framework.c:12-61 | setting or clearing a connected bit never changes the glyph of either kind of cell |
| Rendering.InvalidGlyphIffOneOpening | framework.c:12-43 | an ordinary cell shows the invalid glyph exactly when its pipe has exactly one opening |
| Rendering.SpecialGlyphIffOneOpening | framework.c:46-61 | the start or end cell shows a proper glyph exactly when its pipe has exactly one opening |
| Rendering.Pow10 | framework.c:74-88 | every power of ten is positive |
| Rendering.GetNumberOfDigits | framework.c:64-71 | a uint8_t has at most 3 digits, at most 2 below 100 and at most 1 below 10 |
| Rendering.NumberOfDigitsBounds | framework.c:64-71 | 0 has no digits, and a positive n has d digits with 10^(d-1) <= n < 10^d |
| Rendering.MultiplyModulo | framework.c:86 | reducing a factor modulo 256 before multiplying does not change the product modulo 256 |
| Rendering.Power | framework.c:74-88 | power(b, e), computed in uint8_t, is b^e modulo 256 |
| Rendering.PowersOfTen | framework.c:74-88 | power(10, e) is exact for e <= 2, while power(10, 3) is 232 and power(10, 8) is 0 |
| Rendering.HeaderDivisorsAreExact | framework.c:99-111 | every divisor the column header uses is the exact power of ten |
| Rendering.NextColumn | framework.c:106 | incrementing the uint8_t counter wraps 255 to 0 |
| Rendering.HeaderLoopStops | framework.c:106-110 | on a board narrower than 255 columns, the header loop prints one digit per column and stops |
| Rendering.HeaderLoopNeverEndsOnWidestBoard | framework.c:106-110 | on a board 255 columns wide, the loop prints one digit in every iteration it is given, so it never ends |
| Rendering.ColumnHeaderLine | framework.c:99-111 | one header line has one digit per column: the digit of the column number that belongs to that line |
| Rendering.ColumnHeaderSpellsColumn | framework.c:99-111 | read from top to bottom, the header lines above column c spell c in decimal |
| Session.Decrement | a3.c:409-410 | `(*row)--` on a uint8_t subtracts one, and 0 wraps to 255 |
| Session.GetInput | a3.c:391-431 | the end of input gives QUIT; a command read is never NONE; every read consumes at least one line, and the rest is a suffix of the trace |
| Session.FirstUnskipped | a3.c:421-430 | every line before the found position makes getInput prompt again, and the line at it does not |
| Session.GetInputFindsFirstCommand | a3.c:391-431 | getInput skips exactly the blank, rotate-usage and unknown-command lines. Then it either returns QUIT at the end of input, fails at a failed read, or returns the line's command, with row and column decremented, and the lines after it |
| Session.Execute | a3.c:440-465 | only QUIT halts and only RESTART asks for a restart; the round advances for every command except a rejected rotation; only an accepted rotation changes the board |
| Session.RunCommand | a3.c:440-465 | the returned flag, the stop value and the new board are what Execute describes for the old board |
| Session.ToSignedChar | a3.c:342-345 | the conversion to a signed char keeps every value from -128 to 127 and otherwise keeps the value modulo 256 |
| Session.NextRoundConvertsBack | a3.c:342-345 | `round++` on a signed char is the signed-char conversion of round + 1, so 127 wraps to -128 |
| Session.Play | a3.c:309-382 | a game leaves a board of the same shape |
| Session.PlayStep | a3.c:336-370 | one turn of the loop: the game ends on restart, on quit, or (with score round - 1) when start and end are connected; otherwise it goes on from the new board and round |
| Session.RunGame | a3.c:309-382 | the outcome and the final board are those Play describes from round 1 |
| Session.SolvedMeansConnected | a3.c:357-379 | a game that ends solved leaves start and end connected |
| Session.MovesAtMostLines | a3.c:309-382 | a game advances the round at most once per line read, plus once for the end of input; a solved game at most once per line |
| Session.ScoreCountsRounds | a3.c:342-378 | while the counter does not pass 127, the score is the starting round plus the number of advancing commands, minus one |
| Session.ScoreOfAShortGame | a3.c:342-378 | a solved game of at most 126 lines scores exactly its number of advancing commands, between 0 and 126 |
| Session.PlayKeepsConsistency | a3.c:309-382 | no game breaks the consistency of the connected bits |
| Session.ScoreToRecord | a3.c:143-146 | main hands a score to handleScore exactly when the game was solved with a score other than 0, and the score handed over is the game's |
| Session.RecordedScoreFitsTable | a3.c:143-146 | after a short game, main records a score exactly when the game was solved with some advancing command; that score is the count of such commands, and between 1 and 126 |

## Findings

| source | as written | input that shows it | evidently intended | confidence | as-written member | corrected member |
|---|---|---|---|---|---|---|
| framework.c:106 | the header loop `for (uint8_t j = 1; j <= width; ++j)` uses a uint8_t counter, which wraps from 255 to 0 while the guard `j <= 255` still holds | a board with width 255 | one header digit per column, then the loop ends | medium, not executed | Rendering.HeaderLoopNeverEndsOnWidestBoard | Rendering.ColumnHeaderLine |

## Left out

- Input and output: every `printf`, the prompt, the help text and the board drawing done by `printMap`. Only the pure helpers of `printMap` and its header digits are modelled.
- `getLine` and the reading of `stdin`. The player's lines are a finite `seq<Input>`. A failed allocation is an `Input` value. EOF is the end of the sequence.
- File loading: `loadGame`, `openConfigFile`, `loadConfigFile`, `loadHighscoreList` and `loadGameBoard` (a3.c:159-300) open the files, check the magic number and read the board and the table with `fread`. This is file I/O and is left out. The board and the table are built from already decoded values.
- Boards.Board.constructor: requires start and end to lie on the board. No loader in the source checks this, so the model assumes a well-formed configuration file.
- `main`'s restart loop: it reloads the configuration file, so it depends on loading. Only the decision that hands the score to `handleScore` is modelled (`Session.ScoreToRecord`).
- `freeResources`, `exitApplication`, `printHighscore`, writing the table back, and memory allocation in general.
- `beatHighscore`: the read loop is I/O. At EOF it spins forever, and on a failed read it exits the process. Only its name check is modelled (`CheckName`).
- Connectivity.ArePipesConnected: requires at most 127 cells. Beyond that, the depth of the search no longer fits an `int8_t` marker: a depth of 128 or more reads as a negative marker, and 255 reads as the dest marker -1. The wrapping conversion is written out (`ToInt8`), but no claim is made about larger boards.
- Session.RunGame: requires at most 127 cells, for the same reason.
- Boards.Board.RotatePipe: preserves consistency of the connected bits only when it already holds. No loader establishes it, so it is a hypothesis of the lemmas that need it.
- Session.ScoreCountsRounds: stated only while the signed-char round counter stays at most 127. The counter itself wraps at 127 (`NextRound`, following the usual GCC and Clang conversion). The score handed to `handleScore` after more rounds, and its `uint8_t` truncation, are not modelled.
- Highscores.Highscore.HandleScore: requires a score from 1 to 255 and a three-letter name. The `uint8_t` truncation of larger scores is not modelled. `ScoreOfAShortGame` shows that games of up to 126 lines meet this requirement.
- `parseCommand` writes the direction through a `size_t*` into a `Direction` variable. The direction is modelled as its value, not the write's width.
- Locale: `tolower`, `toupper` and `isspace` are modelled for the "C" locale.
- Commands.StrToL: the result of `strtol` is clamped to a 64-bit `long` and `errno` is left out. The conversion to `int` keeps the low 32 bits, which is implementation-defined behaviour in C.
