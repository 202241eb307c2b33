# Housie game backend: ticket generator and game service

A Dafny model of the two services at the heart of a housie (tambola, bingo)
backend:

- **The ticket generator** (`src/services/ticketService.ts`). It builds a
  3 x 9 ticket in three steps:
  - it chooses how many numbers each column gets: one to three, fifteen in all;
  - it draws that many distinct numbers from each column's decade and sorts them;
  - it places them into rows at random, at most five per row.

  The model is imperative, like the source. The ticket is an `array2`, and the
  counters are arrays changed inside `for`/`while` loops. `Math.random` is a
  nondeterministic choice (`:|`), or six random row indices passed in for one
  number, so every property holds for every random outcome.
- **The game service** (`src/services/gameService.ts`). It covers:
  - the game status machine (scheduled, live, finished);
  - calling numbers;
  - selling tickets into a prize pool net of rake;
  - the pattern check (`internalCheckPattern`);
  - win claims with per-pattern caps, one claim per ticket and pattern, the
    payout rule, and the comma-separated list of won patterns on a ticket.

  The database is a `GameStore` object whose `games`, `tickets` and `winnings`
  fields are the three tables, held as sequences. A row's serial id is its
  position plus one. Each transaction is one method that either commits in
  full or leaves the tables alone, which is what the source's BEGIN/ROLLBACK,
  row locks and guarded single-statement UPDATEs give. Money is `real`, an
  exact stand-in for the DECIMAL(36,18) columns.

The store's invariant is `GameState.Consistent`, and every method preserves
it. It says:

- each game's pool equals tickets sold times the net contribution;
- called numbers are distinct and within 1..90, and none is called before
  the game goes live;
- every ticket belongs to a stored game and is a valid housie ticket
  (`TicketLayout.ValidTicket`): 3 x 9, every number in its column's range,
  none twice, at most five per row, one to three per column, at most 15 in all;
- every winning is backed by its ticket's numbers and the game's calls, and
  is paid the pattern's payout of the game's pool;
- no pattern of a game exceeds its winner cap;
- no ticket wins a pattern twice;
- each ticket's `is_winner` and `winning_pattern` agree with its winnings.

Files and modules:

| file | module | what it holds |
|---|---|---|
| `seqs.dfy` | `Seqs` | `Option`, sums, distinctness, splice, insertion sort, pigeonhole |
| `ticket_layout.dfy` | `TicketLayout` | the grid, cells, column ranges, what a well-formed ticket is |
| `ticket_service.dfy` | `TicketService` | `getRandomNumberInRange`, `generateTicket` and its placement step |
| `winning_patterns.dfy` | `WinningPatterns` | `WINNING_PATTERNS_CONFIG`, ASCII upper-casing |
| `pattern_matcher.dfy` | `PatternMatcher` | `internalCheckPattern` and the rule of each pattern |
| `pattern_list.dfy` | `PatternList` | `split(',')`, `join(',')`, the new `winning_pattern` value |
| `game_state.dfy` | `GameState` | table rows, `GameStatus`, money, queries, the store invariant |
| `game_steps.dfy` | `GameSteps` | that each committed write keeps the invariant |
| `game_service.dfy` | `GameService` | the `GameStore` class and the service operations |

## Model

| member | source | states |
|---|---|---|
| `TicketService.RandomNumberInRange` | src/services/ticketService.ts:13-19 | the number returned lies in [min, max] and is not one of the excluded numbers |
| `TicketService.DistributeColumnCounts` | src/services/ticketService.ts:31-62 | for every sequence of random column picks, each column count is between 1 and 3 and the counts sum to 15 |
| `TicketService.RandomBumps` | src/services/ticketService.ts:44-53 | the random phase keeps every count within [1, 3], never places more than is left, and preserves counts placed plus numbers left |
| `TicketService.ForcedBumps` | src/services/ticketService.ts:54-62 | the left-to-right pass places everything still left (the columns have room for 27), keeping counts within [1, 3] |
| `TicketService.DrawColumnNumbers` | src/services/ticketService.ts:67-74 | a column's list has exactly `count` numbers of the column's range, pairwise distinct and sorted ascending |
| `TicketService.FirstFit` | src/services/ticketService.ts:83-87 | the random attempt that succeeds is the first pick landing on a row below five; none succeeds exactly when every pick lands on a full row |
| `TicketService.FallbackRow` | src/services/ticketService.ts:100-101 | the fallback takes the first row whose cell in the column is empty and whose counter is below five; there is none exactly when no row qualifies |
| `TicketService.PlaceAsWritten` | src/services/ticketService.ts:80-112 | one number's placement as written, as a function of the state and the six picks; what it keeps is stated by `PlaceAsWrittenKeepsCounted`, what it breaks by `FallbackThenPickOverwrites` |
| `TicketService.Place` | src/services/ticketService.ts:80-112 | the corrected placement: as written, and a fallback row is withdrawn too; what it keeps is stated by `PlaceKeepsColumnInv` |
| `TicketService.PutNumber` | src/services/ticketService.ts:88-89 | writing a number sets exactly that cell and adds one to exactly that row's counter |
| `TicketService.TryRandomRows` | src/services/ticketService.ts:82-94 | the random attempts place the number as `FirstFit` says: the chosen row's cell is written and its counter raised; with no fit nothing changes (the caller splices the row out of `availableRows`) |
| `TicketService.FallbackPlace` | src/services/ticketService.ts:95-107 | the fallback places the number in the row `FallbackRow` names, or changes nothing |
| `TicketService.PlaceNumberAsWritten` | src/services/ticketService.ts:80-112 | placing one number on the arrays, splicing a randomly picked row out of `availableRows` and leaving a fallback row in it, yields exactly the state the as-written step `PlaceAsWritten` computes |
| `TicketService.PlaceNumber` | src/services/ticketService.ts:80-112 | placing one number with the corrected fallback yields exactly the state `Place` computes |
| `TicketService.PutKeepsColumnInv` | src/services/ticketService.ts:87-91 | writing into an empty cell of a row below five and withdrawing that row keeps the column invariant: counters count cells, no counter exceeds five, the rows on offer are exactly those still empty in the column |
| `TicketService.PutIsStepOk` | src/services/ticketService.ts:87-91 | such a write is a good step: only that cell changes, it was empty, and the number is now in the column |
| `TicketService.RandomPickIsStepOk` | src/services/ticketService.ts:83-93 | the random path never uses a row twice for one column and never overwrites a number |
| `TicketService.FallbackIsStepOk` | src/services/ticketService.ts:100-104 | the corrected fallback writes only into a still-empty cell of a row below five |
| `TicketService.NotPlacedIsStepOk` | src/services/ticketService.ts:108-111 | a number that finds no row changes nothing, and happens only when no row with an empty cell has room |
| `TicketService.PlaceKeepsColumnInv` | src/services/ticketService.ts:80-113 | each corrected placement step keeps the column invariant, never overwrites a number, and keeps every row counter at or below five |
| `TicketService.PutIsStepCounted` | src/services/ticketService.ts:87-91 | as written, writing a number into any cell of the column in a row below five keeps every counter at most five and at least its row's filled cells of the column, and raises the counters' sum by one |
| `TicketService.RandomPickIsStepCounted` | src/services/ticketService.ts:83-93 | the random path as written is such a step |
| `TicketService.FallbackIsStepCounted` | src/services/ticketService.ts:95-107 | the fallback as written, its row left on offer, is such a step |
| `TicketService.NotPlacedIsStepCounted` | src/services/ticketService.ts:108-111 | as written, a number that finds no row changes nothing, and this happens only when no row with an empty cell in the column has room |
| `TicketService.PlaceAsWrittenKeepsCounted` | src/services/ticketService.ts:80-113 | every step as written keeps each counter at most five (both paths test below five first) and at least the cells of its row, writes only into column `col`, empties no filled cell, raises the counters' sum by at most one, and places the number while some row with an empty cell has room |
| `TicketService.ColumnInvStart` | src/services/ticketService.ts:77-78 | a column that is still empty, with every row on offer, satisfies the column invariant |
| `TicketService.ColumnLoopStep` | src/services/ticketService.ts:80-113 | one pass of the per-number loop keeps the loop invariants, including the bound placed <= numbers so far |
| `TicketService.PlaceColumn` | src/services/ticketService.ts:76-113 | each number of a column goes into a row of its own, into empty cells only; placements never exceed the column's count, and the column gets a number while any row has room |
| `TicketService.ColumnLoopStepAsWritten` | src/services/ticketService.ts:80-113 | one pass of the per-number loop as written keeps its invariants: counters bound the column, their sum is at most the numbers so far, and the column is filled once a number was due and a row had room |
| `TicketService.PlaceColumnAsWritten` | src/services/ticketService.ts:76-113 | placing a column as written leaves other columns alone, keeps every counter at most five and at least its row's cells, puts only the column's numbers in it, none twice, and gives it a number while any row has room |
| `TicketService.ExampleStartIsValid` | src/services/ticketService.ts:77-78 | the starting state of the overwrite example meets the column invariant, and `ExampleTicketReachable` shows its ticket meets the generator's invariant |
| `TicketService.ExampleTicketReachable` | src/services/ticketService.ts:66-113 | the example's ticket (1, 10, 20, 30, 40 in row 0, counters 5, 0, 0) meets the generator's invariant after five columns, so the example starts from a state the loop can reach |
| `TicketService.FallbackThenPickOverwrites` | src/services/ticketService.ts:100-107 | as written: after a fallback placement, the row stays in `availableRows`; a following random pick of it overwrites the cell, the first number is lost, and that row's counter rises by two for one cell |
| `TicketService.FallbackOverwriteExample` | src/services/ticketService.ts:80-107 | a concrete state and random picks (row 0 holds 1, 10, 20, 30, 40 with counter 5, column 5 empty, every pick on row 0) that meet every hypothesis of the overwrite lemma |
| `TicketService.NoRepeatsFromColumns` | src/services/ticketService.ts:68-69 | columns of distinct numbers, each in its own disjoint range, give a grid with no number twice |
| `TicketService.TicketSoFarStart` | src/services/ticketService.ts:27-32 | the all-null 3 x 9 grid with zero counters starts the column loop |
| `TicketService.TicketBoundedStep` | src/services/ticketService.ts:66-113 | filling one more column as written, with in-range numbers, keeps later columns empty, numbers in range, columns distinct and filled, and every counter between its row's numbers and five |
| `TicketService.TicketSoFarStep` | src/services/ticketService.ts:66-113 | filling one more column with in-range numbers extends the ticket built so far by that column |
| `TicketService.RowCountsAfterColumn` | src/services/ticketService.ts:87-89 | with the corrected fallback, each `numbersPlacedInRow[r]` still equals the number of filled cells in row r |
| `TicketService.TicketSoFarDone` | src/services/ticketService.ts:114-127 | a finished ticket, corrected or as written, has numbers in range, no repeats, at most five per row, 1 to 3 per column, at most 15 in all |
| `TicketService.FillColumn` | src/services/ticketService.ts:66-113 | one iteration of the column loop draws and places the column's numbers and extends the ticket by that column |
| `TicketService.FillColumnAsWritten` | src/services/ticketService.ts:66-113 | one iteration of the column loop as written draws and places the column's numbers and keeps the bounded ticket invariant |
| `TicketService.GenerateTicket` | src/services/ticketService.ts:26-128 | the ticket has 3 rows of 9 cells; every number lies in its column's range, so in 1..90; no number appears twice; each row has at most five numbers, each column one to three, fifteen at most in all |
| `TicketService.GenerateTicketAsWritten` | src/services/ticketService.ts:26-128 | the generator exactly as written, fallback defect included, still returns 3 rows of 9 cells with every number in its column's range, no number twice, at most five per row, one to three per column, fifteen at most in all |
| `TicketLayout.ColumnRangesDisjoint` | src/services/ticketService.ts:68-69 | the column ranges (1-9, 10c..10c+9, 80-90) do not overlap and lie within 1..90 |
| `TicketLayout.Numbers` | src/services/gameService.ts:242 | filtering out the nulls keeps exactly the row's numbers, and no more of them than cells |
| `TicketLayout.AllNumbersOfThreeRows` | src/services/gameService.ts:232 | `flat().filter(...)` of a three-row ticket is the first row's numbers, then the second's, then the third's |
| `TicketLayout.NoRepeatsAllNumbersDistinct` | src/services/gameService.ts:232 | on a ticket with no number twice, `allNumbersOnTicket` has no repeats |
| `WinningPatterns.LookupIn` | src/services/gameService.ts:274-275 | a lookup finds an entry exactly when the table has that key, and the entry found carries the key |
| `WinningPatterns.LookupKnownKeys` | src/services/gameService.ts:48-56 | exactly the five keys EARLY_FIVE, TOP_LINE, MIDDLE_LINE, BOTTOM_LINE and FULL_HOUSE are found |
| `WinningPatterns.TableRowsSensible` | src/services/gameService.ts:51-55 | every pattern caps its winners at one or more and pays a share strictly between 0 and 1; only EARLY_FIVE sets `numbersRequired` |
| `WinningPatterns.TotalShareIsThreeQuarters` | src/services/gameService.ts:51-55 | the five shares add up to 0.75 of the pool |
| `WinningPatterns.Lookup` | src/services/gameService.ts:48-56 | looking a key up in `WINNING_PATTERNS_CONFIG` (the five rows of `PatternTable`) returns an entry of the table carrying that key |
| `WinningPatterns.UpperChar` | src/services/gameService.ts:260 | a lower-case ASCII letter maps to its capital (code minus 32); every other character is unchanged |
| `WinningPatterns.ToUpper` | src/services/gameService.ts:260 | upper-casing keeps the length and leaves no lower-case ASCII letter |
| `WinningPatterns.ToUpperIdempotent` | src/services/gameService.ts:260 | upper-casing twice equals upper-casing once |
| `WinningPatterns.KeysAreUpper` | src/services/gameService.ts:51-55 | every key of the table is its own upper-case form |
| `WinningPatterns.LiteralKeysUpper` | src/services/gameService.ts:234-252 | the five case labels are their own upper-case forms |
| `WinningPatterns.LookupIgnoresCase` | src/services/gameService.ts:260-275 | an upper-cased key is found exactly when it equals the upper-cased form of a table key |
| `PatternMatcher.CalledCount` | src/services/gameService.ts:237-238 | the count of called ticket numbers never exceeds the number of ticket numbers |
| `PatternMatcher.CountCalledOnTicket` | src/services/gameService.ts:237-238 | the counting loop computes `CalledCount` |
| `PatternMatcher.InternalCheckPattern` | src/services/gameService.ts:230-256 | the method with its counting loop returns exactly `CheckPattern` |
| `PatternMatcher.CheckPattern` | src/services/gameService.ts:230-256 | the pattern check on the key as given; its rules are stated by `CheckPatternIgnoresCase`, `CheckPatternImpliesKnown`, `LinePatternRule`, `FullHouseIsAllLines` and `EarlyFiveRule` |
| `PatternMatcher.CheckUpperKey` | src/services/gameService.ts:231-254 | the same check on an upper-cased key, the `switch` on its five cases with `false` for any other key |
| `PatternMatcher.CheckPatternImpliesKnown` | src/services/gameService.ts:231-254 | the check is true only on a ticket of exactly three rows and for a key whose upper-case form is in the table; otherwise it is false |
| `PatternMatcher.CheckPatternIgnoresCase` | src/services/gameService.ts:233 | the check gives the same answer for a key and for its upper-case form |
| `PatternMatcher.LineCompleteByCells` | src/services/gameService.ts:242-243 | a line is complete exactly when its row holds a number and every number in it has been called |
| `PatternMatcher.LinePatternRule` | src/services/gameService.ts:240-251 | TOP_LINE, MIDDLE_LINE and BOTTOM_LINE hold exactly when the ticket has three rows and that row holds a number, all of them called |
| `PatternMatcher.AllCalledOfThreeRows` | src/services/gameService.ts:232-253 | all of a ticket's numbers are called exactly when all numbers of each of its three rows are |
| `PatternMatcher.FullHouseIsAllLines` | src/services/gameService.ts:252-253 | FULL_HOUSE holds exactly when the ticket holds a number and every row's numbers are all called; all three lines complete imply FULL_HOUSE |
| `PatternMatcher.FullHouseGivesEarlyFive` | src/services/gameService.ts:234-253 | a full house on a ticket of at least five numbers also shows EARLY_FIVE |
| `PatternMatcher.CalledCountIsCalledSet` | src/services/gameService.ts:237-238 | on a ticket without repeats, the loop counts exactly the distinct called ticket numbers |
| `PatternMatcher.EarlyFiveRule` | src/services/gameService.ts:234-239 | on a ticket without repeats, EARLY_FIVE holds exactly when it has three rows and at least five of its numbers are called |
| `PatternMatcher.CalledCountGrows` | src/services/gameService.ts:237-238 | calling more numbers never lowers the count |
| `PatternMatcher.CheckPatternMonotone` | src/services/gameService.ts:230-256 | a pattern that holds keeps holding once more numbers are called |
| `PatternMatcher.CheckUpperKeyMonotone` | src/services/gameService.ts:233-253 | the same, for a key already upper-cased |
| `PatternMatcher.CheckPatternOrderFree` | src/services/gameService.ts:230-256 | the check depends only on which numbers are called, not on their order or repeats |
| `PatternList.Split` | src/services/gameService.ts:290 | `split(',')` yields at least one piece, and no piece contains a comma |
| `PatternList.Join` | src/services/gameService.ts:290 | joining with commas; `SplitJoin` states that splitting undoes it and `JoinAppend` that the template appends one piece |
| `PatternList.SplitCommaFree` | src/services/gameService.ts:290 | a comma-free string splits into itself alone |
| `PatternList.SplitAfterPiece` | src/services/gameService.ts:290 | splitting `a,rest` for a comma-free `a` yields `a` followed by the pieces of `rest` |
| `PatternList.SplitJoin` | src/services/gameService.ts:290 | splitting undoes joining with commas, for comma-free pieces |
| `PatternList.JoinAppend` | src/services/gameService.ts:290 | `` `${list},${key}` `` is the join of the list with `key` added at the end |
| `PatternList.NewWinningPattern` | src/services/gameService.ts:289-290 | the ticket's new `winning_pattern`; what it keeps and adds is stated by `NewWinningPatternAppends` |
| `PatternList.NewWinningPatternAppends` | src/services/gameService.ts:289-291 | a first win sets the column to the key; a further win appends the key when it is not yet listed and leaves the list alone when it is; the earlier keys are kept, and splitting the result gives exactly the new list |
| `GameState.StatusesOnlyAdvance` | src/services/gameService.ts:6-11 | over any run of operations a game's status never moves back and never becomes cancelled |
| `GameState.NetContribution` | src/services/gameService.ts:182-183 | with a non-negative price and a rake in [0, 100], what a ticket adds to the pool lies between 0 and the price; rake 0 adds the price, rake 100 adds nothing |
| `GameState.Payout` | src/services/gameService.ts:281-286 | one winner's prize is never negative, is refused only when the pattern's share of the pool is negative, and is 0 out of an empty pool |
| `GameState.PayoutFacts` | src/services/gameService.ts:281-286 | a pattern's payout is defined exactly when the pool is not negative; it is then not negative, the capped winners together get exactly the pattern's share of the pool, and an empty pool pays 0 |
| `GameState.FullHousePays` | src/services/gameService.ts:55 | the single FULL_HOUSE winner takes 0.40 times the pool |
| `GameState.TicketsSold` | src/services/gameService.ts:101 | the number of tickets naming a game, never more than the tickets; `TicketsSoldZero` and `TicketsSoldAppend` fix what it counts |
| `GameState.ClaimCount` | src/services/gameService.ts:276-277 | the number of a game's winnings for a pattern, never more than the winnings; `ClaimCountZero` and `ClaimCountAppend` fix what it counts |
| `GameState.PatternsWon` | src/services/gameService.ts:279 | the patterns listed for a ticket are exactly those of its winnings |
| `GameState.CalledAtMostNinety` | src/services/gameService.ts:142 | a consistent game has at most 90 numbers called |
| `GameState.NumberLeftToCall` | src/services/gameService.ts:142-145 | fewer than 90 called numbers leave an uncalled number in 1..90, and with 90 called none is left |
| `GameState.NinetyCalledHoldsAll` | src/services/gameService.ts:142 | ninety distinct called numbers in 1..90 include every number |
| `GameState.PoolNonNegative` | src/services/gameService.ts:281-285 | in a consistent store a prize pool is never negative |
| `GameState.KnownKeyShape` | src/services/gameService.ts:51-55 | a pattern key of the table is non-empty and has no comma, so it survives `split(',')` |
| `GameSteps.TicketsSoldAppend` | src/services/gameService.ts:177-178 | inserting a ticket raises its own game's count by one and leaves every other game's count alone |
| `GameSteps.TicketsSoldZero` | src/services/gameService.ts:88-90 | a game's count is 0 exactly when no ticket names it, so a new game starts with none sold |
| `GameSteps.TicketsSoldSameGame` | src/services/gameService.ts:291 | changing a ticket's flags, not its game, leaves every game's count alone |
| `GameSteps.ClaimCountAppend` | src/services/gameService.ts:288 | inserting a winning raises the count of its own game and pattern by one and leaves all others alone |
| `GameSteps.ClaimCountZero` | src/services/gameService.ts:276-278 | a pattern of a game has count 0 exactly when no winning names both |
| `GameSteps.PatternsWonAppend` | src/services/gameService.ts:288 | inserting a winning adds its pattern to the end of its ticket's won patterns and changes no other ticket's |
| `GameSteps.NoWinningsWhileScheduled` | src/services/gameService.ts:266 | a game still scheduled has no winnings, since claims need a live game |
| `GameSteps.CreateKeepsConsistent` | src/services/gameService.ts:85-97 | adding a scheduled game with pool 0 and no called numbers keeps the store consistent |
| `GameSteps.StartKeepsConsistent` | src/services/gameService.ts:124-127 | moving a scheduled game to live keeps the store consistent |
| `GameSteps.FinishKeepsConsistent` | src/services/gameService.ts:156-159 | moving a live game to finished keeps the store consistent, its winnings still backed |
| `GameSteps.CallKeepsConsistent` | src/services/gameService.ts:143-149 | appending an uncalled number in 1..90 to a live game keeps the store consistent: the numbers stay distinct and in range, and every winning stays backed |
| `GameSteps.BoughtPoolOk` | src/services/gameService.ts:181-189 | selling one more ticket at a valid rake adds exactly the net contribution, keeping pool = tickets sold x net contribution |
| `GameSteps.Bought` | src/services/gameService.ts:181-189 | a game after one sale: the pool plus the price less the rake; `BoughtPoolOk` states that this keeps pool = tickets sold x net contribution |
| `GameSteps.BuyKeepsGames` | src/services/gameService.ts:177-189 | after a sale every game's pool still equals its tickets sold times its net contribution, and every ticket is a valid ticket of a stored game |
| `GameSteps.BuyKeepsFlags` | src/services/gameService.ts:177-178 | the new ticket has won nothing, and every other ticket keeps flags that match its winnings |
| `GameSteps.BuyKeepsConsistent` | src/services/gameService.ts:169-201 | a sale at a valid rake with a non-negative contribution keeps the store consistent |
| `GameSteps.ClaimKeepsWinnings` | src/services/gameService.ts:288 | the inserted winning is backed by its ticket and game, and the old ones stay backed |
| `GameSteps.ClaimKeepsPaid` | src/services/gameService.ts:281-288 | a winning paid its pattern's payout keeps every amount right |
| `GameSteps.ClaimKeepsOneEach` | src/services/gameService.ts:279-280 | the already-won check keeps every (ticket, pattern) pair awarded at most once |
| `GameSteps.ClaimKeepsGames` | src/services/gameService.ts:291 | changing a ticket's flags leaves pools, ticket counts and ticket validity alone |
| `GameSteps.ClaimKeepsCaps` | src/services/gameService.ts:276-278 | the cap check keeps every pattern of every game at or below its maximum number of winners |
| `GameSteps.WonPatternsAreKeys` | src/services/gameService.ts:289-290 | every pattern a ticket has won is a non-empty, comma-free key |
| `GameSteps.ClaimedTicket` | src/services/gameService.ts:289-291 | a ticket after a win: flagged a winner with the new `winning_pattern`; `ClaimKeepsFlags` states what its flags then say |
| `GameSteps.ClaimKeepsFlags` | src/services/gameService.ts:289-291 | after a win, the ticket's `is_winner` is true and its `winning_pattern` lists its won patterns, with the new one last |
| `GameSteps.ClaimKeepsConsistent` | src/services/gameService.ts:276-291 | a claim the invariant allows keeps the store consistent when committed |
| `GameSteps.AcceptedClaimAllowed` | src/services/gameService.ts:263-286 | a claim that passed every check of `processWinClaim` has a defined prize and is allowed by the invariant |
| `GameSteps.ClaimCommits` | src/services/gameService.ts:281-292 | committing an accepted claim at its payout keeps the store consistent |
| `GameService.GameStore.constructor` | src/services/gameService.ts:62-64 | the store starts with empty tables and is consistent |
| `GameService.GameStore.CreateGame` | src/services/gameService.ts:85-97 | adds one scheduled game with pool 0 and no numbers called, at the given price, in DEGEN at 10 per cent rake unless given; the new id is the new table size; nothing else changes |
| `GameService.GameStore.StartGame` | src/services/gameService.ts:124-135 | succeeds exactly when the game exists and is scheduled, and then only that game's status becomes live; a missing game is `GameNotFound`; any other status is `CannotStart` with that status; errors change nothing |
| `GameService.GameStore.FinishGame` | src/services/gameService.ts:156-167 | succeeds exactly when the game exists and is live or finished; a live game becomes finished and a finished one is returned unchanged; a missing game is `GameNotFound`, any other status `CannotFinish`; errors change nothing |
| `GameService.GameStore.CallNextNumber` | src/services/gameService.ts:137-154 | a missing game is `GameNotFound` and a game not live `NotLive`; a live game with 90 numbers called returns itself with no number and changes nothing; otherwise it appends exactly one number in 1..90 not called before, or fails with `NoUniqueNumber`, the only error a live game can raise, with nothing changed |
| `GameService.GameStore.BuyTicketForGame` | src/services/gameService.ts:169-201 | succeeds exactly when the game exists, is scheduled, has a rake in [0, 100] and a non-negative net contribution; a missing game is `GameNotFound`, a game not scheduled `NotScheduled`, then a rake out of range `InvalidRake`, then a negative contribution `NegativeNetContribution`; success appends one unwon ticket of the user for that game, drawn by the generator as written (`GenerateTicketAsWritten`) and valid in the sense of `ValidTicket`, and raises that game's pool by the net contribution; on every error the tables are unchanged |
| `GameService.GameStore.ProcessWinClaim` | src/services/gameService.ts:258-300 | fails exactly when the game is missing or not live, or the ticket is not the user's in that game; otherwise a pattern not shown is `PatternNotMet`, then a pattern at its cap `CapReached`, then a ticket that already won it `AlreadyClaimed`, and it wins exactly when none of these holds; a win inserts one pending winning at the payout and marks the ticket; anything else changes nothing; games and pools never change |
| `GameService.GameStore.RecordWin` | src/services/gameService.ts:281-292 | the commit of a win: the amount is the pattern's payout of the pool, one pending winning in the game's currency is appended, the ticket is marked as winner listing the pattern, and the store stays consistent |

## Left out

- Timestamps (`scheduled_at`, `created_at`, `updated_at`, `purchased_at`) are not modelled. Neither are `NOW()` and the ordering of queries by time.
- Floating point is not modelled. `parseFloat`, the JavaScript `number` arithmetic and `toFixed(18)`/`toFixed(4)` become exact `real` arithmetic, and no rounding is modelled.
- JSON parsing and its fallbacks are not modelled: `parseGames`, `parseSingleGame`, and the `ticket_data` parsing after a sale and in a claim. This includes the "Corrupted ticket data" and "Invalid ticket data" errors of `processWinClaim`. Stored rows are taken to be well-formed, and a grid that is not three rows is still handled by the pattern check.
- `toUpperCase` is modelled on ASCII letters only. Unicode case mapping (for example of `ß` or accented letters) is not modelled.
- Concurrency is not modelled. In `startGame`, the `return null` for a game that is still scheduled after its guarded UPDATE matched no row can only happen under a concurrent change. The pre-transaction status read in `buyTicketForGame` is a race of the same kind. Each operation is one atomic step.
- `getGameById`, `getUpcomingGames`, `getLiveGames` and `getUserTicketsForGame` appear only as the row lookups and counts the modelled operations use (`TicketsSold`, `ClaimCount`, `AlreadyWon`). Their result lists and orderings are not modelled.
- Database failures, the users foreign key, and column limits are not modelled. The limits are the 50- and 255-character pattern columns, the DECIMAL(36,18) precision, and the 10-character `token_currency` of games and winnings (migrations/1748094116061_initial-schema.js:53 and 130): a `CreateGame` currency longer than 10 characters, which the source's INSERT would refuse, is accepted. User ids are arbitrary naturals.
- Tables are sequences with ids equal to position plus one, not maps. No operation deletes a row, but the ids match the source's SERIAL ids only up to renaming: a rolled-back insert (a `buyTicketForGame` refused for its rake after the ticket INSERT) still uses up a sequence value, so the next real ticket's id skips one there and not in the model.
- The `rake_percentage` column is DECIMAL(5,2) (migrations/1748094116061_initial-schema.js:54). Its rounding to two decimals and its overflow at 1000 or more are not modelled; the rake is an exact `real`.
- `buyTicketForGame` inserts the ticket before its rake checks and rolls back on error. The model checks first and writes only on success, which leaves the same tables.
- The rejections of `processWinClaim` (gameService.ts:273, 278 and 280) return inside the transaction without a COMMIT or ROLLBACK, and `finally` hands the client back to the pool with that transaction, and its FOR UPDATE row locks, still open. Connections, transactions left open and locks are not modelled; these rejections are modelled as leaving every table unchanged.
- The "Negative prize calculation" error of `processWinClaim` is not a branch of the model. `PoolNonNegative` and `PayoutFacts` prove that the invariant makes it unreachable. The "Invalid pattern key config" error is unreachable for the same reason: the check is false for unknown keys.
- The `maxWinners > 0` guards of `processWinClaim` are modelled as written. Every pattern in the table has a cap of at least one (`TableRowsSensible`), so the uncapped branches never apply.
- Result messages and display names are not modelled. A claim's outcome carries the pattern and prize, a rejection reason, or the error.
- Logging and console output are not modelled.
- The randomness quality and uniformity of `Math.random` are not modelled, and neither is whether the redraw loops end by luck. The 200-draw limit of `callNextNumber` stays as the `NoUniqueNumber` error, which the model may return whenever the draws keep repeating.
- `TicketService.RandomNumberInRange`: requires that some number in the range is not excluded. Without one the source's redraw loop never ends.
- `TicketService.DrawColumnNumbers`: requires the column's range to have room for the count. Every count is at most 3, so this always holds.
- `TicketService.GenerateTicket` states at most five numbers per row, not exactly five, and no top-to-bottom order within a column. The source does not guarantee either. `GenerateTicket` uses the corrected fallback (see Findings); `GenerateTicketAsWritten` runs the fallback as written and proves the same guarantees, and it is the generator `BuyTicketForGame` uses, as the source does.

## Findings

| source | as written | input that shows it | evidently intended | confidence | as-written member | corrected member |
|---|---|---|---|---|---|---|
| src/services/ticketService.ts:100-107 | when all six random picks land on full rows, the fallback writes the number into the first empty row with room but leaves that row in `availableRows` | row 0 already holds 1, 10, 20, 30 and 40, column 5 is empty and all picks for 50 choose row 0, so 50 falls back into row 1; if the next number's picks choose row 1, 51 overwrites 50, and row 1's counter reads 2 for one number | the fallback row is also withdrawn from `availableRows`, so no cell is written twice and each counter equals its row's numbers | not executed | `TicketService.FallbackThenPickOverwrites` (with `TicketService.FallbackOverwriteExample` and `TicketService.PlaceNumberAsWritten`; `TicketService.PlaceAsWrittenKeepsCounted` and `TicketService.GenerateTicketAsWritten` show the ticket is still valid) | `TicketService.PlaceKeepsColumnInv` (with `TicketService.PlaceNumber` and `TicketService.GenerateTicket`) |
