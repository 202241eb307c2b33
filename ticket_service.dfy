// The housie ticket generator (src/services/ticketService.ts).
//
// `Math.random` is a nondeterministic choice: every `:|` below may pick any
// value the JavaScript expression could produce, so what is proved holds for
// every random outcome. The six random row indices drawn while one number
// looks for a row are passed in as `picks`, which makes one placement step a
// function of its inputs.

module TicketService {
  import opened Seqs
  import opened TicketLayout

  /** `getRandomNumberInRange`: a number in [min, max] that is not excluded.
      The source redraws until it hits one, so it needs one to exist. */
  method RandomNumberInRange(min: int, max: int, exclude: seq<int>) returns (num: int)
    requires exists n :: min <= n <= max && n !in exclude
    ensures min <= num <= max && num !in exclude
  {
    num :| min <= num <= max && num !in exclude;
  }

  // ---------------------------------------------------------------------
  // Step 1: how many numbers each column gets.

  /** The counts lie between the per-column bounds. */
  ghost predicate CountsInBounds(counts: seq<int>)
  {
    |counts| == NumCols &&
    forall c :: 0 <= c < NumCols ==> MinNumbersPerCol <= counts[c] <= MaxNumbersPerCol
  }

  /** Step 1 of ticketService.ts:34-62: every column gets MinNumbersPerCol,
      then up to 100 random tries bump a column below the cap, and a
      left-to-right pass forces whatever is still left over. */
  method DistributeColumnCounts() returns (counts: seq<int>)
    ensures |counts| == NumCols
    ensures forall c :: 0 <= c < NumCols ==> MinNumbersPerCol <= counts[c] <= MaxNumbersPerCol
    ensures Sum(counts) == NumRows * NumbersPerRow
  {
    var colNumbersCount := new int[NumCols](_ => 0);
    var totalNumbersToPlace := NumRows * NumbersPerRow;
    SumAtMost(colNumbersCount[..], 0);
    SumAtLeast(colNumbersCount[..], 0);

    for col := 0 to NumCols
      invariant forall c :: 0 <= c < col ==> colNumbersCount[c] == MinNumbersPerCol
      invariant forall c :: col <= c < NumCols ==> colNumbersCount[c] == 0
      invariant Sum(colNumbersCount[..]) + totalNumbersToPlace == NumRows * NumbersPerRow
    {
      SumUpdate(colNumbersCount[..], col, MinNumbersPerCol);
      colNumbersCount[col] := MinNumbersPerCol;
      totalNumbersToPlace := totalNumbersToPlace - MinNumbersPerCol;
    }
    SumAtMost(colNumbersCount[..], MinNumbersPerCol);

    totalNumbersToPlace := RandomBumps(colNumbersCount, totalNumbersToPlace);
    if totalNumbersToPlace > 0 {
      totalNumbersToPlace := ForcedBumps(colNumbersCount, totalNumbersToPlace);
    }
    counts := colNumbersCount[..];
  }

  /** Up to 100 random columns are bumped while they are below the cap and
      numbers are left to place (ticketService.ts:45-53). */
  method RandomBumps(colNumbersCount: array<int>, total: int) returns (left: int)
    requires 0 <= total && CountsInBounds(colNumbersCount[..])
    modifies colNumbersCount
    ensures 0 <= left <= total && CountsInBounds(colNumbersCount[..])
    ensures Sum(colNumbersCount[..]) + left == old(Sum(colNumbersCount[..])) + total
  {
    left := total;
    var attempts := 0;
    while left > 0 && attempts < 100
      invariant 0 <= left <= total && CountsInBounds(colNumbersCount[..])
      invariant Sum(colNumbersCount[..]) + left == old(Sum(colNumbersCount[..])) + total
      decreases 100 - attempts
    {
      var randomCol :| 0 <= randomCol < NumCols;
      if colNumbersCount[randomCol] < MaxNumbersPerCol {
        SumUpdate(colNumbersCount[..], randomCol, colNumbersCount[randomCol] + 1);
        colNumbersCount[randomCol] := colNumbersCount[randomCol] + 1;
        left := left - 1;
      }
      attempts := attempts + 1;
    }
  }

  /** The forced pass (ticketService.ts:55-61): left to right, each column
      is raised to the cap until nothing is left. The counts of a ticket sum
      to at most 27, so with 15 to reach nothing is left afterwards. */
  method ForcedBumps(colNumbersCount: array<int>, total: int) returns (left: int)
    requires 0 <= total && CountsInBounds(colNumbersCount[..])
    requires Sum(colNumbersCount[..]) + total <= NumCols * MaxNumbersPerCol
    modifies colNumbersCount
    ensures left == 0 && CountsInBounds(colNumbersCount[..])
    ensures Sum(colNumbersCount[..]) == old(Sum(colNumbersCount[..])) + total
  {
    left := total;
    var col := 0;
    while col < NumCols && left > 0
      invariant 0 <= col <= NumCols && 0 <= left && CountsInBounds(colNumbersCount[..])
      invariant left > 0 ==> forall c :: 0 <= c < col ==> colNumbersCount[c] == MaxNumbersPerCol
      invariant Sum(colNumbersCount[..]) + left == old(Sum(colNumbersCount[..])) + total
    {
      while colNumbersCount[col] < MaxNumbersPerCol && left > 0
        invariant 0 <= left && CountsInBounds(colNumbersCount[..])
        invariant left > 0 ==> forall c :: 0 <= c < col ==> colNumbersCount[c] == MaxNumbersPerCol
        invariant Sum(colNumbersCount[..]) + left == old(Sum(colNumbersCount[..])) + total
        decreases MaxNumbersPerCol - colNumbersCount[col]
      {
        SumUpdate(colNumbersCount[..], col, colNumbersCount[col] + 1);
        colNumbersCount[col] := colNumbersCount[col] + 1;
        left := left - 1;
      }
      col := col + 1;
    }
    if left > 0 {
      // every column is at the cap, so the counts already sum to the most they can
      SumAtLeast(colNumbersCount[..], MaxNumbersPerCol);
      assert false;
    }
  }

  // ---------------------------------------------------------------------
  // Step 2: the numbers of one column.

  /** `count` distinct numbers from the column's range, sorted ascending.
      The draw loop only ends if the range has room for them. */
  method DrawColumnNumbers(col: nat, count: nat) returns (nums: seq<int>)
    requires col < NumCols
    requires count <= ColumnMax(col) - ColumnMin(col) + 1
    ensures |nums| == count
    ensures StrictlyIncreasing(nums)
    ensures forall i :: 0 <= i < |nums| ==> InColumnRange(col, nums[i])
  {
    var minRange := ColumnMin(col);
    var maxRange := ColumnMax(col);
    var numbersInThisCol: seq<int> := [];
    for i := 0 to count
      invariant |numbersInThisCol| == i
      invariant Distinct(numbersInThisCol)
      invariant forall k :: 0 <= k < i ==> InColumnRange(col, numbersInThisCol[k])
    {
      FreeValueExists(minRange, maxRange, numbersInThisCol);
      var n := RandomNumberInRange(minRange, maxRange, numbersInThisCol);
      numbersInThisCol := numbersInThisCol + [n];
    }
    nums := SortAscending(numbersInThisCol);
    PermutationKeepsDistinct(numbersInThisCol, nums);
    SortedDistinctIsStrict(nums);
    forall i | 0 <= i < |nums| ensures InColumnRange(col, nums[i]) {
      assert nums[i] in multiset(numbersInThisCol);
    }
  }

  // ---------------------------------------------------------------------
  // Step 3: placing one column's numbers into rows.

  /** How one number found its row. */
  datatype Placement = ByRandomPick(index: nat) | ByFallback(row: nat) | NotPlaced

  /** The ticket, the per-row counters `numbersPlacedInRow` and the rows
      `availableRows` still offered to the random picks of this column. */
  datatype PlacementState = PlacementState(grid: Grid, counts: seq<int>, avail: seq<int>)

  predicate ValidState(s: PlacementState)
  {
    WellShaped(s.grid) && |s.counts| == NumRows &&
    forall j :: 0 <= j < |s.avail| ==> 0 <= s.avail[j] < NumRows
  }

  /** The random indices into `availableRows` one number may draw: six
      while rows are available, none when the list is empty. */
  predicate PicksFit(picks: seq<nat>, avail: seq<int>)
  {
    |picks| == (if avail == [] then 0 else 2 * NumRows) &&
    forall i :: 0 <= i < |picks| ==> picks[i] < |avail|
  }

  /** The grid with `Num(v)` written at row `r`, column `c`. */
  function Put(g: Grid, r: nat, c: nat, v: int): (h: Grid)
    requires r < |g| && c < |g[r]|
    ensures |h| == |g| && forall k :: 0 <= k < |g| ==> |h[k]| == |g[k]|
  {
    g[r := g[r][c := Num(v)]]
  }

  /** The first random pick that lands on a row with room below five. */
  function FirstFit(picks: seq<nat>, avail: seq<int>, counts: seq<int>): (k: Option<nat>)
    requires forall i :: 0 <= i < |picks| ==> picks[i] < |avail|
    requires forall j :: 0 <= j < |avail| ==> 0 <= avail[j] < |counts|
    ensures k.Some? ==> k.value < |avail| && counts[avail[k.value]] < NumbersPerRow
    ensures k.None? <==> forall i :: 0 <= i < |picks| ==> counts[avail[picks[i]]] >= NumbersPerRow
  {
    if picks == [] then None
    else if counts[avail[picks[0]]] < NumbersPerRow then Some(picks[0])
    else FirstFit(picks[1..], avail, counts)
  }

  /** The first row from `r` down whose cell in the column is empty and
      whose counter is below five. */
  function FallbackRow(column: seq<Cell>, counts: seq<int>, r: nat): (k: Option<nat>)
    requires |column| == |counts|
    ensures k.Some? ==> r <= k.value < |column| && column[k.value] == Blank &&
                        counts[k.value] < NumbersPerRow
    ensures k.None? <==> forall j :: r <= j < |column| ==>
                           !(column[j] == Blank && counts[j] < NumbersPerRow)
    decreases |column| - r
  {
    if r >= |column| then None
    else if column[r] == Blank && counts[r] < NumbersPerRow then Some(r)
    else FallbackRow(column, counts, r + 1)
  }

  /** One number placed exactly as ticketService.ts:80-113 do it: random
      picks first, then the first free row. The fallback leaves its row in
      `availableRows`. */
  function PlaceAsWritten(s: PlacementState, col: nat, num: int, picks: seq<nat>)
    : (PlacementState, Placement)
    requires ValidState(s) && col < NumCols && PicksFit(picks, s.avail)
  {
    var ff := FirstFit(picks, s.avail, s.counts);
    if ff.Some? then
      var r := s.avail[ff.value];
      (PlacementState(Put(s.grid, r, col, num), s.counts[r := s.counts[r] + 1], RemoveAt(s.avail, ff.value)),
       ByRandomPick(ff.value))
    else
      var fb := FallbackRow(Column(s.grid, col), s.counts, 0);
      if fb.Some? then
        var r := fb.value;
        (PlacementState(Put(s.grid, r, col, num), s.counts[r := s.counts[r] + 1], s.avail), ByFallback(r))
      else (s, NotPlaced)
  }

  /** The corrected step: the fallback also takes its row out of
      `availableRows`, as the random path does. */
  function Place(s: PlacementState, col: nat, num: int, picks: seq<nat>)
    : (PlacementState, Placement)
    requires ValidState(s) && col < NumCols && PicksFit(picks, s.avail)
  {
    var res := PlaceAsWritten(s, col, num, picks);
    if res.1.ByFallback? then (res.0.(avail := Without(res.0.avail, res.1.row)), res.1) else res
  }

  /** No two rows of the column hold the same number. */
  predicate ColumnDistinct(g: Grid, col: nat)
    requires WellShaped(g) && col < NumCols
  {
    forall r1, r2 :: 0 <= r1 < r2 < NumRows && g[r1][col].Num? && g[r2][col].Num? ==>
      g[r1][col].value != g[r2][col].value
  }

  /** What a column filled by the steps as written promises, from grid `g0`
      with that column empty and counters `c0`, after numbers `placed`:
      other columns untouched, each counter raised at least where the column
      got a number and never above five, only placed numbers, none twice. */
  ghost predicate ColumnCounted(g: Grid, counts: seq<int>, col: nat, g0: Grid, c0: seq<int>, placed: seq<int>)
  {
    WellShaped(g) && |counts| == NumRows && WellShaped(g0) && |c0| == NumRows && col < NumCols &&
    (forall r, c :: 0 <= r < NumRows && 0 <= c < NumCols && c != col ==> g[r][c] == g0[r][c]) &&
    (forall r :: 0 <= r < NumRows ==>
      c0[r] + (if g[r][col].Num? then 1 else 0) <= counts[r] <= NumbersPerRow) &&
    (forall r :: 0 <= r < NumRows && g[r][col].Num? ==> g[r][col].value in placed) &&
    ColumnDistinct(g, col)
  }

  /** What a column filled by the corrected step promises: as above, and
      each counter up by one exactly where the column got a number. */
  ghost predicate ColumnPlaced(g: Grid, counts: seq<int>, col: nat, g0: Grid, c0: seq<int>, placed: seq<int>)
  {
    ColumnCounted(g, counts, col, g0, c0, placed) &&
    forall r :: 0 <= r < NumRows ==> counts[r] == c0[r] + (if g[r][col].Num? then 1 else 0)
  }

  /** While column `col` is being filled: the column so far, and the rows
      still on offer are exactly those whose cell in the column is empty. */
  ghost predicate ColumnInv(s: PlacementState, col: nat, g0: Grid, c0: seq<int>, placed: seq<int>)
  {
    ValidState(s) && ColumnPlaced(s.grid, s.counts, col, g0, c0, placed) &&
    Distinct(s.avail) &&
    (forall r :: 0 <= r < NumRows ==> (r in s.avail <==> s.grid[r][col] == Blank))
  }

  /** Writing `num` into an empty cell of a row with room, and withdrawing
      exactly that row from the available rows, keeps the column invariant. */
  lemma PutKeepsColumnInv(s: PlacementState, col: nat, g0: Grid, c0: seq<int>,
                          placed: seq<int>, num: int, r: nat, avail: seq<int>)
    requires ColumnInv(s, col, g0, c0, placed) && num !in placed
    requires r < NumRows && s.grid[r][col] == Blank && s.counts[r] < NumbersPerRow
    requires Distinct(avail) && forall q :: q in avail <==> q in s.avail && q != r
    ensures ColumnInv(PlacementState(Put(s.grid, r, col, num), s.counts[r := s.counts[r] + 1], avail),
                      col, g0, c0, placed + [num])
  {
    var t := PlacementState(Put(s.grid, r, col, num), s.counts[r := s.counts[r] + 1], avail);
    forall j | 0 <= j < |avail| ensures 0 <= avail[j] < NumRows {
      assert avail[j] in avail;
    }
    assert ValidState(t);
    forall q | 0 <= q < NumRows ensures (q in t.avail <==> t.grid[q][col] == Blank) {
    }
    assert ColumnDistinct(t.grid, col);
  }

  /** What one corrected step promises about the column it fills. */
  ghost predicate StepOk(s: PlacementState, t: PlacementState, how: Placement, col: nat,
                         g0: Grid, c0: seq<int>, placed: seq<int>, num: int)
    requires ValidState(s) && col < NumCols
  {
    ColumnInv(t, col, g0, c0, placed + [num]) &&
    (forall r :: 0 <= r < NumRows && s.grid[r][col].Num? ==> t.grid[r][col] == s.grid[r][col]) &&
    Sum(t.counts) <= Sum(s.counts) + 1 &&
    ((exists r :: 0 <= r < NumRows && s.grid[r][col] == Blank && s.counts[r] < NumbersPerRow)
      ==> how != NotPlaced) &&
    (how != NotPlaced ==> exists r :: 0 <= r < NumRows && t.grid[r][col] == Num(num))
  }

  /** A number written into row `r` of the column, with `avail` the rows
      left on offer, is a good step. */
  lemma PutIsStepOk(s: PlacementState, col: nat, g0: Grid, c0: seq<int>,
                    placed: seq<int>, num: int, r: nat, avail: seq<int>, how: Placement)
    requires ColumnInv(s, col, g0, c0, placed) && num !in placed && how != NotPlaced
    requires r < NumRows && s.grid[r][col] == Blank && s.counts[r] < NumbersPerRow
    requires Distinct(avail) && forall q :: q in avail <==> q in s.avail && q != r
    ensures StepOk(s, PlacementState(Put(s.grid, r, col, num), s.counts[r := s.counts[r] + 1], avail),
                   how, col, g0, c0, placed, num)
  {
    PutKeepsColumnInv(s, col, g0, c0, placed, num, r, avail);
    SumUpdate(s.counts, r, s.counts[r] + 1);
  }

  lemma RandomPickIsStepOk(s: PlacementState, col: nat, g0: Grid, c0: seq<int>,
                           placed: seq<int>, num: int, picks: seq<nat>)
    requires ColumnInv(s, col, g0, c0, placed) && num !in placed && PicksFit(picks, s.avail)
    requires FirstFit(picks, s.avail, s.counts).Some?
    ensures StepOk(s, Place(s, col, num, picks).0, Place(s, col, num, picks).1, col, g0, c0, placed, num)
  {
    var i := FirstFit(picks, s.avail, s.counts).value;
    var r := s.avail[i];
    var t := PlacementState(Put(s.grid, r, col, num), s.counts[r := s.counts[r] + 1], RemoveAt(s.avail, i));
    assert PlaceAsWritten(s, col, num, picks) == (t, ByRandomPick(i));
    assert Place(s, col, num, picks) == (t, ByRandomPick(i));
    RemoveAtDistinct(s.avail, i);
    PutIsStepOk(s, col, g0, c0, placed, num, r, t.avail, ByRandomPick(i));
  }

  lemma FallbackIsStepOk(s: PlacementState, col: nat, g0: Grid, c0: seq<int>,
                         placed: seq<int>, num: int, picks: seq<nat>)
    requires ColumnInv(s, col, g0, c0, placed) && num !in placed && PicksFit(picks, s.avail)
    requires FirstFit(picks, s.avail, s.counts).None?
    requires FallbackRow(Column(s.grid, col), s.counts, 0).Some?
    ensures StepOk(s, Place(s, col, num, picks).0, Place(s, col, num, picks).1, col, g0, c0, placed, num)
  {
    var r := FallbackRow(Column(s.grid, col), s.counts, 0).value;
    var t := PlacementState(Put(s.grid, r, col, num), s.counts[r := s.counts[r] + 1], Without(s.avail, r));
    assert PlaceAsWritten(s, col, num, picks) == (t.(avail := s.avail), ByFallback(r));
    assert Place(s, col, num, picks) == (t, ByFallback(r));
    WithoutKeepsDistinct(s.avail, r);
    PutIsStepOk(s, col, g0, c0, placed, num, r, t.avail, ByFallback(r));
  }

  lemma NotPlacedIsStepOk(s: PlacementState, col: nat, g0: Grid, c0: seq<int>,
                          placed: seq<int>, num: int, picks: seq<nat>)
    requires ColumnInv(s, col, g0, c0, placed) && num !in placed && PicksFit(picks, s.avail)
    requires FirstFit(picks, s.avail, s.counts).None?
    requires FallbackRow(Column(s.grid, col), s.counts, 0).None?
    ensures StepOk(s, Place(s, col, num, picks).0, Place(s, col, num, picks).1, col, g0, c0, placed, num)
  {
    assert Place(s, col, num, picks) == (s, NotPlaced);
    forall r | 0 <= r < NumRows && s.grid[r][col] == Blank
      ensures s.counts[r] >= NumbersPerRow
    {
      assert Column(s.grid, col)[r] == Blank;
    }
    assert forall r :: 0 <= r < NumRows && s.grid[r][col].Num? ==> s.grid[r][col].value in placed + [num];
  }

  /** The corrected step keeps the column invariant, never overwrites a
      number, raises one counter by at most one, and places the number
      whenever some row with an empty cell in the column has room. */
  lemma PlaceKeepsColumnInv(s: PlacementState, col: nat, g0: Grid, c0: seq<int>,
                            placed: seq<int>, num: int, picks: seq<nat>)
    requires ColumnInv(s, col, g0, c0, placed) && num !in placed && PicksFit(picks, s.avail)
    ensures StepOk(s, Place(s, col, num, picks).0, Place(s, col, num, picks).1, col, g0, c0, placed, num)
  {
    if FirstFit(picks, s.avail, s.counts).Some? {
      RandomPickIsStepOk(s, col, g0, c0, placed, num, picks);
    } else if FallbackRow(Column(s.grid, col), s.counts, 0).Some? {
      FallbackIsStepOk(s, col, g0, c0, placed, num, picks);
    } else {
      NotPlacedIsStepOk(s, col, g0, c0, placed, num, picks);
    }
  }

  /** What one step as written promises about the column it fills: the
      counters still bound the cells, no filled cell is emptied, the
      counters' sum rises by at most one, and the number is placed whenever
      some row with an empty cell in the column has room. */
  ghost predicate StepCounted(s: PlacementState, t: PlacementState, how: Placement, col: nat,
                              g0: Grid, c0: seq<int>, placed: seq<int>, num: int)
    requires ValidState(s) && col < NumCols
  {
    ValidState(t) && ColumnCounted(t.grid, t.counts, col, g0, c0, placed + [num]) &&
    (forall r :: 0 <= r < NumRows && s.grid[r][col].Num? ==> t.grid[r][col].Num?) &&
    Sum(t.counts) <= Sum(s.counts) + 1 &&
    ((exists r :: 0 <= r < NumRows && s.grid[r][col] == Blank && s.counts[r] < NumbersPerRow)
      ==> how != NotPlaced) &&
    (how != NotPlaced ==> exists r :: 0 <= r < NumRows && t.grid[r][col] == Num(num))
  }

  /** Writing `num` into row `r` of the column as written, into whatever
      the cell holds, in a row with room below five, is such a step. */
  lemma PutIsStepCounted(s: PlacementState, col: nat, g0: Grid, c0: seq<int>,
                         placed: seq<int>, num: int, r: nat, avail: seq<int>, how: Placement)
    requires ValidState(s) && ColumnCounted(s.grid, s.counts, col, g0, c0, placed)
    requires num !in placed && how != NotPlaced
    requires r < NumRows && s.counts[r] < NumbersPerRow
    requires forall j :: 0 <= j < |avail| ==> 0 <= avail[j] < NumRows
    ensures StepCounted(s, PlacementState(Put(s.grid, r, col, num), s.counts[r := s.counts[r] + 1], avail),
                        how, col, g0, c0, placed, num)
  {
    SumUpdate(s.counts, r, s.counts[r] + 1);
    var t := PlacementState(Put(s.grid, r, col, num), s.counts[r := s.counts[r] + 1], avail);
    assert ColumnDistinct(t.grid, col);
  }

  lemma RandomPickIsStepCounted(s: PlacementState, col: nat, g0: Grid, c0: seq<int>,
                                placed: seq<int>, num: int, picks: seq<nat>)
    requires ValidState(s) && ColumnCounted(s.grid, s.counts, col, g0, c0, placed)
    requires num !in placed && PicksFit(picks, s.avail)
    requires FirstFit(picks, s.avail, s.counts).Some?
    ensures StepCounted(s, PlaceAsWritten(s, col, num, picks).0, PlaceAsWritten(s, col, num, picks).1,
                        col, g0, c0, placed, num)
  {
    var i := FirstFit(picks, s.avail, s.counts).value;
    var avail := RemoveAt(s.avail, i);
    var t := PlacementState(Put(s.grid, s.avail[i], col, num), s.counts[s.avail[i] := s.counts[s.avail[i]] + 1], avail);
    assert PlaceAsWritten(s, col, num, picks) == (t, ByRandomPick(i));
    forall j | 0 <= j < |avail| ensures 0 <= avail[j] < NumRows {
      if j >= i {
        assert avail[j] == s.avail[j + 1];
      }
    }
    PutIsStepCounted(s, col, g0, c0, placed, num, s.avail[i], avail, ByRandomPick(i));
  }

  lemma FallbackIsStepCounted(s: PlacementState, col: nat, g0: Grid, c0: seq<int>,
                              placed: seq<int>, num: int, picks: seq<nat>)
    requires ValidState(s) && ColumnCounted(s.grid, s.counts, col, g0, c0, placed)
    requires num !in placed && PicksFit(picks, s.avail)
    requires FirstFit(picks, s.avail, s.counts).None?
    requires FallbackRow(Column(s.grid, col), s.counts, 0).Some?
    ensures StepCounted(s, PlaceAsWritten(s, col, num, picks).0, PlaceAsWritten(s, col, num, picks).1,
                        col, g0, c0, placed, num)
  {
    var r := FallbackRow(Column(s.grid, col), s.counts, 0).value;
    var t := PlacementState(Put(s.grid, r, col, num), s.counts[r := s.counts[r] + 1], s.avail);
    assert PlaceAsWritten(s, col, num, picks) == (t, ByFallback(r));
    PutIsStepCounted(s, col, g0, c0, placed, num, r, s.avail, ByFallback(r));
  }

  lemma NotPlacedIsStepCounted(s: PlacementState, col: nat, g0: Grid, c0: seq<int>,
                               placed: seq<int>, num: int, picks: seq<nat>)
    requires ValidState(s) && ColumnCounted(s.grid, s.counts, col, g0, c0, placed)
    requires num !in placed && PicksFit(picks, s.avail)
    requires FirstFit(picks, s.avail, s.counts).None?
    requires FallbackRow(Column(s.grid, col), s.counts, 0).None?
    ensures StepCounted(s, PlaceAsWritten(s, col, num, picks).0, PlaceAsWritten(s, col, num, picks).1,
                        col, g0, c0, placed, num)
  {
    assert PlaceAsWritten(s, col, num, picks) == (s, NotPlaced);
    forall r | 0 <= r < NumRows && s.grid[r][col] == Blank
      ensures s.counts[r] >= NumbersPerRow
    {
      assert Column(s.grid, col)[r] == Blank;
    }
    assert forall r :: 0 <= r < NumRows && s.grid[r][col].Num? ==> s.grid[r][col].value in placed + [num];
  }

  /** Each step as written (ticketService.ts:80-113), fallback row left on
      offer, keeps every counter at most five and at least what its row
      holds, writes only into column `col`, and raises the counters' sum by
      at most one; what it loses against the corrected step is that a cell
      may be written twice. */
  lemma PlaceAsWrittenKeepsCounted(s: PlacementState, col: nat, g0: Grid, c0: seq<int>,
                                   placed: seq<int>, num: int, picks: seq<nat>)
    requires ValidState(s) && ColumnCounted(s.grid, s.counts, col, g0, c0, placed)
    requires num !in placed && PicksFit(picks, s.avail)
    ensures StepCounted(s, PlaceAsWritten(s, col, num, picks).0, PlaceAsWritten(s, col, num, picks).1,
                        col, g0, c0, placed, num)
  {
    if FirstFit(picks, s.avail, s.counts).Some? {
      RandomPickIsStepCounted(s, col, g0, c0, placed, num, picks);
    } else if FallbackRow(Column(s.grid, col), s.counts, 0).Some? {
      FallbackIsStepCounted(s, col, g0, c0, placed, num, picks);
    } else {
      NotPlacedIsStepCounted(s, col, g0, c0, placed, num, picks);
    }
  }

  /** A row with no numbers; and the ticket of the example below, after
      columns 0-4 each put their one number into row 0. */
  const BlankRow: seq<Cell> := [Blank, Blank, Blank, Blank, Blank, Blank, Blank, Blank, Blank]
  const FullFirstRow: seq<Cell> := BlankRow[0 := Num(1)][1 := Num(10)][2 := Num(20)][3 := Num(30)][4 := Num(40)]
  const ExampleGrid: Grid := [FullFirstRow, BlankRow, BlankRow]

  /** The example's cells: row 0 holds the smallest number of each of
      columns 0-4, every other cell is empty. */
  lemma ExampleCells()
    ensures WellShaped(ExampleGrid)
    ensures forall r, c {:trigger ExampleGrid[r][c]} :: 0 <= r < NumRows && 0 <= c < NumCols ==>
      ExampleGrid[r][c] == if r == 0 && c < 5 then Num(ColumnMin(c)) else Blank
  {
    forall r, c | 0 <= r < NumRows && 0 <= c < NumCols
      ensures ExampleGrid[r][c] == if r == 0 && c < 5 then Num(ColumnMin(c)) else Blank
    {
      if r == 0 {
        assert ExampleGrid[0] == FullFirstRow;
      } else {
        assert ExampleGrid[r] == BlankRow;
      }
    }
  }

  /** Row 0 of the example holds five numbers, the other rows none. */
  lemma ExampleRowCounts()
    ensures |Numbers(ExampleGrid[0])| == 5 && |Numbers(ExampleGrid[1])| == 0 && |Numbers(ExampleGrid[2])| == 0
  {
    assert ExampleGrid[0] == FullFirstRow && ExampleGrid[1] == BlankRow && ExampleGrid[2] == BlankRow;
    assert Numbers(BlankRow) == [];
    var r0 := BlankRow;
    NumbersAfterFill(r0, 0, 1);
    r0 := r0[0 := Num(1)];
    NumbersAfterFill(r0, 1, 10);
    r0 := r0[1 := Num(10)];
    NumbersAfterFill(r0, 2, 20);
    r0 := r0[2 := Num(20)];
    NumbersAfterFill(r0, 3, 30);
    r0 := r0[3 := Num(30)];
    NumbersAfterFill(r0, 4, 40);
    r0 := r0[4 := Num(40)];
    assert r0 == FullFirstRow;
  }

  /** A grid shaped like the example's is a ticket after five columns. */
  lemma FirstRowTicketSoFar(g: Grid)
    requires WellShaped(g)
    requires forall r, c {:trigger g[r][c]} :: 0 <= r < NumRows && 0 <= c < NumCols ==>
      g[r][c] == if r == 0 && c < 5 then Num(ColumnMin(c)) else Blank
    requires |Numbers(g[0])| == 5 && |Numbers(g[1])| == 0 && |Numbers(g[2])| == 0
    ensures TicketSoFar(g, [5, 0, 0], 5)
  {
    forall c | 0 <= c < 5 ensures ColumnDistinct(g, c) && ColumnFilled(g, c) {
      assert g[0][c].Num?;
    }
  }

  /** The ticket of the example is one the generator can have built after
      five columns: row 0 holds one number of each of columns 0-4. */
  lemma ExampleTicketReachable()
    ensures TicketSoFar(ExampleGrid, [5, 0, 0], 5)
  {
    ExampleCells();
    ExampleRowCounts();
    FirstRowTicketSoFar(ExampleGrid);
  }

  /** Start of the example below: row 0 already holds five numbers, column
      5 is untouched and every row is on offer. */
  lemma ExampleStartIsValid()
    ensures ColumnInv(PlacementState(ExampleGrid, [5, 0, 0], [0, 1, 2]), 5, ExampleGrid, [5, 0, 0], [])
  {
    var s0 := PlacementState(ExampleGrid, [5, 0, 0], [0, 1, 2]);
    assert ValidState(s0);
    forall r | 0 <= r < NumRows ensures (r in s0.avail <==> s0.grid[r][5] == Blank) {
      assert s0.avail[r] == r;
    }
  }

  /** The fallback defect in general: when every random pick hits a full
      row and the fallback fills row `r`, that row stays on offer, so a next
      number whose picks choose it overwrites the cell: the first number is
      gone from the column and the row's counter has risen by two. */
  lemma FallbackThenPickOverwrites(s: PlacementState, col: nat, x: int, y: int, p1: seq<nat>, k: nat)
    requires ValidState(s) && col < NumCols && PicksFit(p1, s.avail)
    requires FirstFit(p1, s.avail, s.counts).None?
    requires k < |s.avail| && FallbackRow(Column(s.grid, col), s.counts, 0) == Some(s.avail[k])
    requires s.counts[s.avail[k]] + 1 < NumbersPerRow
    requires Num(x) !in Column(s.grid, col) && x != y
    ensures var r := s.avail[k];
            var res1 := PlaceAsWritten(s, col, x, p1);
            var res2 := PlaceAsWritten(res1.0, col, y, [k, k, k, k, k, k]);
            res1.1 == ByFallback(r) && res1.0.avail == s.avail && res1.0.grid[r][col] == Num(x) &&
            res2.1 == ByRandomPick(k) && res2.0.grid[r][col] == Num(y) &&
            Num(x) !in Column(res2.0.grid, col) &&
            res2.0.counts[r] == s.counts[r] + 2
  {
    var r := s.avail[k];
    var s1 := PlacementState(Put(s.grid, r, col, x), s.counts[r := s.counts[r] + 1], s.avail);
    assert PlaceAsWritten(s, col, x, p1) == (s1, ByFallback(r));
    var p2: seq<nat> := [k, k, k, k, k, k];
    assert FirstFit(p2, s1.avail, s1.counts) == Some(k);
    var s2 := PlacementState(Put(s1.grid, r, col, y), s1.counts[r := s1.counts[r] + 1], RemoveAt(s.avail, k));
    assert PlaceAsWritten(s1, col, y, p2) == (s2, ByRandomPick(k));
    forall q | 0 <= q < NumRows ensures Column(s2.grid, col)[q] != Num(x) {
      if q != r {
        assert Column(s2.grid, col)[q] == Column(s.grid, col)[q];
      }
    }
  }

  /** A concrete start that meets every hypothesis of the lemma above:
      row 0 already holds five numbers (1, 10, 20, 30, 40), column 5 is
      empty and every row is on offer. With picks that all choose row 0, the
      number 50 falls back into row 1; if the six picks for 51 then choose
      index 1, 51 overwrites 50 and row 1's counter reads 2 for one number. */
  lemma FallbackOverwriteExample()
    ensures var s0 := PlacementState(ExampleGrid, [5, 0, 0], [0, 1, 2]);
            var p1: seq<nat> := [0, 0, 0, 0, 0, 0];
            ValidState(s0) && PicksFit(p1, s0.avail) && FirstFit(p1, s0.avail, s0.counts).None? &&
            FallbackRow(Column(s0.grid, 5), s0.counts, 0) == Some(s0.avail[1]) &&
            s0.counts[s0.avail[1]] + 1 < NumbersPerRow && Num(50) !in Column(s0.grid, 5)
  {
    assert Column(ExampleGrid, 5) == [Blank, Blank, Blank];
    assert FallbackRow([Blank, Blank, Blank], [5, 0, 0], 0) == Some(1);
  }

  /** The ticket as a value: `ticket[r][c]` for every row and column. */
  function GridOf(ticket: array2<Cell>): (g: Grid)
    reads ticket
    ensures |g| == ticket.Length0
    ensures forall r :: 0 <= r < |g| ==> |g[r]| == ticket.Length1
    ensures forall r, c :: 0 <= r < ticket.Length0 && 0 <= c < ticket.Length1 ==> g[r][c] == ticket[r, c]
  {
    seq(ticket.Length0, r requires 0 <= r < ticket.Length0 reads ticket =>
      seq(ticket.Length1, c requires 0 <= c < ticket.Length1 reads ticket => ticket[r, c]))
  }

  lemma GridAfterPut(ticket: array2<Cell>, g0: Grid, r: nat, c: nat, v: int)
    requires |g0| == ticket.Length0 && forall k :: 0 <= k < |g0| ==> |g0[k]| == ticket.Length1
    requires r < ticket.Length0 && c < ticket.Length1
    requires forall rr, cc :: 0 <= rr < ticket.Length0 && 0 <= cc < ticket.Length1 ==>
      ticket[rr, cc] == if rr == r && cc == c then Num(v) else g0[rr][cc]
    ensures GridOf(ticket) == Put(g0, r, c, v)
  {
    var g, h := GridOf(ticket), Put(g0, r, c, v);
    forall rr | 0 <= rr < |g| ensures g[rr] == h[rr] {
      assert |g[rr]| == |h[rr]|;
    }
  }

  /** Writes `num` into row `r`, column `col` of the ticket and counts
      one more number for row `r`. */
  method PutNumber(ticket: array2<Cell>, numbersPlacedInRow: array<int>, r: nat, col: nat, num: int)
    requires ticket.Length0 == NumRows && ticket.Length1 == NumCols
    requires numbersPlacedInRow.Length == NumRows && r < NumRows && col < NumCols
    modifies ticket, numbersPlacedInRow
    ensures GridOf(ticket) == Put(old(GridOf(ticket)), r, col, num)
    ensures numbersPlacedInRow[..] == old(numbersPlacedInRow[..])[r := old(numbersPlacedInRow[r]) + 1]
  {
    ghost var g0 := GridOf(ticket);
    ticket[r, col] := Num(num);
    numbersPlacedInRow[r] := numbersPlacedInRow[r] + 1;
    GridAfterPut(ticket, g0, r, col, num);
  }

  /** The random attempts for one number (ticketService.ts:82-93): up to
      six picks from `availableRows`; the first row with room below five
      takes the number. */
  method TryRandomRows(ticket: array2<Cell>, numbersPlacedInRow: array<int>, col: nat,
                       num: int, availableRows: seq<int>, picks: seq<nat>)
    returns (ff: Option<nat>)
    requires ticket.Length0 == NumRows && ticket.Length1 == NumCols
    requires numbersPlacedInRow.Length == NumRows && col < NumCols
    requires forall j :: 0 <= j < |availableRows| ==> 0 <= availableRows[j] < NumRows
    requires PicksFit(picks, availableRows)
    modifies ticket, numbersPlacedInRow
    ensures ff == FirstFit(picks, availableRows, old(numbersPlacedInRow[..]))
    ensures ff.None? ==> unchanged(ticket) && unchanged(numbersPlacedInRow)
    ensures ff.Some? ==>
      var r := availableRows[ff.value];
      GridOf(ticket) == Put(old(GridOf(ticket)), r, col, num) &&
      numbersPlacedInRow[..] == old(numbersPlacedInRow[..])[r := old(numbersPlacedInRow[r]) + 1]
  {
    ghost var g0 := GridOf(ticket);
    ghost var c0 := numbersPlacedInRow[..];
    var placed := false;
    var rowAttempts := 0;
    ff := None;
    while !placed && rowAttempts < 2 * NumRows && |availableRows| > 0
      invariant 0 <= rowAttempts <= 2 * NumRows
      invariant placed <==> ff.Some?
      invariant !placed ==> unchanged(ticket) && unchanged(numbersPlacedInRow)
      invariant !placed && availableRows != [] ==>
        FirstFit(picks, availableRows, c0) == FirstFit(picks[rowAttempts..], availableRows, c0)
      invariant placed ==>
        ff == FirstFit(picks, availableRows, c0) &&
        var r := availableRows[ff.value];
        GridOf(ticket) == Put(g0, r, col, num) && numbersPlacedInRow[..] == c0[r := c0[r] + 1]
    {
      var randomRowIndex := picks[rowAttempts];
      var rowToTry := availableRows[randomRowIndex];
      assert picks[rowAttempts..] == [randomRowIndex] + picks[rowAttempts + 1..];
      if numbersPlacedInRow[rowToTry] < NumbersPerRow {
        PutNumber(ticket, numbersPlacedInRow, rowToTry, col, num);
        placed := true;
        ff := Some(randomRowIndex);
      }
      rowAttempts := rowAttempts + 1;
    }
    if !placed && availableRows != [] {
      assert picks[rowAttempts..] == [];
    }
  }

  /** The fallback for one number (ticketService.ts:100-107): the first row
      whose cell in the column is empty and which has room below five. */
  method FallbackPlace(ticket: array2<Cell>, numbersPlacedInRow: array<int>, col: nat, num: int)
    returns (fb: Option<nat>)
    requires ticket.Length0 == NumRows && ticket.Length1 == NumCols
    requires numbersPlacedInRow.Length == NumRows && col < NumCols
    modifies ticket, numbersPlacedInRow
    ensures fb == FallbackRow(Column(old(GridOf(ticket)), col), old(numbersPlacedInRow[..]), 0)
    ensures fb.None? ==> unchanged(ticket) && unchanged(numbersPlacedInRow)
    ensures fb.Some? ==>
      var r := fb.value;
      GridOf(ticket) == Put(old(GridOf(ticket)), r, col, num) &&
      numbersPlacedInRow[..] == old(numbersPlacedInRow[..])[r := old(numbersPlacedInRow[r]) + 1]
  {
    ghost var g0 := GridOf(ticket);
    ghost var c0 := numbersPlacedInRow[..];
    ghost var column := Column(g0, col);
    fb := None;
    var r := 0;
    while r < NumRows
      invariant 0 <= r <= NumRows
      invariant unchanged(ticket) && unchanged(numbersPlacedInRow)
      invariant FallbackRow(column, c0, 0) == FallbackRow(column, c0, r)
    {
      if ticket[r, col] == Blank && numbersPlacedInRow[r] < NumbersPerRow {
        assert column[r] == Blank;
        PutNumber(ticket, numbersPlacedInRow, r, col, num);
        fb := Some(r);
        return;
      }
      assert column[r] == ticket[r, col];
      r := r + 1;
    }
  }

  /** ticketService.ts:80-113 for one number, on the arrays themselves. */
  method PlaceNumberAsWritten(ticket: array2<Cell>, numbersPlacedInRow: array<int>, col: nat,
                              num: int, availableRows: seq<int>, picks: seq<nat>)
    returns (how: Placement, availAfter: seq<int>)
    requires ticket.Length0 == NumRows && ticket.Length1 == NumCols
    requires numbersPlacedInRow.Length == NumRows && col < NumCols
    requires forall j :: 0 <= j < |availableRows| ==> 0 <= availableRows[j] < NumRows
    requires PicksFit(picks, availableRows)
    modifies ticket, numbersPlacedInRow
    ensures (PlacementState(GridOf(ticket), numbersPlacedInRow[..], availAfter), how) ==
            PlaceAsWritten(PlacementState(old(GridOf(ticket)), old(numbersPlacedInRow[..]), availableRows),
                           col, num, picks)
  {
    ghost var s0 := PlacementState(GridOf(ticket), numbersPlacedInRow[..], availableRows);
    availAfter := availableRows;
    var ff := TryRandomRows(ticket, numbersPlacedInRow, col, num, availableRows, picks);
    if ff.Some? {
      availAfter := RemoveAt(availableRows, ff.value);
      how := ByRandomPick(ff.value);
    } else {
      assert GridOf(ticket) == s0.grid && numbersPlacedInRow[..] == s0.counts;
      var fb := FallbackPlace(ticket, numbersPlacedInRow, col, num);
      if fb.Some? {
        how := ByFallback(fb.value);
      } else {
        how := NotPlaced;
        assert GridOf(ticket) == s0.grid && numbersPlacedInRow[..] == s0.counts;
      }
    }
  }

  /** The corrected placement of one number: as written, and a fallback row
      is withdrawn from `availableRows` too. */
  method PlaceNumber(ticket: array2<Cell>, numbersPlacedInRow: array<int>, col: nat,
                     num: int, availableRows: seq<int>, picks: seq<nat>)
    returns (how: Placement, availAfter: seq<int>)
    requires ticket.Length0 == NumRows && ticket.Length1 == NumCols
    requires numbersPlacedInRow.Length == NumRows && col < NumCols
    requires forall j :: 0 <= j < |availableRows| ==> 0 <= availableRows[j] < NumRows
    requires PicksFit(picks, availableRows)
    modifies ticket, numbersPlacedInRow
    ensures (PlacementState(GridOf(ticket), numbersPlacedInRow[..], availAfter), how) ==
            Place(PlacementState(old(GridOf(ticket)), old(numbersPlacedInRow[..]), availableRows),
                  col, num, picks)
  {
    how, availAfter := PlaceNumberAsWritten(ticket, numbersPlacedInRow, col, num, availableRows, picks);
    if how.ByFallback? {
      availAfter := Without(availAfter, how.row);
    }
  }

  /** One corrected step of the column loop keeps the loop's invariants:
      the column invariant, the counters' sum, and once a number is due to
      be placed and some row has room, a filled column. */
  lemma ColumnLoopStep(s: PlacementState, col: nat, g0: Grid, c0: seq<int>, nums: seq<int>, i: nat,
                       picks: seq<nat>)
    requires i < |nums| && Distinct(nums)
    requires ColumnInv(s, col, g0, c0, nums[..i]) && PicksFit(picks, s.avail)
    requires Sum(s.counts) <= Sum(c0) + i
    requires i > 0 && Sum(c0) < NumRows * NumbersPerRow ==> ColumnFilled(s.grid, col)
    requires i == 0 ==> s.counts == c0
    ensures var t := Place(s, col, nums[i], picks).0;
      ColumnInv(t, col, g0, c0, nums[..i + 1]) && Sum(t.counts) <= Sum(c0) + i + 1 &&
      (Sum(c0) < NumRows * NumbersPerRow ==> ColumnFilled(t.grid, col))
  {
    assert nums[..i + 1] == nums[..i] + [nums[i]];
    assert nums[i] !in nums[..i];
    PlaceKeepsColumnInv(s, col, g0, c0, nums[..i], nums[i], picks);
    var t := Place(s, col, nums[i], picks).0;
    if Sum(c0) < NumRows * NumbersPerRow {
      if i == 0 {
        var r := SomeBelow(c0, NumbersPerRow);
        assert s.grid[r][col] == Blank;
      } else {
        var r :| 0 <= r < NumRows && s.grid[r][col].Num?;
        assert t.grid[r][col].Num?;
      }
    }
  }

  /** A column with no numbers yet and every row on offer starts the loop. */
  lemma ColumnInvStart(g0: Grid, c0: seq<int>, col: nat, avail: seq<int>)
    requires WellShaped(g0) && |c0| == NumRows && col < NumCols
    requires forall r :: 0 <= r < NumRows ==> g0[r][col] == Blank && c0[r] <= NumbersPerRow
    requires |avail| == NumRows && forall k :: 0 <= k < NumRows ==> avail[k] == k
    ensures ColumnInv(PlacementState(g0, c0, avail), col, g0, c0, [])
  {
    forall r | 0 <= r < NumRows ensures r in avail {
      assert avail[r] == r;
    }
  }

  /** Places one column's numbers, each into a row of its own. */
  method PlaceColumn(ticket: array2<Cell>, numbersPlacedInRow: array<int>, col: nat, nums: seq<int>)
    requires ticket.Length0 == NumRows && ticket.Length1 == NumCols
    requires numbersPlacedInRow.Length == NumRows && col < NumCols
    requires forall r :: 0 <= r < NumRows ==> ticket[r, col] == Blank
    requires forall r :: 0 <= r < NumRows ==> numbersPlacedInRow[r] <= NumbersPerRow
    requires Distinct(nums)
    modifies ticket, numbersPlacedInRow
    ensures ColumnPlaced(GridOf(ticket), numbersPlacedInRow[..], col,
                         old(GridOf(ticket)), old(numbersPlacedInRow[..]), nums)
    ensures Sum(numbersPlacedInRow[..]) <= Sum(old(numbersPlacedInRow[..])) + |nums|
    ensures nums != [] && Sum(old(numbersPlacedInRow[..])) < NumRows * NumbersPerRow ==>
      ColumnFilled(GridOf(ticket), col)
  {
    ghost var g0 := GridOf(ticket);
    ghost var c0 := numbersPlacedInRow[..];
    var availableRows: seq<int> := [];
    for r := 0 to NumRows
      invariant |availableRows| == r && forall k :: 0 <= k < r ==> availableRows[k] == k
    {
      availableRows := availableRows + [r];
    }
    ColumnInvStart(g0, c0, col, availableRows);
    for i := 0 to |nums|
      invariant ColumnInv(PlacementState(GridOf(ticket), numbersPlacedInRow[..], availableRows),
                          col, g0, c0, nums[..i])
      invariant Sum(numbersPlacedInRow[..]) <= Sum(c0) + i
      invariant i > 0 && Sum(c0) < NumRows * NumbersPerRow ==> ColumnFilled(GridOf(ticket), col)
      invariant i == 0 ==> numbersPlacedInRow[..] == c0
    {
      ghost var s := PlacementState(GridOf(ticket), numbersPlacedInRow[..], availableRows);
      var picks: seq<nat>;
      ghost var zeros: seq<nat> := if availableRows == [] then [] else [0, 0, 0, 0, 0, 0];
      assert PicksFit(zeros, availableRows);
      picks :| PicksFit(picks, availableRows);
      ColumnLoopStep(s, col, g0, c0, nums, i, picks);
      var how;
      how, availableRows := PlaceNumber(ticket, numbersPlacedInRow, col, nums[i], availableRows, picks);
    }
    assert nums[..|nums|] == nums;
  }

  /** One step of the column loop as written keeps that loop's invariants:
      the counters bound the column, their sum is at most the numbers so
      far, and once a number is due and some row had room, a filled column. */
  lemma ColumnLoopStepAsWritten(s: PlacementState, col: nat, g0: Grid, c0: seq<int>, nums: seq<int>,
                                i: nat, picks: seq<nat>)
    requires i < |nums| && Distinct(nums)
    requires ValidState(s) && ColumnCounted(s.grid, s.counts, col, g0, c0, nums[..i])
    requires PicksFit(picks, s.avail)
    requires Sum(s.counts) <= Sum(c0) + i
    requires i > 0 && Sum(c0) < NumRows * NumbersPerRow ==> ColumnFilled(s.grid, col)
    requires i == 0 ==> s.counts == c0
    ensures var t := PlaceAsWritten(s, col, nums[i], picks).0;
      ValidState(t) && ColumnCounted(t.grid, t.counts, col, g0, c0, nums[..i + 1]) &&
      Sum(t.counts) <= Sum(c0) + i + 1 &&
      (Sum(c0) < NumRows * NumbersPerRow ==> ColumnFilled(t.grid, col))
  {
    assert nums[..i + 1] == nums[..i] + [nums[i]];
    assert nums[i] !in nums[..i];
    PlaceAsWrittenKeepsCounted(s, col, g0, c0, nums[..i], nums[i], picks);
    var t := PlaceAsWritten(s, col, nums[i], picks).0;
    if Sum(c0) < NumRows * NumbersPerRow {
      if i == 0 {
        var r := SomeBelow(c0, NumbersPerRow);
        assert s.grid[r][col] == Blank;
      } else {
        var r :| 0 <= r < NumRows && s.grid[r][col].Num?;
        assert t.grid[r][col].Num?;
      }
    }
  }

  /** Places one column's numbers as ticketService.ts:76-113 do, the
      fallback leaving its row on offer. */
  method PlaceColumnAsWritten(ticket: array2<Cell>, numbersPlacedInRow: array<int>, col: nat, nums: seq<int>)
    requires ticket.Length0 == NumRows && ticket.Length1 == NumCols
    requires numbersPlacedInRow.Length == NumRows && col < NumCols
    requires forall r :: 0 <= r < NumRows ==> ticket[r, col] == Blank
    requires forall r :: 0 <= r < NumRows ==> numbersPlacedInRow[r] <= NumbersPerRow
    requires Distinct(nums)
    modifies ticket, numbersPlacedInRow
    ensures ColumnCounted(GridOf(ticket), numbersPlacedInRow[..], col,
                          old(GridOf(ticket)), old(numbersPlacedInRow[..]), nums)
    ensures Sum(numbersPlacedInRow[..]) <= Sum(old(numbersPlacedInRow[..])) + |nums|
    ensures nums != [] && Sum(old(numbersPlacedInRow[..])) < NumRows * NumbersPerRow ==>
      ColumnFilled(GridOf(ticket), col)
  {
    ghost var g0 := GridOf(ticket);
    ghost var c0 := numbersPlacedInRow[..];
    var availableRows: seq<int> := [];
    for r := 0 to NumRows
      invariant |availableRows| == r && forall k :: 0 <= k < r ==> availableRows[k] == k
    {
      availableRows := availableRows + [r];
    }
    ColumnInvStart(g0, c0, col, availableRows);
    for i := 0 to |nums|
      invariant ValidState(PlacementState(GridOf(ticket), numbersPlacedInRow[..], availableRows))
      invariant ColumnCounted(GridOf(ticket), numbersPlacedInRow[..], col, g0, c0, nums[..i])
      invariant Sum(numbersPlacedInRow[..]) <= Sum(c0) + i
      invariant i > 0 && Sum(c0) < NumRows * NumbersPerRow ==> ColumnFilled(GridOf(ticket), col)
      invariant i == 0 ==> numbersPlacedInRow[..] == c0
    {
      ghost var s := PlacementState(GridOf(ticket), numbersPlacedInRow[..], availableRows);
      var picks: seq<nat>;
      ghost var zeros: seq<nat> := if availableRows == [] then [] else [0, 0, 0, 0, 0, 0];
      assert PicksFit(zeros, availableRows);
      picks :| PicksFit(picks, availableRows);
      ColumnLoopStepAsWritten(s, col, g0, c0, nums, i, picks);
      var how;
      how, availableRows := PlaceNumberAsWritten(ticket, numbersPlacedInRow, col, nums[i], availableRows, picks);
    }
    assert nums[..|nums|] == nums;
  }

  // ---------------------------------------------------------------------
  // The whole generator.

  /** Rows and columns of the grid whose columns are each distinct and in
      range hold no number twice. */
  lemma NoRepeatsFromColumns(g: Grid)
    requires WellShaped(g) && InRanges(g)
    requires forall c :: 0 <= c < NumCols ==> ColumnDistinct(g, c)
    ensures NoRepeats(g)
  {
    forall r1, c1, r2, c2 |
      0 <= r1 < NumRows && 0 <= c1 < NumCols && 0 <= r2 < NumRows && 0 <= c2 < NumCols &&
      (r1, c1) != (r2, c2) && g[r1][c1].Num? && g[r2][c2].Num?
      ensures g[r1][c1].value != g[r2][c2].value
    {
      if c1 != c2 {
        ColumnRangesDisjoint(c1, c2, g[r1][c1].value);
      } else {
        assert ColumnDistinct(g, c1);
        if r1 > r2 {
          assert g[r2][c1].value != g[r1][c1].value;
        }
      }
    }
  }

  /** Writing a number into an empty cell adds one to the row's count. */
  lemma {:induction false} NumbersAfterFill(row: seq<Cell>, c: nat, v: int)
    requires c < |row| && row[c] == Blank
    ensures |Numbers(row[c := Num(v)])| == |Numbers(row)| + 1
  {
    if c > 0 {
      assert row[c := Num(v)][1..] == row[1..][c - 1 := Num(v)];
      NumbersAfterFill(row[1..], c - 1, v);
    }
  }

  /** The generator as written after columns `0 .. col - 1`: later columns
      are empty, each counter is at most five and at least the number of
      numbers in its row, and every filled column holds distinct numbers of
      its range, at least one. */
  ghost predicate TicketBounded(g: Grid, counts: seq<int>, col: nat)
  {
    WellShaped(g) && |counts| == NumRows && col <= NumCols &&
    (forall r, c :: 0 <= r < NumRows && col <= c < NumCols ==> g[r][c] == Blank) &&
    (forall r :: 0 <= r < NumRows ==> |Numbers(g[r])| <= counts[r] <= NumbersPerRow) &&
    (forall r, c :: 0 <= r < NumRows && 0 <= c < col && g[r][c].Num? ==> InColumnRange(c, g[r][c].value)) &&
    (forall c :: 0 <= c < col ==> ColumnDistinct(g, c) && ColumnFilled(g, c))
  }

  /** The corrected generator after columns `0 .. col - 1`: as above, and
      each counter is exactly the number of numbers in its row. */
  ghost predicate TicketSoFar(g: Grid, counts: seq<int>, col: nat)
  {
    TicketBounded(g, counts, col) &&
    forall r :: 0 <= r < NumRows ==> counts[r] == |Numbers(g[r])|
  }

  /** Filling column `col` as written, with numbers of its range, extends
      the bounded ticket by one column. */
  lemma TicketBoundedStep(g: Grid, counts: seq<int>, col: nat, h: Grid, counts': seq<int>, nums: seq<int>)
    requires TicketBounded(g, counts, col) && col < NumCols
    requires ColumnCounted(h, counts', col, g, counts, nums) && ColumnFilled(h, col)
    requires forall i :: 0 <= i < |nums| ==> InColumnRange(col, nums[i])
    ensures TicketBounded(h, counts', col + 1)
  {
    forall r | 0 <= r < NumRows
      ensures |Numbers(h[r])| <= counts'[r]
    {
      assert g[r][col] == Blank;
      if h[r][col].Num? {
        assert h[r] == g[r][col := h[r][col]];
        NumbersAfterFill(g[r], col, h[r][col].value);
      } else {
        assert h[r] == g[r];
      }
    }
    forall r, c | 0 <= r < NumRows && 0 <= c <= col && h[r][c].Num?
      ensures InColumnRange(c, h[r][c].value)
    {
      if c == col {
        var i :| 0 <= i < |nums| && nums[i] == h[r][c].value;
      }
    }
    forall c | 0 <= c < col ensures ColumnDistinct(h, c) && ColumnFilled(h, c) {
      assert ColumnDistinct(g, c) && ColumnFilled(g, c);
    }
  }

  /** Filling column `col` with numbers of its range extends the ticket by one column. */
  lemma TicketSoFarStep(g: Grid, counts: seq<int>, col: nat, h: Grid, counts': seq<int>, nums: seq<int>)
    requires TicketSoFar(g, counts, col) && col < NumCols
    requires ColumnPlaced(h, counts', col, g, counts, nums) && ColumnFilled(h, col)
    requires forall i :: 0 <= i < |nums| ==> InColumnRange(col, nums[i])
    ensures TicketSoFar(h, counts', col + 1)
  {
    TicketBoundedStep(g, counts, col, h, counts', nums);
    RowCountsAfterColumn(g, counts, col, h, counts', nums);
  }

  /** After column `col` is filled, each counter still counts its row's numbers. */
  lemma RowCountsAfterColumn(g: Grid, counts: seq<int>, col: nat, h: Grid, counts': seq<int>, nums: seq<int>)
    requires TicketSoFar(g, counts, col) && col < NumCols
    requires ColumnPlaced(h, counts', col, g, counts, nums)
    ensures forall r :: 0 <= r < NumRows ==> counts'[r] == |Numbers(h[r])|
  {
    forall r | 0 <= r < NumRows
      ensures counts'[r] == |Numbers(h[r])|
    {
      assert g[r][col] == Blank;
      if h[r][col].Num? {
        assert h[r] == g[r][col := h[r][col]];
        NumbersAfterFill(g[r], col, h[r][col].value);
      } else {
        assert h[r] == g[r];
      }
    }
  }

  /** A complete ticket, corrected or as written, meets every promise of
      `generateTicket`. */
  lemma TicketSoFarDone(g: Grid, counts: seq<int>)
    requires TicketBounded(g, counts, NumCols)
    ensures InRanges(g) && NoRepeats(g)
    ensures forall r :: 0 <= r < NumRows ==> |Numbers(g[r])| <= NumbersPerRow
    ensures forall c :: 0 <= c < NumCols ==>
      MinNumbersPerCol <= |Numbers(Column(g, c))| <= MaxNumbersPerCol
    ensures |AllNumbers(g)| <= NumRows * NumbersPerRow
  {
    forall c | 0 <= c < NumCols
      ensures MinNumbersPerCol <= |Numbers(Column(g, c))| <= MaxNumbersPerCol
    {
      assert ColumnFilled(g, c);
      var r :| 0 <= r < NumRows && g[r][c].Num?;
      assert g[r][c] in Column(g, c);
    }
    NoRepeatsFromColumns(g);
    AllNumbersOfThreeRows(g);
  }

  /** One pass of the column loop (ticketService.ts:66-112): draw the
      column's numbers, then place them into rows. */
  method FillColumn(ticket: array2<Cell>, numbersPlacedInRow: array<int>, col: nat, count: int)
    requires ticket.Length0 == NumRows && ticket.Length1 == NumCols
    requires numbersPlacedInRow.Length == NumRows && col < NumCols
    requires MinNumbersPerCol <= count <= MaxNumbersPerCol
    requires TicketSoFar(GridOf(ticket), numbersPlacedInRow[..], col)
    requires Sum(numbersPlacedInRow[..]) < NumRows * NumbersPerRow
    modifies ticket, numbersPlacedInRow
    ensures TicketSoFar(GridOf(ticket), numbersPlacedInRow[..], col + 1)
    ensures Sum(numbersPlacedInRow[..]) <= old(Sum(numbersPlacedInRow[..])) + count
  {
    var nums := DrawColumnNumbers(col, count);
    ghost var before := GridOf(ticket);
    ghost var countsBefore := numbersPlacedInRow[..];
    forall r | 0 <= r < NumRows ensures ticket[r, col] == Blank && numbersPlacedInRow[r] <= NumbersPerRow {
      assert before[r][col] == Blank && countsBefore[r] <= NumbersPerRow;
    }
    PlaceColumn(ticket, numbersPlacedInRow, col, nums);
    TicketSoFarStep(before, countsBefore, col, GridOf(ticket), numbersPlacedInRow[..], nums);
  }

  /** One pass of the column loop as written: draw the column's numbers,
      then place them with the fallback leaving its row on offer. */
  method FillColumnAsWritten(ticket: array2<Cell>, numbersPlacedInRow: array<int>, col: nat, count: int)
    requires ticket.Length0 == NumRows && ticket.Length1 == NumCols
    requires numbersPlacedInRow.Length == NumRows && col < NumCols
    requires MinNumbersPerCol <= count <= MaxNumbersPerCol
    requires TicketBounded(GridOf(ticket), numbersPlacedInRow[..], col)
    requires Sum(numbersPlacedInRow[..]) < NumRows * NumbersPerRow
    modifies ticket, numbersPlacedInRow
    ensures TicketBounded(GridOf(ticket), numbersPlacedInRow[..], col + 1)
    ensures Sum(numbersPlacedInRow[..]) <= old(Sum(numbersPlacedInRow[..])) + count
  {
    var nums := DrawColumnNumbers(col, count);
    ghost var before := GridOf(ticket);
    ghost var countsBefore := numbersPlacedInRow[..];
    forall r | 0 <= r < NumRows ensures ticket[r, col] == Blank && numbersPlacedInRow[r] <= NumbersPerRow {
      assert before[r][col] == Blank && countsBefore[r] <= NumbersPerRow;
    }
    PlaceColumnAsWritten(ticket, numbersPlacedInRow, col, nums);
    TicketBoundedStep(before, countsBefore, col, GridOf(ticket), numbersPlacedInRow[..], nums);
  }

  /** A fresh ticket is the start of the column loop. */
  lemma TicketSoFarStart(g: Grid, counts: seq<int>)
    requires WellShaped(g) && forall r, c :: 0 <= r < NumRows && 0 <= c < NumCols ==> g[r][c] == Blank
    requires counts == [0, 0, 0]
    ensures TicketSoFar(g, counts, 0)
  {
    forall r | 0 <= r < NumRows ensures g[r] == BlankRow {
    }
    assert Numbers(BlankRow) == [];
  }

  /** `generateTicket`: a 3 x 9 grid whose numbers lie in their column
      ranges, never repeat, number at most five per row and between one and
      three per column, at most fifteen in all. */
  method GenerateTicket() returns (rows: Grid)
    ensures ValidTicket(rows)
  {
    var ticket := new Cell[NumRows, NumCols]((_, _) => Blank);
    var numbersPlacedInRow := new int[NumRows](_ => 0);
    var colNumbersCount := DistributeColumnCounts();
    assert numbersPlacedInRow[..] == [0, 0, 0];
    SumAtMost(numbersPlacedInRow[..], 0);
    TicketSoFarStart(GridOf(ticket), numbersPlacedInRow[..]);
    for col := 0 to NumCols
      invariant TicketSoFar(GridOf(ticket), numbersPlacedInRow[..], col)
      invariant Sum(numbersPlacedInRow[..]) <= Sum(colNumbersCount[..col])
    {
      SumPrefixLeaves(colNumbersCount, col, MinNumbersPerCol);
      FillColumn(ticket, numbersPlacedInRow, col, colNumbersCount[col]);
      SumPrefixNext(colNumbersCount, col);
    }
    rows := GridOf(ticket);
    TicketSoFarDone(rows, numbersPlacedInRow[..]);
  }

  /** `generateTicket` exactly as written, its fallback leaving the row on
      offer: a lost number and an over-counted row do not break any of its
      promises, which hold here as for the corrected generator. */
  method GenerateTicketAsWritten() returns (rows: Grid)
    ensures ValidTicket(rows)
  {
    var ticket := new Cell[NumRows, NumCols]((_, _) => Blank);
    var numbersPlacedInRow := new int[NumRows](_ => 0);
    var colNumbersCount := DistributeColumnCounts();
    assert numbersPlacedInRow[..] == [0, 0, 0];
    SumAtMost(numbersPlacedInRow[..], 0);
    TicketSoFarStart(GridOf(ticket), numbersPlacedInRow[..]);
    for col := 0 to NumCols
      invariant TicketBounded(GridOf(ticket), numbersPlacedInRow[..], col)
      invariant Sum(numbersPlacedInRow[..]) <= Sum(colNumbersCount[..col])
    {
      SumPrefixLeaves(colNumbersCount, col, MinNumbersPerCol);
      FillColumnAsWritten(ticket, numbersPlacedInRow, col, colNumbersCount[col]);
      SumPrefixNext(colNumbersCount, col);
    }
    rows := GridOf(ticket);
    TicketSoFarDone(rows, numbersPlacedInRow[..]);
  }
}
