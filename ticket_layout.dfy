// The housie ticket layout: a grid of rows of cells, each empty or holding
// a number, and the column ranges of the 3 x 9 ticket.

module TicketLayout {
  import opened Seqs


  const NumRows := 3
  const NumCols := 9
  const NumbersPerRow := 5
  const MaxNumbersPerCol := 3
  const MinNumbersPerCol := 1

  /** A cell of the ticket: JSON `null` or a number. */
  datatype Cell = Blank | Num(value: int)

  /** The `rows` array of a ticket as stored; its shape is not guaranteed. */
  type Grid = seq<seq<Cell>>

  /** Smallest number column `col` may hold: 1 for column 0, else `col * 10`. */
  function ColumnMin(col: int): int
  {
    col * 10 + (if col == 0 then 1 else 0)
  }

  /** Largest number column `col` may hold: 90 for column 8, else `col * 10 + 9`. */
  function ColumnMax(col: int): int
  {
    col * 10 + (if col == 8 then 10 else 9)
  }

  predicate InColumnRange(col: int, n: int)
  {
    ColumnMin(col) <= n <= ColumnMax(col)
  }

  /** The numbers of a row, left to right, with the blanks filtered out. */
  function Numbers(row: seq<Cell>): (r: seq<int>)
    ensures |r| <= |row|
    ensures forall n :: n in r <==> Num(n) in row
  {
    if row == [] then []
    else if row[0].Num? then [row[0].value] + Numbers(row[1..])
    else Numbers(row[1..])
  }

  /** All numbers on a ticket, row by row, blanks dropped. */
  function AllNumbers(g: Grid): seq<int>
  {
    if g == [] then [] else AllNumbers(g[..|g| - 1]) + Numbers(g[|g| - 1])
  }

  /** The cells of column `col`, top to bottom. */
  function Column(g: Grid, col: nat): (r: seq<Cell>)
    requires forall k :: 0 <= k < |g| ==> col < |g[k]|
    ensures |r| == |g|
    ensures forall k :: 0 <= k < |g| ==> r[k] == g[k][col]
  {
    seq(|g|, k requires 0 <= k < |g| => g[k][col])
  }

  /** A grid of NumRows rows of NumCols cells. */
  predicate WellShaped(g: Grid)
  {
    |g| == NumRows && forall k :: 0 <= k < |g| ==> |g[k]| == NumCols
  }

  /** Every number sits in its column's range. */
  predicate InRanges(g: Grid)
    requires WellShaped(g)
  {
    forall r, c :: 0 <= r < NumRows && 0 <= c < NumCols && g[r][c].Num? ==>
      InColumnRange(c, g[r][c].value)
  }

  /** Column `col` holds at least one number. */
  predicate ColumnFilled(g: Grid, col: nat)
    requires WellShaped(g) && col < NumCols
  {
    exists r :: 0 <= r < NumRows && g[r][col].Num?
  }

  /** No number appears in two different cells. */
  predicate NoRepeats(g: Grid)
    requires WellShaped(g)
  {
    forall r1, c1, r2, c2 ::
      0 <= r1 < NumRows && 0 <= c1 < NumCols && 0 <= r2 < NumRows && 0 <= c2 < NumCols &&
      (r1, c1) != (r2, c2) && g[r1][c1].Num? && g[r2][c2].Num? ==>
        g[r1][c1].value != g[r2][c2].value
  }

  /** A housie ticket as the generator makes them: 3 x 9, each number in its
      column's range, none twice, at most five per row, one to three per
      column, fifteen at most in all. */
  ghost predicate ValidTicket(rows: Grid)
  {
    WellShaped(rows) && InRanges(rows) && NoRepeats(rows) &&
    (forall r :: 0 <= r < NumRows ==> |Numbers(rows[r])| <= NumbersPerRow) &&
    (forall c :: 0 <= c < NumCols ==>
      MinNumbersPerCol <= |Numbers(Column(rows, c))| <= MaxNumbersPerCol) &&
    |AllNumbers(rows)| <= NumRows * NumbersPerRow
  }

  /** Column ranges are disjoint and lie within 1..90. */
  lemma ColumnRangesDisjoint(c1: int, c2: int, n: int)
    requires 0 <= c1 < NumCols && 0 <= c2 < NumCols && c1 != c2
    requires InColumnRange(c1, n)
    ensures !InColumnRange(c2, n)
    ensures 1 <= n <= 90
  {
  }

  lemma {:induction false} NumbersAppend(a: seq<Cell>, b: seq<Cell>)
    ensures Numbers(a + b) == Numbers(a) + Numbers(b)
  {
    if a == [] {
      assert a + b == b;
    } else {
      assert (a + b)[1..] == a[1..] + b;
      NumbersAppend(a[1..], b);
    }
  }

  /** On a ticket of three rows, all numbers are the three rows' numbers in turn. */
  lemma AllNumbersOfThreeRows(g: Grid)
    requires |g| == NumRows
    ensures AllNumbers(g) == Numbers(g[0]) + Numbers(g[1]) + Numbers(g[2])
  {
    var one, two := g[..1], g[..2];
    assert one[..0] == [] && one[0] == g[0];
    assert AllNumbers(one) == Numbers(g[0]);
    assert two[..1] == one && two[1] == g[1];
    assert AllNumbers(two) == Numbers(g[0]) + Numbers(g[1]);
    assert g[..2] == two;
  }

  /** Cells holding pairwise different numbers. */
  predicate CellsDistinct(row: seq<Cell>)
  {
    forall i, j :: 0 <= i < j < |row| && row[i].Num? && row[j].Num? ==> row[i].value != row[j].value
  }

  lemma {:induction false} NumbersDistinct(row: seq<Cell>)
    requires CellsDistinct(row)
    ensures Distinct(Numbers(row))
  {
    if row != [] {
      assert CellsDistinct(row[1..]) by {
        forall i, j | 0 <= i < j < |row[1..]| && row[1..][i].Num? && row[1..][j].Num?
          ensures row[1..][i].value != row[1..][j].value
        {
          assert row[1..][i] == row[i + 1] && row[1..][j] == row[j + 1];
        }
      }
      NumbersDistinct(row[1..]);
      if row[0].Num? {
        var rest := Numbers(row[1..]);
        assert Num(row[0].value) !in row[1..] by {
          forall k | 0 <= k < |row[1..]| ensures row[1..][k] != Num(row[0].value) {
            assert row[1..][k] == row[k + 1];
          }
        }
        var r := [row[0].value] + rest;
        forall i, j | 0 <= i < j < |r| ensures r[i] != r[j] {
          if i == 0 {
            assert r[j] == rest[j - 1] && rest[j - 1] in rest;
          } else {
            assert r[i] == rest[i - 1] && r[j] == rest[j - 1];
          }
        }
      }
    }
  }

  /** Two sequences without repeats and without common values concatenate
      to one without repeats. */
  lemma DistinctAppend(a: seq<int>, b: seq<int>)
    requires Distinct(a) && Distinct(b)
    requires forall n :: n in a ==> n !in b
    ensures Distinct(a + b)
  {
    var ab := a + b;
    forall i, j | 0 <= i < j < |ab| ensures ab[i] != ab[j] {
      if j < |a| {
        assert ab[i] == a[i] && ab[j] == a[j];
      } else if i < |a| {
        assert ab[i] == a[i] && ab[j] == b[j - |a|];
        assert a[i] in a && b[j - |a|] in b;
      } else {
        assert ab[i] == b[i - |a|] && ab[j] == b[j - |a|];
      }
    }
  }

  /** A ticket with no number in two cells lists each of its numbers once. */
  lemma NoRepeatsAllNumbersDistinct(g: Grid)
    requires WellShaped(g) && NoRepeats(g)
    ensures Distinct(AllNumbers(g))
  {
    AllNumbersOfThreeRows(g);
    forall r | 0 <= r < NumRows ensures Distinct(Numbers(g[r])) {
      NumbersDistinct(g[r]);
    }
    forall r1, r2, n | 0 <= r1 < r2 < NumRows && n in Numbers(g[r1])
      ensures n !in Numbers(g[r2])
    {
      var c1 :| 0 <= c1 < |g[r1]| && g[r1][c1] == Num(n);
      forall c2 | 0 <= c2 < |g[r2]| ensures g[r2][c2] != Num(n) {
        assert (r1, c1) != (r2, c2);
      }
    }
    var a, b, c := Numbers(g[0]), Numbers(g[1]), Numbers(g[2]);
    DistinctAppend(a, b);
    DistinctAppend(a + b, c);
  }
}
