// `internalCheckPattern` (gameService.ts): whether a ticket shows a winning
// pattern for the numbers called so far.

module PatternMatcher {
  import opened Seqs
  import opened TicketLayout
  import opened WinningPatterns

  /** How many entries of `nums` have been called, counted with repetition. */
  function CalledCount(nums: seq<int>, called: seq<int>): (k: nat)
    ensures k <= |nums|
  {
    if nums == [] then 0
    else CalledCount(nums[..|nums| - 1], called) + (if nums[|nums| - 1] in called then 1 else 0)
  }

  /** Every entry of `nums` is among the called numbers. */
  predicate AllCalled(nums: seq<int>, called: seq<int>)
  {
    forall i :: 0 <= i < |nums| ==> nums[i] in called
  }

  /** A line pattern: the row holds a number and all its numbers are called. */
  predicate LineComplete(row: seq<Cell>, called: seq<int>)
  {
    |Numbers(row)| > 0 && AllCalled(Numbers(row), called)
  }

  /** The pattern check on a ticket's rows: false unless there are exactly
      three rows and the upper-cased key is one of the five patterns. */
  function CheckPattern(rows: Grid, called: seq<int>, patternKey: string): bool
  {
    CheckUpperKey(rows, called, ToUpper(patternKey))
  }

  /** The pattern check for a key already upper-cased. */
  function CheckUpperKey(rows: Grid, called: seq<int>, key: string): bool
  {
    if |rows| != NumRows then false
    else
      var all := AllNumbers(rows);
      if key == "EARLY_FIVE" then
        EarlyFive.numbersRequired.Some? && CalledCount(all, called) >= EarlyFive.numbersRequired.value
      else if key == "TOP_LINE" then LineComplete(rows[0], called)
      else if key == "MIDDLE_LINE" then LineComplete(rows[1], called)
      else if key == "BOTTOM_LINE" then LineComplete(rows[2], called)
      else if key == "FULL_HOUSE" then |all| > 0 && AllCalled(all, called)
      else false
  }

  /** The counting loop of the EARLY_FIVE case. */
  method CountCalledOnTicket(allNumbersOnTicket: seq<int>, calledNumbers: seq<int>)
    returns (countCalledOnTicket: nat)
    ensures countCalledOnTicket == CalledCount(allNumbersOnTicket, calledNumbers)
  {
    countCalledOnTicket := 0;
    for i := 0 to |allNumbersOnTicket|
      invariant countCalledOnTicket == CalledCount(allNumbersOnTicket[..i], calledNumbers)
    {
      assert allNumbersOnTicket[..i + 1][..i] == allNumbersOnTicket[..i];
      if allNumbersOnTicket[i] in calledNumbers {
        countCalledOnTicket := countCalledOnTicket + 1;
      }
    }
    assert allNumbersOnTicket[..|allNumbersOnTicket|] == allNumbersOnTicket;
  }

  /** `internalCheckPattern` as the source runs it, with the counting loop. */
  method InternalCheckPattern(ticketDataRows: Grid, calledNumbers: seq<int>, patternKey: string)
    returns (b: bool)
    ensures b == CheckPattern(ticketDataRows, calledNumbers, patternKey)
  {
    if |ticketDataRows| != NumRows {
      return false;
    }
    var allNumbersOnTicket := AllNumbers(ticketDataRows);
    var key := ToUpper(patternKey);
    if key == "EARLY_FIVE" {
      var earlyFiveConfig := EarlyFive;
      if earlyFiveConfig.numbersRequired.None? {
        return false;
      }
      var countCalledOnTicket := CountCalledOnTicket(allNumbersOnTicket, calledNumbers);
      b := countCalledOnTicket >= earlyFiveConfig.numbersRequired.value;
    } else if key == "TOP_LINE" {
      b := LineComplete(ticketDataRows[0], calledNumbers);
    } else if key == "MIDDLE_LINE" {
      b := LineComplete(ticketDataRows[1], calledNumbers);
    } else if key == "BOTTOM_LINE" {
      b := LineComplete(ticketDataRows[2], calledNumbers);
    } else if key == "FULL_HOUSE" {
      b := |allNumbersOnTicket| > 0 && AllCalled(allNumbersOnTicket, calledNumbers);
    } else {
      b := false;
    }
  }

  // ---------------------------------------------------------------------
  // What the check means.

  /** A pattern is only ever met on a three-row ticket, for a key that
      upper-cases to one of the five patterns of the table. */
  lemma CheckPatternImpliesKnown(rows: Grid, called: seq<int>, patternKey: string)
    requires CheckPattern(rows, called, patternKey)
    ensures |rows| == NumRows
    ensures Lookup(ToUpper(patternKey)).Some?
  {
    LookupKnownKeys(ToUpper(patternKey));
  }

  /** The key is matched without regard to case. */
  lemma CheckPatternIgnoresCase(rows: Grid, called: seq<int>, patternKey: string)
    ensures CheckPattern(rows, called, patternKey) == CheckPattern(rows, called, ToUpper(patternKey))
  {
    ToUpperIdempotent(patternKey);
  }

  /** The row holds a number. */
  predicate RowHasNumber(row: seq<Cell>)
  {
    exists c :: 0 <= c < |row| && row[c].Num?
  }

  /** Every number in the row has been called. */
  predicate RowAllCalled(row: seq<Cell>, called: seq<int>)
  {
    forall c :: 0 <= c < |row| && row[c].Num? ==> row[c].value in called
  }

  /** A line is complete exactly when, cell by cell, the row holds a number
      and each number it holds has been called. */
  lemma LineCompleteByCells(row: seq<Cell>, called: seq<int>)
    ensures LineComplete(row, called) <==> RowHasNumber(row) && RowAllCalled(row, called)
  {
    var ns := Numbers(row);
    if RowHasNumber(row) {
      var c :| 0 <= c < |row| && row[c].Num?;
      assert row[c].value in ns;
    }
    if |ns| > 0 {
      assert ns[0] in ns;
      var c :| 0 <= c < |row| && row[c] == Num(ns[0]);
    }
    if AllCalled(ns, called) {
      forall c | 0 <= c < |row| && row[c].Num? ensures row[c].value in called {
        assert row[c].value in ns;
      }
    }
    if RowAllCalled(row, called) {
      forall i | 0 <= i < |ns| ensures ns[i] in called {
        assert ns[i] in ns;
        var c :| 0 <= c < |row| && row[c] == Num(ns[i]);
      }
    }
  }

  /** The name of the line pattern of row `r`. */
  function LineKey(r: nat): string
    requires r < NumRows
  {
    if r == 0 then "TOP_LINE" else if r == 1 then "MIDDLE_LINE" else "BOTTOM_LINE"
  }

  /** TOP_LINE, MIDDLE_LINE and BOTTOM_LINE hold exactly when their row of
      the three-row ticket holds a number and every number in it is called. */
  lemma LinePatternRule(rows: Grid, called: seq<int>, patternKey: string, r: nat)
    requires r < NumRows && ToUpper(patternKey) == LineKey(r)
    ensures CheckPattern(rows, called, patternKey) <==>
      |rows| == NumRows && RowHasNumber(rows[r]) && RowAllCalled(rows[r], called)
  {
    if |rows| == NumRows {
      LineCompleteByCells(rows[r], called);
    }
  }

  /** A concatenation is all called exactly when both parts are. */
  lemma AllCalledAppend(a: seq<int>, b: seq<int>, called: seq<int>)
    ensures AllCalled(a + b, called) <==> AllCalled(a, called) && AllCalled(b, called)
  {
    var ab := a + b;
    if AllCalled(ab, called) {
      forall i | 0 <= i < |a| ensures a[i] in called { assert ab[i] == a[i]; }
      forall i | 0 <= i < |b| ensures b[i] in called { assert ab[|a| + i] == b[i]; }
    }
    if AllCalled(a, called) && AllCalled(b, called) {
      forall i | 0 <= i < |ab| ensures ab[i] in called {
        if i < |a| {
          assert ab[i] == a[i];
        } else {
          assert ab[i] == b[i - |a|];
        }
      }
    }
  }

  /** Every number of a three-row ticket has been called exactly when every
      number of each of its rows has. */
  lemma AllCalledOfThreeRows(rows: Grid, called: seq<int>)
    requires |rows| == NumRows
    ensures AllCalled(AllNumbers(rows), called) <==>
      AllCalled(Numbers(rows[0]), called) && AllCalled(Numbers(rows[1]), called) &&
      AllCalled(Numbers(rows[2]), called)
  {
    AllNumbersOfThreeRows(rows);
    var a, b, c := Numbers(rows[0]), Numbers(rows[1]), Numbers(rows[2]);
    AllCalledAppend(a + b, c, called);
    AllCalledAppend(a, b, called);
  }

  /** FULL_HOUSE holds exactly when the ticket holds a number and each of
      its three rows has all its numbers called; so it holds once every
      line pattern holds, and it implies each line holding a number. */
  lemma FullHouseIsAllLines(rows: Grid, called: seq<int>, patternKey: string)
    requires ToUpper(patternKey) == "FULL_HOUSE" && |rows| == NumRows
    ensures CheckPattern(rows, called, patternKey) <==>
      |AllNumbers(rows)| > 0 &&
      forall r :: 0 <= r < NumRows ==> AllCalled(Numbers(rows[r]), called)
    ensures (forall r :: 0 <= r < NumRows ==> LineComplete(rows[r], called)) ==>
      CheckPattern(rows, called, patternKey)
  {
    AllCalledOfThreeRows(rows, called);
    AllNumbersOfThreeRows(rows);
  }

  /** Once all the given numbers are called, each of them counts. */
  lemma {:induction false} CalledCountAllCalled(nums: seq<int>, called: seq<int>)
    requires AllCalled(nums, called)
    ensures CalledCount(nums, called) == |nums|
  {
    if nums != [] {
      CalledCountAllCalled(nums[..|nums| - 1], called);
    }
  }

  /** A full house on a ticket of at least five numbers also shows EARLY_FIVE. */
  lemma FullHouseGivesEarlyFive(rows: Grid, called: seq<int>)
    requires CheckPattern(rows, called, "FULL_HOUSE") && |AllNumbers(rows)| >= 5
    ensures CheckPattern(rows, called, "EARLY_FIVE")
  {
    LiteralKeysUpper();
    CalledCountAllCalled(AllNumbers(rows), called);
  }

  /** The distinct numbers of `nums` that have been called. */
  function CalledSet(nums: seq<int>, called: seq<int>): set<int>
  {
    set n | n in nums && n in called
  }

  /** On numbers without repeats, the counting loop counts exactly the
      distinct called numbers. */
  lemma {:induction false} CalledCountIsCalledSet(nums: seq<int>, called: seq<int>)
    requires Distinct(nums)
    ensures CalledCount(nums, called) == |CalledSet(nums, called)|
  {
    if nums == [] {
      assert CalledSet(nums, called) == {};
    } else {
      var init, x := nums[..|nums| - 1], nums[|nums| - 1];
      assert nums == init + [x];
      assert Distinct(init);
      assert x !in init;
      CalledCountIsCalledSet(init, called);
      if x in called {
        assert CalledSet(nums, called) == CalledSet(init, called) + {x};
      } else {
        assert CalledSet(nums, called) == CalledSet(init, called);
      }
    }
  }

  /** EARLY_FIVE holds exactly when at least five distinct numbers of the
      three-row ticket have been called. */
  lemma EarlyFiveRule(rows: Grid, called: seq<int>, patternKey: string)
    requires ToUpper(patternKey) == "EARLY_FIVE" && Distinct(AllNumbers(rows))
    ensures CheckPattern(rows, called, patternKey) <==>
      |rows| == NumRows && |CalledSet(AllNumbers(rows), called)| >= 5
  {
    CalledCountIsCalledSet(AllNumbers(rows), called);
  }

  /** Calling more numbers never takes away a pattern. */
  lemma {:induction false} CalledCountGrows(nums: seq<int>, called: seq<int>, more: seq<int>)
    requires forall n :: n in called ==> n in more
    ensures CalledCount(nums, called) <= CalledCount(nums, more)
  {
    if nums != [] {
      CalledCountGrows(nums[..|nums| - 1], called, more);
    }
  }

  lemma CheckPatternMonotone(rows: Grid, called: seq<int>, more: seq<int>, patternKey: string)
    requires forall n :: n in called ==> n in more
    requires CheckPattern(rows, called, patternKey)
    ensures CheckPattern(rows, more, patternKey)
  {
    CheckUpperKeyMonotone(rows, called, more, ToUpper(patternKey));
  }

  /** The same, for a key already upper-cased. */
  lemma CheckUpperKeyMonotone(rows: Grid, called: seq<int>, more: seq<int>, key: string)
    requires forall n :: n in called ==> n in more
    requires CheckUpperKey(rows, called, key)
    ensures CheckUpperKey(rows, more, key)
  {
    CalledCountGrows(AllNumbers(rows), called, more);
  }

  /** The check depends only on which numbers have been called, not on the
      order in which they were called or on repeats. */
  lemma CheckPatternOrderFree(rows: Grid, called: seq<int>, other: seq<int>, patternKey: string)
    requires forall n :: n in called <==> n in other
    ensures CheckPattern(rows, called, patternKey) == CheckPattern(rows, other, patternKey)
  {
    CalledCountGrows(AllNumbers(rows), called, other);
    CalledCountGrows(AllNumbers(rows), other, called);
  }
}
