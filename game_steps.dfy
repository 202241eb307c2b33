// Each write the game service commits keeps the store consistent: these
// lemmas take the tables before a transaction and show the invariant of
// GameState for the tables after it.

module GameSteps {
  import opened Seqs
  import opened TicketLayout
  import opened WinningPatterns
  import opened PatternMatcher
  import opened PatternList
  import opened GameState

  // ---------------------------------------------------------------------
  // How the queries change when a row is added or a ticket's flags change.

  lemma TicketsSoldAppend(ts: seq<TicketRecord>, t: TicketRecord, gameId: nat)
    ensures TicketsSold(ts + [t], gameId) == TicketsSold(ts, gameId) + (if t.gameId == gameId then 1 else 0)
  {
    assert (ts + [t])[..|ts|] == ts;
  }

  /** A game has sold no ticket exactly when no ticket names it. */
  lemma {:induction false} TicketsSoldZero(ts: seq<TicketRecord>, gameId: nat)
    ensures TicketsSold(ts, gameId) == 0 <==> forall k :: 0 <= k < |ts| ==> ts[k].gameId != gameId
  {
    if ts != [] {
      var init := ts[..|ts| - 1];
      TicketsSoldZero(init, gameId);
      assert forall k :: 0 <= k < |init| ==> init[k] == ts[k];
    }
  }

  /** Replacing a ticket by one of the same game leaves every count alone. */
  lemma {:induction false} TicketsSoldSameGame(ts: seq<TicketRecord>, k: nat, t: TicketRecord, gameId: nat)
    requires k < |ts| && t.gameId == ts[k].gameId
    ensures TicketsSold(ts[k := t], gameId) == TicketsSold(ts, gameId)
  {
    var ts' := ts[k := t];
    if k == |ts| - 1 {
      assert ts'[..|ts'| - 1] == ts[..|ts| - 1];
    } else {
      assert ts'[..|ts'| - 1] == ts[..|ts| - 1][k := t];
      TicketsSoldSameGame(ts[..|ts| - 1], k, t, gameId);
    }
  }

  lemma ClaimCountAppend(ws: seq<Winning>, w: Winning, gameId: nat, pattern: string)
    ensures ClaimCount(ws + [w], gameId, pattern) ==
      ClaimCount(ws, gameId, pattern) + (if w.gameId == gameId && w.pattern == pattern then 1 else 0)
  {
    assert (ws + [w])[..|ws|] == ws;
  }

  /** A pattern of a game has no winner exactly when no winning names both. */
  lemma {:induction false} ClaimCountZero(ws: seq<Winning>, gameId: nat, pattern: string)
    ensures ClaimCount(ws, gameId, pattern) == 0 <==>
      forall k :: 0 <= k < |ws| ==> !(ws[k].gameId == gameId && ws[k].pattern == pattern)
  {
    if ws != [] {
      var init := ws[..|ws| - 1];
      ClaimCountZero(init, gameId, pattern);
      assert forall k :: 0 <= k < |init| ==> init[k] == ws[k];
    }
  }

  lemma PatternsWonAppend(ws: seq<Winning>, w: Winning, ticketId: nat)
    ensures PatternsWon(ws + [w], ticketId) ==
      PatternsWon(ws, ticketId) + (if w.ticketId == ticketId then [w.pattern] else [])
  {
    assert (ws + [w])[..|ws|] == ws;
  }

  /** A ticket that has no winning has won nothing. */
  lemma {:induction false} PatternsWonNone(ws: seq<Winning>, ticketId: nat)
    requires forall i :: 0 <= i < |ws| ==> ws[i].ticketId != ticketId
    ensures PatternsWon(ws, ticketId) == []
  {
    if ws != [] {
      PatternsWonNone(ws[..|ws| - 1], ticketId);
    }
  }

  /** Every game a winning names is past scheduling. */
  lemma NoWinningsWhileScheduled(gs: seq<Game>, ts: seq<TicketRecord>, ws: seq<Winning>, i: nat)
    requires WinningsOk(gs, ts, ws) && i < |gs| && gs[i].status == Scheduled
    ensures forall k :: 0 <= k < |ws| ==> ws[k].gameId != i + 1
  {
    forall k | 0 <= k < |ws| ensures ws[k].gameId != i + 1 {
      assert WinningOk(gs, ts, ws[k]);
    }
  }

  // ---------------------------------------------------------------------
  // Parts of the invariant that survive a change elsewhere.

  /** A winning stays in order when its game keeps the fields it depends on
      and its ticket keeps its owner, game and numbers. */
  lemma WinningOkTransfer(gs: seq<Game>, ts: seq<TicketRecord>, gs': seq<Game>, ts': seq<TicketRecord>, w: Winning)
    requires WinningOk(gs, ts, w)
    requires w.gameId <= |gs'| && w.ticketId <= |ts'|
    requires gs'[w.gameId - 1] == gs[w.gameId - 1]
    requires ts'[w.ticketId - 1].gameId == ts[w.ticketId - 1].gameId
    requires ts'[w.ticketId - 1].userId == ts[w.ticketId - 1].userId
    requires ts'[w.ticketId - 1].rows == ts[w.ticketId - 1].rows
    ensures WinningOk(gs', ts', w)
  {
  }

  /** Replacing one game by a game that is itself in order. */
  lemma GameReplacedGamesOk(gs: seq<Game>, ts: seq<TicketRecord>, i: nat, g: Game)
    requires GamesOk(gs, ts) && i < |gs|
    requires GameOk(g) && PoolOk(g, TicketsSold(ts, i + 1))
    ensures GamesOk(gs[i := g], ts)
  {
  }

  /** A scheduled game has no winnings, so replacing it touches none. */
  lemma ScheduledGameReplaced(gs: seq<Game>, ts: seq<TicketRecord>, ws: seq<Winning>, i: nat, g: Game)
    requires WinningsOk(gs, ts, ws) && i < |gs| && gs[i].status == Scheduled
    ensures WinningsOk(gs[i := g], ts, ws)
  {
    var gs' := gs[i := g];
    forall k | 0 <= k < |ws| ensures WinningOk(gs', ts, ws[k]) {
      var w := ws[k];
      assert WinningOk(gs, ts, w);
      assert gs[w.gameId - 1].status != Scheduled;
      assert w.gameId - 1 != i;
      assert gs'[w.gameId - 1] == gs[w.gameId - 1];
      WinningOkTransfer(gs, ts, gs', ts, w);
    }
  }

  /** A game past scheduling may move on and call more numbers: what it
      backed stays backed, since calling more never takes a pattern away. */
  lemma BackedByAdvanced(w: Winning, g: Game, g': Game, rows: Grid)
    requires BackedBy(w, g, rows)
    requires g'.status != Scheduled && g'.prizePool == g.prizePool && g'.tokenCurrency == g.tokenCurrency
    requires forall n :: n in g.numbersCalled ==> n in g'.numbersCalled
    ensures BackedBy(w, g', rows)
  {
    CheckUpperKeyMonotone(rows, g.numbersCalled, g'.numbersCalled, w.pattern);
  }

  /** A winning stays in order when its game moves on. */
  lemma WinningOkAdvanced(gs: seq<Game>, ts: seq<TicketRecord>, w: Winning, i: nat, g: Game)
    requires WinningOk(gs, ts, w) && i < |gs| && w.gameId == i + 1
    requires g.status != Scheduled && g.prizePool == gs[i].prizePool && g.tokenCurrency == gs[i].tokenCurrency
    requires forall n :: n in gs[i].numbersCalled ==> n in g.numbersCalled
    ensures WinningOk(gs[i := g], ts, w)
  {
    var rows := ts[w.ticketId - 1].rows;
    var old_g := gs[w.gameId - 1];
    assert BackedBy(w, old_g, rows);
    assert old_g == gs[i];
    BackedByAdvanced(w, old_g, g, rows);
  }

  lemma PlayedGameAdvanced(gs: seq<Game>, ts: seq<TicketRecord>, ws: seq<Winning>, i: nat, g: Game)
    requires WinningsOk(gs, ts, ws) && i < |gs|
    requires g.status != Scheduled && g.prizePool == gs[i].prizePool && g.tokenCurrency == gs[i].tokenCurrency
    requires forall n :: n in gs[i].numbersCalled ==> n in g.numbersCalled
    ensures WinningsOk(gs[i := g], ts, ws)
  {
    var gs' := gs[i := g];
    forall k | 0 <= k < |ws| ensures WinningOk(gs', ts, ws[k]) {
      var w := ws[k];
      assert WinningOk(gs, ts, w);
      if w.gameId == i + 1 {
        WinningOkAdvanced(gs, ts, w, i, g);
      } else {
        assert gs'[w.gameId - 1] == gs[w.gameId - 1];
        WinningOkTransfer(gs, ts, gs', ts, w);
      }
    }
  }

  /** A new game or ticket at the end of its table touches no winning. */
  lemma RowsAppendedWinningsOk(gs: seq<Game>, ts: seq<TicketRecord>, ws: seq<Winning>, gs': seq<Game>, ts': seq<TicketRecord>)
    requires WinningsOk(gs, ts, ws)
    requires |gs| <= |gs'| && gs'[..|gs|] == gs && |ts| <= |ts'| && ts'[..|ts|] == ts
    ensures WinningsOk(gs', ts', ws)
  {
    forall k | 0 <= k < |ws| ensures WinningOk(gs', ts', ws[k]) {
      var w := ws[k];
      assert WinningOk(gs, ts, w);
      assert gs'[w.gameId - 1] == gs'[..|gs|][w.gameId - 1];
      assert ts'[w.ticketId - 1] == ts'[..|ts|][w.ticketId - 1];
      WinningOkTransfer(gs, ts, gs', ts', w);
    }
  }

  /** Games whose pools stay put keep their winnings paid correctly. */
  lemma PoolsKeptWinningsPaid(gs: seq<Game>, gs': seq<Game>, ws: seq<Winning>)
    requires WinningsPaid(gs, ws)
    requires forall k :: 0 <= k < |ws| ==>
      1 <= ws[k].gameId <= |gs| && ws[k].gameId <= |gs'| &&
      gs'[ws[k].gameId - 1].prizePool == gs[ws[k].gameId - 1].prizePool
    ensures WinningsPaid(gs', ws)
  {
    forall k | 0 <= k < |ws| && 1 <= ws[k].gameId <= |gs'| ensures PaidOk(ws[k], gs'[ws[k].gameId - 1]) {
      assert PaidOk(ws[k], gs[ws[k].gameId - 1]);
    }
  }

  /** The pool invariant reads only the price, the rake and the pool. */
  lemma PoolOkKept(g: Game, g': Game, sold: nat)
    requires PoolOk(g, sold)
    requires g'.ticketPrice == g.ticketPrice && g'.rakePercentage == g.rakePercentage && g'.prizePool == g.prizePool
    ensures PoolOk(g', sold)
  {
  }

  /** Replacing a game by one with the same pool keeps every payout right. */
  lemma GameReplacedWinningsPaid(gs: seq<Game>, ws: seq<Winning>, i: nat, g: Game)
    requires WinningsPaid(gs, ws) && i < |gs| && g.prizePool == gs[i].prizePool
    ensures WinningsPaid(gs[i := g], ws)
  {
    var gs' := gs[i := g];
    forall k | 0 <= k < |ws| && 1 <= ws[k].gameId <= |gs'| ensures PaidOk(ws[k], gs'[ws[k].gameId - 1]) {
      var j := ws[k].gameId - 1;
      assert PaidOk(ws[k], gs[j]);
      assert gs'[j].prizePool == gs[j].prizePool;
    }
  }

  /** A game past scheduling that moves on: same price, rake, pool and
      currency, still not scheduled, and calling more numbers. */
  lemma PlayedGameReplaced(gs: seq<Game>, ts: seq<TicketRecord>, ws: seq<Winning>, i: nat, g: Game)
    requires Consistent(gs, ts, ws) && i < |gs| && GameOk(g)
    requires g.status != Scheduled && g.ticketPrice == gs[i].ticketPrice && g.rakePercentage == gs[i].rakePercentage
    requires g.prizePool == gs[i].prizePool && g.tokenCurrency == gs[i].tokenCurrency
    requires forall n :: n in gs[i].numbersCalled ==> n in g.numbersCalled
    ensures Consistent(gs[i := g], ts, ws)
  {
    assert PoolOk(gs[i], TicketsSold(ts, i + 1));
    PoolOkKept(gs[i], g, TicketsSold(ts, i + 1));
    GameReplacedGamesOk(gs, ts, i, g);
    PlayedGameAdvanced(gs, ts, ws, i, g);
    GameReplacedWinningsPaid(gs, ws, i, g);
  }

  /** Every winning names a stored game. */
  lemma WinningGamesExist(gs: seq<Game>, ts: seq<TicketRecord>, ws: seq<Winning>)
    requires WinningsOk(gs, ts, ws)
    ensures forall k :: 0 <= k < |ws| ==> 1 <= ws[k].gameId <= |gs|
  {
    forall k | 0 <= k < |ws| ensures 1 <= ws[k].gameId <= |gs| {
      assert WinningOk(gs, ts, ws[k]);
    }
  }

  // ---------------------------------------------------------------------
  // createGame

  /** Adding a scheduled game with an empty pool and no called numbers. */
  lemma CreateKeepsConsistent(gs: seq<Game>, ts: seq<TicketRecord>, ws: seq<Winning>, g: Game)
    requires Consistent(gs, ts, ws)
    requires g.status == Scheduled && g.prizePool == 0.0 && g.numbersCalled == []
    ensures Consistent(gs + [g], ts, ws)
  {
    var gs' := gs + [g];
    TicketsSoldZero(ts, |gs| + 1);
    assert PoolOk(g, 0);
    forall i | 0 <= i < |gs'| ensures GameOk(gs'[i]) && PoolOk(gs'[i], TicketsSold(ts, i + 1)) {
      if i < |gs| {
        assert gs'[i] == gs[i];
      }
    }
    assert gs'[..|gs|] == gs && ts[..|ts|] == ts;
    RowsAppendedWinningsOk(gs, ts, ws, gs', ts);
    WinningGamesExist(gs, ts, ws);
    forall k | 0 <= k < |ws| ensures gs'[ws[k].gameId - 1] == gs[ws[k].gameId - 1] {
    }
    PoolsKeptWinningsPaid(gs, gs', ws);
  }

  // ---------------------------------------------------------------------
  // startGame and finishGame

  /** Moving a scheduled game to live. */
  lemma StartKeepsConsistent(gs: seq<Game>, ts: seq<TicketRecord>, ws: seq<Winning>, i: nat)
    requires Consistent(gs, ts, ws) && i < |gs| && gs[i].status == Scheduled
    ensures Consistent(gs[i := gs[i].(status := Live)], ts, ws)
  {
    var g := gs[i].(status := Live);
    assert GameOk(gs[i]) && PoolOk(gs[i], TicketsSold(ts, i + 1));
    PoolOkKept(gs[i], g, TicketsSold(ts, i + 1));
    GameReplacedGamesOk(gs, ts, i, g);
    ScheduledGameReplaced(gs, ts, ws, i, g);
    GameReplacedWinningsPaid(gs, ws, i, g);
  }

  /** Moving a live game to finished. */
  lemma FinishKeepsConsistent(gs: seq<Game>, ts: seq<TicketRecord>, ws: seq<Winning>, i: nat)
    requires Consistent(gs, ts, ws) && i < |gs| && gs[i].status == Live
    ensures Consistent(gs[i := gs[i].(status := Finished)], ts, ws)
  {
    var g := gs[i].(status := Finished);
    assert GameOk(gs[i]);
    PlayedGameReplaced(gs, ts, ws, i, g);
  }

  // ---------------------------------------------------------------------
  // callNextNumber

  /** Calling a fresh number in 1..90 in a live game. */
  lemma CallKeepsConsistent(gs: seq<Game>, ts: seq<TicketRecord>, ws: seq<Winning>, i: nat, n: int)
    requires Consistent(gs, ts, ws) && i < |gs| && gs[i].status == Live
    requires 1 <= n <= MaxNumber && n !in gs[i].numbersCalled
    ensures Consistent(gs[i := gs[i].(numbersCalled := gs[i].numbersCalled + [n])], ts, ws)
  {
    var called := gs[i].numbersCalled;
    var called' := called + [n];
    var g := gs[i].(numbersCalled := called');
    assert GameOk(gs[i]) && PoolOk(gs[i], TicketsSold(ts, i + 1));
    assert Distinct(called') by {
      forall a, b | 0 <= a < b < |called'| ensures called'[a] != called'[b] {
        if b == |called| {
          assert called'[a] == called[a] && called[a] in called;
        } else {
          assert called'[a] == called[a] && called'[b] == called[b];
        }
      }
    }
    assert GameOk(g);
    PlayedGameReplaced(gs, ts, ws, i, g);
  }

  // ---------------------------------------------------------------------
  // buyTicketForGame

  /** A game once one more ticket is sold: the ticket's price less the
      rake goes into the pool. */
  function Bought(g: Game): Game
  {
    g.(prizePool := g.prizePool + NetContribution(g.ticketPrice, g.rakePercentage))
  }

  /** Selling a valid ticket for a scheduled game whose rake is valid and
      whose net contribution is not negative, adding that contribution to
      the game's pool. */
  lemma BuyKeepsConsistent(gs: seq<Game>, ts: seq<TicketRecord>, ws: seq<Winning>, i: nat, t: TicketRecord)
    requires Consistent(gs, ts, ws) && i < |gs| && gs[i].status == Scheduled
    requires 0.0 <= gs[i].rakePercentage <= 100.0
    requires NetContribution(gs[i].ticketPrice, gs[i].rakePercentage) >= 0.0
    requires t.gameId == i + 1 && ValidTicket(t.rows) && !t.isWinner && t.winningPattern == None
    ensures Consistent(
      gs[i := Bought(gs[i])],
      ts + [t], ws)
  {
    var g := Bought(gs[i]);
    var ts' := ts + [t];
    BuyKeepsGames(gs, ts, i, t);
    ScheduledGameReplaced(gs, ts, ws, i, g);
    assert gs[i := g][..|gs|] == gs[i := g] && ts'[..|ts|] == ts;
    RowsAppendedWinningsOk(gs[i := g], ts, ws, gs[i := g], ts');
    WinningsOkFacts(gs, ts, ws);
    BuyKeepsFlags(ts, ws, t);
    WinningGamesExist(gs, ts, ws);
    NoWinningsWhileScheduled(gs, ts, ws, i);
    PoolsKeptWinningsPaid(gs, gs[i := g], ws);
  }

  /** The new ticket has won nothing, and the old ones keep their flags. */
  lemma BuyKeepsFlags(ts: seq<TicketRecord>, ws: seq<Winning>, t: TicketRecord)
    requires forall k :: 0 <= k < |ws| ==> ws[k].ticketId <= |ts|
    requires TicketFlagsOk(ts, ws)
    requires !t.isWinner && t.winningPattern == None
    ensures TicketFlagsOk(ts + [t], ws)
  {
    var ts' := ts + [t];
    PatternsWonNone(ws, |ts| + 1);
    forall k | 0 <= k < |ts'|
      ensures ts'[k].isWinner == (PatternsWon(ws, k + 1) != []) &&
        ts'[k].winningPattern == (if PatternsWon(ws, k + 1) == [] then None else Some(Join(PatternsWon(ws, k + 1))))
    {
      if k < |ts| {
        assert ts'[k] == ts[k];
      }
    }
  }

  /** One more ticket sold adds its net contribution to the pool. */
  lemma BoughtPoolOk(g: Game, sold: nat)
    requires GameOk(g) && PoolOk(g, sold) && g.status == Scheduled
    requires 0.0 <= g.rakePercentage <= 100.0 && NetContribution(g.ticketPrice, g.rakePercentage) >= 0.0
    ensures GameOk(Bought(g)) && PoolOk(Bought(g), sold + 1)
  {
    var net := NetContribution(g.ticketPrice, g.rakePercentage);
    assert (sold + 1) as real * net == sold as real * net + net;
  }

  /** The pool part of a sale. */
  lemma BuyKeepsGames(gs: seq<Game>, ts: seq<TicketRecord>, i: nat, t: TicketRecord)
    requires GamesOk(gs, ts) && TicketsOk(gs, ts) && i < |gs| && gs[i].status == Scheduled
    requires 0.0 <= gs[i].rakePercentage <= 100.0
    requires NetContribution(gs[i].ticketPrice, gs[i].rakePercentage) >= 0.0
    requires t.gameId == i + 1 && ValidTicket(t.rows)
    ensures GamesOk(gs[i := Bought(gs[i])], ts + [t])
    ensures TicketsOk(gs[i := Bought(gs[i])], ts + [t])
  {
    var gs' := gs[i := Bought(gs[i])];
    var ts' := ts + [t];
    forall j | 0 <= j < |gs'| ensures GameOk(gs'[j]) && PoolOk(gs'[j], TicketsSold(ts', j + 1)) {
      TicketsSoldAppend(ts, t, j + 1);
      assert GameOk(gs[j]) && PoolOk(gs[j], TicketsSold(ts, j + 1));
      if j == i {
        BoughtPoolOk(gs[i], TicketsSold(ts, j + 1));
      }
    }
  }

  // ---------------------------------------------------------------------
  // processWinClaim

  /** What a successful claim writes: the winning row and the ticket flags. */
  function ClaimedTicket(t: TicketRecord, pattern: string): TicketRecord
  {
    t.(isWinner := true, winningPattern := Some(NewWinningPattern(t.winningPattern, pattern)))
  }

  /** The conditions under which processWinClaim commits a win. */
  ghost predicate ClaimAllowed(gs: seq<Game>, ts: seq<TicketRecord>, ws: seq<Winning>, w: Winning)
  {
    1 <= w.gameId <= |gs| && gs[w.gameId - 1].status == Live &&
    1 <= w.ticketId <= |ts| && ts[w.ticketId - 1].userId == w.userId && ts[w.ticketId - 1].gameId == w.gameId &&
    BackedBy(w, gs[w.gameId - 1], ts[w.ticketId - 1].rows) &&
    PaidOk(w, gs[w.gameId - 1]) &&
    ClaimCount(ws, w.gameId, w.pattern) < Lookup(w.pattern).value.maxWinners &&
    !AlreadyWon(ws, w.ticketId, w.pattern)
  }

  /** What every winning of a consistent store names exists, and its
      pattern is a known key. */
  lemma WinningsOkFacts(gs: seq<Game>, ts: seq<TicketRecord>, ws: seq<Winning>)
    requires WinningsOk(gs, ts, ws)
    ensures forall k :: 0 <= k < |ws| ==> 1 <= ws[k].ticketId <= |ts| && Lookup(ws[k].pattern).Some?
  {
    forall k | 0 <= k < |ws| ensures 1 <= ws[k].ticketId <= |ts| && Lookup(ws[k].pattern).Some? {
      assert WinningOk(gs, ts, ws[k]);
    }
  }

  /** A claim that passes every check keeps the store consistent: the cap
      and the one-claim rule still hold, and the ticket's flags list the new
      pattern after the ones it had. */
  lemma ClaimKeepsConsistent(gs: seq<Game>, ts: seq<TicketRecord>, ws: seq<Winning>, w: Winning,
                              ts': seq<TicketRecord>, ws': seq<Winning>)
    requires Consistent(gs, ts, ws) && ClaimAllowed(gs, ts, ws, w)
    requires ts' == ts[w.ticketId - 1 := ClaimedTicket(ts[w.ticketId - 1], w.pattern)] && ws' == ws + [w]
    ensures Consistent(gs, ts', ws')
  {
    ClaimKeepsGames(gs, ts, w);
    ClaimKeepsWinnings(gs, ts, ws, w);
    ClaimKeepsPaid(gs, ws, w);
    ClaimKeepsCaps(ws, w);
    ClaimKeepsOneEach(ws, w);
    WinningsOkFacts(gs, ts, ws);
    ClaimKeepsFlags(ts, ws, w);
  }

  /** The checks of `processWinClaim` on a claim of the upper-cased `key`:
      a live game, a ticket of the user in that game, the pattern shown on
      the ticket, the pattern below its cap, and not won by the ticket. */
  predicate ClaimAccepted(gs: seq<Game>, ts: seq<TicketRecord>, ws: seq<Winning>, gameId: nat, userId: nat, ticketId: nat, key: string)
  {
    1 <= gameId <= |gs| && gs[gameId - 1].status == Live &&
    1 <= ticketId <= |ts| && ts[ticketId - 1].userId == userId && ts[ticketId - 1].gameId == gameId &&
    CheckUpperKey(ts[ticketId - 1].rows, gs[gameId - 1].numbersCalled, key) &&
    Lookup(key).Some? &&
    !(Lookup(key).value.maxWinners > 0 && ClaimCount(ws, gameId, key) >= Lookup(key).value.maxWinners) &&
    !AlreadyWon(ws, ticketId, key)
  }

  /** A claim that passed every check of `processWinClaim` is one the
      invariant allows, with the prize defined by the pattern's payout. */
  lemma AcceptedClaimAllowed(gs: seq<Game>, ts: seq<TicketRecord>, ws: seq<Winning>, gameId: nat, userId: nat, ticketId: nat, key: string)
    requires GamesOk(gs, ts) && ClaimAccepted(gs, ts, ws, gameId, userId, ticketId, key)
    ensures Payout(gs[gameId - 1].prizePool, Lookup(key).value).Some?
    ensures ClaimAllowed(gs, ts, ws,
      Winning(userId, gameId, ticketId, Payout(gs[gameId - 1].prizePool, Lookup(key).value).value,
              gs[gameId - 1].tokenCurrency, key, Pending))
  {
    var g := gs[gameId - 1];
    var cfg := Lookup(key).value;
    TableRowsSensible(cfg);
    PoolNonNegative(gs, ts, gameId - 1);
    PayoutFacts(g.prizePool, cfg);
  }

  /** Marking the ticket of `w` depends on `w` only through its ticket and pattern. */
  lemma ClaimedAt(ts: seq<TicketRecord>, w: Winning, ticketId: nat, key: string)
    requires 1 <= ticketId <= |ts| && w.ticketId == ticketId && w.pattern == key
    ensures ts[ticketId - 1 := ClaimedTicket(ts[ticketId - 1], key)]
         == ts[w.ticketId - 1 := ClaimedTicket(ts[w.ticketId - 1], w.pattern)]
  {
  }

  /** Recording a claim that passed every check keeps the store consistent. */
  lemma ClaimCommits(gs: seq<Game>, ts: seq<TicketRecord>, ws: seq<Winning>, gameId: nat, userId: nat, ticketId: nat, key: string)
    requires Consistent(gs, ts, ws) && ClaimAccepted(gs, ts, ws, gameId, userId, ticketId, key)
    ensures Payout(gs[gameId - 1].prizePool, Lookup(key).value).Some?
    ensures Consistent(gs, ts[ticketId - 1 := ClaimedTicket(ts[ticketId - 1], key)],
      ws + [Winning(userId, gameId, ticketId, Payout(gs[gameId - 1].prizePool, Lookup(key).value).value,
                    gs[gameId - 1].tokenCurrency, key, Pending)])
  {
    AcceptedClaimAllowed(gs, ts, ws, gameId, userId, ticketId, key);
    ClaimedAt(ts, Winning(userId, gameId, ticketId, Payout(gs[gameId - 1].prizePool, Lookup(key).value).value,
                          gs[gameId - 1].tokenCurrency, key, Pending), ticketId, key);
    ClaimKeepsConsistent(gs, ts, ws,
      Winning(userId, gameId, ticketId, Payout(gs[gameId - 1].prizePool, Lookup(key).value).value,
              gs[gameId - 1].tokenCurrency, key, Pending),
      ts[ticketId - 1 := ClaimedTicket(ts[ticketId - 1], key)],
      ws + [Winning(userId, gameId, ticketId, Payout(gs[gameId - 1].prizePool, Lookup(key).value).value,
                    gs[gameId - 1].tokenCurrency, key, Pending)]);
  }

  lemma ClaimKeepsWinnings(gs: seq<Game>, ts: seq<TicketRecord>, ws: seq<Winning>, w: Winning)
    requires WinningsOk(gs, ts, ws) && ClaimAllowed(gs, ts, ws, w)
    ensures WinningsOk(gs, ts[w.ticketId - 1 := ClaimedTicket(ts[w.ticketId - 1], w.pattern)], ws + [w])
  {
    var ts' := ts[w.ticketId - 1 := ClaimedTicket(ts[w.ticketId - 1], w.pattern)];
    FlagsChangedWinningsOk(gs, ts, ws, w.ticketId - 1, ClaimedTicket(ts[w.ticketId - 1], w.pattern));
    assert ts'[w.ticketId - 1] == ClaimedTicket(ts[w.ticketId - 1], w.pattern);
    NewWinningOk(gs, ts', w, ts[w.ticketId - 1].rows);
    WinningsOkAppend(gs, ts', ws, w);
  }

  /** Changing a ticket's flags touches no winning. */
  lemma FlagsChangedWinningsOk(gs: seq<Game>, ts: seq<TicketRecord>, ws: seq<Winning>, j: nat, t: TicketRecord)
    requires WinningsOk(gs, ts, ws) && j < |ts|
    requires t.gameId == ts[j].gameId && t.userId == ts[j].userId && t.rows == ts[j].rows
    ensures WinningsOk(gs, ts[j := t], ws)
  {
    var ts' := ts[j := t];
    forall k | 0 <= k < |ws| ensures WinningOk(gs, ts', ws[k]) {
      var v := ws[k];
      assert WinningOk(gs, ts, v);
      if v.ticketId - 1 == j {
        assert ts'[j] == t;
      } else {
        assert ts'[v.ticketId - 1] == ts[v.ticketId - 1];
      }
      WinningOkTransfer(gs, ts, gs, ts', v);
    }
  }

  lemma WinningsOkAppend(gs: seq<Game>, ts: seq<TicketRecord>, ws: seq<Winning>, w: Winning)
    requires WinningsOk(gs, ts, ws) && WinningOk(gs, ts, w)
    ensures WinningsOk(gs, ts, ws + [w])
  {
    forall k | 0 <= k < |ws| + 1 ensures WinningOk(gs, ts, (ws + [w])[k]) {
      if k < |ws| {
        assert (ws + [w])[k] == ws[k];
      }
    }
  }

  lemma ClaimKeepsPaid(gs: seq<Game>, ws: seq<Winning>, w: Winning)
    requires WinningsPaid(gs, ws) && 1 <= w.gameId <= |gs| && PaidOk(w, gs[w.gameId - 1])
    ensures WinningsPaid(gs, ws + [w])
  {
    var ws' := ws + [w];
    forall k | 0 <= k < |ws'| && 1 <= ws'[k].gameId <= |gs| ensures PaidOk(ws'[k], gs[ws'[k].gameId - 1]) {
      if k < |ws| {
        assert ws'[k] == ws[k];
      }
    }
  }

  lemma NewWinningOk(gs: seq<Game>, ts: seq<TicketRecord>, w: Winning, rows: Grid)
    requires 1 <= w.gameId <= |gs| && 1 <= w.ticketId <= |ts|
    requires ts[w.ticketId - 1].gameId == w.gameId && ts[w.ticketId - 1].userId == w.userId
    requires ts[w.ticketId - 1].rows == rows && BackedBy(w, gs[w.gameId - 1], rows)
    ensures WinningOk(gs, ts, w)
  {
  }

  lemma ClaimKeepsOneEach(ws: seq<Winning>, w: Winning)
    requires OneClaimEach(ws) && !AlreadyWon(ws, w.ticketId, w.pattern)
    ensures OneClaimEach(ws + [w])
  {
    var ws' := ws + [w];
    forall a, b | 0 <= a < b < |ws'| ensures ws'[a].ticketId != ws'[b].ticketId || ws'[a].pattern != ws'[b].pattern {
      if b == |ws| {
        assert ws'[a] == ws[a];
      } else {
        assert ws'[a] == ws[a] && ws'[b] == ws[b];
      }
    }
  }

  lemma ClaimKeepsGames(gs: seq<Game>, ts: seq<TicketRecord>, w: Winning)
    requires GamesOk(gs, ts) && TicketsOk(gs, ts) && 1 <= w.ticketId <= |ts|
    ensures GamesOk(gs, ts[w.ticketId - 1 := ClaimedTicket(ts[w.ticketId - 1], w.pattern)])
    ensures TicketsOk(gs, ts[w.ticketId - 1 := ClaimedTicket(ts[w.ticketId - 1], w.pattern)])
  {
    var ts' := ts[w.ticketId - 1 := ClaimedTicket(ts[w.ticketId - 1], w.pattern)];
    forall j | 0 <= j < |gs| ensures GameOk(gs[j]) && PoolOk(gs[j], TicketsSold(ts', j + 1)) {
      TicketsSoldSameGame(ts, w.ticketId - 1, ClaimedTicket(ts[w.ticketId - 1], w.pattern), j + 1);
    }
  }

  lemma ClaimKeepsCaps(ws: seq<Winning>, w: Winning)
    requires WithinCaps(ws)
    requires Lookup(w.pattern).Some? && ClaimCount(ws, w.gameId, w.pattern) < Lookup(w.pattern).value.maxWinners
    ensures WithinCaps(ws + [w])
  {
    var ws' := ws + [w];
    forall k | 0 <= k < |ws'| && Lookup(ws'[k].pattern).Some?
      ensures ClaimCount(ws', ws'[k].gameId, ws'[k].pattern) <= Lookup(ws'[k].pattern).value.maxWinners
    {
      ClaimCountAppend(ws, w, ws'[k].gameId, ws'[k].pattern);
      if k < |ws| {
        assert ws'[k] == ws[k];
      }
    }
  }

  /** The won patterns of a consistent store are known keys. */
  lemma WonPatternsAreKeys(ws: seq<Winning>, ticketId: nat)
    requires forall k :: 0 <= k < |ws| ==> Lookup(ws[k].pattern).Some?
    ensures forall i :: 0 <= i < |PatternsWon(ws, ticketId)| ==>
      CommaFree(PatternsWon(ws, ticketId)[i]) && PatternsWon(ws, ticketId)[i] != ""
  {
    var ps := PatternsWon(ws, ticketId);
    forall i | 0 <= i < |ps| ensures CommaFree(ps[i]) && ps[i] != "" {
      assert ps[i] in ps;
      var k :| 0 <= k < |ws| && ws[k].ticketId == ticketId && ws[k].pattern == ps[i];
      KnownKeyShape(ps[i]);
    }
  }

  /** A ticket whose flags list the patterns `won` lists `won + [key]` once
      it wins a new pattern `key`. */
  lemma ClaimedTicketFlags(t: TicketRecord, won: seq<string>, key: string)
    requires forall i :: 0 <= i < |won| ==> CommaFree(won[i]) && won[i] != ""
    requires CommaFree(key) && key != "" && key !in won
    requires t.winningPattern == (if won == [] then None else Some(Join(won)))
    ensures ClaimedTicket(t, key).isWinner
    ensures ClaimedTicket(t, key).winningPattern == Some(Join(won + [key]))
  {
    NewWinningPatternAppends(won, key);
    if won == [] {
      assert won + [key] == [key];
    }
  }

  lemma ClaimKeepsFlags(ts: seq<TicketRecord>, ws: seq<Winning>, w: Winning)
    requires forall k :: 0 <= k < |ws| ==> Lookup(ws[k].pattern).Some?
    requires TicketFlagsOk(ts, ws)
    requires 1 <= w.ticketId <= |ts| && Lookup(w.pattern).Some? && !AlreadyWon(ws, w.ticketId, w.pattern)
    ensures TicketFlagsOk(ts[w.ticketId - 1 := ClaimedTicket(ts[w.ticketId - 1], w.pattern)], ws + [w])
  {
    var ts' := ts[w.ticketId - 1 := ClaimedTicket(ts[w.ticketId - 1], w.pattern)];
    var ws' := ws + [w];
    var won := PatternsWon(ws, w.ticketId);
    WonPatternsAreKeys(ws, w.ticketId);
    KnownKeyShape(w.pattern);
    assert w.pattern !in won;
    forall k | 0 <= k < |ts'|
      ensures ts'[k].isWinner == (PatternsWon(ws', k + 1) != []) &&
        ts'[k].winningPattern == (if PatternsWon(ws', k + 1) == [] then None else Some(Join(PatternsWon(ws', k + 1))))
    {
      PatternsWonAppend(ws, w, k + 1);
      if k == w.ticketId - 1 {
        ClaimedTicketFlags(ts[k], won, w.pattern);
      }
    }
  }
}
