// The rows of the games, tickets and winnings tables that gameService.ts
// reads and writes, the queries it runs over them, and the invariant that
// every operation of the game store keeps.

module GameState {
  import opened Seqs
  import opened TicketLayout
  import opened WinningPatterns
  import opened PatternMatcher
  import opened PatternList

  /** `GameStatus`. Nothing in the service ever sets `Cancelled`. */
  datatype GameStatus = Scheduled | Live | Finished | Cancelled

  /** A row of `games`; its id is its position in the table plus one
      (a serial key in an insert-only table). */
  datatype Game = Game(
    status: GameStatus,
    ticketPrice: real,
    tokenCurrency: string,
    rakePercentage: real,
    prizePool: real,
    numbersCalled: seq<int>)

  /** A row of `tickets`; `rows` is `ticket_data.rows`. */
  datatype TicketRecord = TicketRecord(
    userId: nat,
    gameId: nat,
    rows: Grid,
    isWinner: bool,
    winningPattern: Option<string>)

  /** `payout_status`: the service only ever writes 'pending'. */
  datatype PayoutStatus = Pending

  /** A row of `winnings`. */
  datatype Winning = Winning(
    userId: nat,
    gameId: nat,
    ticketId: nat,
    amountWon: real,
    tokenCurrency: string,
    pattern: string,
    payoutStatus: PayoutStatus)

  const MaxNumber := 90

  /** How far along its life a status is. */
  function Rank(s: GameStatus): nat
  {
    match s
    case Scheduled => 0
    case Live => 1
    case Finished => 2
    case Cancelled => 3
  }

  /** The one change an operation may make to a game's status: none,
      scheduled to live, or live to finished. */
  predicate StatusStep(before: GameStatus, after: GameStatus)
  {
    before == after || (before == Scheduled && after == Live) || (before == Live && after == Finished)
  }

  /** Every game keeps its place and moves at most one step forward; new
      games may be added at the end. */
  predicate StatusesForward(before: seq<Game>, after: seq<Game>)
  {
    |before| <= |after| &&
    forall i :: 0 <= i < |before| ==> StatusStep(before[i].status, after[i].status)
  }

  /** Over any run of operations each keeping `StatusesForward`, a game's
      status never moves back and never becomes cancelled. */
  lemma {:induction false} StatusesOnlyAdvance(history: seq<seq<Game>>, i: nat, j: nat, g: nat)
    requires forall k :: 0 <= k < |history| - 1 ==> StatusesForward(history[k], history[k + 1])
    requires i <= j < |history| && g < |history[i]|
    ensures g < |history[j]|
    ensures Rank(history[i][g].status) <= Rank(history[j][g].status)
    ensures history[j][g].status == Cancelled ==> history[i][g].status == Cancelled
    decreases j - i
  {
    if i < j {
      assert StatusesForward(history[i], history[i + 1]);
      StatusesOnlyAdvance(history, i + 1, j, g);
    }
  }

  // ---------------------------------------------------------------------
  // Money.

  /** What one ticket adds to the pool: the price less the rake. */
  function NetContribution(price: real, rake: real): (net: real)
    ensures 0.0 <= price && 0.0 <= rake <= 100.0 ==> 0.0 <= net <= price
    ensures rake == 0.0 ==> net == price
    ensures rake == 100.0 ==> net == 0.0
  {
    price - price * rake / 100.0
  }

  /** The prize of one winner of `cfg`: the pattern's share of the pool,
      split evenly among its capped number of winners. A negative amount is
      refused (`None`) and an empty pool pays nothing. */
  function Payout(pool: real, cfg: PatternConfig): (p: Option<real>)
    ensures p.Some? ==> p.value >= 0.0
    ensures p.None? ==> pool * cfg.prizePercentage < 0.0
    ensures pool == 0.0 ==> p == Some(0.0)
  {
    var prizeForThisPatternType := pool * cfg.prizePercentage;
    var actualPrizeForThisWinner :=
      if cfg.maxWinners > 0 then prizeForThisPatternType / cfg.maxWinners as real
      else prizeForThisPatternType;
    if actualPrizeForThisWinner < 0.0 then None
    else if pool == 0.0 && actualPrizeForThisWinner != 0.0 then Some(0.0)
    else Some(actualPrizeForThisWinner)
  }

  /** A pattern of the table pays a non-negative amount out of a
      non-negative pool, its winners together get exactly its share, and an
      empty pool pays nothing. */
  lemma PayoutFacts(pool: real, cfg: PatternConfig)
    requires cfg in PatternTable
    ensures Payout(pool, cfg).Some? <==> pool >= 0.0
    ensures pool >= 0.0 ==>
      Payout(pool, cfg).value >= 0.0 &&
      Payout(pool, cfg).value * cfg.maxWinners as real == pool * cfg.prizePercentage
    ensures pool == 0.0 ==> Payout(pool, cfg) == Some(0.0)
  {
    TableRowsSensible(cfg);
  }

  /** The single full-house winner takes 40 per cent of the pool. */
  lemma FullHousePays(pool: real)
    requires pool >= 0.0
    ensures Payout(pool, FullHouse) == Some(0.40 * pool)
  {
  }

  // ---------------------------------------------------------------------
  // Queries.

  /** How many tickets of game `gameId` have been sold. */
  function TicketsSold(ts: seq<TicketRecord>, gameId: nat): (k: nat)
    ensures k <= |ts|
  {
    if ts == [] then 0
    else TicketsSold(ts[..|ts| - 1], gameId) + (if ts[|ts| - 1].gameId == gameId then 1 else 0)
  }

  /** How many winnings game `gameId` has recorded for `pattern`. */
  function ClaimCount(ws: seq<Winning>, gameId: nat, pattern: string): (k: nat)
    ensures k <= |ws|
  {
    if ws == [] then 0
    else
      var w := ws[|ws| - 1];
      ClaimCount(ws[..|ws| - 1], gameId, pattern) + (if w.gameId == gameId && w.pattern == pattern then 1 else 0)
  }

  /** Whether ticket `ticketId` already has a winning for `pattern`. */
  predicate AlreadyWon(ws: seq<Winning>, ticketId: nat, pattern: string)
  {
    exists i :: 0 <= i < |ws| && ws[i].ticketId == ticketId && ws[i].pattern == pattern
  }

  /** The patterns ticket `ticketId` has won, in the order it won them. */
  function PatternsWon(ws: seq<Winning>, ticketId: nat): (ps: seq<string>)
    ensures forall p :: p in ps ==> AlreadyWon(ws, ticketId, p)
    ensures forall i :: 0 <= i < |ws| && ws[i].ticketId == ticketId ==> ws[i].pattern in ps
  {
    if ws == [] then []
    else
      var w := ws[|ws| - 1];
      var before := PatternsWon(ws[..|ws| - 1], ticketId);
      if w.ticketId == ticketId then before + [w.pattern] else before
  }

  // ---------------------------------------------------------------------
  // The invariant of the store.

  /** A game never cancelled, whose called numbers are distinct and in
      1..90, none called before it goes live. */
  ghost predicate GameOk(g: Game)
  {
    g.status != Cancelled && Distinct(g.numbersCalled) &&
    (forall k :: 0 <= k < |g.numbersCalled| ==> 1 <= g.numbersCalled[k] <= MaxNumber) &&
    (g.status == Scheduled ==> g.numbersCalled == [])
  }

  /** The pool holds the net contributions of the `sold` tickets, each sold
      at a valid rake with a non-negative contribution. */
  ghost predicate PoolOk(g: Game, sold: nat)
  {
    g.prizePool == sold as real * NetContribution(g.ticketPrice, g.rakePercentage) &&
    (sold > 0 ==> 0.0 <= g.rakePercentage <= 100.0 && NetContribution(g.ticketPrice, g.rakePercentage) >= 0.0)
  }

  ghost predicate GamesOk(gs: seq<Game>, ts: seq<TicketRecord>)
  {
    forall i :: 0 <= i < |gs| ==> GameOk(gs[i]) && PoolOk(gs[i], TicketsSold(ts, i + 1))
  }

  /** Every ticket belongs to a stored game and is a valid housie ticket. */
  ghost predicate TicketsOk(gs: seq<Game>, ts: seq<TicketRecord>)
  {
    forall t :: 0 <= t < |ts| ==> 1 <= ts[t].gameId <= |gs| && ValidTicket(ts[t].rows)
  }

  /** A winning on a ticket of the same user and game, backed by that game
      and the ticket's numbers. */
  ghost predicate WinningOk(gs: seq<Game>, ts: seq<TicketRecord>, w: Winning)
  {
    1 <= w.gameId <= |gs| && 1 <= w.ticketId <= |ts| &&
    ts[w.ticketId - 1].gameId == w.gameId && ts[w.ticketId - 1].userId == w.userId &&
    BackedBy(w, gs[w.gameId - 1], ts[w.ticketId - 1].rows)
  }

  /** A winning of a known pattern, in a game past scheduling, paid in the
      game's currency, and shown on the ticket `rows` by the numbers the
      game has called. The stored key is the upper-cased one, so the check
      is the one for upper-cased keys. */
  ghost predicate BackedBy(w: Winning, g: Game, rows: Grid)
  {
    Lookup(w.pattern).Some? &&
    g.status != Scheduled &&
    w.tokenCurrency == g.tokenCurrency &&
    CheckUpperKey(rows, g.numbersCalled, w.pattern)
  }

  /** The amount of a winning is its pattern's payout of the game's pool. */
  ghost predicate PaidOk(w: Winning, g: Game)
  {
    Lookup(w.pattern).Some? && Payout(g.prizePool, Lookup(w.pattern).value) == Some(w.amountWon)
  }

  ghost predicate WinningsPaid(gs: seq<Game>, ws: seq<Winning>)
  {
    forall k :: 0 <= k < |ws| && 1 <= ws[k].gameId <= |gs| ==> PaidOk(ws[k], gs[ws[k].gameId - 1])
  }

  ghost predicate WinningsOk(gs: seq<Game>, ts: seq<TicketRecord>, ws: seq<Winning>)
  {
    forall i :: 0 <= i < |ws| ==> WinningOk(gs, ts, ws[i])
  }

  /** No pattern of a game has more winners than its cap. */
  ghost predicate WithinCaps(ws: seq<Winning>)
  {
    forall i :: 0 <= i < |ws| && Lookup(ws[i].pattern).Some? ==>
      ClaimCount(ws, ws[i].gameId, ws[i].pattern) <= Lookup(ws[i].pattern).value.maxWinners
  }

  /** No ticket is awarded the same pattern twice. */
  ghost predicate OneClaimEach(ws: seq<Winning>)
  {
    forall i, j :: 0 <= i < j < |ws| ==> ws[i].ticketId != ws[j].ticketId || ws[i].pattern != ws[j].pattern
  }

  /** A ticket's `is_winner` says whether it has won anything and its
      `winning_pattern` lists what it won, comma-separated, in order. */
  ghost predicate TicketFlagsOk(ts: seq<TicketRecord>, ws: seq<Winning>)
  {
    forall t :: 0 <= t < |ts| ==>
      ts[t].isWinner == (PatternsWon(ws, t + 1) != []) &&
      ts[t].winningPattern == (if PatternsWon(ws, t + 1) == [] then None else Some(Join(PatternsWon(ws, t + 1))))
  }

  ghost predicate Consistent(gs: seq<Game>, ts: seq<TicketRecord>, ws: seq<Winning>)
  {
    GamesOk(gs, ts) && TicketsOk(gs, ts) && WinningsOk(gs, ts, ws) && WinningsPaid(gs, ws) &&
    WithinCaps(ws) && OneClaimEach(ws) && TicketFlagsOk(ts, ws)
  }

  // ---------------------------------------------------------------------
  // What the invariant gives.

  /** A game never has more than 90 called numbers. */
  lemma CalledAtMostNinety(g: Game)
    requires GameOk(g)
    ensures |g.numbersCalled| <= MaxNumber
  {
    DistinctInRange(g.numbersCalled, 1, MaxNumber);
  }

  /** A game with fewer than 90 numbers called has a number left to call;
      with 90 called, every number has been. */
  lemma NumberLeftToCall(g: Game)
    requires GameOk(g)
    ensures |g.numbersCalled| < MaxNumber <==> exists n :: 1 <= n <= MaxNumber && n !in g.numbersCalled
  {
    CalledAtMostNinety(g);
    if |g.numbersCalled| < MaxNumber {
      FreeValueExists(1, MaxNumber, g.numbersCalled);
    } else {
      forall n | 1 <= n <= MaxNumber ensures n in g.numbersCalled {
        NinetyCalledHoldsAll(g.numbersCalled, n);
      }
    }
  }

  /** Ninety distinct numbers in 1..90 include each of them. */
  lemma NinetyCalledHoldsAll(s: seq<int>, n: int)
    requires Distinct(s) && |s| == MaxNumber && forall k :: 0 <= k < |s| ==> 1 <= s[k] <= MaxNumber
    requires 1 <= n <= MaxNumber
    ensures n in s
  {
    if n !in s {
      // Close the gap at n: the values shift into 1..89 without colliding.
      var t := seq(|s|, k requires 0 <= k < |s| => if s[k] > n then s[k] - 1 else s[k]);
      forall i, j | 0 <= i < j < |t| ensures t[i] != t[j] {
        assert s[i] != s[j] && s[i] != n && s[j] != n;
      }
      DistinctInRange(t, 1, MaxNumber - 1);
      assert false;
    }
  }

  /** The pool of every game is never negative. */
  lemma PoolNonNegative(gs: seq<Game>, ts: seq<TicketRecord>, i: nat)
    requires GamesOk(gs, ts) && i < |gs|
    ensures gs[i].prizePool >= 0.0
  {
    var sold := TicketsSold(ts, i + 1);
    assert PoolOk(gs[i], sold);
  }

  /** A known pattern key is non-empty and holds no comma. */
  lemma KnownKeyShape(key: string)
    requires Lookup(key).Some?
    ensures CommaFree(key) && key != ""
  {
    LookupKnownKeys(key);
    assert CommaFree("EARLY_FIVE") && CommaFree("TOP_LINE") && CommaFree("MIDDLE_LINE");
    assert CommaFree("BOTTOM_LINE") && CommaFree("FULL_HOUSE");
  }
}
