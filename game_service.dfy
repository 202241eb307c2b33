// The game service (gameService.ts): the `games`, `tickets` and `winnings`
// tables held by one object, each public operation one transaction that
// either commits in full or leaves the tables as they were.

module GameService {
  import opened Seqs
  import opened TicketLayout
  import opened WinningPatterns
  import opened PatternMatcher
  import opened PatternList
  import opened TicketService
  import opened GameState
  import opened GameSteps

  /** The errors the service throws, with the status it reports. */
  datatype GameError =
    | GameNotFound
    | CannotStart(status: GameStatus)
    | CannotFinish(status: GameStatus)
    | NotLive(status: GameStatus)
    | NotScheduled(status: GameStatus)
    | NoUniqueNumber
    | InvalidRake
    | NegativeNetContribution
    | TicketNotFound

  /** A returned value, or a thrown error. */
  datatype Outcome<T> = Ok(value: T) | Err(error: GameError)

  /** What `callNextNumber` returns: the game, and the number called, if any. */
  datatype Called = Called(game: Game, calledNumber: Option<int>)

  /** A bought ticket and its id. */
  datatype Purchase = Purchase(ticketId: nat, ticket: TicketRecord)

  /** Why a well-formed claim is turned down (`success: false, error: false`). */
  datatype Rejection = PatternNotMet | CapReached | AlreadyClaimed

  /** The answer to a win claim: a win, a rejection, or an error
      (`success: false, error: true`). */
  datatype ClaimResult =
    | Won(pattern: string, prizeAmount: real)
    | Rejected(reason: Rejection)
    | Failed(error: GameError)

  const DefaultCurrency := "DEGEN"
  const DefaultRake := 10.0
  /** Draws allowed before `callNextNumber` gives up. */
  const MaxAttempts := 200

  /** Row `id` of a table with serial keys starting at 1. */
  predicate Found(id: int, count: nat)
  {
    1 <= id <= count
  }

  class GameStore {
    var games: seq<Game>
    var tickets: seq<TicketRecord>
    var winnings: seq<Winning>

    ghost predicate Valid()
      reads this
    {
      Consistent(games, tickets, winnings)
    }

    constructor()
      ensures Valid()
      ensures games == [] && tickets == [] && winnings == []
    {
      games, tickets, winnings := [], [], [];
    }

    /** `createGame`: a scheduled game with an empty pool and no numbers
        called, in the given currency and at the given rake, or at DEGEN
        and 10 per cent when they are not given. */
    method CreateGame(ticketPrice: real, tokenCurrency: Option<string>, rakePercentage: Option<real>)
      returns (id: nat, game: Game)
      requires Valid()
      modifies this
      ensures Valid()
      ensures game.status == Scheduled && game.prizePool == 0.0 && game.numbersCalled == []
      ensures game.ticketPrice == ticketPrice
      ensures game.tokenCurrency == (if tokenCurrency.Some? then tokenCurrency.value else DefaultCurrency)
      ensures game.rakePercentage == (if rakePercentage.Some? then rakePercentage.value else DefaultRake)
      ensures id == |games| && games == old(games) + [game]
      ensures tickets == old(tickets) && winnings == old(winnings)
      ensures StatusesForward(old(games), games)
    {
      var currency := if tokenCurrency.Some? then tokenCurrency.value else DefaultCurrency;
      var rake := if rakePercentage.Some? then rakePercentage.value else DefaultRake;
      game := Game(Scheduled, ticketPrice, currency, rake, 0.0, []);
      CreateKeepsConsistent(games, tickets, winnings, game);
      games := games + [game];
      id := |games|;
    }

    /** `startGame`: a scheduled game goes live; any other game is an error
        and nothing changes. */
    method StartGame(gameId: int) returns (r: Outcome<Game>)
      requires Valid()
      modifies this
      ensures Valid()
      ensures r.Ok? <==> Found(gameId, |old(games)|) && old(games)[gameId - 1].status == Scheduled
      ensures r.Ok? ==>
        games == old(games)[gameId - 1 := old(games)[gameId - 1].(status := Live)] && r.value == games[gameId - 1]
      ensures r.Err? ==> games == old(games)
      ensures r == Err(GameNotFound) <==> !Found(gameId, |old(games)|)
      ensures r.Err? && Found(gameId, |old(games)|) ==> r.error == CannotStart(old(games)[gameId - 1].status)
      ensures tickets == old(tickets) && winnings == old(winnings)
      ensures StatusesForward(old(games), games)
    {
      if !Found(gameId, |games|) {
        return Err(GameNotFound);
      }
      var i := gameId - 1;
      if games[i].status != Scheduled {
        return Err(CannotStart(games[i].status));
      }
      StartKeepsConsistent(games, tickets, winnings, i);
      games := games[i := games[i].(status := Live)];
      r := Ok(games[i]);
    }

    /** `finishGame`: a live game is finished; a finished game is returned
        as it is; any other game is an error. */
    method FinishGame(gameId: int) returns (r: Outcome<Game>)
      requires Valid()
      modifies this
      ensures Valid()
      ensures r.Ok? <==>
        Found(gameId, |old(games)|) && old(games)[gameId - 1].status in {Live, Finished}
      ensures r.Ok? ==>
        games == old(games)[gameId - 1 := old(games)[gameId - 1].(status := Finished)] &&
        r.value == games[gameId - 1]
      ensures r.Err? ==> games == old(games)
      ensures r == Err(GameNotFound) <==> !Found(gameId, |old(games)|)
      ensures r.Err? && Found(gameId, |old(games)|) ==> r.error == CannotFinish(old(games)[gameId - 1].status)
      ensures tickets == old(tickets) && winnings == old(winnings)
      ensures StatusesForward(old(games), games)
    {
      if !Found(gameId, |games|) {
        return Err(GameNotFound);
      }
      var i := gameId - 1;
      if games[i].status == Live {
        FinishKeepsConsistent(games, tickets, winnings, i);
        games := games[i := games[i].(status := Finished)];
        r := Ok(games[i]);
      } else if games[i].status == Finished {
        assert games[i := games[i].(status := Finished)] == games;
        r := Ok(games[i]);
      } else {
        r := Err(CannotFinish(games[i].status));
      }
    }

    /** `callNextNumber`: in a live game with numbers left, draws numbers in
        1..90 until one not yet called turns up, giving up after 200
        draws, and calls it; with all 90 called it calls nothing. */
    method CallNextNumber(gameId: int) returns (r: Outcome<Called>)
      requires Valid()
      modifies this
      ensures Valid()
      ensures r == Err(GameNotFound) <==> !Found(gameId, |old(games)|)
      ensures Found(gameId, |old(games)|) && old(games)[gameId - 1].status != Live ==>
        r == Err(NotLive(old(games)[gameId - 1].status))
      ensures r.Ok? ==> Found(gameId, |old(games)|) && old(games)[gameId - 1].status == Live
      ensures r.Ok? && r.value.calledNumber.None? <==>
        r.Ok? && |old(games)[gameId - 1].numbersCalled| >= MaxNumber
      ensures (Found(gameId, |old(games)|) && old(games)[gameId - 1].status == Live &&
               |old(games)[gameId - 1].numbersCalled| >= MaxNumber) ==>
        r == Ok(Called(old(games)[gameId - 1], None))
      ensures r.Err? && Found(gameId, |old(games)|) && old(games)[gameId - 1].status == Live ==>
        r == Err(NoUniqueNumber)
      ensures r.Ok? && r.value.calledNumber.Some? ==>
        var n := r.value.calledNumber.value;
        var g := old(games)[gameId - 1];
        1 <= n <= MaxNumber && n !in g.numbersCalled &&
        games == old(games)[gameId - 1 := g.(numbersCalled := g.numbersCalled + [n])]
      ensures |games| == |old(games)|
      ensures r.Ok? ==> r.value.game == games[gameId - 1]
      ensures r.Err? || r.value.calledNumber.None? ==> games == old(games)
      ensures tickets == old(tickets) && winnings == old(winnings)
      ensures StatusesForward(old(games), games)
    {
      if !Found(gameId, |games|) {
        return Err(GameNotFound);
      }
      var i := gameId - 1;
      var game := games[i];
      if game.status != Live {
        return Err(NotLive(game.status));
      }
      var currentNumbersCalled := game.numbersCalled;
      if |currentNumbersCalled| >= MaxNumber {
        return Ok(Called(game, None));
      }
      var newNumber := 0;
      var attempts := 0;
      while attempts == 0 || newNumber in currentNumbersCalled
        invariant 0 <= attempts <= MaxAttempts
        invariant attempts > 0 ==> 1 <= newNumber <= MaxNumber
        decreases MaxAttempts - attempts
      {
        newNumber :| 1 <= newNumber <= MaxNumber;
        attempts := attempts + 1;
        if attempts > MaxAttempts {
          return Err(NoUniqueNumber);
        }
      }
      CallKeepsConsistent(games, tickets, winnings, i, newNumber);
      games := games[i := game.(numbersCalled := currentNumbersCalled + [newNumber])];
      r := Ok(Called(games[i], Some(newNumber)));
    }

    /** `buyTicketForGame`: for a scheduled game at a rake in 0..100 whose
        ticket adds a non-negative amount to the pool, stores a freshly
        generated ticket and adds the price less the rake to the pool;
        otherwise an error and, after the rollback, nothing changes. */
    method BuyTicketForGame(gameId: int, userId: nat) returns (r: Outcome<Purchase>)
      requires Valid()
      modifies this
      ensures Valid()
      ensures r.Ok? <==>
        Found(gameId, |old(games)|) && old(games)[gameId - 1].status == Scheduled &&
        0.0 <= old(games)[gameId - 1].rakePercentage <= 100.0 &&
        NetContribution(old(games)[gameId - 1].ticketPrice, old(games)[gameId - 1].rakePercentage) >= 0.0
      ensures r == Err(GameNotFound) <==> !Found(gameId, |old(games)|)
      ensures Found(gameId, |old(games)|) && old(games)[gameId - 1].status != Scheduled ==>
        r == Err(NotScheduled(old(games)[gameId - 1].status))
      ensures (Found(gameId, |old(games)|) && old(games)[gameId - 1].status == Scheduled &&
               !(0.0 <= old(games)[gameId - 1].rakePercentage <= 100.0)) ==>
        r == Err(InvalidRake)
      ensures (Found(gameId, |old(games)|) && old(games)[gameId - 1].status == Scheduled &&
               0.0 <= old(games)[gameId - 1].rakePercentage <= 100.0 &&
               NetContribution(old(games)[gameId - 1].ticketPrice, old(games)[gameId - 1].rakePercentage) < 0.0) ==>
        r == Err(NegativeNetContribution)
      ensures r.Ok? ==>
        var g := old(games)[gameId - 1];
        var t := r.value.ticket;
        t.userId == userId && t.gameId == gameId && ValidTicket(t.rows) &&
        !t.isWinner && t.winningPattern.None? &&
        r.value.ticketId == |tickets| && tickets == old(tickets) + [t] &&
        games == old(games)[gameId - 1 := Bought(g)]
      ensures r.Err? ==> games == old(games) && tickets == old(tickets)
      ensures winnings == old(winnings)
      ensures StatusesForward(old(games), games)
    {
      if !Found(gameId, |games|) {
        return Err(GameNotFound);
      }
      var i := gameId - 1;
      var game := games[i];
      if game.status != Scheduled {
        return Err(NotScheduled(game.status));
      }
      var housieTicketData := GenerateTicketAsWritten();
      var ticket := TicketRecord(userId, gameId, housieTicketData, false, None);
      if game.rakePercentage < 0.0 || game.rakePercentage > 100.0 {
        return Err(InvalidRake);
      }
      var netContribution := NetContribution(game.ticketPrice, game.rakePercentage);
      if netContribution < 0.0 {
        return Err(NegativeNetContribution);
      }
      var gs, ts := games, tickets;
      BuyKeepsConsistent(gs, ts, winnings, i, ticket);
      var gs', ts' := gs[i := Bought(gs[i])], ts + [ticket];
      assert Consistent(gs', ts', winnings);
      games, tickets := gs', ts';
      r := Ok(Purchase(|tickets|, ticket));
    }

    /** `processWinClaim`: a claim of `patternKey` (in any case) by `userId`
        on ticket `ticketId` of live game `gameId` wins when the ticket shows
        the pattern, the pattern's winners are below its cap and the ticket
        has not won it before; the win is recorded at the pattern's share of
        the pool and listed on the ticket. Anything else changes nothing. */
    method ProcessWinClaim(gameId: int, userId: nat, ticketId: int, patternKey: string) returns (r: ClaimResult)
      requires Valid()
      modifies this
      ensures Valid()
      ensures r == Failed(GameNotFound) <==> !Found(gameId, |old(games)|)
      ensures Found(gameId, |old(games)|) && old(games)[gameId - 1].status != Live ==>
        r == Failed(NotLive(old(games)[gameId - 1].status))
      ensures r.Failed? <==>
        !Found(gameId, |old(games)|) || old(games)[gameId - 1].status != Live ||
        !Found(ticketId, |old(tickets)|) ||
        old(tickets)[ticketId - 1].userId != userId || old(tickets)[ticketId - 1].gameId != gameId
      ensures !r.Failed? ==>
        var g := old(games)[gameId - 1];
        var t := old(tickets)[ticketId - 1];
        var key := ToUpper(patternKey);
        (r == Rejected(PatternNotMet) <==> !CheckPattern(t.rows, g.numbersCalled, patternKey)) &&
        (r.Won? <==>
          CheckPattern(t.rows, g.numbersCalled, patternKey) && Lookup(key).Some? &&
          ClaimCount(old(winnings), gameId, key) < Lookup(key).value.maxWinners &&
          !AlreadyWon(old(winnings), ticketId, key))
      ensures !r.Failed? ==>
        var g := old(games)[gameId - 1];
        var t := old(tickets)[ticketId - 1];
        var key := ToUpper(patternKey);
        var capped := Lookup(key).Some? && Lookup(key).value.maxWinners > 0 &&
                      ClaimCount(old(winnings), gameId, key) >= Lookup(key).value.maxWinners;
        (CheckPattern(t.rows, g.numbersCalled, patternKey) && capped ==> r == Rejected(CapReached)) &&
        (CheckPattern(t.rows, g.numbersCalled, patternKey) && !capped && AlreadyWon(old(winnings), ticketId, key) ==>
          r == Rejected(AlreadyClaimed))
      ensures r.Won? ==>
        var g := old(games)[gameId - 1];
        var key := ToUpper(patternKey);
        r.pattern == key && Lookup(key).Some? &&
        Payout(g.prizePool, Lookup(key).value) == Some(r.prizeAmount) &&
        winnings == old(winnings) + [Winning(userId, gameId, ticketId, r.prizeAmount, g.tokenCurrency, key, Pending)] &&
        tickets == old(tickets)[ticketId - 1 := ClaimedTicket(old(tickets)[ticketId - 1], key)]
      ensures !r.Won? ==> tickets == old(tickets) && winnings == old(winnings)
      ensures games == old(games)
    {
      var upperPatternKey := ToUpper(patternKey);
      if !Found(gameId, |games|) {
        return Failed(GameNotFound);
      }
      var dbGame := games[gameId - 1];
      if dbGame.status != Live {
        return Failed(NotLive(dbGame.status));
      }
      if !Found(ticketId, |tickets|) || tickets[ticketId - 1].userId != userId || tickets[ticketId - 1].gameId != gameId {
        return Failed(TicketNotFound);
      }
      var ticket := tickets[ticketId - 1];
      ToUpperIdempotent(patternKey);
      var met := InternalCheckPattern(ticket.rows, dbGame.numbersCalled, upperPatternKey);
      CheckPatternIgnoresCase(ticket.rows, dbGame.numbersCalled, patternKey);
      if !met {
        return Rejected(PatternNotMet);
      }
      CheckPatternImpliesKnown(ticket.rows, dbGame.numbersCalled, upperPatternKey);
      var patternConfig := Lookup(upperPatternKey).value;
      TableRowsSensible(patternConfig);
      var claimCount := ClaimCount(winnings, gameId, upperPatternKey);
      if patternConfig.maxWinners > 0 && claimCount >= patternConfig.maxWinners {
        return Rejected(CapReached);
      }
      if AlreadyWon(winnings, ticketId, upperPatternKey) {
        return Rejected(AlreadyClaimed);
      }
      assert CheckUpperKey(ticket.rows, dbGame.numbersCalled, upperPatternKey);
      var actualPrizeForThisWinner := RecordWin(gameId, userId, ticketId, upperPatternKey);
      r := Won(upperPatternKey, actualPrizeForThisWinner);
    }

    /** The committing half of `processWinClaim`: inserts the winning at
        the pattern's share of the pool and marks the ticket as a winner
        listing the pattern. */
    method RecordWin(gameId: nat, userId: nat, ticketId: nat, key: string) returns (amount: real)
      requires Valid() && ClaimAccepted(games, tickets, winnings, gameId, userId, ticketId, key)
      modifies this
      ensures Valid()
      ensures games == old(games)
      ensures Payout(games[gameId - 1].prizePool, Lookup(key).value) == Some(amount)
      ensures winnings == old(winnings) + [Winning(userId, gameId, ticketId, amount, games[gameId - 1].tokenCurrency, key, Pending)]
      ensures tickets == old(tickets)[ticketId - 1 := ClaimedTicket(old(tickets)[ticketId - 1], key)]
    {
      var gs, ts, ws := games, tickets, winnings;
      ClaimCommits(gs, ts, ws, gameId, userId, ticketId, key);
      amount := Payout(gs[gameId - 1].prizePool, Lookup(key).value).value;
      var ts' := ts[ticketId - 1 := ClaimedTicket(ts[ticketId - 1], key)];
      var ws' := ws + [Winning(userId, gameId, ticketId, amount, gs[gameId - 1].tokenCurrency, key, Pending)];
      assert Consistent(gs, ts', ws');
      winnings, tickets := ws', ts';
    }
  }
}
