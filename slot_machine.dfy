/**
 * The game session: a balance, three re-asking input loops, one round of play
 * (line count, an affordable bet, a spin, its evaluation and the net result) and
 * the session loop that adds each round's net result to the balance.
 */
module Game {
  import opened Wrappers
  import opened Paytable
  import opened Reels
  import opened Paylines
  import opened Console

  /** What one round announces: the stake, the grid, the winnings and the winning lines. */
  datatype Round = Round(lines: int, bet: int, columns: Grid, winnings: int, winningLines: seq<int>)
  {
    function Stake(): int { bet * lines }
    function Net(): int { winnings - Stake() }
    /** The balance a player holding `balance` has once the round is settled. */
    function Settle(balance: int): int { balance + Net() }
  }

  /** `r` is a round played on the spin drawn at `picks` by a player holding
      `balance`: the line count and the bet are within their limits, the stake
      is covered by the balance, and the winnings and winning lines are those of
      the grid. */
  predicate Settled(r: Round, picks: seq<seq<nat>>, balance: int)
  {
    && ValidPicks(picks)
    && 1 <= r.lines <= MAX_LINES
    && MIN_BET <= r.bet <= MAX_BET
    && r.Stake() <= balance
    && r.columns == SpinColumns(picks)
    && r.winningLines == WinningLines(r.columns, r.lines)
    && r.winnings == LinePayout(r.columns, r.winningLines, r.bet)
  }

  /** A settled round loses at most its stake and wins at most
      (MAX_MULTIPLIER - 1) times it, so the balance it is settled against
      never goes below 0. */
  lemma SettledRoundKeepsBalance(r: Round, picks: seq<seq<nat>>, balance: int)
    requires Settled(r, picks, balance)
    ensures 1 <= r.Stake()
    ensures -r.Stake() <= r.Net() <= (MAX_MULTIPLIER - 1) * r.Stake()
    ensures 0 <= balance + r.Net()
  {
    WinningsBounds(r.columns, r.lines, r.bet);
    MulMonotone(r.bet, 1, r.lines);
  }

  /** What a played round announces: winnings between 0 and MAX_MULTIPLIER
      times the stake, and 0 exactly when no line wins; the winning lines in
      increasing order; and, for each chosen row, its line listed exactly when
      that row shows one symbol across the columns. */
  lemma SettledRoundAnnounces(r: Round, picks: seq<seq<nat>>, balance: int)
    requires Settled(r, picks, balance)
    ensures 0 <= r.winnings <= MAX_MULTIPLIER * r.Stake()
    ensures r.winnings == 0 <==> r.winningLines == []
    ensures Increasing(r.winningLines)
    ensures forall row: nat :: row < r.lines ==> (row + 1 in r.winningLines <==> RowWins(r.columns, row))
  {
    WinningsBounds(r.columns, r.lines, r.bet);
    WinningLinesIncreasing(r.columns, r.lines);
    forall row: nat | row < r.lines
      ensures row + 1 in r.winningLines <==> RowWins(r.columns, row)
    {
      WinningLinesExact(r.columns, r.lines, row);
    }
  }

  /** The state of the bet loop of a round on `lines` lines with `balance`:
      the lines of `input` before `rest` have been read, the last bet read is
      `bet` (None once input ran out), and no bet read before it was affordable. */
  predicate BetsRead(lines: int, balance: int, input: seq<Line>, rest: seq<Line>, bet: Option<int>)
  {
    && Unread(input, rest)
    && match bet
       case None => rest == [] && Rejected(AffordableBet(lines, balance), input, |input|)
       case Some(_) =>
         var used := |input| - |rest|;
         && 0 < used
         && Accepts(BetAmount, input[used - 1])
         && input[used - 1].number == bet
         && Rejected(AffordableBet(lines, balance), input, used - 1)
  }

  /** Asking for a bet again after `k` lines, none of them an affordable bet,
      keeps the bet loop's state. */
  lemma AskBetAgain(lines: int, balance: int, input: seq<Line>, k: nat, rest: seq<Line>, bet: Option<int>)
    requires k <= |input| && Rejected(AffordableBet(lines, balance), input, k)
    requires Answered(BetAmount, input[k..], rest, bet)
    ensures BetsRead(lines, balance, input, rest, bet)
  {
    var tail := input[k..];
    var used := |tail| - |rest|;
    assert forall j :: 0 <= j < used ==> tail[j] == input[k + j];
    assert rest == input[|input| - |rest|..];
    forall j | 0 <= j < k + used - (if bet.Some? then 1 else 0)
      ensures !Accepts(AffordableBet(lines, balance), input[j])
    {
      if k <= j {
        assert !Accepts(BetAmount, tail[j - k]);
      }
    }
    if bet.Some? {
      assert input[k + used - 1] == tail[used - 1];
    }
  }

  /** When the bet loop stops, either input ran out or the last bet read is
      affordable: the loop has found the answer to "an affordable bet". */
  lemma StakeAgreed(lines: int, balance: int, input: seq<Line>, rest: seq<Line>, bet: Option<int>)
    requires BetsRead(lines, balance, input, rest, bet)
    requires bet.Some? ==> bet.value * lines <= balance
    ensures Answered(AffordableBet(lines, balance), input, rest, bet)
  {
  }

  /** A round settled on a spin is determined by its line count and bet. */
  lemma SettledDeterministic(r: Round, r': Round, picks: seq<seq<nat>>, balance: int)
    requires Settled(r, picks, balance) && Settled(r', picks, balance)
    requires r.lines == r'.lines && r.bet == r'.bet
    ensures r == r'
  {
  }

  /** The stake of a round is agreed on `input` by a player holding `balance`:
      the line count is answered with `lines`, then the affordable bet with
      `bet`, and `rest` is left unread. */
  ghost predicate StakeRead(input: seq<Line>, balance: int, lines: int, bet: int, rest: seq<Line>)
  {
    exists mid :: Answered(LineCount, input, mid, Some(lines))
                  && Answered(AffordableBet(lines, balance), mid, rest, Some(bet))
  }

  /** Input runs out before a stake is agreed on it: while asking for the line
      count, or while asking for an affordable bet after a valid line count. */
  ghost predicate NoStake(input: seq<Line>, balance: int)
  {
    || Answered(LineCount, input, [], None)
    || exists mid, l :: Answered(LineCount, input, mid, Some(l))
                        && Answered(AffordableBet(l, balance), mid, [], None)
  }

  /** What one round reads from `input` and plays, for a player holding
      `balance` and the spin drawn at `picks`: when a stake is agreed the round
      is settled on the spin with that stake; when input runs out first, no
      round is played and everything has been read. */
  ghost predicate SpinOutcome(input: seq<Line>, picks: seq<seq<nat>>, balance: int, round: Option<Round>, rest: seq<Line>)
  {
    && Unread(input, rest)
    && match round
       case Some(r) => Settled(r, picks, balance) && StakeRead(input, balance, r.lines, r.bet, rest)
       case None => rest == [] && NoStake(input, balance)
  }

  /** The stake agreed on an input, and what it leaves unread, are determined
      by the input and the balance. */
  lemma StakeReadDeterministic(input: seq<Line>, balance: int,
                               lines: int, bet: int, rest: seq<Line>,
                               lines': int, bet': int, rest': seq<Line>)
    requires StakeRead(input, balance, lines, bet, rest)
    requires StakeRead(input, balance, lines', bet', rest')
    ensures lines' == lines && bet' == bet && rest' == rest
  {
    var mid :| Answered(LineCount, input, mid, Some(lines))
               && Answered(AffordableBet(lines, balance), mid, rest, Some(bet));
    var mid' :| Answered(LineCount, input, mid', Some(lines'))
                && Answered(AffordableBet(lines', balance), mid', rest', Some(bet'));
    AnsweredIsDeterministic(LineCount, input, mid, Some(lines), mid', Some(lines'));
    AnsweredIsDeterministic(AffordableBet(lines, balance), mid, rest, Some(bet), rest', Some(bet'));
  }

  /** Input on which a stake is agreed does not run out first. */
  lemma StakeReadExcludesNoStake(input: seq<Line>, balance: int, lines: int, bet: int, rest: seq<Line>)
    requires StakeRead(input, balance, lines, bet, rest)
    ensures !NoStake(input, balance)
  {
    var mid :| Answered(LineCount, input, mid, Some(lines))
               && Answered(AffordableBet(lines, balance), mid, rest, Some(bet));
    if Answered(LineCount, input, [], None) {
      AnsweredIsDeterministic(LineCount, input, mid, Some(lines), [], None);
    } else {
      forall mid', l | Answered(LineCount, input, mid', Some(l))
        ensures !Answered(AffordableBet(l, balance), mid', [], None)
      {
        AnsweredIsDeterministic(LineCount, input, mid, Some(lines), mid', Some(l));
        if Answered(AffordableBet(l, balance), mid', [], None) {
          AnsweredIsDeterministic(AffordableBet(lines, balance), mid, rest, Some(bet), [], None);
        }
      }
    }
  }

  /** A round's outcome, and the input it leaves, are determined by the input,
      the spin and the balance. */
  lemma SpinOutcomeDeterministic(input: seq<Line>, picks: seq<seq<nat>>, balance: int,
                                 round: Option<Round>, rest: seq<Line>,
                                 round': Option<Round>, rest': seq<Line>)
    requires SpinOutcome(input, picks, balance, round, rest)
    requires SpinOutcome(input, picks, balance, round', rest')
    ensures round == round' && rest == rest'
  {
    match (round, round')
    case (Some(r), Some(r')) =>
      StakeReadDeterministic(input, balance, r.lines, r.bet, rest, r'.lines, r'.bet, rest');
      SettledDeterministic(r, r', picks, balance);
    case (Some(r), None) =>
      StakeReadExcludesNoStake(input, balance, r.lines, r.bet, rest);
    case (None, Some(r')) =>
      StakeReadExcludesNoStake(input, balance, r'.lines, r'.bet, rest');
    case (None, None) =>
  }

  /** The round settled on the spin drawn at `picks` for a stake of `bet` on
      `lines` lines. */
  function RoundOf(picks: seq<seq<nat>>, lines: int, bet: int): Round
    requires ValidPicks(picks) && lines <= ROWS
  {
    var columns := SpinColumns(picks);
    var ws := WinningLines(columns, lines);
    Round(lines, bet, columns, LinePayout(columns, ws, bet), ws)
  }

  /** One round as a reference function: the line count is the answer to the
      line prompt, the bet the answer to the affordable-bet prompt on what is
      left, and the round is settled on the spin at `picks`; when either
      prompt runs out of input, no round is played. */
  function PlayRound(input: seq<Line>, picks: seq<seq<nat>>, balance: int): (outcome: (Option<Round>, seq<Line>))
    requires ValidPicks(picks)
    ensures |outcome.1| <= |input|
  {
    var lines := Ask(LineCount, input);
    if lines.0.None? then (None, lines.1)
    else
      var bet := Ask(AffordableBet(lines.0.value, balance), lines.1);
      if bet.0.None? then (None, bet.1)
      else (Some(RoundOf(picks, lines.0.value, bet.0.value)), bet.1)
  }

  /** What the reference round plays is a round's outcome. */
  lemma PlayRoundOutcome(input: seq<Line>, picks: seq<seq<nat>>, balance: int)
    requires ValidPicks(picks)
    ensures SpinOutcome(input, picks, balance, PlayRound(input, picks, balance).0, PlayRound(input, picks, balance).1)
  {
    var (lines, mid) := Ask(LineCount, input);
    AskAnswers(LineCount, input);
    if lines.Some? {
      var (bet, rest) := Ask(AffordableBet(lines.value, balance), mid);
      AskAnswers(AffordableBet(lines.value, balance), mid);
      UnreadTransitive(input, mid, rest);
      assert Answered(LineCount, input, mid, lines) && Answered(AffordableBet(lines.value, balance), mid, rest, bet);
    }
  }

  /** The line count is asked for once per round, so a player whose balance is
      below the line count they chose can afford no bet at all (the bet and so
      the stake per line are at least 1): the bet prompt reads all the input
      that is left and no round is played. */
  lemma LineCountBeyondBalance(input: seq<Line>, picks: seq<seq<nat>>, balance: int)
    requires ValidPicks(picks)
    requires Ask(LineCount, input).0.Some? && balance < Ask(LineCount, input).0.value
    ensures PlayRound(input, picks, balance) == (None, [])
  {
    var (lines, mid) := Ask(LineCount, input);
    var (bet, rest) := Ask(AffordableBet(lines.value, balance), mid);
    AskAnswers(AffordableBet(lines.value, balance), mid);
    if bet.Some? {
      MulMonotone(lines.value, 1, bet.value);
    }
  }

  /** The rounds a session plays on `input`, starting from `balance`, the k-th
      on the spin drawn at `draws[k]`: play stops at a "q" or at the end of
      input; any other line starts a round, which reads what follows it. When
      the round is played, play goes on from the input it leaves, with its net
      result added to the balance; when input runs out before a stake is
      agreed, the session ends. */
  function Session(input: seq<Line>, draws: seq<seq<seq<nat>>>, balance: int): (rounds: seq<Round>)
    ensures |rounds| <= |input|
    decreases |input|
  {
    if input == [] || input[0].quit || draws == [] || !ValidPicks(draws[0]) then []
    else
      var outcome := PlayRound(input[1..], draws[0], balance);
      if outcome.0.None? then []
      else [outcome.0.value] + Session(outcome.1, draws[1..], outcome.0.value.Settle(balance))
  }

  /** A session that does not stop at its first line plays the round that
      line starts and then the session on what that round leaves; it ends
      there when no round is played. */
  lemma SessionStep(input: seq<Line>, draws: seq<seq<seq<nat>>>, balance: int,
                    round: Option<Round>, rest: seq<Line>)
    requires input != [] && !input[0].quit && draws != [] && ValidPicks(draws[0])
    requires (round, rest) == PlayRound(input[1..], draws[0], balance)
    ensures |rest| < |input|
    ensures round.None? ==> rest == [] && Session(input, draws, balance) == []
    ensures round.Some? ==>
      && Settled(round.value, draws[0], balance)
      && Session(input, draws, balance) == [round.value] + Session(rest, draws[1..], round.value.Settle(balance))
  {
    PlayRoundOutcome(input[1..], draws[0], balance);
  }

  /** The sum of the net results of `rounds`. */
  function TotalNet(rounds: seq<Round>): int
  {
    if rounds == [] then 0 else TotalNet(rounds[..|rounds| - 1]) + rounds[|rounds| - 1].Net()
  }

  /** A session that starts with `deposit` and has played `rounds`, the k-th
      on the spin drawn at `draws[k]`: each round is settled against the
      balance the rounds before it left. */
  predicate SessionHistory(deposit: int, rounds: seq<Round>, draws: seq<seq<seq<nat>>>)
    decreases |rounds|
  {
    if rounds == [] then 0 <= deposit
    else
      && |rounds| <= |draws|
      && SessionHistory(deposit, rounds[..|rounds| - 1], draws)
      && Settled(rounds[|rounds| - 1], draws[|rounds| - 1], deposit + TotalNet(rounds[..|rounds| - 1]))
  }

  /** Appending a round settled against the current balance extends the
      session, and its net result is added to the balance. */
  lemma RecordRound(deposit: int, rounds: seq<Round>, r: Round, draws: seq<seq<seq<nat>>>, balance: int)
    requires SessionHistory(deposit, rounds, draws) && balance == deposit + TotalNet(rounds)
    requires |rounds| < |draws| && Settled(r, draws[|rounds|], balance)
    ensures SessionHistory(deposit, rounds + [r], draws)
    ensures TotalNet(rounds + [r]) == TotalNet(rounds) + r.Net()
  {
    assert (rounds + [r])[..|rounds|] == rounds;
  }

  /** The i-th round of a session was played on `draws[i]` and settled
      against the balance left by the rounds before it. */
  lemma {:induction false} SessionRound(deposit: int, rounds: seq<Round>, draws: seq<seq<seq<nat>>>, i: nat)
    requires SessionHistory(deposit, rounds, draws) && i < |rounds|
    ensures i < |draws| && Settled(rounds[i], draws[i], deposit + TotalNet(rounds[..i]))
    decreases |rounds|
  {
    var n := |rounds| - 1;
    var before := rounds[..n];
    if i < n {
      SessionRound(deposit, before, draws, i);
      assert rounds[..i] == before[..i];
    }
  }

  /** The balance a session leaves is never negative. */
  lemma SessionBalance(deposit: int, rounds: seq<Round>, draws: seq<seq<seq<nat>>>)
    requires SessionHistory(deposit, rounds, draws)
    ensures 0 <= deposit + TotalNet(rounds)
  {
    if rounds != [] {
      var n := |rounds| - 1;
      SettledRoundKeepsBalance(rounds[n], draws[n], deposit + TotalNet(rounds[..n]));
    }
  }

  /** The bookkeeping of one more round: a round settled on the next unused
      draw against the current balance extends the session's history, the
      draws after it start one further on, and the balance it leaves is the
      deposit plus the net results so far. */
  lemma SessionRecord(start: int, rounds: seq<Round>, draws: seq<seq<seq<nat>>>, later: seq<seq<seq<nat>>>, balance: int, r: Round)
    requires |rounds| < |draws| && later == draws[|rounds|..]
    requires SessionHistory(start, rounds, draws) && balance == start + TotalNet(rounds)
    requires Settled(r, later[0], balance)
    ensures later[1..] == draws[|rounds + [r]|..]
    ensures SessionHistory(start, rounds + [r], draws)
    ensures r.Settle(balance) == start + TotalNet(rounds + [r])
  {
    RecordRound(start, rounds, r, draws, balance);
  }

  /** Moving a round from the front of the rounds still to come to the end of
      the rounds played keeps the whole session. */
  lemma Regroup(whole: seq<Round>, done: seq<Round>, r: Round, after: seq<Round>)
    requires whole == done + ([r] + after)
    ensures whole == (done + [r]) + after
  {
  }

  /** The rounds a session plays on what is left of the input, after `rounds`
      and from the balance they leave, continue its history: each is settled
      on its own draw against the balance before it. */
  lemma {:induction false} SessionExtends(start: int, rounds: seq<Round>, draws: seq<seq<seq<nat>>>,
                                          input: seq<Line>, later: seq<seq<seq<nat>>>, balance: int)
    requires |rounds| <= |draws| && later == draws[|rounds|..]
    requires SessionHistory(start, rounds, draws) && balance == start + TotalNet(rounds)
    ensures SessionHistory(start, rounds + Session(input, later, balance), draws)
    decreases |input|
  {
    if input == [] || input[0].quit || later == [] || !ValidPicks(later[0]) {
      assert Session(input, later, balance) == [];
      assert rounds + [] == rounds;
    } else {
      var (round, next) := PlayRound(input[1..], later[0], balance);
      SessionStep(input, later, balance, round, next);
      if round.None? {
        assert rounds + [] == rounds;
      } else {
        var r := round.value;
        SessionRecord(start, rounds, draws, later, balance, r);
        SessionExtends(start, rounds + [r], draws, next, later[1..], r.Settle(balance));
        Regroup(rounds + Session(input, later, balance), rounds, r, Session(next, later[1..], r.Settle(balance)));
      }
    }
  }

  /** Every round of a session is settled on its own draw against the balance
      the rounds before it left, and the balance a session leaves is never
      negative. */
  lemma SessionIsHistory(input: seq<Line>, draws: seq<seq<seq<nat>>>, balance: int)
    requires 0 <= balance
    ensures SessionHistory(balance, Session(input, draws, balance), draws)
    ensures 0 <= balance + TotalNet(Session(input, draws, balance))
  {
    SessionExtends(balance, [], draws, input, draws, balance);
    assert [] + Session(input, draws, balance) == Session(input, draws, balance);
    SessionBalance(balance, Session(input, draws, balance), draws);
  }

  class SlotMachine {
    var balance: int

    constructor ()
      ensures balance == 0
    {
      balance := 0;
    }

    /** Asks for a deposit until a positive amount is entered and makes it the
        balance (replacing, not adding to, what was there); lines that do not
        parse or are not positive change nothing. */
    method Deposit(input: seq<Line>) returns (amount: Option<int>, rest: seq<Line>)
      modifies this`balance
      ensures Answered(DepositAmount, input, rest, amount)
      ensures amount.Some? ==> 0 < amount.value && balance == amount.value
      ensures amount.None? ==> balance == old(balance)
    {
      rest := input;
      while rest != []
        invariant Unread(input, rest)
        invariant Rejected(DepositAmount, input, |input| - |rest|)
        invariant balance == old(balance)
      {
        var line := rest[0];
        rest := rest[1..];
        if line.number.Some? && line.number.value > 0 {
          balance := line.number.value;
          return line.number, rest;
        }
      }
      amount := None;
    }

    /** Asks for a bet until one between MIN_BET and MAX_BET is entered. */
    method GetBet(input: seq<Line>) returns (bet: Option<int>, rest: seq<Line>)
      ensures Answered(BetAmount, input, rest, bet)
      ensures bet.Some? ==> MIN_BET <= bet.value <= MAX_BET
    {
      rest := input;
      while rest != []
        invariant Unread(input, rest)
        invariant Rejected(BetAmount, input, |input| - |rest|)
      {
        var line := rest[0];
        rest := rest[1..];
        if line.number.Some? && MIN_BET <= line.number.value <= MAX_BET {
          return line.number, rest;
        }
      }
      bet := None;
    }

    /** Asks for a line count until one between 1 and MAX_LINES is entered. */
    method GetLines(input: seq<Line>) returns (lines: Option<int>, rest: seq<Line>)
      ensures Answered(LineCount, input, rest, lines)
      ensures lines.Some? ==> 1 <= lines.value <= MAX_LINES
    {
      rest := input;
      while rest != []
        invariant Unread(input, rest)
        invariant Rejected(LineCount, input, |input| - |rest|)
      {
        var line := rest[0];
        rest := rest[1..];
        if line.number.Some? && 1 <= line.number.value <= MAX_LINES {
          return line.number, rest;
        }
      }
      lines := None;
    }

    /** Evaluates the first `lines` rows of a grid for a bet: the winning lines
        and what they pay. */
    method CheckWinnings(columns: Grid, lines: int, bet: int) returns (winnings: int, winningLines: seq<int>)
      requires Readable(columns, lines)
      ensures winningLines == WinningLines(columns, lines)
      ensures winnings == LinePayout(columns, winningLines, bet)
    {
      winnings := 0;
      winningLines := [];
      var line := 0;
      while line < lines
        invariant 0 <= line <= (if lines < 0 then 0 else lines)
        invariant winningLines == WinningLines(columns, line)
        invariant winnings == LinePayout(columns, winningLines, bet)
      {
        NextRow(columns, lines, line, bet, winningLines, winnings);
        var symbol := columns[0][line];
        if forall c | 0 <= c < |columns| :: columns[c][line] == symbol {
          winnings := winnings + Multiplier(symbol) * bet;
          winningLines := winningLines + [line + 1];
        }
        line := line + 1;
      }
    }

    /** Asks for a bet until one is entered whose stake on `lines` lines is
        within the balance: a bet outside MIN_BET..MAX_BET is refused by the
        bet prompt, an unaffordable one by the check that follows it. */
    method GetAffordableBet(input: seq<Line>, lines: int) returns (bet: Option<int>, rest: seq<Line>)
      ensures Answered(AffordableBet(lines, balance), input, rest, bet)
      ensures bet.Some? ==> MIN_BET <= bet.value <= MAX_BET && bet.value * lines <= balance
    {
      bet, rest := GetBet(input);
      AskBetAgain(lines, balance, input, 0, rest, bet);
      while bet.Some? && bet.value * lines > balance
        invariant BetsRead(lines, balance, input, rest, bet)
        decreases |rest|, bet.Some?
      {
        // insufficient funds: ask for the bet again
        ghost var k := |input| - |rest|;
        assert rest == input[k..];
        assert !Accepts(AffordableBet(lines, balance), input[k - 1]);
        bet, rest := GetBet(rest);
        AskBetAgain(lines, balance, input, k, rest, bet);
      }
      StakeAgreed(lines, balance, input, rest, bet);
    }

    /** Plays one round on the spin drawn at `picks`: asks for the line count
        once, then for an affordable bet, evaluates the spin and reports the
        round (its net result is winnings minus stake). The round and the
        input left are those of PlayRound, which is the one outcome SpinOutcome
        allows: a round when a stake is agreed, none when input runs out first.
        A player whose balance is 0 can never get a round. */
    method Spin(input: seq<Line>, picks: seq<seq<nat>>) returns (round: Option<Round>, rest: seq<Line>)
      requires ValidPicks(picks)
      ensures (round, rest) == PlayRound(input, picks, balance)
      ensures SpinOutcome(input, picks, balance, round, rest)
      ensures round.Some? ==> 0 <= balance + round.value.Net()
      ensures balance <= 0 ==> round.None?
    {
      var lines, afterLines := GetLines(input);
      var askLines := Ask(LineCount, input);
      AskAnswers(LineCount, input);
      AnsweredIsDeterministic(LineCount, input, afterLines, lines, askLines.1, askLines.0);
      PlayRoundOutcome(input, picks, balance);
      if lines.None? {
        return None, afterLines;
      }
      var n := lines.value;
      var bet;
      bet, rest := GetAffordableBet(afterLines, n);
      var askBet := Ask(AffordableBet(n, balance), afterLines);
      AskAnswers(AffordableBet(n, balance), afterLines);
      AnsweredIsDeterministic(AffordableBet(n, balance), afterLines, rest, bet, askBet.1, askBet.0);
      if bet.None? {
        return None, rest;
      }
      var b := bet.value;
      var columns := SpinColumns(picks);
      var winnings, winningLines := CheckWinnings(columns, n, b);
      var r := Round(n, b, columns, winnings, winningLines);
      SettledRoundKeepsBalance(r, picks, balance);
      assert r == RoundOf(picks, n, b);
      round := Some(r);
    }

    /** The rounds of a session, on the lines left after the deposit: while
        the player does not answer "q", a round is played and its net result
        is added to the balance. It stops at "q" or when the input runs out.
        `draws[k]` holds the reel positions of the k-th spin; each round reads
        at least one line, so one draw per input line is enough. The rounds
        are those Session plays on the same input and draws; every round's
        stake is covered by the balance before it, and the balance never
        becomes negative. */
    method PlayRounds(input: seq<Line>, draws: seq<seq<seq<nat>>>) returns (rounds: seq<Round>)
      requires |input| <= |draws| && forall k :: 0 <= k < |draws| ==> ValidPicks(draws[k])
      requires 0 <= balance
      modifies this`balance
      ensures rounds == Session(input, draws, old(balance))
      ensures balance == old(balance) + TotalNet(rounds)
      ensures SessionHistory(old(balance), rounds, draws) && 0 <= balance
    {
      var start := balance;
      var rest := input;
      var later := draws;
      rounds := [];
      while rest != [] && !rest[0].quit
        invariant balance == start + TotalNet(rounds)
        invariant |rounds| + |rest| <= |input|
        invariant later == draws[|rounds|..]
        invariant forall k :: 0 <= k < |later| ==> ValidPicks(later[k])
        invariant SessionHistory(start, rounds, draws)
        invariant Session(input, draws, start) == rounds + Session(rest, later, balance)
        decreases |rest|
      {
        var round, next := Spin(rest[1..], later[0]);
        SessionStep(rest, later, balance, round, next);
        if round.Some? {
          var r := round.value;
          SessionRecord(start, rounds, draws, later, balance, r);
          Regroup(Session(input, draws, start), rounds, r, Session(next, later[1..], r.Settle(balance)));
          balance := r.Settle(balance);
          rounds := rounds + [r];
          later := later[1..];
        }
        rest := next;
      }
      SessionBalance(start, rounds, draws);
    }

    /** The session: a deposit, then its rounds. After a positive deposit the
        balance is the deposit plus the rounds' net results, every round was
        settled against the balance before it, and the balance is never
        negative; answering "q" right after the deposit plays no round and
        keeps the deposit. Without a deposit nothing is played. */
    method Play(input: seq<Line>, draws: seq<seq<seq<nat>>>) returns (deposited: Option<int>, rounds: seq<Round>)
      requires |input| <= |draws| && forall k :: 0 <= k < |draws| ==> ValidPicks(draws[k])
      modifies this`balance
      ensures deposited == Ask(DepositAmount, input).0
      ensures deposited.Some? ==> rounds == Session(Ask(DepositAmount, input).1, draws, deposited.value)
      ensures deposited.None? ==> balance == old(balance) && rounds == []
      ensures deposited.Some? ==> 0 < deposited.value && balance == deposited.value + TotalNet(rounds)
      ensures deposited.Some? ==> SessionHistory(deposited.value, rounds, draws) && 0 <= balance
      ensures forall rest: seq<Line> :: Answered(DepositAmount, input, rest, deposited) && rest != [] && rest[0].quit ==> rounds == []
    {
      var rest;
      deposited, rest := Deposit(input);
      AskAnswers(DepositAmount, input);
      AnsweredIsDeterministic(DepositAmount, input, rest, deposited, Ask(DepositAmount, input).1, Ask(DepositAmount, input).0);
      rounds := [];
      if deposited.None? {
        return;
      }
      forall rest': seq<Line> | Answered(DepositAmount, input, rest', deposited)
        ensures rest' == rest
      {
        AnsweredIsDeterministic(DepositAmount, input, rest, deposited, rest', deposited);
      }
      rounds := PlayRounds(rest, draws);
    }
  }
}
