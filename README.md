# Slot machine, modelled in Dafny

The repository is a console slot machine made of a single class, `SlotMachine`
(`deposit.py`). A player deposits money, then plays rounds until they answer
"q". In each round they pick how many lines (rows) to bet on, from 1 to 3, and a
bet per line, from 1 to 100. They are asked for the bet again until the stake
(bet × lines) fits their balance. The machine draws three columns of three
symbols. Each column is sampled without replacement from a weighted pool with 2
A, 4 B, 6 C and 8 D. A chosen row wins when every column shows the same symbol
there, and it pays that symbol's multiplier (A 5, B 4, C 3, D 2) times the bet.
The round's net result, winnings minus stake, is added to the balance.

The model has six modules:

- `Wrappers`: the `Option` type.
- `Paytable`: the constants, the symbols, the frequency and multiplier tables, and
  the reel pool built from the frequency table. Lemmas give the pool's exact
  contents and size.
- `Reels`: one spin. The caller supplies the pool positions that the source's
  sampler would draw. The lemmas prove that each column is a draw without
  replacement from the pool, so no column shows a symbol more often than the pool
  holds it.
- `Paylines`: reference functions for the winning lines and their payout, with
  lemmas:
  - the winning lines are exactly the matching rows, in increasing order;
  - only the chosen rows are read;
  - the payout lies between 0 and 5 × stake, and is 0 exactly when no line wins.
- `Console`: the player's input. Each typed line is modelled by what the program
  makes of it: the integer it parses to (or none), and whether it is "q".
  `Answered` is the relational meaning of "ask until an acceptable answer comes".
  It is proved deterministic, and the function `Ask` computes it.
- `Game`: the class `SlotMachine` with its mutable `balance`. The source's input
  loops, `check_winnings`, `spin` and `main` are methods, and so are the two
  loops that keep their own state (the bet loop of `spin`, the session loop of
  `main`). Where the source loops, the method loops too. `get_slot_machine_spin`
  only computes, so it is the function `Reels.SpinColumns`; `print_slot_machine`
  only prints and has no member. Each method is proved against a reference:
  - `Answered` for the prompts;
  - `WinningLines` and `LinePayout` for `CheckWinnings`;
  - the function `PlayRound` for `Spin`;
  - the function `Session` for `PlayRounds` and `Play`.

  `PlayRound` is proved to meet `SpinOutcome`, which states what a round means:
  a round settled on the drawn grid with the first valid line count and the first
  affordable bet after it, or no round when input runs out first. `SpinOutcome`
  allows only one outcome. `Session` plays one round per answer to the spin
  prompt that is not "q" (the lines the round itself reads for the line count
  and the bet start no round), from the balance the rounds before it left, and
  stops at a "q" answer or when input runs out. Every session from a
  non-negative balance is proved to be a `SessionHistory`: each round is settled
  against the balance before it.

  `GetAffordableBet` is the bet loop inside `spin` (deposit.py:90-96) and
  `PlayRounds` is the loop inside `main` (deposit.py:112-116). Each is written as
  a method of its own, which keeps every proof small.

  The lemmas show three facts:
  - every round's stake was covered by the balance before it;
  - the balance is the deposit plus the rounds' net results;
  - the balance never becomes negative.

`Spin`'s contract also records a consequence of the source's bet loop. The line
count is asked for only once per round, and the bet is at least 1, so no stake is
affordable when the balance is below the chosen line count: a balance of 2 with
3 lines, or a player who has lost everything. Such a player is asked for a bet
forever. In the model, all remaining input is read and no round is played
(`LineCountBeyondBalance`).

## Model

| member | source | states |
|---|---|---|
| Paytable.Multiplier | deposit.py:18-23 | every symbol pays between 2 and 5 times the bet per line, and only A pays the top multiplier 5 |
| Paytable.Frequency | deposit.py:12-17 | defines the table of weights: A 2, B 4, C 6, D 8 |
| Paytable.BuildPool | deposit.py:67 | defines the expansion of a list of symbols, each repeated by its weight, in order |
| Paytable.Pool | deposit.py:67 | defines the reel pool as the expansion of the symbols in the table's order |
| Paytable.BuildPoolCount | deposit.py:67 | expanding a list of distinct symbols by their weights yields each listed symbol exactly its weight times and no other symbol |
| Paytable.SymbolsListed | deposit.py:12-17 | the frequency table lists every symbol, each exactly once |
| Paytable.PoolComposition | deposit.py:12-17 | the reel pool holds A 2 times, B 4, C 6 and D 8 times |
| Paytable.PoolSize | deposit.py:67 | the reel pool has 20 entries |
| Reels.ValidPicks | deposit.py:68 | defines what the sampler may return for one spin: COLS columns, each ROWS distinct positions of the full pool |
| Reels.Sample | deposit.py:68 | defines one column as the pool entries at the drawn positions, in the order drawn |
| Reels.SampleWithinPool | deposit.py:68 | sampling distinct positions of a pool gives a sub-multiset of the pool (drawing without replacement) |
| Reels.SpinColumns | deposit.py:65-69 | a spin is COLS columns of ROWS symbols |
| Reels.SpinDrawsFromPool | deposit.py:68 | each column of a spin is a sub-multiset of the full pool (a draw without replacement) |
| Reels.ColumnRespectsFrequency | deposit.py:65-69 | no column shows a symbol more often than its weight; in particular no column is all A |
| Paylines.RowWins | deposit.py:81-82 | defines a winning row: every column shows column 0's symbol on it |
| Paylines.LinePayout | deposit.py:78-83 | defines the winnings as the sum over the listed lines of the multiplier of column 0's symbol times the bet |
| Paylines.WinningLines | deposit.py:80-84 | the winning line numbers lie in 1..lines, there are at most `lines` of them, and each names a row of the grid |
| Paylines.WinningLinesIncreasing | deposit.py:80-84 | winning lines are listed in strictly increasing order |
| Paylines.WinningLinesExact | deposit.py:80-84 | for each of the first `lines` rows, its line number is listed if and only if every column shows column 0's symbol on that row |
| Paylines.LinePayoutReadsColumnZero | deposit.py:81-83 | a line's payout depends only on the symbol column 0 shows on it |
| Paylines.OnlyChosenLinesCount | deposit.py:80-82 | grids that agree on the first `lines` rows have the same winning lines |
| Paylines.OnlyChosenLinesPay | deposit.py:80-84 | grids that agree on the first `lines` rows have the same winnings |
| Paylines.LinePayoutBounds | deposit.py:83 | for a non-negative bet the payout of a set of lines is between 0 and 5 × bet × their count; for a positive bet it is 0 exactly when no line is listed |
| Paylines.WinningsBounds | deposit.py:76-85 | a round's winnings are between 0 and 5 × the stake bet × lines, and 0 exactly when no line wins |
| Paylines.TopRowOfAsWins | deposit.py:80-84 | every full 3×3 grid whose top row is all A wins line 1, and only line 1, when one line is played |
| Paylines.TopRowOfAsPays | deposit.py:83 | on every such grid that line pays 5 times the bet |
| Paylines.NoMatchingRow | deposit.py:76-85 | every grid in which none of the first `lines` rows shows one symbol across the columns has no winning line and winnings 0 |
| Console.Accepts | deposit.py:32-93 | defines the acceptance tests: a deposit above 0 (line 33), a bet in MIN_BET..MAX_BET (line 46), a line count in 1..MAX_LINES (line 58), and for the bet of a round also a stake within the balance (lines 92-93); a line that does not parse is refused |
| Console.Answered | deposit.py:30-63 | defines "ask until accepted": the answer is the number on the first accepted line, every earlier line is refused, the lines up to it are read; with no accepted line all input is read and there is no answer |
| Console.AnsweredIsDeterministic | deposit.py:30-96 | for every prompt (deposit, bet, line count, and the affordable bet of lines 90-96), the answer a prompt loop gets, and the input it leaves unread, are determined by the input |
| Console.Ask | deposit.py:30-63 | asking a prompt repeatedly leaves no more input than it had, and an answer it gets is one the prompt accepts |
| Console.AskAnswers | deposit.py:30-63 | what Ask returns is the answer to the prompt and the input left unread, in the sense of Answered |
| Game.Round.Stake | deposit.py:92 | defines the stake `total_bet` as bet × lines |
| Game.Round.Net | deposit.py:107 | defines a round's net result as winnings minus stake |
| Game.Round.Settle | deposit.py:116 | defines the balance after a round as the balance plus its net result |
| Game.SettledRoundKeepsBalance | deposit.py:87-107 | a settled round has a stake of at least 1, loses at most its stake and wins at most 4 times it, so the balance after it is not negative |
| Game.SettledDeterministic | deposit.py:99-107 | two rounds settled on the same draw with the same line count and bet are the same round |
| Game.StakeReadDeterministic | deposit.py:89-96 | the line count, the bet and the input left by agreeing a stake are determined by the input |
| Game.StakeReadExcludesNoStake | deposit.py:89-96 | input on which a stake is agreed does not also run out before one is agreed |
| Game.SpinOutcomeDeterministic | deposit.py:87-107 | a round's outcome (the round or none, and the input left) is determined by the input, the balance and the draw |
| Game.SettledRoundAnnounces | deposit.py:99-107 | a played round's winnings are between 0 and 5 × its stake and are 0 exactly when no line wins; its winning lines are in increasing order; a chosen row's line is listed exactly when every column shows one symbol on it |
| Game.LineCountBeyondBalance | deposit.py:89-96 | when the balance is below the line count answered, no bet is affordable: the rest of the input is read and no round is played |
| Game.PlayRound | deposit.py:87-107 | one round leaves no more input than it had |
| Game.PlayRoundOutcome | deposit.py:87-107 | PlayRound's outcome meets SpinOutcome: a round settled on the grid with the first valid line count and the first affordable bet after it, or no round with all input read when input runs out first |
| Game.Session | deposit.py:112-116 | a session plays no more rounds than it has input lines |
| Game.SessionStep | deposit.py:112-116 | a first line other than "q" starts a round that reads the lines after it; when played, it is settled on the first draw against the balance, and the session goes on from the input it leaves with its net result added; otherwise the session ends with all input read |
| Game.RecordRound | deposit.py:116 | adding a round settled against the current balance extends the session and adds its net result to the balance |
| Game.SessionRound | deposit.py:109-116 | the i-th round of a session was played on the i-th draw and settled against the balance the rounds before it left |
| Game.SessionBalance | deposit.py:109-116 | the balance a session leaves is never negative |
| Game.SessionRecord | deposit.py:116 | a round settled on the next unused draw against the current balance extends the history, and the balance it leaves is the deposit plus all the net results |
| Game.SessionExtends | deposit.py:112-116 | the rounds a session plays after some settled rounds, from the balance they left, extend that history |
| Game.SessionIsHistory | deposit.py:109-116 | every round of a session is settled on its own draw against the balance before it, and the balance it leaves is never negative |
| Game.SlotMachine.constructor | deposit.py:25-26 | a new machine has balance 0 |
| Game.SlotMachine.Deposit | deposit.py:28-39 | reads lines until the first positive integer, which replaces the balance; unparsable or non-positive lines are skipped and change nothing; without such a line, everything is read and the balance is unchanged |
| Game.SlotMachine.GetBet | deposit.py:41-51 | reads lines until the first integer in MIN_BET..MAX_BET and returns it, skipping all earlier lines |
| Game.SlotMachine.GetLines | deposit.py:53-63 | reads lines until the first integer in 1..MAX_LINES and returns it, skipping all earlier lines |
| Game.SlotMachine.CheckWinnings | deposit.py:76-85 | the loop's winning lines and winnings are exactly WinningLines and LinePayout of the first `lines` rows |
| Game.SlotMachine.GetAffordableBet | deposit.py:90-96 | reads bets until the first one in MIN_BET..MAX_BET whose stake on `lines` lines is within the balance; every earlier line is refused |
| Game.SlotMachine.Spin | deposit.py:87-107 | the round and the input left are those of PlayRound, so they meet SpinOutcome: a round with the first valid line count and the first affordable bet after it, settled on the drawn grid, or no round when input runs out first; the balance after a round is not negative; with balance 0 or less no round is ever played |
| Game.SlotMachine.PlayRounds | deposit.py:112-116 | the rounds are those of Session on the same input, draws and balance; each is settled against the balance before it; the balance grows by the rounds' net results and stays non-negative |
| Game.SlotMachine.Play | deposit.py:109-117 | the deposit is the first positive amount typed; without one nothing changes; after it, the rounds are those of Session on the input left, the balance is the deposit plus the rounds' net results and is never negative, each round is settled against the balance before it, and "q" right after the deposit plays no round |

## Left out

- Console output is not modelled. This covers every prompt, error message and
  balance report, and `print_slot_machine` (deposit.py:71-74), which only prints
  the grid.
- `int()` parsing is abstracted. A line is reduced to the integer it parses to,
  or to none where Python raises `ValueError`.
- The quit test `input(...).lower() == 'q'` is abstracted to a boolean on the line.
- `random.sample` is not modelled as a distribution. Each column's positions are
  supplied by the caller as distinct pool positions, and `ValidPicks` states what
  the sampler guarantees.
- Game.SlotMachine.Play: takes the reel positions of its spins as a sequence
  with one draw per input line. That is enough, because every round reads at
  least the line that starts it. Game.SlotMachine.PlayRounds takes them the same
  way. The probability of each outcome is not modelled.
- End of input is handled differently. The source raises `EOFError` and stops. In
  the model, a prompt that runs out of input answers `None`, and the session ends.
- Game.SlotMachine.CheckWinnings: requires the chosen rows to exist in every
  column. The source may raise `IndexError` on a shorter grid, but it is only
  ever called on a full 3×3 spin.
- Game.Session: ends the session when the draws run out or a draw is not a
  valid spin. Neither can happen under PlayRounds' requirements; the source has
  no such case.
- Game.SlotMachine.PlayRounds: requires a non-negative balance. The deposit
  that always runs before it leaves a positive one.
- The `__main__` entry (deposit.py:119-120) is `Play` on a fresh machine.
- Python integers are unbounded, and so are Dafny's, so no overflow is modelled.
