/**
 * The player's console input, one entry per line typed. The program looks at a
 * line in two ways only: as an integer (parsing may fail) and, at the spin
 * prompt, whether it is "q" in either case. A line is modelled by those two views.
 */
module Console {
  import opened Wrappers
  import opened Paytable

  datatype Line = Line(number: Option<int>, quit: bool)

  /** The questions the program re-asks until it gets an acceptable answer. */
  datatype Prompt =
    | DepositAmount
    | BetAmount
    | LineCount
      /** a bet that is also within `balance` when staked on `lines` lines */
    | AffordableBet(lines: int, balance: int)

  /** Whether `line` is an acceptable answer to `p`. */
  predicate Accepts(p: Prompt, line: Line)
  {
    match line.number
    case None => false
    case Some(n) =>
      match p
      case DepositAmount => n > 0
      case BetAmount => MIN_BET <= n <= MAX_BET
      case LineCount => 1 <= n <= MAX_LINES
      case AffordableBet(lines, balance) => MIN_BET <= n <= MAX_BET && n * lines <= balance
  }

  /** `rest` is what remains of `input` after some of its lines were read. */
  predicate Unread(input: seq<Line>, rest: seq<Line>)
  {
    && |rest| <= |input|
    && forall i :: 0 <= i < |rest| ==> rest[i] == input[|input| - |rest| + i]
  }

  lemma UnreadTransitive(input: seq<Line>, middle: seq<Line>, rest: seq<Line>)
    requires Unread(input, middle) && Unread(middle, rest)
    ensures Unread(input, rest)
  {
  }

  /** None of the first `k` lines answers `p`. */
  predicate Rejected(p: Prompt, input: seq<Line>, k: nat)
    requires k <= |input|
  {
    forall j :: 0 <= j < k ==> !Accepts(p, input[j])
  }

  /** Asking `p` repeatedly on `input` gets `answer` and leaves `rest` unread:
      `answer` is the number on the first line that `p` accepts, every line
      before it is rejected, and the lines up to it are consumed; if no line is
      accepted, all input is consumed and there is no answer. */
  predicate Answered(p: Prompt, input: seq<Line>, rest: seq<Line>, answer: Option<int>)
  {
    && Unread(input, rest)
    && match answer
       case None => rest == [] && Rejected(p, input, |input|)
       case Some(v) =>
         var used := |input| - |rest|;
         && 0 < used
         && Accepts(p, input[used - 1])
         && input[used - 1].number == Some(v)
         && Rejected(p, input, used - 1)
  }

  /** The answer to a prompt, and what is left unread, are determined by the input. */
  lemma AnsweredIsDeterministic(p: Prompt, input: seq<Line>,
                                rest: seq<Line>, answer: Option<int>,
                                rest': seq<Line>, answer': Option<int>)
    requires Answered(p, input, rest, answer) && Answered(p, input, rest', answer')
    ensures rest == rest' && answer == answer'
  {
  }

  /** A line that `p` rejects is skipped: the answer to the lines after it is
      the answer to the whole input. */
  lemma AskAgain(p: Prompt, input: seq<Line>, rest: seq<Line>, answer: Option<int>)
    requires input != [] && !Accepts(p, input[0])
    requires Answered(p, input[1..], rest, answer)
    ensures Answered(p, input, rest, answer)
  {
    var tail := input[1..];
    assert forall j :: 0 <= j < |tail| ==> tail[j] == input[j + 1];
    if answer.Some? {
      var used := |tail| - |rest|;
      assert input[used] == tail[used - 1];
    }
  }

  /** The answer asking `p` repeatedly on `input` gets, and the lines it leaves
      unread: every prompt gets exactly one outcome. */
  function Ask(p: Prompt, input: seq<Line>): (outcome: (Option<int>, seq<Line>))
    ensures |outcome.1| <= |input|
    ensures outcome.0.Some? ==> Accepts(p, Line(outcome.0, false))
    decreases |input|
  {
    if input == [] then (None, [])
    else if Accepts(p, input[0]) then (input[0].number, input[1..])
    else Ask(p, input[1..])
  }

  /** What Ask returns is the answer to `p` on `input` and the lines it leaves. */
  lemma {:induction false} AskAnswers(p: Prompt, input: seq<Line>)
    ensures Answered(p, input, Ask(p, input).1, Ask(p, input).0)
    decreases |input|
  {
    if input != [] && !Accepts(p, input[0]) {
      AskAnswers(p, input[1..]);
      AskAgain(p, input, Ask(p, input[1..]).1, Ask(p, input[1..]).0);
    }
  }
}
