/**
 * The machine's fixed configuration: the betting limits, the grid size, the four
 * symbols with their frequency weights and payout multipliers, and the weighted
 * reel pool built from the frequency table.
 */
module Paytable {

  const MAX_LINES := 3
  const MAX_BET := 100
  const MIN_BET := 1
  const ROWS := 3
  const COLS := 3

  datatype Symbol = A | B | C | D

  /** The symbols in the order the frequency table lists them. */
  const SYMBOLS: seq<Symbol> := [A, B, C, D]

  /** How many copies of a symbol the reel pool holds. */
  function Frequency(s: Symbol): nat
  {
    match s
    case A => 2
    case B => 4
    case C => 6
    case D => 8
  }

  /** The largest payout multiplier in the table (that of A). */
  const MAX_MULTIPLIER := 5

  /** What one winning line pays per unit bet when it shows `s`. */
  function Multiplier(s: Symbol): (m: nat)
    ensures 2 <= m <= MAX_MULTIPLIER
    ensures m == MAX_MULTIPLIER <==> s == A
  {
    match s
    case A => 5
    case B => 4
    case C => 3
    case D => 2
  }

  /** `n` copies of `s`. */
  function Repeat(s: Symbol, n: nat): (r: seq<Symbol>)
    ensures |r| == n
    ensures forall i :: 0 <= i < |r| ==> r[i] == s
  {
    if n == 0 then [] else Repeat(s, n - 1) + [s]
  }

  /** Each symbol of `symbols`, in order, repeated by its frequency weight. */
  function BuildPool(symbols: seq<Symbol>): seq<Symbol>
  {
    if symbols == [] then [] else Repeat(symbols[0], Frequency(symbols[0])) + BuildPool(symbols[1..])
  }

  /** The reel pool every column is drawn from. */
  function Pool(): seq<Symbol>
  {
    BuildPool(SYMBOLS)
  }

  lemma {:induction false} RepeatCount(s: Symbol, n: nat, x: Symbol)
    ensures multiset(Repeat(s, n))[x] == if x == s then n else 0
  {
    if n > 0 {
      RepeatCount(s, n - 1, x);
      assert Repeat(s, n) == Repeat(s, n - 1) + [s];
    }
  }

  /** A pool built from a list of distinct symbols holds each listed symbol exactly
      its frequency weight times and no other symbol. */
  lemma {:induction false} BuildPoolCount(symbols: seq<Symbol>, x: Symbol)
    requires forall i, j :: 0 <= i < j < |symbols| ==> symbols[i] != symbols[j]
    ensures multiset(BuildPool(symbols))[x] == if x in symbols then Frequency(x) else 0
  {
    if symbols != [] {
      var head, tail := symbols[0], symbols[1..];
      assert symbols == [head] + tail;
      BuildPoolCount(tail, x);
      RepeatCount(head, Frequency(head), x);
      if x == head {
        assert x !in tail by {
          forall j | 0 <= j < |tail| ensures tail[j] != x {
            assert symbols[j + 1] == tail[j];
          }
        }
      }
    }
  }

  /** The frequency table lists every symbol, each once. */
  lemma SymbolsListed(x: Symbol)
    ensures x in SYMBOLS
    ensures forall i, j :: 0 <= i < j < |SYMBOLS| ==> SYMBOLS[i] != SYMBOLS[j]
  {
    assert x == SYMBOLS[0] || x == SYMBOLS[1] || x == SYMBOLS[2] || x == SYMBOLS[3];
  }

  /** The pool holds A 2 times, B 4, C 6 and D 8 times, and no other symbol. */
  lemma PoolComposition()
    ensures forall x :: multiset(Pool())[x] == Frequency(x)
  {
    forall x ensures multiset(Pool())[x] == Frequency(x) {
      SymbolsListed(x);
      BuildPoolCount(SYMBOLS, x);
    }
  }

  /** The pool has 2 + 4 + 6 + 8 = 20 entries. */
  lemma PoolSize()
    ensures |Pool()| == 20
  {
    assert SYMBOLS[1..] == [B, C, D];
    assert [B, C, D][1..] == [C, D];
    assert [C, D][1..] == [D];
    assert [D][1..] == [];
  }
}
