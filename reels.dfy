/**
 * One spin of the reels. The source draws each column with a library sampler that
 * picks ROWS distinct positions of the full pool; the model takes those positions
 * from the caller, so a spin is a function of the positions drawn.
 */
module Reels {
  import opened Paytable

  /** A spin as the source builds it: a list of columns, each a list of rows. */
  type Grid = seq<seq<Symbol>>

  /** No position is drawn twice. */
  predicate Distinct(positions: seq<nat>)
  {
    forall i, j :: 0 <= i < j < |positions| ==> positions[i] != positions[j]
  }

  /** Every position lies inside a pool of `size` entries. */
  predicate WithinPool(positions: seq<nat>, size: nat)
  {
    forall i :: 0 <= i < |positions| ==> positions[i] < size
  }

  /** The positions a sampler may return for one spin: COLS columns, each ROWS
      distinct positions of the full pool. Columns are drawn independently, so
      two columns may use the same position. */
  predicate ValidPicks(picks: seq<seq<nat>>)
  {
    && |picks| == COLS
    && forall c :: 0 <= c < |picks| ==>
         |picks[c]| == ROWS && Distinct(picks[c]) && WithinPool(picks[c], |Pool()|)
  }

  /** The entries of `pool` at `positions`, in the order drawn. */
  function Sample<T>(pool: seq<T>, positions: seq<nat>): (r: seq<T>)
    requires WithinPool(positions, |pool|)
  {
    seq(|positions|, i requires 0 <= i < |positions| => pool[positions[i]])
  }

  lemma SampleConcat<T>(pool: seq<T>, front: seq<nat>, back: seq<nat>)
    requires WithinPool(front, |pool|) && WithinPool(back, |pool|)
    ensures WithinPool(front + back, |pool|)
    ensures Sample(pool, front + back) == Sample(pool, front) + Sample(pool, back)
  {
    assert forall i :: 0 <= i < |front + back| ==>
      (front + back)[i] == if i < |front| then front[i] else back[i - |front|];
  }

  lemma SamplePrefix<T>(pool: seq<T>, n: nat, positions: seq<nat>)
    requires n <= |pool| && WithinPool(positions, n)
    ensures Sample(pool, positions) == Sample(pool[..n], positions)
  {
  }

  /** Taking out the `j`-th draw keeps the others distinct and, as none of them
      is `n`, below `n`. */
  lemma RemoveDraw(positions: seq<nat>, j: nat, n: nat)
    requires Distinct(positions) && WithinPool(positions, n + 1)
    requires j < |positions| && positions[j] == n
    ensures positions == positions[..j] + [n] + positions[j + 1..]
    ensures Distinct(positions[..j] + positions[j + 1..])
    ensures WithinPool(positions[..j] + positions[j + 1..], n)
  {
    var others := positions[..j] + positions[j + 1..];
    forall i | 0 <= i < |others| ensures others[i] < n {
      var i' := if i < j then i else i + 1;
      assert others[i] == positions[i'];
    }
    forall i, k | 0 <= i < k < |others| ensures others[i] != others[k] {
      var i' := if i < j then i else i + 1;
      var k' := if k < j then k else k + 1;
      assert others[i] == positions[i'] && others[k] == positions[k'];
    }
  }

  /** Drawing distinct positions is drawing without replacement: the sample is a
      sub-multiset of the pool. */
  lemma {:induction false} SampleWithinPool<T>(pool: seq<T>, positions: seq<nat>)
    requires Distinct(positions) && WithinPool(positions, |pool|)
    ensures multiset(Sample(pool, positions)) <= multiset(pool)
    decreases |pool|
  {
    if positions == [] {
      assert Sample(pool, positions) == [];
    } else {
      assert positions[0] < |pool|;
      var n := |pool| - 1;
      var init := pool[..n];
      assert pool == init + [pool[n]];
      if j :| 0 <= j < |positions| && positions[j] == n {
        var front, back := positions[..j], positions[j + 1..];
        RemoveDraw(positions, j, n);
        SampleWithinPool(init, front + back);
        SampleConcat(pool, front + [n], back);
        SampleConcat(pool, front, [n]);
        SampleConcat(init, front, back);
        SamplePrefix(pool, n, front);
        SamplePrefix(pool, n, back);
        assert Sample(pool, positions) == Sample(pool, front + [n]) + Sample(pool, back);
        assert Sample(pool, [n]) == [pool[n]];
        var drawn := Sample(init, front) + [pool[n]] + Sample(init, back);
        assert Sample(pool, positions) == drawn;
        assert multiset(drawn) == multiset(Sample(init, front + back)) + multiset{pool[n]};
      } else {
        assert WithinPool(positions, n) by {
          forall i | 0 <= i < |positions| ensures positions[i] < n {
            assert positions[i] != n;
          }
        }
        SampleWithinPool(init, positions);
        SamplePrefix(pool, n, positions);
      }
    }
  }

  /** The grid of one spin: column `c` is the pool drawn at `picks[c]`. The grid
      has COLS columns of ROWS symbols. */
  function SpinColumns(picks: seq<seq<nat>>): (grid: Grid)
    requires ValidPicks(picks)
    ensures |grid| == COLS
    ensures forall c :: 0 <= c < |grid| ==> |grid[c]| == ROWS
  {
    seq(COLS, c requires 0 <= c < COLS => Sample(Pool(), picks[c]))
  }

  /** Each column of a spin is a draw without replacement from the full pool. */
  lemma SpinDrawsFromPool(picks: seq<seq<nat>>, c: int)
    requires ValidPicks(picks) && 0 <= c < COLS
    ensures multiset(SpinColumns(picks)[c]) <= multiset(Pool())
  {
    SampleWithinPool(Pool(), picks[c]);
  }

  /** No column shows a symbol more often than the pool holds it; in particular no
      column shows A in all three rows. */
  lemma ColumnRespectsFrequency(picks: seq<seq<nat>>, c: int, x: Symbol)
    requires ValidPicks(picks) && 0 <= c < COLS
    ensures multiset(SpinColumns(picks)[c])[x] <= Frequency(x)
    ensures SpinColumns(picks)[c] != [A, A, A]
  {
    PoolComposition();
    SpinDrawsFromPool(picks, c);
    var column := SpinColumns(picks)[c];
    assert multiset([A, A, A])[A] == 3;
  }
}
