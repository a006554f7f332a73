/** Sums over the rows of an append-only table. */
module Sums {

  function SumBy<T>(rows: seq<T>, f: T -> int): int {
    if |rows| == 0 then 0 else SumBy(rows[..|rows| - 1], f) + f(rows[|rows| - 1])
  }

  lemma {:induction false} SumUpdate<T>(rows: seq<T>, i: nat, row: T, f: T -> int)
    requires i < |rows|
    ensures SumBy(rows[i := row], f) == SumBy(rows, f) - f(rows[i]) + f(row)
  {
    var last := |rows| - 1;
    if i == last {
      assert rows[i := row][..last] == rows[..last];
    } else {
      assert rows[i := row][..last] == rows[..last][i := row];
      SumUpdate(rows[..last], i, row, f);
    }
  }

  lemma SumPush<T>(rows: seq<T>, row: T, f: T -> int)
    ensures SumBy(rows + [row], f) == SumBy(rows, f) + f(row)
  {
    assert (rows + [row])[..|rows|] == rows;
  }

  lemma SumOfOne<T>(row: T, f: T -> int)
    ensures SumBy([row], f) == f(row)
  {
    SumPush([], row, f);
    assert [] + [row] == [row];
  }

  lemma {:induction false} SumAppend<T>(rows: seq<T>, more: seq<T>, f: T -> int)
    ensures SumBy(rows + more, f) == SumBy(rows, f) + SumBy(more, f)
  {
    if |more| == 0 {
      assert rows + more == rows;
    } else {
      var last := |more| - 1;
      assert (rows + more)[..|rows| + last] == rows + more[..last];
      SumAppend(rows, more[..last], f);
    }
  }

  lemma {:induction false} SumOfEqual<T>(rows: seq<T>, f: T -> int, g: T -> int)
    requires forall k :: 0 <= k < |rows| ==> f(rows[k]) == g(rows[k])
    ensures SumBy(rows, f) == SumBy(rows, g)
  {
    if |rows| > 0 {
      SumOfEqual(rows[..|rows| - 1], f, g);
    }
  }

  lemma {:induction false} SumOfZero<T>(rows: seq<T>, f: T -> int)
    requires forall k :: 0 <= k < |rows| ==> f(rows[k]) == 0
    ensures SumBy(rows, f) == 0
  {
    if |rows| > 0 {
      SumOfZero(rows[..|rows| - 1], f);
    }
  }

  lemma {:induction false} SumNonNegative<T>(rows: seq<T>, f: T -> int, i: nat)
    requires forall k :: 0 <= k < |rows| ==> f(rows[k]) >= 0
    requires i < |rows|
    ensures SumBy(rows, f) >= f(rows[i])
  {
    var last := |rows| - 1;
    if i < last {
      SumNonNegative(rows[..last], f, i);
    } else if last > 0 {
      SumNonNegative(rows[..last], f, 0);
    }
  }
}
