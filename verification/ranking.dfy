/**
  Ordering of the result table: rows by total trip profit, highest first.
  The key is the trip profit as rounded for display.
 */
module Ranking {
  import opened Calculator

  predicate DescendingByTrip(rows: seq<Row>) {
    forall i, j :: 0 <= i < j < |rows| ==> rows[i].totalTripProfit >= rows[j].totalTripProfit
  }

  /** No row of `rows` has a trip profit above `v`. */
  predicate AllAtMost(rows: seq<Row>, v: int) {
    forall i :: 0 <= i < |rows| ==> rows[i].totalTripProfit <= v
  }

  /** Places `r` into a descending sequence in front of the first row it is not below. */
  function Insert(r: Row, rows: seq<Row>): (out: seq<Row>)
    requires DescendingByTrip(rows)
    ensures DescendingByTrip(out)
    ensures multiset(out) == multiset(rows) + multiset{r}
    ensures forall v :: AllAtMost(rows, v) && r.totalTripProfit <= v ==> AllAtMost(out, v)
    decreases |rows|
  {
    if rows == [] || r.totalTripProfit >= rows[0].totalTripProfit then
      HeadBoundsAll(rows, r.totalTripProfit);
      PrependDescending(r, rows);
      [r] + rows
    else
      var tail := Insert(r, rows[1..]);
      assert rows == [rows[0]] + rows[1..];
      HeadBoundsAll(rows[1..], rows[0].totalTripProfit);
      PrependDescending(rows[0], tail);
      [rows[0]] + tail
  }

  /** In a descending sequence, a bound on the first row bounds every row. */
  lemma HeadBoundsAll(rows: seq<Row>, v: int)
    requires DescendingByTrip(rows)
    requires rows != [] ==> rows[0].totalTripProfit <= v
    ensures AllAtMost(rows, v)
  {
  }

  /** A row no lower than every row of a descending sequence can go in front of it. */
  lemma PrependDescending(x: Row, rows: seq<Row>)
    requires DescendingByTrip(rows) && AllAtMost(rows, x.totalTripProfit)
    ensures DescendingByTrip([x] + rows)
  {
    assert forall i :: 0 < i <= |rows| ==> ([x] + rows)[i] == rows[i - 1];
  }

  /** The rows sorted by total trip profit, highest first. */
  function SortByTripProfit(rows: seq<Row>): (sorted: seq<Row>)
    ensures DescendingByTrip(sorted)
    ensures multiset(sorted) == multiset(rows)
    decreases |rows|
  {
    if rows == [] then []
    else
      assert rows == [rows[0]] + rows[1..];
      Insert(rows[0], SortByTripProfit(rows[1..]))
  }

  /** `b` with the row at position j taken out. */
  function RemoveAt(b: seq<Row>, j: int): (out: seq<Row>)
    requires 0 <= j < |b|
    ensures |out| == |b| - 1
    ensures forall i :: 0 <= i < j ==> out[i] == b[i]
    ensures forall i :: j <= i < |out| ==> out[i] == b[i + 1]
    ensures multiset(out) == multiset(b) - multiset{b[j]}
  {
    assert b == b[..j] + [b[j]] + b[j + 1..];
    b[..j] + b[j + 1..]
  }

  /**
    Any two descending orderings of the same rows show the same trip-profit
    column: rows with equal keys may trade places, but the displayed
    sequence of trip profits does not depend on how ties are broken.
   */
  lemma {:induction false} SortedTripColumnUnique(a: seq<Row>, b: seq<Row>)
    requires multiset(a) == multiset(b)
    requires DescendingByTrip(a) && DescendingByTrip(b)
    ensures |a| == |b|
    ensures forall i :: 0 <= i < |a| ==> a[i].totalTripProfit == b[i].totalTripProfit
    decreases |a|
  {
    assert |a| == |multiset(a)| == |multiset(b)| == |b|;
    if |a| > 0 {
      var j := SameTopKey(a, b);
      var b' := RemoveAt(b, j);
      TailsAgree(a, b, j, b');
      SortedTripColumnUnique(a[1..], b');
      HeadAndTailColumn(a, b, j, b');
    }
  }

  /**
    Two descending orderings of the same non-empty rows start with the same
    key, and the first row of one sits at some position j of the other.
   */
  lemma SameTopKey(a: seq<Row>, b: seq<Row>) returns (j: int)
    requires multiset(a) == multiset(b) && |a| > 0
    requires DescendingByTrip(a) && DescendingByTrip(b)
    ensures 0 <= j < |b| && b[j] == a[0]
    ensures a[0].totalTripProfit == b[0].totalTripProfit
  {
    assert a[0] in multiset(b);
    j :| 0 <= j < |b| && b[j] == a[0];
    assert b[0] in multiset(a);
    var i0 :| 0 <= i0 < |a| && a[i0] == b[0];
    assert a[0].totalTripProfit >= a[i0].totalTripProfit;
    assert b[0].totalTripProfit >= b[j].totalTripProfit;
  }

  /** Taking the first row of `a` out of both leaves two descending orderings of the same rows. */
  lemma TailsAgree(a: seq<Row>, b: seq<Row>, j: int, b': seq<Row>)
    requires multiset(a) == multiset(b) && 0 <= j < |b| && |a| > 0 && b[j] == a[0]
    requires DescendingByTrip(a) && DescendingByTrip(b)
    requires b' == RemoveAt(b, j)
    ensures multiset(a[1..]) == multiset(b')
    ensures DescendingByTrip(a[1..]) && DescendingByTrip(b')
  {
    assert a == [a[0]] + a[1..];
    assert multiset(a[1..]) == multiset(a) - multiset{a[0]};
  }

  /** Putting the common top row back in front of both tails keeps the columns equal. */
  lemma HeadAndTailColumn(a: seq<Row>, b: seq<Row>, j: int, b': seq<Row>)
    requires |a| == |b| > 0 && 0 <= j < |b| && DescendingByTrip(b)
    requires a[0].totalTripProfit == b[0].totalTripProfit == b[j].totalTripProfit
    requires b' == RemoveAt(b, j)
    requires forall i :: 0 <= i < |a| - 1 ==> a[1..][i].totalTripProfit == b'[i].totalTripProfit
    ensures forall i :: 0 <= i < |a| ==> a[i].totalTripProfit == b[i].totalTripProfit
  {
    forall i | 0 < i < |a|
      ensures a[i].totalTripProfit == b[i].totalTripProfit
    {
      assert a[i] == a[1..][i - 1];
      if i <= j {
        assert b'[i - 1] == b[i - 1];
        assert b[0].totalTripProfit >= b[i - 1].totalTripProfit >= b[j].totalTripProfit;
        assert b[0].totalTripProfit >= b[i].totalTripProfit >= b[j].totalTripProfit;
      } else {
        assert b'[i - 1] == b[i];
      }
    }
  }

}
