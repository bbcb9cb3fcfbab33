/** Queries over a table held as a sequence of rows, in the order the store returns them. */
module Lookup {
  import opened Wrappers

  /** Index of the first row at or after `from` satisfying `p`: a scan that stops at its first hit. */
  function FirstFrom<T>(rows: seq<T>, p: T -> bool, from: nat): (r: Option<nat>)
    requires from <= |rows|
    ensures r.Some? ==> from <= r.value < |rows| && p(rows[r.value])
    ensures r.Some? ==> forall j :: from <= j < r.value ==> !p(rows[j])
    ensures r.None? <==> forall j :: from <= j < |rows| ==> !p(rows[j])
    decreases |rows| - from
  {
    if from == |rows| then None
    else if p(rows[from]) then Some(from)
    else FirstFrom(rows, p, from + 1)
  }

  /** What a single-row `get` finds: nothing, exactly one row, or several. */
  datatype Match = Absent | Unique(index: nat) | Multiple

  /**
   * The ORM's `get(...)`: the one row satisfying `p`, `Absent` (DoesNotExist) when none does,
   * `Multiple` (MultipleObjectsReturned) when two or more do.
   */
  function Get<T>(rows: seq<T>, p: T -> bool): (r: Match)
    ensures r.Absent? <==> forall j :: 0 <= j < |rows| ==> !p(rows[j])
    ensures r.Unique? ==> r.index < |rows| && p(rows[r.index])
    ensures r.Unique? ==> forall j :: 0 <= j < |rows| && p(rows[j]) ==> j == r.index
    ensures r.Multiple? <==> exists i, j :: 0 <= i < j < |rows| && p(rows[i]) && p(rows[j])
  {
    match FirstFrom(rows, p, 0)
    case None => Absent
    case Some(i) =>
      match FirstFrom(rows, p, i + 1)
      case None => Unique(i)
      case Some(j) => Multiple
  }

  /** The ORM's `filter(...)`: the rows satisfying `p`, in table order. */
  function Filter<T(!new)>(rows: seq<T>, p: T -> bool): (r: seq<T>)
    ensures |r| <= |rows|
    ensures forall x :: x in r <==> x in rows && p(x)
  {
    if rows == [] then []
    else
      assert rows == [rows[0]] + rows[1..];
      (if p(rows[0]) then [rows[0]] else []) + Filter(rows[1..], p)
  }

  /** A filter keeps every copy of a row that satisfies `p` and no copy of one that does not. */
  lemma {:induction false} FilterCounts<T(!new)>(rows: seq<T>, p: T -> bool)
    ensures forall x :: multiset(Filter(rows, p))[x] == if p(x) then multiset(rows)[x] else 0
  {
    if rows != [] {
      assert rows == [rows[0]] + rows[1..];
      FilterCounts(rows[1..], p);
    }
  }

  /** An id larger than every id in use, as an auto-increment primary key hands out. */
  function FreshId<T>(rows: seq<T>, id: T -> nat): (r: nat)
    ensures forall k :: 0 <= k < |rows| ==> id(rows[k]) < r
  {
    if rows == [] then 1
    else
      var rest := FreshId(rows[1..], id);
      if id(rows[0]) < rest then rest else id(rows[0]) + 1
  }

  /** Every two rows of the table are `apart`: how a uniqueness constraint reads on a whole table. */
  predicate Pairwise<T>(rows: seq<T>, apart: (T, T) -> bool) {
    forall i, j :: 0 <= i < j < |rows| ==> apart(rows[i], rows[j])
  }

  /** Filtering a table cannot break a uniqueness constraint. */
  lemma {:induction false} FilterPairwise<T(!new)>(rows: seq<T>, p: T -> bool, apart: (T, T) -> bool)
    requires Pairwise(rows, apart)
    ensures Pairwise(Filter(rows, p), apart)
  {
    if rows != [] {
      assert rows == [rows[0]] + rows[1..];
      var tail := Filter(rows[1..], p);
      FilterPairwise(rows[1..], p, apart);
      if p(rows[0]) {
        HeadApartFromTail(rows, apart);
        var r := [rows[0]] + tail;
        assert Filter(rows, p) == r;
        forall i, j | 0 <= i < j < |r|
          ensures apart(r[i], r[j])
        {
          if i == 0 {
            assert r[j] == tail[j - 1] && tail[j - 1] in tail;
            assert r[j] in rows[1..];
          } else {
            assert r[i] == tail[i - 1] && r[j] == tail[j - 1];
          }
        }
      } else {
        assert Filter(rows, p) == tail;
      }
    }
  }

  lemma HeadApartFromTail<T>(rows: seq<T>, apart: (T, T) -> bool)
    requires rows != [] && Pairwise(rows, apart)
    ensures forall x :: x in rows[1..] ==> apart(rows[0], x)
  {
    forall x | x in rows[1..]
      ensures apart(rows[0], x)
    {
      var k :| 0 <= k < |rows[1..]| && rows[1..][k] == x;
      assert rows[k + 1] == x;
    }
  }
}
