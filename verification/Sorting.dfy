/** A stable sort of rows by a number. */
module Sorting {

  predicate IsSorted<T>(rows: seq<T>, key: T -> int)
  {
    forall i, j :: 0 <= i < j < |rows| ==> key(rows[i]) <= key(rows[j])
  }

  function Insert<T>(sorted: seq<T>, row: T, key: T -> int): (inserted: seq<T>)
    ensures |inserted| == |sorted| + 1
  {
    if sorted == [] || key(sorted[|sorted| - 1]) <= key(row) then sorted + [row]
    else Insert(sorted[..|sorted| - 1], row, key) + [sorted[|sorted| - 1]]
  }

  function SortBy<T>(rows: seq<T>, key: T -> int): (sorted: seq<T>)
    ensures |sorted| == |rows|
  {
    if rows == [] then [] else Insert(SortBy(rows[..|rows| - 1], key), rows[|rows| - 1], key)
  }

  lemma SortedSnoc<T>(sorted: seq<T>, row: T, key: T -> int)
    requires IsSorted(sorted, key)
    requires forall x :: x in sorted ==> key(x) <= key(row)
    ensures IsSorted(sorted + [row], key)
  {
  }

  lemma {:induction false} InsertSorts<T>(sorted: seq<T>, row: T, key: T -> int)
    requires IsSorted(sorted, key)
    ensures IsSorted(Insert(sorted, row, key), key)
    ensures multiset(Insert(sorted, row, key)) == multiset(sorted) + multiset{row}
  {
    if sorted == [] || key(sorted[|sorted| - 1]) <= key(row) {
      assert forall x :: x in sorted ==> key(x) <= key(row);
    } else {
      var n := |sorted| - 1;
      var shorter, last := Insert(sorted[..n], row, key), sorted[n];
      assert sorted == sorted[..n] + [last];
      InsertSorts(sorted[..n], row, key);
      SortedSnoc(shorter, last, key) by {
        forall x | x in shorter ensures key(x) <= key(last) {
          assert x in multiset(shorter);
          assert x == row || x in sorted[..n];
        }
      }
    }
  }

  lemma {:induction false} SortBySorts<T>(rows: seq<T>, key: T -> int)
    ensures IsSorted(SortBy(rows, key), key)
    ensures multiset(SortBy(rows, key)) == multiset(rows)
  {
    if rows != [] {
      hide IsSorted, Insert;
      var n := |rows| - 1;
      assert rows == rows[..n] + [rows[n]];
      SortBySorts(rows[..n], key);
      InsertSorts(SortBy(rows[..n], key), rows[n], key);
    }
  }
}
