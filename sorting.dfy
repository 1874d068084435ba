/** `sorted(xs, reverse=True)` on the asymmetry factors. */
module Sorting {

  predicate Descending(s: seq<real>)
  {
    forall i, j :: 0 <= i < j < |s| ==> s[i] >= s[j]
  }

  /** Inserts x into a descending sequence, keeping it descending; the new head
      is the larger of x and the old head. */
  function Insert(x: real, s: seq<real>): (r: seq<real>)
    requires Descending(s)
    ensures |r| == |s| + 1
    ensures r[0] == if |s| == 0 || x >= s[0] then x else s[0]
    ensures Descending(r)
    ensures multiset(r) == multiset(s) + multiset{x}
  {
    if |s| == 0 || x >= s[0] then
      DescendingCons(x, s);
      [x] + s
    else
      var t := Insert(x, s[1..]);
      DescendingCons(s[0], t);
      assert s == [s[0]] + s[1..];
      [s[0]] + t
  }

  /** A head no smaller than a descending tail's head keeps it descending. */
  lemma DescendingCons(a: real, t: seq<real>)
    requires Descending(t)
    requires |t| == 0 || a >= t[0]
    ensures Descending([a] + t)
  {
    var r := [a] + t;
    forall i, j | 0 <= i < j < |r| ensures r[i] >= r[j] {
      if i == 0 {
        assert r[j] == t[j - 1] <= t[0];
      } else {
        assert r[i] == t[i - 1] && r[j] == t[j - 1];
      }
    }
  }

  /** The factors in descending order: a descending permutation of the input. */
  function SortDescending(s: seq<real>): (r: seq<real>)
    ensures Descending(r)
    ensures multiset(r) == multiset(s)
    ensures |r| == |s|
  {
    if |s| == 0 then []
    else
      assert s == [s[0]] + s[1..];
      Insert(s[0], SortDescending(s[1..]))
  }
}
