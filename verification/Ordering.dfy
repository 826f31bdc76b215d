/** Python's `sorted` on the keys of a dictionary. */
module Ordering {

  predicate HasElement(s: set<int>) {
    exists x :: x in s
  }

  /** The elements of `r` are those of `s`. */
  ghost predicate Lists(r: seq<int>, s: set<int>) {
    && (forall i :: 0 <= i < |r| ==> r[i] in s)
    && (forall x :: x in s ==> x in r)
  }

  ghost predicate Ascending(r: seq<int>) {
    forall i, j :: 0 <= i < j < |r| ==> r[i] < r[j]
  }

  function SortedIds(s: set<int>): (r: seq<int>)
    ensures Lists(r, s) && Ascending(r)
  {
    if !HasElement(s) then []
    else
      var m := Least(s);
      [m] + SortedIds(s - {m})
  }

  function Least(s: set<int>): (m: int)
    requires HasElement(s)
    ensures m in s && forall x :: x in s ==> m <= x
  {
    MinExists(s);
    var m :| m in s && forall x :: x in s ==> m <= x;
    m
  }

  lemma MinExists(s: set<int>)
    requires HasElement(s)
    ensures exists m :: m in s && forall x :: x in s ==> m <= x
  {
    var y :| y in s;
    var s' := s - {y};
    if HasElement(s') {
      MinExists(s');
      var m :| m in s' && forall x :: x in s' ==> m <= x;
      var least := if m <= y then m else y;
      forall x | x in s
        ensures least <= x
      {
        assert x == y || x in s';
      }
      assert least in s;
    } else {
      assert forall x :: x in s ==> x == y || x in s';
    }
  }

  /** Ascending order and the elements determine the list. */
  lemma {:induction false} SortedIdsUnique(s: set<int>, r: seq<int>)
    requires Lists(r, s) && Ascending(r)
    ensures r == SortedIds(s)
    decreases |r|
  {
    if r != [] {
      FirstIsLeast(s, r);
      assert SortedIds(s) == [r[0]] + SortedIds(s - {r[0]});
      hide SortedIds, Lists, Least, HasElement;
      SortedIdsUnique(s - {r[0]}, r[1..]);
      assert r == [r[0]] + r[1..];
    } else {
      assert !HasElement(s);
    }
  }

  lemma FirstIsLeast(s: set<int>, r: seq<int>)
    requires r != [] && Lists(r, s) && Ascending(r)
    ensures HasElement(s) && Least(s) == r[0]
    ensures Lists(r[1..], s - {r[0]}) && Ascending(r[1..])
  {
  }
}
