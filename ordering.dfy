/** Listing a set of integer keys in ascending order, as an `ORDER BY` on
    an integer primary key does. */
module Ordering {

  /** Some element of a non-empty set. */
  lemma Element(s: set<int>) returns (x: int)
    requires s != {}
    ensures x in s
  {
    if forall y :: y !in s {
      assert false;
    }
    x :| x in s;
  }

  /** The least element of a non-empty set of ids. */
  lemma MinOf(s: set<int>) returns (m: int)
    requires s != {}
    ensures m in s && forall y :: y in s ==> m <= y
    decreases s
  {
    var x := Element(s);
    if s == {x} {
      m := x;
    } else {
      var s' := s - {x};
      assert s' < s;
      var m' := MinOf(s');
      if x < m' {
        m := x;
      } else {
        m := m';
      }
      forall y | y in s ensures m <= y {
        if y != x {
          assert y in s';
        }
      }
    }
  }

  lemma MinExists(s: set<int>)
    requires s != {}
    ensures exists m :: m in s && forall y :: y in s ==> m <= y
  {
    var m := MinOf(s);
  }

  function SetMin(s: set<int>): (m: int)
    requires s != {}
    ensures m in s && forall y :: y in s ==> m <= y
  {
    MinExists(s);
    var m :| m in s && forall y :: y in s ==> m <= y;
    m
  }

  /** The analog ids in ascending order, as `ORDER BY analog.id` lists
      them. */
  function SortedKeys(s: set<int>): (r: seq<int>)
    ensures forall i, j :: 0 <= i < j < |r| ==> r[i] < r[j]
    ensures forall k :: k in r <==> k in s
    decreases |s|
  {
    if s == {} then []
    else
      var m := SetMin(s);
      [m] + SortedKeys(s - {m})
  }
}
