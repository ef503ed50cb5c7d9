/** Lists of indexes and the sets they stand for. */
module Lists {

  /** The numbers a list holds, whatever their order. */
  function Elements(ints: seq<int>): set<int> {
    set n | n in ints
  }

  lemma ElementsOfCons(head: int, tail: seq<int>)
    ensures Elements([head] + tail) == {head} + Elements(tail)
  {
    assert forall n :: n in [head] + tail <==> n == head || n in tail;
  }

  predicate Distinct<T(==)>(s: seq<T>) {
    forall i, j | 0 <= i < j < |s| :: s[i] != s[j]
  }

  predicate Ascending(list: seq<int>) {
    forall i, j | 0 <= i < j < |list| :: list[i] < list[j]
  }

  /** The elements of a set in ascending order, as sets.Int.List() returns them. */
  function SortedList(s: set<int>): (list: seq<int>)
    ensures Elements(list) == s && Ascending(list)
    decreases s
  {
    if s == {} then []
    else
      LeastExists(s);
      var least :| IsLeast(least, s);
      var rest := SortedList(s - {least});
      SortedCons(least, rest, s);
      [least] + rest
  }

  lemma SortedCons(least: int, rest: seq<int>, s: set<int>)
    requires IsLeast(least, s) && Elements(rest) == s - {least} && Ascending(rest)
    ensures Elements([least] + rest) == s && Ascending([least] + rest)
  {
    var list := [least] + rest;
    ElementsOfCons(least, rest);
    forall i, j | 0 <= i < j < |list|
      ensures list[i] < list[j]
    {
      assert rest[j - 1] in Elements(rest);
    }
  }

  predicate IsLeast(least: int, s: set<int>) {
    least in s && forall n | n in s :: least <= n
  }

  lemma HasElement(s: set<int>)
    ensures s == {} || exists n :: n in s
  {
    if forall n :: n !in s {
      assert s == {};
    }
  }

  lemma {:induction false} LeastExists(s: set<int>)
    requires s != {}
    ensures exists least :: IsLeast(least, s)
  {
    HasElement(s);
    var n :| n in s;
    var smaller := s - {n};
    if smaller == {} {
      assert forall m | m in s :: m == n || m in smaller;
      assert IsLeast(n, s);
    } else {
      LeastExists(smaller);
      var m :| IsLeast(m, smaller);
      assert forall k | k in s :: k == n || k in smaller;
      assert IsLeast(if m < n then m else n, s);
    }
  }
}
