/** A finite set of numbers in ascending order, as Python's `sorted` lists it, and the stable sort of a list. */
module Ordering {

  function Members(s: seq<nat>): set<nat> {
    set x | x in s
  }

  ghost predicate Climbs(s: seq<nat>) {
    forall i, j | 0 <= i < j < |s| :: s[i] < s[j]
  }

  lemma PrependClimbs(x: nat, rest: seq<nat>)
    requires Climbs(rest) && forall j | 0 <= j < |rest| :: x < rest[j]
    ensures Climbs([x] + rest)
  {}

  lemma LeastExists(s: set<nat>)
    requires s != {}
    ensures exists x :: IsLeast(x, s)
    decreases s
  {
    var x :| x in s;
    if s != {x} {
      var rest := s - {x};
      LeastExists(rest);
      var z :| IsLeast(z, rest);
      var m := if x <= z then x else z;
      forall y | y in s ensures m <= y {
        assert y == x || y in rest;
      }
      assert IsLeast(m, s);
    } else {
      assert IsLeast(x, s);
    }
  }

  predicate IsLeast(x: nat, s: set<nat>) {
    x in s && forall y | y in s :: x <= y
  }

  function Least(s: set<nat>): (x: nat)
    requires s != {}
    ensures IsLeast(x, s)
  {
    LeastExists(s);
    var x :| IsLeast(x, s);
    x
  }

  function Ascending(s: set<nat>): (r: seq<nat>)
    ensures Members(r) == s
  {
    if s == {} then [] else
      var x := Least(s);
      var rest := Ascending(s - {x});
      assert Members([x] + rest) == {x} + Members(rest) == s;
      [x] + rest
  }

  lemma {:induction false} AscendingIsSorted(s: set<nat>)
    ensures Climbs(Ascending(s))
  {
    if s != {} {
      var x := Least(s);
      var rest := Ascending(s - {x});
      AscendingIsSorted(s - {x});
      assert Ascending(s) == [x] + rest;
      forall j | 0 <= j < |rest| ensures x < rest[j] {
        assert rest[j] in Members(rest);
      }
      PrependClimbs(x, rest);
    }
  }

  /** There is one such list. */
  lemma {:induction false} AscendingIsUnique(a: seq<nat>)
    requires Climbs(a)
    ensures Ascending(Members(a)) == a
    decreases |a|
  {
    if a == [] {
      assert Members(a) == {};
    } else {
      var s := Members(a);
      assert a[0] in s;
      assert Least(s) == (a[0]);
      assert a == [a[0]] + a[1..];
      assert Members(a[1..]) == s - {a[0]};
      AscendingIsUnique(a[1..]);
    }
  }

  // ---- sorting a list ---------------------------------------------------------------------------

  /** After everything that need not stand behind it. */
  function Insert<T>(s: seq<T>, x: T, le: (T, T) -> bool): (r: seq<T>)
    ensures |r| == |s| + 1
    decreases |s|
  {
    var n := |s|;
    if n == 0 || le(s[n - 1], x) then s + [x] else Insert(s[..n - 1], x, le) + [s[n - 1]]
  }

  function SortBy<T>(s: seq<T>, le: (T, T) -> bool): (r: seq<T>)
    ensures |r| == |s|
    decreases |s|
  {
    if s == [] then [] else Insert(SortBy(s[..|s| - 1], le), s[|s| - 1], le)
  }

  ghost predicate Ranked<T(!new)>(le: (T, T) -> bool) {
    && (forall x, y :: le(x, y) || le(y, x))
    && (forall x, y, z :: le(x, y) && le(y, z) ==> le(x, z))
  }

  ghost predicate InOrder<T>(s: seq<T>, le: (T, T) -> bool) {
    forall i, j | 0 <= i < j < |s| :: le(s[i], s[j])
  }

  ghost predicate NoRepeat<T>(s: seq<T>) {
    forall i, j | 0 <= i < j < |s| :: s[i] != s[j]
  }

  lemma {:induction false} InsertPermutes<T>(s: seq<T>, x: T, le: (T, T) -> bool)
    ensures multiset(Insert(s, x, le)) == multiset(s) + multiset{x}
    decreases |s|
  {
    var n := |s|;
    if n != 0 && !le(s[n - 1], x) {
      InsertPermutes(s[..n - 1], x, le);
      assert s == s[..n - 1] + [s[n - 1]];
    }
  }

  lemma {:induction false} SortPermutes<T>(s: seq<T>, le: (T, T) -> bool)
    ensures multiset(SortBy(s, le)) == multiset(s)
    decreases |s|
  {
    if s != [] {
      var n := |s| - 1;
      SortPermutes(s[..n], le);
      InsertPermutes(SortBy(s[..n], le), s[n], le);
      assert s == s[..n] + [s[n]];
    }
  }

  lemma InsertHolds<T>(s: seq<T>, x: T, le: (T, T) -> bool, y: T)
    ensures y in Insert(s, x, le) <==> y in s || y == x
  {
    InsertPermutes(s, x, le);
    assert y in Insert(s, x, le) <==> y in multiset(Insert(s, x, le));
  }

  lemma SortHolds<T>(s: seq<T>, le: (T, T) -> bool, y: T)
    ensures y in SortBy(s, le) <==> y in s
  {
    SortPermutes(s, le);
    assert y in SortBy(s, le) <==> y in multiset(SortBy(s, le));
  }

  lemma {:induction false} InsertOrders<T(!new)>(s: seq<T>, x: T, le: (T, T) -> bool)
    requires Ranked(le) && InOrder(s, le)
    ensures InOrder(Insert(s, x, le), le)
    decreases |s|
  {
    var n := |s|;
    if n != 0 && !le(s[n - 1], x) {
      var t := Insert(s[..n - 1], x, le);
      InsertOrders(s[..n - 1], x, le);
      forall i | 0 <= i < |t| ensures le(t[i], s[n - 1]) {
        InsertHolds(s[..n - 1], x, le, t[i]);
      }
    }
  }

  lemma {:induction false} SortOrders<T(!new)>(s: seq<T>, le: (T, T) -> bool)
    requires Ranked(le)
    ensures InOrder(SortBy(s, le), le)
    decreases |s|
  {
    if s != [] {
      var n := |s| - 1;
      SortOrders(s[..n], le);
      InsertOrders(SortBy(s[..n], le), s[n], le);
    }
  }

  lemma {:induction false} InsertRepeatsNothing<T>(s: seq<T>, x: T, le: (T, T) -> bool)
    requires NoRepeat(s) && x !in s
    ensures NoRepeat(Insert(s, x, le))
    decreases |s|
  {
    var n := |s|;
    if n != 0 && !le(s[n - 1], x) {
      var t := Insert(s[..n - 1], x, le);
      InsertRepeatsNothing(s[..n - 1], x, le);
      InsertHolds(s[..n - 1], x, le, s[n - 1]);
    }
  }

  lemma {:induction false} SortRepeatsNothing<T>(s: seq<T>, le: (T, T) -> bool)
    requires NoRepeat(s)
    ensures NoRepeat(SortBy(s, le))
    decreases |s|
  {
    if s != [] {
      var n := |s| - 1;
      SortRepeatsNothing(s[..n], le);
      SortHolds(s[..n], le, s[n]);
      InsertRepeatsNothing(SortBy(s[..n], le), s[n], le);
    }
  }
}
