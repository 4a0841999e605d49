/** Finite sets and maps: least elements, ascending orders, and counting the
    indexes of a map that hold a given value. */
module Counting {

  /** Some element of a non-empty set. */
  lemma Pick<T>(s: set<T>) returns (x: T)
    requires s != {}
    ensures x in s
  {
    x :| x in s;
  }

  /** Some key at which a map holds the value d. */
  lemma KeyOf<K, D>(m: map<K, D>, d: D) returns (k: K)
    requires d in m.Values
    ensures k in m && m[k] == d
  {
    k :| k in m && m[k] == d;
  }

  lemma SomeValue<K, D>(m: map<K, D>)
    requires m != map[]
    ensures m.Values != {}
  {
    assert m.Keys != {};
    var k := Pick(m.Keys);
    assert m[k] in m.Values;
  }

  lemma NothingLeft<T>(all: set<T>, done: set<T>)
    requires done <= all && all - done == {}
    ensures done == all
  {
    forall x | x in all ensures x in done {
      assert x !in all - done;
    }
  }

  lemma SplitSize<T>(a: set<T>, b: set<T>)
    ensures |a| == |a - b| + |a * b|
  {
    assert a == (a - b) + a * b;
  }

  /** A loop over a set has one element fewer to go. */
  lemma OneFewer<T>(s: set<T>, rest: set<T>, x: T)
    requires x in rest
    ensures s - (rest - {x}) == (s - rest) + (if x in s then {x} else {})
    ensures |s - (rest - {x})| == |s - rest| + (if x in s then 1 else 0)
  {
    var before, after := s - rest, s - (rest - {x});
    assert after == before + (if x in s then {x} else {});
  }

  lemma SameMap<K, V>(a: map<K, V>, b: map<K, V>)
    requires a.Keys <= b.Keys
    requires forall k :: k in b ==> k in a && b[k] == a[k]
    ensures a == b
  {
    assert a.Keys == b.Keys;
  }

  /** The least element of a non-empty set of indexes. */
  ghost function Least(s: set<int>): (x: int)
    requires s != {}
    ensures x in s && forall y :: y in s ==> x <= y
  {
    LeastExists(s);
    var x :| x in s && forall y :: y in s ==> x <= y;
    x
  }

  lemma LeastExists(s: set<int>)
    requires s != {}
    ensures exists x :: x in s && forall y :: y in s ==> x <= y
  {
    var x := Pick(s);
    if s == {x} {
    } else {
      LeastExists(s - {x});
      var z :| z in s - {x} && forall y :: y in s - {x} ==> z <= y;
      var least := if x < z then x else z;
      forall y | y in s ensures least <= y {
        if y != x { assert y in s - {x}; }
      }
    }
  }

  ghost predicate IsAscending(a: seq<int>) {
    forall i, j :: 0 <= i < j < |a| ==> a[i] < a[j]
  }

  ghost predicate Lists(a: seq<int>, s: set<int>) {
    forall x :: x in a <==> x in s
  }

  /** The elements of a set in ascending order. */
  ghost function Ascending(s: set<int>): (a: seq<int>)
    ensures IsAscending(a) && Lists(a, s) && |a| == |s|
  {
    if s == {} then []
    else
      var x := Least(s);
      [x] + Ascending(s - {x})
  }

  /** An ascending listing is the only one. */
  lemma {:induction false} AscendingUnique(a: seq<int>, s: set<int>)
    requires IsAscending(a) && Lists(a, s)
    ensures a == Ascending(s)
  {
    if a == [] {
      assert forall y :: y in s ==> y in a;
      assert s == {};
    } else {
      assert a[0] in a;
      var x := Least(s);
      assert x in a;
      var rest := a[1..];
      assert a == [a[0]] + rest;
      assert forall y :: y in rest ==> y > a[0];
      assert a[0] == x;
      AscendingUnique(rest, s - {x});
    }
  }

  /** The indexes at which a map holds a value. */
  function Holders<D(==)>(m: map<int, D>, d: D): (s: set<int>)
    ensures s <= m.Keys
  {
    set i | i in m && m[i] == d
  }

  function Count<D(==)>(m: map<int, D>, d: D): nat {
    |Holders(m, d)|
  }

  lemma SubsetSize<T>(a: set<T>, b: set<T>)
    requires a <= b
    ensures |a| <= |b|
    ensures |a| == |b| ==> a == b
  {
    assert b == a + (b - a);
  }

  /** Writing value e at an index moves one unit of count. */
  lemma CountUpdate<D>(m: map<int, D>, i: int, e: D, d: D)
    ensures Count(m[i := e], d) ==
            Count(m, d) - (if i in m && m[i] == d then 1 else 0) + (if e == d then 1 else 0)
  {
    var h := Holders(m, d) - {i};
    if e == d {
      assert Holders(m[i := e], d) == h + {i};
    } else {
      assert Holders(m[i := e], d) == h;
    }
    if i in m && m[i] == d {
      assert Holders(m, d) == h + {i};
    } else {
      assert Holders(m, d) == h;
    }
  }

  lemma CountRemove<D>(m: map<int, D>, i: int, d: D)
    requires i in m
    ensures Count(m - {i}, d) == Count(m, d) - (if m[i] == d then 1 else 0)
  {
    assert Holders(m - {i}, d) == Holders(m, d) - {i};
  }

  lemma CountPositive<D>(m: map<int, D>, d: D)
    ensures Count(m, d) > 0 <==> d in m.Values
  {
    if d in m.Values {
      var i := KeyOf(m, d);
      assert i in Holders(m, d);
    }
    if Count(m, d) > 0 {
      var i := Pick(Holders(m, d));
    }
  }

  /** The sum of f over a finite set. */
  ghost function Sum<D(!new)>(s: set<D>, f: D -> nat): nat {
    if s == {} then 0
    else
      var x :| x in s;
      f(x) + Sum(s - {x}, f)
  }

  lemma {:induction false} SumRemove<D(!new)>(s: set<D>, f: D -> nat, x: D)
    requires x in s
    ensures Sum(s, f) == f(x) + Sum(s - {x}, f)
  {
    var y :| y in s && Sum(s, f) == f(y) + Sum(s - {y}, f);
    if y != x {
      SumRemove(s - {y}, f, x);
      SumRemove(s - {x}, f, y);
      assert s - {y} - {x} == s - {x} - {y};
    }
  }

  lemma {:induction false} SumMonotone<D(!new)>(s: set<D>, f: D -> nat, g: D -> nat)
    requires forall x :: x in s ==> f(x) <= g(x)
    ensures Sum(s, f) <= Sum(s, g)
    ensures (forall x :: x in s ==> f(x) == g(x)) ==> Sum(s, f) == Sum(s, g)
  {
    if s != {} {
      var x :| x in s;
      SumRemove(s, f, x);
      SumRemove(s, g, x);
      SumMonotone(s - {x}, f, g);
    }
  }

  lemma TimesOneMore(c: nat, n: nat)
    ensures c * (n + 1) == c * n + c
  {}

  lemma {:induction false} SumAtMost<D(!new)>(s: set<D>, f: D -> nat, c: nat)
    requires forall x :: x in s ==> f(x) <= c
    ensures Sum(s, f) <= c * |s|
  {
    if s != {} {
      var x :| x in s;
      SumRemove(s, f, x);
      SumAtMost(s - {x}, f, c);
      TimesOneMore(c, |s - {x}|);
    }
  }

  lemma SumFull<D(!new)>(s: set<D>, f: D -> nat, c: nat, x: D)
    requires x in s && forall y :: y in s ==> f(y) <= c
    ensures Sum(s, f) <= c * |s| - (c - f(x))
  {
    SumRemove(s, f, x);
    SumAtMost(s - {x}, f, c);
    TimesOneMore(c, |s - {x}|);
  }

  lemma SumConstant<D(!new)>(s: set<D>, f: D -> nat, c: nat)
    requires forall x :: x in s ==> f(x) <= c
    ensures Sum(s, f) <= c * |s|
    ensures Sum(s, f) == c * |s| ==> forall x :: x in s ==> f(x) == c
  {
    SumAtMost(s, f, c);
    forall x | x in s ensures Sum(s, f) <= c * |s| - (c - f(x)) {
      SumFull(s, f, c, x);
    }
  }

  /** How many indexes of s hold each value. */
  ghost function GroupSize<D>(m: map<int, D>, s: set<int>): D -> nat {
    d => |s * Holders(m, d)|
  }

  ghost function Counts<D>(m: map<int, D>): D -> nat {
    d => Count(m, d)
  }

  /** Taking the holders of x out of s leaves the other groups as they are. */
  lemma OtherGroups<D>(m: map<int, D>, s: set<int>, x: D, d: D)
    ensures var rest := s - Holders(m, x);
            |rest| + |s * Holders(m, x)| == |s| && (d != x ==> rest * Holders(m, d) == s * Holders(m, d))
  {
    var rest := s - Holders(m, x);
    assert s == rest + s * Holders(m, x);
  }

  lemma SumOfOthers<D(!new)>(m: map<int, D>, s: set<int>, ds: set<D>, x: D)
    requires x in ds
    ensures Sum(ds, GroupSize(m, s)) == |s * Holders(m, x)| + Sum(ds - {x}, GroupSize(m, s - Holders(m, x)))
  {
    SumRemove(ds, GroupSize(m, s), x);
    var rest := s - Holders(m, x);
    forall d | d in ds - {x} ensures GroupSize(m, rest)(d) == GroupSize(m, s)(d) {
      OtherGroups(m, s, x, d);
    }
    SumMonotone(ds - {x}, GroupSize(m, rest), GroupSize(m, s));
  }

  /** Grouping a set of indexes by the value m holds there loses nothing. */
  lemma {:induction false} SumOfGroups<D(!new)>(m: map<int, D>, s: set<int>, ds: set<D>)
    requires s <= m.Keys
    requires forall i :: i in s ==> m[i] in ds
    ensures Sum(ds, GroupSize(m, s)) == |s|
    decreases ds
  {
    if ds == {} {
      if s != {} {
        var i := Pick(s);
        assert false;
      }
    } else {
      var x :| x in ds;
      SumOfOthers(m, s, ds, x);
      OtherGroups(m, s, x, x);
      SumOfGroups(m, s - Holders(m, x), ds - {x});
    }
  }

  /** The size of a map is the sum of the counts of the values it holds. */
  lemma SumOfCounts<D(!new)>(m: map<int, D>, ds: set<D>)
    requires m.Values <= ds
    ensures Sum(ds, Counts(m)) == |m|
  {
    forall i | i in m ensures m[i] in ds { assert m[i] in m.Values; }
    SumOfGroups(m, m.Keys, ds);
    forall d | d in ds ensures Counts(m)(d) == GroupSize(m, m.Keys)(d) {
      assert m.Keys * Holders(m, d) == Holders(m, d);
    }
    SumMonotone(ds, Counts(m), GroupSize(m, m.Keys));
  }

  // ------------------------------------------------------- sorted indexes

  method TakeAny<T>(s: set<T>) returns (x: T)
    requires s != {}
    ensures x in s
  {
    x :| x in s;
  }

  /** Inserts x in its place in an ascending list. */
  method InsertSorted(a: seq<int>, x: int) returns (b: seq<int>)
    requires IsAscending(a) && x !in a
    ensures IsAscending(b)
    ensures forall y :: y in b <==> y == x || y in a
  {
    var n := 0;
    while n < |a| && a[n] < x
      invariant n <= |a|
      invariant forall k :: 0 <= k < n ==> a[k] < x
    {
      n := n + 1;
    }
    b := a[..n] + [x] + a[n..];
    assert a == a[..n] + a[n..];
  }

  /** Map iteration is in no particular order; sorting makes it stable. */
  method SortedIndexes(keys: set<int>) returns (a: seq<int>)
    ensures a == Ascending(keys)
  {
    a := [];
    var rest := keys;
    while rest != {}
      invariant rest <= keys
      invariant IsAscending(a)
      invariant forall y :: y in a <==> y in keys - rest
      decreases rest
    {
      var x := TakeAny(rest);
      a := InsertSorted(a, x);
      rest := rest - {x};
    }
    AscendingUnique(a, keys);
  }
}
