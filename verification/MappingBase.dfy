/** The round-robin base mapping: how often it uses each failure domain. */
module MappingBase {
  import opened Counting
  import opened FailureDomains
  import opened Mapping
  import opened MappingTheorems

  ghost function SetOf<T(!new)>(s: seq<T>): set<T> { set x | x in s }

  lemma {:induction false} DistinctSize<T(!new)>(s: seq<T>)
    requires Distinct(s)
    ensures |SetOf(s)| == |s|
  {
    if s == [] {
      assert SetOf(s) == {};
    } else {
      var init := s[..|s| - 1];
      DistinctSize(init);
      assert s == init + [s[|s| - 1]];
      assert SetOf(s) == SetOf(init) + {s[|s| - 1]};
    }
  }

  /** Domains that some machine is in come before those that none is in. */
  ghost predicate PresentFirst(order: seq<FailureDomain>, machines: Mapping) {
    forall i, j :: 0 <= i < j < |order| && order[j] in machines.Values ==> order[i] in machines.Values
  }

  /** What sorting the completed failure domains guarantees. Nothing is said
      about the order of two domains that are both present or both absent: the
      second sort is not stable. */
  ghost predicate IsOrder(order: seq<FailureDomain>, completed: seq<FailureDomain>, machines: Mapping) {
    multiset(order) == multiset(completed) && PresentFirst(order, machines)
  }

  lemma OrderIsDistinct(order: seq<FailureDomain>, completed: seq<FailureDomain>, machines: Mapping)
    requires IsOrder(order, completed, machines) && Distinct(completed)
    ensures Distinct(order) && |order| == |completed| && SetOf(order) == SetOf(completed)
  {
    assert |multiset(order)| == |multiset(completed)|;
    forall x ensures x in SetOf(order) <==> x in SetOf(completed) {
      assert x in order <==> x in multiset(order);
      assert x in completed <==> x in multiset(completed);
    }
    DistinctSize(completed);
    assert SetOf(order) == SetOf(completed);
    FullSizeIsDistinct(order);
  }

  lemma {:induction false} FullSizeIsDistinct<T(!new)>(s: seq<T>)
    ensures |SetOf(s)| <= |s|
    ensures |SetOf(s)| == |s| ==> Distinct(s)
  {
    if s == [] {
      assert SetOf(s) == {};
    } else {
      var init, last := s[..|s| - 1], s[|s| - 1];
      FullSizeIsDistinct(init);
      assert s == init + [last];
      assert SetOf(s) == SetOf(init) + {last};
      if |SetOf(s)| == |s| {
        assert last !in SetOf(init);
        forall i, j | 0 <= i < j < |s| ensures s[i] != s[j] {
          assert s[i] == init[i] && init[i] in SetOf(init);
        }
      }
    }
  }

  /** Index i of the base mapping gets the i-th domain, going round. */
  function RoundRobin(order: seq<FailureDomain>, n: nat): Mapping
    requires order != []
  {
    map i: int | 0 <= i < n :: order[i % |order|]
  }

  lemma RoundRobinSize(order: seq<FailureDomain>, n: nat)
    requires order != []
    ensures |RoundRobin(order, n)| == n
    ensures forall i :: i in RoundRobin(order, n) <==> 0 <= i < n
  {
    if n > 0 {
      RoundRobinSize(order, n - 1);
      RoundRobinStep(order, n - 1);
    } else {
      assert RoundRobin(order, n) == map[];
    }
  }

  lemma RoundRobinStep(order: seq<FailureDomain>, n: nat)
    requires order != []
    ensures RoundRobin(order, n + 1) == RoundRobin(order, n)[n := order[n % |order|]]
  {}

  lemma DivUnique(x: nat, k: nat, q: nat, r: nat)
    requires x == q * k + r && r < k
    ensures x / k == q && x % k == r
  {
    var e := x / k - q;
    assert x == (x / k) * k + x % k;
    assert e * k == (x / k) * k - q * k;
    MultipleBound(e, k);
  }

  lemma MultipleBound(e: int, k: int)
    requires k >= 0
    ensures e >= 1 ==> e * k >= k
    ensures e <= -1 ==> e * k <= -k
  {}

  lemma DivStep(n: nat, k: nat)
    requires k > 0
    ensures if n % k == k - 1 then (n + 1) / k == n / k + 1 && (n + 1) % k == 0
            else (n + 1) / k == n / k && (n + 1) % k == n % k + 1
  {
    var q := n / k;
    assert n == q * k + n % k;
    if n % k == k - 1 {
      assert n + 1 == (q + 1) * k + 0;
      DivUnique(n + 1, k, q + 1, 0);
    } else {
      DivUnique(n + 1, k, q, n % k + 1);
    }
  }

  /** How often a domain is dealt when n indexes go round the order: once for
      each time it is listed in every full round, and in what remains. */
  ghost function Share(order: seq<FailureDomain>, n: nat, d: FailureDomain): nat
    requires order != []
  {
    (n / |order|) * multiset(order)[d] + multiset(order[..n % |order|])[d]
  }

  lemma ShareStep(order: seq<FailureDomain>, n: nat, d: FailureDomain)
    requires order != []
    ensures Share(order, n + 1, d) == Share(order, n, d) + (if order[n % |order|] == d then 1 else 0)
  {
    var k, q, r := |order|, n / |order|, n % |order|;
    DivStep(n, k);
    assert order[..r + 1] == order[..r] + [order[r]];
    if r == k - 1 {
      assert order[..r + 1] == order;
      assert (q + 1) * multiset(order)[d] == q * multiset(order)[d] + multiset(order)[d];
    }
  }

  /** Every domain is dealt its share, whether or not domains are repeated. */
  lemma {:induction false} RoundRobinCount(order: seq<FailureDomain>, n: nat, d: FailureDomain)
    requires order != []
    ensures Count(RoundRobin(order, n), d) == Share(order, n, d)
  {
    if n == 0 {
      assert Holders(RoundRobin(order, 0), d) == {};
      DivUnique(0, |order|, 0, 0);
      assert 0 * multiset(order)[d] == 0;
    } else {
      RoundRobinCount(order, n - 1, d);
      RoundRobinStep(order, n - 1);
      CountUpdate(RoundRobin(order, n - 1), n - 1, order[(n - 1) % |order|], d);
      ShareStep(order, n - 1, d);
    }
  }

  /** The base mapping uses the first domains of the order, as many as there
      are indexes. */
  lemma RoundRobinValues(order: seq<FailureDomain>, n: nat)
    requires order != []
    ensures RoundRobin(order, n).Values == SetOf(order[..Min(n, |order|)])
    ensures Distinct(order) ==> |RoundRobin(order, n).Values| == Min(n, |order|)
  {
    var k := |order|;
    var base := RoundRobin(order, n);
    var first := order[..Min(n, k)];
    forall d ensures d in base.Values <==> d in SetOf(first) {
      if d in base.Values {
        var i := KeyOf(base, d);
        if i < k { DivUnique(i, k, 0, i); }
        assert first[i % k] == d;
      }
      if d in SetOf(first) {
        var i :| 0 <= i < |first| && first[i] == d;
        DivUnique(i, k, 0, i);
        assert base[i] == d;
      }
    }
    if Distinct(order) { DistinctSize(first); }
  }

  /** Balance of the base mapping, for any configured domains, repeated ones
      included: it is balanced if and only if no listed domain's share exceeds
      the number of indexes over the number of different domains dealt, rounded
      up. */
  lemma BaseBalancedIff(order: seq<FailureDomain>, n: nat)
    requires order != [] && n > 0
    ensures SetOf(order[..Min(n, |order|)]) != {}
    ensures BalancedBase(RoundRobin(order, n)) <==>
              forall d :: d in order ==> Share(order, n, d) <= CeilDiv(n, |SetOf(order[..Min(n, |order|)])|)
  {
    var base := RoundRobin(order, n);
    RoundRobinSize(order, n);
    RoundRobinValues(order, n);
    SomeValue(base);
    forall d ensures Count(base, d) == Share(order, n, d) && (d !in order ==> Count(base, d) == 0) {
      RoundRobinCount(order, n, d);
      CountPositive(base, d);
      assert forall x :: x in order[..Min(n, |order|)] ==> x in order;
    }
    assert MaxPerDomain(base) == CeilDiv(n, |SetOf(order[..Min(n, |order|)])|);
  }

  /** The largest share of a domain when n indexes are dealt to k domains. */
  function ShareLimit(n: nat, k: nat): nat
    requires n > 0 && k > 0
  {
    CeilDiv(n, Min(n, k))
  }

  lemma ShareLimitBounds(n: nat, k: nat)
    requires n > 0 && k > 0
    ensures n <= k ==> ShareLimit(n, k) == 1
    ensures n >= k ==> ShareLimit(n, k) == n / k + (if n % k > 0 then 1 else 0)
  {
    if n <= k {
      DivUnique(n + n - 1, n, 1, n - 1);
    }
    if n >= k {
      var q, r := n / k, n % k;
      assert n == q * k + r;
      if r > 0 {
        assert n + k - 1 == (q + 1) * k + (r - 1);
        DivUnique(n + k - 1, k, q + 1, r - 1);
      } else {
        DivUnique(n + k - 1, k, q, k - 1);
      }
    }
  }

  lemma EvenShare(n: nat, k: nat)
    requires n > 0 && k > 0 && n % k == 0
    ensures ShareLimit(n, k) == n / k && (n / k) * k == n
  {
    if n < k {
      DivUnique(n, k, 0, n);
    }
    ShareLimitBounds(n, k);
  }

  /** A domain listed once is in a prefix of the list at most once. */
  lemma ListedOnce(order: seq<FailureDomain>, r: nat, d: FailureDomain)
    requires Distinct(order) && r <= |order|
    ensures multiset(order)[d] <= 1
    ensures multiset(order[..r])[d] <= multiset(order)[d]
  {
    assert order == order[..r] + order[r..];
    MultiplicityOne(order, d);
  }

  lemma {:induction false} MultiplicityOne(order: seq<FailureDomain>, d: FailureDomain)
    requires Distinct(order)
    ensures multiset(order)[d] <= 1
  {
    if order != [] {
      var init, last := order[..|order| - 1], order[|order| - 1];
      assert order == init + [last];
      MultiplicityOne(init, d);
      if last == d { assert d !in init; }
    }
  }

  lemma AtMostOneTimes(q: nat, listed: nat)
    requires listed <= 1
    ensures q * listed <= q
  {
    if listed == 0 { assert q * listed == 0; } else { assert q * listed == q; }
  }

  lemma OnePerRound(n: nat, k: nat, listed: nat, left: nat)
    requires n > 0 && k > 0 && left <= listed <= 1 && (n % k == 0 ==> left == 0)
    ensures (n / k) * listed + left <= ShareLimit(n, k)
  {
    var q, r := n / k, n % k;
    AtMostOneTimes(q, listed);
    ShareLimitBounds(n, k);
    if n < k {
      DivUnique(n, k, 0, n);
      assert q * listed == 0;
    }
  }

  /** The share of a domain that is listed once at most. */
  lemma ShareBound(order: seq<FailureDomain>, n: nat, d: FailureDomain)
    requires Distinct(order) && order != [] && n > 0
    ensures Share(order, n, d) <= ShareLimit(n, |order|)
  {
    ListedOnce(order, n % |order|, d);
    OnePerRound(n, |order|, multiset(order)[d], multiset(order[..n % |order|])[d]);
  }

  /** With distinct domains the base mapping is balanced: the limit is the
      number of indexes over the number of domains in use, rounded up, and no
      domain exceeds it. */
  lemma RoundRobinBalanced(order: seq<FailureDomain>, n: nat)
    requires Distinct(order) && order != [] && n > 0
    ensures BalancedBase(RoundRobin(order, n))
    ensures MaxPerDomain(RoundRobin(order, n)) == ShareLimit(n, |order|)
  {
    RoundRobinSize(order, n);
    RoundRobinValues(order, n);
    BaseBalancedIff(order, n);
    forall d | d in order ensures Share(order, n, d) <= ShareLimit(n, |order|) {
      ShareBound(order, n, d);
    }
  }

  /** However few the indexes, every domain some machine is in has a place in
      the base mapping. */
  lemma PresentInBase(order: seq<FailureDomain>, machines: Mapping, n: nat, d: FailureDomain)
    requires Distinct(order) && PresentFirst(order, machines) && |machines| <= n
    requires d in order && d in machines.Values
    ensures d in RoundRobin(order, n).Values
  {
    RoundRobinValues(order, n);
    var j :| 0 <= j < |order| && order[j] == d;
    PresentUpTo(order, machines, j);
    assert order[..Min(n, |order|)][j] == d;
  }

  /** A domain some machine is in comes after no more than the others that some
      machine is in. */
  lemma PresentUpTo(order: seq<FailureDomain>, machines: Mapping, j: nat)
    requires Distinct(order) && PresentFirst(order, machines) && j < |order| && order[j] in machines.Values
    ensures j < |machines|
  {
    var upTo := order[..j + 1];
    DistinctSize(upTo);
    forall x | x in SetOf(upTo) ensures x in machines.Values {
      var i :| 0 <= i < |upTo| && upTo[i] == x;
    }
    SubsetSize(SetOf(upTo), machines.Values);
    ValuesAtMostKeys(machines);
  }

  lemma {:induction false} ValuesAtMostKeys(m: Mapping)
    ensures |m.Values| <= |m|
    decreases |m|
  {
    if m == map[] {
      assert m.Values == {};
    } else {
      var i := Pick(m.Keys);
      var rest := m - {i};
      assert |rest.Keys| == |m.Keys| - 1 by { assert rest.Keys == m.Keys - {i}; }
      ValuesAtMostKeys(rest);
      assert m.Values <= rest.Values + {m[i]} by {
        forall d | d in m.Values ensures d in rest.Values + {m[i]} {
          var k := KeyOf(m, d);
          if k != i { assert rest[k] == d; }
        }
      }
      SubsetSize(m.Values, rest.Values + {m[i]});
    }
  }
}
