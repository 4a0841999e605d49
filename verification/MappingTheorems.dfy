/** Guarantees of the reconciled mapping: conservation, coverage, exact counts
    per domain, balance, minimal movement and stability. */
module MappingTheorems {
  import opened Counting
  import opened FailureDomains
  import opened Mapping
  import opened MappingMatching

  ghost function AfterMatching(base: Mapping, machines: Mapping, deleting: set<int>): Progress
    requires |machines| <= |base|
  {
    Progress(machines, Unmatched(base, machines, deleting))
  }

  /** The deleting-only indexes of a domain do no harm if its other indexes
      suffice to fill its share. This holds when it has none. */
  ghost predicate HarmlessIn(base: Mapping, machines: Mapping, deleting: set<int>, d: FailureDomain) {
    Holders(machines, d) * deleting != {} ==> |Holders(machines, d) - deleting| >= Count(base, d)
  }

  ghost predicate DeletingHarmless(base: Mapping, machines: Mapping, deleting: set<int>) {
    forall d :: HarmlessIn(base, machines, deleting, d)
  }

  // ------------------------------------------------ conservation, coverage

  /** Conservation through matching, for any deleting indexes: per domain, the
      candidates left and the indexes matched make up the base mapping. Since
      unmatched indexes are exactly those with a candidate, no later step
      looks up a candidate that is not there. */
  lemma Conservation(base: Mapping, machines: Mapping, deleting: set<int>, d: FailureDomain)
    requires |machines| <= |base|
    ensures var cands := Unmatched(base, machines, deleting);
            && cands.Keys <= Candidates(base, machines).Keys
            && Candidates(base, machines).Keys <= cands.Keys + (machines.Keys - deleting)
            && Count(cands, d) + |Holders(machines, d) - cands.Keys| == Count(base, d)
  {
    CandidatesKeys(base, machines);
    var all := Candidates(base, machines);
    var cands := Unmatched(base, machines, deleting);
    MatchingKeys(machines, all, machines.Keys, deleting);
    MatchingConserves(machines, all, machines.Keys, deleting, d);
    ConsumedHolders(machines, all.Keys, cands.Keys, d);
    assert forall k :: k in all ==> k in cands || (k in machines && k !in deleting);
  }

  lemma ConsumedHolders(machines: Mapping, all: set<int>, left: set<int>, d: FailureDomain)
    requires machines.Keys <= all
    ensures (all - left) * Holders(machines, d) == Holders(machines, d) - left
  {}

  lemma WaitingCount(base: Mapping, machines: Mapping, deleting: set<int>, d: FailureDomain)
    requires |machines| <= |base|
    ensures var p := AfterMatching(base, machines, deleting);
            Count(p.cands, d) + Count(machines, d) == Count(base, d) + |Waiting(p, d)|
  {
    Conservation(base, machines, deleting, d);
    SplitSize(Holders(machines, d), Unmatched(base, machines, deleting).Keys);
  }

  lemma KnownAfterMatching(base: Mapping, machines: Mapping, deleting: set<int>)
    requires |machines| <= |base|
    ensures KnownCandidates(AfterMatching(base, machines, deleting), base)
    ensures forall i :: i in machines && i !in Unmatched(base, machines, deleting) ==> machines[i] in base.Values
  {
    var p := AfterMatching(base, machines, deleting);
    forall i | i in p.cands ensures p.cands[i] in base.Values {
      var d := p.cands[i];
      Conservation(base, machines, deleting, d);
      assert i in Holders(p.cands, d);
      CountPositive(base, d);
    }
    forall i | i in machines && i !in p.cands ensures machines[i] in base.Values {
      var d := machines[i];
      Conservation(base, machines, deleting, d);
      assert i in Holders(machines, d) - p.cands.Keys;
      CountPositive(base, d);
    }
  }

  /** For any deleting indexes the result has as many indexes as the base,
      every machine index among them, and assigns domains of the base only. */
  lemma ReconcileCovers(base: Mapping, machines: Mapping, deleting: set<int>)
    requires |machines| <= |base| && base != map[]
    ensures var r := Reconcile(base, machines, deleting);
            && r.Keys == Candidates(base, machines).Keys
            && |r| == |base|
            && machines.Keys <= r.Keys
            && r.Values <= base.Values
  {
    var p := AfterMatching(base, machines, deleting);
    var r := Reconcile(base, machines, deleting);
    Conservation(base, machines, deleting, Generic);
    CandidatesKeys(base, machines);
    KnownAfterMatching(base, machines, deleting);
    HandlingCovers(p, base, MaxPerDomain(base));
    assert r.Keys == machines.Keys + p.cands.Keys;
    SameSize(r, Candidates(base, machines));
    forall d | d in r.Values ensures d in base.Values {
      var i := KeyOf(r, d);
    }
  }

  lemma SameSize(a: Mapping, b: Mapping)
    requires a.Keys <= b.Keys && b.Keys <= a.Keys
    ensures a.Keys == b.Keys && |a| == |b|
  {
    assert |a| == |a.Keys| && |b| == |b.Keys|;
  }

  // ----------------------------------------------------------- exact counts

  /** After matching, a domain does not have both a candidate left and an
      unmatched holder, exactly when its deleting-only indexes are harmless. */
  lemma ExclusiveAfterMatching(base: Mapping, machines: Mapping, deleting: set<int>, d: FailureDomain)
    requires |machines| <= |base|
    ensures Exclusive(AfterMatching(base, machines, deleting), d) <==> HarmlessIn(base, machines, deleting, d)
  {
    var p := AfterMatching(base, machines, deleting);
    if Holders(machines, d) * deleting != {} {
      var i := Pick(Holders(machines, d) * deleting);
      DeletingIndexCandidates(base, machines, deleting, i);
      assert i in Waiting(p, d);
    } else if Waiting(p, d) != {} {
      var i := Pick(Waiting(p, d));
      assert i !in Holders(machines, d) * deleting;
      CandidatesKeys(base, machines);
      MatchingExhausts(machines, Candidates(base, machines), machines.Keys, deleting, i);
    }
  }

  lemma DeletingIndexCandidates(base: Mapping, machines: Mapping, deleting: set<int>, i: int)
    requires |machines| <= |base| && i in machines && i in deleting
    ensures var cands := Unmatched(base, machines, deleting);
            i in cands &&
            (Count(cands, machines[i]) == 0 <==> |Holders(machines, machines[i]) - deleting| >= Count(base, machines[i]))
  {
    var d := machines[i];
    var cands := Unmatched(base, machines, deleting);
    Conservation(base, machines, deleting, d);
    CandidatesKeys(base, machines);
    assert i in Candidates(base, machines);
    var live, matched := Holders(machines, d) - deleting, Holders(machines, d) - cands.Keys;
    assert matched <= live by {
      forall k | k in matched ensures k !in deleting {
        assert k in Candidates(base, machines);
      }
    }
    SubsetSize(matched, live);
    if matched != live {
      var k := Pick(live - matched);
      MatchingExhausts(machines, Candidates(base, machines), machines.Keys, deleting, k);
      assert Count(cands, d) == 0;
    }
  }

  /** The machine indexes of domain d that the result leaves in d. */
  ghost function Retained(machines: Mapping, r: Mapping, d: FailureDomain): set<int> {
    Holders(machines, d) * Holders(r, d)
  }

  /** The exact outcome for a domain with at least as many machines as its
      share of the base: the holders beyond the maximum give way, never below
      the share, and nobody else joins. */
  lemma CrowdedDomain(base: Mapping, machines: Mapping, deleting: set<int>, d: FailureDomain)
    requires |machines| <= |base| && base != map[] && HarmlessIn(base, machines, deleting, d)
    requires Count(machines, d) >= Count(base, d)
    ensures var r := Reconcile(base, machines, deleting);
            && Count(r, d) == (if d in base.Values
                               then Max(Count(base, d), Min(Count(machines, d), MaxPerDomain(base)))
                               else 0)
            && Retained(machines, r, d) == Holders(r, d)
  {
    var p := AfterMatching(base, machines, deleting);
    var r := Reconcile(base, machines, deleting);
    ExclusiveAfterMatching(base, machines, deleting, d);
    WaitingCount(base, machines, deleting, d);
    assert Count(p.cands, d) == 0;
    HandlingSheds(p, base, MaxPerDomain(base), d);
    CountPositive(base, d);
    KnownAfterMatching(base, machines, deleting);
    HandlingCovers(p, base, MaxPerDomain(base));
    CountPositive(p.cands, d);
    assert forall i :: i in p.cands ==> p.cands[i] in p.cands.Values;
    assert Holders(r, d) <= Holders(machines, d);
  }

  /** A domain with fewer machines than its share keeps them all and grows at
      most to that share. */
  lemma SparseDomain(base: Mapping, machines: Mapping, deleting: set<int>, d: FailureDomain)
    requires |machines| <= |base| && base != map[] && HarmlessIn(base, machines, deleting, d)
    requires Count(machines, d) < Count(base, d)
    ensures var r := Reconcile(base, machines, deleting);
            && Count(machines, d) <= Count(r, d) <= Count(base, d)
            && Retained(machines, r, d) == Holders(machines, d)
  {
    var p := AfterMatching(base, machines, deleting);
    var r := Reconcile(base, machines, deleting);
    ExclusiveAfterMatching(base, machines, deleting, d);
    WaitingCount(base, machines, deleting, d);
    assert Count(p.cands, d) > 0;
    HandlingGrows(p, base, MaxPerDomain(base), d);
    KnownAfterMatching(base, machines, deleting);
    HandlingCovers(p, base, MaxPerDomain(base));
    forall i | i in Holders(machines, d) ensures i in Holders(r, d) {
      assert i !in Waiting(p, d);
    }
  }

  /** Balance: no domain ends with more indexes than its share of the base or
      the balanced maximum, whichever is larger. */
  lemma Balance(base: Mapping, machines: Mapping, deleting: set<int>, d: FailureDomain)
    requires |machines| <= |base| && base != map[] && HarmlessIn(base, machines, deleting, d)
    ensures Count(Reconcile(base, machines, deleting), d) <= Max(Count(base, d), MaxPerDomain(base))
  {
    if Count(machines, d) >= Count(base, d) {
      CrowdedDomain(base, machines, deleting, d);
    } else {
      SparseDomain(base, machines, deleting, d);
    }
  }

  // ------------------------------------------------------- minimal movement

  /** No domain holds more of the base than the balanced maximum. */
  ghost predicate BalancedBase(base: Mapping) {
    base != map[] && forall d :: Count(base, d) <= MaxPerDomain(base)
  }

  /** The machine indexes that r moves to another domain. */
  ghost function Moved(machines: Mapping, r: Mapping): set<int>
    requires machines.Keys <= r.Keys
  {
    set i | i in machines && r[i] != machines[i]
  }

  /** How many machine indexes of d have to go: the excess over the maximum,
      or all of them if the base does not know d. */
  ghost function Surplus(machines: Mapping, known: set<FailureDomain>, max: nat, d: FailureDomain): nat {
    if d in known then (if Count(machines, d) > max then Count(machines, d) - max else 0)
    else Count(machines, d)
  }

  ghost function Surpluses(machines: Mapping, known: set<FailureDomain>, max: nat): FailureDomain -> nat {
    d => Surplus(machines, known, max, d)
  }

  /** The least number of machine indexes that must move. */
  ghost function Work(machines: Mapping, known: set<FailureDomain>, max: nat): nat {
    Sum(machines.Values, Surpluses(machines, known, max))
  }

  /** An alternative outcome: it covers the machine indexes, uses known domains
      only and keeps every domain within the maximum. */
  ghost predicate Admissible(machines: Mapping, known: set<FailureDomain>, max: nat, r: Mapping) {
    machines.Keys <= r.Keys && r.Values <= known && forall d :: Count(r, d) <= max
  }

  lemma MovedOfDomain(machines: Mapping, r: Mapping, d: FailureDomain)
    requires machines.Keys <= r.Keys
    ensures |Moved(machines, r) * Holders(machines, d)| == Count(machines, d) - |Retained(machines, r, d)|
  {
    var moved := Moved(machines, r) * Holders(machines, d);
    assert Holders(machines, d) == moved + Retained(machines, r, d);
  }

  /** Moved indexes, domain by domain. */
  lemma MovedSum(machines: Mapping, r: Mapping)
    requires machines.Keys <= r.Keys
    ensures Sum(machines.Values, GroupSize(machines, Moved(machines, r))) == |Moved(machines, r)|
  {
    forall i | i in Moved(machines, r) ensures machines[i] in machines.Values {}
    SumOfGroups(machines, Moved(machines, r), machines.Values);
  }

  lemma ReconcileSurplus(base: Mapping, machines: Mapping, deleting: set<int>, d: FailureDomain)
    requires |machines| <= |base| && BalancedBase(base) && HarmlessIn(base, machines, deleting, d)
    ensures machines.Keys <= Reconcile(base, machines, deleting).Keys
    ensures |Moved(machines, Reconcile(base, machines, deleting)) * Holders(machines, d)|
            == Surplus(machines, base.Values, MaxPerDomain(base), d)
  {
    ReconcileCovers(base, machines, deleting);
    MovedOfDomain(machines, Reconcile(base, machines, deleting), d);
    CountPositive(base, d);
    if Count(machines, d) >= Count(base, d) {
      CrowdedDomain(base, machines, deleting, d);
    } else {
      SparseDomain(base, machines, deleting, d);
    }
  }

  /** The result moves exactly the surplus of every domain. */
  lemma ExactMovement(base: Mapping, machines: Mapping, deleting: set<int>)
    requires |machines| <= |base| && BalancedBase(base) && DeletingHarmless(base, machines, deleting)
    ensures machines.Keys <= Reconcile(base, machines, deleting).Keys
    ensures |Moved(machines, Reconcile(base, machines, deleting))|
            == Work(machines, base.Values, MaxPerDomain(base))
  {
    var r := Reconcile(base, machines, deleting);
    ReconcileCovers(base, machines, deleting);
    MovedSum(machines, r);
    forall d | d in machines.Values
      ensures GroupSize(machines, Moved(machines, r))(d) == Surpluses(machines, base.Values, MaxPerDomain(base))(d)
    {
      ReconcileSurplus(base, machines, deleting, d);
    }
    SumMonotone(machines.Values, GroupSize(machines, Moved(machines, r)),
                Surpluses(machines, base.Values, MaxPerDomain(base)));
  }

  /** No admissible outcome moves fewer. */
  lemma MovementLowerBound(machines: Mapping, known: set<FailureDomain>, max: nat, r: Mapping)
    requires Admissible(machines, known, max, r)
    ensures Work(machines, known, max) <= |Moved(machines, r)|
  {
    MovedSum(machines, r);
    forall d | d in machines.Values
      ensures Surpluses(machines, known, max)(d) <= GroupSize(machines, Moved(machines, r))(d)
    {
      MovedOfDomain(machines, r, d);
      SubsetSize(Retained(machines, r, d), Holders(r, d));
      CountPositive(r, d);
    }
    SumMonotone(machines.Values, Surpluses(machines, known, max), GroupSize(machines, Moved(machines, r)));
  }

  /** Minimal movement: the result is admissible, and among all admissible
      outcomes none moves fewer machine indexes. */
  lemma MinimalMovement(base: Mapping, machines: Mapping, deleting: set<int>, other: Mapping)
    requires |machines| <= |base| && BalancedBase(base) && DeletingHarmless(base, machines, deleting)
    requires Admissible(machines, base.Values, MaxPerDomain(base), other)
    ensures var r := Reconcile(base, machines, deleting);
            Admissible(machines, base.Values, MaxPerDomain(base), r) &&
            |Moved(machines, r)| <= |Moved(machines, other)|
  {
    ExactMovement(base, machines, deleting);
    MovementLowerBound(machines, base.Values, MaxPerDomain(base), other);
    ReconcileCovers(base, machines, deleting);
    forall d ensures Count(Reconcile(base, machines, deleting), d) <= MaxPerDomain(base) {
      Balance(base, machines, deleting, d);
    }
  }

  // -------------------------------------------------------------- fixpoint

  lemma {:induction false} HandlingRests(p: Progress, base: Mapping, max: nat)
    requires forall i :: i in p.cands ==> !Yields(p.out, base, max, i)
    ensures HandleAll(p, base, max) == p.out
    decreases p.cands.Keys
  {
    if p.cands.Keys != {} {
      var i := Least(p.cands.Keys);
      var next := HandleOne(p, base, max, i);
      assert next.cands.Keys == p.cands.Keys - {i};
      HandlingRests(next, base, max);
    }
  }

  /** Fixpoint: a mapping with as many indexes as the base, base domains only
      and no domain above the maximum is returned as it is, whatever indexes
      are deleting. */
  lemma Fixpoint(base: Mapping, machines: Mapping, deleting: set<int>)
    requires |machines| == |base| && base != map[]
    requires machines.Values <= base.Values
    requires forall d :: Count(machines, d) <= MaxPerDomain(base)
    ensures Reconcile(base, machines, deleting) == machines
  {
    var cands := Unmatched(base, machines, deleting);
    Conservation(base, machines, deleting, Generic);
    CandidatesKeys(base, machines);
    var all := Candidates(base, machines);
    assert |all.Keys| == |machines.Keys|;
    SubsetSize(machines.Keys, all.Keys);
    forall i | i in cands ensures !Yields(machines, base, MaxPerDomain(base), i) {
      assert i in all;
      assert machines[i] in machines.Values;
    }
    HandlingRests(Progress(machines, cands), base, MaxPerDomain(base));
  }

  // ------------------------------------------- deleting-only indexes matter

  /** Balance needs the premise on deleting indexes: with domains a, b, c for
      three replicas and machines in b at index 0 (deleting) and in a at index
      2, the index 1 also gets b although c is free. The domain kept at index
      0 was accepted without using up a candidate of its own. */
  lemma DeletingIndexUnbalances(a: FailureDomain, b: FailureDomain, c: FailureDomain)
    requires a != b && b != c && a != c
    ensures var base: Mapping := map[0 := a, 1 := b, 2 := c];
            var machines: Mapping := map[0 := b, 2 := a];
            && |machines| <= |base|
            && BalancedBase(base)
            && Reconcile(base, machines, {0}) == map[0 := b, 1 := b, 2 := a]
            && Count(Reconcile(base, machines, {0}), b) > Max(Count(base, b), MaxPerDomain(base))
  {
    var base: Mapping := map[0 := a, 1 := b, 2 := c];
    var machines: Mapping := map[0 := b, 2 := a];
    DeletingExampleBase(a, b, c);
    assert machines.Keys == {0, 2};
    assert |machines.Keys| == 2;
    DeletingExampleMatching(a, b, c);
    DeletingExampleHandling(a, b, c);
    var r: Mapping := map[0 := b, 1 := b, 2 := a];
    assert Holders(r, b) == {0, 1};
  }

  lemma DeletingExampleMatching(a: FailureDomain, b: FailureDomain, c: FailureDomain)
    requires a != b && b != c && a != c
    requires |map[0 := b, 2 := a]| <= |map[0 := a, 1 := b, 2 := c]|
    ensures Unmatched(map[0 := a, 1 := b, 2 := c], map[0 := b, 2 := a], {0}) == map[0 := c, 1 := b]
  {
    var base: Mapping := map[0 := a, 1 := b, 2 := c];
    var machines: Mapping := map[0 := b, 2 := a];
    var cands: Mapping := map[0 := c, 1 := b];
    assert base.Keys - machines.Keys == {1} && machines.Keys - base.Keys == {};
    assert Candidates(base, machines) == base;
    assert machines.Keys == {0, 2};
    assert Least({0, 2}) == 0 && {0, 2} - {0} == {2};
    assert Least({2}) == 2 && {2} - {2} == {};
    assert Holders(base, a) == {0} && Least({0}) == 0;
    assert MatchOne(base, 2, a) == base[0 := c] - {2} == cands;
    assert MatchAll(machines, cands, {}, {0}) == cands;
    assert MatchAll(machines, base, {2}, {0}) == cands;
    assert MatchAll(machines, base, {0, 2}, {0}) == cands;
  }

  lemma DeletingExampleHandling(a: FailureDomain, b: FailureDomain, c: FailureDomain)
    requires a != b && b != c && a != c
    ensures HandleAll(Progress(map[0 := b, 2 := a], map[0 := c, 1 := b]), map[0 := a, 1 := b, 2 := c], 1)
            == map[0 := b, 1 := b, 2 := a]
  {
    var base: Mapping := map[0 := a, 1 := b, 2 := c];
    var machines: Mapping := map[0 := b, 2 := a];
    var p0 := Progress(machines, map[0 := c, 1 := b]);
    var p1 := Progress(machines, map[1 := b]);
    var p2 := Progress(machines[1 := b], map[]);
    assert p0.cands.Keys == {0, 1} && Least({0, 1}) == 0;
    assert Holders(machines, b) == {0};
    assert b in base.Values by { assert base[1] == b; }
    assert p0.cands - {0} == p1.cands;
    assert HandleOne(p0, base, 1, 0) == p1;
    assert p1.cands.Keys == {1} && Least({1}) == 1;
    assert p1.cands - {1} == p2.cands;
    assert HandleOne(p1, base, 1, 1) == p2;
    assert HandleAll(p2, base, 1) == p2.out;
    assert HandleAll(p1, base, 1) == p2.out;
    assert HandleAll(p0, base, 1) == p2.out;
  }

  lemma DeletingExampleBase(a: FailureDomain, b: FailureDomain, c: FailureDomain)
    requires a != b && b != c && a != c
    ensures var base: Mapping := map[0 := a, 1 := b, 2 := c];
            |base| == 3 && base != map[] && MaxPerDomain(base) == 1 && forall d :: Count(base, d) <= 1
  {
    var base: Mapping := map[0 := a, 1 := b, 2 := c];
    assert base.Keys == {0, 1, 2};
    assert |base.Keys| == 3;
    assert base[0] == a && base[1] == b && base[2] == c;
    assert base.Values == {a, b, c};
    assert |{a, b, c}| == 3;
    forall d ensures Count(base, d) <= 1 {
      assert Holders(base, d) == if d == a then {0} else if d == b then {1} else if d == c then {2} else {};
    }
  }
}
