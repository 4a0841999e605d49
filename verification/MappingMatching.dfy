/** What matching and the handling of unmatched indexes do to the number of
    indexes each failure domain holds. */
module MappingMatching {
  import opened Counting
  import opened FailureDomains
  import opened Mapping

  // --------------------------------------------------------------- matching

  /** Looking at index i consumes a candidate with its domain if there is one
      and i is not deleting. */
  ghost predicate Matches(machines: Mapping, cands: Mapping, i: int, deleting: set<int>)
    requires i in machines
  {
    i !in deleting && Count(cands, machines[i]) > 0
  }

  lemma NextKeys(machines: Mapping, cands: Mapping, i: int, deleting: set<int>)
    requires i in machines && i in cands
    ensures var next := NextCandidates(machines, cands, i, deleting);
            if Matches(machines, cands, i, deleting) then next.Keys == cands.Keys - {i} else next == cands
  {
    var same := Holders(cands, machines[i]);
    if same != {} {
      assert (cands[Least(same) := cands[i]] - {i}).Keys == cands.Keys - {i};
    }
  }

  lemma NextCounts(machines: Mapping, cands: Mapping, i: int, deleting: set<int>, d: FailureDomain)
    requires i in machines && i in cands
    ensures Count(NextCandidates(machines, cands, i, deleting), d)
         == Count(cands, d) - (if Matches(machines, cands, i, deleting) && d == machines[i] then 1 else 0)
  {
    var same := Holders(cands, machines[i]);
    if same != {} {
      var j := Least(same);
      CountUpdate(cands, j, cands[i], d);
      CountRemove(cands[j := cands[i]], i, d);
    }
  }

  /** Matching consumes candidates at the machine indexes that are not
      deleting, and at no other index. */
  lemma {:induction false} MatchingKeys(machines: Mapping, cands: Mapping, todo: set<int>, deleting: set<int>)
    requires todo <= machines.Keys && todo <= cands.Keys
    ensures var rest := MatchAll(machines, cands, todo, deleting);
            rest.Keys <= cands.Keys &&
            forall k :: k in cands ==> k in rest || (k in todo && k !in deleting)
    decreases todo
  {
    if todo != {} {
      var i := Least(todo);
      NextKeys(machines, cands, i, deleting);
      var next := NextCandidates(machines, cands, i, deleting);
      MatchingKeys(machines, next, todo - {i}, deleting);
      forall k | k in cands ensures k in MatchAll(machines, next, todo - {i}, deleting) || (k in todo && k !in deleting) {
        assert k in next || k == i;
      }
    }
  }

  lemma ConsumedGroup(before: set<int>, after: set<int>, rest: set<int>, i: int, group: set<int>)
    requires i in before && after == before - {i} && rest <= after
    ensures |(before - rest) * group| == |(after - rest) * group| + (if i in group then 1 else 0)
  {
    assert (before - rest) * group == (after - rest) * group + (if i in group then {i} else {});
  }

  lemma ConservedStep(machines: Mapping, cands: Mapping, i: int, deleting: set<int>, rest: Mapping, d: FailureDomain)
    requires i in machines && i in cands
    requires var next := NextCandidates(machines, cands, i, deleting);
             rest.Keys <= next.Keys &&
             Count(rest, d) + |(next.Keys - rest.Keys) * Holders(machines, d)| == Count(next, d)
    ensures Count(rest, d) + |(cands.Keys - rest.Keys) * Holders(machines, d)| == Count(cands, d)
  {
    NextKeys(machines, cands, i, deleting);
    NextCounts(machines, cands, i, deleting, d);
    if Matches(machines, cands, i, deleting) {
      ConsumedGroup(cands.Keys, cands.Keys - {i}, rest.Keys, i, Holders(machines, d));
    }
  }

  /** Conservation while matching, whatever indexes are deleting: for every
      domain, the candidates left plus the indexes matched in that domain are
      the candidates there were. */
  lemma {:induction false} MatchingConserves(machines: Mapping, cands: Mapping, todo: set<int>, deleting: set<int>, d: FailureDomain)
    requires todo <= machines.Keys && todo <= cands.Keys
    ensures var rest := MatchAll(machines, cands, todo, deleting);
            Count(rest, d) + |(cands.Keys - rest.Keys) * Holders(machines, d)| == Count(cands, d)
    decreases todo
  {
    if todo == {} {
      assert (cands.Keys - cands.Keys) * Holders(machines, d) == {};
    } else {
      var i := Least(todo);
      var next := NextCandidates(machines, cands, i, deleting);
      NextKeys(machines, cands, i, deleting);
      MatchingConserves(machines, next, todo - {i}, deleting, d);
      MatchingKeys(machines, next, todo - {i}, deleting);
      ConservedStep(machines, cands, i, deleting, MatchAll(machines, cands, todo, deleting), d);
    }
  }

  /** A machine index that is not deleting stays unmatched only if no candidate
      with its domain is left. */
  lemma {:induction false} MatchingExhausts(machines: Mapping, cands: Mapping, todo: set<int>, deleting: set<int>, k: int)
    requires todo <= machines.Keys && todo <= cands.Keys
    requires k in todo && k !in deleting
    ensures var rest := MatchAll(machines, cands, todo, deleting);
            k in rest ==> Count(rest, machines[k]) == 0
    decreases todo
  {
    var i := Least(todo);
    var next := NextCandidates(machines, cands, i, deleting);
    NextKeys(machines, cands, i, deleting);
    NextCounts(machines, cands, i, deleting, machines[k]);
    MatchingKeys(machines, next, todo - {i}, deleting);
    if i == k {
      MatchingConserves(machines, next, todo - {i}, deleting, machines[k]);
    } else {
      MatchingExhausts(machines, next, todo - {i}, deleting, k);
    }
  }

  // --------------------------------------------------- unmatched indexes

  ghost predicate KnownCandidates(p: Progress, base: Mapping) {
    forall i :: i in p.cands ==> p.cands[i] in base.Values
  }

  /** Handling the unmatched indexes gives each of them a domain of the base
      and leaves the matched ones alone. An index that held something either
      keeps it or takes its own candidate. */
  lemma {:induction false} HandlingCovers(p: Progress, base: Mapping, max: nat)
    requires KnownCandidates(p, base)
    ensures var r := HandleAll(p, base, max);
            r.Keys == p.out.Keys + p.cands.Keys &&
            (forall i :: i in p.cands ==> r[i] in base.Values) &&
            (forall i :: i in p.out && i !in p.cands ==> r[i] == p.out[i]) &&
            forall i :: i in p.cands ==> (i in p.out && r[i] == p.out[i]) || r[i] == p.cands[i]
    decreases p.cands.Keys
  {
    if p.cands.Keys != {} {
      var i := Least(p.cands.Keys);
      var next := HandleOne(p, base, max, i);
      assert next.cands.Keys == p.cands.Keys - {i};
      HandlingCovers(next, base, max);
    }
  }

  /** The unmatched indexes that hold d. */
  ghost function Waiting(p: Progress, d: FailureDomain): set<int> {
    Holders(p.out, d) * p.cands.Keys
  }

  /** The domain does not have both a candidate left and an unmatched index
      holding it. */
  ghost predicate Exclusive(p: Progress, d: FailureDomain) {
    Count(p.cands, d) == 0 || Waiting(p, d) == {}
  }

  /** How one step changes, for domain d, the indexes held, the candidates
      left and the unmatched holders. */
  lemma HandleOneCounts(p: Progress, base: Mapping, max: nat, i: int, d: FailureDomain)
    requires i in p.cands
    ensures var next := HandleOne(p, base, max, i);
            var moves := Yields(p.out, base, max, i);
            var held := i in p.out && p.out[i] == d;
            Count(next.out, d) == Count(p.out, d)
                                  - (if moves && held then 1 else 0)
                                  + (if moves && p.cands[i] == d then 1 else 0) &&
            Count(next.cands, d) == Count(p.cands, d) - (if p.cands[i] == d then 1 else 0) &&
            |Waiting(next, d)| == |Waiting(p, d)| - (if held then 1 else 0)
  {
    var next := HandleOne(p, base, max, i);
    CountUpdate(p.out, i, p.cands[i], d);
    CountRemove(p.cands, i, d);
    assert Waiting(next, d) == Waiting(p, d) - {i};
  }

  /** One step, for a domain that has no candidate left. */
  lemma ShedStep(p: Progress, base: Mapping, max: nat, i: int, d: FailureDomain)
    requires Count(p.cands, d) == 0 && i in p.cands
    ensures var next := HandleOne(p, base, max, i);
            var held := i in p.out && p.out[i] == d;
            Count(next.cands, d) == 0 &&
            Count(next.out, d) == Count(p.out, d) - (if held && Yields(p.out, base, max, i) then 1 else 0) &&
            |Waiting(next, d)| == |Waiting(p, d)| - (if held then 1 else 0)
  {
    HandleOneCounts(p, base, max, i, d);
    CountPositive(p.cands, d);
    assert p.cands[i] in p.cands.Values;
  }

  /** What is left of so many holders: those beyond the maximum give way, as
      many as are waiting; all that are waiting do if the domain is unknown. */
  function Remaining(held: nat, waiting: nat, max: nat, known: bool): int {
    if known then Max(if held < waiting then 0 else held - waiting, Min(held, max)) else held - waiting
  }

  /** The final number of indexes of a domain that has no candidate left. */
  lemma {:induction false} HandlingSheds(p: Progress, base: Mapping, max: nat, d: FailureDomain)
    requires Count(p.cands, d) == 0
    ensures Count(p.out, d) >= |Waiting(p, d)|
    ensures Count(HandleAll(p, base, max), d) == Remaining(Count(p.out, d), |Waiting(p, d)|, max, d in base.Values)
    decreases p.cands.Keys
  {
    SubsetSize(Waiting(p, d), Holders(p.out, d));
    if p.cands.Keys == {} {
      assert Waiting(p, d) == {};
    } else {
      var i := Least(p.cands.Keys);
      var next := HandleOne(p, base, max, i);
      assert next.cands.Keys == p.cands.Keys - {i};
      ShedStep(p, base, max, i, d);
      HandlingSheds(next, base, max, d);
    }
  }

  /** A domain with candidates left only grows, by at most those. */
  lemma {:induction false} HandlingGrows(p: Progress, base: Mapping, max: nat, d: FailureDomain)
    requires Waiting(p, d) == {}
    ensures Count(p.out, d) <= Count(HandleAll(p, base, max), d) <= Count(p.out, d) + Count(p.cands, d)
    decreases p.cands.Keys
  {
    if p.cands.Keys != {} {
      var i := Least(p.cands.Keys);
      var next := HandleOne(p, base, max, i);
      assert next.cands.Keys == p.cands.Keys - {i};
      HandleOneCounts(p, base, max, i, d);
      assert i in p.out && p.out[i] == d ==> i in Waiting(p, d);
      HandlingGrows(next, base, max, d);
    }
  }
}
