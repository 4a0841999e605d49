/** Which indexes the reconciled mapping changes, and what they get: where the
    candidates lie, which machine indexes are matched, and which give way. */
module MappingPlaces {
  import opened Counting
  import opened FailureDomains
  import opened Mapping
  import opened MappingMatching
  import opened MappingTheorems

  // ------------------------------------------------------------ re-indexing

  /** How many elements of a set are below x. */
  function Rank(s: set<int>, x: int): nat {
    |set z | z in s && z < x|
  }

  lemma RankOfLeast(s: set<int>, x: int)
    requires x in s
    ensures Rank(s, x) == 0 <==> x == Least(s)
  {
    var below := set z | z in s && z < x;
    if x != Least(s) { assert Least(s) in below; }
    if x == Least(s) { assert below == {}; }
  }

  lemma RankWithout(s: set<int>, x: int)
    requires x in s && x != Least(s)
    ensures Rank(s, x) == Rank(s - {Least(s)}, x) + 1
  {
    var below := set z | z in s && z < x;
    assert (set z | z in s - {Least(s)} && z < x) == below - {Least(s)};
  }

  lemma {:induction false} MoveIndexesKeeps(m: Mapping, from: set<int>, to: set<int>, j: int)
    requires from <= m.Keys && to !! m.Keys && j in m && j !in from
    ensures j in MoveIndexes(m, from, to) && MoveIndexes(m, from, to)[j] == m[j]
    decreases from
  {
    if from != {} && to != {} {
      var x, y := Least(from), Least(to);
      MoveIndexesKeeps(m[y := m[x]] - {x}, from - {x}, to - {y}, j);
    }
  }

  /** Re-indexing keeps the order: the entry at the n-th lowest spare index goes
      to the n-th lowest new one. */
  lemma {:induction false} MoveIndexesInOrder(m: Mapping, from: set<int>, to: set<int>, x: int, y: int)
    requires from <= m.Keys && to !! m.Keys && x in from && y in to && Rank(from, x) == Rank(to, y)
    ensures y in MoveIndexes(m, from, to) && MoveIndexes(m, from, to)[y] == m[x]
    decreases from
  {
    var x0, y0 := Least(from), Least(to);
    var next := m[y0 := m[x0]] - {x0};
    RankOfLeast(from, x);
    RankOfLeast(to, y);
    if x == x0 {
      MoveIndexesKeeps(next, from - {x0}, to - {y0}, y0);
    } else {
      RankWithout(from, x);
      RankWithout(to, y);
      MoveIndexesInOrder(next, from - {x0}, to - {y0}, x, y);
    }
  }

  // -------------------------------------------------- matching, step by step

  /** Where the candidates of each domain lie after a machine index i with
      domain d has been matched: the lowest candidate of d is used up. If it is
      not the one at i, the candidate at i takes its place. */
  lemma MatchedHolders(machines: Mapping, cands: Mapping, i: int, deleting: set<int>, f: FailureDomain)
    requires i in machines && i in cands && i !in deleting && Holders(cands, machines[i]) != {}
    ensures var d, at := machines[i], Holders(cands, f);
            var x := Least(Holders(cands, d));
            Holders(NextCandidates(machines, cands, i, deleting), f)
            == if cands[i] == d then at - {i}
               else if f == d then at - {x}
               else if f == cands[i] then at - {i} + {x}
               else at
  {}

  /** A step of matching, told without the algorithm: an index that is deleting,
      or whose domain no candidate has, changes nothing. Otherwise its entry
      goes, and the lowest candidate of its domain takes over what was there. */
  ghost predicate IsMatchStep(machines: Mapping, before: Mapping, i: int, deleting: set<int>, after: Mapping)
    requires i in machines && i in before
  {
    if i in deleting || machines[i] !in before.Values then after == before
    else
      exists x :: x in before && before[x] == machines[i] && (forall k :: k in before && before[k] == machines[i] ==> x <= k) &&
        after.Keys == before.Keys - {i} &&
        forall k :: k in after ==> after[k] == if k == x then before[i] else before[k]
  }

  lemma NextIsMatchStep(machines: Mapping, before: Mapping, i: int, deleting: set<int>, after: Mapping)
    requires i in machines && i in before && IsMatchStep(machines, before, i, deleting, after)
    ensures after == NextCandidates(machines, before, i, deleting)
  {
    var d := machines[i];
    var next := NextCandidates(machines, before, i, deleting);
    CountPositive(before, d);
    if i !in deleting && d in before.Values {
      var x :| x in before && before[x] == d && (forall k :: k in before && before[k] == d ==> x <= k) &&
        after.Keys == before.Keys - {i} &&
        forall k :: k in after ==> after[k] == if k == x then before[i] else before[k];
      assert x in Holders(before, d);
      assert Least(Holders(before, d)) == x;
      MatchNextKeys(machines, before, i, deleting);
      NextKeys(machines, before, i, deleting);
      SameMap(next, after);
    } else if i !in deleting {
      assert Holders(before, d) == {};
    }
  }

  /** A run of such steps over the machine indexes in ascending order. */
  ghost predicate IsMatching(machines: Mapping, states: seq<Mapping>, todo: set<int>, deleting: set<int>)
    decreases todo
  {
    if todo == {} then |states| == 1
    else
      var i := Least(todo);
      |states| > 1 && i in machines && i in states[0] &&
      IsMatchStep(machines, states[0], i, deleting, states[1]) &&
      IsMatching(machines, states[1..], todo - {i}, deleting)
  }

  /** Every such run ends in the same candidates, those of the algorithm. */
  lemma {:induction false} MatchingIsDetermined(machines: Mapping, states: seq<Mapping>, todo: set<int>, deleting: set<int>)
    requires states != [] && todo <= machines.Keys && todo <= states[0].Keys
    requires IsMatching(machines, states, todo, deleting)
    ensures states[|states| - 1] == MatchAll(machines, states[0], todo, deleting)
    decreases todo
  {
    if todo != {} {
      var i := Least(todo);
      NextIsMatchStep(machines, states[0], i, deleting, states[1]);
      MatchNextKeys(machines, states[0], i, deleting);
      MatchingIsDetermined(machines, states[1..], todo - {i}, deleting);
    }
  }

  // -------------------------------------------- which candidates are used up

  lemma LowestOneMore(s: set<int>, n: nat)
    requires s != {} && n > 0
    ensures Lowest(s, n) == {Least(s)} + Lowest(s - {Least(s)}, n - 1)
  {}

  lemma HoldersLeft(machines: Mapping, cands: Mapping, i: int, deleting: set<int>, todo: set<int>, d: FailureDomain)
    requires i in todo && todo <= machines.Keys && todo <= cands.Keys && Holders(cands, d) !! todo
    ensures var held := Holders(cands, d);
            Holders(NextCandidates(machines, cands, i, deleting), d)
            == if i !in deleting && machines[i] == d && held != {} then held - {Least(held)} else held
  {
    if i !in deleting && Holders(cands, machines[i]) != {} {
      assert i !in Holders(cands, d);
      MatchedHolders(machines, cands, i, deleting, d);
    }
  }

  /** A domain whose candidates all lie at indexes to which matching does not
      come loses the lowest of them, one for each machine index of that domain
      that is not deleting; the others stay where they are. */
  lemma {:induction false} LowestUsedUp(machines: Mapping, cands: Mapping, todo: set<int>, deleting: set<int>, d: FailureDomain)
    requires todo <= machines.Keys && todo <= cands.Keys && Holders(cands, d) !! todo
    ensures var held := Holders(cands, d);
            Holders(MatchAll(machines, cands, todo, deleting), d)
            == held - Lowest(held, |todo * Holders(machines, d) - deleting|)
    decreases todo
  {
    var held := Holders(cands, d);
    if todo == {} {
      assert todo * Holders(machines, d) - deleting == {};
    } else {
      var i := Least(todo);
      var next := NextCandidates(machines, cands, i, deleting);
      MatchNextKeys(machines, cands, i, deleting);
      HoldersLeft(machines, cands, i, deleting, todo, d);
      LowestUsedUp(machines, next, todo - {i}, deleting, d);
      UsedUpStep(held, todo * Holders(machines, d) - deleting, (todo - {i}) * Holders(machines, d) - deleting,
                 i !in deleting && machines[i] == d, i);
    }
  }

  lemma UsedUpStep(held: set<int>, users: set<int>, rest: set<int>, uses: bool, i: int)
    requires if uses then i in users && rest == users - {i} else rest == users
    ensures var left := if uses && held != {} then held - {Least(held)} else held;
            left - Lowest(left, |rest|) == held - Lowest(held, |users|)
  {
    if uses && held != {} {
      LowestOneMore(held, |users|);
    }
  }

  // ------------------------------------------- which machine indexes match

  /** Of the machine indexes of a domain that are not deleting the lowest are
      matched, as many as the domain has candidates. */
  lemma {:induction false} LowestMatched(machines: Mapping, cands: Mapping, todo: set<int>, deleting: set<int>, d: FailureDomain)
    requires todo <= machines.Keys && todo <= cands.Keys
    ensures var live := todo * Holders(machines, d) - deleting;
            todo * Holders(machines, d) - MatchAll(machines, cands, todo, deleting).Keys == Lowest(live, Count(cands, d))
    decreases todo
  {
    if todo == {} {
      assert todo * Holders(machines, d) - deleting == {};
    } else {
      var i := Least(todo);
      var next := NextCandidates(machines, cands, i, deleting);
      var rest := MatchAll(machines, next, todo - {i}, deleting);
      NextKeys(machines, cands, i, deleting);
      NextCounts(machines, cands, i, deleting, d);
      MatchingKeys(machines, next, todo - {i}, deleting);
      LowestMatched(machines, next, todo - {i}, deleting, d);
      assert i in rest <==> i in next;
      MatchedStep(todo, Holders(machines, d), deleting, rest.Keys, i, Count(cands, d), Count(next, d));
    }
  }

  lemma StaysOut(todo: set<int>, group: set<int>, rest: set<int>, i: int)
    requires i in todo && (i in group ==> i in rest)
    ensures todo * group - rest == (todo - {i}) * group - rest
  {}

  lemma ComesIn(todo: set<int>, group: set<int>, rest: set<int>, i: int)
    requires i in todo && i in group && i !in rest
    ensures todo * group - rest == {i} + ((todo - {i}) * group - rest)
  {}

  lemma FirstLive(todo: set<int>, group: set<int>, deleting: set<int>)
    requires todo != {} && Least(todo) in group && Least(todo) !in deleting
    ensures var live := todo * group - deleting;
            live != {} && Least(live) == Least(todo) && live - {Least(todo)} == (todo - {Least(todo)}) * group - deleting
  {
    var live := todo * group - deleting;
    assert Least(todo) in live;
    assert Least(live) in todo;
  }

  lemma MatchedStep(todo: set<int>, group: set<int>, deleting: set<int>, rest: set<int>, i: int, n: nat, n': nat)
    requires todo != {} && i == Least(todo)
    requires var matches := i in group && i !in deleting && n > 0;
             (if matches then n' == n - 1 && i !in rest else n' == n) &&
             (i in group && !matches ==> i in rest)
    requires (todo - {i}) * group - rest == Lowest((todo - {i}) * group - deleting, n')
    ensures todo * group - rest == Lowest(todo * group - deleting, n)
  {
    if i in group && i !in deleting {
      FirstLive(todo, group, deleting);
      if n > 0 {
        LowestOneMore(todo * group - deleting, n);
        ComesIn(todo, group, rest, i);
      } else {
        StaysOut(todo, group, rest, i);
      }
    } else {
      assert todo * group - deleting == (todo - {i}) * group - deleting;
      StaysOut(todo, group, rest, i);
    }
  }

  // --------------------------------------------- which unmatched ones yield

  /** Of the unmatched indexes holding a domain that has no candidate left the
      lowest give way: as many as the domain has above the maximum, or all of
      them if the base does not know it. */
  lemma {:induction false} LowestYield(p: Progress, base: Mapping, max: nat, d: FailureDomain)
    requires Count(p.cands, d) == 0
    ensures Holders(HandleAll(p, base, max), d)
         == Holders(p.out, d) - Lowest(Waiting(p, d), Excess(Count(p.out, d), max, d in base.Values))
    decreases p.cands.Keys
  {
    if p.cands.Keys == {} {
      assert Waiting(p, d) == {};
    } else {
      var i := Least(p.cands.Keys);
      var next := HandleOne(p, base, max, i);
      assert next.cands.Keys == p.cands.Keys - {i};
      ShedStep(p, base, max, i, d);
      LowestYield(next, base, max, d);
      YieldHolders(p, base, max, i, d);
      if i !in Waiting(p, d) {
        assert Waiting(p, d) - {i} == Waiting(p, d);
      } else if d !in base.Values || Count(p.out, d) > max {
        YieldGoes(Holders(p.out, d), Waiting(p, d), Count(p.out, d), Count(next.out, d), max, d in base.Values);
      } else {
        YieldStays(Holders(p.out, d), Waiting(p, d));
        YieldStays(Holders(p.out, d), Waiting(p, d) - {i});
      }
    }
  }

  /** How many indexes of a domain are too many. */
  function Excess(held: nat, max: nat, known: bool): nat {
    if !known then held else if held > max then held - max else 0
  }

  lemma YieldHolders(p: Progress, base: Mapping, max: nat, i: int, d: FailureDomain)
    requires Count(p.cands, d) == 0 && p.cands.Keys != {} && i == Least(p.cands.Keys)
    ensures var next := HandleOne(p, base, max, i);
            var goes := i in Waiting(p, d) && (d !in base.Values || Count(p.out, d) > max);
            && Holders(next.out, d) == (if goes then Holders(p.out, d) - {i} else Holders(p.out, d))
            && Waiting(next, d) == Waiting(p, d) - {i}
            && (i in Waiting(p, d) ==> Least(Waiting(p, d)) == i)
  {
    CountPositive(p.cands, d);
    assert p.cands[i] in p.cands.Values;
    assert p.cands[i] != d;
  }

  lemma DropLowest(held: set<int>, waiting: set<int>, n: nat)
    requires waiting != {} && n > 0
    ensures (held - {Least(waiting)}) - Lowest(waiting - {Least(waiting)}, n - 1) == held - Lowest(waiting, n)
  {
    LowestOneMore(waiting, n);
  }

  lemma ExcessOfOneLess(held: nat, max: nat, known: bool)
    requires held > 0 && (!known || held > max)
    ensures Excess(held, max, known) > 0 && Excess(held - 1, max, known) == Excess(held, max, known) - 1
  {}

  lemma YieldGoes(held: set<int>, waiting: set<int>, n: nat, n': nat, max: nat, known: bool)
    requires waiting <= held && waiting != {} && n == |held| && n' == |held - {Least(waiting)}|
    requires !known || n > max
    ensures (held - {Least(waiting)}) - Lowest(waiting - {Least(waiting)}, Excess(n', max, known))
         == held - Lowest(waiting, Excess(n, max, known))
  {
    SizeWithout(held, Least(waiting));
    ExcessOfOneLess(n, max, known);
    DropLowest(held, waiting, Excess(n, max, known));
  }

  lemma YieldStays(held: set<int>, waiting: set<int>)
    ensures held - Lowest(waiting, 0) == held
  {}

  lemma SizeWithout(s: set<int>, x: int)
    requires x in s
    ensures |s - {x}| == |s| - 1
  {}

  // --------------------------------------------------------- the whole thing

  /** The machine indexes of a domain that are matched: the lowest of those not
      deleting, as many as the base has of the domain. */
  lemma MatchedOfDomain(base: Mapping, machines: Mapping, deleting: set<int>, d: FailureDomain)
    requires |machines| <= |base|
    ensures Holders(machines, d) - Unmatched(base, machines, deleting).Keys
         == Lowest(Holders(machines, d) - deleting, Count(base, d))
  {
    CandidatesKeys(base, machines);
    LowestMatched(machines, Candidates(base, machines), machines.Keys, deleting, d);
    assert machines.Keys * Holders(machines, d) == Holders(machines, d);
  }

  /** Which machine indexes of a domain move: of those that are not matched the
      lowest, as many as the domain has above the maximum, or all of them if
      the base does not know it. */
  lemma MovedExactly(base: Mapping, machines: Mapping, deleting: set<int>, d: FailureDomain)
    requires |machines| <= |base| && BalancedBase(base) && HarmlessIn(base, machines, deleting, d)
    ensures machines.Keys <= Reconcile(base, machines, deleting).Keys
    ensures var matched := Lowest(Holders(machines, d) - deleting, Count(base, d));
            Moved(machines, Reconcile(base, machines, deleting)) * Holders(machines, d)
            == Lowest(Holders(machines, d) - matched, Surplus(machines, base.Values, MaxPerDomain(base), d))
  {
    ReconcileCovers(base, machines, deleting);
    MatchedOfDomain(base, machines, deleting, d);
    RemainingPart(Holders(machines, d), Unmatched(base, machines, deleting).Keys);
    if Count(machines, d) >= Count(base, d) {
      MovedOfCrowded(base, machines, deleting, d);
    } else {
      MovedOfSparse(base, machines, deleting, d);
    }
  }

  lemma RemainingPart<T>(s: set<T>, t: set<T>)
    ensures s - (s - t) == s * t
  {}

  lemma MovedOfSparse(base: Mapping, machines: Mapping, deleting: set<int>, d: FailureDomain)
    requires |machines| <= |base| && BalancedBase(base) && HarmlessIn(base, machines, deleting, d)
    requires machines.Keys <= Reconcile(base, machines, deleting).Keys
    requires Count(machines, d) < Count(base, d)
    ensures Moved(machines, Reconcile(base, machines, deleting)) * Holders(machines, d) == {}
    ensures Surplus(machines, base.Values, MaxPerDomain(base), d) == 0
  {
    SparseDomain(base, machines, deleting, d);
    CountPositive(base, d);
    NotMoved(machines, Reconcile(base, machines, deleting), d);
  }

  lemma NotMoved(machines: Mapping, r: Mapping, d: FailureDomain)
    requires machines.Keys <= r.Keys
    ensures Moved(machines, r) * Holders(machines, d) == Holders(machines, d) - Holders(r, d)
  {}

  lemma MovedOfCrowded(base: Mapping, machines: Mapping, deleting: set<int>, d: FailureDomain)
    requires |machines| <= |base| && BalancedBase(base) && HarmlessIn(base, machines, deleting, d)
    requires machines.Keys <= Reconcile(base, machines, deleting).Keys
    requires Count(machines, d) >= Count(base, d)
    ensures Moved(machines, Reconcile(base, machines, deleting)) * Holders(machines, d)
         == Lowest(Holders(machines, d) * Unmatched(base, machines, deleting).Keys,
                   Surplus(machines, base.Values, MaxPerDomain(base), d))
  {
    var p := AfterMatching(base, machines, deleting);
    ExclusiveAfterMatching(base, machines, deleting, d);
    WaitingCount(base, machines, deleting, d);
    assert Count(p.cands, d) == 0;
    LowestYield(p, base, MaxPerDomain(base), d);
    NotMoved(machines, Reconcile(base, machines, deleting), d);
    TakenAway(Holders(machines, d), Waiting(p, d), Excess(Count(machines, d), MaxPerDomain(base), d in base.Values));
  }

  lemma TakenAway(held: set<int>, waiting: set<int>, n: nat)
    requires waiting <= held
    ensures held - (held - Lowest(waiting, n)) == Lowest(waiting, n)
  {}

  /** What an index gets that is not left as it is, or has no machine: the
      candidate that lies there after matching. */
  lemma ReceivesCandidate(base: Mapping, machines: Mapping, deleting: set<int>, i: int)
    requires |machines| <= |base| && base != map[]
    requires i in Reconcile(base, machines, deleting)
    requires i in machines ==> Reconcile(base, machines, deleting)[i] != machines[i]
    ensures i in Unmatched(base, machines, deleting)
    ensures Reconcile(base, machines, deleting)[i] == Unmatched(base, machines, deleting)[i]
  {
    var p := AfterMatching(base, machines, deleting);
    KnownAfterMatching(base, machines, deleting);
    HandlingCovers(p, base, MaxPerDomain(base));
  }

  /** Indexes without a machine: those of a domain that the candidates have at
      such indexes only keep it, except for the lowest, one for each machine
      that is already in the domain and stays. */
  lemma FreeIndexesKeep(base: Mapping, machines: Mapping, deleting: set<int>, d: FailureDomain, i: int)
    requires |machines| <= |base| && base != map[]
    requires Holders(Candidates(base, machines), d) !! machines.Keys
    requires var held := Holders(Candidates(base, machines), d);
             i in held && i !in Lowest(held, |Holders(machines, d) - deleting|)
    ensures i in Reconcile(base, machines, deleting) && Reconcile(base, machines, deleting)[i] == d
  {
    CandidatesKeys(base, machines);
    ReconcileCovers(base, machines, deleting);
    LowestUsedUp(machines, Candidates(base, machines), machines.Keys, deleting, d);
    assert machines.Keys * Holders(machines, d) == Holders(machines, d);
    assert i in Holders(Unmatched(base, machines, deleting), d);
    ReceivesCandidate(base, machines, deleting, i);
  }

  lemma MatchedKeeps(base: Mapping, machines: Mapping, deleting: set<int>, i: int)
    requires |machines| <= |base| && base != map[] && i in machines && i !in Unmatched(base, machines, deleting)
    ensures i in Reconcile(base, machines, deleting) && Reconcile(base, machines, deleting)[i] == machines[i]
  {
    var p := AfterMatching(base, machines, deleting);
    KnownAfterMatching(base, machines, deleting);
    HandlingCovers(p, base, MaxPerDomain(base));
  }

  /** The smallest case: of two candidates of a domain the lower one makes room
      for what was planned at the machine's index. */
  lemma LowerCandidateUsed(a: FailureDomain, b: FailureDomain)
    requires a != b
    ensures var base: Mapping := map[0 := a, 1 := b, 2 := a];
            |base| == 3 && base != map[] && Reconcile(base, map[1 := a], {}) == map[0 := b, 1 := a, 2 := a]
  {
    var base: Mapping := map[0 := a, 1 := b, 2 := a];
    var machines: Mapping := map[1 := a];
    assert |base.Keys| == 3 by { assert base.Keys == {0, 1, 2}; }
    ExampleMatching(a, b);
    ExampleResult(base, machines, map[0 := b, 1 := a, 2 := a]);
  }

  lemma ExampleResult(base: Mapping, machines: Mapping, goal: Mapping)
    requires |machines| <= |base| && base != map[] && base.Keys == {0, 1, 2} && machines.Keys == {1}
    requires Unmatched(base, machines, {}).Keys == {0, 2}
    requires goal.Keys == {0, 1, 2} && goal[1] == machines[1]
    requires goal[0] == Unmatched(base, machines, {})[0] && goal[2] == Unmatched(base, machines, {})[2]
    ensures Reconcile(base, machines, {}) == goal
  {
    var r := Reconcile(base, machines, {});
    ExampleKeys(base, machines);
    ReceivesCandidate(base, machines, {}, 0);
    ReceivesCandidate(base, machines, {}, 2);
    MatchedKeeps(base, machines, {}, 1);
    SameMap(goal, r);
  }

  lemma ExampleKeys(base: Mapping, machines: Mapping)
    requires |machines| <= |base| && base != map[] && base.Keys == {0, 1, 2} && machines.Keys == {1}
    ensures Reconcile(base, machines, {}).Keys == {0, 1, 2}
  {
    CandidatesKeys(base, machines);
    ReconcileCovers(base, machines, {});
    assert base.Keys - machines.Keys == {0, 2} && machines.Keys - base.Keys == {};
  }

  lemma ExampleMatching(a: FailureDomain, b: FailureDomain)
    requires a != b
    requires |map[1 := a]| <= |map[0 := a, 1 := b, 2 := a]|
    ensures Unmatched(map[0 := a, 1 := b, 2 := a], map[1 := a], {}) == map[0 := b, 2 := a]
  {
    var base: Mapping := map[0 := a, 1 := b, 2 := a];
    var machines: Mapping := map[1 := a];
    assert machines.Keys - base.Keys == {} && machines.Keys == {1};
    assert Least({1}) == 1 && {1} - {1} == {};
    assert Holders(base, a) == {0, 2} && Least({0, 2}) == 0;
    assert NextCandidates(machines, base, 1, {}) == map[0 := b, 2 := a];
  }
}
