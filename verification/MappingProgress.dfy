/** Rebalancing as a run: each step replaces the machine at one index by a
    machine in the domain the allocation assigns there, or fills a missing
    index, and the allocation is then computed afresh. */
module MappingProgress {
  import opened Counting
  import opened FailureDomains
  import opened Mapping
  import opened MappingTheorems
  import opened MappingBase
  import opened MappingRuns

  /** One step at index i, for some outcome of the sort and some harmless
      deleting-only indexes, which may include i itself. */
  ghost predicate Step(spec: Spec, before: Mapping, i: int, after: Mapping) {
    exists order, deleting :: StepBy(spec, order, before, deleting, i, after)
  }

  ghost predicate StepBy(spec: Spec, order: seq<FailureDomain>, before: Mapping, deleting: set<int>, i: int, after: Mapping) {
    IsOutcome(spec, order, before) && spec.Harmless(order, before, deleting) &&
    var r := spec.Allocate(order, before, deleting);
    i in r && (i in before ==> r[i] != before[i]) && after == before[i := r[i]]
  }

  lemma NoneIsHarmless(spec: Spec, order: seq<FailureDomain>, machines: Mapping)
    requires IsOutcome(spec, order, machines)
    ensures spec.Harmless(order, machines, {})
  {
    BaseFacts(spec, order, machines);
    forall d ensures HarmlessIn(RoundRobin(order, spec.Indexes(machines)), machines, {}, d) {
      assert Holders(machines, d) * {} == {};
    }
  }

  /** Deleting the machine at an unsettled index, as the on-delete strategy has
      the user do, is harmless. */
  lemma UnsettledIsHarmless(spec: Spec, order: seq<FailureDomain>, machines: Mapping, i: int)
    requires IsOutcome(spec, order, machines) && !Settled(spec, machines, i)
    ensures spec.Harmless(order, machines, {i})
  {
    BaseFacts(spec, order, machines);
    var base := RoundRobin(order, spec.Indexes(machines));
    forall d ensures HarmlessIn(base, machines, {i}, d) {
      var others := Holders(machines, d) - {i};
      if i in Holders(machines, d) {
        assert Holders(machines, d) == others + {i};
        CountPositive(base, d);
        assert Count(base, d) <= |others|;
      } else {
        assert Holders(machines, d) * {i} == {};
      }
    }
  }

  /** An index whose machine is in a configured domain that is not
      over-represented. */
  ghost predicate Settled(spec: Spec, machines: Mapping, i: int)
    requires spec.Valid()
  {
    i in machines && machines[i] in spec.Known() && Count(machines, machines[i]) <= spec.Limit(machines)
  }

  /** A settled index keeps its domain in every allocation. */
  lemma SettledStays(spec: Spec, order: seq<FailureDomain>, machines: Mapping, deleting: set<int>, i: int)
    requires IsOutcome(spec, order, machines) && spec.Harmless(order, machines, deleting)
    requires Settled(spec, machines, i)
    ensures i in spec.Allocate(order, machines, deleting)
    ensures spec.Allocate(order, machines, deleting)[i] == machines[i]
  {
    BaseFacts(spec, order, machines);
    var base := RoundRobin(order, spec.Indexes(machines));
    var r := spec.Allocate(order, machines, deleting);
    ReconcileSurplus(base, machines, deleting, machines[i]);
    SurplusOver(machines, base.Values, spec.Known(), spec.Limit(machines), machines[i]);
    NoneMoved(machines, r, i);
  }

  lemma SurplusOver(machines: Mapping, used: set<FailureDomain>, known: set<FailureDomain>, max: nat, d: FailureDomain)
    requires d in used <==> d in known
    ensures Surplus(machines, used, max, d) == Surplus(machines, known, max, d)
  {}

  lemma NoneMoved(machines: Mapping, r: Mapping, i: int)
    requires machines.Keys <= r.Keys && i in machines
    requires |Moved(machines, r) * Holders(machines, machines[i])| == 0
    ensures r[i] == machines[i]
  {
    assert i !in Moved(machines, r) * Holders(machines, machines[i]);
    assert i in Holders(machines, machines[i]);
  }

  /** The domain a step assigns has room: it is configured and holds fewer
      indexes than the limit. */
  lemma AssignedHasRoom(spec: Spec, order: seq<FailureDomain>, before: Mapping, deleting: set<int>, i: int, after: Mapping)
    requires StepBy(spec, order, before, deleting, i, after)
    ensures after[i] in spec.Known() && Count(before, after[i]) < spec.Limit(before)
  {
    BaseFacts(spec, order, before);
    var base := RoundRobin(order, spec.Indexes(before));
    var r := spec.Allocate(order, before, deleting);
    var d := r[i];
    AllocationAdmissible(spec, order, before, deleting);
    assert d in r.Values && i in Holders(r, d);
    if Count(before, d) >= Count(base, d) {
      CrowdedDomain(base, before, deleting, d);
      assert false;
    }
  }

  /** An index a step changes holds an unknown or over-represented domain. */
  lemma MovedIsUnsettled(spec: Spec, order: seq<FailureDomain>, before: Mapping, deleting: set<int>, i: int, after: Mapping)
    requires StepBy(spec, order, before, deleting, i, after)
    ensures !Settled(spec, before, i)
  {
    if Settled(spec, before, i) {
      SettledStays(spec, order, before, deleting, i);
    }
  }

  /** The surplus over a larger set of domains: absent ones add nothing. */
  lemma {:induction false} WorkOver(machines: Mapping, known: set<FailureDomain>, max: nat, ds: set<FailureDomain>)
    requires machines.Values <= ds
    ensures Work(machines, known, max) == Sum(ds, Surpluses(machines, known, max))
    decreases ds
  {
    var extra := ds - machines.Values;
    if extra == {} {
      assert ds == machines.Values;
    } else {
      var d := Pick(extra);
      CountPositive(machines, d);
      SumRemove(ds, Surpluses(machines, known, max), d);
      WorkOver(machines, known, max, ds - {d});
    }
  }

  lemma SumLess(ds: set<FailureDomain>, f: FailureDomain -> nat, g: FailureDomain -> nat, d: FailureDomain)
    requires d in ds && g(d) + 1 == f(d)
    requires forall x :: x in ds && x != d ==> f(x) == g(x)
    ensures Sum(ds, g) + 1 == Sum(ds, f)
  {
    SumRemove(ds, f, d);
    SumRemove(ds, g, d);
    SumMonotone(ds - {d}, f, g);
  }

  /** Every step leaves exactly one index fewer to move, or, where it fills a
      missing index, as many to move and one fewer missing. The index it
      changes is settled from then on, and settled indexes stay settled. */
  lemma StepProgress(spec: Spec, order: seq<FailureDomain>, before: Mapping, deleting: set<int>, i: int, after: Mapping)
    requires StepBy(spec, order, before, deleting, i, after)
    ensures spec.Indexes(after) == spec.Indexes(before)
    ensures spec.ToMove(after) + (if i in before then 1 else 0) == spec.ToMove(before)
    ensures spec.Missing(after) + (if i in before then 0 else 1) == spec.Missing(before)
    ensures Settled(spec, after, i)
    ensures forall j :: Settled(spec, before, j) ==> j != i && Settled(spec, after, j) && after[j] == before[j]
  {
    BaseFacts(spec, order, before);
    var r := spec.Allocate(order, before, deleting);
    AllocationAdmissible(spec, order, before, deleting);
    AssignedHasRoom(spec, order, before, deleting, i, after);
    MovedIsUnsettled(spec, order, before, deleting, i, after);
    StepSize(spec, before, r, i, after);
    AssignWork(before, i, r[i], spec.Known(), spec.Limit(before));
    CountUpdate(before, i, r[i], r[i]);
    forall j | Settled(spec, before, j) ensures j != i && Settled(spec, after, j) && after[j] == before[j] {
      CountUpdate(before, i, r[i], before[j]);
    }
  }

  lemma StepSize(spec: Spec, before: Mapping, r: Mapping, i: int, after: Mapping)
    requires before.Keys <= r.Keys && i in r && |r| == spec.Indexes(before) && after == before[i := r[i]]
    ensures |after| == |before| + (if i in before then 0 else 1) <= spec.Indexes(before)
    ensures spec.Indexes(after) == spec.Indexes(before)
  {
    assert after.Keys == before.Keys + {i};
    SubsetSize(after.Keys, r.Keys);
    assert |after.Keys| == |before.Keys| + (if i in before then 0 else 1);
  }

  lemma ValuesAfter(before: Mapping, i: int, c: FailureDomain)
    ensures before[i := c].Values <= before.Values + {c}
  {
    var after := before[i := c];
    forall d | d in after.Values ensures d in before.Values + {c} {
      var k := KeyOf(after, d);
      if k != i { assert before[k] == d; }
    }
  }

  lemma SurplusAfter(before: Mapping, i: int, c: FailureDomain, known: set<FailureDomain>, max: nat, d: FailureDomain)
    requires c in known && Count(before, c) < max
    requires i in before ==> before[i] !in known || Count(before, before[i]) > max
    ensures Surplus(before[i := c], known, max, d) + (if i in before && before[i] == d then 1 else 0)
         == Surplus(before, known, max, d)
  {
    CountUpdate(before, i, c, d);
    if i in before {
      assert before[i] in before.Values;
      CountPositive(before, before[i]);
    }
  }

  /** Giving an index a domain with room lessens the work by one if what it
      held was unknown or over-represented, and not at all if it held nothing. */
  lemma AssignWork(before: Mapping, i: int, c: FailureDomain, known: set<FailureDomain>, max: nat)
    requires c in known && Count(before, c) < max
    requires i in before ==> before[i] !in known || Count(before, before[i]) > max
    ensures Work(before[i := c], known, max) + (if i in before then 1 else 0) == Work(before, known, max)
  {
    var after := before[i := c];
    var ds := before.Values + {c};
    ValuesAfter(before, i, c);
    WorkOver(before, known, max, ds);
    WorkOver(after, known, max, ds);
    var f, g := Surpluses(before, known, max), Surpluses(after, known, max);
    forall d | d in ds ensures g(d) + (if i in before && before[i] == d then 1 else 0) == f(d) {
      SurplusAfter(before, i, c, known, max, d);
    }
    if i in before {
      SumLess(ds, f, g, before[i]);
    } else {
      SumMonotone(ds, f, g);
    }
  }

  // ------------------------------------------------------------------- runs

  /** A run: the successive mappings of machines, and the index each step
      changes. */
  ghost predicate IsRun(spec: Spec, states: seq<Mapping>, changed: seq<int>) {
    |states| == |changed| + 1 &&
    forall t :: 0 <= t < |changed| ==> Step(spec, states[t], changed[t], states[t + 1])
  }

  lemma StepEffect(spec: Spec, before: Mapping, i: int, after: Mapping)
    requires Step(spec, before, i, after)
    ensures spec.Valid()
    ensures spec.Indexes(after) == spec.Indexes(before)
    ensures spec.ToMove(after) + spec.Missing(after) + 1 == spec.ToMove(before) + spec.Missing(before)
    ensures Settled(spec, after, i)
  {
    var order, deleting :| StepBy(spec, order, before, deleting, i, after);
    StepProgress(spec, order, before, deleting, i, after);
  }

  lemma StepKeeps(spec: Spec, before: Mapping, i: int, after: Mapping, j: int)
    requires Step(spec, before, i, after)
    requires spec.Valid() && Settled(spec, before, j)
    ensures j != i && Settled(spec, after, j) && after[j] == before[j]
  {
    var order, deleting :| StepBy(spec, order, before, deleting, i, after);
    StepProgress(spec, order, before, deleting, i, after);
  }

  /** The work left goes down by one per step. */
  lemma {:induction false} RunWork(spec: Spec, states: seq<Mapping>, changed: seq<int>)
    requires spec.Valid() && IsRun(spec, states, changed)
    ensures var last := states[|changed|];
            spec.ToMove(states[0]) + spec.Missing(states[0])
            == spec.ToMove(last) + spec.Missing(last) + |changed|
  {
    if changed != [] {
      var t := |changed| - 1;
      RunWork(spec, states[..t + 1], changed[..t]);
      StepEffect(spec, states[t], changed[t], states[t + 1]);
    }
  }

  lemma RunStepKeeps(spec: Spec, states: seq<Mapping>, changed: seq<int>, i: int, t: nat)
    requires spec.Valid() && IsRun(spec, states, changed)
    requires t < |changed| && Settled(spec, states[t], i)
    ensures changed[t] != i && Settled(spec, states[t + 1], i) && states[t + 1][i] == states[t][i]
  {
    StepKeeps(spec, states[t], changed[t], states[t + 1], i);
  }

  lemma {:induction false} SettledForGood(spec: Spec, states: seq<Mapping>, changed: seq<int>, i: int, s: nat, t: nat)
    requires spec.Valid() && IsRun(spec, states, changed)
    requires s <= t < |states| && Settled(spec, states[s], i)
    ensures Settled(spec, states[t], i) && states[t][i] == states[s][i]
    decreases t
  {
    if s < t {
      SettledForGood(spec, states, changed, i, s, t - 1);
      RunStepKeeps(spec, states, changed, i, t - 1);
    }
  }

  /** Rebalancing never goes back and forth: in every run each index is changed
      at most once and keeps what it was given, and the run is no longer than
      the work there was at its start. */
  lemma NoPingPong(spec: Spec, states: seq<Mapping>, changed: seq<int>)
    requires spec.Valid() && IsRun(spec, states, changed)
    ensures forall s, t :: 0 <= s < t < |changed| ==> changed[s] != changed[t]
    ensures forall s, t {:trigger changed[s], states[t]} :: 0 <= s < t < |states| ==>
              changed[s] in states[s + 1] && changed[s] in states[t] &&
              states[t][changed[s]] == states[s + 1][changed[s]]
    ensures |changed| <= spec.ToMove(states[0]) + spec.Missing(states[0])
  {
    forall s, t {:trigger changed[s], states[t]} | 0 <= s < t < |states|
      ensures changed[s] in states[s + 1] && changed[s] in states[t]
      ensures states[t][changed[s]] == states[s + 1][changed[s]]
      ensures t < |changed| ==> changed[s] != changed[t]
    {
      StepEffect(spec, states[s], changed[s], states[s + 1]);
      SettledForGood(spec, states, changed, changed[s], s + 1, t);
      if t < |changed| {
        RunStepKeeps(spec, states, changed, changed[s], t);
      }
    }
    RunWork(spec, states, changed);
  }

  /** On delete: when the user deletes the machine at an unsettled index and the
      allocation then assigns the index another domain, its replacement there
      is a step. */
  lemma DeletedIndexIsStep(spec: Spec, order: seq<FailureDomain>, machines: Mapping, i: int)
    requires IsOutcome(spec, order, machines) && i in machines && !Settled(spec, machines, i)
    ensures spec.Harmless(order, machines, {i}) && i in spec.Allocate(order, machines, {i})
    ensures var d := spec.Allocate(order, machines, {i})[i];
            d != machines[i] ==> Step(spec, machines, i, machines[i := d])
  {
    UnsettledIsHarmless(spec, order, machines, i);
    AllocationSummary(spec, order, machines, {i});
    var d := spec.Allocate(order, machines, {i})[i];
    if d != machines[i] {
      assert StepBy(spec, order, machines, {i}, i, machines[i := d]);
    }
  }

  /** Mappings that agree where the first is defined, and are of one size. */
  lemma SameIfNoneMoved(machines: Mapping, r: Mapping)
    requires machines.Keys <= r.Keys
    ensures |machines| == |r| && |Moved(machines, r)| == 0 <==> r == machines
  {
    SubsetSize(machines.Keys, r.Keys);
    if |machines| == |r| && |Moved(machines, r)| == 0 {
      assert Moved(machines, r) == {};
      assert r.Keys == machines.Keys;
      forall i | i in machines ensures r[i] == machines[i] {
        assert i !in Moved(machines, r);
      }
    }
    if r == machines {
      assert Moved(machines, r) == {};
    }
  }

  lemma Difference(machines: Mapping, r: Mapping) returns (i: int)
    requires machines.Keys <= r.Keys && r != machines
    ensures i in r && (i in machines ==> r[i] != machines[i])
  {
    var differing := set k | k in r && (k in machines ==> r[k] != machines[k]);
    if differing == {} {
      forall k | k in r ensures k in machines && r[k] == machines[k] {
        assert k !in differing;
      }
      SameMap(machines, r);
    }
    i := Pick(differing);
  }

  lemma AllocationSummary(spec: Spec, order: seq<FailureDomain>, machines: Mapping, deleting: set<int>)
    requires IsOutcome(spec, order, machines) && spec.Harmless(order, machines, deleting)
    ensures var r := spec.Allocate(order, machines, deleting);
            machines.Keys <= r.Keys && |r| == spec.Indexes(machines) &&
            |Moved(machines, r)| == spec.ToMove(machines)
  {
    BaseFacts(spec, order, machines);
    AllocationAdmissible(spec, order, machines, deleting);
    AllocationMoves(spec, order, machines, deleting);
  }

  /** No work is left exactly when the allocation is what the machines already
      have; until then some step is possible, whichever harmless indexes are
      deleting. */
  lemma DoneIffAllocated(spec: Spec, order: seq<FailureDomain>, machines: Mapping, deleting: set<int>)
    requires IsOutcome(spec, order, machines) && spec.Harmless(order, machines, deleting)
    ensures spec.ToMove(machines) + spec.Missing(machines) == 0 <==> spec.Allocate(order, machines, deleting) == machines
    ensures spec.ToMove(machines) + spec.Missing(machines) > 0 ==>
              exists i, after :: StepBy(spec, order, machines, deleting, i, after)
  {
    AllocationSummary(spec, order, machines, deleting);
    var r := spec.Allocate(order, machines, deleting);
    SameIfNoneMoved(machines, r);
    if r != machines {
      var i := Difference(machines, r);
      assert StepBy(spec, order, machines, deleting, i, machines[i := r[i]]);
    }
  }

  /** Until no work is left some step is possible. */
  lemma StepUntilDone(spec: Spec, order: seq<FailureDomain>, machines: Mapping)
    requires IsOutcome(spec, order, machines) && spec.ToMove(machines) + spec.Missing(machines) > 0
    ensures exists i, after :: Step(spec, machines, i, after)
  {
    NoneIsHarmless(spec, order, machines);
    DoneIffAllocated(spec, order, machines, {});
    var i, after :| StepBy(spec, order, machines, {}, i, after);
    assert Step(spec, machines, i, after);
  }
}
