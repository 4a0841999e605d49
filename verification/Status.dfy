/** Status counters and conditions of a control plane machine set, and the
    validation that decides whether machines are touched at all. */
module Status {
  import opened Counting
  import opened FailureDomains
  import opened Machines
  import opened Updates
  import opened UpdateDecisions

  datatype Strategy = RollingUpdate | OnDelete | Recreate

  datatype ConditionType = Available | Degraded | Progressing

  datatype Reason =
    | UnavailableReplicas | AllReplicasAvailable
    | NoReadyMachines | AsExpected
    | NeedsUpdateReplicas | ExcessReplicas | AllReplicasUpdated
    | OperatorDegraded | UnmanagedNodes | ExcessIndexes | ExcessUpdatedReplicas | FailedReplacement

  datatype Condition = Condition(holds: bool, reason: Reason)

  datatype Counters = Counters(replicas: nat, ready: nat, updated: nat, unavailable: nat)

  // --------------------------------------------------------------- counters

  ghost function KindCounts(view: Cluster, kind: Kind): int -> nat {
    i => |Select(At(view, i), kind)|
  }

  ghost function CountKind(view: Cluster, kind: Kind): nat {
    Sum(view.Keys, KindCounts(view, kind))
  }

  /** The indexes without a ready machine. */
  ghost function Unavailable(view: Cluster): set<int> {
    set i | i in view && Select(view[i], Ready) == []
  }

  ghost function CountersOf(view: Cluster): Counters {
    Counters(Total(view), CountKind(view, Ready), CountKind(view, Updated), |Unavailable(view)|)
  }

  /** The counters of one index. */
  method CountIndex(machines: seq<MachineInfo>) returns (ready: nat, updated: nat, unavailable: bool)
    ensures ready == |Select(machines, Ready)|
    ensures updated == |Select(machines, Updated)|
    ensures unavailable <==> Select(machines, Ready) == []
  {
    ready, updated := 0, 0;
    var hasUnavailable, hasAvailable := false, false;
    for n := 0 to |machines|
      invariant ready == |Select(machines[..n], Ready)|
      invariant updated == |Select(machines[..n], Updated)|
      invariant hasAvailable <==> ready > 0
      invariant n > 0 ==> hasUnavailable || hasAvailable
    {
      SelectNext(machines, n, Ready);
      SelectNext(machines, n, Updated);
      if machines[n].ready {
        ready := ready + 1;
        hasAvailable := true;
        if !machines[n].needsUpdate { updated := updated + 1; }
      } else {
        hasUnavailable := true;
      }
    }
    assert machines[..|machines|] == machines;
    unavailable := machines == [] || (hasUnavailable && !hasAvailable);
  }

  ghost predicate CountedSoFar(view: Cluster, done: set<int>, c: Counters) {
    done <= view.Keys &&
    c.replicas == Sum(done, Lengths(view)) &&
    c.ready == Sum(done, KindCounts(view, Ready)) &&
    c.updated == Sum(done, KindCounts(view, Updated)) &&
    c.unavailable == |done * Unavailable(view)|
  }

  lemma CountOneMore(view: Cluster, done: set<int>, c: Counters, i: int)
    requires CountedSoFar(view, done, c) && i in view && i !in done
    ensures CountedSoFar(view, done + {i}, Counters(
              c.replicas + |view[i]|,
              c.ready + |Select(view[i], Ready)|,
              c.updated + |Select(view[i], Updated)|,
              c.unavailable + (if Select(view[i], Ready) == [] then 1 else 0)))
  {
    var all := done + {i};
    assert all - {i} == done;
    SumRemove(all, Lengths(view), i);
    SumRemove(all, KindCounts(view, Ready), i);
    SumRemove(all, KindCounts(view, Updated), i);
    UnavailableOneMore(view, done, i);
  }

  lemma UnavailableOneMore(view: Cluster, done: set<int>, i: int)
    requires i in view && i !in done
    ensures |(done + {i}) * Unavailable(view)|
         == |done * Unavailable(view)| + (if Select(view[i], Ready) == [] then 1 else 0)
  {
    assert (done + {i}) * Unavailable(view)
        == done * Unavailable(view) + (if i in Unavailable(view) then {i} else {});
  }

  method CountNext(view: Cluster, ghost done: set<int>, c: Counters, i: int) returns (next: Counters)
    requires CountedSoFar(view, done, c) && i in view && i !in done
    ensures CountedSoFar(view, done + {i}, next)
  {
    CountOneMore(view, done, c, i);
    var ready, updated, unavailable := CountIndex(view[i]);
    next := Counters(c.replicas + |view[i]|, c.ready + ready, c.updated + updated,
                     c.unavailable + (if unavailable then 1 else 0));
  }

  lemma CountedNone(view: Cluster)
    ensures CountedSoFar(view, {}, Counters(0, 0, 0, 0))
  {
    assert {} * Unavailable(view) == {};
  }

  lemma CountedAll(view: Cluster, c: Counters)
    requires CountedSoFar(view, view.Keys, c)
    ensures c == CountersOf(view)
  {
    assert view.Keys * Unavailable(view) == Unavailable(view);
  }

  /** Counts the machines index by index, in no particular order. */
  method CountAll(view: Cluster) returns (c: Counters)
    ensures c == CountersOf(view)
  {
    c := Counters(0, 0, 0, 0);
    CountedNone(view);
    var rest := view.Keys;
    ghost var done: set<int> := {};
    while rest != {}
      invariant rest == view.Keys - done
      invariant CountedSoFar(view, done, c)
      decreases rest
    {
      var i := TakeAny(rest);
      c := CountNext(view, done, c, i);
      rest, done := rest - {i}, done + {i};
    }
    NothingLeft(view.Keys, done);
    CountedAll(view, c);
  }

  // ------------------------------------------------------------- conditions

  function AvailableCondition(c: Counters): Condition {
    if c.unavailable != 0 then Condition(false, UnavailableReplicas) else Condition(true, AllReplicasAvailable)
  }

  function DegradedCondition(c: Counters): Condition {
    if c.ready == 0 then Condition(true, NoReadyMachines) else Condition(false, AsExpected)
  }

  function ProgressingCondition(desired: nat, c: Counters): Condition {
    if desired > c.updated then Condition(true, NeedsUpdateReplicas)
    else if desired < c.ready then Condition(true, ExcessReplicas)
    else Condition(false, AllReplicasUpdated)
  }

  /** Each condition on its own, over the machines of the view: available when
      every index has a ready machine; degraded when no machine is ready;
      progressing while fewer machines than desired are up to date and ready, or
      more are ready. */
  lemma ConditionsMean(view: Cluster, desired: nat)
    ensures var c := CountersOf(view);
            && AvailableCondition(c) == (if forall i :: i in view ==> exists m :: m in view[i] && m.ready
                                         then Condition(true, AllReplicasAvailable)
                                         else Condition(false, UnavailableReplicas))
            && DegradedCondition(c) == (if exists i, m :: i in view && m in view[i] && m.ready
                                        then Condition(false, AsExpected)
                                        else Condition(true, NoReadyMachines))
            && ProgressingCondition(desired, c) ==
               (if CountKind(view, Updated) < desired then Condition(true, NeedsUpdateReplicas)
                else if CountKind(view, Ready) > desired then Condition(true, ExcessReplicas)
                else Condition(false, AllReplicasUpdated))
  {
    NoneUnavailable(view);
    NoneReadyAtAll(view);
  }

  lemma NoneUnavailable(view: Cluster)
    ensures |Unavailable(view)| == 0 <==> forall i :: i in view ==> exists m :: m in view[i] && m.ready
  {
    if |Unavailable(view)| == 0 {
      forall i | i in view ensures exists m :: m in view[i] && m.ready {
        assert i !in Unavailable(view);
        SelectNone(view[i], Ready);
      }
    }
    if forall i :: i in view ==> exists m :: m in view[i] && m.ready {
      forall i | i in view ensures i !in Unavailable(view) {
        SelectNone(view[i], Ready);
      }
      assert Unavailable(view) == {};
    }
  }

  lemma NoneReadyAtAll(view: Cluster)
    ensures CountKind(view, Ready) > 0 <==> exists i, m :: i in view && m in view[i] && m.ready
  {
    if CountKind(view, Ready) > 0 {
      if forall i :: i in view.Keys ==> KindCounts(view, Ready)(i) <= 0 {
        SumConstant(view.Keys, KindCounts(view, Ready), 0);
      }
      var i :| i in view.Keys && KindCounts(view, Ready)(i) > 0;
      SelectNone(view[i], Ready);
    }
    if i, m :| i in view && m in view[i] && m.ready {
      SelectNone(view[i], Ready);
      SumRemove(view.Keys, KindCounts(view, Ready), i);
    }
  }

  lemma {:induction false} SumAtLeast<D(!new)>(s: set<D>, f: D -> nat, g: D -> nat)
    requires forall x :: x in s ==> f(x) <= g(x)
    requires Sum(s, f) == Sum(s, g)
    ensures forall x :: x in s ==> f(x) == g(x)
  {
    if s != {} {
      var x :| x in s;
      SumRemove(s, f, x);
      SumRemove(s, g, x);
      SumMonotone(s - {x}, f, g);
      SumAtLeast(s - {x}, f, g);
    }
  }

  ghost function One(): int -> nat { i => 1 }

  lemma SumOfOnes(s: set<int>)
    ensures Sum(s, One()) == |s|
  {
    if s != {} {
      var x := Pick(s);
      SumRemove(s, One(), x);
      SumOfOnes(s - {x});
    }
  }

  lemma {:induction false} UpdatedAreReady(ms: seq<MachineInfo>)
    ensures |Select(ms, Updated)| <= |Select(ms, Ready)|
  {
    if ms != [] {
      UpdatedAreReady(ms[..|ms| - 1]);
    }
  }

  /** One machine of the index is ready, and it is up to date. */
  ghost predicate SettledIndex(machines: seq<MachineInfo>) {
    |Select(machines, Ready)| == 1 && |Select(machines, Updated)| == 1
  }

  /** The status is exact: on a view with at least as many indexes as desired
      replicas, as grouping makes it, the set is reported available and not
      progressing exactly when there are as many indexes as replicas and every
      index has exactly one ready machine, an up-to-date one. */
  lemma StatusExact(view: Cluster, desired: nat)
    requires |view.Keys| >= desired
    ensures var c := CountersOf(view);
            AvailableCondition(c).holds && !ProgressingCondition(desired, c).holds
            <==> |view.Keys| == desired && forall i :: i in view ==> SettledIndex(view[i])
  {
    var c := CountersOf(view);
    if c.unavailable == 0 && desired <= c.updated && desired >= c.ready {
      CountersSettle(view, desired);
    }
    if |view.Keys| == desired && forall i :: i in view ==> SettledIndex(view[i]) {
      SettledCounters(view);
    }
  }

  /** By pigeonhole: there are at least as many ready machines as indexes, and
      no more of them than up-to-date ones. */
  lemma CountersSettle(view: Cluster, desired: nat)
    requires |view.Keys| >= desired && Unavailable(view) == {}
    requires CountKind(view, Updated) >= desired >= CountKind(view, Ready)
    ensures |view.Keys| == desired && forall i :: i in view ==> SettledIndex(view[i])
  {
    var ready, updated := KindCounts(view, Ready), KindCounts(view, Updated);
    SumOfOnes(view.Keys);
    forall i | i in view ensures One()(i) <= ready(i) && updated(i) <= ready(i) {
      assert i !in Unavailable(view);
      UpdatedAreReady(view[i]);
    }
    SumMonotone(view.Keys, One(), ready);
    SumMonotone(view.Keys, updated, ready);
    SumAtLeast(view.Keys, One(), ready);
    SumAtLeast(view.Keys, updated, ready);
    forall i | i in view ensures SettledIndex(view[i]) {
      assert One()(i) == ready(i) == updated(i);
    }
  }

  lemma SettledCounters(view: Cluster)
    requires forall i :: i in view ==> SettledIndex(view[i])
    ensures CountersOf(view).unavailable == 0 && CountersOf(view).ready == CountersOf(view).updated == |view.Keys|
  {
    forall i | i in view ensures i !in Unavailable(view) {
      assert SettledIndex(view[i]);
    }
    SumOfOnes(view.Keys);
    SumMonotone(view.Keys, One(), KindCounts(view, Ready));
    SumMonotone(view.Keys, One(), KindCounts(view, Updated));
  }

  // ------------------------------------------------------------- validation

  /** No machine is up to date, not ready, staying, and in error, where another
      one needs replacement. */
  ghost predicate NoErroredReplacement(view: Cluster) {
    forall i, m :: i in view && Select(view[i], NeedsReplacement) != [] && m in Select(view[i], Pending) ==>
      m.errorMessage == ""
  }

  ghost predicate FewUpdated(view: Cluster, strategy: Strategy) {
    strategy == OnDelete ==> forall i :: i in view ==> |Select(view[i], Updated)| <= 1
  }

  /** The cluster state in which the strategies may act. */
  ghost predicate ValidState(view: Cluster, desired: nat, strategy: Strategy, nodesManaged: bool) {
    && CountKind(view, Ready) > 0
    && nodesManaged
    && |view.Keys| <= desired
    && FewUpdated(view, strategy)
    && NoErroredReplacement(view)
  }

  /** The same, told of the machines. */
  lemma ValidStateMeans(view: Cluster, desired: nat, strategy: Strategy, nodesManaged: bool)
    ensures ValidState(view, desired, strategy, nodesManaged) <==>
              && (exists i, m :: i in view && m in view[i] && m.ready)
              && nodesManaged
              && |view.Keys| <= desired
              && (strategy == OnDelete ==> forall i :: i in view ==> !Some2(view[i], UpToDate))
              && (forall i, o, m :: i in view && o in view[i] && m in view[i] && Outdated(o) && Arriving(m) ==>
                    m.errorMessage == "")
  {
    NoneReadyAtAll(view);
    FewUpdatedMeans(view, strategy);
    NoErroredMeans(view);
  }

  lemma FewUpdatedMeans(view: Cluster, strategy: Strategy)
    ensures FewUpdated(view, strategy) <==> (strategy == OnDelete ==> forall i :: i in view ==> !Some2(view[i], UpToDate))
  {
    forall i | i in view ensures |Select(view[i], Updated)| <= 1 <==> !Some2(view[i], UpToDate) {
      SeveralUpdated(view[i]);
    }
  }

  lemma NoErroredMeans(view: Cluster)
    ensures NoErroredReplacement(view) <==>
              forall i, o, m :: i in view && o in view[i] && m in view[i] && Outdated(o) && Arriving(m) ==>
                m.errorMessage == ""
  {
    if NoErroredReplacement(view) {
      forall i, o, m | i in view && o in view[i] && m in view[i] && Outdated(o) && Arriving(m)
        ensures m.errorMessage == ""
      {
        SelectNone(view[i], NeedsReplacement);
        assert m in Select(view[i], Pending);
      }
    } else {
      var i, m :| i in view && Select(view[i], NeedsReplacement) != [] && m in Select(view[i], Pending) && m.errorMessage != "";
      SelectHead(view[i], NeedsReplacement);
      assert Outdated(Select(view[i], NeedsReplacement)[0]);
    }
  }

  method FindErrored(machines: seq<MachineInfo>) returns (found: bool)
    ensures found <==> Select(machines, NeedsReplacement) != [] &&
                       exists m :: m in Select(machines, Pending) && m.errorMessage != ""
  {
    var pending := FilterMachines(machines, Pending);
    var outdated := FilterMachines(machines, NeedsReplacement);
    if outdated != [] && pending != [] {
      for n := 0 to |pending|
        invariant forall k :: 0 <= k < n ==> pending[k].errorMessage == ""
      {
        if pending[n].errorMessage != "" {
          assert pending[n] in pending;
          return true;
        }
      }
    }
    return false;
  }

  class ControlPlaneMachineSet {
    const desired: Option<nat>
    const strategy: Strategy
    const active: bool
    var status: Counters
    var conditions: map<ConditionType, Condition>

    constructor (desired: Option<nat>, strategy: Strategy, active: bool)
      ensures this.desired == desired && this.strategy == strategy && this.active == active
      ensures conditions == map[]
    {
      this.desired, this.strategy, this.active := desired, strategy, active;
      status, conditions := Counters(0, 0, 0, 0), map[];
    }

    predicate IsDegraded()
      reads this
    {
      Degraded in conditions && conditions[Degraded].holds
    }

    /** Why the cluster state is invalid, if it is: the first reason that
        applies. */
    ghost function Invalid(view: Cluster, nodesManaged: bool): Option<Reason>
      requires desired.Some?
    {
      if CountKind(view, Ready) == 0 && forall i :: i in view ==> view[i] != [] then Some(NoReadyMachines)
      else if !nodesManaged then Some(UnmanagedNodes)
      else if |view.Keys| > desired.value then Some(ExcessIndexes)
      else if !FewUpdated(view, strategy) then Some(ExcessUpdatedReplicas)
      else if !NoErroredReplacement(view) then Some(FailedReplacement)
      else None
    }

    /** What validation makes of the conditions: nothing in a valid state; in an
        invalid one the set is degraded for the reason and not progressing. */
    ghost function Validated(conditions: map<ConditionType, Condition>, invalid: Option<Reason>): map<ConditionType, Condition> {
      if invalid.None? then conditions
      else conditions[Progressing := Condition(false, OperatorDegraded)][Degraded := Condition(true, invalid.value)]
    }

    /** The conditions computed from the machines of a view. */
    ghost function Reported(conditions: map<ConditionType, Condition>, view: Cluster): map<ConditionType, Condition>
      requires desired.Some?
    {
      conditions[Available := AvailableCondition(CountersOf(view))][Degraded := DegradedCondition(CountersOf(view))]
                [Progressing := ProgressingCondition(desired.value, CountersOf(view))]
    }

    /** Sets the counters and the three conditions; fails without replicas,
        when the progressing condition is left as it was. */
    method ReconcileStatus(view: Cluster) returns (ok: bool)
      modifies this`status, this`conditions
      ensures ok <==> desired.Some?
      ensures status == CountersOf(view)
      ensures ok ==> conditions == Reported(old(conditions), view)
      ensures !ok ==>
                conditions == old(conditions)[Available := AvailableCondition(status)][Degraded := DegradedCondition(status)]
    {
      status := CountAll(view);
      conditions := conditions[Available := AvailableCondition(status)];
      conditions := conditions[Degraded := DegradedCondition(status)];
      if desired.None? { return false; }
      conditions := conditions[Progressing := ProgressingCondition(desired.value, status)];
      return true;
    }

    method SetInvalid(reason: Reason)
      modifies this`conditions
      ensures conditions == old(conditions)[Progressing := Condition(false, OperatorDegraded)][Degraded := Condition(true, reason)]
    {
      conditions := conditions[Progressing := Condition(false, OperatorDegraded)];
      conditions := conditions[Degraded := Condition(true, reason)];
    }

    /** The checks, in order; the first that fails degrades the set. The first
        check misses clusters with an empty index, but then the set is degraded
        already when no machine is ready. nodesManaged says whether every control
        plane node belongs to a machine; listing the nodes may fail, and that
        is returned as an error. */
    method ValidateClusterState(view: Cluster, nodesManaged: Option<bool>) returns (ok: bool)
      requires desired.Some? && (IsDegraded() <==> CountKind(view, Ready) == 0)
      modifies this`conditions
      ensures !ok <==> nodesManaged.None? && |NotReady(view)| != |view.Keys|
      ensures !ok ==> conditions == old(conditions)
      ensures ok ==> Degraded in conditions && Progressing in conditions
      ensures ok ==> (IsDegraded() <==> !ValidState(view, desired.value, strategy, nodesManaged == Some(true)))
      ensures ok && Degraded in old(conditions) && Progressing in old(conditions) ==>
                conditions == Validated(old(conditions), Invalid(view, nodesManaged == Some(true)))
      ensures ok ==> forall c :: c in old(conditions) && c != Degraded && c != Progressing ==>
                       c in conditions && conditions[c] == old(conditions)[c]
    {
      var lacking := CountNotReady(view);
      NoneReady(view);
      if lacking == |view.Keys| {
        SetInvalid(NoReadyMachines);
        return true;
      }
      if nodesManaged.None? { return false; }
      if !nodesManaged.value {
        SetInvalid(UnmanagedNodes);
        return true;
      }
      if |view.Keys| > desired.value {
        SetInvalid(ExcessIndexes);
        return true;
      }
      var few := CheckUpdated(view, strategy);
      if !few {
        SetInvalid(ExcessUpdatedReplicas);
        return true;
      }
      var sound := CheckReplacements(view);
      if !sound {
        SetInvalid(FailedReplacement);
        return true;
      }
      if Degraded !in conditions { conditions := conditions[Degraded := Condition(false, AsExpected)]; }
      if Progressing !in conditions { conditions := conditions[Progressing := Condition(false, AsExpected)]; }
      return true;
    }

    /** Whether the update strategies get to act on a view; ownersSet says
        whether the machines' owner references could be set. */
    method ReconcileMachines(view: Cluster, nodesManaged: Option<bool>, ownersSet: bool) returns (acts: bool)
      modifies this`status, this`conditions
      ensures acts <==> desired.Some? && active && ownersSet && nodesManaged.Some? &&
                        ValidState(view, desired.value, strategy, nodesManaged.value)
      ensures status == CountersOf(view)
      ensures desired.Some? && nodesManaged.Some? ==>
                conditions == Validated(Reported(old(conditions), view), Invalid(view, nodesManaged.value))
      ensures acts ==>
                && Available in conditions && (conditions[Available].holds <==> Unavailable(view) == {})
                && Progressing in conditions
                && (conditions[Progressing].holds <==>
                      CountKind(view, Updated) < desired.value || CountKind(view, Ready) > desired.value)
      ensures desired.Some? && nodesManaged.Some? && CountKind(view, Ready) > 0 &&
              !ValidState(view, desired.value, strategy, nodesManaged.value) ==>
                && Degraded in conditions && conditions[Degraded].holds
                && Progressing in conditions && !conditions[Progressing].holds
    {
      var ok := ReconcileStatus(view);
      if !ok { return false; }
      ok := ValidateClusterState(view, nodesManaged);
      if !ok { return false; }
      if IsDegraded() { return false; }
      if !active { return false; }
      return ownersSet;
    }
  }

  /** The indexes that have machines, none of them ready. */
  ghost function NotReady(view: Cluster): set<int> {
    set i | i in view && view[i] != [] && Select(view[i], Ready) == []
  }

  method CountNotReady(view: Cluster) returns (count: nat)
    ensures count == |NotReady(view)|
  {
    count := 0;
    var rest := view.Keys;
    while rest != {}
      invariant rest <= view.Keys
      invariant count == |NotReady(view) - rest|
      decreases rest
    {
      var i := TakeAny(rest);
      var ready := FilterMachines(view[i], Ready);
      OneFewer(NotReady(view), rest, i);
      if view[i] != [] && ready == [] { count := count + 1; }
      rest := rest - {i};
    }
    assert NotReady(view) - {} == NotReady(view);
  }

  /** All indexes lack a ready machine in the sense of the check exactly when no
      machine is ready and no index is without machines. */
  lemma NoneReady(view: Cluster)
    ensures |NotReady(view)| == |view.Keys|
            <==> CountKind(view, Ready) == 0 && forall i :: i in view ==> view[i] != []
  {
    if |NotReady(view)| == |view.Keys| {
      SubsetSize(NotReady(view), view.Keys);
      forall i | i in view.Keys ensures KindCounts(view, Ready)(i) <= 0 && view[i] != [] {
        assert i in NotReady(view);
      }
      SumConstant(view.Keys, KindCounts(view, Ready), 0);
    }
    if CountKind(view, Ready) == 0 && forall i :: i in view ==> view[i] != [] {
      forall i | i in view ensures i in NotReady(view) {
        SumRemove(view.Keys, KindCounts(view, Ready), i);
      }
      assert NotReady(view) == view.Keys;
    }
  }

  method CheckUpdated(view: Cluster, strategy: Strategy) returns (ok: bool)
    ensures ok <==> FewUpdated(view, strategy)
  {
    var rest := view.Keys;
    while rest != {}
      invariant rest <= view.Keys
      invariant strategy == OnDelete ==> forall i :: i in view && i !in rest ==> |Select(view[i], Updated)| <= 1
      decreases rest
    {
      var i := TakeAny(rest);
      var updated := FilterMachines(view[i], Updated);
      if |updated| > 1 && strategy == OnDelete {
        return false;
      }
      rest := rest - {i};
    }
    return true;
  }

  method CheckReplacements(view: Cluster) returns (ok: bool)
    ensures ok <==> NoErroredReplacement(view)
  {
    var rest := view.Keys;
    ok := true;
    while rest != {}
      invariant rest <= view.Keys
      invariant ok ==> forall i, m :: i in view && i !in rest && Select(view[i], NeedsReplacement) != [] && m in Select(view[i], Pending) ==>
                  m.errorMessage == ""
      invariant !ok ==> !NoErroredReplacement(view)
      decreases rest
    {
      var i := TakeAny(rest);
      var errored := FindErrored(view[i]);
      if errored { ok := false; }
      rest := rest - {i};
    }
  }
}
