/** The whole allocation, base mapping included, and what happens when it is
    recomputed while machines are replaced one by one. */
module MappingRuns {
  import opened Counting
  import opened FailureDomains
  import opened Mapping
  import opened MappingTheorems
  import opened MappingBase

  /** A control plane machine set: desired replicas and the failure domains
      completed from the template. */
  datatype Spec = Spec(replicas: nat, completed: seq<FailureDomain>) {
    ghost predicate Valid() { replicas > 0 && completed != [] && Distinct(completed) }

    ghost function Known(): set<FailureDomain> { SetOf(completed) }

    /** The indexes to allocate: the replicas, or more if machines use more. */
    function Indexes(machines: Mapping): nat { Max(replicas, |machines|) }

    /** The most indexes a domain may hold. */
    ghost function Limit(machines: Mapping): nat
      requires Valid()
    {
      ShareLimit(Indexes(machines), |completed|)
    }

    /** The mapping of indexes to failure domains, for an outcome of the sort. */
    ghost function Allocate(order: seq<FailureDomain>, machines: Mapping, deleting: set<int>): Mapping
      requires order != [] && replicas > 0
    {
      RoundRobinSize(order, Indexes(machines));
      Reconcile(RoundRobin(order, Indexes(machines)), machines, deleting)
    }

    /** The deleting-only indexes do not keep a domain's other machines from
        filling its share. */
    ghost predicate Harmless(order: seq<FailureDomain>, machines: Mapping, deleting: set<int>) {
      order != [] && replicas > 0 && DeletingHarmless(RoundRobin(order, Indexes(machines)), machines, deleting)
    }

    /** Machine indexes to move, and indexes without a machine. */
    ghost function ToMove(machines: Mapping): nat
      requires Valid()
    {
      Work(machines, Known(), Limit(machines))
    }

    ghost function Missing(machines: Mapping): nat { Indexes(machines) - |machines| }
  }

  ghost predicate IsOutcome(spec: Spec, order: seq<FailureDomain>, machines: Mapping) {
    spec.Valid() && IsOrder(order, spec.completed, machines)
  }

  /** What a base mapping built from any outcome of the sort looks like. */
  lemma BaseFacts(spec: Spec, order: seq<FailureDomain>, machines: Mapping)
    requires IsOutcome(spec, order, machines)
    ensures Distinct(order) && order != [] && |order| == |spec.completed|
    ensures var base := RoundRobin(order, spec.Indexes(machines));
            && |base| == spec.Indexes(machines)
            && BalancedBase(base)
            && MaxPerDomain(base) == spec.Limit(machines)
            && base.Values <= spec.Known()
    ensures forall d :: d in machines.Values ==>
              (d in RoundRobin(order, spec.Indexes(machines)).Values <==> d in spec.Known())
  {
    var n := spec.Indexes(machines);
    OrderIsDistinct(order, spec.completed, machines);
    RoundRobinSize(order, n);
    RoundRobinBalanced(order, n);
    RoundRobinValues(order, n);
    forall d | d in RoundRobin(order, n).Values ensures d in spec.Known() {
      assert d in order[..Min(n, |order|)];
      assert d in SetOf(order);
    }
    forall d | d in machines.Values && d in spec.Known() ensures d in RoundRobin(order, n).Values {
      assert d in SetOf(order);
      PresentInBase(order, machines, n, d);
    }
  }

  /** The allocation covers every machine index, has as many indexes as there
      are to allocate, uses configured domains only, and keeps every domain
      within the limit. */
  lemma AllocationAdmissible(spec: Spec, order: seq<FailureDomain>, machines: Mapping, deleting: set<int>)
    requires IsOutcome(spec, order, machines) && spec.Harmless(order, machines, deleting)
    ensures var r := spec.Allocate(order, machines, deleting);
            |r| == spec.Indexes(machines) && Admissible(machines, spec.Known(), spec.Limit(machines), r)
  {
    BaseFacts(spec, order, machines);
    var base := RoundRobin(order, spec.Indexes(machines));
    var r := spec.Allocate(order, machines, deleting);
    ReconcileCovers(base, machines, deleting);
    forall d ensures Count(r, d) <= spec.Limit(machines) {
      AllocationBalanced(spec, order, machines, deleting, d);
    }
  }

  lemma AllocationBalanced(spec: Spec, order: seq<FailureDomain>, machines: Mapping, deleting: set<int>, d: FailureDomain)
    requires IsOutcome(spec, order, machines) && spec.Harmless(order, machines, deleting)
    ensures Count(spec.Allocate(order, machines, deleting), d) <= spec.Limit(machines)
  {
    BaseFacts(spec, order, machines);
    Balance(RoundRobin(order, spec.Indexes(machines)), machines, deleting, d);
  }

  /** The number of machine indexes the allocation moves depends on the
      machines and the configured domains only, and is least possible. */
  lemma AllocationMoves(spec: Spec, order: seq<FailureDomain>, machines: Mapping, deleting: set<int>)
    requires IsOutcome(spec, order, machines) && spec.Harmless(order, machines, deleting)
    ensures machines.Keys <= spec.Allocate(order, machines, deleting).Keys
    ensures |Moved(machines, spec.Allocate(order, machines, deleting))| == spec.ToMove(machines)
    ensures forall other :: Admissible(machines, spec.Known(), spec.Limit(machines), other) ==>
              |Moved(machines, spec.Allocate(order, machines, deleting))| <= |Moved(machines, other)|
  {
    BaseFacts(spec, order, machines);
    var base := RoundRobin(order, spec.Indexes(machines));
    ExactMovement(base, machines, deleting);
    SumMonotone(machines.Values, Surpluses(machines, base.Values, spec.Limit(machines)),
                Surpluses(machines, spec.Known(), spec.Limit(machines)));
    forall other | Admissible(machines, spec.Known(), spec.Limit(machines), other)
      ensures spec.ToMove(machines) <= |Moved(machines, other)|
    {
      MovementLowerBound(machines, spec.Known(), spec.Limit(machines), other);
    }
  }

  /** When the number of domains divides the number of indexes, every
      configured domain gets exactly its even share. */
  lemma EvenSplit(spec: Spec, order: seq<FailureDomain>, machines: Mapping, deleting: set<int>)
    requires IsOutcome(spec, order, machines) && spec.Harmless(order, machines, deleting)
    requires spec.Indexes(machines) % |spec.completed| == 0
    ensures forall d :: d in spec.Known() ==>
              Count(spec.Allocate(order, machines, deleting), d) == spec.Indexes(machines) / |spec.completed|
  {
    var r := spec.Allocate(order, machines, deleting);
    var n, k := spec.Indexes(machines), |spec.completed|;
    AllocationAdmissible(spec, order, machines, deleting);
    EvenShare(n, k);
    DistinctSize(spec.completed);
    SumOfCounts(r, spec.Known());
    SumConstant(spec.Known(), Counts(r), n / k);
    assert forall d :: d in spec.Known() ==> Counts(r)(d) == n / k;
  }

  /** Computing again on its own outcome changes nothing, whatever indexes are
      deleting by then and however the sort falls this time. */
  lemma AllocationFixpoint(spec: Spec, order: seq<FailureDomain>, machines: Mapping, deleting: set<int>,
                           again: seq<FailureDomain>, deletingNow: set<int>)
    requires IsOutcome(spec, order, machines) && spec.Harmless(order, machines, deleting)
    requires IsOutcome(spec, again, spec.Allocate(order, machines, deleting))
    ensures var r := spec.Allocate(order, machines, deleting);
            spec.Allocate(again, r, deletingNow) == r
  {
    var r := spec.Allocate(order, machines, deleting);
    AllocationAdmissible(spec, order, machines, deleting);
    BaseFacts(spec, again, r);
    var base := RoundRobin(again, spec.Indexes(r));
    assert r.Values <= base.Values;
    Fixpoint(base, r, deletingNow);
  }
}
