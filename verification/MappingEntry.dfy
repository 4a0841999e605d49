/** The entry point of the allocation: from machines, replicas and configured
    failure domains to the mapping of indexes to failure domains. */
module MappingEntry {
  import opened Counting
  import opened FailureDomains
  import opened Mapping
  import opened MappingTheorems
  import opened MappingBase
  import opened MappingRuns
  import opened MappingReconciler
  import opened MappingProvider

  /** The completions of a list of failure domains against the template. */
  ghost predicate AreCompletions(fds: seq<FailureDomain>, t: Option<FailureDomain>, completed: seq<FailureDomain>) {
    |completed| == |fds| && forall i :: 0 <= i < |fds| ==> fds[i].Complete(t) == Success(completed[i])
  }

  lemma AddedToFirst<T>(first: seq<T>, last: seq<T>, x: T)
    ensures multiset((first + [x]) + last) == multiset(first + last) + multiset{x}
  {}

  lemma AddedToLast<T>(first: seq<T>, last: seq<T>, x: T)
    ensures multiset(first + (last + [x])) == multiset(first + last) + multiset{x}
  {
    assert first + (last + [x]) == (first + last) + [x];
  }

  /** Sorts domains that some machine is in before the others. */
  method DeprioritiseAbsent(domains: seq<FailureDomain>, present: DomainSet) returns (order: seq<FailureDomain>)
    ensures multiset(order) == multiset(domains)
    ensures forall i, j :: 0 <= i < j < |order| && order[j] in present.items ==> order[i] in present.items
  {
    var first: seq<FailureDomain>, last: seq<FailureDomain> := [], [];
    for n := 0 to |domains|
      invariant multiset(first + last) == multiset(domains[..n])
      invariant forall k :: 0 <= k < |first| ==> first[k] in present.items
      invariant forall k :: 0 <= k < |last| ==> last[k] !in present.items
    {
      assert domains[..n + 1] == domains[..n] + [domains[n]];
      var has := present.Has(domains[n]);
      if has {
        AddedToFirst(first, last, domains[n]);
        first := first + [domains[n]];
      } else {
        AddedToLast(first, last, domains[n]);
        last := last + [domains[n]];
      }
    }
    assert domains[..|domains|] == domains;
    order := first + last;
  }

  /** The distinct domains the machines are in. */
  method MachineDomains(mapping: Mapping) returns (present: DomainSet)
    ensures fresh(present) && present.Valid()
    ensures forall d :: d in present.items <==> d in mapping.Values
  {
    present := new DomainSet();
    var rest := mapping.Keys;
    while rest != {}
      invariant rest <= mapping.Keys && fresh(present) && present.Valid()
      invariant forall d :: d in present.items ==> d in mapping.Values
      invariant forall i :: i in mapping && i !in rest ==> mapping[i] in present.items
      decreases rest
    {
      var i := TakeAny(rest);
      assert mapping[i] in mapping.Values;
      present.Insert([mapping[i]]);
      rest := rest - {i};
    }
    forall d | d in mapping.Values ensures d in present.items {
      var i := KeyOf(mapping, d);
    }
  }

  /** The base mapping: the completed domains dealt in turn to as many indexes
      as there are replicas, or machine indexes if those are more. */
  method CreateBaseMapping(replicas: int, fds: seq<FailureDomain>, t: Option<FailureDomain>, mapping: Mapping)
    returns (r: Outcome<Mapping>, ghost completed: seq<FailureDomain>, ghost order: seq<FailureDomain>)
    ensures replicas < 1 ==> r == Err(ReplicasRequired)
    ensures replicas >= 1 && fds == [] ==> r == Err(NoFailureDomains)
    ensures replicas >= 1 && fds != [] ==> (r.Ok? <==> AllComplete(fds, t))
    ensures replicas >= 1 && fds != [] && !AllComplete(fds, t) ==>
              exists k :: 0 <= k < |fds| && AllComplete(fds[..k], t) && fds[k].Complete(t).Failure? &&
                r == Err(NotComparable(fds[k].Complete(t).error))
    ensures r.Ok? ==>
              AreCompletions(fds, t, completed) && IsOrder(order, completed, mapping) && order != [] &&
              r.value == RoundRobin(order, Spec(replicas, completed).Indexes(mapping))
  {
    completed, order := [], [];
    if replicas < 1 {
      return Err(ReplicasRequired), completed, order;
    }
    var present := MachineDomains(mapping);
    var count := if replicas > |mapping| then replicas else |mapping|;
    if fds == [] {
      return Err(NoFailureDomains), completed, order;
    }
    var comparable := CompleteFailureDomains(fds, t);
    if comparable.Failure? {
      return Err(NotComparable(comparable.error)), completed, order;
    }
    completed := comparable.value;
    var sorted := DeprioritiseAbsent(comparable.value, present);
    order := sorted;
    assert |multiset(sorted)| == |multiset(comparable.value)|;
    var out: Mapping := map[];
    for i := 0 to count
      invariant out == RoundRobin(sorted, i)
    {
      RoundRobinStep(sorted, i);
      out := out[i as int := sorted[i % |sorted|]];
    }
    return Ok(out), completed, order;
  }

  /** The whole computation. It succeeds exactly when failure domains are
      configured, replicas are set, every machine is readable and every
      configured domain can be completed; the result is then the allocation
      for the completed domains. */
  method MapMachineIndexes(machines: seq<Machine>, replicas: int, failureDomains: seq<FailureDomain>,
                           t: Option<FailureDomain>, show: FailureDomain -> string)
    returns (r: Outcome<Mapping>, ghost spec: Spec, ghost order: seq<FailureDomain>,
             ghost mapping: Mapping, ghost refs: map<int, Machine>, ghost deleting: set<int>)
    ensures r.Ok? <==>
              failureDomains != [] && AllReadable(machines) && replicas >= 1 && AllComplete(Dedup(failureDomains), t)
    ensures failureDomains == [] ==> r == Err(NoFailureDomains)
    ensures failureDomains != [] && !AllReadable(machines) ==> r.Err? && r.error.UnreadableMachine?
    ensures failureDomains != [] && AllReadable(machines) && replicas < 1 ==> r == Err(ReplicasRequired)
    ensures failureDomains != [] && AllReadable(machines) && replicas >= 1 && r.Err? ==> r.error.NotComparable?
    ensures r.Ok? ==>
              && IsMachineMapping(machines, show, mapping, refs)
              && (forall i :: i in deleting <==>
                    AtIndex(machines, i) != [] && forall m :: m in AtIndex(machines, i) ==> m.deleting)
              && spec.replicas == replicas
              && AreCompletions(Dedup(failureDomains), t, spec.completed)
              && IsOrder(order, spec.completed, mapping) && order != []
              && r.value == spec.Allocate(order, mapping, deleting)
  {
    spec, order, mapping, refs, deleting := Spec(0, []), [], map[], map[], {};
    if failureDomains == [] {
      return Err(NoFailureDomains), spec, order, mapping, refs, deleting;
    }
    var found, references := MapIndexesToFailureDomains(machines, show);
    if found.Err? {
      return Err(found.error), spec, order, mapping, refs, deleting;
    }
    var deletingIndexes := ListDeletingIndexes(machines);
    var domains := new DomainSet();
    domains.Insert(failureDomains);
    assert failureDomains[0] in domains.items;
    ghost var completed: seq<FailureDomain>;
    ghost var sorted: seq<FailureDomain>;
    var base: Outcome<Mapping>;
    base, completed, sorted := CreateBaseMapping(replicas, domains.items, t, found.value);
    if base.Err? {
      return Err(base.error), spec, order, mapping, refs, deleting;
    }
    RoundRobinSize(sorted, Spec(replicas, completed).Indexes(found.value));
    var result := ReconcileMappings(base.value, found.value, deletingIndexes);
    return Ok(result), Spec(replicas, completed), sorted, found.value, references, deletingIndexes;
  }

  // -------------------------------------------- completion and distinctness

  /** When two values of a field become the same by completion: they are the
      same, or each is unset or the template's own. */
  predicate FieldsMerge(a: string, b: string, t: string) {
    a == b || ((a == "" || a == t) && (b == "" || b == t))
  }

  /** Distinct configured domains may complete to the same domain. For Azure
      this happens exactly when both fields merge. */
  lemma AzureCompletionsMerge(a: AzureFailureDomain, b: AzureFailureDomain, t: AzureFailureDomain)
    ensures CompleteAzure(a, t) == CompleteAzure(b, t) <==>
              FieldsMerge(a.zone, b.zone, t.zone) && FieldsMerge(a.subnet, b.subnet, t.subnet)
  {
    assert Override(a.zone, t.zone) == Override(b.zone, t.zone) <==> FieldsMerge(a.zone, b.zone, t.zone);
  }

  lemma RepeatedShares(a: FailureDomain, b: FailureDomain)
    requires a != b
    ensures SetOf([a, a, b]) == {a, b} && |SetOf([a, a, b])| == 2
    ensures Share([a, a, b], 3, a) == 2 && Share([a, a, b], 3, b) == 1
    ensures Share([a, a, b], 4, a) == 3
  {
    var order := [a, a, b];
    assert order[..1] == [a] && order[..0] == [];
    assert multiset(order) == multiset{a, a, b} && multiset([a]) == multiset{a};
    assert SetOf(order) == {a, b} && |{a, b}| == 2;
  }

  /** What that costs depends on the number of indexes, as BaseBalancedIff
      says. With a domain listed twice among three, three indexes are balanced;
      of four it gets three, more than the balanced maximum. */
  lemma DuplicateUnbalances(a: FailureDomain, b: FailureDomain)
    requires a != b
    ensures BalancedBase(RoundRobin([a, a, b], 3))
    ensures |RoundRobin([a, a, b], 4)| == 4 && RoundRobin([a, a, b], 4) != map[]
    ensures Count(RoundRobin([a, a, b], 4), a) == 3 > MaxPerDomain(RoundRobin([a, a, b], 4))
  {
    var order := [a, a, b];
    RepeatedShares(a, b);
    assert order[..3] == order;
    BaseBalancedIff(order, 3);
    RoundRobinCount(order, 4, a);
    RoundRobinSize(order, 4);
    RoundRobinValues(order, 4);
  }
}
