/** The indexes the controller works on: machines grouped by index, and indexes
    without machines added until there are as many as desired replicas. Are
    they the indexes the allocation maps to failure domains? */
module Indexes {
  import opened Counting
  import opened FailureDomains
  import opened Machines
  import opened Updates
  import opened Mapping
  import opened MappingTheorems
  import opened MappingBase
  import opened MappingRuns

  // --------------------------------------------------------------- grouping

  /** The machines of an index, in the order listed. */
  function OfIndex(infos: seq<MachineInfo>, i: int): (r: seq<MachineInfo>)
    ensures forall m :: m in r <==> m in infos && m.index == i
  {
    if infos == [] then []
    else
      var init, last := infos[..|infos| - 1], infos[|infos| - 1];
      assert infos == init + [last];
      if last.index == i then OfIndex(init, i) + [last] else OfIndex(init, i)
  }

  function IndexesOf(infos: seq<MachineInfo>): set<int> {
    set m | m in infos :: m.index
  }

  /** Every index holds exactly the machines of that index, in order. */
  ghost predicate HoldsLists(out: Cluster, infos: seq<MachineInfo>) {
    forall k :: k in out ==> out[k] == OfIndex(infos, k)
  }

  method GroupByIndex(infos: seq<MachineInfo>) returns (out: Cluster)
    ensures out.Keys == IndexesOf(infos)
    ensures HoldsLists(out, infos)
  {
    out := map[];
    for n := 0 to |infos|
      invariant out.Keys == IndexesOf(infos[..n])
      invariant forall i :: i in out ==> out[i] == OfIndex(infos[..n], i)
    {
      var m := infos[n];
      GroupOneMore(infos, n, out);
      out := out[m.index := At(out, m.index) + [m]];
    }
    assert infos[..|infos|] == infos;
  }

  lemma GroupOneMore(infos: seq<MachineInfo>, n: nat, out: Cluster)
    requires n < |infos| && out.Keys == IndexesOf(infos[..n])
    requires forall i :: i in out ==> out[i] == OfIndex(infos[..n], i)
    ensures out.Keys + {infos[n].index} == IndexesOf(infos[..n + 1])
    ensures OfIndex(infos[..n + 1], infos[n].index) == At(out, infos[n].index) + [infos[n]]
    ensures forall i :: i != infos[n].index ==> OfIndex(infos[..n + 1], i) == OfIndex(infos[..n], i)
  {
    var m := infos[n];
    assert infos[..n + 1] == infos[..n] + [m];
    assert infos[..n + 1][..n] == infos[..n];
    assert m.index in IndexesOf(infos[..n + 1]);
    NoneOfIndex(infos[..n], m.index);
  }

  lemma NoneOfIndex(infos: seq<MachineInfo>, i: int)
    ensures i !in IndexesOf(infos) ==> OfIndex(infos, i) == []
  {
    var r := OfIndex(infos, i);
    if r != [] {
      assert r[0] in r;
    }
  }

  // ---------------------------------------------------------------- filling

  /** The desired indexes, those from 0 to one below the replicas. */
  function Desired(replicas: nat): (s: set<int>)
    ensures forall i :: i in s <==> 0 <= i < replicas
  {
    if replicas == 0 then {} else Desired(replicas - 1) + {replicas - 1}
  }

  lemma {:induction false} DesiredSize(replicas: nat)
    ensures |Desired(replicas)| == replicas
  {
    if replicas > 0 {
      DesiredSize(replicas - 1);
      assert Desired(replicas) == Desired(replicas - 1) + {replicas - 1};
    }
  }

  /** How many indexes are to be added. */
  function Lack(indexes: set<int>, replicas: nat): nat {
    if |indexes| >= replicas then 0 else replicas - |indexes|
  }

  /** The indexes the controller works on: those of the machines, and the
      lowest free ones, as many as are lacking. */
  ghost function ControllerIndexes(indexes: set<int>, replicas: nat): set<int> {
    indexes + Lowest(Desired(replicas) - indexes, Lack(indexes, replicas))
  }

  /** Filling has reached i: the indexes added so far are all the free ones
      below i. */
  ghost predicate FilledBelow(indexes: set<int>, replicas: nat, added: set<int>, i: int) {
    && added !! indexes && added <= Desired(replicas)
    && (forall k :: k in added ==> 0 <= k < i)
    && (forall k :: 0 <= k < i ==> k in indexes || k in added)
  }

  /** Once all indexes below the replicas are filled, none is lacking. */
  lemma AllFilled(indexes: set<int>, replicas: nat, added: set<int>, i: int)
    requires FilledBelow(indexes, replicas, added, i) && i >= replicas
    ensures |indexes + added| >= replicas
  {
    DesiredSize(replicas);
    SubsetSize(Desired(replicas), indexes + added);
  }

  lemma {:induction false} LowestUnique(free: set<int>, added: set<int>)
    requires added <= free && forall x, y :: x in added && y in free - added ==> x < y
    ensures Lowest(free, |added|) == added
    decreases added
  {
    if added != {} {
      var x := Least(free);
      var a := Pick(added);
      assert x in added || x in free - added;
      assert x in added;
      var rest := added - {x};
      assert |rest| == |added| - 1;
      assert free - {x} - rest == free - added;
      LowestUnique(free - {x}, rest);
    }
  }

  lemma FillingIsLowest(indexes: set<int>, replicas: nat, added: set<int>, i: int)
    requires FilledBelow(indexes, replicas, added, i) && |added| == Lack(indexes, replicas)
    ensures indexes + added == ControllerIndexes(indexes, replicas)
  {
    var free := Desired(replicas) - indexes;
    LowestUnique(free, added);
  }

  ghost predicate FillingKeys(indexes: set<int>, replicas: nat, keys: set<int>, i: int) {
    && 0 <= i <= replicas && indexes <= keys
    && FilledBelow(indexes, replicas, keys - indexes, i)
    && |keys| <= Max(|indexes|, replicas)
  }

  lemma FilledNext(indexes: set<int>, replicas: nat, keys: set<int>, i: int)
    requires FillingKeys(indexes, replicas, keys, i) && |keys| < replicas
    ensures FillingKeys(indexes, replicas, keys + {i}, i + 1)
  {
    var added := keys - indexes;
    assert keys == indexes + added;
    if i == replicas { AllFilled(indexes, replicas, added, i); }
    if i in keys {
      assert keys + {i} == keys;
    } else {
      assert keys + {i} - indexes == added + {i};
    }
  }

  lemma FilledUp(indexes: set<int>, replicas: nat, keys: set<int>, i: int)
    requires FillingKeys(indexes, replicas, keys, i) && |keys| >= replicas
    ensures keys == ControllerIndexes(indexes, replicas)
  {
    var added := keys - indexes;
    assert keys == indexes + added;
    FillingIsLowest(indexes, replicas, added, i);
  }

  method FillAt(ghost infos: seq<MachineInfo>, out: Cluster, i: int) returns (next: Cluster)
    requires HoldsLists(out, infos) && IndexesOf(infos) <= out.Keys
    ensures HoldsLists(next, infos) && next.Keys == out.Keys + {i}
  {
    if i in out {
      assert out.Keys + {i} == out.Keys;
      return out;
    }
    NoneOfIndex(infos, i);
    next := out[i := []];
  }

  /** Groups machines by index and adds empty indexes, lowest first, until there
      are as many as replicas. The loop ends at the latest with i == replicas,
      whatever the indexes of the machines. */
  method MachineInfosByIndex(replicas: Option<nat>, infos: seq<MachineInfo>) returns (r: Option<Cluster>)
    ensures r.Some? <==> replicas.Some?
    ensures r.Some? ==>
              && r.value.Keys == ControllerIndexes(IndexesOf(infos), replicas.value)
              && HoldsLists(r.value, infos)
  {
    if replicas.None? { return None; }
    var out := GroupByIndex(infos);
    var i := 0;
    ghost var indexes := IndexesOf(infos);
    assert out.Keys - indexes == {};
    while |out.Keys| < replicas.value
      invariant FillingKeys(indexes, replicas.value, out.Keys, i)
      invariant HoldsLists(out, infos)
      decreases replicas.value - i
    {
      FilledNext(indexes, replicas.value, out.Keys, i);
      out := FillAt(infos, out, i);
      i := i + 1;
    }
    FilledUp(indexes, replicas.value, out.Keys, i);
    return Some(out);
  }

  // ----------------------------------------------------------- conservation

  ghost function IndexLengths(infos: seq<MachineInfo>): int -> nat {
    i => |OfIndex(infos, i)|
  }

  lemma {:induction false} SumOfIndexLengths(infos: seq<MachineInfo>, keys: set<int>)
    requires IndexesOf(infos) <= keys
    ensures Sum(keys, IndexLengths(infos)) == |infos|
  {
    if infos == [] {
      SumConstant(keys, IndexLengths(infos), 0);
    } else {
      var init, last := infos[..|infos| - 1], infos[|infos| - 1];
      assert infos == init + [last];
      assert last.index in IndexesOf(infos);
      SumOfIndexLengths(init, keys);
      SumRemove(keys, IndexLengths(init), last.index);
      SumRemove(keys, IndexLengths(infos), last.index);
      SumMonotone(keys - {last.index}, IndexLengths(init), IndexLengths(infos));
    }
  }

  /** The machines of an index are in the order listed: grouping distributes over
      concatenation. */
  lemma {:induction false} OfIndexConcat(a: seq<MachineInfo>, b: seq<MachineInfo>, i: int)
    ensures OfIndex(a + b, i) == OfIndex(a, i) + OfIndex(b, i)
  {
    if b == [] {
      assert a + b == a;
    } else {
      assert (a + b)[..|a + b| - 1] == a + b[..|b| - 1];
      OfIndexConcat(a, b[..|b| - 1], i);
    }
  }

  /** Grouping loses and invents no machine. */
  lemma GroupingConserves(infos: seq<MachineInfo>, view: Cluster)
    requires HoldsLists(view, infos) && IndexesOf(infos) <= view.Keys
    ensures Total(view) == |infos| && WellGrouped(view)
    ensures forall m :: m in infos <==> m.index in view && m in view[m.index]
  {
    SumOfIndexLengths(infos, view.Keys);
    SumMonotone(view.Keys, Lengths(view), IndexLengths(infos));
    forall m | m in infos ensures m.index in view {
      assert m.index in IndexesOf(infos);
    }
  }

  // -------------------------------------------------------------- agreement

  lemma EnoughFree(indexes: set<int>, replicas: nat)
    ensures |Desired(replicas) - indexes| >= Lack(indexes, replicas)
  {
    var d := Desired(replicas);
    DesiredSize(replicas);
    assert |d - indexes| + |d * indexes| == |d| by {
      assert (d - indexes) + (d * indexes) == d;
    }
    SubsetSize(d * indexes, indexes);
  }

  /** There are never fewer indexes than replicas, and no more unless the
      machines already had more. */
  lemma ControllerIndexCount(indexes: set<int>, replicas: nat)
    ensures |ControllerIndexes(indexes, replicas)| == Max(|indexes|, replicas)
  {
    EnoughFree(indexes, replicas);
    var added := Lowest(Desired(replicas) - indexes, Lack(indexes, replicas));
    assert indexes !! added;
    assert |indexes + added| == |indexes| + |added|;
  }

  lemma SpareSize(base: set<int>, indexes: set<int>)
    ensures |base - indexes| - |indexes - base| == |base| - |indexes|
  {
    assert base == (base - indexes) + (base * indexes);
    assert indexes == (indexes - base) + (base * indexes);
  }

  /** The lowest n of a set and what is left without its lowest t are the same
      n elements only if t is zero, or n is. */
  lemma LowestAndRest(s: set<int>, t: nat, n: nat)
    requires |s| == t + n
    ensures s - Lowest(s, t) == Lowest(s, n) <==> t == 0 || n == 0
  {
    if t == 0 { LowestAll(s, n); }
    if n == 0 { LowestAll(s, t); }
    if t > 0 && n > 0 {
      var x := Least(s);
      assert x in Lowest(s, t) && x in Lowest(s, n);
    }
  }

  lemma SameAdditions(indexes: set<int>, a: set<int>, b: set<int>)
    requires a !! indexes && b !! indexes
    ensures indexes + a == indexes + b <==> a == b
  {
    if indexes + a == indexes + b {
      assert a == (indexes + a) - indexes;
      assert b == (indexes + b) - indexes;
    }
  }

  lemma EnoughIndexesAgree(base: set<int>, indexes: set<int>, replicas: nat)
    requires |indexes| >= replicas && |base - indexes| == |indexes - base|
    ensures indexes + ((base - indexes) - Lowest(base - indexes, |indexes - base|)) == ControllerIndexes(indexes, replicas)
  {
    LowestAll(base - indexes, |indexes - base|);
    assert Lowest(Desired(replicas) - indexes, 0) == {};
  }

  lemma FewIndexesAgree(indexes: set<int>, replicas: nat)
    requires |indexes| < replicas
    ensures var spare, lacking := Desired(replicas) - indexes, indexes - Desired(replicas);
            indexes + (spare - Lowest(spare, |lacking|)) == ControllerIndexes(indexes, replicas)
            <==> indexes <= Desired(replicas)
  {
    var spare, lacking := Desired(replicas) - indexes, indexes - Desired(replicas);
    DesiredSize(replicas);
    SpareSize(Desired(replicas), indexes);
    LowestAndRest(spare, |lacking|, replicas - |indexes|);
    SameAdditions(indexes, spare - Lowest(spare, |lacking|), Lowest(spare, replicas - |indexes|));
    assert lacking == {} <==> indexes <= Desired(replicas);
  }

  lemma CandidatesAgree(base: Mapping, machines: Mapping, replicas: nat)
    requires base.Keys == Desired(Max(replicas, |machines|))
    ensures Candidates(base, machines).Keys == ControllerIndexes(machines.Keys, replicas)
            <==> |machines| >= replicas || machines.Keys <= Desired(replicas)
  {
    assert |machines| == |machines.Keys| && |base| == |base.Keys|;
    DesiredSize(Max(replicas, |machines|));
    CandidatesKeys(base, machines);
    SpareSize(base.Keys, machines.Keys);
    if |machines.Keys| >= replicas {
      EnoughIndexesAgree(base.Keys, machines.Keys, replicas);
    } else {
      FewIndexesAgree(machines.Keys, replicas);
    }
  }

  /** Index agreement: the indexes the controller works on are exactly those
      that the allocation maps to failure domains, so that each one it creates
      a machine for has a domain, if and only if the machines have at least as
      many indexes as replicas, or none of their indexes lies outside the
      desired ones. Otherwise the two fill up differently: the controller takes
      the lowest free indexes, the allocation keeps the highest. */
  lemma IndexAgreement(spec: Spec, order: seq<FailureDomain>, machines: Mapping, deleting: set<int>)
    requires spec.replicas > 0 && order != []
    ensures spec.Allocate(order, machines, deleting).Keys == ControllerIndexes(machines.Keys, spec.replicas)
            <==> |machines| >= spec.replicas || machines.Keys <= Desired(spec.replicas)
  {
    var base := RoundRobin(order, spec.Indexes(machines));
    RoundRobinSize(order, spec.Indexes(machines));
    ReconcileCovers(base, machines, deleting);
    assert base.Keys == Desired(spec.Indexes(machines));
    CandidatesAgree(base, machines, spec.replicas);
  }

  /** Under the same condition, and only then, a machine can be created at every
      index the controller works on: elsewhere some index has no failure domain
      to inject. */
  lemma EveryIndexCreatable(spec: Spec, order: seq<FailureDomain>, machines: Mapping, deleting: set<int>)
    requires spec.replicas > 0 && order != []
    ensures spec.Allocate(order, machines, deleting) != map[]
    ensures ControllerIndexes(machines.Keys, spec.replicas) <= spec.Allocate(order, machines, deleting).Keys
            <==> |machines| >= spec.replicas || machines.Keys <= Desired(spec.replicas)
  {
    var base := RoundRobin(order, spec.Indexes(machines));
    RoundRobinSize(order, spec.Indexes(machines));
    ReconcileCovers(base, machines, deleting);
    IndexAgreement(spec, order, machines, deleting);
    ControllerIndexCount(machines.Keys, spec.replicas);
    var r := spec.Allocate(order, machines, deleting);
    assert |r| == |r.Keys| && |machines| == |machines.Keys|;
    if ControllerIndexes(machines.Keys, spec.replicas) <= r.Keys {
      SubsetSize(ControllerIndexes(machines.Keys, spec.replicas), r.Keys);
    }
  }
}
