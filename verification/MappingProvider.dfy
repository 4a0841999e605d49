/** From the machines of the cluster to the mapping of the indexes in their
    names to failure domains, and the indexes whose machines are all being
    deleted. */
module MappingProvider {
  import opened FailureDomains
  import opened Names
  import opened Mapping

  /** A machine as the mapping sees it: its provider spec yields a failure
      domain unless it cannot be parsed. */
  datatype Machine = Machine(name: string, domain: Option<FailureDomain>, created: int, deleting: bool)

  datatype MappingError =
    | NoFailureDomains
    | ReplicasRequired
    | UnreadableMachine(name: string)
    | NotComparable(cause: Error)

  datatype Outcome<+T> = Ok(value: T) | Err(error: MappingError)

  /** The machines of a list whose names carry index i. */
  ghost function AtIndex(machines: seq<Machine>, i: int): seq<Machine> {
    if machines == [] then []
    else
      var rest := AtIndex(machines[..|machines| - 1], i);
      var last := machines[|machines| - 1];
      if ParseIndex(last.name) == Some(i) then rest + [last] else rest
  }

  ghost predicate AllReadable(machines: seq<Machine>) {
    forall k :: 0 <= k < |machines| ==> machines[k].domain.Some?
  }

  /** What processing the machines of one index leaves as its reference: a
      machine in another domain than the reference so far replaces it unless
      it is older; a machine in the same domain always does. */
  ghost function Reference(ms: seq<Machine>, show: FailureDomain -> string): (r: Machine)
    requires ms != [] && AllReadable(ms)
    ensures r in ms
  {
    var last := ms[|ms| - 1];
    if |ms| == 1 then last
    else
      var before := Reference(ms[..|ms| - 1], show);
      if show(before.domain.value) != show(last.domain.value) && before.created > last.created then before else last
  }

  lemma {:induction false} AtIndexListed(machines: seq<Machine>, i: int)
    ensures forall m :: m in AtIndex(machines, i) <==> m in machines && ParseIndex(m.name) == Some(i)
    ensures AllReadable(machines) ==> AllReadable(AtIndex(machines, i))
  {
    if machines != [] {
      AtIndexListed(machines[..|machines| - 1], i);
      assert machines == machines[..|machines| - 1] + [machines[|machines| - 1]];
    }
  }

  /** Index i is mapped exactly if a machine is named after it, to the domain
      of its reference. */
  ghost predicate EntryOk(machines: seq<Machine>, show: FailureDomain -> string, m: Mapping, refs: map<int, Machine>, i: int)
    requires m.Keys == refs.Keys
  {
    var here := AtIndex(machines, i);
    (i in m <==> here != []) &&
    (i in m ==> AllReadable(here) && refs[i] == Reference(here, show) && refs[i].domain == Some(m[i]))
  }

  /** The mapping of machine indexes to domains, and each index's reference. */
  ghost predicate IsMachineMapping(machines: seq<Machine>, show: FailureDomain -> string, m: Mapping, refs: map<int, Machine>) {
    AllReadable(machines) && m.Keys == refs.Keys && forall i :: EntryOk(machines, show, m, refs, i)
  }

  lemma AtIndexAppend(machines: seq<Machine>, machine: Machine, i: int)
    ensures AtIndex(machines + [machine], i)
         == AtIndex(machines, i) + (if ParseIndex(machine.name) == Some(i) then [machine] else [])
  {
    var all := machines + [machine];
    assert all[..|all| - 1] == machines;
  }

  lemma MappingSkips(machines: seq<Machine>, machine: Machine, show: FailureDomain -> string, m: Mapping, refs: map<int, Machine>)
    requires IsMachineMapping(machines, show, m, refs)
    requires machine.domain.Some? && ParseIndex(machine.name).None?
    ensures IsMachineMapping(machines + [machine], show, m, refs)
  {
    forall i ensures EntryOk(machines + [machine], show, m, refs, i) {
      AtIndexAppend(machines, machine, i);
      assert EntryOk(machines, show, m, refs, i);
    }
  }

  /** Whether a machine becomes the reference of its index. */
  predicate Replaces(m: Mapping, refs: map<int, Machine>, machine: Machine, i: int, show: FailureDomain -> string)
    requires m.Keys == refs.Keys && machine.domain.Some?
  {
    i !in m || show(m[i]) == show(machine.domain.value) || refs[i].created <= machine.created
  }

  lemma MappingAdds(machines: seq<Machine>, machine: Machine, show: FailureDomain -> string, m: Mapping, refs: map<int, Machine>, i: int)
    requires IsMachineMapping(machines, show, m, refs)
    requires machine.domain.Some? && ParseIndex(machine.name) == Some(i)
    ensures if Replaces(m, refs, machine, i, show)
            then IsMachineMapping(machines + [machine], show, m[i := machine.domain.value], refs[i := machine])
            else IsMachineMapping(machines + [machine], show, m, refs)
  {
    var replaced := Replaces(m, refs, machine, i, show);
    var m2 := if replaced then m[i := machine.domain.value] else m;
    var refs2 := if replaced then refs[i := machine] else refs;
    forall j ensures EntryOk(machines + [machine], show, m2, refs2, j) {
      assert EntryOk(machines, show, m, refs, j);
      if j == i {
        EntryAdded(machines, machine, show, m, refs, i);
      } else {
        AtIndexAppend(machines, machine, j);
      }
    }
  }

  lemma EntryAdded(machines: seq<Machine>, machine: Machine, show: FailureDomain -> string, m: Mapping, refs: map<int, Machine>, i: int)
    requires m.Keys == refs.Keys && EntryOk(machines, show, m, refs, i)
    requires machine.domain.Some? && ParseIndex(machine.name) == Some(i)
    ensures if Replaces(m, refs, machine, i, show)
            then EntryOk(machines + [machine], show, m[i := machine.domain.value], refs[i := machine], i)
            else EntryOk(machines + [machine], show, m, refs, i)
  {
    AtIndexAppend(machines, machine, i);
    ReferenceAppend(AtIndex(machines, i), machine, show);
  }

  lemma ReferenceAppend(here: seq<Machine>, machine: Machine, show: FailureDomain -> string)
    requires machine.domain.Some? && AllReadable(here)
    ensures AllReadable(here + [machine])
    ensures Reference(here + [machine], show) ==
            if here == [] then machine
            else
              var before := Reference(here, show);
              if show(before.domain.value) != show(machine.domain.value) && before.created > machine.created
              then before else machine
  {
    var all := here + [machine];
    assert all[..|all| - 1] == here;
  }

  /** Maps each index found in a machine name to a failure domain. show renders
      a failure domain; conflicts are decided by comparing renderings. */
  method MapIndexesToFailureDomains(machines: seq<Machine>, show: FailureDomain -> string)
    returns (r: Outcome<Mapping>, ghost refs: map<int, Machine>)
    ensures r.Ok? <==> AllReadable(machines)
    ensures r.Ok? ==> IsMachineMapping(machines, show, r.value, refs)
    ensures r.Err? ==>
              exists k :: 0 <= k < |machines| && machines[k].domain.None? && AllReadable(machines[..k]) &&
                r.error == UnreadableMachine(machines[k].name)
  {
    var out: Mapping := map[];
    var indexToMachine: map<int, Machine> := map[];
    for n := 0 to |machines|
      invariant IsMachineMapping(machines[..n], show, out, indexToMachine)
    {
      var machine := machines[n];
      assert machines[..n + 1] == machines[..n] + [machine];
      if machine.domain.None? {
        return Err(UnreadableMachine(machine.name)), map[];
      }
      var index := ParseIndex(machine.name);
      if index.None? {
        MappingSkips(machines[..n], machine, show, out, indexToMachine);
        continue;
      }
      MappingAdds(machines[..n], machine, show, out, indexToMachine, index.value);
      if index.value in out && show(out[index.value]) != show(machine.domain.value) {
        if indexToMachine[index.value].created > machine.created {
          continue;
        }
      }
      out := out[index.value := machine.domain.value];
      indexToMachine := indexToMachine[index.value := machine];
    }
    assert machines[..|machines|] == machines;
    return Ok(out), indexToMachine;
  }

  // ------------------------------------------------------ newest machine wins

  /** The position of the newest machine, the last one of several. */
  ghost function Newest(ms: seq<Machine>): (p: nat)
    requires ms != []
    ensures p < |ms|
    ensures forall k :: 0 <= k < |ms| ==> ms[k].created <= ms[p].created
    ensures forall k :: p < k < |ms| ==> ms[k].created < ms[p].created
  {
    if |ms| == 1 then 0
    else
      var p := Newest(ms[..|ms| - 1]);
      if ms[|ms| - 1].created >= ms[p].created then |ms| - 1 else p
  }

  /** The machines listed after position p are in other domains than the one
      there. */
  ghost predicate LastOfDomain(ms: seq<Machine>, p: nat, show: FailureDomain -> string)
    requires p < |ms| && AllReadable(ms)
  {
    forall k :: p < k < |ms| ==> show(ms[k].domain.value) != show(ms[p].domain.value)
  }

  lemma LastOfDomainStep(ms: seq<Machine>, p: nat, show: FailureDomain -> string)
    requires p < |ms| - 1 && AllReadable(ms)
    ensures var init, last := ms[..|ms| - 1], ms[|ms| - 1];
            LastOfDomain(ms, p, show) <==>
              LastOfDomain(init, p, show) && show(last.domain.value) != show(init[p].domain.value)
  {
    var init := ms[..|ms| - 1];
    if LastOfDomain(ms, p, show) {
      forall k | p < k < |init| ensures show(init[k].domain.value) != show(init[p].domain.value) {
        assert init[k] == ms[k];
      }
    }
  }

  /** The newest machine of an index is its reference if and only if no machine
      in its domain is listed after it. Otherwise the reference is older. */
  lemma {:induction false} NewestIsReference(ms: seq<Machine>, show: FailureDomain -> string)
    requires ms != [] && AllReadable(ms)
    ensures LastOfDomain(ms, Newest(ms), show) ==> Reference(ms, show) == ms[Newest(ms)]
    ensures Reference(ms, show).created == ms[Newest(ms)].created <==> LastOfDomain(ms, Newest(ms), show)
  {
    if |ms| > 1 {
      var init, last := ms[..|ms| - 1], ms[|ms| - 1];
      NewestIsReference(init, show);
      var before := Reference(init, show);
      var k :| 0 <= k < |init| && init[k] == before;
      if last.created < init[Newest(init)].created {
        LastOfDomainStep(ms, Newest(init), show);
      }
    }
  }

  /** No machine of the list is in the same domain as an earlier, newer one. */
  ghost predicate SameDomainInOrder(ms: seq<Machine>, show: FailureDomain -> string)
    requires AllReadable(ms)
  {
    forall j, k :: 0 <= j < k < |ms| && show(ms[j].domain.value) == show(ms[k].domain.value) ==>
      ms[j].created <= ms[k].created
  }

  /** So the newest decides when machines in one domain come in order of
      creation. */
  lemma NewestDecides(ms: seq<Machine>, show: FailureDomain -> string)
    requires ms != [] && AllReadable(ms) && SameDomainInOrder(ms, show)
    ensures forall m :: m in ms ==> m.created <= Reference(ms, show).created
  {
    NewestIsReference(ms, show);
  }

  /** With two machines at an index the newest decides its domain in any case. */
  lemma NewerOfTwo(m1: Machine, m2: Machine, show: FailureDomain -> string)
    requires m1.domain.Some? && m2.domain.Some?
    ensures var newest := if m1.created > m2.created then m1 else m2;
            show(Reference([m1, m2], show).domain.value) == show(newest.domain.value)
  {
    NewestIsReference([m1, m2], show);
  }

  /** With three it need not: an older machine in the same domain becomes the
      reference, and one that is newer than that takes over. */
  lemma OlderOfThree(m1: Machine, m2: Machine, m3: Machine, show: FailureDomain -> string)
    requires m1.domain.Some? && m2.domain == m1.domain && m3.domain.Some?
    requires show(m3.domain.value) != show(m1.domain.value)
    requires m2.created < m3.created < m1.created
    ensures Reference([m1, m2, m3], show) == m3
  {
    assert [m1, m2, m3][..2] == [m1, m2];
    assert [m1, m2][..1] == [m1];
  }

  // --------------------------------------------------------- deleting indexes

  /** Some of the first n machines is named after i and is, or is not, being
      deleted. */
  ghost predicate Named(machines: seq<Machine>, n: nat, i: int, deleting: bool)
    requires n <= |machines|
  {
    exists k :: 0 <= k < n && ParseIndex(machines[k].name) == Some(i) && machines[k].deleting == deleting
  }

  lemma NamedNext(machines: seq<Machine>, n: nat, i: int, deleting: bool)
    requires n < |machines|
    ensures Named(machines, n + 1, i, deleting) <==>
              Named(machines, n, i, deleting) || (ParseIndex(machines[n].name) == Some(i) && machines[n].deleting == deleting)
  {
    if Named(machines, n + 1, i, deleting) {
      var k :| 0 <= k < n + 1 && ParseIndex(machines[k].name) == Some(i) && machines[k].deleting == deleting;
      if k < n {
        assert Named(machines, n, i, deleting);
      }
    }
  }

  lemma NamedAtIndex(machines: seq<Machine>, i: int, deleting: bool)
    ensures Named(machines, |machines|, i, deleting) <==> exists m :: m in AtIndex(machines, i) && m.deleting == deleting
  {
    AtIndexListed(machines, i);
    if Named(machines, |machines|, i, deleting) {
      var k :| 0 <= k < |machines| && ParseIndex(machines[k].name) == Some(i) && machines[k].deleting == deleting;
      assert machines[k] in AtIndex(machines, i);
    }
    if m :| m in AtIndex(machines, i) && m.deleting == deleting {
      var k :| 0 <= k < |machines| && machines[k] == m;
    }
  }

  /** The indexes all of whose machines are being deleted. */
  method ListDeletingIndexes(machines: seq<Machine>) returns (indexes: set<int>)
    ensures forall i :: i in indexes <==>
              AtIndex(machines, i) != [] && forall m :: m in AtIndex(machines, i) ==> m.deleting
  {
    indexes := {};
    for n := 0 to |machines|
      invariant forall i :: i in indexes <==> Named(machines, n, i, true)
    {
      forall i { NamedNext(machines, n, i, true); }
      var index := ParseIndex(machines[n].name);
      if machines[n].deleting && index.Some? {
        indexes := indexes + {index.value};
      }
    }
    for n := 0 to |machines|
      invariant forall i :: i in indexes <==> Named(machines, |machines|, i, true) && !Named(machines, n, i, false)
    {
      forall i { NamedNext(machines, n, i, false); }
      var index := ParseIndex(machines[n].name);
      if !machines[n].deleting && index.Some? {
        indexes := indexes - {index.value};
      }
    }
    forall i ensures i in indexes <==> AtIndex(machines, i) != [] && forall m :: m in AtIndex(machines, i) ==> m.deleting {
      NamedAtIndex(machines, i, true);
      NamedAtIndex(machines, i, false);
      if AtIndex(machines, i) != [] {
        assert AtIndex(machines, i)[0] in AtIndex(machines, i);
      }
    }
  }
}
