/** The update strategies as they run: loops over the indexes in ascending
    order that call the API and keep count, proved to compute the passes of
    module Updates. */
module UpdateStrategies {
  import opened Counting
  import opened FailureDomains
  import opened Machines
  import opened Updates

  /** The number of machines in a view. */
  method CountMachines(view: Cluster, order: seq<int>) returns (count: nat)
    requires order == Ascending(view.Keys)
    ensures count == Total(view)
  {
    count := 0;
    ghost var todo := view.Keys;
    for n := 0 to |order|
      invariant Lists(order[n..], todo) && todo <= view.Keys
      invariant count + Sum(todo, Lengths(view)) == Total(view)
    {
      RestOf(order, n, todo);
      OneCounted(view, todo, order[n]);
      count := count + |view[order[n]]|;
      todo := todo - {order[n]};
    }
    assert todo == {};
  }

  lemma OneCounted(view: Cluster, todo: set<int>, i: int)
    requires i in todo && i in view
    ensures Sum(todo, Lengths(view)) == |view[i]| + Sum(todo - {i}, Lengths(view))
  {
    SumRemove(todo, Lengths(view), i);
  }

  /** What remains of an ascending list is the ascending list of what remains. */
  lemma RestOf(order: seq<int>, n: nat, todo: set<int>)
    requires n < |order| && IsAscending(order) && Lists(order[n..], todo)
    ensures order[n] in todo && order[n] == Least(todo)
    ensures Lists(order[n + 1..], todo - {order[n]})
  {
    assert order[n..][0] == order[n];
    assert order[n] in order[n..];
    assert order[n..] == [order[n]] + order[n + 1..];
    var x := Least(todo);
    assert x in order[n..];
    assert forall k :: n < k < |order| ==> order[n] < order[k];
  }

  /** The reconciler with the machines of its API. The calls it makes and their
      failures are those of the environment. */
  class Reconciler {
    const env: Environment
    var machines: Cluster
    var surgeCount: int
    var requests: seq<MachineInfo>
    var created: seq<int>
    var shouldRequeue: bool
    var failed: bool

    constructor (env: Environment, machines: Cluster)
      ensures this.env == env && State() == Pass(machines, 0, [], [], false, false)
    {
      this.env, this.machines, surgeCount := env, machines, 0;
      requests, created, shouldRequeue, failed := [], [], false, false;
    }

    function State(): Pass
      reads this
    {
      Pass(machines, surgeCount, requests, created, shouldRequeue, failed)
    }

    // ------------------------------------------------------------ API calls

    method DeleteMachine(m: MachineInfo) returns (ok: bool)
      modifies this`machines, this`requests
      ensures requests == old(requests) + [m]
      ensures ok <==> m.name !in env.failingDeletes
      ensures machines == if ok && m.index in old(machines)
                          then old(machines)[m.index := MarkDeleting(old(machines)[m.index], m.name)]
                          else old(machines)
    {
      requests := requests + [m];
      ok := m.name !in env.failingDeletes;
      if ok && m.index in machines {
        machines := machines[m.index := MarkDeleting(machines[m.index], m.name)];
      }
    }

    /** Looks for a replacement with an uncached client. */
    method CheckForExistingReplacement(idx: int) returns (ok: bool, found: bool)
      ensures ok <==> idx !in env.failingLists
      ensures ok ==> (found <==> HasReplacement(machines, idx))
    {
      if idx in env.failingLists { return false, false; }
      var infos := At(machines, idx);
      for n := 0 to |infos|
        invariant forall k :: 0 <= k < n ==> !(infos[k].index == idx && Is(infos[k], Live))
      {
        if infos[n].index == idx && !infos[n].needsUpdate && !infos[n].deleting { return true, true; }
      }
      return true, false;
    }

    /** Creates a machine unless there is a replacement already. */
    method CreateMachine(idx: int) returns (made: bool)
      requires !failed
      modifies this`machines, this`created, this`failed
      ensures State() == CheckAndCreate(old(State()), idx, env).(surge := old(surgeCount))
      ensures CheckAndCreate(old(State()), idx, env).surge == old(surgeCount) + if made then 1 else 0
    {
      var listed, found := CheckForExistingReplacement(idx);
      if !listed {
        failed := true;
        return false;
      }
      if found { return false; }
      if idx in env.failingCreates || NameTaken(At(machines, idx), env.newName(idx)) {
        failed := true;
        return false;
      }
      machines := machines[idx := At(machines, idx) + [NewMachine(env, idx)]];
      created := created + [idx];
      return true;
    }

    /** Creates a machine if the surge has room, and counts it. */
    method CreateMachineWithSurge(idx: int, maxSurge: int)
      requires !failed
      modifies this`machines, this`created, this`surgeCount, this`failed
      ensures State() == if old(surgeCount) >= maxSurge then old(State()) else CheckAndCreate(old(State()), idx, env)
    {
      if surgeCount >= maxSurge { return; }
      var made := CreateMachine(idx);
      if made { surgeCount := surgeCount + 1; }
    }

    // ------------------------------------------------------- rolling update

    method DeleteReplacedMachines(infos: seq<MachineInfo>)
      requires !failed
      modifies this`machines, this`requests, this`failed
      ensures State() == Delete(old(State()), infos, env)
    {
      if |infos| < 2 { return; }
      var outdated := FilterMachines(infos, NeedsReplacement);
      var updated := FilterMachines(infos, Updated);
      var outdatedNonReady := FilterMachines(outdated, NonReady);
      var target: Option<MachineInfo> := None;
      if outdated != [] && updated != [] { target := Some(outdated[0]); }
      if outdatedNonReady != [] { target := Some(outdatedNonReady[0]); }
      if |updated| > 1 { target := Some(Oldest(updated)); }
      assert target == DeletionTarget(infos);
      if target.Some? && !target.value.deleting {
        var ok := DeleteMachine(target.value);
        if !ok { failed := true; }
      }
    }

    method CreateReplacements(infos: seq<MachineInfo>, idx: int, maxSurge: int)
      requires !failed && maxSurge == MAX_SURGE
      modifies this`machines, this`created, this`surgeCount, this`failed
      ensures State() == Create(old(State()), idx, infos, env)
    {
      var outdated := FilterMachines(infos, NeedsReplacement);
      var pending := FilterMachines(infos, Pending);
      var updated := FilterMachines(infos, UpdatedNonDeleted);
      if infos == [] {
        CreateMachineWithSurge(idx, maxSurge);
      } else if outdated != [] && updated == [] && pending == [] {
        CreateMachineWithSurge(outdated[0].index, maxSurge);
      }
    }

    method WaitForMachines(infos: seq<MachineInfo>)
      modifies this`shouldRequeue
      ensures shouldRequeue == (old(shouldRequeue) || Waits(infos))
    {
      var pending := FilterMachines(infos, Pending);
      var ready := FilterMachines(infos, Ready);
      var deleting := FilterMachines(infos, Deleting);
      var outdated := FilterMachines(infos, NeedsReplacement);
      if (ready == [] && pending != [] && deleting == []) || (outdated != [] && pending != []) {
        shouldRequeue := true;
      }
    }

    method RollingUpdateIndex(idx: int, infos: seq<MachineInfo>, maxSurge: int)
      requires !failed && maxSurge == MAX_SURGE
      modifies this
      ensures State() == RollIndex(old(State()), idx, infos, env)
    {
      DeleteReplacedMachines(infos);
      if failed { return; }
      WaitForMachines(infos);
      CreateReplacements(infos, idx, maxSurge);
    }

    /** The rolling strategy; it ends at the first API call that fails. */
    method RollingUpdate(view: Cluster, replicas: nat)
      requires State() == Pass(machines, 0, [], [], false, false)
      modifies this
      ensures State() == RollingPass(view, old(machines), replicas, env)
    {
      var sorted := SortedIndexes(view.Keys);
      var maxSurge := MAX_SURGE;
      var current := CountMachines(view, sorted);
      surgeCount := current - replicas;
      ghost var todo := view.Keys;
      for n := 0 to |sorted|
        invariant Lists(sorted[n..], todo) && todo <= view.Keys && !failed
        invariant RollAll(State(), view, todo, env) == RollingPass(view, old(machines), replicas, env)
      {
        RestOf(sorted, n, todo);
        RollingUpdateIndex(sorted[n], view[sorted[n]], maxSurge);
        todo := todo - {sorted[n]};
        if failed {
          FailedRollEnds(State(), view, todo, env);
          return;
        }
      }
      assert todo == {};
    }

    // ------------------------------------------------------------ on delete

    method CreateOnDeleteReplacements(infos: seq<MachineInfo>, idx: int)
      requires !failed
      modifies this`machines, this`created, this`failed
      ensures State() == if OnDeleteWants(infos) then CheckAndCreate(old(State()), idx, env).(surge := old(surgeCount))
                         else old(State())
    {
      if infos == [] {
        var _ := CreateMachine(idx);
        return;
      }
      var outdated := FilterMachines(infos, NeedsReplacement);
      if |infos| == 1 && |outdated| == 1 {
        if infos[0].deleting {
          var _ := CreateMachine(idx);
        }
      } else {
        assert |infos| == 1 ==> infos[0] in infos && infos[0] !in outdated;
      }
    }

    method OnDeleteUpdateIndex(idx: int, infos: seq<MachineInfo>)
      requires !failed
      modifies this
      ensures State() == OnDeleteIndex(old(State()), idx, infos, env)
    {
      var outdated := FilterMachines(infos, NeedsReplacement);
      var pending := FilterMachines(infos, Pending);
      if outdated == [] && infos != [] && pending == [] { return; }
      WaitForMachines(infos);
      CreateOnDeleteReplacements(infos, idx);
    }

    /** The on-delete strategy; it ends at the first API call that fails. */
    method OnDeleteUpdate(view: Cluster)
      requires State() == Pass(machines, 0, [], [], false, false)
      modifies this
      ensures State() == OnDeleteAll(Pass(old(machines), 0, [], [], false, false), view, view.Keys, env)
    {
      var sorted := SortedIndexes(view.Keys);
      ghost var todo := view.Keys;
      for n := 0 to |sorted|
        invariant Lists(sorted[n..], todo) && todo <= view.Keys && !failed
        invariant OnDeleteAll(State(), view, todo, env)
               == OnDeleteAll(Pass(old(machines), 0, [], [], false, false), view, view.Keys, env)
      {
        RestOf(sorted, n, todo);
        OnDeleteUpdateIndex(sorted[n], view[sorted[n]]);
        todo := todo - {sorted[n]};
        if failed {
          FailedOnDeleteEnds(State(), view, todo, env);
          return;
        }
      }
      assert todo == {};
    }
  }

  lemma {:induction false} FailedRollEnds(p: Pass, view: Cluster, todo: set<int>, env: Environment)
    requires p.failed && todo <= view.Keys
    ensures RollAll(p, view, todo, env) == p
    decreases todo
  {
    if todo != {} {
      FailedRollEnds(p, view, todo - {Least(todo)}, env);
    }
  }

  lemma {:induction false} FailedOnDeleteEnds(p: Pass, view: Cluster, todo: set<int>, env: Environment)
    requires p.failed && todo <= view.Keys
    ensures OnDeleteAll(p, view, todo, env) == p
    decreases todo
  {
    if todo != {} {
      FailedOnDeleteEnds(p, view, todo - {Least(todo)}, env);
    }
  }
}
