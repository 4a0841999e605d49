/** Which machines a rolling pass requests to delete, for any view. */
module DeletionSafety {
  import opened Counting
  import opened FailureDomains
  import opened Machines
  import opened Updates

  /** No machine is listed twice. */
  ghost predicate NoDuplicates(ms: seq<MachineInfo>) {
    forall j, k :: 0 <= j < k < |ms| ==> ms[j] != ms[k]
  }

  lemma {:induction false} SelectNoDuplicates(ms: seq<MachineInfo>, kind: Kind)
    requires NoDuplicates(ms)
    ensures NoDuplicates(Select(ms, kind))
  {
    if ms != [] {
      var init := ms[..|ms| - 1];
      SelectNoDuplicates(init, kind);
      var rest := Select(init, kind);
      forall k | 0 <= k < |rest| ensures rest[k] != ms[|ms| - 1] {
        assert rest[k] in rest;
      }
    }
  }

  /** A second element of a list without duplicates. */
  lemma Another(ms: seq<MachineInfo>, m: MachineInfo) returns (other: MachineInfo)
    requires |ms| > 1 && NoDuplicates(ms)
    ensures other in ms && other != m
  {
    other := if ms[0] == m then ms[1] else ms[0];
  }

  /** The machine is to be deleted for good reason: it is not ready, or another
      ready and up-to-date machine of the index is not the one deleted. */
  ghost predicate Justified(machines: seq<MachineInfo>, target: MachineInfo) {
    !target.ready || exists u :: u in machines && u != target && Is(u, Updated)
  }

  /** Deletion safety on any view: the target is one of at least two machines
      of the index and its deletion is justified, whichever of the three
      reasons applies. */
  lemma DeletionJustified(machines: seq<MachineInfo>)
    requires NoDuplicates(machines) && DeletionTarget(machines).Some?
    ensures |machines| >= 2
    ensures DeletionTarget(machines).value in machines
    ensures !DeletionTarget(machines).value.deleting ==> Justified(machines, DeletionTarget(machines).value)
  {
    var target := DeletionTarget(machines).value;
    var updated := Select(machines, Updated);
    SelectNoDuplicates(machines, Updated);
    TargetCases(machines);
    if |updated| > 1 {
      var u := Another(updated, target);
      assert u in machines && Is(u, Updated);
    } else if target.ready && !target.deleting {
      SelectHead(machines, Updated);
      assert updated[0] in machines && updated[0] != target;
    }
  }

  /** A ready target is either the oldest of several updated machines or an
      outdated machine beside the only updated one. */
  lemma TargetCases(machines: seq<MachineInfo>)
    requires DeletionTarget(machines).Some?
    ensures var target := DeletionTarget(machines).value;
            var updated := Select(machines, Updated);
            && target in machines
            && (|updated| > 1 ==> target in updated)
            && (|updated| <= 1 ==> Is(target, NeedsReplacement))
            && (|updated| <= 1 && target.ready ==> updated != [])
  {
    var outdated := Select(machines, NeedsReplacement);
    SelectHead(machines, NeedsReplacement);
    SelectHead(outdated, NonReady);
    assert forall m :: m in outdated ==> m in machines;
  }

  // ---------------------------------------------- replacements going away

  /** After the deletion a ready machine remains that is up to date and not
      itself being deleted. */
  ghost predicate LeavesReplacement(machines: seq<MachineInfo>, target: MachineInfo) {
    exists u :: u in machines && u != target && Is(u, UpdatedNonDeleted)
  }

  /** The replacement that a deletion relies on may itself be on its way out:
      the index has a single updated machine, or its oldest one is the only
      one, that is not being deleted. */
  predicate RelysOnLeaver(machines: seq<MachineInfo>) {
    var updated := Select(machines, Updated);
    var staying := Select(machines, UpdatedNonDeleted);
    if |updated| > 1 then |staying| == 1
    else staying == []
  }

  /** Deleting a ready machine leaves a ready replacement that stays exactly
      when the deletion does not rely on one that is itself being deleted. The
      filter for updated machines does not look at deletion timestamps. */
  lemma ReplacementStays(machines: seq<MachineInfo>)
    requires NoDuplicates(machines)
    requires var t := DeletionTarget(machines); t.Some? && !t.value.deleting && t.value.ready
    ensures LeavesReplacement(machines, DeletionTarget(machines).value) <==> !RelysOnLeaver(machines)
  {
    var target := DeletionTarget(machines).value;
    var updated := Select(machines, Updated);
    var staying := Select(machines, UpdatedNonDeleted);
    SelectNoDuplicates(machines, UpdatedNonDeleted);
    TargetCases(machines);
    SelectNone(machines, UpdatedNonDeleted);
    SelectHead(machines, UpdatedNonDeleted);
    if |updated| > 1 {
      assert target in staying;
      if |staying| > 1 {
        var u := Another(staying, target);
      } else {
        forall u | u in machines && Is(u, UpdatedNonDeleted) ensures u == target {
          assert u in staying;
        }
      }
    }
  }

  /** The smallest case: a ready outdated machine is deleted although the only
      updated machine of its index is already being deleted. */
  lemma OutdatedDeletedBesideLeaver(o: MachineInfo, u: MachineInfo)
    requires o.ready && o.needsUpdate && !o.deleting
    requires u.ready && !u.needsUpdate && u.deleting
    ensures DeletionTarget([o, u]) == Some(o)
    ensures !LeavesReplacement([o, u], o)
  {
    var machines := [o, u];
    assert machines[..1] == [o] && [o][..0] == [];
    assert Select([o], NeedsReplacement) == [o] && Select(machines, NeedsReplacement) == [o, u];
    assert Select([o], Updated) == [] && Select(machines, Updated) == [u];
    assert Select([o], NonReady) == [] && Select([o, u], NonReady) == [];
  }

  // ------------------------------------------------------------ whole passes

  /** The deletions of a pass, in the order requested. */
  ghost predicate RequestsOk(view: Cluster, requests: seq<MachineInfo>) {
    (forall j, k :: 0 <= j < k < |requests| ==> requests[j].index < requests[k].index) &&
    forall k :: 0 <= k < |requests| ==>
      var m := requests[k];
      m.index in view && |view[m.index]| >= 2 && m in view[m.index] && !m.deleting && Justified(view[m.index], m)
  }

  lemma DeleteRequests(p: Pass, machines: seq<MachineInfo>, env: Environment)
    ensures var t := DeletionTarget(machines);
            Delete(p, machines, env).requests ==
            if t.None? || t.value.deleting then p.requests else p.requests + [t.value]
  {}

  lemma CreateRequests(p: Pass, idx: int, machines: seq<MachineInfo>, env: Environment)
    ensures Create(p, idx, machines, env).requests == p.requests
  {}

  lemma RollIndexRequests(p: Pass, idx: int, machines: seq<MachineInfo>, env: Environment)
    ensures var t := DeletionTarget(machines);
            RollIndex(p, idx, machines, env).requests ==
            if p.failed || t.None? || t.value.deleting then p.requests else p.requests + [t.value]
  {
    DeleteRequests(p, machines, env);
    var deleted := Delete(p, machines, env);
    CreateRequests(deleted.(requeue := deleted.requeue || Waits(machines)), idx, machines, env);
  }

  /** One more justified request, for a higher index, is in order. */
  lemma RequestAdded(view: Cluster, requests: seq<MachineInfo>, i: int)
    requires WellGrouped(view) && i in view && NoDuplicates(view[i]) && RequestsOk(view, requests)
    requires forall k :: 0 <= k < |requests| ==> requests[k].index < i
    requires var t := DeletionTarget(view[i]); t.Some? && !t.value.deleting
    ensures RequestsOk(view, requests + [DeletionTarget(view[i]).value])
    ensures DeletionTarget(view[i]).value.index == i
  {
    DeletionJustified(view[i]);
  }

  /** All requests are for indexes below those of todo. */
  ghost predicate RequestsBelow(requests: seq<MachineInfo>, todo: set<int>) {
    forall k, i :: 0 <= k < |requests| && i in todo ==> requests[k].index < i
  }

  lemma RequestsNext(view: Cluster, before: seq<MachineInfo>, after: seq<MachineInfo>, todo: set<int>)
    requires todo != {} && todo <= view.Keys && WellGrouped(view) && NoDuplicates(view[Least(todo)])
    requires RequestsOk(view, before) && RequestsBelow(before, todo)
    requires var t := DeletionTarget(view[Least(todo)]);
             after == before || (t.Some? && !t.value.deleting && after == before + [t.value])
    ensures RequestsOk(view, after) && RequestsBelow(after, todo - {Least(todo)})
  {
    if after != before {
      RequestAdded(view, before, Least(todo));
    }
  }

  lemma {:induction false} RollAllRequests(p: Pass, view: Cluster, todo: set<int>, env: Environment)
    requires todo <= view.Keys && WellGrouped(view)
    requires forall i :: i in view ==> NoDuplicates(view[i])
    requires RequestsOk(view, p.requests) && RequestsBelow(p.requests, todo)
    ensures RequestsOk(view, RollAll(p, view, todo, env).requests)
    decreases todo
  {
    if todo != {} {
      var i := Least(todo);
      var next := RollIndex(p, i, view[i], env);
      RollIndexRequests(p, i, view[i], env);
      RequestsNext(view, p.requests, next.requests, todo);
      RollAllRequests(next, view, todo - {i}, env);
    }
  }

  /** A rolling pass over any view, fresh or stale, requests at most one
      deletion per index, never of a machine already being deleted, only where
      at least two machines are listed, and only justified ones. */
  lemma RollingDeletionsSafe(view: Cluster, api: Cluster, replicas: nat, env: Environment)
    requires WellGrouped(view) && forall i :: i in view ==> NoDuplicates(view[i])
    ensures RequestsOk(view, RollingPass(view, api, replicas, env).requests)
  {
    RollAllRequests(Pass(api, Total(view) - replicas, [], [], false, false), view, view.Keys, env);
  }
}
