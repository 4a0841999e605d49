/** All that a rolling pass does when no API call fails, and when one does. */
module PassEffects {
  import opened Counting
  import opened FailureDomains
  import opened Machines
  import opened Updates
  import opened UpdateDecisions
  import opened PassSemantics

  // --------------------------------------------------------- the API's state

  /** Deleting by name marks every machine of that name, and nothing else. */
  lemma MarkedExactly(ms: seq<MachineInfo>, name: string, k: nat)
    requires k < |ms|
    ensures var m, r := ms[k], MarkDeleting(ms, name)[k];
            && r.deleting == (m.deleting || m.name == name)
            && r.name == m.name && r.index == m.index && r.ready == m.ready && r.needsUpdate == m.needsUpdate
            && r.created == m.created && r.errorMessage == m.errorMessage
  {}

  /** A new machine is up to date and on its way, for the index and by the name
      it was made for. */
  lemma NewMachineIs(env: Environment, i: int)
    ensures var m := NewMachine(env, i);
            m.index == i && m.name == env.newName(i) && m.created == env.now && m.errorMessage == "" &&
            !m.ready && !m.needsUpdate && !m.deleting
  {}

  lemma {:induction false} PassesOver(p: Pass, api: Cluster, view: Cluster, todo: set<int>, env: Environment, k: int)
    requires WellGrouped(view) && todo <= view.Keys && Ahead(p, api, view, todo, env) && k !in todo
    ensures At(RollAll(p, view, todo, env).api, k) == At(p.api, k)
    decreases todo
  {
    if todo != {} {
      var i := Least(todo);
      assert Untouched(p, api, view, env, i);
      AheadNext(p, api, view, todo, env);
      RollIndexCreates(p, view, i, env);
      PassesOver(RollIndex(p, i, view[i], env), api, view, todo - {i}, env, k);
    }
  }

  lemma {:induction false} LowestFirstWithin(s: set<int>, room: int)
    ensures forall i :: i in LowestFirst(s, room) ==> i in s
    decreases s
  {
    if room > 0 && s != {} {
      LowestFirstWithin(s - {Least(s)}, room - 1);
    }
  }

  lemma CreatedHere(s: set<int>, todo: set<int>, room: int, left: int, k: int)
    requires todo != {} && left == if Least(todo) in s && room > 0 then room - 1 else room
    ensures k == Least(todo) ==> (k in LowestFirst(todo * s, room) <==> k in s && room > 0)
    ensures k != Least(todo) ==>
              (k in LowestFirst(todo * s, room) <==> k in LowestFirst((todo - {Least(todo)}) * s, left))
  {
    var i := Least(todo);
    LowestFirstNext(s, todo, room);
    LowestFirstWithin((todo - {i}) * s, left);
  }

  lemma FirstEffect(p: Pass, api: Cluster, view: Cluster, todo: set<int>, env: Environment)
    requires WellGrouped(view) && todo != {} && todo <= view.Keys && Ahead(p, api, view, todo, env)
    ensures var i := Least(todo);
            At(RollAll(p, view, todo, env).api, i) == Handled(api, view, env, i, i in Lacking(view, api) && p.surge < MAX_SURGE)
  {
    var i := Least(todo);
    AheadNext(p, api, view, todo, env);
    PassesOver(RollIndex(p, i, view[i], env), api, view, todo - {i}, env, i);
  }

  lemma {:induction false} RollAllEffect(p: Pass, api: Cluster, view: Cluster, todo: set<int>, env: Environment,
                                         k: int, room: int, made: bool)
    requires WellGrouped(view) && todo <= view.Keys && Ahead(p, api, view, todo, env) && k in todo && room == MAX_SURGE - p.surge
    requires made <==> k in LowestFirst(todo * Lacking(view, api), room)
    ensures At(RollAll(p, view, todo, env).api, k) == Handled(api, view, env, k, made)
    decreases todo
  {
    var i := Least(todo);
    AheadNext(p, api, view, todo, env);
    var next := RollIndex(p, i, view[i], env);
    var left := MAX_SURGE - next.surge;
    CreatedHere(Lacking(view, api), todo, room, left, k);
    if k == i {
      FirstEffect(p, api, view, todo, env);
    } else {
      RollAllEffect(next, api, view, todo - {i}, env, k, left, made);
    }
  }

  /** The whole new state: at every index of the view the requested deletion and
      the creation, if any, and nothing anywhere else. */
  lemma PassEffect(view: Cluster, api: Cluster, replicas: nat, env: Environment, i: int)
    requires WellGrouped(view) && NoneFails(view, api, env)
    ensures var end := RollingPass(view, api, replicas, env);
            At(end.api, i) == if i in view then Handled(api, view, env, i, i in end.created) else At(api, i)
  {
    var start := Pass(api, Total(view) - replicas, [], [], false, false);
    StartEffect(start, view, env, i);
  }

  lemma StartEffect(start: Pass, view: Cluster, env: Environment, i: int)
    requires WellGrouped(view) && NoneFails(view, start.api, env) && !start.failed && start.created == []
    ensures var end := RollAll(start, view, view.Keys, env);
            At(end.api, i) == if i in view then Handled(start.api, view, env, i, i in end.created) else At(start.api, i)
  {
    StartsAhead(start, view, env);
    if i in view {
      var room := MAX_SURGE - start.surge;
      CreatedFromStart(start, view, env, room);
      assert view.Keys * Lacking(view, start.api) == Lacking(view, start.api);
      RollAllEffect(start, start.api, view, view.Keys, env, i, room, i in LowestFirst(Lacking(view, start.api), room));
    } else {
      PassesOver(start, start.api, view, view.Keys, env, i);
    }
  }

  // ------------------------------------------------ deletions and requeueing

  /** The deletions and the wait requested at an index of todo, or before. */
  ghost predicate Told(p: Pass, end: Pass, view: Cluster, todo: set<int>)
    requires todo <= view.Keys
  {
    && (forall m :: m in end.requests <==> m in p.requests || exists i :: i in todo && m in Requested(view[i]))
    && (end.requeue <==> p.requeue || exists i :: i in todo && Waits(view[i]))
  }

  lemma ToldNext(p: Pass, next: Pass, end: Pass, view: Cluster, todo: set<int>, i: int)
    requires todo <= view.Keys && i in todo && Told(next, end, view, todo - {i})
    requires next.requests == p.requests + Requested(view[i]) && next.requeue == (p.requeue || Waits(view[i]))
    ensures Told(p, end, view, todo)
  {
    forall m ensures m in end.requests <==> m in p.requests || exists j :: j in todo && m in Requested(view[j]) {
      assert m in next.requests <==> m in p.requests || m in Requested(view[i]);
      if j :| j in todo && m in Requested(view[j]) {
        assert j == i || j in todo - {i};
      }
    }
    if j :| j in todo && Waits(view[j]) {
      assert j == i || j in todo - {i};
    }
  }

  lemma {:induction false} RollAllTold(p: Pass, api: Cluster, view: Cluster, todo: set<int>, env: Environment)
    requires WellGrouped(view) && todo <= view.Keys && Ahead(p, api, view, todo, env)
    ensures Told(p, RollAll(p, view, todo, env), view, todo)
    decreases todo
  {
    if todo != {} {
      var i := Least(todo);
      var next := RollIndex(p, i, view[i], env);
      assert Untouched(p, api, view, env, i);
      AheadNext(p, api, view, todo, env);
      RollIndexCreates(p, view, i, env);
      RollAllTold(next, api, view, todo - {i}, env);
      ToldNext(p, next, RollAll(p, view, todo, env), view, todo, i);
    }
  }

  /** A pass requests exactly the deletions of the targets that are not being
      deleted yet, of all indexes, and asks to be run again soon exactly if a
      machine is on its way at some index. */
  lemma RequestedExactly(view: Cluster, api: Cluster, replicas: nat, env: Environment)
    requires WellGrouped(view) && NoneFails(view, api, env)
    ensures var end := RollingPass(view, api, replicas, env);
            && (forall m :: m in end.requests <==>
                  m.index in view && DeletionTarget(view[m.index]) == Some(m) && !m.deleting)
            && (end.requeue <==> exists i :: i in view && OnItsWay(view[i]))
  {
    var start := Pass(api, Total(view) - replicas, [], [], false, false);
    var end := RollingPass(view, api, replicas, env);
    StartsAhead(start, view, env);
    RollAllTold(start, api, view, view.Keys, env);
    forall m ensures m in end.requests <==>
                       m.index in view && DeletionTarget(view[m.index]) == Some(m) && !m.deleting {
      if m in end.requests {
        var i :| i in view.Keys && m in Requested(view[i]);
        TargetListed(view[i]);
        assert m in view[i];
      }
      if m.index in view && DeletionTarget(view[m.index]) == Some(m) && !m.deleting {
        assert m in Requested(view[m.index]);
      }
    }
    if i :| i in view.Keys && Waits(view[i]) { WaitsIffOnItsWay(view[i]); }
    if i :| i in view && OnItsWay(view[i]) { WaitsIffOnItsWay(view[i]); }
  }

  // --------------------------------------------------------------- failures

  /** The deletion step fails exactly if its call does, and then it has changed
      nothing in the API. */
  lemma DeleteFails(p: Pass, machines: seq<MachineInfo>, env: Environment)
    requires !p.failed
    ensures var end := Delete(p, machines, env);
            && (end.failed <==> exists m :: m in Requested(machines) && m.name in env.failingDeletes)
            && (end.failed ==> end.api == p.api)
  {
    var requested := Requested(machines);
    if requested != [] {
      assert requested[0] in requested;
    }
  }

  /** The check and creation fail exactly if listing fails, or if a machine is to
      be created and cannot be; and then they have created nothing. */
  lemma CreationFails(p: Pass, i: int, env: Environment)
    requires !p.failed
    ensures var end := CheckAndCreate(p, i, env);
            && (end.failed <==>
                  i in env.failingLists ||
                  (!HoldsReplacement(At(p.api, i), i) &&
                   (i in env.failingCreates || NameTaken(At(p.api, i), env.newName(i)))))
            && (end.failed ==> end.api == p.api && end.created == p.created && end.surge == p.surge)
  {}
}
