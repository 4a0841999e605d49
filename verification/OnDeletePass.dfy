/** What a pass of the on-delete strategy does: it never deletes, and it
    creates machines only for empty indexes and for indexes whose only machine
    the user has deleted. */
module OnDeletePass {
  import opened Counting
  import opened Machines
  import opened Updates
  import opened UpdateDecisions
  import opened PassSemantics

  /** The indexes without machines, and those whose only machine the user has
      deleted, ready or not. */
  ghost function Vacated(view: Cluster): set<int> {
    set i | i in view && (view[i] == [] || (|view[i]| == 1 && view[i][0].deleting))
  }

  /** Such an index is not passed over, and holds no up-to-date machine. */
  lemma VacatedIsHandled(machines: seq<MachineInfo>, held: seq<MachineInfo>)
    requires OnDeleteWants(machines) && multiset(machines) == multiset(held)
    ensures machines == [] || Select(machines, NeedsReplacement) != []
    ensures forall m :: m in held ==> !Is(m, Live)
  {
    SelectNone(machines, NeedsReplacement);
    if machines != [] { assert machines[0] in machines; }
    forall m | m in held ensures !Is(m, Live) {
      assert m in multiset(held);
      assert m in machines;
    }
  }

  /** What the strategy does at one index when nothing fails. */
  lemma OnDeleteIndexCreates(p: Pass, view: Cluster, i: int, env: Environment)
    requires !p.failed && Sound(p.api, view, env, i)
    ensures var next := OnDeleteIndex(p, i, view[i], env);
            && !next.failed && next.requests == p.requests
            && next.created == (if OnDeleteWants(view[i]) then p.created + [i] else p.created)
            && next.api == (if OnDeleteWants(view[i]) then p.api[i := p.api[i] + [NewMachine(env, i)]] else p.api)
            && next.requeue == (p.requeue || OnItsWay(view[i]))
  {
    WaitsIffOnItsWay(view[i]);
    SelectNone(view[i], Pending);
    if OnDeleteWants(view[i]) {
      VacatedIsHandled(view[i], p.api[i]);
    }
  }

  lemma VacatedStep(view: Cluster, todo: set<int>)
    requires todo != {} && todo <= view.Keys
    ensures var i := Least(todo);
            var rest := Ascending((todo - {i}) * Vacated(view));
            Ascending(todo * Vacated(view)) == if OnDeleteWants(view[i]) then [i] + rest else rest
  {
    var i := Least(todo);
    var vacated, rest := todo * Vacated(view), (todo - {i}) * Vacated(view);
    if OnDeleteWants(view[i]) {
      assert i in vacated && Least(vacated) == i;
      assert vacated - {i} == rest;
    } else {
      assert vacated == rest;
    }
  }

  lemma SoundLater(p: Pass, view: Cluster, todo: set<int>, i: int, env: Environment)
    requires i in todo && !p.failed && forall j :: j in todo ==> Sound(p.api, view, env, j)
    ensures i in view
    ensures var next := OnDeleteIndex(p, i, view[i], env);
            !next.failed && forall j :: j in todo - {i} ==> Sound(next.api, view, env, j)
  {
    assert Sound(p.api, view, env, i);
    OnDeleteIndexCreates(p, view, i, env);
    var next := OnDeleteIndex(p, i, view[i], env);
    forall j | j in todo - {i} ensures Sound(next.api, view, env, j) {
      assert Sound(p.api, view, env, j);
    }
  }

  /** One index accounts for the first entry of what is to be created. */
  lemma CreatedThere(created: seq<int>, view: Cluster, todo: set<int>)
    requires todo != {} && todo <= view.Keys
    ensures var i := Least(todo);
            var next := if OnDeleteWants(view[i]) then created + [i] else created;
            next + Ascending((todo - {i}) * Vacated(view)) == created + Ascending(todo * Vacated(view))
  {
    var i := Least(todo);
    VacatedStep(view, todo);
    var rest := Ascending((todo - {i}) * Vacated(view));
    assert created + [i] + rest == created + ([i] + rest);
  }

  lemma {:induction false} OnDeleteAllCreates(p: Pass, view: Cluster, todo: set<int>, env: Environment)
    requires todo <= view.Keys && !p.failed
    requires forall i :: i in todo ==> Sound(p.api, view, env, i)
    ensures var end := OnDeleteAll(p, view, todo, env);
            && !end.failed && end.requests == p.requests
            && end.created == p.created + Ascending(todo * Vacated(view))
    decreases todo
  {
    if todo == {} {
      assert {} * Vacated(view) == {};
      assert p.created + [] == p.created;
    } else {
      var i := Least(todo);
      SoundLater(p, view, todo, i, env);
      OnDeleteIndexCreates(p, view, i, env);
      CreatedThere(p.created, view, todo);
      OnDeleteAllCreates(OnDeleteIndex(p, i, view[i], env), view, todo - {i}, env);
    }
  }

  lemma {:induction false} OnDeletePassesOver(p: Pass, view: Cluster, todo: set<int>, env: Environment, k: int)
    requires todo <= view.Keys && !p.failed && k !in todo
    requires forall i :: i in todo ==> Sound(p.api, view, env, i)
    ensures At(OnDeleteAll(p, view, todo, env).api, k) == At(p.api, k)
    decreases todo
  {
    if todo != {} {
      var i := Least(todo);
      SoundLater(p, view, todo, i, env);
      OnDeleteIndexCreates(p, view, i, env);
      OnDeletePassesOver(OnDeleteIndex(p, i, view[i], env), view, todo - {i}, env, k);
    }
  }

  lemma {:induction false} OnDeleteAllEffect(p: Pass, view: Cluster, todo: set<int>, env: Environment, k: int)
    requires todo <= view.Keys && !p.failed && k in todo
    requires forall i :: i in todo ==> Sound(p.api, view, env, i)
    ensures At(OnDeleteAll(p, view, todo, env).api, k)
         == At(p.api, k) + (if k in Vacated(view) then [NewMachine(env, k)] else [])
    decreases todo
  {
    var i := Least(todo);
    SoundLater(p, view, todo, i, env);
    OnDeleteIndexCreates(p, view, i, env);
    var next := OnDeleteIndex(p, i, view[i], env);
    if k == i {
      OnDeletePassesOver(next, view, todo - {i}, env, k);
    } else {
      OnDeleteAllEffect(next, view, todo - {i}, env, k);
    }
  }

  lemma {:induction false} OnDeleteRequeues(p: Pass, view: Cluster, todo: set<int>, env: Environment)
    requires todo <= view.Keys && !p.failed
    requires forall i :: i in todo ==> Sound(p.api, view, env, i)
    ensures OnDeleteAll(p, view, todo, env).requeue <==> p.requeue || exists i :: i in todo && OnItsWay(view[i])
    decreases todo
  {
    if todo != {} {
      var i := Least(todo);
      SoundLater(p, view, todo, i, env);
      OnDeleteIndexCreates(p, view, i, env);
      OnDeleteRequeues(OnDeleteIndex(p, i, view[i], env), view, todo - {i}, env);
      if j :| j in todo && OnItsWay(view[j]) {
        assert j == i || j in todo - {i};
      }
    }
  }

  /** The whole new state: one machine more at every vacated index, which then
      has an up-to-date one, and nothing else changed. */
  lemma OnDeleteEffect(view: Cluster, api: Cluster, env: Environment, i: int)
    requires Fresh(view, api) && NoFailures(view, api, env)
    ensures var end := OnDeleteAll(Pass(api, 0, [], [], false, false), view, view.Keys, env);
            && At(end.api, i) == At(api, i) + (if i in Vacated(view) then [NewMachine(env, i)] else [])
            && (i in Vacated(view) ==> HoldsReplacement(At(end.api, i), i))
            && (end.requeue <==> exists j :: j in view && OnItsWay(view[j]))
  {
    var start := Pass(api, 0, [], [], false, false);
    OnDeleteRequeues(start, view, view.Keys, env);
    if i in view {
      OnDeleteAllEffect(start, view, view.Keys, env, i);
      NewIsReplacement(At(api, i), env, i);
    } else {
      OnDeletePassesOver(start, view, view.Keys, env, i);
    }
  }

  lemma NewIsReplacement(ms: seq<MachineInfo>, env: Environment, i: int)
    ensures HoldsReplacement(ms + [NewMachine(env, i)], i)
  {
    var n := ms + [NewMachine(env, i)];
    assert n[|ms|].index == i && Is(n[|ms|], Live);
  }

  /** Exact semantics: on a fresh view, when no API call fails, a pass deletes
      nothing and creates one machine for every vacated index, however many
      machines there are already, and none elsewhere. */
  lemma OnDeleteCreatesExactly(view: Cluster, api: Cluster, env: Environment)
    requires Fresh(view, api) && NoFailures(view, api, env)
    ensures var end := OnDeleteAll(Pass(api, 0, [], [], false, false), view, view.Keys, env);
            !end.failed && end.requests == [] && end.created == Ascending(Vacated(view))
  {
    OnDeleteAllCreates(Pass(api, 0, [], [], false, false), view, view.Keys, env);
    assert view.Keys * Vacated(view) == Vacated(view);
    assert [] + Ascending(Vacated(view)) == Ascending(Vacated(view));
  }
}
