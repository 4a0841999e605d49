/** Passes over stale views: whatever machines the controller believes there
    are, the check against the API before a creation keeps an index from
    having two up-to-date machines. */
module StaleCache {
  import opened Counting
  import opened Machines
  import opened Updates

  /** How many up-to-date machines, not being deleted, the API holds at i. */
  ghost function LiveCount(c: Cluster, i: int): nat {
    |Select(At(c, i), Live)|
  }

  ghost predicate NoMoreLive(c: Cluster, c': Cluster) {
    forall i :: LiveCount(c', i) <= LiveCount(c, i)
  }

  lemma SelectAppend(ms: seq<MachineInfo>, m: MachineInfo, kind: Kind)
    ensures Select(ms + [m], kind) == Select(ms, kind) + if Is(m, kind) then [m] else []
  {
    assert (ms + [m])[..|ms|] == ms;
  }

  lemma {:induction false} MarkingLessensLive(ms: seq<MachineInfo>, name: string)
    ensures |Select(MarkDeleting(ms, name), Live)| <= |Select(ms, Live)|
  {
    if ms != [] {
      var init := ms[..|ms| - 1];
      MarkingLessensLive(init, name);
      assert MarkDeleting(ms, name)[..|ms| - 1] == MarkDeleting(init, name);
    }
  }

  lemma MarkingKeepsIndex(ms: seq<MachineInfo>, name: string, i: int)
    requires forall m :: m in ms ==> m.index == i
    ensures forall m :: m in MarkDeleting(ms, name) ==> m.index == i
  {
    assert forall k :: 0 <= k < |ms| ==> ms[k] in ms;
  }

  /** What the uncached check finds. */
  lemma ReplacementIffLive(c: Cluster, i: int)
    requires WellGrouped(c)
    ensures HasReplacement(c, i) <==> LiveCount(c, i) > 0
  {
    var ms := At(c, i);
    SelectNone(ms, Live);
    if LiveCount(c, i) > 0 {
      var m := Select(ms, Live)[0];
      assert m in Select(ms, Live);
      var k :| 0 <= k < |ms| && ms[k] == m;
      assert Is(ms[k], Live);
    }
    if HasReplacement(c, i) {
      var k :| 0 <= k < |ms| && ms[k].index == i && Is(ms[k], Live);
      assert ms[k] in ms;
    }
  }

  // ---------------------------------------------------------- single actions

  lemma DeleteKeepsGrouping(p: Pass, machines: seq<MachineInfo>, env: Environment)
    requires WellGrouped(p.api)
    ensures WellGrouped(Delete(p, machines, env).api)
  {
    var target := DeletionTarget(machines);
    if target.Some? && target.value.index in p.api {
      MarkingKeepsIndex(p.api[target.value.index], target.value.name, target.value.index);
    }
  }

  lemma DeleteKeepsLive(p: Pass, machines: seq<MachineInfo>, env: Environment, i: int)
    requires WellGrouped(p.api)
    ensures WellGrouped(Delete(p, machines, env).api)
    ensures LiveCount(Delete(p, machines, env).api, i) <= LiveCount(p.api, i)
  {
    DeleteKeepsGrouping(p, machines, env);
    var target := DeletionTarget(machines);
    if target.Some? && target.value.index in p.api {
      MarkingLessensLive(p.api[target.value.index], target.value.name);
    }
  }

  /** Whether the check and the calls behind it let a creation through. */
  predicate CreationSucceeds(c: Cluster, i: int, env: Environment) {
    i !in env.failingLists && i !in env.failingCreates && !NameTaken(At(c, i), env.newName(i))
  }

  /** What the check and creation come to. */
  lemma CreationOutcome(p: Pass, i: int, env: Environment)
    requires WellGrouped(p.api)
    ensures CheckAndCreate(p, i, env).api ==
            if CreationSucceeds(p.api, i, env) && LiveCount(p.api, i) == 0
            then p.api[i := At(p.api, i) + [NewMachine(env, i)]] else p.api
  {
    ReplacementIffLive(p.api, i);
  }

  lemma CreatedLive(c: Cluster, i: int, env: Environment)
    ensures var c' := c[i := At(c, i) + [NewMachine(env, i)]];
            c' != c && LiveCount(c', i) == LiveCount(c, i) + 1 && forall j :: j != i ==> At(c', j) == At(c, j)
  {
    SelectAppend(At(c, i), NewMachine(env, i), Live);
    assert |At(c[i := At(c, i) + [NewMachine(env, i)]], i)| == |At(c, i)| + 1;
  }

  /** A machine is created at an index exactly when the API calls succeed and
      the API, whatever the view said, holds no up-to-date machine there. */
  lemma CreatedIffNoneLive(p: Pass, i: int, env: Environment)
    requires WellGrouped(p.api)
    ensures var next := CheckAndCreate(p, i, env);
            && (next.api != p.api <==> CreationSucceeds(p.api, i, env) && LiveCount(p.api, i) == 0)
            && (next.api != p.api ==> LiveCount(next.api, i) == 1)
            && forall j :: j != i ==> At(next.api, j) == At(p.api, j)
  {
    CreationOutcome(p, i, env);
    CreatedLive(p.api, i, env);
  }

  lemma CreateKeepsGrouping(p: Pass, i: int, env: Environment)
    requires WellGrouped(p.api)
    ensures WellGrouped(CheckAndCreate(p, i, env).api)
  {
    CreationOutcome(p, i, env);
  }

  lemma CreateKeepsLive(p: Pass, i: int, env: Environment, k: int)
    requires WellGrouped(p.api)
    ensures WellGrouped(CheckAndCreate(p, i, env).api)
    ensures LiveCount(CheckAndCreate(p, i, env).api, k) <= if LiveCount(p.api, k) > 1 then LiveCount(p.api, k) else 1
  {
    CreateKeepsGrouping(p, i, env);
    CreatedIffNoneLive(p, i, env);
  }

  // ------------------------------------------------------------------- runs

  /** One action of a controller on whatever view it has: a deletion call, or
      the check and creation that go together. */
  ghost predicate ControllerAct(c: Cluster, p: Pass, machines: seq<MachineInfo>, i: int, env: Environment, c': Cluster) {
    p.api == c && (c' == Delete(p, machines, env).api || c' == CheckAndCreate(p, i, env).api)
  }

  /** Everything else: machines change readiness, are marked for deletion, go
      away or become outdated; new up-to-date ones do not appear. */
  ghost predicate EnvironmentAct(c: Cluster, c': Cluster) {
    WellGrouped(c') && NoMoreLive(c, c')
  }

  ghost predicate Act(c: Cluster, c': Cluster) {
    || EnvironmentAct(c, c')
    || exists p, machines, i, env :: ControllerAct(c, p, machines, i, env, c')
  }

  lemma ActKeepsLive(c: Cluster, c': Cluster, k: int)
    requires WellGrouped(c) && Act(c, c')
    ensures WellGrouped(c') && LiveCount(c', k) <= if LiveCount(c, k) > 1 then LiveCount(c, k) else 1
  {
    if !EnvironmentAct(c, c') {
      var p, machines, i, env :| ControllerAct(c, p, machines, i, env, c');
      DeleteKeepsLive(p, machines, env, k);
      CreateKeepsLive(p, i, env, k);
    }
  }

  ghost predicate IsHistory(states: seq<Cluster>) {
    states != [] && WellGrouped(states[0]) &&
    forall t :: 0 <= t < |states| - 1 ==> Act(states[t], states[t + 1])
  }

  /** Stale-cache safety: over any history of actions on arbitrary views, of any
      number of controllers, an index that starts with at most one up-to-date
      machine never has two, and none ever has more than it started with. */
  lemma {:induction false} NeverTwoReplacements(states: seq<Cluster>, t: nat, k: int)
    requires IsHistory(states) && t < |states|
    ensures WellGrouped(states[t])
    ensures LiveCount(states[t], k) <= if LiveCount(states[0], k) > 1 then LiveCount(states[0], k) else 1
    decreases t
  {
    if t > 0 {
      NeverTwoReplacements(states, t - 1, k);
      assert Act(states[t - 1], states[t - 1 + 1]);
      ActKeepsLive(states[t - 1], states[t], k);
    }
  }

  // ----------------------------------------------------------- whole passes

  lemma RollIndexKeepsLive(p: Pass, idx: int, machines: seq<MachineInfo>, env: Environment, k: int)
    requires WellGrouped(p.api)
    ensures var next := RollIndex(p, idx, machines, env);
            WellGrouped(next.api) && LiveCount(next.api, k) <= if LiveCount(p.api, k) > 1 then LiveCount(p.api, k) else 1
  {
    DeleteKeepsLive(p, machines, env, k);
    var deleted := Delete(p, machines, env);
    if WantsMachine(machines) {
      CreateKeepsLive(deleted.(requeue := deleted.requeue || Waits(machines)), CreationIndex(machines, idx), env, k);
    }
  }

  /** A rolling pass over any view, failures included, leaves no index with two
      up-to-date machines that did not have two before. */
  lemma {:induction false} RollAllKeepsLive(p: Pass, view: Cluster, todo: set<int>, env: Environment, k: int)
    requires WellGrouped(p.api) && todo <= view.Keys
    ensures var end := RollAll(p, view, todo, env);
            WellGrouped(end.api) && LiveCount(end.api, k) <= if LiveCount(p.api, k) > 1 then LiveCount(p.api, k) else 1
    decreases todo
  {
    if todo != {} {
      var i := Least(todo);
      RollIndexKeepsLive(p, i, view[i], env, k);
      RollAllKeepsLive(RollIndex(p, i, view[i], env), view, todo - {i}, env, k);
    }
  }

  /** And so does a pass of the on-delete strategy. */
  lemma {:induction false} OnDeleteAllKeepsLive(p: Pass, view: Cluster, todo: set<int>, env: Environment, k: int)
    requires WellGrouped(p.api) && todo <= view.Keys
    ensures var end := OnDeleteAll(p, view, todo, env);
            WellGrouped(end.api) && LiveCount(end.api, k) <= if LiveCount(p.api, k) > 1 then LiveCount(p.api, k) else 1
    decreases todo
  {
    if todo != {} {
      var i := Least(todo);
      CreateKeepsLive(p.(requeue := p.requeue || Waits(view[i])), i, env, k);
      OnDeleteAllKeepsLive(OnDeleteIndex(p, i, view[i], env), view, todo - {i}, env, k);
    }
  }
}
