/** Safety and convergence of whole rollouts. */
module RolloutRuns {
  import opened Counting
  import opened FailureDomains
  import opened Machines
  import opened Updates
  import opened PassSemantics
  import opened Status
  import opened Rollout

  ghost predicate InRollout(c: Cluster) {
    forall i :: i in c ==> Shape(c[i]) && Owned(c[i], i)
  }

  ghost function Stages(c: Cluster): int -> nat {
    i => Stage(At(c, i))
  }

  /** How far the cluster is from being rolled out. */
  ghost function Distance(c: Cluster): nat {
    Sum(c.Keys, Stages(c))
  }

  /** The clusters differ at most at index i. */
  ghost predicate DiffersAt(c: Cluster, c': Cluster, i: int) {
    i in c && c'.Keys == c.Keys && forall j :: j in c && j != i ==> c'[j] == c[j]
  }

  lemma DistanceUpdate(c: Cluster, c': Cluster, i: int)
    requires DiffersAt(c, c', i)
    ensures Distance(c') == Distance(c) - Stage(c[i]) + Stage(c'[i])
    ensures Distance(c) >= Stage(c[i])
    ensures Total(c') == Total(c) - |c[i]| + |c'[i]|
    ensures c'[i] == c[i] ==> c' == c
  {
    SumRemove(c.Keys, Stages(c), i);
    SumRemove(c.Keys, Stages(c'), i);
    SumMonotone(c.Keys - {i}, Stages(c), Stages(c'));
    SumRemove(c.Keys, Lengths(c), i);
    SumRemove(c.Keys, Lengths(c'), i);
    SumMonotone(c.Keys - {i}, Lengths(c), Lengths(c'));
    if c'[i] == c[i] {
      forall j | j in c' ensures j in c && c'[j] == c[j] {}
      SameMap(c, c');
    }
  }

  // ------------------------------------------------------------ whole passes

  /** A pass that is still in step with its view on the indexes to come. */
  ghost predicate InStep(p: Pass, view: Cluster, todo: set<int>) {
    InRollout(p.api) && view.Keys == p.api.Keys && todo <= view.Keys &&
    forall i :: i in todo ==> multiset(view[i]) == multiset(p.api[i])
  }

  lemma StepInStep(p: Pass, view: Cluster, todo: set<int>, i: int, env: Environment)
    requires InStep(p, view, todo) && i in todo
    ensures var next := RollIndex(p, i, view[i], env);
            && InStep(next, view, todo - {i})
            && DiffersAt(p.api, next.api, i)
            && Distance(next.api) <= Distance(p.api)
            && (Distance(next.api) == Distance(p.api) ==> next.api == p.api)
  {
    RollShape(p, i, view[i], env);
    DistanceUpdate(p.api, RollIndex(p, i, view[i], env).api, i);
  }

  /** A pass, failures included, keeps the shapes, touches only the indexes of
      todo, and lessens the distance unless it changes nothing. */
  lemma {:induction false} PassKeepsShapes(p: Pass, view: Cluster, todo: set<int>, env: Environment)
    requires InStep(p, view, todo)
    ensures var end := RollAll(p, view, todo, env);
            && InRollout(end.api) && end.api.Keys == p.api.Keys
            && Distance(end.api) <= Distance(p.api)
            && (Distance(end.api) == Distance(p.api) ==> end.api == p.api)
    decreases todo
  {
    if todo != {} {
      var i := Least(todo);
      StepInStep(p, view, todo, i, env);
      PassKeepsShapes(RollIndex(p, i, view[i], env), view, todo - {i}, env);
    }
  }

  lemma {:induction false} PassTouches(p: Pass, view: Cluster, todo: set<int>, env: Environment, k: int)
    requires InStep(p, view, todo) && k in p.api && k !in todo
    ensures var end := RollAll(p, view, todo, env);
            k in end.api && end.api[k] == p.api[k]
    decreases todo
  {
    if todo != {} {
      var i := Least(todo);
      StepInStep(p, view, todo, i, env);
      PassTouches(RollIndex(p, i, view[i], env), view, todo - {i}, env, k);
    }
  }

  lemma DeletionMarks(p: Pass, k: int, machines: seq<MachineInfo>, o: MachineInfo, env: Environment)
    requires k in p.api && !p.failed && !WantsMachine(machines)
    requires DeletionTarget(machines) == Some(o) && !o.deleting && o.index == k && o.name !in env.failingDeletes
    ensures At(RollIndex(p, k, machines, env).api, k) == MarkDeleting(p.api[k], o.name)
  {
    RollWithoutCreation(p, k, machines, env);
  }

  /** An outdated machine with a ready replacement is deleted. */
  lemma RollDeletes(p: Pass, view: Cluster, todo: set<int>, k: int, env: Environment)
    requires InStep(p, view, todo) && k in todo && !p.failed
    requires Stage(p.api[k]) == 3 && Sound(p.api, view, env, k)
    ensures At(RollIndex(p, k, view[k], env).api, k) != p.api[k]
  {
    ShapePermuted(p.api[k], view[k]);
    var o, n := PairIn(view[k]);
    TwoPermuted(view[k], p.api[k]);
    PairDecisions(view[k], o, n);
    assert o in view[k] && o in p.api[k];
    DeletionMarks(p, k, view[k], o, env);
    DeletionAdvances(p.api[k], o, n, k);
  }

  lemma {:induction false} PassDeletes(p: Pass, view: Cluster, todo: set<int>, env: Environment, k: int)
    requires WellGrouped(view) && InStep(p, view, todo) && k in todo && !p.failed
    requires Stage(p.api[k]) == 3 && forall i :: i in todo ==> Sound(p.api, view, env, i)
    ensures RollAll(p, view, todo, env).api != p.api
    decreases todo
  {
    var i := Least(todo);
    var next := RollIndex(p, i, view[i], env);
    StepInStep(p, view, todo, i, env);
    PassKeepsShapes(next, view, todo - {i}, env);
    if i == k {
      RollDeletes(p, view, todo, k, env);
      PassTouches(next, view, todo - {i}, env, k);
    } else if next.api == p.api {
      SoundAhead(p, view, todo, i, env);
      PassDeletes(next, view, todo - {i}, env, k);
    } else {
      assert Distance(next.api) < Distance(p.api);
    }
  }

  // --------------------------------------------------------------- one step

  /** What happens outside the controller: a pending machine becomes ready, a
      machine being deleted stops being ready, or is gone. */
  ghost predicate EnvironmentStep(c: Cluster, i: int, k: nat, c': Cluster) {
    i in c && k < |c[i]| &&
    var m := c[i][k];
    || (Is(m, Pending) && c' == c[i := c[i][k := m.(ready := true)]])
    || (m.deleting && m.ready && c' == c[i := c[i][k := m.(ready := false)]])
    || (m.deleting && c' == c[i := c[i][..k] + c[i][k + 1..]])
  }

  /** What that does at the index. */
  lemma EnvironmentShape(ms: seq<MachineInfo>, k: nat, i: int, after: seq<MachineInfo>)
    requires Shape(ms) && Owned(ms, i) && k < |ms|
    requires || (Is(ms[k], Pending) && after == ms[k := ms[k].(ready := true)])
             || (ms[k].deleting && ms[k].ready && after == ms[k := ms[k].(ready := false)])
             || (ms[k].deleting && after == ms[..k] + ms[k + 1..])
    ensures Shape(after) && Owned(after, i) && Stage(after) < Stage(ms) && |after| <= |ms|
  {
    assert |ms| == 2;
    var o, n := PairIn(ms);
    assert o in ms && n in ms;
    assert after == [n] || after == [o.(ready := false), n] || after == [n, o.(ready := false)]
        || after == [o, n.(ready := true)] || after == [n.(ready := true), o];
  }

  lemma EnvironmentAdvances(c: Cluster, i: int, k: nat, c': Cluster)
    requires InRollout(c) && EnvironmentStep(c, i, k, c')
    ensures InRollout(c') && c'.Keys == c.Keys
    ensures Distance(c') < Distance(c) && Total(c') <= Total(c)
  {
    assert c'.Keys == c.Keys;
    EnvironmentShape(c[i], k, i, c'[i]);
    DistanceUpdate(c, c', i);
  }

  /** A controller pass on a fresh view; it acts only in a valid state. */
  ghost predicate ControllerStep(c: Cluster, replicas: nat, view: Cluster, nodesManaged: bool, env: Environment, c': Cluster) {
    Fresh(view, c) &&
    c' == if ValidState(view, replicas, RollingUpdate, nodesManaged) then RollingPass(view, c, replicas, env).api else c
  }

  ghost predicate Step(c: Cluster, replicas: nat, c': Cluster) {
    || (exists i, k :: EnvironmentStep(c, i, k, c'))
    || (exists view, nodesManaged, env :: ControllerStep(c, replicas, view, nodesManaged, env, c'))
  }

  /** What holds in every state of a rollout. */
  ghost predicate Invariant(c: Cluster, replicas: nat) {
    InRollout(c) && |c.Keys| == replicas && Total(c) <= replicas + MAX_SURGE
  }

  lemma ControllerAdvances(c: Cluster, replicas: nat, view: Cluster, nodesManaged: bool, env: Environment, c': Cluster)
    requires Invariant(c, replicas) && ControllerStep(c, replicas, view, nodesManaged, env, c')
    ensures Invariant(c', replicas)
    ensures c' == c || Distance(c') < Distance(c)
  {
    if ValidState(view, replicas, RollingUpdate, nodesManaged) {
      PassKeepsShapes(Pass(c, Total(view) - replicas, [], [], false, false), view, view.Keys, env);
      FreshTotal(view, c);
      SurgeBound(view, c, replicas, env);
    }
  }

  lemma StepAdvances(c: Cluster, replicas: nat, c': Cluster)
    requires Invariant(c, replicas) && Step(c, replicas, c')
    ensures Invariant(c', replicas)
    ensures c' == c || Distance(c') < Distance(c)
  {
    if i, k :| EnvironmentStep(c, i, k, c') {
      EnvironmentAdvances(c, i, k, c');
    } else {
      var view, nodesManaged, env :| ControllerStep(c, replicas, view, nodesManaged, env, c');
      ControllerAdvances(c, replicas, view, nodesManaged, env, c');
    }
  }

  // -------------------------------------------------------------------- runs

  /** At the start every index has one machine, ready and not being deleted. */
  ghost predicate Start(c: Cluster, replicas: nat) {
    |c.Keys| == replicas && forall i :: i in c ==> |c[i]| == 1 && Lone(c[i][0]) && c[i][0].index == i
  }

  ghost predicate IsRun(states: seq<Cluster>, replicas: nat) {
    states != [] && Start(states[0], replicas) &&
    forall t :: 0 <= t < |states| - 1 ==> Step(states[t], replicas, states[t + 1])
  }

  lemma StartTotal(c: Cluster, replicas: nat)
    requires Start(c, replicas)
    ensures Invariant(c, replicas) && Total(c) == replicas && Distance(c) <= 5 * replicas
  {
    SumOfOnes(c.Keys);
    SumMonotone(c.Keys, Lengths(c), One());
    SumConstant(c.Keys, Stages(c), 5);
  }

  lemma {:induction false} RunInvariant(states: seq<Cluster>, replicas: nat, t: nat)
    requires IsRun(states, replicas) && t < |states|
    ensures Invariant(states[t], replicas)
    ensures Distance(states[t]) <= Distance(states[0])
    decreases t
  {
    if t == 0 {
      StartTotal(states[0], replicas);
    } else {
      RunInvariant(states, replicas, t - 1);
      assert Step(states[t - 1], replicas, states[t - 1 + 1]);
      StepAdvances(states[t - 1], replicas, states[t]);
    }
  }

  /** At every index some machine is ready, at most one is outdated and at most
      one up to date, and none that is up to date is being deleted. */
  ghost predicate Serving(ms: seq<MachineInfo>) {
    && (exists m :: m in ms && m.ready)
    && (forall j, k :: 0 <= j < k < |ms| ==> ms[j].needsUpdate != ms[k].needsUpdate)
    && forall m :: m in ms && !m.needsUpdate ==> !m.deleting
  }

  lemma ShapeServes(ms: seq<MachineInfo>)
    requires Shape(ms)
    ensures Serving(ms)
  {
    assert forall k :: 0 <= k < |ms| ==> ms[k] in ms;
    assert ms[0] in ms;
  }

  /** Availability and surge over the whole run: in every state every index is
      serving, and there is never more than one machine above the replicas. */
  lemma RolloutSafe(states: seq<Cluster>, replicas: nat)
    requires IsRun(states, replicas)
    ensures forall t :: 0 <= t < |states| ==>
              (forall i :: i in states[t] ==> Serving(states[t][i])) &&
              |states[t].Keys| == replicas &&
              Total(states[t]) <= replicas + MAX_SURGE
  {
    forall t | 0 <= t < |states|
      ensures (forall i :: i in states[t] ==> Serving(states[t][i]))
      ensures |states[t].Keys| == replicas && Total(states[t]) <= replicas + MAX_SURGE
    {
      RunInvariant(states, replicas, t);
      forall i | i in states[t] ensures Serving(states[t][i]) {
        ShapeServes(states[t][i]);
      }
    }
  }

  /** How many steps of a run change something. */
  ghost function Effective(states: seq<Cluster>): nat {
    if |states| <= 1 then 0
    else Effective(states[..|states| - 1]) + (if states[|states| - 1] != states[|states| - 2] then 1 else 0)
  }

  lemma RunPrefix(states: seq<Cluster>, replicas: nat)
    requires IsRun(states, replicas) && |states| > 1
    ensures IsRun(states[..|states| - 1], replicas)
  {
    var init := states[..|states| - 1];
    forall t | 0 <= t < |init| - 1 ensures Step(init[t], replicas, init[t + 1]) {
      assert Step(states[t], replicas, states[t + 1]);
    }
  }

  lemma LastStep(states: seq<Cluster>, replicas: nat)
    requires IsRun(states, replicas) && |states| > 1
    ensures var before, last := states[|states| - 2], states[|states| - 1];
            last == before || Distance(last) < Distance(before)
  {
    var t := |states| - 2;
    RunInvariant(states, replicas, t);
    assert Step(states[t], replicas, states[t + 1]);
    StepAdvances(states[t], replicas, states[t + 1]);
  }

  /** Convergence: each effective step lessens the distance, so a run makes at
      most five effective steps per replica. */
  lemma {:induction false} RolloutBounded(states: seq<Cluster>, replicas: nat)
    requires IsRun(states, replicas)
    ensures Effective(states) + Distance(states[|states| - 1]) <= Distance(states[0]) <= 5 * replicas
    decreases |states|
  {
    StartTotal(states[0], replicas);
    if |states| > 1 {
      RunPrefix(states, replicas);
      RolloutBounded(states[..|states| - 1], replicas);
      LastStep(states, replicas);
    }
  }
}
