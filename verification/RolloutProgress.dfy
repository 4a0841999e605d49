/** A rollout is never stuck: until it is done some step brings it forward. */
module RolloutProgress {
  import opened Counting
  import opened Machines
  import opened Updates
  import opened UpdateDecisions
  import opened PassSemantics
  import opened Status
  import opened Rollout
  import opened RolloutRuns

  // ------------------------------------------------------- the set may act

  lemma SomeReady(view: Cluster, i: int, m: MachineInfo)
    requires i in view && m in view[i] && m.ready
    ensures CountKind(view, Ready) > 0
  {
    SelectNone(view[i], Ready);
    SumRemove(view.Keys, KindCounts(view, Ready), i);
  }

  lemma ReplacementsInOrder(view: Cluster, c: Cluster)
    requires InRollout(c) && Fresh(view, c)
    ensures NoErroredReplacement(view)
  {
    forall i, m | i in view && Select(view[i], NeedsReplacement) != [] && m in Select(view[i], Pending)
      ensures m.errorMessage == ""
    {
      ShapePermuted(c[i], view[i]);
      if |view[i]| == 2 {
        var o, n := PairIn(view[i]);
        PairSelections(view[i], o, n);
      }
    }
  }

  /** Validation lets the controller act throughout a rollout. */
  lemma RolloutIsValid(view: Cluster, c: Cluster, replicas: nat)
    requires Invariant(c, replicas) && Fresh(view, c) && replicas > 0
    ensures ValidState(view, replicas, RollingUpdate, true)
  {
    var i := Pick(c.Keys);
    ShapePermuted(c[i], view[i]);
    ShapeServes(view[i]);
    var m :| m in view[i] && m.ready;
    SomeReady(view, i, m);
    ReplacementsInOrder(view, c);
  }

  // ---------------------------------------------------------- stages of rest

  /** Indexes that wait for the environment: a replacement is to become ready,
      or a machine being deleted to go. */
  ghost predicate AwaitsEnvironment(ms: seq<MachineInfo>) {
    Stage(ms) == 4 || Stage(ms) == 2 || Stage(ms) == 1
  }

  lemma EnvironmentCanStep(c: Cluster, i: int) returns (k: nat, c': Cluster)
    requires InRollout(c) && i in c && AwaitsEnvironment(c[i])
    ensures EnvironmentStep(c, i, k, c')
  {
    var o, n := PairIn(c[i]);
    var m := if o.deleting then o else n;
    k := if c[i][0] == m then 0 else 1;
    c' := if o.deleting then c[i := c[i][..k] + c[i][k + 1..]] else c[i := c[i][k := m.(ready := true)]];
  }

  /** A pass deletes an outdated machine whose replacement is ready. */
  lemma PassAdvancesByDeletion(c: Cluster, replicas: nat, view: Cluster, env: Environment, i: int)
    requires Invariant(c, replicas) && Fresh(view, c) && NoFailures(view, c, env)
    requires i in c && Stage(c[i]) == 3
    ensures Distance(RollingPass(view, c, replicas, env).api) < Distance(c)
  {
    var start := Pass(c, Total(view) - replicas, [], [], false, false);
    PassKeepsShapes(start, view, view.Keys, env);
    PassDeletes(start, view, view.Keys, env, i);
  }

  /** All indexes have a lone machine. */
  ghost predicate AllLone(c: Cluster) {
    forall i :: i in c ==> |c[i]| == 1
  }

  lemma OutdatedIsWanting(c: Cluster, view: Cluster, i: int)
    requires InRollout(c) && Fresh(view, c) && AllLone(c) && i in c && Stage(c[i]) == 5
    ensures i in Wanting(view)
  {
    OnePermuted(c[i], view[i]);
    assert c[i] == [c[i][0]];
    LoneDecisions(c[i][0]);
    WantedIffAllLeaving(view[i]);
  }

  lemma LoneTotal(c: Cluster)
    requires AllLone(c)
    ensures Total(c) == |c.Keys|
  {
    SumOfOnes(c.Keys);
    SumMonotone(c.Keys, Lengths(c), One());
  }

  lemma SomethingCreated(c: Cluster, replicas: nat, view: Cluster, env: Environment, i: int)
    requires Fresh(view, c) && NoFailures(view, c, env)
    requires Total(c) == replicas && i in Wanting(view)
    ensures RollingPass(view, c, replicas, env).created != []
  {
    CreatedExactly(view, c, replicas, env);
    assert Wanting(view) != {};
  }

  lemma CreationChanges(c: Cluster, replicas: nat, view: Cluster, env: Environment)
    requires RollingPass(view, c, replicas, env).created != []
    ensures RollingPass(view, c, replicas, env).api != c
  {
    SurgeTracksTotal(Pass(c, Total(view) - replicas, [], [], false, false), view, view.Keys, env);
  }

  /** When all machines stand alone, a pass creates a replacement for the first
      outdated one. */
  lemma PassAdvancesByCreation(c: Cluster, replicas: nat, view: Cluster, env: Environment, i: int)
    requires Invariant(c, replicas) && Fresh(view, c) && NoFailures(view, c, env)
    requires AllLone(c) && i in c && Stage(c[i]) == 5
    ensures Distance(RollingPass(view, c, replicas, env).api) < Distance(c)
  {
    LoneTotal(c);
    OutdatedIsWanting(c, view, i);
    SomethingCreated(c, replicas, view, env, i);
    CreationChanges(c, replicas, view, env);
    PassKeepsShapes(Pass(c, Total(view) - replicas, [], [], false, false), view, view.Keys, env);
  }

  lemma SomeStage(c: Cluster) returns (i: int)
    requires Distance(c) > 0
    ensures i in c && Stage(c[i]) > 0
  {
    if forall i :: i in c.Keys ==> Stages(c)(i) <= 0 {
      SumConstant(c.Keys, Stages(c), 0);
    }
    i :| i in c.Keys && Stages(c)(i) > 0;
  }

  lemma StageOfRest(c: Cluster, i: int)
    requires InRollout(c) && i in c && !AwaitsEnvironment(c[i]) && Stage(c[i]) != 3
    ensures |c[i]| == 1 && (Stage(c[i]) > 0 ==> Stage(c[i]) == 5)
  {
    if |c[i]| == 2 {
      var o, n := PairIn(c[i]);
      assert false;
    }
  }

  lemma RestPassAdvances(c: Cluster, replicas: nat, view: Cluster, env: Environment)
    requires Invariant(c, replicas) && Fresh(view, c) && NoFailures(view, c, env)
    requires Distance(c) > 0 && forall i :: i in c ==> !AwaitsEnvironment(c[i])
    ensures Distance(RollingPass(view, c, replicas, env).api) < Distance(c)
  {
    if i :| i in c && Stage(c[i]) == 3 {
      PassAdvancesByDeletion(c, replicas, view, env, i);
    } else {
      forall i | i in c ensures |c[i]| == 1 { StageOfRest(c, i); }
      var k := SomeStage(c);
      StageOfRest(c, k);
      PassAdvancesByCreation(c, replicas, view, env, k);
    }
  }

  /** Once no index awaits the environment, every pass that sees the current
      machines, and whose API calls succeed, brings the rollout forward. */
  lemma PassAdvances(c: Cluster, replicas: nat, view: Cluster, env: Environment)
    requires Invariant(c, replicas) && Fresh(view, c) && NoFailures(view, c, env)
    requires Distance(c) > 0 && forall i :: i in c ==> !AwaitsEnvironment(c[i])
    ensures var c' := RollingPass(view, c, replicas, env).api;
            ControllerStep(c, replicas, view, true, env, c') && Distance(c') < Distance(c)
  {
    var k := SomeStage(c);
    assert k in c.Keys;
    RolloutIsValid(view, c, replicas);
    RestPassAdvances(c, replicas, view, env);
  }

  // ------------------------------------------------------------ never stuck

  /** A name longer than those of all the machines. */
  function LongName(ms: seq<MachineInfo>): (name: string)
    ensures forall m :: m in ms ==> |m.name| < |name|
  {
    if ms == [] then "x"
    else
      assert forall m :: m in ms ==> m in ms[..|ms| - 1] || m == ms[|ms| - 1];
      LongName(ms[..|ms| - 1]) + ms[|ms| - 1].name
  }

  function NewNames(c: Cluster): int -> string {
    i => LongName(At(c, i))
  }

  lemma CalmEnvironment(c: Cluster) returns (env: Environment)
    requires InRollout(c)
    ensures Fresh(c, c) && NoFailures(c, c, env)
  {
    env := Environment({}, {}, {}, NewNames(c), 0);
    forall i | i in c ensures Sound(c, c, env, i) {
      assert env.newName(i) == LongName(c[i]);
      assert forall k :: 0 <= k < |c[i]| ==> c[i][k] in c[i];
    }
  }

  /** Until the rollout is done, a step is possible that brings it forward. */
  lemma NeverStuck(c: Cluster, replicas: nat)
    requires Invariant(c, replicas) && Distance(c) > 0
    ensures exists c' :: Step(c, replicas, c') && Distance(c') < Distance(c)
  {
    if i :| i in c && AwaitsEnvironment(c[i]) {
      var k, c' := EnvironmentCanStep(c, i);
      EnvironmentAdvances(c, i, k, c');
      assert Step(c, replicas, c');
    } else {
      var env := CalmEnvironment(c);
      PassAdvances(c, replicas, c, env);
      assert Step(c, replicas, RollingPass(c, c, replicas, env).api);
    }
  }

  // ------------------------------------------------------------------- done

  /** Every index holds only an up-to-date machine, which is ready. */
  ghost predicate RolledOut(c: Cluster) {
    forall i :: i in c ==> |c[i]| == 1 && Is(c[i][0], UpdatedNonDeleted)
  }

  /** Nothing is left to do exactly when the rollout is complete. */
  lemma DoneIffRolledOut(c: Cluster)
    requires InRollout(c)
    ensures Distance(c) == 0 <==> RolledOut(c)
  {
    forall i | i in c ensures Stage(c[i]) == 0 <==> |c[i]| == 1 && Is(c[i][0], UpdatedNonDeleted) {}
    if RolledOut(c) {
      forall i | i in c.Keys ensures Stages(c)(i) <= 0 {
        assert i in c;
      }
      SumConstant(c.Keys, Stages(c), 0);
    }
    if Distance(c) == 0 {
      forall i | i in c ensures Stage(c[i]) == 0 {
        SumRemove(c.Keys, Stages(c), i);
      }
    }
  }

  /** A run that cannot be brought forward any more has replaced every machine,
      and then the set is reported available and no longer progressing. */
  lemma StoppedRunIsRolledOut(states: seq<Cluster>, replicas: nat)
    requires IsRun(states, replicas)
    requires var last := states[|states| - 1];
             forall c' :: Step(last, replicas, c') ==> Distance(c') >= Distance(last)
    ensures var last := states[|states| - 1];
            && RolledOut(last)
            && AvailableCondition(CountersOf(last)).holds
            && !ProgressingCondition(replicas, CountersOf(last)).holds
  {
    var last := states[|states| - 1];
    RunInvariant(states, replicas, |states| - 1);
    if Distance(last) > 0 {
      NeverStuck(last, replicas);
    }
    DoneIffRolledOut(last);
    forall i | i in last ensures SettledIndex(last[i]) {
      assert last[i] == [last[i][0]];
      SelectOne(last[i][0], Ready);
      SelectOne(last[i][0], Updated);
    }
    StatusExact(last, replicas);
  }
}
