/** What one rolling pass creates, and what it does to the number of machines. */
module PassSemantics {
  import opened Counting
  import opened Machines
  import opened Updates
  import opened UpdateDecisions

  // ---------------------------------------------------------------- totals

  lemma TotalUpdate(c: Cluster, i: int, ms: seq<MachineInfo>)
    ensures Total(c[i := ms]) == Total(c) - |At(c, i)| + |ms|
  {
    var c' := c[i := ms];
    SumRemove(c'.Keys, Lengths(c'), i);
    assert c'.Keys - {i} == c.Keys - {i};
    SumMonotone(c.Keys - {i}, Lengths(c), Lengths(c'));
    if i in c {
      SumRemove(c.Keys, Lengths(c), i);
    } else {
      assert c.Keys - {i} == c.Keys;
    }
  }

  lemma DeleteTotal(p: Pass, machines: seq<MachineInfo>, env: Environment)
    ensures Total(Delete(p, machines, env).api) == Total(p.api)
    ensures Delete(p, machines, env).surge == p.surge
    ensures Delete(p, machines, env).created == p.created
  {
    var target := DeletionTarget(machines);
    if target.Some? {
      var m := target.value;
      if m.index in p.api {
        TotalUpdate(p.api, m.index, MarkDeleting(p.api[m.index], m.name));
      }
    }
  }

  lemma CheckAndCreateTotal(p: Pass, i: int, env: Environment)
    ensures var next := CheckAndCreate(p, i, env);
            && next.surge - p.surge == Total(next.api) - Total(p.api)
            && next.surge - p.surge == |next.created| - |p.created|
            && next.surge <= p.surge + 1
  {
    TotalUpdate(p.api, i, At(p.api, i) + [NewMachine(env, i)]);
  }

  lemma CreateTotal(p: Pass, idx: int, machines: seq<MachineInfo>, env: Environment)
    ensures var next := Create(p, idx, machines, env);
            && next.surge - p.surge == Total(next.api) - Total(p.api)
            && next.surge - p.surge == |next.created| - |p.created|
            && next.surge <= (if p.surge < MAX_SURGE then p.surge + 1 else p.surge)
  {
    if WantsMachine(machines) && p.surge < MAX_SURGE {
      CheckAndCreateTotal(p, CreationIndex(machines, idx), env);
    }
  }

  lemma RollIndexTotal(p: Pass, idx: int, machines: seq<MachineInfo>, env: Environment)
    ensures var next := RollIndex(p, idx, machines, env);
            && next.surge - p.surge == Total(next.api) - Total(p.api)
            && next.surge - p.surge == |next.created| - |p.created|
            && next.surge <= (if p.surge < MAX_SURGE then p.surge + 1 else p.surge)
  {
    DeleteTotal(p, machines, env);
    var deleted := Delete(p, machines, env);
    CreateTotal(deleted.(requeue := deleted.requeue || Waits(machines)), idx, machines, env);
  }

  /** The surge count moves with the number of machines and never passes the
      maximum, unless it was past it already; on any view, failures included. */
  lemma {:induction false} SurgeTracksTotal(p: Pass, view: Cluster, todo: set<int>, env: Environment)
    requires todo <= view.Keys
    ensures var end := RollAll(p, view, todo, env);
            && end.surge - p.surge == Total(end.api) - Total(p.api)
            && end.surge - p.surge == |end.created| - |p.created|
            && end.surge <= (if p.surge < MAX_SURGE then MAX_SURGE else p.surge)
    decreases todo
  {
    if todo != {} {
      var i := Least(todo);
      RollIndexTotal(p, i, view[i], env);
      SurgeTracksTotal(RollIndex(p, i, view[i], env), view, todo - {i}, env);
    }
  }

  /** The view lists, in any order, what the API holds. */
  ghost predicate Fresh(view: Cluster, api: Cluster) {
    view.Keys == api.Keys && WellGrouped(view) && forall i :: i in view ==> multiset(view[i]) == multiset(api[i])
  }

  lemma FreshTotal(view: Cluster, api: Cluster)
    requires Fresh(view, api)
    ensures Total(view) == Total(api)
  {
    forall i | i in view.Keys ensures Lengths(view)(i) == Lengths(api)(i) {
      assert |multiset(view[i])| == |multiset(api[i])|;
    }
    SumMonotone(view.Keys, Lengths(view), Lengths(api));
  }

  /** Surge bound: unless the view lists fewer machines than the API holds, a
      pass leaves at most one machine above the desired replicas, or as many as
      there were; failing API calls do not change that. */
  lemma SurgeBound(view: Cluster, api: Cluster, replicas: nat, env: Environment)
    requires Total(view) >= Total(api)
    ensures WithinSurge(RollingPass(view, api, replicas, env), api, replicas)
  {
    SurgeTracksTotal(Pass(api, Total(view) - replicas, [], [], false, false), view, view.Keys, env);
  }

  ghost predicate WithinSurge(end: Pass, api: Cluster, replicas: nat) {
    Total(end.api) <= Total(api) || Total(end.api) <= replicas + MAX_SURGE
  }

  // ---------------------------------------------- one index, on any view

  /** No call about index i fails, and the name for a new machine is new. */
  ghost predicate Unfailing(api: Cluster, view: Cluster, env: Environment, i: int) {
    && i in view && i !in env.failingLists && i !in env.failingCreates
    && (forall m {:trigger m in view[i]} :: m in view[i] ==> m.name !in env.failingDeletes)
    && !NameTaken(At(api, i), env.newName(i))
  }

  /** What the API holds of an index after a pass's own deletion there. */
  function AfterDeletion(held: seq<MachineInfo>, listed: seq<MachineInfo>): seq<MachineInfo> {
    var target := DeletionTarget(listed);
    if target.None? || target.value.deleting then held else MarkDeleting(held, target.value.name)
  }

  /** The deletion a pass requests at an index, if any. */
  function Requested(listed: seq<MachineInfo>): seq<MachineInfo> {
    var target := DeletionTarget(listed);
    if target.None? || target.value.deleting then [] else [target.value]
  }

  /** All machines listed at an index are leaving it, or there is none, and the
      API, by what it holds there, has no replacement yet. */
  predicate Lacks(held: seq<MachineInfo>, listed: seq<MachineInfo>, i: int) {
    AllLeaving(listed) && !HoldsReplacement(AfterDeletion(held, listed), i)
  }

  lemma MarkedNames(ms: seq<MachineInfo>, name: string, other: string)
    ensures NameTaken(MarkDeleting(ms, name), other) <==> NameTaken(ms, other)
  {
    var r := MarkDeleting(ms, name);
    assert forall k :: 0 <= k < |ms| ==> r[k].name == ms[k].name;
  }

  lemma TargetListed(machines: seq<MachineInfo>)
    ensures DeletionTarget(machines).Some? ==> DeletionTarget(machines).value in machines
  {
    var outdated := Select(machines, NeedsReplacement);
    SelectHead(machines, NeedsReplacement);
    SelectHead(outdated, NonReady);
    assert forall m :: m in outdated ==> m in machines;
  }

  /** What the deletion step does at an index. */
  lemma DeleteAt(p: Pass, view: Cluster, i: int, env: Environment)
    requires WellGrouped(view) && !p.failed && Unfailing(p.api, view, env, i)
    ensures var deleted := Delete(p, view[i], env);
            && !deleted.failed && deleted.surge == p.surge && deleted.created == p.created
            && deleted.api.Keys == p.api.Keys
            && At(deleted.api, i) == AfterDeletion(At(p.api, i), view[i])
            && (forall j :: j != i ==> At(deleted.api, j) == At(p.api, j))
            && !NameTaken(At(deleted.api, i), env.newName(i))
            && deleted.requeue == p.requeue && deleted.requests == p.requests + Requested(view[i])
  {
    TargetListed(view[i]);
    var target := DeletionTarget(view[i]);
    if target.Some? {
      MarkedNames(At(p.api, i), target.value.name, env.newName(i));
    }
  }

  /** The creation step, when the calls for it succeed. */
  lemma CreateAt(p: Pass, view: Cluster, i: int, env: Environment)
    requires WellGrouped(view) && i in view && i !in env.failingLists && i !in env.failingCreates
    requires !NameTaken(At(p.api, i), env.newName(i))
    ensures var next := Create(p, i, view[i], env);
            var creates := AllLeaving(view[i]) && p.surge < MAX_SURGE && !HoldsReplacement(At(p.api, i), i);
            next == if creates
                    then p.(api := p.api[i := At(p.api, i) + [NewMachine(env, i)]], surge := p.surge + 1, created := p.created + [i])
                    else p
  {
    WantedIffAllLeaving(view[i]);
    SelectHead(view[i], NeedsReplacement);
    assert WantsMachine(view[i]) ==> CreationIndex(view[i], i) == i;
  }

  /** What one index contributes when nothing fails: at most one machine, at
      that index, and no other index is touched. */
  lemma RollIndexCreates(p: Pass, view: Cluster, i: int, env: Environment)
    requires WellGrouped(view) && !p.failed && Unfailing(p.api, view, env, i)
    ensures var next := RollIndex(p, i, view[i], env);
            var creates := Lacks(At(p.api, i), view[i], i) && p.surge < MAX_SURGE;
            && !next.failed
            && p.api.Keys <= next.api.Keys
            && (forall j :: j != i ==> At(next.api, j) == At(p.api, j))
            && At(next.api, i) == AfterDeletion(At(p.api, i), view[i]) + (if creates then [NewMachine(env, i)] else [])
            && next.created == (if creates then p.created + [i] else p.created)
            && next.surge == (if creates then p.surge + 1 else p.surge)
            && next.requeue == (p.requeue || Waits(view[i]))
            && next.requests == p.requests + Requested(view[i])
  {
    DeleteAt(p, view, i, env);
    var deleted := Delete(p, view[i], env);
    CreateAt(deleted.(requeue := deleted.requeue || Waits(view[i])), view, i, env);
  }

  // ------------------------------------------------------- exact creations

  /** The indexes a pass creates machines for, room permitting. */
  ghost function Lacking(view: Cluster, api: Cluster): set<int> {
    set i | i in view && Lacks(At(api, i), view[i], i)
  }

  /** What the API holds at an index after a pass: what it held, less the
      deletion, and the new machine if one was created. */
  ghost function Handled(api: Cluster, view: Cluster, env: Environment, i: int, created: bool): seq<MachineInfo>
    requires i in view
  {
    AfterDeletion(At(api, i), view[i]) + (if created then [NewMachine(env, i)] else [])
  }

  /** The lowest of a set of indexes in ascending order, as many as there is
      room for. */
  ghost function LowestFirst(s: set<int>, room: int): seq<int>
    decreases s
  {
    if room <= 0 || s == {} then [] else [Least(s)] + LowestFirst(s - {Least(s)}, room - 1)
  }

  /** How many elements there is room for. */
  function Made(size: nat, room: int): nat {
    if room <= 0 then 0 else if room < size then room else size
  }

  lemma {:induction false} LowestFirstSize(s: set<int>, room: int)
    ensures |LowestFirst(s, room)| == Made(|s|, room)
    decreases s
  {
    if room > 0 && s != {} {
      assert |s - {Least(s)}| == |s| - 1;
      LowestFirstSize(s - {Least(s)}, room - 1);
    }
  }

  lemma {:induction false} LowestFirstGrows(s: set<int>, room: int, more: int)
    requires room <= more
    ensures LowestFirst(s, room) <= LowestFirst(s, more)
    decreases s
  {
    if room > 0 && s != {} {
      LowestFirstGrows(s - {Least(s)}, room - 1, more - 1);
    }
  }

  lemma {:induction false} LowestFirstOfAll(s: set<int>)
    ensures LowestFirst(s, |s|) == Ascending(s)
    decreases s
  {
    if s != {} {
      assert |s - {Least(s)}| == |s| - 1;
      LowestFirstOfAll(s - {Least(s)});
    }
  }

  /** That is a prefix of the ascending list of the set. */
  lemma LowestFirstIsPrefix(s: set<int>, room: int)
    requires room <= |s|
    ensures LowestFirst(s, room) <= Ascending(s)
  {
    LowestFirstGrows(s, room, |s|);
    LowestFirstOfAll(s);
  }

  /** Of the lowest elements of s in todo, the first is the next of todo, or none
      of s is there. */
  lemma LowestFirstNext(s: set<int>, todo: set<int>, room: int)
    requires todo != {}
    ensures var i := Least(todo);
            LowestFirst(todo * s, room) ==
            if i in s && room > 0 then [i] + LowestFirst((todo - {i}) * s, room - 1)
            else if i in s then [] else LowestFirst((todo - {i}) * s, room)
  {
    var i := Least(todo);
    if i in s {
      assert i in todo * s && Least(todo * s) in todo;
      assert todo * s - {i} == (todo - {i}) * s;
    } else {
      assert todo * s == (todo - {i}) * s;
    }
  }

  /** The pass has not come to the indexes of todo, and no call about them will
      fail. */
  ghost predicate Ahead(p: Pass, api: Cluster, view: Cluster, todo: set<int>, env: Environment) {
    !p.failed && forall i {:trigger Untouched(p, api, view, env, i)} :: i in todo ==> Untouched(p, api, view, env, i)
  }

  ghost predicate Untouched(p: Pass, api: Cluster, view: Cluster, env: Environment, i: int) {
    At(p.api, i) == At(api, i) && Unfailing(api, view, env, i)
  }

  lemma AheadNext(p: Pass, api: Cluster, view: Cluster, todo: set<int>, env: Environment)
    requires WellGrouped(view) && todo != {} && todo <= view.Keys && Ahead(p, api, view, todo, env)
    ensures var i := Least(todo);
            var next := RollIndex(p, i, view[i], env);
            var creates := i in Lacking(view, api) && p.surge < MAX_SURGE;
            && Ahead(next, api, view, todo - {i}, env)
            && next.created == (if creates then p.created + [i] else p.created)
            && next.surge == (if creates then p.surge + 1 else p.surge)
            && At(next.api, i) == Handled(api, view, env, i, creates)
  {
    var i := Least(todo);
    assert Untouched(p, api, view, env, i);
    RollIndexCreates(p, view, i, env);
    var next := RollIndex(p, i, view[i], env);
    forall j | j in todo - {i} ensures Untouched(next, api, view, env, j) {
      assert Untouched(p, api, view, env, j);
    }
  }

  lemma CreatedNext(created: seq<int>, next: seq<int>, s: set<int>, todo: set<int>, room: int, left: int)
    requires todo != {}
    requires var creates := Least(todo) in s && room > 0;
             next == (if creates then created + [Least(todo)] else created) && left == (if creates then room - 1 else room)
    ensures next + LowestFirst((todo - {Least(todo)}) * s, left) == created + LowestFirst(todo * s, room)
  {
    var i := Least(todo);
    LowestFirstNext(s, todo, room);
    var rest := LowestFirst((todo - {i}) * s, left);
    assert created + ([i] + rest) == (created + [i]) + rest;
  }

  lemma {:induction false} RollAllCreates(p: Pass, api: Cluster, view: Cluster, todo: set<int>, env: Environment, room: int)
    requires WellGrouped(view) && todo <= view.Keys && Ahead(p, api, view, todo, env) && room == MAX_SURGE - p.surge
    ensures !RollAll(p, view, todo, env).failed
    ensures RollAll(p, view, todo, env).created == p.created + LowestFirst(todo * Lacking(view, api), room)
    decreases todo
  {
    if todo == {} {
      assert todo * Lacking(view, api) == {};
      assert p.created + [] == p.created;
    } else {
      var i := Least(todo);
      var next := RollIndex(p, i, view[i], env);
      AheadNext(p, api, view, todo, env);
      var left := MAX_SURGE - next.surge;
      CreatedNext(p.created, next.created, Lacking(view, api), todo, room, left);
      RollAllCreates(next, api, view, todo - {i}, env, left);
      var end := RollAll(next, view, todo - {i}, env);
      assert end.created == p.created + LowestFirst(todo * Lacking(view, api), room);
      assert RollAll(p, view, todo, env) == end;
    }
  }

  /** The pass ended without a failure and created machines for the listed
      indexes, in that order. */
  ghost predicate Creates(end: Pass, indexes: seq<int>) {
    !end.failed && end.created == indexes
  }

  /** No API call of a pass over the view fails, and new names are new. */
  ghost predicate NoneFails(view: Cluster, api: Cluster, env: Environment) {
    forall i {:trigger Unfailing(api, view, env, i)} :: i in view ==> Unfailing(api, view, env, i)
  }

  lemma StartsAhead(start: Pass, view: Cluster, env: Environment)
    requires NoneFails(view, start.api, env) && !start.failed
    ensures Ahead(start, start.api, view, view.Keys, env)
  {
    forall i | i in view.Keys ensures Untouched(start, start.api, view, env, i) {
      assert Unfailing(start.api, view, env, i);
    }
  }

  lemma CreatedFromStart(start: Pass, view: Cluster, env: Environment, room: int)
    requires WellGrouped(view) && NoneFails(view, start.api, env) && !start.failed && start.created == []
    requires room == MAX_SURGE - start.surge
    ensures Creates(RollAll(start, view, view.Keys, env), LowestFirst(Lacking(view, start.api), room))
  {
    StartsAhead(start, view, env);
    RollAllCreates(start, start.api, view, view.Keys, env, room);
    assert view.Keys * Lacking(view, start.api) == Lacking(view, start.api);
    assert [] + LowestFirst(Lacking(view, start.api), room) == LowestFirst(Lacking(view, start.api), room);
  }

  /** What a pass creates on any view, fresh or stale, when no API call fails:
      machines for the lowest of the indexes whose listing wants one and where
      the API has no replacement, as many as the surge of the view leaves room
      for, and no others. */
  lemma CreatedOnView(view: Cluster, api: Cluster, replicas: nat, env: Environment)
    requires WellGrouped(view) && NoneFails(view, api, env)
    ensures var room := MAX_SURGE - (Total(view) - replicas);
            Creates(RollingPass(view, api, replicas, env), LowestFirst(Lacking(view, api), room))
  {
    var start := Pass(api, Total(view) - replicas, [], [], false, false);
    CreatedFromStart(start, view, env, MAX_SURGE - (Total(view) - replicas));
  }

  /** The surge bound on any view, when no API call fails: it is kept if and
      only if nothing is created, or what is created fits beside the machines
      the API holds. The number created follows from the view and the API. */
  lemma SurgeBoundIff(view: Cluster, api: Cluster, replicas: nat, env: Environment)
    requires WellGrouped(view) && NoneFails(view, api, env)
    ensures var made := Made(|Lacking(view, api)|, MAX_SURGE - (Total(view) - replicas));
            WithinSurge(RollingPass(view, api, replicas, env), api, replicas)
            <==> made == 0 || Total(api) + made <= replicas + MAX_SURGE
  {
    CreatedOnView(view, api, replicas, env);
    LowestFirstSize(Lacking(view, api), MAX_SURGE - (Total(view) - replicas));
    SurgeTracksTotal(Pass(api, Total(view) - replicas, [], [], false, false), view, view.Keys, env);
  }

  // ------------------------------------------------------------ fresh views

  /** The indexes without machines, or where every machine is outdated or being
      deleted. */
  ghost function Wanting(view: Cluster): set<int> {
    set i | i in view && AllLeaving(view[i])
  }

  /** The API still holds at index i what the view lists, and no call about it
      fails. */
  ghost predicate Sound(api: Cluster, view: Cluster, env: Environment, i: int) {
    Unfailing(api, view, env, i) && i in api && multiset(view[i]) == multiset(api[i])
  }

  /** No API call of a pass over a view that is fresh fails. */
  ghost predicate NoFailures(view: Cluster, api: Cluster, env: Environment) {
    forall i {:trigger Sound(api, view, env, i)} :: i in view ==> Sound(api, view, env, i)
  }

  lemma SoundAhead(p: Pass, view: Cluster, todo: set<int>, i: int, env: Environment)
    requires WellGrouped(view) && i in todo && !p.failed
    requires forall j :: j in todo ==> Sound(p.api, view, env, j)
    ensures i in view
    ensures var next := RollIndex(p, i, view[i], env);
            !next.failed && forall j :: j in todo - {i} ==> Sound(next.api, view, env, j)
  {
    assert Sound(p.api, view, env, i);
    var next := RollIndex(p, i, view[i], env);
    RollIndexCreates(p, view, i, env);
    forall j | j in todo - {i} ensures Sound(next.api, view, env, j) {
      assert Sound(p.api, view, env, j);
      assert At(next.api, j) == At(p.api, j);
    }
  }

  /** Where a machine is wanted the same machines hold no replacement, also
      after a deletion. */
  lemma WantsNoLive(machines: seq<MachineInfo>, held: seq<MachineInfo>, i: int)
    requires AllLeaving(machines) && multiset(machines) == multiset(held)
    ensures forall m :: m in held ==> !Is(m, Live)
    ensures Lacks(held, machines, i)
  {
    forall m | m in held ensures !Is(m, Live) {
      assert m in multiset(held);
      assert m in machines;
    }
    assert forall k :: 0 <= k < |held| ==> held[k] in held;
  }

  /** On a fresh view every index that wants a machine lacks one. */
  lemma FreshLacking(view: Cluster, api: Cluster)
    requires Fresh(view, api)
    ensures Lacking(view, api) == Wanting(view)
  {
    forall i | i in Wanting(view) ensures i in Lacking(view, api) {
      WantsNoLive(view[i], At(api, i), i);
    }
  }

  lemma SoundIsUnfailing(view: Cluster, api: Cluster, env: Environment)
    requires NoFailures(view, api, env)
    ensures NoneFails(view, api, env)
  {
    forall i | i in view ensures Unfailing(api, view, env, i) {
      assert Sound(api, view, env, i);
    }
  }

  /** Exact pass semantics: on a fresh view, when no API call fails, a pass
      creates machines for the lowest of the indexes that want one, as many as
      the surge leaves room for, and for no others. */
  lemma CreatedExactly(view: Cluster, api: Cluster, replicas: nat, env: Environment)
    requires Fresh(view, api) && NoFailures(view, api, env)
    ensures var room := MAX_SURGE - (Total(api) - replicas);
            Creates(RollingPass(view, api, replicas, env), LowestFirst(Wanting(view), room))
  {
    FreshTotal(view, api);
    FreshLacking(view, api);
    SoundIsUnfailing(view, api, env);
    CreatedOnView(view, api, replicas, env);
  }

  // ------------------------------------------------------------ stale views

  /** On a stale view the surge bound can fail: index 0 already has its
      replacement, which the view does not list yet. The creation there is
      refused and not counted, so index 1 gets a machine as well. */
  lemma StaleViewExceedsSurge(o0: MachineInfo, n0: MachineInfo, o1: MachineInfo, env: Environment)
    requires IsStaleExample(o0, n0, o1, env)
    ensures var view: Cluster := map[0 := [o0], 1 := [o1]];
            var api: Cluster := map[0 := [o0, n0], 1 := [o1]];
            WellGrouped(view) && Total(api) == 3 &&
            Total(RollingPass(view, api, 2, env).api) == 4
  {
    var view: Cluster := map[0 := [o0], 1 := [o1]];
    var api: Cluster := map[0 := [o0, n0], 1 := [o1]];
    TotalOfTwo(view, 0, 1);
    TotalOfTwo(api, 0, 1);
    StaleExampleRolls(view, api, o0, n0, o1, env);
    SecondCreates(Pass(api, Total(view) - 2, [], [], false, false), view, env);
  }

  ghost predicate IsStaleExample(o0: MachineInfo, n0: MachineInfo, o1: MachineInfo, env: Environment) {
    && o0.index == n0.index == 0 && o1.index == 1
    && o0.needsUpdate && o0.ready && !o0.deleting && o1.needsUpdate && o1.ready && !o1.deleting
    && Is(n0, Live)
    && env.failingLists == {} && env.failingCreates == {} && env.newName(1) != o1.name
  }

  lemma StaleExampleRolls(view: Cluster, api: Cluster, o0: MachineInfo, n0: MachineInfo, o1: MachineInfo, env: Environment)
    requires IsStaleExample(o0, n0, o1, env)
    requires view == map[0 := [o0], 1 := [o1]] && api == map[0 := [o0, n0], 1 := [o1]] && Total(view) == 2
    ensures var p := Pass(api, Total(view) - 2, [], [], false, false);
            RollIndex(p, 0, view[0], env) == p && RollIndex(p, 1, view[1], env).surge == p.surge + 1
  {
    var p := Pass(api, Total(view) - 2, [], [], false, false);
    assert At(p.api, 0)[1] == n0 && At(p.api, 1) == [o1];
    LoneOutdated(p, 0, o0, env);
    LoneOutdated(p, 1, o1, env);
  }

  lemma SecondCreates(p: Pass, view: Cluster, env: Environment)
    requires view.Keys == {0, 1}
    requires RollIndex(p, 0, view[0], env) == p && RollIndex(p, 1, view[1], env).surge == p.surge + 1
    ensures Total(RollAll(p, view, view.Keys, env).api) == Total(p.api) + 1
  {
    RollIndexTotal(p, 1, view[1], env);
    RollTwo(p, RollIndex(p, 1, view[1], env), view, env);
  }

  lemma RollTwo(p: Pass, q: Pass, view: Cluster, env: Environment)
    requires view.Keys == {0, 1}
    requires RollIndex(p, 0, view[0], env) == p && RollIndex(p, 1, view[1], env) == q
    ensures RollAll(p, view, view.Keys, env) == q
  {
    assert Least({0, 1}) == 0 && {0, 1} - {0} == {1};
    assert Least({1}) == 1 && {1} - {1} == {};
    assert RollAll(q, view, {}, env) == q;
    assert RollAll(p, view, {1}, env) == q;
  }

  /** A lone outdated machine is replaced, unless the API has a replacement. */
  lemma LoneOutdated(p: Pass, i: int, o: MachineInfo, env: Environment)
    requires !p.failed && p.surge < MAX_SURGE && o.index == i
    requires o.needsUpdate && o.ready && !o.deleting
    requires env.failingLists == {} && env.failingCreates == {}
    ensures HasReplacement(p.api, i) ==> RollIndex(p, i, [o], env) == p
    ensures At(p.api, i) == [o] && env.newName(i) != o.name ==> RollIndex(p, i, [o], env).surge == p.surge + 1
  {
    assert [o][..0] == [];
    assert Select([o], NeedsReplacement) == [o];
    assert Select([o], Pending) == [] && Select([o], UpdatedNonDeleted) == [];
    assert WantsMachine([o]) && CreationIndex([o], i) == i && !Waits([o]);
    if At(p.api, i) == [o] {
      assert !HasReplacement(p.api, i);
    }
  }

  lemma TotalOfTwo(c: Cluster, i: int, j: int)
    requires c.Keys == {i, j} && i != j
    ensures Total(c) == |c[i]| + |c[j]|
  {
    SumRemove({i, j}, Lengths(c), i);
    assert {i, j} - {i} == {j};
    SumRemove({j}, Lengths(c), j);
    assert {j} - {j} == {};
  }
}
