/** A whole rollout: controller passes on fresh views interleaved with machines
    becoming ready and deleted machines going away. */
module Rollout {
  import opened FailureDomains
  import opened Machines
  import opened Updates

  // ------------------------------------------------------------------ shapes

  /** A lone machine: ready and not being deleted, outdated or up to date. */
  predicate Lone(m: MachineInfo) {
    m.ready && !m.deleting
  }

  /** An outdated machine and its replacement; the outdated one is ready until
      the replacement is, and is only then deleted. */
  predicate PairOf(o: MachineInfo, n: MachineInfo) {
    o.needsUpdate && !n.needsUpdate && !n.deleting && n.errorMessage == "" && o.name != n.name &&
    (if o.deleting then n.ready else o.ready)
  }

  /** The machines an index holds during a rollout. */
  predicate Shape(ms: seq<MachineInfo>) {
    (|ms| == 1 && Lone(ms[0])) || (|ms| == 2 && (PairOf(ms[0], ms[1]) || PairOf(ms[1], ms[0])))
  }

  function PairStage(o: MachineInfo, n: MachineInfo): nat {
    if o.deleting then (if o.ready then 2 else 1)
    else if n.ready then 3
    else 4
  }

  /** How far an index is from holding just an up-to-date machine: 5 outdated,
      4 with a pending replacement, 3 with a ready one, 2 with the outdated
      machine being deleted, 1 with it no longer ready, 0 done. */
  function Stage(ms: seq<MachineInfo>): nat {
    if |ms| == 1 then (if ms[0].needsUpdate then 5 else 0)
    else if |ms| == 2 then (if PairOf(ms[0], ms[1]) then PairStage(ms[0], ms[1]) else PairStage(ms[1], ms[0]))
    else 0
  }

  /** A list of two in either order. */
  lemma TwoPermuted<T>(a: seq<T>, b: seq<T>)
    requires |a| == 2 && multiset(a) == multiset(b)
    ensures |b| == 2 && (b == a || b == [a[1], a[0]])
  {
    assert |multiset(a)| == |multiset(b)|;
    assert a == [a[0], a[1]] && b == [b[0], b[1]];
    assert b[0] in multiset(b) && b[1] in multiset(b);
    assert multiset(b) == multiset{b[0], b[1]} && multiset(a) == multiset{a[0], a[1]};
    if b[0] == a[0] {
      assert multiset{b[1]} == multiset(b) - multiset{b[0]} == multiset(a) - multiset{a[0]} == multiset{a[1]};
      assert b[1] in multiset{a[1]};
    } else {
      assert b[0] == a[1];
      assert multiset{b[1]} == multiset(b) - multiset{b[0]} == multiset(a) - multiset{a[1]} == multiset{a[0]};
      assert b[1] in multiset{a[0]};
    }
  }

  lemma OnePermuted<T>(a: seq<T>, b: seq<T>)
    requires |a| == 1 && multiset(a) == multiset(b)
    ensures b == a
  {
    assert |multiset(a)| == |multiset(b)|;
    assert a == [a[0]] && b == [b[0]];
    assert b[0] in multiset(b);
    assert b[0] in multiset{a[0]};
  }

  lemma ShapePermuted(a: seq<MachineInfo>, b: seq<MachineInfo>)
    requires Shape(a) && multiset(a) == multiset(b)
    ensures Shape(b) && Stage(b) == Stage(a) && |b| == |a|
  {
    if |a| == 1 { OnePermuted(a, b); } else { TwoPermuted(a, b); }
  }

  // ------------------------------------------------- decisions on the shapes

  lemma SelectOne(m: MachineInfo, kind: Kind)
    ensures Select([m], kind) == if Is(m, kind) then [m] else []
  {
    assert [m][..0] == [];
  }

  lemma SelectTwo(a: MachineInfo, b: MachineInfo, kind: Kind)
    ensures Select([a, b], kind)
         == (if Is(a, kind) then [a] else []) + (if Is(b, kind) then [b] else [])
  {
    SelectOne(a, kind);
    assert [a, b][..1] == [a];
  }

  lemma LoneDecisions(m: MachineInfo)
    requires Lone(m)
    ensures DeletionTarget([m]) == None
    ensures WantsMachine([m]) <==> m.needsUpdate
    ensures m.needsUpdate ==> CreationIndex([m], m.index) == m.index
  {
    SelectOne(m, NeedsReplacement);
    SelectOne(m, UpdatedNonDeleted);
    SelectOne(m, Pending);
  }

  /** What the filters find in a pair, listed either way round. */
  lemma PairSelections(ms: seq<MachineInfo>, o: MachineInfo, n: MachineInfo)
    requires ms == [o, n] || ms == [n, o]
    requires PairOf(o, n)
    ensures Select(ms, NeedsReplacement) == [o]
    ensures Select(ms, Updated) == if n.ready then [n] else []
    ensures Select(ms, UpdatedNonDeleted) == if n.ready then [n] else []
    ensures Select(ms, Pending) == if n.ready then [] else [n]
  {
    SelectTwo(ms[0], ms[1], NeedsReplacement);
    SelectTwo(ms[0], ms[1], Updated);
    SelectTwo(ms[0], ms[1], UpdatedNonDeleted);
    SelectTwo(ms[0], ms[1], Pending);
  }

  lemma SoleOutdated(ms: seq<MachineInfo>, o: MachineInfo)
    requires |ms| >= 2 && Select(ms, NeedsReplacement) == [o] && |Select(ms, Updated)| <= 1
    ensures DeletionTarget(ms) == if !o.ready || Select(ms, Updated) != [] then Some(o) else None
  {
    SelectOne(o, NonReady);
  }

  lemma PairTarget(ms: seq<MachineInfo>, o: MachineInfo, n: MachineInfo)
    requires ms == [o, n] || ms == [n, o]
    requires PairOf(o, n)
    ensures DeletionTarget(ms) == if n.ready then Some(o) else None
  {
    PairSelections(ms, o, n);
    SoleOutdated(ms, o);
  }

  /** For an outdated machine and its replacement nothing more is created, and
      the outdated one is to go once the replacement is ready. */
  lemma PairDecisions(ms: seq<MachineInfo>, o: MachineInfo, n: MachineInfo)
    requires ms == [o, n] || ms == [n, o]
    requires PairOf(o, n)
    ensures !WantsMachine(ms)
    ensures DeletionTarget(ms) == if n.ready then Some(o) else None
  {
    PairSelections(ms, o, n);
    PairTarget(ms, o, n);
  }

  // ------------------------------------------------------ one index, one pass

  /** What handling an index does there: nothing, a deletion of the outdated
      machine whose replacement is ready, or the creation of a replacement. */
  ghost predicate Advances(before: seq<MachineInfo>, after: seq<MachineInfo>) {
    Shape(before) && Shape(after) &&
    ((Stage(before) == 3 && Stage(after) == 2 && |after| == |before|) ||
     (Stage(before) == 5 && Stage(after) == 4 && |after| == |before| + 1))
  }

  ghost predicate Owned(ms: seq<MachineInfo>, i: int) {
    forall m :: m in ms ==> m.index == i
  }

  lemma CreationAdvances(ms: seq<MachineInfo>, env: Environment, i: int)
    requires Shape(ms) && Stage(ms) == 5 && !NameTaken(ms, env.newName(i)) && Owned(ms, i)
    ensures Advances(ms, ms + [NewMachine(env, i)]) && Owned(ms + [NewMachine(env, i)], i)
  {
    var n := NewMachine(env, i);
    assert |ms| == 1;
    assert ms[0].name != n.name;
    assert PairOf(ms[0], n);
    assert ms + [n] == [ms[0], n];
  }

  lemma DeletionAdvances(ms: seq<MachineInfo>, o: MachineInfo, n: MachineInfo, i: int)
    requires ms == [o, n] || ms == [n, o]
    requires PairOf(o, n) && !o.deleting && n.ready && Owned(ms, i)
    ensures Advances(ms, MarkDeleting(ms, o.name)) && Owned(MarkDeleting(ms, o.name), i)
  {
    var o' := o.(deleting := true);
    assert o in ms && n in ms;
    assert PairOf(o', n);
    assert MarkDeleting(ms, o.name) == if ms == [o, n] then [o', n] else [n, o'];
  }

  /** The pair of an index with two machines. */
  lemma PairIn(ms: seq<MachineInfo>) returns (o: MachineInfo, n: MachineInfo)
    requires Shape(ms) && |ms| == 2
    ensures (ms == [o, n] || ms == [n, o]) && PairOf(o, n) && Stage(ms) == PairStage(o, n)
  {
    if PairOf(ms[0], ms[1]) {
      o, n := ms[0], ms[1];
    } else {
      o, n := ms[1], ms[0];
    }
  }

  /** From c to c' only index i is handled. */
  ghost predicate Handled(c: Cluster, c': Cluster, i: int) {
    && i in c && c'.Keys == c.Keys
    && (forall j :: j in c && j != i ==> c'[j] == c[j])
    && Owned(c'[i], i)
    && (c'[i] == c[i] || Advances(c[i], c'[i]))
  }

  /** Handling an index of a rollout on a view that lists what the API holds. */
  lemma RollShape(p: Pass, i: int, machines: seq<MachineInfo>, env: Environment)
    requires i in p.api && Shape(p.api[i]) && Owned(p.api[i], i) && multiset(machines) == multiset(p.api[i])
    ensures Handled(p.api, RollIndex(p, i, machines, env).api, i)
  {
    ShapePermuted(p.api[i], machines);
    if |machines| == 1 {
      OnePermuted(p.api[i], machines);
      RollLone(p, i, machines[0], env);
    } else {
      var o, n := PairIn(machines);
      TwoPermuted(machines, p.api[i]);
      RollPair(p, i, machines, o, n, env);
    }
  }

  lemma RollLone(p: Pass, i: int, m: MachineInfo, env: Environment)
    requires i in p.api && p.api[i] == [m] && Lone(m) && m.index == i
    ensures Handled(p.api, RollIndex(p, i, [m], env).api, i)
  {
    LoneDecisions(m);
    if m.needsUpdate && !NameTaken(p.api[i], env.newName(i)) {
      CreationAdvances([m], env, i);
    }
  }

  lemma RollWithoutCreation(p: Pass, i: int, machines: seq<MachineInfo>, env: Environment)
    requires !WantsMachine(machines)
    ensures RollIndex(p, i, machines, env).api == if p.failed then p.api else Delete(p, machines, env).api
  {}

  lemma DeletePair(p: Pass, i: int, machines: seq<MachineInfo>, o: MachineInfo, n: MachineInfo, env: Environment)
    requires i in p.api && o.index == i && PairOf(o, n)
    requires DeletionTarget(machines) == if n.ready then Some(o) else None
    ensures Delete(p, machines, env).api == p.api ||
            (n.ready && !o.deleting && Delete(p, machines, env).api == p.api[i := MarkDeleting(p.api[i], o.name)])
  {}

  lemma RollPair(p: Pass, i: int, machines: seq<MachineInfo>, o: MachineInfo, n: MachineInfo, env: Environment)
    requires i in p.api && (machines == [o, n] || machines == [n, o]) && (p.api[i] == [o, n] || p.api[i] == [n, o])
    requires PairOf(o, n) && Owned(p.api[i], i)
    ensures Handled(p.api, RollIndex(p, i, machines, env).api, i)
  {
    PairDecisions(machines, o, n);
    assert o in p.api[i];
    RollWithoutCreation(p, i, machines, env);
    DeletePair(p, i, machines, o, n, env);
    if n.ready && !o.deleting {
      DeletionAdvances(p.api[i], o, n, i);
    }
  }
}
