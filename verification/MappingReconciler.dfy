/** The in-place algorithm: mutable index maps, proved to compute the functions
    of module Mapping. */
module MappingReconciler {
  import opened Counting
  import opened FailureDomains
  import opened Mapping

  method Extra(m: Mapping, superset: Mapping) returns (extra: set<int>)
    ensures extra == m.Keys - superset.Keys
  {
    extra := {};
    var rest := m.Keys;
    while rest != {}
      invariant rest <= m.Keys
      invariant extra == (m.Keys - superset.Keys) - rest
      decreases rest
    {
      var x := TakeAny(rest);
      OneFewer(m.Keys - superset.Keys, rest, x);
      if x !in superset { extra := extra + {x}; }
      rest := rest - {x};
    }
  }

  /** The indexes of one mapping that another lacks, in ascending order. */
  method ExtraIndexes(m: Mapping, superset: Mapping) returns (a: seq<int>)
    ensures a == Ascending(m.Keys - superset.Keys)
  {
    var extra := Extra(m, superset);
    a := SortedIndexes(extra);
  }

  // ----------------------------------------------------- counting by loops

  method Contains(m: Mapping, d: FailureDomain) returns (found: bool)
    ensures found <==> d in m.Values
  {
    var rest := m.Keys;
    found := false;
    while rest != {}
      invariant rest <= m.Keys
      invariant forall i :: i in m && m[i] == d ==> i in rest
      decreases rest
    {
      var i := TakeAny(rest);
      if m[i] == d { return true; }
      rest := rest - {i};
    }
    if d in m.Values {
      ghost var i := KeyOf(m, d);
    }
  }

  method CountForFailureDomain(m: Mapping, d: FailureDomain) returns (count: nat)
    ensures count == Count(m, d)
  {
    count := 0;
    var rest := m.Keys;
    while rest != {}
      invariant rest <= m.Keys
      invariant count == |Holders(m, d) - rest|
      decreases rest
    {
      var i := TakeAny(rest);
      OneFewer(Holders(m, d), rest, i);
      if m[i] == d { count := count + 1; }
      rest := rest - {i};
    }
    assert Holders(m, d) - {} == Holders(m, d);
  }

  method CountUniqueFailureDomain(m: Mapping) returns (count: nat)
    ensures count == |m.Values|
  {
    var seen: set<FailureDomain> := {};
    var rest := m.Keys;
    while rest != {}
      invariant rest <= m.Keys
      invariant seen <= m.Values
      invariant forall i :: i in m && i !in rest ==> m[i] in seen
      decreases rest
    {
      var i := TakeAny(rest);
      assert m[i] in m.Values;
      if m[i] !in seen { seen := seen + {m[i]}; }
      rest := rest - {i};
    }
    assert seen == m.Values by {
      forall d | d in m.Values ensures d in seen {
        var i := KeyOf(m, d);
      }
    }
    count := |seen|;
  }

  method MaxIndexesPerFailureDomain(base: Mapping) returns (max: nat)
    requires base != map[]
    ensures max == MaxPerDomain(base)
  {
    var unique := CountUniqueFailureDomain(base);
    SomeValue(base);
    max := (|base| + unique - 1) / unique;
  }

  // -------------------------------------------------------- the algorithm

  ghost function Rest(a: seq<int>, n: nat): set<int>
    requires n <= |a|
  {
    set i | i in a[n..]
  }

  lemma RestStep(a: seq<int>, n: nat)
    requires IsAscending(a) && n < |a|
    ensures Rest(a, n) != {} && Least(Rest(a, n)) == a[n] && Rest(a, n) - {a[n]} == Rest(a, n + 1)
  {
    var tail := a[n + 1..];
    assert a[n..] == [a[n]] + tail;
    assert a[n] in Rest(a, n);
    assert forall x :: x in tail ==> x > a[n];
    assert Rest(a, n) == {a[n]} + Rest(a, n + 1);
  }

  lemma RestWhole(s: set<int>)
    ensures Rest(Ascending(s), 0) == s
    ensures Rest(Ascending(s), |Ascending(s)|) == {}
  {
    assert Ascending(s)[0..] == Ascending(s);
  }

  lemma MoveIndexesStep(m: Mapping, from: set<int>, to: set<int>)
    requires from <= m.Keys && to !! m.Keys && from != {} && to != {}
    ensures var x, y := Least(from), Least(to);
            var next := m[y := m[x]] - {x};
            from - {x} <= next.Keys && to - {y} !! next.Keys &&
            MoveIndexes(next, from - {x}, to - {y}) == MoveIndexes(m, from, to)
  {
    MoveOneIndex(m, Least(from), Least(to));
  }

  ghost predicate MovingTo(m: Mapping, rest: set<int>, free: set<int>, goal: Mapping) {
    rest <= m.Keys && free !! m.Keys && MoveIndexes(m, rest, free) == goal
  }

  lemma MovingStarts(base: Mapping, machines: Mapping)
    ensures MovingTo(base, Rest(Ascending(base.Keys - machines.Keys), 0), Rest(Ascending(machines.Keys - base.Keys), 0),
                     Candidates(base, machines))
  {
    RestWhole(base.Keys - machines.Keys);
    RestWhole(machines.Keys - base.Keys);
  }

  lemma MatchAllStep(machines: Mapping, cands: Mapping, todo: set<int>, deleting: set<int>)
    requires todo <= machines.Keys && todo <= cands.Keys && todo != {}
    ensures var i := Least(todo);
            var next := NextCandidates(machines, cands, i, deleting);
            todo - {i} <= next.Keys &&
            MatchAll(machines, next, todo - {i}, deleting) == MatchAll(machines, cands, todo, deleting)
  {
    MatchNextKeys(machines, cands, Least(todo), deleting);
  }

  lemma HandleAllStep(p: Progress, base: Mapping, max: nat)
    requires p.cands.Keys != {}
    ensures var i := Least(p.cands.Keys);
            var next := HandleOne(p, base, max, i);
            next.cands.Keys == p.cands.Keys - {i} &&
            HandleAll(next, base, max) == HandleAll(p, base, max)
  {
    assert (p.cands - {Least(p.cands.Keys)}).Keys == p.cands.Keys - {Least(p.cands.Keys)};
  }

  ghost predicate NoneBefore(m: Mapping, order: seq<int>, n: nat, d: FailureDomain) {
    forall k :: 0 <= k < n && k < |order| && order[k] in m ==> m[order[k]] != d
  }

  lemma FirstHolder(m: Mapping, order: seq<int>, n: nat, d: FailureDomain)
    requires IsAscending(order) && Lists(order, m.Keys) && n < |order| && order[n] in m && m[order[n]] == d
    requires NoneBefore(m, order, n, d)
    ensures Holders(m, d) != {} && Least(Holders(m, d)) == order[n]
  {
    assert order[n] in Holders(m, d);
    var least := Least(Holders(m, d));
    assert least in m.Keys;
    assert least in order;
  }

  lemma NoHolder(m: Mapping, order: seq<int>, d: FailureDomain)
    requires Lists(order, m.Keys) && NoneBefore(m, order, |order|, d)
    ensures Holders(m, d) == {}
  {
    forall y | y in m.Keys ensures m[y] != d {
      assert y in order;
    }
    assert Holders(m, d) == {};
  }

  /** The first index, in ascending order, that holds d. */
  method FindCandidate(m: Mapping, d: FailureDomain) returns (idx: Option<int>)
    ensures idx == (if Holders(m, d) == {} then None else Some(Least(Holders(m, d))))
  {
    var order := SortedIndexes(m.Keys);
    var n := 0;
    while n < |order| && m[order[n]] != d
      invariant n <= |order| && (n < |order| ==> order[n] in m)
      invariant NoneBefore(m, order, n, d)
    {
      n := n + 1;
      assert n < |order| ==> order[n] in order;
    }
    if n < |order| {
      FirstHolder(m, order, n, d);
      return Some(order[n]);
    }
    NoHolder(m, order, d);
    return None;
  }

  class Reconciler {
    var out: Mapping
    var candidates: Mapping
    var unmatched: set<int>

    /** Starts from the machines' mapping, with the base as candidates. */
    constructor (base: Mapping, machines: Mapping)
      ensures out == machines && candidates == base && unmatched == base.Keys
    {
      out := machines;
      candidates := base;
      unmatched := base.Keys;
    }

    method SwapIndexes(x: int, y: int)
      requires x in candidates && y in candidates
      modifies this`candidates
      ensures candidates == old(candidates[x := candidates[y]][y := candidates[x]])
    {
      var atX, atY := candidates[x], candidates[y];
      candidates := candidates[x := atY];
      candidates := candidates[y := atX];
    }

    method UseCandidate(idx: int)
      modifies this`candidates, this`unmatched
      ensures candidates == old(candidates) - {idx}
      ensures unmatched == old(unmatched) - {idx}
    {
      unmatched := unmatched - {idx};
      candidates := candidates - {idx};
    }

    /** The state of the re-indexing loop: `rest` is still to be moved, onto
        `free`, and moving it leads to `goal`. */
    ghost predicate Moving(rest: set<int>, free: set<int>, goal: Mapping)
      reads this
    {
      MovingTo(candidates, rest, free, goal)
    }

    /** Moves the candidate at the n-th spare index to the n-th new one. */
    method MoveCandidate(spare: seq<int>, lacking: seq<int>, n: nat, ghost goal: Mapping)
      requires IsAscending(spare) && IsAscending(lacking) && n < |spare| && n < |lacking|
      requires Moving(Rest(spare, n), Rest(lacking, n), goal)
      modifies this`candidates
      ensures Moving(Rest(spare, n + 1), Rest(lacking, n + 1), goal)
    {
      RestStep(spare, n);
      RestStep(lacking, n);
      MoveIndexesStep(candidates, Rest(spare, n), Rest(lacking, n));
      candidates := candidates[lacking[n] := candidates[spare[n]]];
      candidates := candidates - {spare[n]};
    }

    /** Moves candidates until the spare or the new indexes run out. */
    method MoveCandidates(spare: seq<int>, lacking: seq<int>, ghost goal: Mapping)
      requires IsAscending(spare) && IsAscending(lacking)
      requires Moving(Rest(spare, 0), Rest(lacking, 0), goal)
      modifies this`candidates
      ensures candidates == goal
    {
      var n := 0;
      while n < |spare| && n < |lacking|
        invariant n <= |spare| && n <= |lacking|
        invariant Moving(Rest(spare, n), Rest(lacking, n), goal)
        decreases |spare| - n
      {
        MoveCandidate(spare, lacking, n, goal);
        n := n + 1;
      }
      assert Rest(spare, n) == {} || Rest(lacking, n) == {};
    }

    /** Moves spare candidates, lowest first, to the machine indexes that have
        no candidate; the unmatched indexes are those of the candidates. */
    method ReconcileIndexes()
      modifies this`candidates, this`unmatched
      ensures candidates == Candidates(old(candidates), out)
      ensures unmatched == candidates.Keys
    {
      var nonPreferred := ExtraIndexes(candidates, out);
      var nonReconciled := ExtraIndexes(out, candidates);
      MovingStarts(candidates, out);
      MoveCandidates(nonPreferred, nonReconciled, Candidates(candidates, out));
      unmatched := candidates.Keys;
    }

    /** Looks for the first candidate with the domain of machine index idy and
        uses it, swapping it into place first. */
    method MatchIndex(idy: int)
      requires idy in out && idy in candidates && unmatched == candidates.Keys
      modifies this`candidates, this`unmatched
      ensures candidates == MatchOne(old(candidates), idy, out[idy])
      ensures unmatched == candidates.Keys
    {
      var found := FindCandidate(candidates, out[idy]);
      if found.Some? {
        if found.value != idy {
          SwapIndexes(found.value, idy);
        }
        UseCandidate(idy);
        assert candidates == old(candidates)[found.value := old(candidates)[idy]] - {idy};
      }
    }

    method MatchMachinesToCandidates(deleting: set<int>)
      requires out.Keys <= candidates.Keys && unmatched == candidates.Keys
      modifies this`candidates, this`unmatched
      ensures candidates == MatchAll(out, old(candidates), out.Keys, deleting)
      ensures unmatched == candidates.Keys
    {
      var order := SortedIndexes(out.Keys);
      ghost var goal := MatchAll(out, candidates, out.Keys, deleting);
      RestWhole(out.Keys);
      for n := 0 to |order|
        invariant unmatched == candidates.Keys
        invariant Rest(order, n) <= candidates.Keys && Rest(order, n) <= out.Keys
        invariant MatchAll(out, candidates, Rest(order, n), deleting) == goal
      {
        RestStep(order, n);
        var idy := order[n];
        ghost var before := candidates;
        MatchAllStep(out, before, Rest(order, n), deleting);
        if idy !in deleting {
          MatchIndex(idy);
        }
        assert candidates == NextCandidates(out, before, idy, deleting);
      }
    }

    method HandleUnmatchedIndex(idx: int, base: Mapping, max: nat)
      requires idx in candidates && unmatched == candidates.Keys
      modifies this
      ensures Progress(out, candidates) == HandleOne(old(Progress(out, candidates)), base, max, idx)
      ensures unmatched == candidates.Keys
    {
      var present := idx in out;
      if !present {
        out := out[idx := candidates[idx]];
        UseCandidate(idx);
        return;
      }
      var known := Contains(base, out[idx]);
      if !known {
        out := out[idx := candidates[idx]];
        UseCandidate(idx);
        return;
      }
      var count := CountForFailureDomain(out, out[idx]);
      if count > max {
        out := out[idx := candidates[idx]];
        UseCandidate(idx);
      } else {
        UseCandidate(idx);
      }
    }

    /** Handles the lowest of the indexes that are still unmatched. */
    method HandleLeast(idx: int, base: Mapping, max: nat)
      requires unmatched == candidates.Keys && candidates.Keys != {} && idx == Least(candidates.Keys)
      modifies this
      ensures candidates.Keys == old(candidates.Keys) - {idx} && unmatched == candidates.Keys
      ensures HandleAll(Progress(out, candidates), base, max) == HandleAll(old(Progress(out, candidates)), base, max)
    {
      HandleAllStep(Progress(out, candidates), base, max);
      HandleUnmatchedIndex(idx, base, max);
    }

    /** Handles every index that is still unmatched, in ascending order. */
    method HandleUnmatched(base: Mapping, max: nat)
      requires unmatched == candidates.Keys
      modifies this
      ensures out == HandleAll(old(Progress(out, candidates)), base, max)
      ensures unmatched == {}
    {
      var order := SortedIndexes(unmatched);
      RestWhole(unmatched);
      var n := 0;
      while n < |order|
        invariant n <= |order|
        invariant unmatched == candidates.Keys
        invariant unmatched == Rest(order, n)
        invariant HandleAll(Progress(out, candidates), base, max) == HandleAll(old(Progress(out, candidates)), base, max)
        decreases |order| - n
      {
        RestStep(order, n);
        HandleLeast(order[n], base, max);
        n := n + 1;
      }
    }
  }

  /** Reconciles a base mapping with the machines' mapping. The program panics
      when the base has fewer indexes than the machines. */
  method ReconcileMappings(base: Mapping, machines: Mapping, deleting: set<int>) returns (r: Mapping)
    requires |machines| <= |base| && base != map[]
    ensures r == Reconcile(base, machines, deleting)
  {
    var state := new Reconciler(base, machines);
    CandidatesKeys(base, machines);
    state.ReconcileIndexes();
    state.MatchMachinesToCandidates(deleting);
    var max := MaxIndexesPerFailureDomain(base);
    state.HandleUnmatched(base, max);
    return state.out;
  }
}
