/** The allocation of failure domains to machine indexes, as functions on
    index-to-domain maps: what the in-place algorithm of Reconciler computes. */
module Mapping {
  import opened Counting
  import opened FailureDomains

  type Mapping = map<int, FailureDomain>

  function CeilDiv(a: nat, b: nat): nat
    requires b > 0
  {
    (a + b - 1) / b
  }

  /** The most indexes one failure domain may hold in a balanced mapping. */
  function MaxPerDomain(base: Mapping): nat
    requires base != map[]
  {
    SomeValue(base);
    CeilDiv(|base|, |base.Values|)
  }

  // ------------------------------------------------------------ re-indexing

  /** Moves the entries at the lowest indexes of `from` onto the lowest
      indexes of `to`, one by one, until either runs out. */
  ghost function MoveIndexes(m: Mapping, from: set<int>, to: set<int>): Mapping
    requires from <= m.Keys && to !! m.Keys
    decreases from
  {
    if from == {} || to == {} then m
    else
      var x, y := Least(from), Least(to);
      MoveIndexes(m[y := m[x]] - {x}, from - {x}, to - {y})
  }

  /** The candidates: the base mapping with its lowest unused indexes moved to
      the machine indexes it lacks. */
  ghost function Candidates(base: Mapping, machines: Mapping): Mapping {
    MoveIndexes(base, base.Keys - machines.Keys, machines.Keys - base.Keys)
  }

  // --------------------------------------------------------------- matching

  /** Matches index i to the first candidate with domain d, if there is one:
      that candidate changes places with the one at i and is consumed. */
  ghost function MatchOne(cands: Mapping, i: int, d: FailureDomain): Mapping
    requires i in cands
  {
    var same := Holders(cands, d);
    if same == {} then cands
    else cands[Least(same) := cands[i]] - {i}
  }

  /** The candidates after index i has been looked at: nothing changes if it
      holds deleting machines only. */
  ghost function NextCandidates(machines: Mapping, cands: Mapping, i: int, deleting: set<int>): Mapping
    requires i in machines && i in cands
  {
    if i in deleting then cands else MatchOne(cands, i, machines[i])
  }

  lemma MatchNextKeys(machines: Mapping, cands: Mapping, i: int, deleting: set<int>)
    requires i in machines && i in cands
    ensures var next := NextCandidates(machines, cands, i, deleting);
            next == cands || next.Keys == cands.Keys - {i}
  {
    var same := Holders(cands, machines[i]);
    if same != {} {
      assert (cands[Least(same) := cands[i]] - {i}).Keys == cands.Keys - {i};
    }
  }

  /** Matches the machine indexes of `todo` in ascending order, passing over
      those that hold deleting machines only. */
  ghost function MatchAll(machines: Mapping, cands: Mapping, todo: set<int>, deleting: set<int>): Mapping
    requires todo <= machines.Keys && todo <= cands.Keys
    decreases todo
  {
    if todo == {} then cands
    else
      var i := Least(todo);
      MatchNextKeys(machines, cands, i, deleting);
      MatchAll(machines, NextCandidates(machines, cands, i, deleting), todo - {i}, deleting)
  }

  // --------------------------------------------------------- unmatched ones

  datatype Progress = Progress(out: Mapping, cands: Mapping)

  /** Whether an unmatched index gives up what it holds: it holds nothing, or
      a domain the base does not know, or an over-represented one. */
  ghost predicate Yields(out: Mapping, base: Mapping, max: nat, i: int) {
    i !in out || out[i] !in base.Values || Count(out, out[i]) > max
  }

  /** The candidate at i is consumed, and used if the index yields. */
  ghost function HandleOne(p: Progress, base: Mapping, max: nat, i: int): Progress
    requires i in p.cands
  {
    Progress(if Yields(p.out, base, max, i) then p.out[i := p.cands[i]] else p.out, p.cands - {i})
  }

  /** Handles the indexes with a candidate left, in ascending order. */
  ghost function HandleAll(p: Progress, base: Mapping, max: nat): Mapping
    decreases p.cands.Keys
  {
    if p.cands.Keys == {} then p.out
    else
      var i := Least(p.cands.Keys);
      assert (p.cands - {i}).Keys == p.cands.Keys - {i};
      HandleAll(HandleOne(p, base, max, i), base, max)
  }

  // -------------------------------------------------------------- reconcile

  /** What is left of the candidates once machines have been matched. */
  ghost function Unmatched(base: Mapping, machines: Mapping, deleting: set<int>): Mapping
    requires |machines| <= |base|
  {
    CandidatesKeys(base, machines);
    MatchAll(machines, Candidates(base, machines), machines.Keys, deleting)
  }

  /** The mapping computed from a base mapping and the machines' mapping. */
  ghost function Reconcile(base: Mapping, machines: Mapping, deleting: set<int>): Mapping
    requires |machines| <= |base| && base != map[]
  {
    HandleAll(Progress(machines, Unmatched(base, machines, deleting)), base, MaxPerDomain(base))
  }

  // ------------------------------------------------- properties: re-indexing

  function Min(a: nat, b: nat): nat { if a < b then a else b }

  function Max(a: nat, b: nat): nat { if a < b then b else a }

  /** The t least elements of a set. */
  ghost function Lowest(s: set<int>, t: nat): (r: set<int>)
    ensures r <= s && |r| == Min(t, |s|)
  {
    if t == 0 || s == {} then {}
    else
      var x := Least(s);
      var rest := Lowest(s - {x}, t - 1);
      assert |s - {x}| == |s| - 1;
      {x} + rest
  }

  lemma {:induction false} LowestBelow(s: set<int>, t: nat, x: int, y: int)
    requires x in Lowest(s, t) && y in s && y !in Lowest(s, t)
    ensures x < y
  {
    var z := Least(s);
    if x == z {
      assert z <= y && z != y;
    } else {
      LowestBelow(s - {z}, t - 1, x, y);
    }
  }

  /** The mapping after one entry has moved. */
  lemma MoveOneIndex(m: Mapping, x: int, y: int)
    requires x in m && y !in m
    ensures var next := m[y := m[x]] - {x};
            next.Keys == m.Keys - {x} + {y} && |next| == |m|
    ensures forall d :: Count(m[y := m[x]] - {x}, d) == Count(m, d)
  {
    var moved := m[y := m[x]];
    assert (moved - {x}).Keys == m.Keys - {x} + {y};
    assert |(moved - {x}).Keys| == |m.Keys|;
    forall d ensures Count(moved - {x}, d) == Count(m, d) {
      CountUpdate(m, y, m[x], d);
      CountRemove(moved, x, d);
    }
  }

  lemma MoveStep(keys: set<int>, x: int, y: int, from: set<int>, to: set<int>)
    requires y !in from
    ensures (keys - {x} + {y}) - from + to == keys - ({x} + from) + ({y} + to)
  {}

  /** Re-indexing takes the lowest spare indexes and fills the lowest new ones. */
  lemma {:induction false} MoveIndexesKeys(m: Mapping, from: set<int>, to: set<int>)
    requires from <= m.Keys && to !! m.Keys
    ensures MoveIndexes(m, from, to).Keys == m.Keys - Lowest(from, |to|) + Lowest(to, |from|)
    decreases from
  {
    if from != {} && to != {} {
      var x, y := Least(from), Least(to);
      MoveOneIndex(m, x, y);
      assert |from - {x}| == |from| - 1 && |to - {y}| == |to| - 1;
      MoveIndexesKeys(m[y := m[x]] - {x}, from - {x}, to - {y});
      MoveStep(m.Keys, x, y, Lowest(from - {x}, |to| - 1), Lowest(to - {y}, |from| - 1));
    }
  }

  /** Re-indexing neither gains nor loses a domain. */
  lemma {:induction false} MoveIndexesCounts(m: Mapping, from: set<int>, to: set<int>)
    requires from <= m.Keys && to !! m.Keys
    ensures |MoveIndexes(m, from, to)| == |m|
    ensures forall d :: Count(MoveIndexes(m, from, to), d) == Count(m, d)
    decreases from
  {
    if from != {} && to != {} {
      var x, y := Least(from), Least(to);
      MoveOneIndex(m, x, y);
      MoveIndexesCounts(m[y := m[x]] - {x}, from - {x}, to - {y});
    }
  }

  lemma SpareIndexes(a: set<int>, b: set<int>)
    requires |b| <= |a|
    ensures |b - a| <= |a - b|
  {
    assert a == (a - b) + a * b;
    assert b == (b - a) + a * b;
  }

  lemma LowestAll(s: set<int>, t: nat)
    requires |s| <= t
    ensures Lowest(s, t) == s
  {
    SubsetSize(Lowest(s, t), s);
  }

  /** The candidates are re-indexed so that they cover the machine indexes:
      the lowest spare base indexes go first, and no domain is gained or lost. */
  lemma CandidatesKeys(base: Mapping, machines: Mapping)
    requires |machines| <= |base|
    ensures var spare := base.Keys - machines.Keys;
            Candidates(base, machines).Keys
              == machines.Keys + (spare - Lowest(spare, |machines.Keys - base.Keys|))
    ensures machines.Keys <= Candidates(base, machines).Keys
    ensures |Candidates(base, machines)| == |base|
    ensures forall d :: Count(Candidates(base, machines), d) == Count(base, d)
  {
    var spare, lacking := base.Keys - machines.Keys, machines.Keys - base.Keys;
    SpareIndexes(base.Keys, machines.Keys);
    MoveIndexesKeys(base, spare, lacking);
    MoveIndexesCounts(base, spare, lacking);
    LowestAll(lacking, |spare|);
    assert base.Keys - Lowest(spare, |lacking|) + lacking
        == machines.Keys + (spare - Lowest(spare, |lacking|));
  }
}
