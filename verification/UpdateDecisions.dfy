/** What the strategies decide about an index, told of its machines: when one is
    wanted, which one is deleted, and when to look again soon. */
module UpdateDecisions {
  import opened FailureDomains
  import opened Machines
  import opened Updates

  // -------------------------------------------------- lists and their filters

  /** The machine is in the list and satisfies f, and none before it does. */
  ghost predicate IsFirst(ms: seq<MachineInfo>, m: MachineInfo, f: MachineInfo -> bool) {
    exists k :: 0 <= k < |ms| && ms[k] == m && f(m) && forall j :: 0 <= j < k ==> !f(ms[j])
  }

  ghost predicate Some2(ms: seq<MachineInfo>, f: MachineInfo -> bool) {
    exists j, k :: 0 <= j < k < |ms| && f(ms[j]) && f(ms[k])
  }

  ghost function Of(kind: Kind): MachineInfo -> bool {
    m => Is(m, kind)
  }

  ghost function Both(a: Kind, b: Kind): MachineInfo -> bool {
    m => Is(m, a) && Is(m, b)
  }

  /** Filtering distributes over concatenation, so it keeps the order. */
  lemma {:induction false} SelectConcat(a: seq<MachineInfo>, b: seq<MachineInfo>, kind: Kind)
    ensures Select(a + b, kind) == Select(a, kind) + Select(b, kind)
  {
    if b == [] {
      assert a + b == a;
    } else {
      var init, last := b[..|b| - 1], b[|b| - 1];
      assert (a + b)[..|a + b| - 1] == a + init;
      SelectConcat(a, init, kind);
    }
  }

  lemma {:induction false} SelectTwice(ms: seq<MachineInfo>, a: Kind, b: Kind)
    ensures Select(Select(ms, a), b) != [] ==> IsFirst(ms, Select(Select(ms, a), b)[0], Both(a, b))
    ensures Select(Select(ms, a), b) == [] <==> forall m :: m in ms ==> !Both(a, b)(m)
  {
    var both := Select(Select(ms, a), b);
    if ms != [] {
      var init, last := ms[..|ms| - 1], ms[|ms| - 1];
      assert ms == init + [last];
      SelectTwice(init, a, b);
      SelectTwiceStep(init, last, a, b);
      if Select(Select(init, a), b) != [] {
        FirstStays(init, last, both[0], Both(a, b));
      } else if both != [] {
        FirstIsLast(init, last, Both(a, b));
      }
    }
  }

  lemma FirstIsLast(init: seq<MachineInfo>, last: MachineInfo, f: MachineInfo -> bool)
    requires f(last) && forall m :: m in init ==> !f(m)
    ensures IsFirst(init + [last], last, f)
  {
    assert forall j :: 0 <= j < |init| ==> (init + [last])[j] == init[j] && init[j] in init;
    assert (init + [last])[|init|] == last;
  }

  lemma SelectTwiceStep(init: seq<MachineInfo>, last: MachineInfo, a: Kind, b: Kind)
    ensures Select(Select(init + [last], a), b)
         == Select(Select(init, a), b) + (if Both(a, b)(last) then [last] else [])
  {
    SelectLast(init, last, a);
    if Is(last, a) { SelectLast(Select(init, a), last, b); }
  }

  lemma SelectLast(init: seq<MachineInfo>, last: MachineInfo, kind: Kind)
    ensures Select(init + [last], kind) == Select(init, kind) + (if Is(last, kind) then [last] else [])
  {
    assert (init + [last])[..|init|] == init;
  }

  lemma FirstStays(init: seq<MachineInfo>, last: MachineInfo, m: MachineInfo, f: MachineInfo -> bool)
    requires IsFirst(init, m, f)
    ensures IsFirst(init + [last], m, f)
  {
    var ms := init + [last];
    var k :| 0 <= k < |init| && init[k] == m && f(m) && forall j :: 0 <= j < k ==> !f(init[j]);
    assert ms[k] == m && forall j :: 0 <= j < k ==> ms[j] == init[j];
  }

  lemma {:induction false} SelectFirst(ms: seq<MachineInfo>, kind: Kind)
    ensures Select(ms, kind) != [] ==> IsFirst(ms, Select(ms, kind)[0], Of(kind))
  {
    if ms != [] {
      var init, last := ms[..|ms| - 1], ms[|ms| - 1];
      assert ms == init + [last];
      SelectFirst(init, kind);
      SelectLast(init, last, kind);
      if Select(init, kind) != [] {
        FirstStays(init, last, Select(ms, kind)[0], Of(kind));
      } else if Is(last, kind) {
        SelectNone(init, kind);
        assert forall j :: 0 <= j < |init| ==> init[j] in init;
        assert ms[|init|] == last;
      }
    }
  }

  lemma {:induction false} SelectSome2(ms: seq<MachineInfo>, kind: Kind)
    ensures |Select(ms, kind)| > 1 <==> Some2(ms, Of(kind))
  {
    if ms != [] {
      var init, last := ms[..|ms| - 1], ms[|ms| - 1];
      assert ms == init + [last];
      SelectSome2(init, kind);
      SelectLast(init, last, kind);
      SelectNone(init, kind);
      Some2Step(init, last, Of(kind));
    }
  }

  lemma Some2Step(init: seq<MachineInfo>, last: MachineInfo, f: MachineInfo -> bool)
    ensures Some2(init + [last], f) <==> Some2(init, f) || (f(last) && exists m :: m in init && f(m))
  {
    var ms := init + [last];
    assert forall j :: 0 <= j < |init| ==> ms[j] == init[j] && init[j] in init;
    if Some2(init, f) {
      var j, k :| 0 <= j < k < |init| && f(init[j]) && f(init[k]);
      assert f(ms[j]) && f(ms[k]);
    }
    if f(last) && exists m :: m in init && f(m) {
      var m :| m in init && f(m);
      var j :| 0 <= j < |init| && init[j] == m;
      assert f(ms[j]) && f(ms[|init|]);
    }
  }

  // -------------------------------------------------------- what is decided

  /** A rolling pass wants a machine at an index exactly when every machine there
      is outdated or being deleted, as when there is none. */
  lemma WantedIffAllLeaving(ms: seq<MachineInfo>)
    ensures WantsMachine(ms) <==> AllLeaving(ms)
  {
    SelectNone(ms, NeedsReplacement);
    SelectNone(ms, UpdatedNonDeleted);
    SelectNone(ms, Pending);
    if ms != [] { assert ms[0] in ms; }
  }

  /** Some up-to-date machine is on its way, and either one has to go or none
      serves and none is going. */
  ghost predicate OnItsWay(ms: seq<MachineInfo>) {
    && (exists m :: m in ms && !m.ready && !m.needsUpdate && !m.deleting)
    && ((exists m :: m in ms && (m.needsUpdate || m.deleting)) || forall m :: m in ms ==> !m.ready && !m.deleting)
  }

  /** Exactly then the strategies look again soon. */
  lemma WaitsIffOnItsWay(ms: seq<MachineInfo>)
    ensures Waits(ms) <==> OnItsWay(ms)
  {
    SelectNone(ms, Pending);
    SelectNone(ms, Ready);
    SelectNone(ms, Deleting);
    SelectNone(ms, NeedsReplacement);
  }

  ghost predicate Outdated(m: MachineInfo) { m.needsUpdate || m.deleting }

  ghost predicate Unready(m: MachineInfo) { Outdated(m) && !m.ready }

  ghost predicate Arriving(m: MachineInfo) { !m.ready && !m.needsUpdate && !m.deleting }

  ghost predicate UpToDate(m: MachineInfo) { m.ready && !m.needsUpdate }

  /** The machine a rolling pass deletes at an index: none of a single one; of
      several updated ones the oldest; else the first outdated one that is not
      ready; else, beside an updated one, the first outdated one; else none. */
  ghost predicate IsTarget(ms: seq<MachineInfo>, target: Option<MachineInfo>) {
    if |ms| < 2 then target == None
    else if Some2(ms, UpToDate) then
      target.Some? && target.value in ms && UpToDate(target.value) &&
      forall u :: u in ms && UpToDate(u) ==> target.value.created <= u.created
    else if exists m :: m in ms && Unready(m) then
      target.Some? && IsFirst(ms, target.value, Unready)
    else if (exists m :: m in ms && Outdated(m)) && (exists u :: u in ms && UpToDate(u)) then
      target.Some? && IsFirst(ms, target.value, Outdated)
    else target == None
  }

  lemma FirstSame(ms: seq<MachineInfo>, m: MachineInfo, f: MachineInfo -> bool, g: MachineInfo -> bool)
    requires IsFirst(ms, m, f) && forall x :: x in ms ==> f(x) == g(x)
    ensures IsFirst(ms, m, g)
  {
    assert forall k :: 0 <= k < |ms| ==> ms[k] in ms;
    var k :| 0 <= k < |ms| && ms[k] == m && f(m) && forall j :: 0 <= j < k ==> !f(ms[j]);
    assert ms[k] == m && g(m) && forall j :: 0 <= j < k ==> !g(ms[j]);
  }

  lemma SeveralUpdated(ms: seq<MachineInfo>)
    ensures |Select(ms, Updated)| > 1 <==> Some2(ms, UpToDate)
  {
    SelectSome2(ms, Updated);
    if Some2(ms, Of(Updated)) {
      var j, k :| 0 <= j < k < |ms| && Of(Updated)(ms[j]) && Of(Updated)(ms[k]);
      assert UpToDate(ms[j]) && UpToDate(ms[k]);
    }
    if Some2(ms, UpToDate) {
      var j, k :| 0 <= j < k < |ms| && UpToDate(ms[j]) && UpToDate(ms[k]);
      assert Of(Updated)(ms[j]) && Of(Updated)(ms[k]);
    }
  }

  /** The target, of several updated machines. */
  lemma OldestIsTarget(ms: seq<MachineInfo>)
    requires |ms| >= 2 && |Select(ms, Updated)| > 1
    ensures IsTarget(ms, DeletionTarget(ms))
  {
    SeveralUpdated(ms);
    var updated := Select(ms, Updated);
    var target := Oldest(updated);
    assert target in updated;
    forall u | u in ms && UpToDate(u) ensures target.created <= u.created {
      assert u in updated;
    }
  }

  lemma UnreadyIsTarget(ms: seq<MachineInfo>)
    requires |ms| >= 2 && |Select(ms, Updated)| <= 1 && Select(Select(ms, NeedsReplacement), NonReady) != []
    ensures IsTarget(ms, DeletionTarget(ms))
  {
    SeveralUpdated(ms);
    SelectTwice(ms, NeedsReplacement, NonReady);
    var target := Select(Select(ms, NeedsReplacement), NonReady)[0];
    assert DeletionTarget(ms) == Some(target);
    FirstSame(ms, target, Both(NeedsReplacement, NonReady), Unready);
    assert target in ms && Unready(target);
  }

  lemma OutdatedIsTarget(ms: seq<MachineInfo>)
    requires |ms| >= 2 && |Select(ms, Updated)| <= 1 && Select(Select(ms, NeedsReplacement), NonReady) == []
    ensures IsTarget(ms, DeletionTarget(ms))
  {
    var outdated := Select(ms, NeedsReplacement);
    SeveralUpdated(ms);
    NoneUnready(ms);
    SelectFirst(ms, NeedsReplacement);
    SelectNone(ms, NeedsReplacement);
    SelectNone(ms, Updated);
    if outdated != [] {
      FirstSame(ms, outdated[0], Of(NeedsReplacement), Outdated);
    }
  }

  lemma NoneUnready(ms: seq<MachineInfo>)
    requires Select(Select(ms, NeedsReplacement), NonReady) == []
    ensures forall m {:trigger m in ms} :: m in ms ==> !Unready(m)
  {
    SelectTwice(ms, NeedsReplacement, NonReady);
    forall m | m in ms ensures !Unready(m) { assert !Both(NeedsReplacement, NonReady)(m); }
  }

  /** The choice of the machine to delete, for any machines of an index. */
  lemma TargetExact(ms: seq<MachineInfo>)
    ensures IsTarget(ms, DeletionTarget(ms))
  {
    if |ms| >= 2 {
      if |Select(ms, Updated)| > 1 {
        OldestIsTarget(ms);
      } else if Select(Select(ms, NeedsReplacement), NonReady) != [] {
        UnreadyIsTarget(ms);
      } else {
        OutdatedIsTarget(ms);
      }
    }
  }
}
