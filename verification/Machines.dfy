/** Machines as the controller sees them, and the filters its decisions use. */
module Machines {

  datatype MachineInfo = MachineInfo(
    name: string,
    index: int,
    ready: bool,
    needsUpdate: bool,
    deleting: bool,
    created: int,
    errorMessage: string)

  /** The kinds of machine the strategies tell apart. Updated is ready and up
      to date, whether or not it is being deleted; Live is up to date and not
      being deleted, ready or not. */
  datatype Kind = NeedsReplacement | Deleting | Pending | Updated | UpdatedNonDeleted | Ready | NonReady | Live

  predicate Is(m: MachineInfo, kind: Kind) {
    match kind
    case NeedsReplacement => m.needsUpdate || m.deleting
    case Deleting => m.deleting
    case Pending => !m.ready && !m.needsUpdate && !m.deleting
    case Updated => m.ready && !m.needsUpdate
    case UpdatedNonDeleted => m.ready && !m.needsUpdate && !m.deleting
    case Ready => m.ready
    case NonReady => !m.ready
    case Live => !m.needsUpdate && !m.deleting
  }

  /** Every machine is outdated or being deleted. */
  predicate AllLeaving(ms: seq<MachineInfo>) {
    forall m {:trigger m in ms} :: m in ms ==> m.needsUpdate || m.deleting
  }

  /** The machines of a kind, in the order of the list. */
  function Select(ms: seq<MachineInfo>, kind: Kind): (r: seq<MachineInfo>)
    ensures forall m {:trigger m in r} :: m in r <==> m in ms && Is(m, kind)
    ensures |r| <= |ms|
  {
    if ms == [] then []
    else
      var rest := Select(ms[..|ms| - 1], kind);
      var last := ms[|ms| - 1];
      assert ms == ms[..|ms| - 1] + [last];
      if Is(last, kind) then rest + [last] else rest
  }

  /** The first selected machine is of the kind, and listed. */
  lemma SelectHead(ms: seq<MachineInfo>, kind: Kind)
    ensures Select(ms, kind) != [] ==> Select(ms, kind)[0] in ms && Is(Select(ms, kind)[0], kind)
  {
    var r := Select(ms, kind);
    assert r != [] ==> r[0] in r;
  }

  /** Nothing is selected exactly when no machine is of the kind. */
  lemma SelectNone(ms: seq<MachineInfo>, kind: Kind)
    ensures Select(ms, kind) == [] <==> forall m :: m in ms ==> !Is(m, kind)
  {
    SelectHead(ms, kind);
    assert forall m :: m in ms && Is(m, kind) ==> m in Select(ms, kind);
  }

  lemma SelectNext(ms: seq<MachineInfo>, n: nat, kind: Kind)
    requires n < |ms|
    ensures Select(ms[..n + 1], kind) == Select(ms[..n], kind) + (if Is(ms[n], kind) then [ms[n]] else [])
  {
    assert ms[..n + 1][..n] == ms[..n];
  }

  method FilterMachines(ms: seq<MachineInfo>, kind: Kind) returns (r: seq<MachineInfo>)
    ensures r == Select(ms, kind)
  {
    r := [];
    for n := 0 to |ms|
      invariant r == Select(ms[..n], kind)
    {
      SelectNext(ms, n, kind);
      if Is(ms[n], kind) { r := r + [ms[n]]; }
    }
    assert ms[..|ms|] == ms;
  }

  /** The first of the machines created earliest. */
  function Oldest(ms: seq<MachineInfo>): (r: MachineInfo)
    requires ms != []
    ensures r in ms && forall m :: m in ms ==> r.created <= m.created
  {
    var last := ms[|ms| - 1];
    if |ms| == 1 then last
    else
      var before := Oldest(ms[..|ms| - 1]);
      assert ms == ms[..|ms| - 1] + [last];
      if last.created < before.created then last else before
  }
}
