/** One pass of the update strategies over the machine indexes, and its effect
    on the machines held by the API. */
module Updates {
  import opened Counting
  import opened Machines
  import opened FailureDomains

  /** Machines by index. A cached view and the API's own state have this form;
      in a view every machine is listed under its own index. */
  type Cluster = map<int, seq<MachineInfo>>

  ghost predicate WellGrouped(view: Cluster) {
    forall i, m {:trigger m in view[i]} :: i in view && m in view[i] ==> m.index == i
  }

  function At(c: Cluster, i: int): seq<MachineInfo> {
    if i in c then c[i] else []
  }

  ghost function Lengths(c: Cluster): int -> nat {
    i => |At(c, i)|
  }

  /** The number of machines. */
  ghost function Total(c: Cluster): nat {
    Sum(c.Keys, Lengths(c))
  }

  const MAX_SURGE: int := 1

  // ------------------------------------------------------ the API's machines

  /** What goes wrong in the API during a pass, and the names it hands out:
      deletions that fail, by machine name; uncached listings and creations
      that fail, by index; and the name generated for a machine of an index. */
  datatype Environment = Environment(
    failingDeletes: set<string>,
    failingLists: set<int>,
    failingCreates: set<int>,
    newName: int -> string,
    now: int)

  predicate NameTaken(ms: seq<MachineInfo>, name: string) {
    exists k :: 0 <= k < |ms| && ms[k].name == name
  }

  /** Deleting marks a machine; it goes once its finalizers are done. */
  function MarkDeleting(ms: seq<MachineInfo>, name: string): (r: seq<MachineInfo>)
    ensures |r| == |ms|
  {
    seq(|ms|, k requires 0 <= k < |ms| => if ms[k].name == name then ms[k].(deleting := true) else ms[k])
  }

  function NewMachine(env: Environment, i: int): MachineInfo {
    MachineInfo(env.newName(i), i, false, false, false, env.now, "")
  }

  /** Whether an up-to-date machine of index i that is not deleting is listed. */
  predicate HoldsReplacement(ms: seq<MachineInfo>, i: int) {
    exists k :: 0 <= k < |ms| && ms[k].index == i && Is(ms[k], Live)
  }

  /** Whether the API holds one at i. */
  predicate HasReplacement(api: Cluster, i: int) {
    HoldsReplacement(At(api, i), i)
  }

  // -------------------------------------------------------------- decisions

  /** The machine a rolling pass wants deleted from an index. Later reasons
      override earlier ones: an outdated machine with an updated one beside
      it, an outdated machine that is not ready, the oldest of several updated
      machines. */
  function DeletionTarget(machines: seq<MachineInfo>): Option<MachineInfo> {
    var outdated := Select(machines, NeedsReplacement);
    var updated := Select(machines, Updated);
    var outdatedNonReady := Select(outdated, NonReady);
    if |machines| < 2 then None
    else if |updated| > 1 then Some(Oldest(updated))
    else if outdatedNonReady != [] then Some(outdatedNonReady[0])
    else if outdated != [] && updated != [] then Some(outdated[0])
    else None
  }

  /** Whether a rolling pass wants a machine created at an index: there is
      none, or one needs replacement and no replacement is there or pending. */
  predicate WantsMachine(machines: seq<MachineInfo>) {
    machines == [] ||
    (Select(machines, NeedsReplacement) != [] && Select(machines, UpdatedNonDeleted) == [] && Select(machines, Pending) == [])
  }

  /** The index the new machine is for. */
  function CreationIndex(machines: seq<MachineInfo>, idx: int): int
    requires WantsMachine(machines)
  {
    if machines == [] then idx else Select(machines, NeedsReplacement)[0].index
  }

  /** Whether the strategies wait for a machine of the index to become ready,
      and so ask to be run again soon. */
  predicate Waits(machines: seq<MachineInfo>) {
    Select(machines, Pending) != [] &&
    ((Select(machines, Ready) == [] && Select(machines, Deleting) == []) || Select(machines, NeedsReplacement) != [])
  }

  // ------------------------------------------------------------------- pass

  /** A pass in progress: the API's machines, the surge count, the deletions
      requested and machines created so far, whether to requeue, and whether
      an API call has failed, which ends the pass. */
  datatype Pass = Pass(
    api: Cluster,
    surge: int,
    requests: seq<MachineInfo>,
    created: seq<int>,
    requeue: bool,
    failed: bool)

  function Delete(p: Pass, machines: seq<MachineInfo>, env: Environment): Pass {
    var target := DeletionTarget(machines);
    if target.None? || target.value.deleting then p
    else
      var m := target.value;
      var p' := p.(requests := p.requests + [m]);
      if m.name in env.failingDeletes then p'.(failed := true)
      else if m.index in p.api then p'.(api := p.api[m.index := MarkDeleting(p.api[m.index], m.name)])
      else p'
  }

  /** Checks with the API, then creates: in that order, and only if the API
      holds no replacement. The surge counts machines really created. */
  function CheckAndCreate(p: Pass, i: int, env: Environment): Pass {
    if i in env.failingLists then p.(failed := true)
    else if HasReplacement(p.api, i) then p
    else if i in env.failingCreates || NameTaken(At(p.api, i), env.newName(i)) then p.(failed := true)
    else p.(api := p.api[i := At(p.api, i) + [NewMachine(env, i)]], surge := p.surge + 1, created := p.created + [i])
  }

  function Create(p: Pass, idx: int, machines: seq<MachineInfo>, env: Environment): Pass {
    if !WantsMachine(machines) || p.surge >= MAX_SURGE then p
    else CheckAndCreate(p, CreationIndex(machines, idx), env)
  }

  /** What the rolling strategy does at one index. */
  function RollIndex(p: Pass, idx: int, machines: seq<MachineInfo>, env: Environment): Pass {
    if p.failed then p
    else
      var deleted := Delete(p, machines, env);
      if deleted.failed then deleted
      else Create(deleted.(requeue := deleted.requeue || Waits(machines)), idx, machines, env)
  }

  /** The rolling strategy over the indexes of todo, in ascending order. */
  ghost function RollAll(p: Pass, view: Cluster, todo: set<int>, env: Environment): Pass
    requires todo <= view.Keys
    decreases todo
  {
    if todo == {} then p
    else
      var i := Least(todo);
      RollAll(RollIndex(p, i, view[i], env), view, todo - {i}, env)
  }

  /** A rolling pass over a view. The existing surge is computed from it. */
  ghost function RollingPass(view: Cluster, api: Cluster, replicas: nat, env: Environment): Pass {
    RollAll(Pass(api, Total(view) - replicas, [], [], false, false), view, view.Keys, env)
  }

  // -------------------------------------------------------------- on delete

  /** Whether the on-delete strategy creates a machine at an index: there is
      none, or a single one that is being deleted. */
  predicate OnDeleteWants(machines: seq<MachineInfo>) {
    machines == [] || (|machines| == 1 && machines[0].deleting)
  }

  /** What the on-delete strategy does at one index; it passes over indexes
      where nothing is outdated and nothing pending. */
  function OnDeleteIndex(p: Pass, idx: int, machines: seq<MachineInfo>, env: Environment): Pass {
    if p.failed then p
    else if Select(machines, NeedsReplacement) == [] && machines != [] && Select(machines, Pending) == [] then p
    else
      var p' := p.(requeue := p.requeue || Waits(machines));
      if OnDeleteWants(machines) then CheckAndCreate(p', idx, env).(surge := p.surge) else p'
  }

  ghost function OnDeleteAll(p: Pass, view: Cluster, todo: set<int>, env: Environment): Pass
    requires todo <= view.Keys
    decreases todo
  {
    if todo == {} then p
    else
      var i := Least(todo);
      OnDeleteAll(OnDeleteIndex(p, i, view[i], env), view, todo - {i}, env)
  }
}
