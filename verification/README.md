# Control plane machine set operator: a verified model

The operator keeps the control plane machines of a cluster in line with a
`ControlPlaneMachineSet`. This project models the three parts of it that decide
something, as Dafny classes, methods and functions with proofs:

1. **The failure-domain allocation.** From the machines, the desired replicas
   and the configured failure domains the operator computes which index belongs
   in which failure domain. It deals the domains in turn to the indexes and then
   reconciles that with where machines already are, by re-keying, swapping and
   consuming entries of mutable maps. `Mapping` states the computation as
   functions, `MappingReconciler` and `MappingEntry` run it in place and are
   proved to compute those functions, and `MappingTheorems`, `MappingPlaces`,
   `MappingRuns` and `MappingProgress` prove what the result guarantees:
   conservation, balance, where each domain comes to lie, minimal movement,
   stability, and rebalancing that never goes back and forth.
2. **The update strategies.** `UpdateStrategies` holds the loops of the rolling
   and the on-delete strategy with their API calls, failures included, and
   proves that they compute the passes of `Updates`. `UpdateDecisions` says what
   they decide at an index; `DeletionSafety`, `PassSemantics`, `PassEffects`,
   `OnDeletePass` and `StaleCache` say what one pass, or any history of actions
   on stale views, can do; `Rollout`, `RolloutRuns` and `RolloutProgress` prove
   whole rollouts safe and convergent.
3. **Agreement between the parts.** Status counters and conditions (`Status`),
   index grouping against the allocation (`Indexes`), machine names (`Names`),
   error history (`ErrorHistory`), failure domains through AWS and Azure
   provider specs (`FailureDomains`, `ProviderConfigs`), and generated Azure sets
   against the webhook (`AzureGenerator`, `Webhook`).

`Counting` has finite sums, least elements and ascending lists; `Machines` has
the machine filters.

How the model reads the program:

- A failure domain is a datatype whose equality is the program's `Equal`; the
  platform type is the constructor.
- The float ceiling of a quotient is the integer one. Indexes are unbounded
  integers, except that parsing a name checks the 32-bit range.
- Iterating over a map in no particular order is taking an arbitrary element.
  The two sorts of the base mapping are not stable, so the theorems hold for
  every order of the domains that lists those in use before the others.
- The cached view and the machines held by the API are separate. A view is
  *fresh* if it lists the same machines; otherwise it is arbitrary. API failures,
  generated names and the clock are parameters of a pass.
- Checking for a replacement and creating one happen together, without another
  creation in between.
- Whether a machine is ready, whether it needs an update, its error message, and
  whether all control plane nodes belong to machines are given as they are.

What the proofs found:

- An index whose machines are all being deleted can unbalance the allocation,
  even without need (`MappingTheorems.DeletingIndexUnbalances`). Balance of a
  domain is proved whenever such indexes of that domain are harmless: its other
  machines already fill its share. Having no such index is the simplest case,
  and deleting the machine at an index that has to move anyway is another
  (`MappingProgress.UnsettledIsHarmless`).
- Duplicates are removed from the configured domains before they are completed
  from the template, not after; domains that complete to the same value are
  dealt more than once (`MappingEntry.AzureCompletionsMerge`). Whether that costs
  balance depends on the number of indexes: `MappingBase.BaseBalancedIff` gives
  the exact condition for every list of completed domains.
- The comment in the mapping that the newest machine of an index is the one kept
  for it holds if and only if no machine in its domain is listed after it
  (`MappingProvider.NewestIsReference`). `MappingProvider.OlderOfThree` is a
  listing in which an older machine then decides the domain.
- A ready machine may be deleted in favour of an updated one that is itself
  being deleted, because the filter for updated machines does not look at
  deletion timestamps. `DeletionSafety.ReplacementStays` says exactly when.
- On a stale view the number of machines may pass the surge limit: a creation
  that the check against the API refuses does not count
  (`PassSemantics.StaleViewExceedsSurge`). A view that lists at least as many
  machines as there are keeps the limit, whatever fails
  (`PassSemantics.SurgeBound`); for any view, when nothing fails,
  `PassSemantics.SurgeBoundIff` says exactly when it is kept.
- Grouping fills up with the lowest free indexes, the allocation keeps the
  highest; `Indexes.IndexAgreement` says exactly when they agree. Where they do
  not, the controller works on an index without a failure domain, and creating
  a machine there fails (`Indexes.EveryIndexCreatable`,
  `ProviderConfigs.ProviderConfigForIndex`).
- The name made for a negative index reads back as a positive one.
- The check for a ready control plane machine passes when none is ready but some
  index has no machine at all (`Status.NoneReady`); the set is degraded in that
  case only because the status computed just before says so.
- The error condition becomes true at the fifteenth error in a row; its message
  says more than fifteen.
- The comparison of an AWS subnet pointer with an empty reference value is always
  unequal, so only the nil check decides whether a subnet is set.

## Model

| member | source | states |
|---|---|---|
| MappingReconciler.ReconcileMappings | pkg/machineproviders/providers/openshift/machine/v1beta1/mapping.go:240-275 | the in-place algorithm returns the mapping of the specification `Mapping.Reconcile`, about which the theorems below are proved |
| MappingReconciler.Reconciler.ReconcileIndexes | pkg/machineproviders/providers/openshift/machine/v1beta1/mapping.go:372-389 | re-keying in place leaves the candidates as specified and makes the unmatched indexes their keys |
| MappingReconciler.Reconciler.MatchMachinesToCandidates | pkg/machineproviders/providers/openshift/machine/v1beta1/mapping.go:293-315 | matching consumes in place exactly the candidates the specification consumes; unmatched indexes stay the keys of the candidates |
| MappingReconciler.Reconciler.HandleUnmatchedIndex | pkg/machineproviders/providers/openshift/machine/v1beta1/mapping.go:323-364 | an index gets the candidate's domain exactly if it is empty, unknown to the base or over-represented; the candidate, which is always there, is consumed either way |
| MappingReconciler.FindCandidate | pkg/machineproviders/providers/openshift/machine/v1beta1/mapping.go:303-313 | the lowest index holding a domain is found, or none exactly if no index holds it |
| MappingReconciler.MaxIndexesPerFailureDomain | pkg/machineproviders/providers/openshift/machine/v1beta1/mapping.go:446-479 | the maximum is the number of indexes divided by the number of distinct domains, rounded up |
| Mapping.CandidatesKeys | pkg/machineproviders/providers/openshift/machine/v1beta1/mapping.go:372-389 | the candidates cover every machine index; the lowest spare base indexes are given up for them, and no domain gains or loses an index |
| MappingPlaces.MoveIndexesInOrder | pkg/machineproviders/providers/openshift/machine/v1beta1/mapping.go:372-389 | the entry at the n-th lowest spare index goes to the n-th lowest new one |
| MappingTheorems.Conservation | pkg/machineproviders/providers/openshift/machine/v1beta1/mapping.go:293-315 | for any deleting indexes and every domain, the candidates left plus the matched indexes make up the domain's share of the base |
| MappingTheorems.ReconcileCovers | pkg/machineproviders/providers/openshift/machine/v1beta1/mapping.go:240-275 | for any deleting indexes the result has as many indexes as the base, keeps every machine index and uses base domains only |
| MappingTheorems.ExclusiveAfterMatching | pkg/machineproviders/providers/openshift/machine/v1beta1/mapping.go:293-315 | after matching a domain does not have both a candidate left and an unmatched machine index, if and only if its deleting-only indexes are harmless |
| MappingPlaces.MatchedHolders | pkg/machineproviders/providers/openshift/machine/v1beta1/mapping.go:303-313 | where the candidates of every domain lie after one machine index is matched: the lowest candidate of its domain is used up, and what was planned at the index takes its place |
| MappingPlaces.MatchingIsDetermined | pkg/machineproviders/providers/openshift/machine/v1beta1/mapping.go:293-315 | every run of such steps over the machine indexes in ascending order, told without the algorithm, ends in the candidates the algorithm leaves |
| MappingPlaces.LowestUsedUp | pkg/machineproviders/providers/openshift/machine/v1beta1/mapping.go:293-315 | of a domain whose candidates lie at indexes without machines the lowest are used up, one for each machine in it, and the others stay where they are |
| MappingPlaces.MatchedOfDomain | pkg/machineproviders/providers/openshift/machine/v1beta1/mapping.go:293-315 | the machine indexes of a domain that are matched are the lowest of those not deleting, as many as the base has of the domain |
| MappingPlaces.LowestYield | pkg/machineproviders/providers/openshift/machine/v1beta1/mapping.go:323-364 | of the unmatched indexes of a domain without candidates the lowest give way, as many as are above the maximum, or all if the base does not know the domain |
| MappingTheorems.CrowdedDomain | pkg/machineproviders/providers/openshift/machine/v1beta1/mapping.go:323-364 | the exact count of a domain with at least its share of machines: the excess over the maximum gives way, never below the share, and nothing joins |
| MappingTheorems.Balance | pkg/machineproviders/providers/openshift/machine/v1beta1/mapping.go:334-363 | a domain whose own deleting-only indexes are harmless ends with no more indexes than its share of the base or the balanced maximum, whatever the other domains |
| MappingTheorems.ExactMovement | pkg/machineproviders/providers/openshift/machine/v1beta1/mapping.go:240-275 | the number of machine indexes moved is the sum over the domains of the excess over the maximum, or of all holders where the base does not have the domain |
| MappingTheorems.MinimalMovement | pkg/machineproviders/providers/openshift/machine/v1beta1/mapping.go:240-364 | the result is an admissible mapping and no admissible mapping moves fewer machine indexes |
| MappingPlaces.MovedExactly | pkg/machineproviders/providers/openshift/machine/v1beta1/mapping.go:240-364 | not only how many but which machine indexes of a domain move: the lowest of those not matched, as many as the surplus |
| MappingPlaces.ReceivesCandidate | pkg/machineproviders/providers/openshift/machine/v1beta1/mapping.go:323-364 | an index that moves, or has no machine, gets the candidate that lies there after matching |
| MappingPlaces.FreeIndexesKeep | pkg/machineproviders/providers/openshift/machine/v1beta1/mapping.go:240-364 | indexes without machines keep the domain planned for them, except for the lowest of the domain, one for each machine already in it |
| MappingPlaces.LowerCandidateUsed | pkg/machineproviders/providers/openshift/machine/v1beta1/mapping.go:303-313 | the smallest case of two equal candidates, with the mapping computed |
| MappingTheorems.Fixpoint | pkg/machineproviders/providers/openshift/machine/v1beta1/mapping.go:240-275 | a full mapping with base domains only and none above the maximum is returned unchanged, whatever indexes are deleting |
| MappingTheorems.DeletingIndexUnbalances | pkg/machineproviders/providers/openshift/machine/v1beta1/mapping.go:353-358 | a concrete input with a deleting-only index whose result gives one domain two indexes and leaves another, free one unused |
| MappingBase.RoundRobinCount | pkg/machineproviders/providers/openshift/machine/v1beta1/mapping.go:124-126 | for any list of domains, repeated ones included, each is dealt as often as it is listed in every full round and in what remains |
| MappingBase.BaseBalancedIff | pkg/machineproviders/providers/openshift/machine/v1beta1/mapping.go:119-129 | the base mapping of any list of domains is balanced if and only if no domain's share exceeds the number of indexes over the number of different domains dealt, rounded up |
| MappingBase.RoundRobinBalanced | pkg/machineproviders/providers/openshift/machine/v1beta1/mapping.go:119-129 | for distinct domains that always holds, and the maximum depends on the numbers of indexes and domains only |
| MappingBase.PresentInBase | pkg/machineproviders/providers/openshift/machine/v1beta1/mapping.go:96-129 | a configured domain that a machine is in gets an index, even when there are more domains than indexes |
| MappingEntry.CreateBaseMapping | pkg/machineproviders/providers/openshift/machine/v1beta1/mapping.go:85-129 | the error cases, and otherwise a round robin over an order of the completed domains with those in use first, on as many indexes as replicas or machine indexes |
| MappingEntry.MapMachineIndexes | pkg/machineproviders/providers/openshift/machine/v1beta1/mapping.go:50-77 | the whole computation succeeds exactly when domains are configured, replicas are set, machines are readable and domains can be completed, and then gives the allocation of `MappingRuns.Spec` |
| MappingEntry.AzureCompletionsMerge | pkg/machineproviders/providers/openshift/machine/v1beta1/failuredomain/failuredomain.go:238-250 | two Azure domains complete to the same domain if and only if each field is equal, or unset or the template's in both |
| MappingEntry.DuplicateUnbalances | pkg/machineproviders/providers/openshift/machine/v1beta1/mapping.go:109-129 | one list with a repeated domain that is balanced over three indexes and exceeds the balanced maximum over four |
| MappingRuns.AllocationAdmissible | pkg/machineproviders/providers/openshift/machine/v1beta1/mapping.go:50-77 | with distinct completed domains the allocation covers all indexes, uses configured domains and keeps each within its limit |
| MappingRuns.AllocationMoves | pkg/machineproviders/providers/openshift/machine/v1beta1/mapping.go:50-77 | the number of machine indexes the allocation moves does not depend on how the sorts fall, and no admissible mapping moves fewer |
| MappingRuns.EvenSplit | pkg/machineproviders/providers/openshift/machine/v1beta1/mapping.go:119-129 | when the number of domains divides the number of indexes every domain gets exactly the quotient |
| MappingRuns.AllocationFixpoint | pkg/machineproviders/providers/openshift/machine/v1beta1/mapping.go:50-77 | computing the allocation again from its own outcome, base mapping included, changes nothing |
| MappingProgress.StepProgress | pkg/machineproviders/providers/openshift/machine/v1beta1/mapping.go:50-77 | replacing the machine at one changed index, or filling a missing one, leaves exactly one index less to do and disturbs no settled index, whichever harmless indexes are deleting |
| MappingProgress.UnsettledIsHarmless | pkg/machineproviders/providers/openshift/machine/v1beta1/mapping.go:293-301 | deleting the machine at an index in an unconfigured or over-represented domain is harmless |
| MappingProgress.DeletedIndexIsStep | pkg/machineproviders/providers/openshift/machine/v1beta1/mapping.go:293-301 | replacing a machine the user has deleted, at an index the allocation changes, is such a step |
| MappingProgress.NoPingPong | pkg/machineproviders/providers/openshift/machine/v1beta1/mapping.go:85-129 | in every run of such steps, recomputing each time, every index changes at most once, keeps what it got, and the run is no longer than the initial work |
| MappingProgress.DoneIffAllocated | pkg/machineproviders/providers/openshift/machine/v1beta1/mapping.go:50-77 | no work is left exactly when the allocation equals the machines' mapping, whichever harmless indexes are deleting; until then a step is possible |
| MappingProgress.StepUntilDone | pkg/machineproviders/providers/openshift/machine/v1beta1/mapping.go:50-77 | until no work is left a step of a run is possible |
| MappingProvider.MapIndexesToFailureDomains | pkg/machineproviders/providers/openshift/machine/v1beta1/mapping.go:146-197 | it fails exactly when some machine is unreadable; otherwise every index named by a machine, and no other, is mapped to the domain of its reference machine |
| MappingProvider.NewestIsReference | pkg/machineproviders/providers/openshift/machine/v1beta1/mapping.go:149-193 | the newest machine of an index is the one kept for it if and only if no machine in its domain is listed after it; otherwise an older one is |
| MappingProvider.NewestDecides | pkg/machineproviders/providers/openshift/machine/v1beta1/mapping.go:169-193 | so a newest machine is kept whenever machines in one domain are listed in order of creation |
| MappingProvider.NewerOfTwo | pkg/machineproviders/providers/openshift/machine/v1beta1/mapping.go:169-193 | of two machines at an index the newer decides the domain |
| MappingProvider.OlderOfThree | pkg/machineproviders/providers/openshift/machine/v1beta1/mapping.go:191-193 | of three machines at an index one that is not the newest can decide |
| MappingProvider.ListDeletingIndexes | pkg/machineproviders/providers/openshift/machine/v1beta1/mapping.go:201-229 | an index is listed exactly if it has machines and all of them are being deleted |
| FailureDomains.CompleteFailureDomains | pkg/machineproviders/providers/openshift/machine/v1beta1/failuredomain/failuredomain.go:181-194 | it succeeds exactly when all domains can be completed, item by item, and else reports the first that cannot |
| FailureDomains.CompleteSucceeds | pkg/machineproviders/providers/openshift/machine/v1beta1/failuredomain/failuredomain.go:197-222 | completing fails exactly without a template, or with one of another platform, with the error for each |
| FailureDomains.CompletedZones | pkg/machineproviders/providers/openshift/machine/v1beta1/failuredomain/failuredomain.go:238-302 | for GCP, vSphere, Nutanix and Azure every field is the own one where it is set and the template's where it is not |
| FailureDomains.CompletedAWS | pkg/machineproviders/providers/openshift/machine/v1beta1/failuredomain/failuredomain.go:224-236 | the same for the AWS zone and subnet |
| FailureDomains.CompletedOpenStack | pkg/machineproviders/providers/openshift/machine/v1beta1/failuredomain/failuredomain.go:262-282 | the same for the OpenStack zone and, where both have one, each field of the root volume |
| FailureDomains.CompleteIdempotent | pkg/machineproviders/providers/openshift/machine/v1beta1/failuredomain/failuredomain.go:197-302 | completing a completed domain against the same template changes nothing, on every platform |
| FailureDomains.DomainSet.Insert | pkg/machineproviders/providers/openshift/machine/v1beta1/failuredomain/set.go:37-54 | the set holds the union, keeps its order and never holds an item twice |
| FailureDomains.DedupInOrder | pkg/machineproviders/providers/openshift/machine/v1beta1/failuredomain/set.go:48-54 | more items never disturb the order of those in the set |
| Names.NameRoundTrip | pkg/machineproviders/providers/openshift/machine/v1beta1/provider.go:633-649 | for every prefix, labels and random part the name made for an index reads back as that index if and only if it is not negative |
| Names.NameMade | pkg/machineproviders/providers/openshift/machine/v1beta1/provider.go:633-649 | a name is made exactly with a prefix or both labels, otherwise the first missing label is the error; it starts with the prefix or the labels |
| Names.NamesDiffer | pkg/machineproviders/providers/openshift/machine/v1beta1/provider.go:633-649 | names made with different random parts, or for different indexes, differ |
| Names.IndexIffRead | pkg/machineproviders/providers/openshift/machine/v1beta1/provider.go:497-506 | a name has an index if and only if what follows its last dash is a number that fits |
| Names.ParsedIndexRange | pkg/machineproviders/providers/openshift/machine/v1beta1/provider.go:497-506 | parsing a name never yields a negative index or one beyond 32 bits |
| UpdateStrategies.Reconciler.RollingUpdate | pkg/controllers/controlplanemachineset/updates.go:161-220 | the loop over the sorted indexes, with its surge count and its early end, computes the rolling pass |
| UpdateStrategies.Reconciler.OnDeleteUpdate | pkg/controllers/controlplanemachineset/updates.go:233-283 | the loop of the on-delete strategy computes the on-delete pass |
| UpdateStrategies.Reconciler.DeleteReplacedMachines | pkg/controllers/controlplanemachineset/updates.go:348-401 | the three overlapping choices of a machine to delete come to the specified target, which is deleted unless it already is |
| UpdateStrategies.Reconciler.CreateMachineWithSurge | pkg/controllers/controlplanemachineset/updates.go:541-562 | nothing happens at the surge limit; otherwise the API is checked, and only a machine really created counts |
| UpdateStrategies.Reconciler.CheckForExistingReplacement | pkg/controllers/controlplanemachineset/updates.go:566-587 | found exactly if the API holds an up-to-date machine of that index that is not being deleted |
| Machines.FilterMachines | pkg/controllers/controlplanemachineset/updates.go:596-686 | each filter keeps exactly the machines of its kind, in order |
| UpdateDecisions.SelectConcat | pkg/controllers/controlplanemachineset/updates.go:596-686 | every filter keeps the order of the list |
| UpdateDecisions.WantedIffAllLeaving | pkg/controllers/controlplanemachineset/updates.go:449-487 | a machine is wanted at an index if and only if there is none, or every machine there is outdated or being deleted |
| UpdateDecisions.TargetExact | pkg/controllers/controlplanemachineset/updates.go:348-381 | the machine to delete, for any machines: of several updated ones the oldest, else the first outdated one that is not ready, else the first outdated one beside an updated one, else none; none of a single one |
| UpdateDecisions.WaitsIffOnItsWay | pkg/controllers/controlplanemachineset/updates.go:286-326 | the strategies ask to be run again soon if and only if an up-to-date machine is on its way, and either one has to go or none serves and none is going |
| DeletionSafety.DeletionJustified | pkg/controllers/controlplanemachineset/updates.go:348-401 | for any listing a deletion target is one of at least two machines and is not ready, or another ready and up-to-date machine is there |
| DeletionSafety.ReplacementStays | pkg/controllers/controlplanemachineset/updates.go:354-381 | deleting a ready machine leaves a ready up-to-date machine that is not itself being deleted if and only if the choice did not rely on one being deleted |
| DeletionSafety.OutdatedDeletedBesideLeaver | pkg/controllers/controlplanemachineset/updates.go:360-365 | the smallest listing in which it does not |
| DeletionSafety.RollingDeletionsSafe | pkg/controllers/controlplanemachineset/updates.go:161-220 | a rolling pass over any view requests at most one deletion per index, never of a machine being deleted, only among at least two, and only justified ones |
| PassSemantics.CreatedOnView | pkg/controllers/controlplanemachineset/updates.go:161-220 | on any view, fresh or stale, when no call fails, a pass creates machines for exactly the lowest of the indexes that are empty or have only outdated or deleting machines by the view, and where the API, after the pass's own deletion, has no replacement, as many as the surge of the view has room for |
| PassSemantics.CreatedExactly | pkg/controllers/controlplanemachineset/updates.go:161-220 | on a fresh view those are the lowest of the indexes that are empty or have only outdated or deleting machines, as many as the surge has room for |
| PassSemantics.LowestFirstIsPrefix | pkg/controllers/controlplanemachineset/updates.go:698-713 | those indexes are a prefix of the ascending list of those indexes |
| PassEffects.PassEffect | pkg/controllers/controlplanemachineset/updates.go:161-220 | the whole new state of the API: at every index of the view the deletion of its target and the machine created, if any, and nothing anywhere else |
| PassEffects.RequestedExactly | pkg/controllers/controlplanemachineset/updates.go:177-219 | a pass requests exactly the deletions of all targets not being deleted yet, and is run again soon if and only if a machine is on its way at some index |
| PassEffects.DeleteFails | pkg/controllers/controlplanemachineset/updates.go:384-393 | the deletion step fails exactly if its call does, and has then changed nothing |
| PassEffects.CreationFails | pkg/controllers/controlplanemachineset/updates.go:507-536 | check and creation fail exactly if listing fails or a machine is to be created and cannot be, and have then created nothing |
| PassEffects.MarkedExactly | pkg/controllers/controlplanemachineset/updates.go:493-504 | a deletion marks the machine of the name and changes nothing else |
| PassSemantics.SurgeTracksTotal | pkg/controllers/controlplanemachineset/updates.go:541-562 | on any view, failures included, the surge count changes as the number of machines does and does not pass the maximum |
| PassSemantics.SurgeBound | pkg/controllers/controlplanemachineset/updates.go:736-745 | after a pass on a view that lists no fewer machines than there are, there are at most as many as before, or one above the replicas, even when API calls fail |
| PassSemantics.SurgeBoundIff | pkg/controllers/controlplanemachineset/updates.go:541-562 | on any view, when no call fails, that bound is kept if and only if nothing is created or what is created fits beside the machines there are; the number created is computed from the view and the API |
| PassSemantics.StaleViewExceedsSurge | pkg/controllers/controlplanemachineset/updates.go:550-561 | a stale view on which the bound fails |
| OnDeletePass.OnDeleteCreatesExactly | pkg/controllers/controlplanemachineset/updates.go:233-283 | on a fresh view without failures the on-delete strategy deletes nothing and creates one machine for every index that is empty or whose only machine is being deleted, ready or not |
| OnDeletePass.OnDeleteEffect | pkg/controllers/controlplanemachineset/updates.go:407-442 | the whole new state: every such index then holds an up-to-date machine in the API, nothing else has changed, and the pass is run again soon if and only if a machine is on its way |
| StaleCache.CreatedIffNoneLive | pkg/controllers/controlplanemachineset/updates.go:507-536 | a machine is created if and only if the API calls succeed and the API, whatever the view says, holds no up-to-date machine of the index; then it holds one |
| StaleCache.NeverTwoReplacements | pkg/controllers/controlplanemachineset/updates.go:507-587 | over every history of controller actions on arbitrary views and other changes, no index comes to hold two up-to-date machines |
| StaleCache.RollAllKeepsLive | pkg/controllers/controlplanemachineset/updates.go:161-220 | the same for a whole rolling pass on any view |
| StaleCache.OnDeleteAllKeepsLive | pkg/controllers/controlplanemachineset/updates.go:233-283 | the same for a whole on-delete pass on any view |
| Rollout.RollShape | pkg/controllers/controlplanemachineset/updates.go:180-207 | during a rollout handling an index changes nothing, deletes the outdated machine once its replacement is ready, or creates the replacement |
| RolloutRuns.PassKeepsShapes | pkg/controllers/controlplanemachineset/updates.go:161-220 | a pass, with any failures, keeps every index in one of the forms of a rollout and lessens the distance to its end unless it changes nothing |
| RolloutRuns.RolloutSafe | pkg/controllers/controlplanemachineset/updates.go:161-220 | in every state of every rollout each index has a ready machine, at most one outdated and one up-to-date one, no up-to-date machine is being deleted, and there is at most one machine above the replicas |
| RolloutRuns.RolloutBounded | pkg/controllers/controlplanemachineset/updates.go:348-487 | every effective step lessens the sum of the stages, so a rollout makes at most five of them per replica |
| RolloutProgress.RolloutIsValid | pkg/controllers/controlplanemachineset/controller.go:529-578 | throughout a rollout the validation of the cluster state lets the controller act |
| RolloutProgress.PassAdvances | pkg/controllers/controlplanemachineset/updates.go:161-220 | once nothing awaits the environment every pass on a fresh view without failures brings the rollout forward |
| RolloutProgress.NeverStuck | pkg/controllers/controlplanemachineset/updates.go:161-220 | in every state short of the end some step brings the rollout forward |
| RolloutProgress.StoppedRunIsRolledOut | pkg/controllers/controlplanemachineset/updates.go:161-220 | a run that no step can bring forward has replaced every machine, and the set is then reported available and not progressing |
| Status.CountAll | pkg/controllers/controlplanemachineset/status.go:82-129 | the counters are the sums over the indexes of all, ready and updated machines and the number of indexes without a ready one |
| Status.StatusExact | pkg/controllers/controlplanemachineset/status.go:135-245 | available and not progressing hold if and only if there are as many indexes as replicas and each has exactly one ready machine, an up-to-date one |
| Status.ConditionsMean | pkg/controllers/controlplanemachineset/status.go:153-245 | each condition on its own, with its reason, over the machines of the view: available, degraded and progressing |
| Status.ValidStateMeans | pkg/controllers/controlplanemachineset/controller.go:519-527 | what a valid cluster state is, told of the machines and their fields |
| Status.ControlPlaneMachineSet.ReconcileStatus | pkg/controllers/controlplanemachineset/status.go:82-150 | counters and conditions are set; without replicas it fails after the first two conditions |
| Status.ControlPlaneMachineSet.ValidateClusterState | pkg/controllers/controlplanemachineset/controller.go:529-578 | it fails exactly if the nodes cannot be listed when they are needed; otherwise the set ends degraded if and only if the cluster state is not valid. In a valid state the conditions are left as they are; in an invalid one the set is degraded for the first reason that applies and not progressing |
| Status.ControlPlaneMachineSet.ReconcileMachines | pkg/controllers/controlplanemachineset/controller.go:276-305 | the strategies get to act if and only if replicas are set, the set is active, nodes could be listed and owner references set, and the state is valid; then the set reports whether it is available and whether it is progressing as the machines are, and otherwise what validation found |
| Status.NoneReady | pkg/controllers/controlplanemachineset/controller.go:693-727 | the check finds no ready machine exactly when none is ready and no index is without machines |
| Status.CheckReplacements | pkg/controllers/controlplanemachineset/controller.go:822-863 | the check fails exactly if some pending machine beside one that needs replacement is in error |
| Indexes.MachineInfosByIndex | pkg/controllers/controlplanemachineset/controller.go:584-605 | grouping keeps the machines of each index in order, adds exactly the lowest free indexes that are lacking, and stops by the time the counter reaches the replicas |
| Indexes.GroupingConserves | pkg/controllers/controlplanemachineset/controller.go:591-593 | no machine is lost, invented or put under another index |
| Indexes.OfIndexConcat | pkg/controllers/controlplanemachineset/controller.go:591-593 | the machines of an index stay in the order listed |
| Indexes.ControllerIndexCount | pkg/controllers/controlplanemachineset/controller.go:595-602 | the number of indexes is the larger of the replicas and the machines' indexes |
| Indexes.IndexAgreement | pkg/controllers/controlplanemachineset/controller.go:595-602 | the controller's indexes are those of the allocation if and only if the machines have at least as many indexes as replicas or none outside the desired ones |
| Indexes.EveryIndexCreatable | pkg/machineproviders/providers/openshift/machine/v1beta1/provider.go:651-665 | under the same condition, and only then, every index the controller works on has a failure domain to inject |
| ErrorHistory.ErrorConditionExact | pkg/controllers/controlplanemachineset/status.go:192-209 | over every run of reconciles the error condition is true if and only if the last fifteen returned an error with the same text |
| ErrorHistory.Reconciler.SetLastError | pkg/controllers/controlplanemachineset/controller.go:370-398 | the tracker and the condition are kept in step with the history of outcomes |
| ProviderConfigs.AzureLens | pkg/machineproviders/providers/openshift/machine/v1beta1/providerconfig/azure.go:39-60 | extracting after injecting gives the completed domain; injecting what is there changes nothing; two injections are one of the completion; nothing else changes |
| ProviderConfigs.AzureMachineInDomain | pkg/machineproviders/providers/openshift/machine/v1beta1/provider.go:654-665 | a machine made for a completed domain is found in that domain |
| ProviderConfigs.ConvertV1Beta1ToV1 | pkg/machineproviders/providers/openshift/machine/v1beta1/providerconfig/aws.go:96-128 | the loop over the filters gives the specified reference; identifier, filters and ARN are tried in that order |
| ProviderConfigs.ConvertV1ToV1Beta1 | pkg/machineproviders/providers/openshift/machine/v1beta1/providerconfig/aws.go:131-160 | the loop over the filters gives the specified reference |
| ProviderConfigs.ReferenceRoundTrip | pkg/machineproviders/providers/openshift/machine/v1beta1/providerconfig/aws.go:96-160 | a reference, filters included, survives the way into a provider spec and back if and only if exactly the field of its type is set |
| ProviderConfigs.SpecReferenceRoundTrip | pkg/machineproviders/providers/openshift/machine/v1beta1/providerconfig/aws.go:96-160 | a reference of a provider spec survives the other way round if and only if at most one of its fields is set; what is extracted is well formed |
| ProviderConfigs.ReferencePrecedence | pkg/machineproviders/providers/openshift/machine/v1beta1/providerconfig/aws.go:96-128 | of several fields of a provider spec's reference the identifier counts, else the filters, else the ARN |
| ProviderConfigs.OnlyNamedField | pkg/machineproviders/providers/openshift/machine/v1beta1/providerconfig/aws.go:131-160 | only the field that the type names goes into a provider spec |
| ProviderConfigs.AWSLens | pkg/machineproviders/providers/openshift/machine/v1beta1/providerconfig/aws.go:39-62 | extracting after injecting gives the completed domain if and only if the injected subnet is absent or well formed |
| ProviderConfigs.AWSReinject | pkg/machineproviders/providers/openshift/machine/v1beta1/providerconfig/aws.go:39-62 | injecting what was extracted restores the spec if and only if its subnet reference has at most one field, and extracts the same in any case |
| ProviderConfigs.AWSMachineInDomain | pkg/machineproviders/providers/openshift/machine/v1beta1/provider.go:654-665 | an AWS machine is found in the completed domain it was made for if and only if the configured subnet is absent or well formed |
| ProviderConfigs.ProviderConfigForIndex | pkg/machineproviders/providers/openshift/machine/v1beta1/provider.go:651-665 | the template as it is without a mapping, otherwise with the index's failure domain injected; an error exactly for an index missing from a mapping that is not empty |
| ProviderConfigs.MachineInDomain | pkg/machineproviders/providers/openshift/machine/v1beta1/providerconfig/providerconfig.go:163-183 | on either platform a machine made for a domain completed from the template is found in it if and only if the configured subnet is absent or well formed |
| AzureGenerator.BuildMachineSpec | pkg/controllers/controlplanemachinesetgenerator/azure.go:58-94 | the template keeps a field exactly if all machines agree in it |
| AzureGenerator.TemplateFields | pkg/controllers/controlplanemachinesetgenerator/azure.go:58-94 | the template is the newest machine's spec except for zone and subnet, which are empty unless all machines have the same |
| AzureGenerator.BuildFailureDomains | pkg/controllers/controlplanemachinesetgenerator/azure.go:121-151 | clearing in place gives none for at most one domain, and else the domains without the fields in which all agree |
| AzureGenerator.GeneratedFields | pkg/controllers/controlplanemachinesetgenerator/azure.go:121-151 | of several domains each is generated with exactly the fields in which two of them differ; one alone is not |
| AzureGenerator.GeneratedRoundTrip | pkg/controllers/controlplanemachinesetgenerator/azure.go:58-151 | completing the generated domains with the generated template gives back the machines' domains one by one; without generated domains the template's is that of every machine |
| Webhook.DuplicatedFailureDomains | pkg/webhooks/controlplanemachineset/webhooks.go:696-712 | the result lists each item that occurs at least twice, once |
| Webhook.MissingFailureDomains | pkg/webhooks/controlplanemachineset/webhooks.go:674-693 | the result is the items of one list that are not in the other, in order |
| Webhook.MissingConcat | pkg/webhooks/controlplanemachineset/webhooks.go:674-693 | the missing items stay in order |
| Webhook.CheckFailureDomainsMatchMachines | pkg/webhooks/controlplanemachineset/webhooks.go:622-653 | no error is reported if and only if machines and domains can be read, the domains can be completed, every machine is in one of them, and none is unused unless all machines are apart |
| Webhook.CompareDomains | pkg/webhooks/controlplanemachineset/webhooks.go:622-653 | which errors are reported, and with which domains: the unspecified ones machines are in, and the unused ones with the repeated ones, or that domains cannot be completed |
| Webhook.CheckTemplateMatchesMachines | pkg/webhooks/controlplanemachineset/webhooks.go:596-618 | no error is reported if and only if template and machines can be read and every machine is in the template's domain |
| Webhook.ExtractFailureDomains | pkg/machineproviders/providers/openshift/machine/v1beta1/providerconfig/providerconfig.go:418-432 | the domains of the machines, each once, unless a machine cannot be read |
| Webhook.ListMachineDomains | pkg/controllers/controlplanemachinesetgenerator/utils.go:202-211 | the set of domains built from the machines lists each of their domains once |
| Webhook.ValidateGenerated | pkg/webhooks/controlplanemachineset/webhooks.go:349-366 | in whatever order that set is listed, the generated control plane machine set passes the create-time checks against the machines |
| Webhook.GenerateAndValidate | pkg/webhooks/controlplanemachineset/webhooks.go:349-366 | for every non-empty list of Azure machines the set generated from them passes the create-time checks against them |

## Left out

- MappingTheorems.Balance: proved for harmless deleting-only indexes of the domain, in one direction; a harmful one may also leave the domain balanced, as when a single machine being deleted already is where it belongs, depending on where the candidates of its domain happen to lie.
- MappingTheorems.MinimalMovement: likewise proved for harmless deleting-only indexes.
- MappingProgress.NoPingPong: for distinct completed domains, and steps taken while the deleting-only indexes are harmless.
- MappingEntry.CreateBaseMapping: the alphabetical sort before the sort by use is not modelled; the second sort is not stable, so any order with the domains in use first is allowed.
- MappingEntry.MapMachineIndexes: likewise; how a domain is rendered as text is a parameter.
- RolloutRuns.RolloutSafe: for rollouts with a fixed template, fresh views, one ready machine per index at the start, and machines that do not lose readiness on their own; a template change in the middle can leave two ready outdated machines at an index and no surge to replace them.
- StaleCache.NeverTwoReplacements: outdated machines do not become up to date again, as they may when the template changes back.
- DeletionSafety.DeletionJustified: of several updated machines created at the same time the first is taken for the oldest; the sort in the program is not stable.
- Webhook.ValidateTemplateOnCreate: a template that cannot be parsed beside configured failure domains is left out; the program goes on with a missing provider config there.
- AzureGenerator.GeneratedRoundTrip: the domains may be listed in any order; their sort by text is not modelled, and neither is the sort of machines by age.
- Indexes of machines without an index in their name, which the provider takes from their failure domain.
- The wrap-around of 32-bit machine counts.
- Kubernetes clients, patches, watches, owner references, finalizers, events and logging; listing, creating and deleting machines are modelled by their outcomes.
- Readiness of nodes and its grace period, and the mapping of nodes to machines.
- Messages, times and observed generations of conditions; the dispatch on the kind of strategy, with its condition for unsupported ones.
- OpenStack, GCP, vSphere and Nutanix provider specs; injecting for OpenStack and comparing for GCP write through shared pointers. Completion of their failure domains is modelled.
- Differences between provider specs, JSON and YAML, dry-run defaulting, TLS, feature gates and the remaining webhook checks.
