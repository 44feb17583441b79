# Verified model of the Mongo charms' single kernel library

The library runs MongoDB and mongos charms as Juju hooks. This project models its protocols as steps over
plain state, the way hooks run them, and proves what every run keeps; the stores they read and write are
classes proved against plain maps.

- `UpgradeDecision`, `KubernetesUpgrade`, `KubernetesSafety`, `KubernetesConfirmation`, `KubernetesForce`,
  `KubernetesProgress`, `KubernetesCharm`: the rolling upgrade on Kubernetes. Units, revisions, health,
  the partition, the StatefulSet controller, hooks and actions; safety, the confirmation hold, the force
  budget, progress and termination.
- `MachineUpgrade`: the same upgrade on machines, and where the primary goes.
- `ReplicaSetConfig`, `ReplicaSetRuns`, `Membership`: replica-set configurations edited one member at a time, quorum overlap,
  and the reconcile loops that bring members in line with the Juju hosts.
- `Shards`: adding, draining and removing shards, and moving primaries off a draining shard.
- `Secrets`, `Tls`: the tombstoning secret cache, and keys, signing requests and certificates over it.
- `RelationData`, `RelationProvider`, `RelationEvents`, `RelationAliases`: the relation data layer in secrets
  mode, diffs of databags, and aliases.
- `Sysctl`, `SysctlConfig`: kernel settings of several charms merged into one file.
- `Names`, `Text`, `Wrappers`: printed names and their parsers, strings, option and result.

`dafny verify dfyconfig.toml` checks everything.

## How the source becomes steps

- A hook, an action, an act of the StatefulSet controller, of mongod or of the certificate provider is one
  atomic step. A hook that raises leaves its state as it was, as Juju discards it.
- Units start on one revision, there is no scaling during an upgrade, pods that are away are not listed, and
  a pod that comes back runs the app revision exactly if its number is at or above the partition.
- Hooks and actions of the leader need a pod that is up.
- Servers answer as they may, and statuses and free space are read afresh. What mongos answers during a shard
  removal and whether `sysctl` applies are parameters, so results say exactly when an operation goes through;
  `replSetReconfig` and step-downs fail at will unless the replica set is calm (at rest).
- A replica set refuses a configuration without its primary.
- Revisions, keys, signing requests and certificates are opaque texts. Every generated request has a text of
  its own (it carries a unique identifier), and the provider delivers a certificate with the request it was
  signed for: late, more than once, or never.
- `for` loops over Python sets are loops that pick elements in any order.

## Where the code does less than its comments say

- On Kubernetes, `_determine_partition` returns 0 whenever no outdated pod is up, also in the middle of an
  upgrade while the outdated pods are away. The confirmation hold leaks there and when a lower unit restarts
  before the partition covers it, and by no other step: `HoldKeptExactlyWhenGuarded`,
  `RunHoldsExactlyWhenGuarded`. The force budget leaks exactly at such a reconcile while a unit below the
  stuck one and below the partition is outdated: `ReconcileKeepsBudgetExactlyWhenGuarded`. Both happen from
  every refresh: `ConfirmationLeakIsReachable`, `BudgetLeakIsReachable`.
- A refresh while the top pod is away can stop units under unhealthy ones; the exact condition is
  `RefreshSafeExactlyWhenGuarded`.
- On a mongos every resume action forces, whatever its parameter.
- `perform_self_healing` can return normally without convergence when a wanted host is still listed by the
  server without being a member and nothing unwanted is listed: `HealingConvergesExactly`.
- `add_shards` returns normally although a related application was refused, unless for its authentication:
  `AddShards`.
- Disabling TLS leaves keys, requests and waiting flags, so a late certificate is stored again.
- Deleting relation fields of several groups, or absent ones, leaves secret fields in place:
  `DeleteIsRemovalExactly`.
- A second `configure` that fails leaves the merged sysctl file without the charm's own keys:
  `FailedReconfigureHarmlessExactlyIfCovered`, `UncoveredKeyLetsConflictIn`.

## Model

| member | source | states |
|---|---|---|
| `UpgradeDecision.DeterminePartition` | single_kernel_mongo/core/kubernetes_upgrades.py:97-124 | the early-return scan yields the decision: 0 when nothing is outdated or every unit is clear, the number of the first unit that is unhealthy (unless forced) or not on the app revision, the top unit's number while the second unit of a mongod awaits confirmation, a failed lookup when that unit's version is missing |
| `UpgradeDecision.DecisionAtFirstBlocker` | single_kernel_mongo/core/kubernetes_upgrades.py:97-124 | while some unit is outdated the decision is the number of the first unit that is unhealthy (a unit a forced decision passes over) or not on the app revision, or the missing version of that unit, except that the second unit of a mongod needs an action |
| `UpgradeDecision.NothingOutdatedDecidesZero` | single_kernel_mongo/core/kubernetes_upgrades.py:108-109 | with no outdated unit the decision is 0, with or without force, whatever the health |
| `UpgradeDecision.Authorized` | single_kernel_mongo/core/machine_upgrades.py:103-144 | the early-return scan of a machine unit yields: the pre-check's verdict for the first unit, the resume flag for the second of a mongod, otherwise yes exactly behind clear units |
| `UpgradeDecision.AuthorizedScan` | single_kernel_mongo/core/machine_upgrades.py:117-144 | closed form of the authorization of the unit at any position: refused if any unit above is not clear, else by position, pre-check and resume flag |
| `UpgradeDecision.SubstratesAgree` | single_kernel_mongo/core/machine_upgrades.py:103-144 | for an outdated unit, machine authorization (pre-check passing) is yes if and only if the Kubernetes decision, with the resume flag as action flag, picks that unit's number |
| `UpgradeDecision.AtMostOneAuthorized` | single_kernel_mongo/core/machine_upgrades.py:103-144 | two outdated units are never both authorized, whatever the kinds, flags and pre-check outcomes |
| `KubernetesUpgrade.InProgressMeans` | single_kernel_mongo/state/charm_state.py:432-438 | an upgrade is in progress if and only if some pod that is up runs another revision than the application's |
| `KubernetesUpgrade.UnforcedBound` | single_kernel_mongo/core/kubernetes_upgrades.py:108-124 | an unforced decision is never below a unit that is unhealthy, away or outdated |
| `KubernetesUpgrade.ForcedBound` | single_kernel_mongo/core/kubernetes_upgrades.py:108-124 | above a forced decision every unit is up and on the app revision |
| `KubernetesSafety.UnforcedLookupSucceeds` | single_kernel_mongo/core/kubernetes_upgrades.py:112-118 | the version lookup of an unforced reconcile never raises while units that are away are marked restarting |
| `KubernetesSafety.ReconcileKeepsShield` | single_kernel_mongo/core/kubernetes_upgrades.py:155-190 | an unforced reconcile keeps the partition above every outdated pod that has a restarted, unhealed unit above it |
| `KubernetesSafety.InvStep` | single_kernel_mongo/managers/mongodb_operator.py:333-343 | every hook, action and controller step that does not force keeps the invariant linking partition, health and revision: stops raise the partition, reconciles lower it |
| `KubernetesSafety.InvRun` | single_kernel_mongo/core/kubernetes_upgrades.py:126-190 | the invariant holds after every unforced run |
| `KubernetesSafety.UpgradeIsSafe` | single_kernel_mongo/core/kubernetes_upgrades.py:126-190 | from a settled cluster, after any unforced run with any refreshes, unrelated restarts, heals and reconciles, a unit the controller may stop has only up, current and healthy units above it |
| `KubernetesSafety.UnguardedRefreshIsUnsafe` | single_kernel_mongo/core/kubernetes_upgrades.py:126-190 | a refresh while the top pod is away and some pod that is up is not below the partition has an unforced continuation that stops a unit under an unhealthy one |
| `KubernetesSafety.RefreshSafeExactlyWhenGuarded` | single_kernel_mongo/core/kubernetes_upgrades.py:126-190 | refreshing while pods are away keeps every later unforced run safe if and only if the top pod is up or the partition is above every pod that is up |
| `KubernetesConfirmation.ReconcileChoosesTop` | single_kernel_mongo/core/kubernetes_upgrades.py:119-123 | while only the top unit may be current, a reconcile without an action picks the top unit |
| `KubernetesConfirmation.HeldStep` | single_kernel_mongo/core/kubernetes_upgrades.py:119-123 | one guarded step of one upgrade, without actions, keeps every unit but the highest on the old revision |
| `KubernetesConfirmation.OnlyTheHighestUpgrades` | single_kernel_mongo/core/kubernetes_upgrades.py:119-123 | through any guarded run of stops, starts, heals and reconciles after a refresh, without resume or force, only the highest unit leaves the old revision; the guard is exact, see the two rows on it |
| `KubernetesConfirmation.ReconcileKeepsHoldExactlyInProgress` | single_kernel_mongo/core/kubernetes_upgrades.py:108-109 | after a leader reconcile every guarded continuation keeps the lower units on the old revision if and only if some outdated pod is up at that moment; otherwise the partition is reset |
| `KubernetesConfirmation.RestartKeepsHoldExactlyWhenCovered` | single_kernel_mongo/managers/mongodb_operator.py:333-343 | after a lower unit is stopped in any held state every guarded continuation keeps the hold if and only if the partition was above the unit |
| `KubernetesConfirmation.HoldKeptExactlyWhenGuarded` | single_kernel_mongo/core/kubernetes_upgrades.py:119-123 | of all steps of one upgrade without actions, the guarded ones keep the hold for every continuation and each unguarded one has a continuation that ends it |
| `KubernetesConfirmation.RunHoldsExactlyWhenGuarded` | single_kernel_mongo/core/kubernetes_upgrades.py:119-123 | over any run from a refresh without actions: the hold is kept throughout if and only if every step is guarded |
| `KubernetesConfirmation.UnattendedReconcileReleases` | single_kernel_mongo/core/kubernetes_upgrades.py:108-109 | in a held state with a leader up and no outdated pod up, one reconcile and every lower unit that comes back runs the new revision although nobody confirmed |
| `KubernetesConfirmation.EarlyRestartReleasesExactlyWhenUncovered` | single_kernel_mongo/managers/mongodb_operator.py:333-343 | in every held state a lower unit that restarts comes back upgraded if and only if the partition does not cover it |
| `KubernetesConfirmation.ConfirmationLeakIsReachable` | single_kernel_mongo/core/kubernetes_upgrades.py:108-109 | from every refresh some run without resume, force or another refresh upgrades any given lower unit |
| `KubernetesForce.ReconcileOpens` | single_kernel_mongo/core/kubernetes_upgrades.py:164-186 | during an upgrade one reconcile lets no further unit below a stuck one go, and at most one if forced |
| `KubernetesForce.ReconcileOpensNothingExactlyWhenGuarded` | single_kernel_mongo/core/kubernetes_upgrades.py:108-109 | the leader's own reconcile lets no further unit below a stuck one go if and only if some outdated pod is up or no unit below it and the partition is outdated |
| `KubernetesForce.StepSpendsBudget` | single_kernel_mongo/core/kubernetes_upgrades.py:164-186 | for every step: units upgraded plus units let go below a stuck unit grow by at most one, and only when forced |
| `KubernetesForce.ForceBudget` | single_kernel_mongo/core/kubernetes_upgrades.py:164-186 | over any run in which a unit stays unhealthy and the leader's reconciles are guarded, upgrades below it are at most the forced actions plus what the partition had let go before; budget and guard are exact, see the rows on them |
| `KubernetesForce.EachForceUpgradesAtMostOne` | single_kernel_mongo/core/kubernetes_upgrades.py:164-186 | in an invariant state with the next outdated unit up there is nothing to spend: upgrades below the stuck unit are at most the number of forced actions |
| `KubernetesForce.BudgetIsExact` | single_kernel_mongo/core/kubernetes_upgrades.py:164-186 | every guarded continuation stays within an allowance beyond the forced actions if and only if the partition lets no more units below the stuck one go |
| `KubernetesForce.ReconcileKeepsBudgetExactlyWhenGuarded` | single_kernel_mongo/core/kubernetes_upgrades.py:108-109 | after a leader reconcile every guarded continuation stays within the budget of before if and only if the reconcile was guarded |
| `KubernetesForce.StepKeepsBudget` | single_kernel_mongo/core/kubernetes_upgrades.py:164-186 | every other step keeps every continuation within the budget, plus one if it forces |
| `KubernetesForce.UnattendedReconcileBreaksBudget` | single_kernel_mongo/core/kubernetes_upgrades.py:108-109 | with a leader up and no outdated pod up, one reconcile and no force at all let every outdated unit below an unhealthy one upgrade |
| `KubernetesForce.BudgetLeakIsReachable` | single_kernel_mongo/core/kubernetes_upgrades.py:108-109 | from every refresh a run without any action reaches a state with nothing to spend, from which every unit below the unhealthy top one upgrades without force |
| `KubernetesForce.ForceReleasesExactlyNext` | single_kernel_mongo/core/kubernetes_upgrades.py:112-123 | a forced resume, and a force action once resumed, answers done and lowers the partition to the highest outdated unit although units above it are unhealthy, and then the controller may stop that unit and no other |
| `KubernetesForce.ForcedLookupRaises` | single_kernel_mongo/core/kubernetes_upgrades.py:112-118 | a forced action raises and changes nothing when the first unit that is not current is away |
| `KubernetesForce.MongosActionsForce` | single_kernel_mongo/core/kubernetes_upgrades.py:161-163 | on a mongos a resume without force and a force action do the same: they pass over unhealthy units to the next outdated one |
| `KubernetesForce.UnforcedResumeStopsAtUnhealthy` | single_kernel_mongo/core/kubernetes_upgrades.py:112-118 | an unforced resume of a mongod never lowers the partition below an unhealthy unit, and fails if the top one is unhealthy |
| `KubernetesForce.RefusedActions` | single_kernel_mongo/managers/upgrade.py:125-160 | with no upgrade in progress both actions fail, a force before the resume fails on a mongod, an action with a single unit ends in the failed assertion, and none of them changes anything |
| `KubernetesForce.ForcedActionUpgradesNext` | single_kernel_mongo/core/kubernetes_upgrades.py:164-186 | one forced action and the pod's own restart upgrade exactly the next unit below an unhealthy one: each forced action of the budget can be used |
| `KubernetesProgress.ReleaseMakesExactlyNextEligible` | single_kernel_mongo/core/kubernetes_upgrades.py:108-124 | when the highest outdated unit is up and all above it are up and healthy, whatever lower units do, one reconcile (the resume action for the second unit of a mongod) makes that unit eligible and no other |
| `KubernetesProgress.RoundUpgradesNext` | single_kernel_mongo/core/abstract_upgrades.py:381-394 | from such a state release, stop, start and heal form an unforced run that upgrades exactly that unit, leaves it healthy and every other pod as it was |
| `KubernetesProgress.UpgradeCompletes` | single_kernel_mongo/core/kubernetes_upgrades.py:126-190 | from every state, whatever pods are away, unhealthy or outdated, an unforced run of at most six steps per unit and one reconcile leads to every unit up, healthy and on the app revision, with partition 0 |
| `KubernetesProgress.UndisturbedRunsTerminate` | single_kernel_mongo/core/kubernetes_upgrades.py:126-190 | in every run without unrelated restarts, forced or not, pod stops and starts exactly use up the work measure: no unit is upgraded twice |
| `KubernetesCharm.Charm.ReconcilePartition` | single_kernel_mongo/core/kubernetes_upgrades.py:126-190 | the method's new partition and outcome are those of the reconcile step |
| `KubernetesCharm.Charm.OnStop` | single_kernel_mongo/managers/mongodb_operator.py:333-343 | raises the partition to the unit's number if it is lower, and marks the unit restarting if the upgrade relation is there |
| `KubernetesCharm.Charm.ReconcileUpgrade` | single_kernel_mongo/core/abstract_upgrades.py:348-394 | one upgrade hook equals the heal and leader-reconcile steps it stands for, nothing on an incompatible restarting unit, and nothing when the leader's lookup raises; the partition and each pod after it are stated outright |
| `KubernetesCharm.Charm.OnResumeAction` | single_kernel_mongo/managers/upgrade.py:125-133 | the resume action's new state and outcome |
| `KubernetesCharm.Charm.OnForceAction` | single_kernel_mongo/managers/upgrade.py:135-160 | the force action's new state and outcome, refused before a resume on a mongod |
| `KubernetesCharm.RunsOfHooks` | single_kernel_mongo/core/abstract_upgrades.py:348-394 | the steps of a hook are a run of the protocol and lead to the state the hook leaves |
| `MachineUpgrade.UpgradeNeedsAuthority` | single_kernel_mongo/core/abstract_upgrades.py:396-416 | a step that upgrades a unit unforced is that unit's hook, with every unit above current and healthy and, from the second unit of a mongod on, the resume flag set |
| `MachineUpgrade.HookUpgrades` | single_kernel_mongo/core/machine_upgrades.py:146-178 | an outdated unit with authority whose election, if it needs one, is won runs the app revision after its hook, not healthy yet; nothing else changes but the primary, which is the winner, or the last unit after a pre-check |
| `MachineUpgrade.HookUpgradesExactly` | single_kernel_mongo/core/abstract_upgrades.py:396-416 | a hook upgrades its unit if and only if the unit is outdated, compatible, has every unit above it current and healthy, pre-check or resume as its position asks, and a step-down it needs finds a winner; otherwise nothing changes, except that a failing pre-check may have moved the primary to the last unit |
| `MachineUpgrade.ForceUpgradesExactly` | single_kernel_mongo/managers/upgrade.py:135-160 | the force action upgrades its unit if and only if it is outdated, a mongod is resumed, and a step-down it needs finds a winner; otherwise nothing changes |
| `MachineUpgrade.OnlyPostCheckHeals` | single_kernel_mongo/managers/upgrade.py:217-240 | no step but a unit's own post-upgrade check makes it healthy, and an upgrade leaves the unit marked upgrading |
| `MachineUpgrade.PostCheckBetweenUpgrades` | single_kernel_mongo/managers/upgrade.py:217-240 | in every unforced run, between the upgrades of a unit and of a lower one lies a post-upgrade check of the upper one |
| `MachineUpgrade.SecondUnitNeedsResume` | single_kernel_mongo/managers/upgrade.py:90-104 | in every unforced run after a refresh of a mongod, an upgrade of any unit but the first comes after a resume action |
| `MachineUpgrade.InvStep` | single_kernel_mongo/core/machine_upgrades.py:146-178 | every unforced step keeps the upgraded units a prefix of the list, all but the last healthy |
| `MachineUpgrade.InvRun` | single_kernel_mongo/core/machine_upgrades.py:146-178 | the prefix invariant holds after every unforced run |
| `MachineUpgrade.UpgradesInOrder` | single_kernel_mongo/core/machine_upgrades.py:103-178 | in every unforced run after a refresh, whichever unit upgrades next has only upgraded, healthy units above it and, if second or later, the operator's resume |
| `MachineUpgrade.UpgradeCompletes` | single_kernel_mongo/core/machine_upgrades.py:103-178 | from every settling state some unforced run of at most two steps per unit and one resume leads to every unit current and healthy |
| `MachineUpgrade.PrimaryStep` | single_kernel_mongo/core/machine_upgrades.py:151-165 | once started, the primary stays on the last unit until the last upgrade; a hand-over completes the upgrade |
| `MachineUpgrade.PrimaryMovesAtMostOnce` | single_kernel_mongo/core/machine_upgrades.py:151-165 | in every ordinary run the primary role changes hands at most once after the start, never when all units are upgraded, and a hand-over leaves every unit upgraded, so the new primary is not restarted again |
| `MachineUpgrade.OneHandoverPerUpgrade` | single_kernel_mongo/core/abstract_upgrades.py:418-437 | from a refresh on, wherever the primary was, it changes hands at most once after the first unit has upgraded, every unit is upgraded by then, and until then the primary is the last unit |
| `MachineUpgrade.HandoverIsTheLastUpgrade` | single_kernel_mongo/core/abstract_upgrades.py:827-843 | a hand-over happens in the upgrade of the last unit, to a unit that is upgraded and healthy |
| `MachineUpgrade.Charm.UpgradeThisUnit` | single_kernel_mongo/core/machine_upgrades.py:146-178 | steps down first if primary, gives up without a new primary, otherwise upgrades in place: the whole new state |
| `MachineUpgrade.Charm.ReconcileUpgrade` | single_kernel_mongo/core/abstract_upgrades.py:348-416 | the new state of a machine unit's upgrade hook, with the primary moved by the pre-check of the first unit |
| `MachineUpgrade.Charm.OnForceAction` | single_kernel_mongo/managers/upgrade.py:135-160 | the new state of the force action on a machine unit |
| `ReplicaSetConfig.FilterMembers` | single_kernel_mongo/utils/mongo_connection.py:282-286 | keeps exactly the members of other hosts, in order |
| `ReplicaSetConfig.MaxId` | single_kernel_mongo/utils/mongo_connection.py:306-308 | the largest id of the current members |
| `ReplicaSetConfig.DroppingMembers` | single_kernel_mongo/utils/mongo_connection.py:282-286 | removing hosts keeps exactly the other members, removes exactly those host names, and keeps ids and hosts distinct |
| `ReplicaSetConfig.MajoritiesMeet` | single_kernel_mongo/utils/mongo_connection.py:260-315 | every majority of a configuration shares a member with every majority of the next one submitted |
| `ReplicaSetConfig.TwoAtOnceSplits` | single_kernel_mongo/utils/mongo_connection.py:290-315 | adding two members at once would allow disjoint majorities |
| `Membership.ReplicaSet.constructor` | single_kernel_mongo/utils/mongo_connection.py:123-145 | the initial configuration numbers members by position and satisfies the invariants |
| `Membership.ReplicaSet.NoSplitElections` | single_kernel_mongo/utils/mongo_connection.py:260-315 | of all configurations a replica set ever accepted, majorities of neighbours share a member |
| `Membership.ReplicaSet.AddMember` | single_kernel_mongo/utils/mongo_connection.py:290-315 | refuses while a member syncs; else submits the next version with one member appended whose id is one above the largest, and whose host is new, so that a member syncs and the next addition is refused for now; goes through at a server at rest |
| `Membership.ReplicaSet.TryRemove` | single_kernel_mongo/utils/mongo_connection.py:260-288 | refuses while a member is being removed; else, after a step-down exactly if the host is the primary, submits the next version without exactly that host; goes through at a server at rest if another member stays, which it would not without the step-down |
| `Membership.ReplicaSet.RemoveMember` | single_kernel_mongo/utils/mongo_connection.py:254-288 | the retries end with exactly one accepted removal or an error and nothing changed; with the removal at a server at rest if another member stays |
| `Membership.ReplicaSet.ProcessUnremovedUnits` | single_kernel_mongo/managers/mongo.py:424-437 | removes only listed hosts that Juju does not know, one version each; all of them on a normal return, which is certain at a server at rest with a known member |
| `Membership.ReplicaSet.ProcessAddedUnits` | single_kernel_mongo/managers/mongo.py:444-459 | appends only Juju hosts that are not listed, one version each; all of them on a normal return, which is certain at a server at rest |
| `Membership.ReplicaSet.PerformSelfHealing` | single_kernel_mongo/managers/mongodb_operator.py:648-679 | removal then addition: a normal return is one of the healing runs, and leaves exactly the Juju hosts as members whenever the state before meets the exact condition; at a server at rest it does return so; every reconfiguration shrinks the symmetric difference by one and raises the version by one; at most one member syncs throughout |
| `Membership.StatusStaysConsistent` | single_kernel_mongo/utils/mongo_connection.py:299-304 | a reconfiguration that adds a host only while nobody syncs leaves at most one member in initial sync |
| `ReplicaSetRuns.HealingConvergesExactly` | single_kernel_mongo/managers/mongo.py:424-459 | every healing run that returns normally leaves exactly the wanted hosts as members if and only if beforehand no wanted host is listed without being a member, or something unwanted is listed |
| `ReplicaSetRuns.HealedExactlyWhenClean` | single_kernel_mongo/managers/mongo.py:444-459 | a given run converges if and only if no wanted host is listed without being a member when the second loop reads the members |
| `ReplicaSetRuns.StaleEntryIsMissed` | single_kernel_mongo/managers/mongo.py:449-453 | the smallest state in which self-healing returns normally and leaves a wanted host out |
| `Membership.HealingAccounting` | single_kernel_mongo/managers/mongo.py:424-459 | hosts still differing plus edits made equals hosts differing before |
| `Shards.GetDbSizeOnPrimaryShard` | single_kernel_mongo/utils/mongo_connection.py:626-645 | the bytes of the first line for the shard, 0 without one |
| `Shards.SizeIsFirstLine` | single_kernel_mongo/utils/mongo_connection.py:626-645 | the figure the moves are decided on is that of the first line for the shard |
| `Shards.GetShardWithMostAvailableSpace` | single_kernel_mongo/utils/mongo_connection.py:647-668 | the first line with strictly most space among other shards, or the empty name and -1 exactly when there is none |
| `Shards.Cluster.AddShard` | single_kernel_mongo/utils/mongo_connection.py:393-406 | adds the shard unless it is there or the server refuses; a failure changes nothing |
| `Shards.Cluster.PreRemoveShardChecks` | single_kernel_mongo/utils/mongo_connection.py:408-436 | missing shard, another shard draining, and a balancer that does not start are told apart exactly; success leaves the balancer on |
| `Shards.Cluster.RemoveShardOnce` | single_kernel_mongo/utils/mongo_connection.py:469-483 | an accepted command starts draining this shard, or drops it once it is empty; done if and only if the answer reports no chunks, failed if and only if the server refuses; no other shard changes |
| `Shards.Cluster.MoveOnePrimary` | single_kernel_mongo/utils/mongo_connection.py:551-589 | moves if and only if some other shard reports room for the size on the first line of the old primary and the server agrees; the target is the one with most space, which is in the cluster and not draining; otherwise too little space exactly if none has room, and nothing changed |
| `Shards.Cluster.MoveReported` | single_kernel_mongo/utils/mongo_connection.py:551-589 | the same in terms of what the server reports of shards of the cluster for the database |
| `Shards.Cluster.MovePrimaries` | single_kernel_mongo/utils/mongo_connection.py:551-589 | returns normally if and only if every given database can move, and then exactly those have left the shard; only they get another primary, one that is not draining |
| `Shards.Cluster.MovePrimaryAfterDrainingShard` | single_kernel_mongo/utils/mongo_connection.py:485-505 | returns normally if and only if the shard is gone already, or drains without chunks, has databases that all move, and the second command ends it; no other shard or database is touched |
| `Shards.Cluster.RemoveShard` | single_kernel_mongo/managers/sharding.py:339-356 | busy if and only if another shard drains, then nothing changes; done if and only if the shard was absent or one call can finish the removal, by an exact condition on cluster and answers; with nothing in its way the shard drains afterwards or is gone; only databases of the shard move, to shards that are not draining |
| `Shards.Cluster.RemoveUnrelated` | single_kernel_mongo/managers/sharding.py:305-331 | one round of the loop: done if and only if another shard drains, then the shard is as before, or one call finishes its removal |
| `Shards.Cluster.AddRelatedShard` | single_kernel_mongo/managers/sharding.py:277-303 | nothing without units; a refusal of authentication and a lost connection raise, any other refusal is only logged |
| `Shards.Cluster.AddShards` | single_kernel_mongo/managers/sharding.py:269-303 | returns normally if and only if no new related application with units raises; then exactly the accepted ones were added, which is all of them if and only if the server accepted each |
| `Shards.Cluster.RemoveShards` | single_kernel_mongo/managers/sharding.py:305-331 | shards with a relation and their databases are untouched; on success every shard left is unchanged and has a relation, or another shard was draining beforehand; a busy cluster never ends the loop; with one unrelated shard, success if and only if another drains or one call finishes its removal |
| `Secrets.RefinesPlainMap` | single_kernel_mongo/core/secrets.py:119-180 | after any sequence of sets and removes with non-empty values other than the tombstone, every read answers what a plain dictionary would |
| `Secrets.StaysStorable` | single_kernel_mongo/core/secrets.py:156-180 | no empty value ever enters the store |
| `Secrets.ScopesDoNotInterfere` | single_kernel_mongo/core/secrets.py:156-180 | operations on one scope leave the other scope's secret as it was |
| `Secrets.ReadBackExactly` | single_kernel_mongo/core/secrets.py:135-143 | a value is read back as written if and only if it is not the tombstone text |
| `Secrets.RemovalTakesEffectExactly` | single_kernel_mongo/core/secrets.py:166-180 | a removed key reads as absent if and only if its value was not empty |
| `Secrets.CachedSecret.Meta` | single_kernel_mongo/core/secrets.py:67-83 | found exactly when the secret exists, and remembered |
| `Secrets.CachedSecret.GetContent` | single_kernel_mongo/core/secrets.py:85-104 | the cached dictionary itself, fetched when empty, with exactly the content in Juju |
| `Secrets.CachedSecret.SetContent` | single_kernel_mongo/core/secrets.py:106-110 | Juju and the cache both hold the given dictionary afterwards, or nothing happened without a secret |
| `Secrets.UpdateInPlace` | single_kernel_mongo/core/secrets.py:161-164 | updating the shared dictionary and storing it changes one key of the stored secret and keeps cache and store equal |
| `Secrets.SecretCache.Get` | single_kernel_mongo/core/secrets.py:126-133 | a cached secret exists afterwards exactly if Juju has one; Juju is unchanged |
| `Secrets.SecretCache.GetForKey` | single_kernel_mongo/core/secrets.py:135-143 | answers the lookup in the Juju store, tombstones read as absent; Juju is unchanged |
| `Secrets.SecretCache.Set` | single_kernel_mongo/core/secrets.py:156-164 | the store changes in exactly this key, creating the secret if needed; the cache stays consistent |
| `Secrets.SecretCache.Add` | single_kernel_mongo/core/secrets.py:145-154 | a new secret with the given content |
| `Secrets.SecretCache.Remove` | single_kernel_mongo/core/secrets.py:166-180 | the store changes in exactly this key to the tombstone, or not at all if it was absent, empty or removed |
| `Tls.LabelsDiffer` | single_kernel_mongo/state/tls_state.py:56-69 | the ten secret labels of a unit are pairwise different |
| `Tls.SetThenGet` | single_kernel_mongo/state/tls_state.py:56-69 | a written TLS secret reads back, an empty or missing one reads as absent, all others are untouched |
| `Tls.StepKeeps` | single_kernel_mongo/managers/tls.py:75-126 | requests, renewals, arriving certificates (late, repeated or out of order), address changes, disabling and relation changes each keep certificates, requests and keys matched on both sides |
| `Tls.CertificateBelongsToKey` | single_kernel_mongo/managers/tls.py:75-126 | after any run from a unit without TLS secrets a stored certificate was signed for a request made for this side with the stored key, and unless one is awaited it is the certificate of the stored request |
| `Tls.PemFileHoldsMatchingPair` | single_kernel_mongo/managers/tls.py:172-195 | the PEM file of an enabled side is always the stored key followed by a certificate signed for a request made with that key |
| `Tls.CertificateTakenExactlyIfCurrent` | single_kernel_mongo/managers/tls.py:249-275 | a certificate is stored on the side its request was made for if and only if that request is still the stored one; otherwise the error for unknown certificates |
| `Tls.DisablingKeepsRequestsOpen` | single_kernel_mongo/managers/tls.py:197-208 | after disabling a certificate still on its way is stored in exactly the cases in which it would have been before |
| `Tls.StoredCertificatesRenew` | single_kernel_mongo/managers/tls.py:277-289 | renewing a non-blank certificate succeeds if and only if a side stores it, and never fails for want of a key or request |
| `Tls.RenewalCompletes` | single_kernel_mongo/managers/tls.py:100-126 | ask, sign and install form a run after which the new certificate is stored under the same key for the new addresses, nothing is awaited, and the other side is unchanged |
| `Tls.AddressesSettle` | single_kernel_mongo/managers/tls.py:330-362 | after the address check a side awaits a certificate, has none, or is certified for exactly the current addresses |
| `Tls.AsksExactlyWhenAddressesMoved` | single_kernel_mongo/managers/tls.py:330-362 | a side asks for a new certificate if and only if it is related, holds one, awaits none and its addresses differ; it then awaits one under the same key |
| `Tls.InstalledFiles` | single_kernel_mongo/managers/tls.py:172-195 | after a certificate is stored the side's CA file is the chain, or the CA without one, and its PEM file the key and that certificate; no files without the relation |
| `Tls.ExternalSideFirst` | single_kernel_mongo/managers/tls.py:249-289 | a certificate or expiry that fits both sides goes to the external one |
| `Tls.NoChainOfRenewals` | single_kernel_mongo/managers/tls.py:337-341 | checking again while a certificate is awaited, or with the same addresses, changes nothing |
| `Tls.TlsManager.Write` | single_kernel_mongo/state/tls_state.py:56-63 | the store after writing or removing one TLS secret through the cache |
| `Tls.TlsManager.GenerateCertificateRequest` | single_kernel_mongo/events/tls.py:88-93 | the whole new state: key and request replaced, certificate gone, side waiting |
| `Tls.TlsManager.RequestBoth` | single_kernel_mongo/events/tls.py:115-118 | both sides in turn |
| `Tls.TlsManager.GenerateNewCsr` | single_kernel_mongo/managers/tls.py:100-126 | new request under the stored key and the old request returned, or the error and no change |
| `Tls.TlsManager.SetCertificates` | single_kernel_mongo/managers/tls.py:249-275 | which side took the certificate and the whole new state, or the error and no change |
| `Tls.TlsManager.RenewExpiringCertificate` | single_kernel_mongo/managers/tls.py:277-289 | which side renews and the whole new state, or the error and no change |
| `Tls.TlsManager.UpdateTlsSans` | single_kernel_mongo/managers/tls.py:330-362 | one side's address check: the whole new state, the request it replaces if it asks, or the error |
| `Tls.TlsManager.DisableCertificatesForUnit` | single_kernel_mongo/managers/tls.py:197-202 | certificates, CAs and chains of both sides are gone, keys and requests stay |
| `Tls.TlsManager.GetTlsFiles` | single_kernel_mongo/managers/tls.py:172-195 | CA and PEM file of a side; nothing changes |
| `RelationData.UpdateIsOverride` | single_kernel_mongo/lib/charms/data_platform_libs/v0/data_interfaces.py:1618-1633 | in secrets mode an update is map override on the combined databag and secrets, in whatever order the groups are processed, and secrets mode is kept: no requested field is in the databag, URIs and secrets correspond, every secret holds only its own group's fields |
| `RelationData.GroupsUpdatedSays` | single_kernel_mongo/lib/charms/data_platform_libs/v0/data_interfaces.py:1517-1530 | processing some groups changes exactly their requested fields |
| `RelationData.ProviderReadsView` | single_kernel_mongo/lib/charms/data_platform_libs/v0/data_interfaces.py:1216-1252 | the provider reads exactly the combined dictionary, or the part asked for |
| `RelationData.ViewsAgreeExactlyWhenRegistered` | single_kernel_mongo/lib/charms/data_platform_libs/v0/data_interfaces.py:1802-1820 | requirer and provider read the same if and only if the requirer has labelled every secret |
| `RelationData.HandledSeesProvider` | single_kernel_mongo/lib/charms/data_platform_libs/v0/data_interfaces.py:3113-3118 | once relation-changed is handled the requirer reads exactly what the provider reads |
| `RelationData.RunIsPlainDictionary` | single_kernel_mongo/lib/charms/data_platform_libs/v0/data_interfaces.py:1156-1252 | after any run of updates and events the combined dictionary is what a plain dictionary would hold |
| `RelationData.BothSidesReadPlainDictionary` | single_kernel_mongo/lib/charms/data_platform_libs/v0/data_interfaces.py:1156-1252 | after any such run both sides read that dictionary, the requirer on its next event, and no requested field is in the databag |
| `RelationData.DatabagRelationStaysOnDatabag` | single_kernel_mongo/lib/charms/data_platform_libs/v0/data_interfaces.py:1169-1176 | a relation that began on the databag stays there: updates are plain databag updates and never touch secrets |
| `RelationData.DeletedGet` | single_kernel_mongo/lib/charms/data_platform_libs/v0/data_interfaces.py:1532-1569 | a field disappears if and only if it is not requested as secret or its group's secret holds every field to be deleted; secrets mode is kept |
| `RelationData.DeleteIsRemovalExactly` | single_kernel_mongo/lib/charms/data_platform_libs/v0/data_interfaces.py:1635-1644 | deleting equals removal from the combined dictionary if and only if every secret field that is present lies in a secret holding all the fields to be deleted |
| `RelationData.UpdateWithoutSecrets` | single_kernel_mongo/lib/charms/data_platform_libs/v0/data_interfaces.py:1618-1633 | without secrets mode, be it that no field was requested or that the relation began on the databag, an update is map override on the databag and touches no secret |
| `RelationData.DeleteWithoutSecrets` | single_kernel_mongo/lib/charms/data_platform_libs/v0/data_interfaces.py:1635-1644 | without secrets mode a delete removes exactly the fields from the databag and touches no secret |
| `RelationData.ReadWithoutSecrets` | single_kernel_mongo/lib/charms/data_platform_libs/v0/data_interfaces.py:1216-1252 | without secrets mode a fetch is the databag cut down to the fields asked for, or without URI fields if none was; the requirer reads the same while there is no secret |
| `RelationData.LostFieldsGoToDatabag` | single_kernel_mongo/lib/charms/data_platform_libs/v0/data_interfaces.py:1178-1194 | a requested field whose group's secret is lost is written to the databag, and no secret is made |
| `RelationData.UsualGroups` | single_kernel_mongo/lib/charms/data_platform_libs/v0/data_interfaces.py:955-961 | the groups of the usual secret fields, and the extra group for every other |
| `RelationProvider.ProviderData.GroupSecretFields` | single_kernel_mongo/lib/charms/data_platform_libs/v0/data_interfaces.py:1098-1110 | exactly the groups of requested fields, each once |
| `RelationProvider.ProviderData.AddOrUpdateRelationSecrets` | single_kernel_mongo/lib/charms/data_platform_libs/v0/data_interfaces.py:1466-1530 | the whole new state for one group; false exactly when a URI points at no secret |
| `RelationProvider.ProviderData.ProcessGroups` | single_kernel_mongo/lib/charms/data_platform_libs/v0/data_interfaces.py:1178-1194 | the groups in turn, and which of them failed |
| `RelationProvider.ProviderData.UpdateRelationData` | single_kernel_mongo/lib/charms/data_platform_libs/v0/data_interfaces.py:1618-1633 | the whole new databag and secrets, tied to the update over which the override result is proved; without secrets mode, databag override outright |
| `RelationProvider.ProviderData.DeleteRelationSecret` | single_kernel_mongo/lib/charms/data_platform_libs/v0/data_interfaces.py:1532-1569 | the whole new state for one group; false and no change exactly when some field is not in its secret |
| `RelationProvider.ProviderData.DeleteRelationData` | single_kernel_mongo/lib/charms/data_platform_libs/v0/data_interfaces.py:1635-1644 | the whole new databag and secrets, tied to the delete over which the exact condition is proved |
| `RelationEvents.DiffIsExact` | single_kernel_mongo/lib/charms/data_platform_libs/v0/data_interfaces.py:457-472 | added, changed and deleted are disjoint, name exactly what differs, and are empty if and only if the snapshot is unchanged |
| `RelationEvents.SnapshotIgnoresItself` | single_kernel_mongo/lib/charms/data_platform_libs/v0/data_interfaces.py:433-456 | the saved snapshot in a databag takes no part in a diff, every other field does |
| `RelationEvents.ReplayReproduces` | single_kernel_mongo/lib/charms/data_platform_libs/v0/data_interfaces.py:433-475 | replaying the diffs of any sequence of databags reproduces the fields of each |
| `RelationEvents.RequestedExactlyOnArrival` | single_kernel_mongo/lib/charms/data_platform_libs/v0/data_interfaces.py:2875-2888 | database_requested is emitted if and only if a leader sees the database field that the last event handled by a leader did not have |
| `RelationEvents.CreatedOnce` | single_kernel_mongo/lib/charms/data_platform_libs/v0/data_interfaces.py:3120-3139 | with credentials in a secret that stays, database_created is announced exactly at the first databag that has it |
| `RelationEvents.AnnouncedExactly` | single_kernel_mongo/lib/charms/data_platform_libs/v0/data_interfaces.py:3095-3160 | database_created, endpoints_changed and read_only_endpoints_changed are announced if and only if credentials arrive, else endpoints are new or different, else read-only ones are |
| `RelationEvents.Observer.Compare` | single_kernel_mongo/lib/charms/data_platform_libs/v0/data_interfaces.py:433-475 | the diff against the saved snapshot, which is replaced |
| `RelationEvents.Observer.OnRelationChanged` | single_kernel_mongo/lib/charms/data_platform_libs/v0/data_interfaces.py:2875-2888 | new snapshot and whether the event is emitted; a non-leader does nothing |
| `RelationAliases.AssignedKeepsAllocated` | single_kernel_mongo/lib/charms/data_platform_libs/v0/data_interfaces.py:3009-3043 | live relations keep pairwise different aliases from the list, the relation gets one, all others keep theirs |
| `RelationAliases.AssignsFirstFree` | single_kernel_mongo/lib/charms/data_platform_libs/v0/data_interfaces.py:3009-3043 | a relation that holds an alias keeps it, and one without gets the first of the list that no relation holds |
| `RelationAliases.RunsOutExactlyWhenAllHeld` | single_kernel_mongo/lib/charms/data_platform_libs/v0/data_interfaces.py:3029-3040 | no alias is left if and only if as many relations hold one as there are aliases |
| `RelationAliases.NeverRunsOut` | single_kernel_mongo/lib/charms/data_platform_libs/v0/data_interfaces.py:2985-2992 | over any run within the relation limit no assignment fails and all live relations hold different aliases |
| `RelationAliases.Requirer.AssignRelationAlias` | single_kernel_mongo/lib/charms/data_platform_libs/v0/data_interfaces.py:3009-3043 | the loop over relations picks the first alias nobody holds, or fails exactly when none is left |
| `Sysctl.MeaningConcat` | single_kernel_mongo/lib/charms/operator_libs_linux/v0/sysctl.py:282-286 | the second of two files read one after the other overrides the first |
| `Sysctl.PrintThenParse` | single_kernel_mongo/lib/charms/operator_libs_linux/v0/sysctl.py:206-211 | parsing a printed charm file gives the configuration back for printable keys and values |
| `Sysctl.IgnoredLineSaysNothing` | single_kernel_mongo/lib/charms/operator_libs_linux/v0/sysctl.py:274-288 | comments of both kinds, blank lines and lines without an equals sign set nothing |
| `Sysctl.OtherLineSets` | single_kernel_mongo/lib/charms/operator_libs_linux/v0/sysctl.py:274-288 | every other line sets what is before its first equals sign to what is after it, both stripped |
| `Text.StripExact` | single_kernel_mongo/lib/charms/operator_libs_linux/v0/sysctl.py:282-286 | stripping removes white space at both ends and only that |
| `Sysctl.MergedIsUnion` | single_kernel_mongo/lib/charms/operator_libs_linux/v0/sysctl.py:213-232 | files that agree merge into their union in whatever order they are read |
| `Sysctl.OrderIrrelevantExactlyIfAgreeing` | single_kernel_mongo/lib/charms/operator_libs_linux/v0/sysctl.py:222-230 | the merged file says the same for every order of reading if and only if the charm files agree |
| `SysctlConfig.RejectedExactlyOnConflict` | single_kernel_mongo/lib/charms/operator_libs_linux/v0/sysctl.py:190-204 | from a consistent directory a configuration is rejected if and only if another charm's file sets one of its keys to something else |
| `SysctlConfig.SuccessTakesEffect` | single_kernel_mongo/lib/charms/operator_libs_linux/v0/sysctl.py:150-178 | after an accepted, applied configuration the charm's file says exactly it, all other files are unchanged, and the merged file contains every entry |
| `SysctlConfig.RefusalKeepsFiles` | single_kernel_mongo/lib/charms/operator_libs_linux/v0/sysctl.py:161-176 | after a refusal by validation or by sysctl no charm file has changed |
| `SysctlConfig.RemovalTakesEffect` | single_kernel_mongo/lib/charms/operator_libs_linux/v0/sysctl.py:180-188 | after a removal the charm has no file, all other files are unchanged, and the merged file is written |
| `SysctlConfig.FilesSayLastConfigured` | single_kernel_mongo/lib/charms/operator_libs_linux/v0/sysctl.py:150-188 | over any run each charm's file says its last configuration that went through, and is absent after a removal |
| `SysctlConfig.ConfigureKeepsConsistent` | single_kernel_mongo/lib/charms/operator_libs_linux/v0/sysctl.py:150-178 | a configuration that succeeds, or fails before the charm has a file, keeps all files in agreement and the merged file their union |
| `SysctlConfig.RemoveKeepsConsistent` | single_kernel_mongo/lib/charms/operator_libs_linux/v0/sysctl.py:180-188 | removal keeps the rest in agreement and the merged file their union |
| `SysctlConfig.FailedReconfigureHarmlessExactlyIfCovered` | single_kernel_mongo/lib/charms/operator_libs_linux/v0/sysctl.py:161-178 | a failing second configuration keeps the merged file the union if and only if other files say every key of the charm's own |
| `SysctlConfig.UncoveredKeyLetsConflictIn` | single_kernel_mongo/lib/charms/operator_libs_linux/v0/sysctl.py:161-178 | after such a failure a newcomer may set an uncovered key differently: it is accepted and the charm files disagree |
| `SysctlConfig.MergedFileIsUnionOfCharms` | single_kernel_mongo/lib/charms/operator_libs_linux/v0/sysctl.py:150-288 | over any run of configurations and removals without a failing second configuration all files agree, and the merged file is their union in any order |
| `SysctlConfig.Config.LoadData` | single_kernel_mongo/lib/charms/operator_libs_linux/v0/sysctl.py:274-288 | the line loop yields what the merged file says |
| `SysctlConfig.Config.Validate` | single_kernel_mongo/lib/charms/operator_libs_linux/v0/sysctl.py:190-204 | exactly the keys wanted with another value |
| `SysctlConfig.Config.CreateCharmFile` | single_kernel_mongo/lib/charms/operator_libs_linux/v0/sysctl.py:206-211 | the charm's file becomes the printed configuration, nothing else changes |
| `SysctlConfig.Config.Merge` | single_kernel_mongo/lib/charms/operator_libs_linux/v0/sysctl.py:213-232 | the merged file becomes the concatenation of the charm files in some order, and is loaded |
| `SysctlConfig.Config.Configure` | single_kernel_mongo/lib/charms/operator_libs_linux/v0/sysctl.py:150-178 | the whole new directory and the error raised, if any; exactly on success the charm's file is the printed configuration, and no other file changes |
| `SysctlConfig.Config.Remove` | single_kernel_mongo/lib/charms/operator_libs_linux/v0/sysctl.py:180-188 | the whole new directory, in which the charm's file and no other is gone |
| `Names.LabelParsesExactly` | single_kernel_mongo/lib/charms/data_platform_libs/v0/data_interfaces.py:1065-1096 | a secret label gives relation name and id back, dots in the name or not, if and only if the group has no dot |
| `Names.LabelsDiffer` | single_kernel_mongo/lib/charms/data_platform_libs/v0/data_interfaces.py:1065-1069 | labels of different relations or dot-free groups differ |
| `Names.ShardEntryParsesExactly` | single_kernel_mongo/core/abstract_upgrades.py:712-719 | a printed shard entry gives shard name and host set back if and only if there are hosts |
| `Names.PodGivesUnitExactly` | single_kernel_mongo/managers/k8s.py:302-304 | pod name to unit name inverts unit name to pod name, dashes in the application name or not, if and only if the number has no dash |
| `Names.PodKeepsNumber` | single_kernel_mongo/utils/helpers.py:55-57 | a unit's number is recovered from its name, and its pod gives the unit back |

## Left out

- KubernetesConfirmation.OnlyTheHighestUpgrades: the source promises the hold for all runs, which is false; it is proved for exactly the runs that keep it.
- KubernetesForce.ForceBudget: the source promises the budget for all runs, which is false; it is proved under a guard that is shown to be exact.
- KubernetesForce.EachForceUpgradesAtMostOne: under the same exact guard.
- KubernetesCharm.Charm.OnStop: the step-down of a primary is not modelled on Kubernetes, nor a hook cut short before it ran.
- Membership.ReplicaSet.ProcessAddedUnits: Juju host names contain no colon; an IPv6 address would be cut by the host name parser.
- ReplicaSetRuns.HealingConvergesExactly: a replica set has at least one member, and host names contain no colon.
- Membership.ReplicaSet.PerformSelfHealing: does not model the leader, initialisation and upgrade guards around the two loops, nor the exporter and backup services.
- RelationData.UpdateIsOverride: fields whose name starts like a secret URI field are not written; Juju's own rules for empty or ill-named values are not modelled.
- RelationData.HandledSeesProvider: that a re-created secret with a new URI gets the old label is Juju's matter; runs have no deletions.
- RelationProvider.ProviderData.AddOrUpdateRelationSecrets: a URI in the databag whose secret is gone counts as not found, the branch the code has for it; Juju may raise instead. Lists of fields have no repeats.
- RelationAliases.NeverRunsOut: the alias list has no repeats and no empty alias.
- Sysctl.PrintThenParse: values are strings already; white space is ASCII.
- Names.LabelParsesExactly: ids are decimal digits; the other spellings that `int()` reads are not modelled, nor is looking the relation up.
- Tls.CertificateBelongsToKey: keys, requests and certificates are non-blank texts; X.509, base64 and the propagation of the CA to other relations are not modelled.
- Looking charm secrets up by URI when the label is unknown.
- The 120 second caching of Kubernetes reads: every hook reads afresh.
- The race between reading and writing the partition in two hooks at once, which the code concedes.
- A second refresh to another revision while a unit is in flight, and scaling during an upgrade.
- Version comparison in `is_compatible`: a flag.
- Election priorities: the reconfiguration in `set_replicaset_election_priority` is never sent, so nothing rests on it.
- Freshness of member ids over time: a new id is above all current ids only.
- The legacy labels and cached content of the data layer's own secret cache, peer relations, and Kafka and OpenSearch.
- Users, passwords, backups, monitoring, statuses, logging, log rotation and licences.
