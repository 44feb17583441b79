/**
 The hooks and actions as the charm executes them: fields updated in place.  Every method is tied
 to the steps of `KubernetesUpgrade`, over which the run theorems are proved.
 */
module KubernetesCharm {
  import opened Wrappers
  import opened UpgradeDecision
  import opened KubernetesUpgrade

  /** What a unit finds when its `_reconcile_upgrade` hook runs. */
  datatype HookContext = HookContext(leader: bool, duringUpgrade: bool, compatible: bool, ready: bool)

  /** The databag write of the hook, before the leader's part. */
  function AfterHealthCheck(s: StatefulSet, u: nat, c: HookContext): StatefulSet
    requires u < |s.pods|
  {
    if !c.duringUpgrade && c.ready then MarkHealthy(s, u) else s
  }

  /** The version lookup of the leader raises: the hook fails, and Juju discards what it wrote to databags. */
  predicate HookFails(s: StatefulSet, u: nat, c: HookContext)
    requires u < |s.pods|
  {
    c.leader && Reconcile(AfterHealthCheck(s, u, c), false, false).1 == KeyError
  }

  /** The steps one `_reconcile_upgrade` hook of unit `u` amounts to. */
  function HookSteps(s: StatefulSet, u: nat, c: HookContext): seq<Step>
    requires u < |s.pods|
  {
    if (s.pods[u].state == Some(Restarting) && !c.compatible) || HookFails(s, u, c) then []
    else
      (if !c.duringUpgrade && c.ready then [Heal(u)] else []) + (if c.leader then [LeaderReconcile] else [])
  }

  class Charm {
    const kind: CharmKind
    var app: Revision
    var previous: Revision
    var partition: nat
    var pods: seq<Pod>

    function Snapshot(): (s: StatefulSet)
      reads this
      ensures s.pods == pods
    {
      StatefulSet(kind, app, previous, partition, pods)
    }

    constructor (kind: CharmKind, app: Revision, previous: Revision, pods: seq<Pod>)
      ensures Snapshot() == StatefulSet(kind, app, previous, 0, pods)
    {
      this.kind := kind;
      this.app := app;
      this.previous := previous;
      this.partition := 0;
      this.pods := pods;
    }

    method ReconcilePartition(fromEvent: bool, force: bool) returns (outcome: Outcome)
      modifies this`partition
      ensures (Snapshot(), outcome) == Reconcile(old(Snapshot()), fromEvent, force)
    {
      var forced := if kind == Mongod then fromEvent && force else fromEvent;
      var units := Units(Snapshot());
      var verdict := DeterminePartition(kind, units, app, fromEvent, forced);
      if verdict.MissingVersion? {
        return KeyError;
      }
      if fromEvent {
        if |units| < 2 {
          return AssertionFailed;
        }
        if verdict.partition > units[1].number {
          return ActionFailed;
        }
      }
      if verdict.partition < partition {
        partition := verdict.partition;
      }
      return Done;
    }

    /** Without the upgrade relation the hook ends after raising the partition. */
    method OnStop(u: nat, related: bool)
      requires u < |pods|
      modifies this`partition, this`pods
      ensures related ==> Snapshot() == StopHook(old(Snapshot()), u)
      ensures !related ==>
                Snapshot() == StopHook(old(Snapshot()), u).(pods := old(pods)[u := old(pods)[u].(up := false)])
    {
      if partition < u {
        partition := u;
      }
      if related {
        pods := pods[u := pods[u].(state := Some(Restarting))];
      }
      pods := pods[u := pods[u].(up := false)];
    }

    /** `_reconcile_upgrade` and `_on_kubernetes_always` on unit `u`. */
    method ReconcileUpgrade(u: nat, c: HookContext) returns (outcome: Outcome)
      requires u < |pods| && pods[u].up
      modifies this`partition, this`pods
      ensures IsRun(old(Snapshot()), HookSteps(old(Snapshot()), u, c))
      ensures Snapshot() == After(old(Snapshot()), HookSteps(old(Snapshot()), u, c))
      ensures outcome == KeyError <==>
                !(old(pods)[u].state == Some(Restarting) && !c.compatible) && HookFails(old(Snapshot()), u, c)
      ensures pods == if outcome != KeyError && !c.duringUpgrade && c.ready
                         && (old(pods)[u].state != Some(Restarting) || c.compatible)
                      then old(pods)[u := old(pods)[u].(state := Some(Healthy))] else old(pods)
      ensures partition == if outcome != KeyError && c.leader
                              && (old(pods)[u].state != Some(Restarting) || c.compatible)
                           then Reconcile(old(Snapshot()).(pods := pods), false, false).0.partition
                           else old(partition)
    {
      RunsOfHooks(Snapshot(), u, c);
      outcome := Done;
      if pods[u].state == Some(Restarting) && !c.compatible {
        return;
      }
      var databags := pods;
      if !c.duringUpgrade && c.ready {
        pods := pods[u := pods[u].(state := Some(Healthy))];
      }
      if c.leader {
        outcome := ReconcilePartition(false, false);
        if outcome == KeyError {
          pods := databags;
        }
      }
    }

    method OnResumeAction(force: bool) returns (outcome: Outcome)
      modifies this`partition
      ensures (Snapshot(), outcome) == ResumeAction(old(Snapshot()), force)
    {
      if !UpgradeInProgress(Units(Snapshot()), app) {
        return ActionFailed;
      }
      outcome := ReconcilePartition(true, force);
    }

    method OnForceAction() returns (outcome: Outcome)
      modifies this`partition
      ensures (Snapshot(), outcome) == ForceAction(old(Snapshot()))
    {
      if !UpgradeInProgress(Units(Snapshot()), app) {
        return ActionFailed;
      }
      if kind == Mongod && !(partition < |pods| - 1) {
        return ActionFailed;
      }
      outcome := ReconcilePartition(true, true);
    }
  }

  lemma RunsOfHooks(s: StatefulSet, u: nat, c: HookContext)
    requires u < |s.pods| && s.pods[u].up
    ensures IsRun(s, HookSteps(s, u, c))
    ensures After(s, HookSteps(s, u, c)) ==
            if (s.pods[u].state == Some(Restarting) && !c.compatible) || HookFails(s, u, c) then s
            else if c.leader then Reconcile(AfterHealthCheck(s, u, c), false, false).0
            else AfterHealthCheck(s, u, c)
  {
    var t := MarkHealthy(s, u);
    assert s.pods[u].up && t.pods[u].up;
    assert Enabled(s, LeaderReconcile) && Enabled(t, LeaderReconcile);
    var r := Apply(s, LeaderReconcile);
    var tr := Apply(t, LeaderReconcile);
    assert IsRun(s, []) && IsRun(t, []) && IsRun(r, []) && IsRun(tr, []);
    assert [LeaderReconcile][1..] == [] && [Heal(u)][1..] == [];
    assert IsRun(s, [LeaderReconcile]) && IsRun(t, [LeaderReconcile]) && IsRun(s, [Heal(u)]);
    assert ([Heal(u)] + [LeaderReconcile])[1..] == [LeaderReconcile];
    assert [] + [LeaderReconcile] == [LeaderReconcile];
    assert [Heal(u)] + [] == [Heal(u)];
    assert IsRun(s, [Heal(u)] + [LeaderReconcile]);
  }
}
