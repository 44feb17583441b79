/**
 The confirmation hold: after a refresh of a mongod application, only the highest unit is upgraded
 until the operator runs the resume action.  The hold has two leaks, both characterised here.
 */
module KubernetesConfirmation {
  import opened Wrappers
  import opened UpgradeDecision
  import opened KubernetesUpgrade
  import opened KubernetesSafety

  predicate IsAction(step: Step) {
    step.Resume? || step.ForceStart?
  }

  /** A refreshed mongod application of at least two units: every pod up, none current. */
  predicate JustRefreshed(s: StatefulSet) {
    Valid(s) && s.kind == Mongod && |s.pods| >= 2 && AllUp(s)
    && forall u :: 0 <= u < |s.pods| ==> !Current(s, u)
  }

  /** No unit below the highest has left the old revision. */
  predicate OthersWaiting(s: StatefulSet)
    requires Valid(s)
  {
    forall u :: 0 <= u < Top(s) ==> !Current(s, u)
  }

  /** Before the top unit stops, a lower unit may be away only below the partition. */
  predicate Pending(s: StatefulSet)
    requires Valid(s)
  {
    TopPending(s) && forall u :: 0 <= u < Top(s) && !s.pods[u].up ==> u < s.partition
  }

  /** The hold: afterwards the partition keeps the lower units where they are, even if they restart. */
  predicate Held(s: StatefulSet) {
    Valid(s) && s.kind == Mongod && |s.pods| >= 2 && AwayMeansRestarting(s)
    && OthersWaiting(s) && (Pending(s) || Top(s) <= s.partition)
  }

  /**
   What the environment may not do: restart a lower unit while the partition does not cover it, and
   let the leader reconcile at an instant when no outdated pod is up.
   */
  predicate Guarded(s: StatefulSet, step: Step) {
    match step
    case StopUnrelated(u) => u < |s.pods| - 1 ==> u < s.partition
    case LeaderReconcile => InProgress(s)
    case _ => true
  }

  predicate GuardedRun(s: StatefulSet, run: seq<Step>)
    requires IsRun(s, run)
    decreases |run|
  {
    run == [] || (Guarded(s, run[0]) && GuardedRun(Apply(s, run[0]), run[1..]))
  }

  predicate WithinOneUpgrade(run: seq<Step>) {
    forall i :: 0 <= i < |run| ==> !run[i].Refresh? && !IsAction(run[i])
  }

  /** While only the top unit may be current, a reconcile without an action chooses the top unit. */
  lemma ReconcileChoosesTop(s: StatefulSet)
    requires Held(s) && InProgress(s)
    ensures var d := Determine(s.kind, Units(s), s.app, false, false);
            d == Chosen(Top(s)) || d.MissingVersion?
  {
    ViewOf(s, Top(s));
    ViewOf(s, (Top(s) - 1) as nat);
    assert !Clear(Units(s)[1], s.app, false);
  }

  lemma HeldStep(s: StatefulSet, step: Step)
    requires Held(s) && Enabled(s, step) && !step.Refresh? && !IsAction(step)
    requires Guarded(s, step)
    ensures Held(Apply(s, step))
  {
    var t := Apply(s, step);
    match step
    case LeaderReconcile =>
      ReconcileFrame(s, false, false);
      ReconcileChoosesTop(s);
      assert forall x :: 0 <= x < Top(s) ==> Current(t, x) == Current(s, x);
    case StopForUpgrade(u) =>
      assert forall x :: 0 <= x < Top(s) ==> Current(t, x) == Current(s, x);
    case StopUnrelated(u) =>
      assert forall x :: 0 <= x < Top(s) ==> Current(t, x) == Current(s, x);
    case Start(u) =>
      assert u < Top(s) ==> u < s.partition;
      assert forall x :: 0 <= x < Top(s) && x != u ==> Current(t, x) == Current(s, x);
    case Heal(u) =>
      assert forall x :: 0 <= x < Top(s) ==> Current(t, x) == Current(s, x);
  }

  /** The hold over whole runs: however many stops, starts, heals and reconciles happen. */
  lemma {:induction false} OnlyTheHighestUpgrades(s: StatefulSet, run: seq<Step>)
    requires JustRefreshed(s) || Held(s)
    requires IsRun(s, run) && WithinOneUpgrade(run) && GuardedRun(s, run)
    ensures Held(After(s, run))
    decreases |run|
  {
    if run != [] {
      var step := run[0];
      assert !step.Refresh? && !IsAction(step);
      HeldStep(s, step);
      OnlyTheHighestUpgrades(Apply(s, step), run[1..]);
    }
  }

  // ---- The guard is exact --------------------------------------------------------------------

  /** The hold survives whatever guarded steps follow: no lower unit leaves the old revision. */
  ghost predicate HeldForever(s: StatefulSet) {
    forall run | IsRun(s, run) && WithinOneUpgrade(run) && GuardedRun(s, run) ::
      Valid(After(s, run)) && OthersWaiting(After(s, run))
  }

  lemma HeldStaysHeld(s: StatefulSet)
    requires Held(s)
    ensures HeldForever(s)
  {
    forall run | IsRun(s, run) && WithinOneUpgrade(run) && GuardedRun(s, run)
      ensures Valid(After(s, run)) && OthersWaiting(After(s, run))
    {
      OnlyTheHighestUpgrades(s, run);
    }
  }

  /** A lower pod that is away and not below the partition ends the hold by coming back. */
  lemma ComingBackEndsHold(s: StatefulSet, u: nat)
    requires Valid(s) && u < Top(s) && !s.pods[u].up && s.partition <= u
    ensures !HeldForever(s)
  {
    var run, t := [Start(u)], Apply(s, Start(u));
    assert run[1..] == [] && IsRun(t, []) && GuardedRun(t, []);
    assert IsRun(s, run) && WithinOneUpgrade(run) && GuardedRun(s, run);
    assert After(t, []) == t && After(s, run) == t;
    assert Current(t, u);
  }

  /** Leak one: with no outdated pod up, the leader's reconcile takes the hold off, and only then. */
  lemma ReconcileKeepsHoldExactlyInProgress(s: StatefulSet)
    requires Held(s) && Enabled(s, LeaderReconcile)
    ensures HeldForever(Apply(s, LeaderReconcile)) <==> InProgress(s)
  {
    if InProgress(s) {
      HeldStep(s, LeaderReconcile);
      HeldStaysHeld(Apply(s, LeaderReconcile));
    } else {
      InProgressMeans(s);
      assert !s.pods[0].up;
      ComingBackEndsHold(Apply(s, LeaderReconcile), 0);
    }
  }

  /** Leak two: a lower unit restarts in whatever held state; the hold survives exactly if the partition covers it. */
  lemma RestartKeepsHoldExactlyWhenCovered(s: StatefulSet, u: nat)
    requires Held(s) && Enabled(s, StopUnrelated(u)) && u < Top(s)
    ensures HeldForever(Apply(s, StopUnrelated(u))) <==> u < s.partition
  {
    if u < s.partition {
      HeldStep(s, StopUnrelated(u));
      HeldStaysHeld(Apply(s, StopUnrelated(u)));
    } else {
      ComingBackEndsHold(Apply(s, StopUnrelated(u)), u);
    }
  }

  /** Of all steps of one upgrade, without actions, exactly the unguarded ones end the hold. */
  lemma HoldKeptExactlyWhenGuarded(s: StatefulSet, step: Step)
    requires Held(s) && Enabled(s, step) && !step.Refresh? && !IsAction(step)
    ensures HeldForever(Apply(s, step)) <==> Guarded(s, step)
    ensures Guarded(s, step) ==> Held(Apply(s, step))
  {
    if Guarded(s, step) {
      HeldStep(s, step);
      HeldStaysHeld(Apply(s, step));
    } else if step.LeaderReconcile? {
      ReconcileKeepsHoldExactlyInProgress(s);
    } else {
      RestartKeepsHoldExactlyWhenCovered(s, step.unit);
    }
  }

  /** Every state of a run keeps the hold. */
  ghost predicate HeldThroughout(s: StatefulSet, run: seq<Step>)
    requires IsRun(s, run)
    decreases |run|
  {
    HeldForever(s) && (run == [] || HeldThroughout(Apply(s, run[0]), run[1..]))
  }

  /** Over whole runs: the hold is kept throughout a run if and only if every step of it is guarded. */
  lemma {:induction false} RunHoldsExactlyWhenGuarded(s: StatefulSet, run: seq<Step>)
    requires JustRefreshed(s) || Held(s)
    requires IsRun(s, run) && WithinOneUpgrade(run)
    ensures HeldThroughout(s, run) <==> GuardedRun(s, run)
    decreases |run|
  {
    HeldStaysHeld(s);
    if run != [] {
      var step := run[0];
      assert !step.Refresh? && !IsAction(step);
      HoldKeptExactlyWhenGuarded(s, step);
      if Guarded(s, step) {
        RunHoldsExactlyWhenGuarded(Apply(s, step), run[1..]);
      }
    }
  }

  // ---- The leaks are reachable -----------------------------------------------------------------

  lemma TwoSteps(s: StatefulSet, a: Step, b: Step)
    requires Enabled(s, a) && Enabled(Apply(s, a), b)
    ensures IsRun(s, [a, b]) && After(s, [a, b]) == Apply(Apply(s, a), b)
  {
    var t := Apply(s, a);
    assert [a, b][1..] == [b] && [b][1..] == [];
    assert IsRun(Apply(t, b), []);
    assert IsRun(t, [b]) && After(t, [b]) == Apply(t, b);
  }

  /** After that reconcile every lower unit comes back upgraded, without any confirmation. */
  lemma UnattendedReconcileReleases(s: StatefulSet, u: nat)
    requires Held(s) && LeaderUp(s) && !InProgress(s) && u < Top(s)
    ensures var run := [LeaderReconcile, Start(u)];
            && IsRun(s, run)
            && var t := After(s, run); |t.pods| == |s.pods| && Current(t, u)
  {
    InProgressMeans(s);
    assert !s.pods[u].up;
    TwoSteps(s, LeaderReconcile, Start(u));
  }

  /**
   In every held state a lower unit that restarts comes back upgraded exactly when the partition does not cover
   it.
   */
  lemma EarlyRestartReleasesExactlyWhenUncovered(s: StatefulSet, u: nat)
    requires Held(s) && u < Top(s) && s.pods[u].up
    ensures var run := [StopUnrelated(u), Start(u)];
            && IsRun(s, run)
            && var t := After(s, run); |t.pods| == |s.pods| && (Current(t, u) <==> s.partition <= u)
  {
    TwoSteps(s, StopUnrelated(u), Start(u));
  }

  /** All pods below `k` go away, as they are covered by the partition. */
  lemma {:induction false} StopAllBelow(s: StatefulSet, k: nat) returns (run: seq<Step>)
    requires k < |s.pods| && k <= s.partition && forall u :: 0 <= u < k ==> s.pods[u].up
    ensures IsRun(s, run) && GuardedRun(s, run) && WithinOneUpgrade(run)
    ensures forall i :: 0 <= i < |run| ==> run[i].StopUnrelated?
    ensures var t := After(s, run);
            && t == s.(pods := t.pods) && |t.pods| == |s.pods|
            && (forall u :: 0 <= u < k ==> t.pods[u] == s.pods[u].(up := false, state := Some(Restarting)))
            && (forall u :: k <= u < |s.pods| ==> t.pods[u] == s.pods[u])
    decreases k
  {
    if k == 0 {
      run := [];
    } else {
      var step := StopUnrelated(k - 1);
      var rest := StopAllBelow(Apply(s, step), k - 1);
      run := [step] + rest;
      assert run[1..] == rest;
    }
  }

  /** The top unit upgraded, healthy or not, and every other pod away: a leader, and no outdated pod that is up. */
  predicate TopAlone(s: StatefulSet, healthy: bool) {
    && Valid(s) && s.kind == Mongod && |s.pods| >= 2 && s.partition == Top(s)
    && s.pods[Top(s)].up && Current(s, Top(s)) && IsHealthy(s, Top(s)) == healthy
    && forall u :: 0 <= u < Top(s) ==> !s.pods[u].up && !Current(s, u) && s.pods[u].state == Some(Restarting)
  }

  lemma TopUpgraded(s: StatefulSet, healthy: bool) returns (run: seq<Step>)
    requires JustRefreshed(s) && s.partition <= Top(s)
    ensures IsRun(s, run) && GuardedRun(s, run) && WithinOneUpgrade(run)
    ensures var t := After(s, run);
            && t == s.(partition := Top(s), pods := t.pods) && |t.pods| == |s.pods|
            && t.pods[Top(s)] == Pod(s.app, true, if healthy then Some(Healthy) else Some(Restarting))
            && forall u :: 0 <= u < Top(s) ==> t.pods[u] == s.pods[u]
  {
    var top: nat := Top(s);
    TwoSteps(s, StopForUpgrade(top), Start(top));
    var t := After(s, [StopForUpgrade(top), Start(top)]);
    run := [StopForUpgrade(top), Start(top)];
    assert run[1..] == [Start(top)] && [Start(top)][1..] == [];
    assert GuardedRun(t, []) && GuardedRun(Apply(s, run[0]), [Start(top)]);
    if healthy {
      assert [Heal(top)][1..] == [] && IsRun(t, [Heal(top)]) && GuardedRun(t, [Heal(top)]);
      assert After(Apply(t, Heal(top)), []) == Apply(t, Heal(top)) && After(t, [Heal(top)]) == Apply(t, Heal(top));
      GuardedConcat(s, run, [Heal(top)]);
      run := run + [Heal(top)];
    }
  }

  lemma {:induction false} GuardedConcat(s: StatefulSet, a: seq<Step>, b: seq<Step>)
    requires IsRun(s, a) && GuardedRun(s, a) && IsRun(After(s, a), b) && GuardedRun(After(s, a), b)
    ensures IsRun(s, a + b) && After(s, a + b) == After(After(s, a), b) && GuardedRun(s, a + b)
    decreases |a|
  {
    RunConcat(s, a, b);
    if a == [] {
      assert a + b == b;
    } else {
      assert (a + b)[0] == a[0] && (a + b)[1..] == a[1..] + b;
      GuardedConcat(Apply(s, a[0]), a[1..], b);
    }
  }

  /** From a refresh, by guarded steps alone: the top unit is upgraded and every other pod is then away for a moment. */
  lemma TopAloneIsReachable(s: StatefulSet, healthy: bool) returns (run: seq<Step>)
    requires JustRefreshed(s) && s.partition <= Top(s)
    ensures IsRun(s, run) && GuardedRun(s, run) && WithinOneUpgrade(run)
    ensures var t := After(s, run); |t.pods| == |s.pods| && t.app == s.app && TopAlone(t, healthy)
  {
    var first := TopUpgraded(s, healthy);
    var t := After(s, first);
    var second := StopAllBelow(t, Top(s));
    GuardedConcat(s, first, second);
    run := first + second;
    var alone := After(s, run);
    forall u | 0 <= u < Top(s)
      ensures !alone.pods[u].up && !Current(alone, u) && alone.pods[u].state == Some(Restarting)
    {
      assert !Current(s, u) && alone.pods[u].rev == s.pods[u].rev;
    }
  }

  lemma TopAloneIsUnguarded(s: StatefulSet, healthy: bool)
    requires TopAlone(s, healthy)
    ensures Held(s) && Enabled(s, LeaderReconcile) && !InProgress(s)
  {
    InProgressMeans(s);
    assert s.pods[Top(s)].up;
  }

  /** So the first leak happens: from every refresh some run without confirmation upgrades a lower unit. */
  lemma ConfirmationLeakIsReachable(s: StatefulSet, u: nat) returns (run: seq<Step>)
    requires JustRefreshed(s) && s.partition <= Top(s) && u < Top(s)
    ensures IsRun(s, run) && WithinOneUpgrade(run)
    ensures |After(s, run).pods| == |s.pods| && Current(After(s, run), u)
  {
    var first := TopAloneIsReachable(s, true);
    var t := After(s, first);
    TopAloneIsUnguarded(t, true);
    UnattendedReconcileReleases(t, u);
    RunConcat(s, first, [LeaderReconcile, Start(u)]);
    run := first + [LeaderReconcile, Start(u)];
  }
}
