/**
 The force budget: while some upgraded unit stays unhealthy, each forced action lets at most one
 further unit below it be upgraded.
 */
module KubernetesForce {
  import opened Wrappers
  import opened UpgradeDecision
  import opened KubernetesUpgrade
  import opened KubernetesSafety
  import opened KubernetesConfirmation

  /** How many outdated units below `j` the partition lets go. */
  function OpenBelow(s: StatefulSet, j: nat): nat
    requires j <= |s.pods|
  {
    if j == 0 then 0
    else OpenBelow(s, j - 1) + if s.partition <= j - 1 && !Current(s, j - 1) then 1 else 0
  }

  /** Step `step` puts a unit below `j` on the app revision. */
  predicate Upgrades(s: StatefulSet, step: Step, j: nat)
    requires Enabled(s, step)
  {
    step.Start? && step.unit < j && !Current(s, step.unit) && s.partition <= step.unit
  }

  function UpgradesBelow(s: StatefulSet, run: seq<Step>, j: nat): nat
    requires IsRun(s, run)
    decreases |run|
  {
    if run == [] then 0
    else (if Upgrades(s, run[0], j) then 1 else 0) + UpgradesBelow(Apply(s, run[0]), run[1..], j)
  }

  function ForcedActions(kind: CharmKind, run: seq<Step>): nat {
    if run == [] then 0
    else (if Forces(kind, run[0]) then 1 else 0) + ForcedActions(kind, run[1..])
  }

  predicate Stuck(s: StatefulSet, j: nat) {
    j < |s.pods| && !IsHealthy(s, j)
  }

  /**
   The leader reconciles at a moment when an outdated pod is up, or when nothing below `j` and the
   partition is outdated.
   */
  predicate BudgetGuard(s: StatefulSet, j: nat)
    requires j <= |s.pods|
  {
    InProgress(s) || forall u :: 0 <= u < j && u < s.partition ==> Current(s, u)
  }

  /** `j` stays unhealthy throughout, and every reconcile of the leader is guarded. */
  predicate StuckRun(s: StatefulSet, run: seq<Step>, j: nat)
    requires IsRun(s, run)
    decreases |run|
  {
    Stuck(s, j) && (run == [] || (
      !run[0].Refresh? && (run[0].LeaderReconcile? ==> BudgetGuard(s, j))
      && StuckRun(Apply(s, run[0]), run[1..], j)))
  }

  lemma {:induction false} OpenSame(s: StatefulSet, t: StatefulSet, j: nat)
    requires |s.pods| == |t.pods| && j <= |s.pods|
    requires s.partition <= t.partition
    requires forall u :: 0 <= u < j && t.partition <= u && !Current(t, u) ==> !Current(s, u)
    ensures OpenBelow(t, j) <= OpenBelow(s, j)
  {
    if j > 0 { OpenSame(s, t, j - 1); }
  }

  lemma {:induction false} OpenAfterUpgrade(s: StatefulSet, u: nat, j: nat)
    requires u < |s.pods| && j <= |s.pods|
    requires s.partition <= u && !Current(s, u)
    ensures OpenBelow(StartPod(s, u), j) + (if u < j then 1 else 0) == OpenBelow(s, j)
  {
    if j > 0 { OpenAfterUpgrade(s, u, j - 1); }
  }

  lemma {:induction false} NothingOpen(s: StatefulSet, j: nat)
    requires j <= |s.pods| && j <= s.partition
    ensures OpenBelow(s, j) == 0
  {
    if j > 0 { NothingOpen(s, j - 1); }
  }

  lemma {:induction false} AtMostOneOpen(s: StatefulSet, j: nat)
    requires j <= |s.pods|
    requires forall u :: s.partition < u < j ==> Current(s, u)
    ensures OpenBelow(s, j) <= 1
  {
    if j > 0 {
      if s.partition < j - 1 { AtMostOneOpen(s, j - 1); }
      else { NothingOpen(s, j - 1); }
    }
  }

  /** Lowering the partition past units that are current opens nothing. */
  lemma {:induction false} OpenLowered(s: StatefulSet, t: StatefulSet, j: nat)
    requires t == s.(partition := t.partition) && t.partition <= s.partition && j <= |s.pods|
    ensures OpenBelow(s, j) <= OpenBelow(t, j)
    ensures OpenBelow(t, j) <= OpenBelow(s, j) <==>
            forall u :: t.partition <= u < s.partition && u < j ==> Current(s, u)
  {
    if j > 0 {
      OpenLowered(s, t, j - 1);
      assert Current(t, j - 1) == Current(s, j - 1);
    }
  }

  /** One reconcile opens nothing below a stuck unit unless forced, and then at most one unit. */
  lemma ReconcileOpens(s: StatefulSet, fromEvent: bool, force: bool, j: nat)
    requires Stuck(s, j) && InProgress(s)
    ensures var t := Reconcile(s, fromEvent, force).0;
            OpenBelow(t, j) <= OpenBelow(s, j) + if EffectiveForce(s.kind, fromEvent, force) then 1 else 0
  {
    var t := Reconcile(s, fromEvent, force).0;
    ReconcileFrame(s, fromEvent, force);
    if t.partition < s.partition {
      if EffectiveForce(s.kind, fromEvent, force) {
        forall u | t.partition < u < j ensures Current(t, u) {
          ForcedBound(s, t.partition, u);
        }
        AtMostOneOpen(t, j);
      } else {
        UnforcedBound(s, fromEvent, t.partition, j);
        NothingOpen(t, j);
      }
    } else {
      assert t == s;
    }
  }

  /** The leader's own reconcile opens nothing below a stuck unit if and only if it is guarded. */
  lemma ReconcileOpensNothingExactlyWhenGuarded(s: StatefulSet, j: nat)
    requires Stuck(s, j) && Enabled(s, LeaderReconcile)
    ensures OpenBelow(Apply(s, LeaderReconcile), j) <= OpenBelow(s, j) <==> BudgetGuard(s, j)
  {
    if InProgress(s) {
      ReconcileOpens(s, false, false, j);
    } else {
      OpenLowered(s, Apply(s, LeaderReconcile), j);
    }
  }

  lemma StepSpendsBudget(s: StatefulSet, step: Step, j: nat)
    requires Enabled(s, step) && !step.Refresh? && Stuck(s, j)
    requires step.LeaderReconcile? ==> BudgetGuard(s, j)
    ensures |Apply(s, step).pods| == |s.pods| && Apply(s, step).kind == s.kind
    ensures (if Upgrades(s, step, j) then 1 else 0) + OpenBelow(Apply(s, step), j)
         <= OpenBelow(s, j) + if Forces(s.kind, step) then 1 else 0
  {
    var t := Apply(s, step);
    match step
    case StopForUpgrade(u) => OpenSame(s, t, j);
    case StopUnrelated(u) => OpenSame(s, t, j);
    case Heal(u) => OpenSame(s, t, j);
    case Start(u) =>
      if s.partition <= u && !Current(s, u) {
        OpenAfterUpgrade(s, u, j);
      } else {
        OpenSame(s, t, j);
      }
    case LeaderReconcile => ReconcileOpensNothingExactlyWhenGuarded(s, j);
    case Resume(force) => if InProgress(s) { ReconcileOpens(s, true, force, j); }
    case ForceStart =>
      if InProgress(s) { ReconcileOpens(s, true, true, j); }
  }

  /** The budget over whole runs. */
  lemma {:induction false} ForceBudget(s: StatefulSet, run: seq<Step>, j: nat)
    requires IsRun(s, run) && StuckRun(s, run, j)
    ensures UpgradesBelow(s, run, j) <= OpenBelow(s, j) + ForcedActions(s.kind, run)
    decreases |run|
  {
    if run != [] {
      StepSpendsBudget(s, run[0], j);
      ForceBudget(Apply(s, run[0]), run[1..], j);
    }
  }

  /**
   In a state the safety invariant allows, where `j` was upgraded and the next outdated unit `k`
   below it is up, the budget is the number of forced actions alone.
   */
  lemma EachForceUpgradesAtMostOne(s: StatefulSet, run: seq<Step>, j: nat, k: nat)
    requires Inv(s) && !TopPending(s) && IsRun(s, run) && StuckRun(s, run, j)
    requires Current(s, j) || !s.pods[j].up
    requires k < j && s.pods[k].up && !Current(s, k) && forall u :: k < u < j ==> Current(s, u)
    ensures UpgradesBelow(s, run, j) <= ForcedActions(s.kind, run)
  {
    ForceBudget(s, run, j);
    assert k < s.partition;
    NothingOpenAbove(s, k, j);
  }

  lemma {:induction false} NothingOpenAbove(s: StatefulSet, k: nat, j: nat)
    requires k < j <= |s.pods| && k < s.partition
    requires forall u :: k < u < j ==> Current(s, u)
    ensures OpenBelow(s, j) == 0
    decreases j
  {
    if j == k + 1 { NothingOpen(s, j); } else { NothingOpenAbove(s, k, j - 1); }
  }

  // ---- The budget is exact ---------------------------------------------------------------------

  /** Whatever guarded steps follow, no more than `allowance` units below `j` upgrade beyond the forced actions. */
  ghost predicate StaysWithin(s: StatefulSet, j: nat, allowance: nat) {
    forall run | IsRun(s, run) && StuckRun(s, run, j) ::
      UpgradesBelow(s, run, j) <= allowance + ForcedActions(s.kind, run)
  }

  lemma {:induction false} StuckConcat(s: StatefulSet, a: seq<Step>, b: seq<Step>, j: nat)
    requires IsRun(s, a) && StuckRun(s, a, j) && IsRun(After(s, a), b) && StuckRun(After(s, a), b, j)
    ensures IsRun(s, a + b) && After(s, a + b) == After(After(s, a), b) && StuckRun(s, a + b, j)
    ensures UpgradesBelow(s, a + b, j) == UpgradesBelow(s, a, j) + UpgradesBelow(After(s, a), b, j)
    decreases |a|
  {
    RunConcat(s, a, b);
    if a == [] {
      assert a + b == b;
    } else {
      assert (a + b)[0] == a[0] && (a + b)[1..] == a[1..] + b;
      StuckConcat(Apply(s, a[0]), a[1..], b, j);
    }
  }

  lemma {:induction false} ForcedConcat(kind: CharmKind, a: seq<Step>, b: seq<Step>)
    ensures ForcedActions(kind, a + b) == ForcedActions(kind, a) + ForcedActions(kind, b)
  {
    if a == [] {
      assert a + b == b;
    } else {
      assert (a + b)[0] == a[0] && (a + b)[1..] == a[1..] + b;
      ForcedConcat(kind, a[1..], b);
    }
  }

  /** An open unit that is up restarts, one that is away starts: either way it comes back upgraded. */
  lemma UpgradeOpenUnit(s: StatefulSet, u: nat, j: nat) returns (run: seq<Step>)
    requires Stuck(s, j) && u < j && s.partition <= u && !Current(s, u)
    ensures IsRun(s, run) && StuckRun(s, run, j) && UpgradesBelow(s, run, j) == 1 && ForcedActions(s.kind, run) == 0
    ensures var t := After(s, run);
            && t == s.(partition := t.partition, pods := t.pods) && |t.pods| == |s.pods| && t.partition <= u
            && forall w :: u < w < |s.pods| ==> t.pods[w] == s.pods[w]
  {
    if s.pods[u].up {
      run := [StopUnrelated(u), Start(u)];
      TwoSteps(s, StopUnrelated(u), Start(u));
      var t := Apply(s, StopUnrelated(u));
      assert run[1..] == [Start(u)] && [Start(u)][1..] == [];
      SingleStart(t, u, j);
      assert ForcedActions(s.kind, run) == ForcedActions(s.kind, [Start(u)]);
    } else {
      run := [Start(u)];
      SingleStart(s, u, j);
    }
  }

  lemma SingleStart(s: StatefulSet, u: nat, j: nat)
    requires Stuck(s, j) && u < j && s.partition <= u && !Current(s, u) && !s.pods[u].up
    ensures IsRun(s, [Start(u)]) && After(s, [Start(u)]) == Apply(s, Start(u))
    ensures StuckRun(s, [Start(u)], j) && UpgradesBelow(s, [Start(u)], j) == 1 && ForcedActions(s.kind, [Start(u)]) == 0
  {
    var t := Apply(s, Start(u));
    assert [Start(u)][1..] == [] && IsRun(t, []) && StuckRun(t, [], j) && UpgradesBelow(t, [], j) == 0;
  }

  /** The open units below `k` can all be upgraded, from the lowest up, without any force. */
  lemma {:induction false} SpendAll(s: StatefulSet, k: nat, j: nat) returns (run: seq<Step>)
    requires Stuck(s, j) && k <= j
    ensures IsRun(s, run) && StuckRun(s, run, j)
    ensures UpgradesBelow(s, run, j) == OpenBelow(s, k) && ForcedActions(s.kind, run) == 0
    ensures var t := After(s, run);
            && t == s.(partition := t.partition, pods := t.pods) && |t.pods| == |s.pods|
            && (t.partition <= s.partition || t.partition < k) && Stuck(t, j)
            && forall w :: k <= w < |s.pods| ==> t.pods[w] == s.pods[w]
    decreases k
  {
    if k == 0 {
      run := [];
    } else {
      run := SpendAll(s, k - 1, j);
      var t := After(s, run);
      if s.partition <= k - 1 && !Current(s, k - 1) {
        assert t.pods[k - 1] == s.pods[k - 1];
        var last := UpgradeOpenUnit(t, k - 1, j);
        StuckConcat(s, run, last, j);
        ForcedConcat(s.kind, run, last);
        run := run + last;
      }
    }
  }

  /**
   The budget is exact: guarded continuations stay within an allowance if and only if the partition
   lets no more units go than that.
   */
  lemma BudgetIsExact(s: StatefulSet, j: nat, allowance: nat)
    requires Stuck(s, j)
    ensures StaysWithin(s, j, allowance) <==> OpenBelow(s, j) <= allowance
  {
    if OpenBelow(s, j) <= allowance {
      forall run | IsRun(s, run) && StuckRun(s, run, j)
        ensures UpgradesBelow(s, run, j) <= allowance + ForcedActions(s.kind, run)
      {
        ForceBudget(s, run, j);
      }
    } else {
      var run := SpendAll(s, j, j);
      assert UpgradesBelow(s, run, j) > allowance + ForcedActions(s.kind, run);
    }
  }

  /**
   The guard is exact: after the leader's reconcile every continuation stays within the budget of
   before if and only if an outdated pod was up, or nothing below `j` and the partition was outdated.
   */
  lemma ReconcileKeepsBudgetExactlyWhenGuarded(s: StatefulSet, j: nat)
    requires Stuck(s, j) && Enabled(s, LeaderReconcile)
    ensures StaysWithin(Apply(s, LeaderReconcile), j, OpenBelow(s, j)) <==> BudgetGuard(s, j)
  {
    ReconcileOpensNothingExactlyWhenGuarded(s, j);
    BudgetIsExact(Apply(s, LeaderReconcile), j, OpenBelow(s, j));
  }

  /** All other steps keep it: they use the budget for what they upgrade, and add one only when forced. */
  lemma StepKeepsBudget(s: StatefulSet, step: Step, j: nat)
    requires Enabled(s, step) && !step.Refresh? && Stuck(s, j) && Stuck(Apply(s, step), j) && !step.LeaderReconcile?
    ensures StaysWithin(Apply(s, step), j, OpenBelow(s, j) + if Forces(s.kind, step) then 1 else 0)
  {
    StepSpendsBudget(s, step, j);
    BudgetIsExact(Apply(s, step), j, OpenBelow(s, j) + if Forces(s.kind, step) then 1 else 0);
  }

  lemma {:induction false} AllOpen(s: StatefulSet, t: StatefulSet, j: nat)
    requires j <= |s.pods| && t == s.(partition := 0)
    ensures OpenBelow(t, j) == OutdatedBelow(s, j)
  {
    if j > 0 {
      AllOpen(s, t, j - 1);
      assert Current(t, j - 1) == Current(s, j - 1);
    }
  }

  /**
   The unguarded reconcile in full: with no outdated pod up, one reconcile and no force at all let
   every outdated unit below `j` upgrade although `j` is unhealthy.
   */
  lemma UnattendedReconcileBreaksBudget(s: StatefulSet, j: nat) returns (run: seq<Step>)
    requires Stuck(s, j) && LeaderUp(s) && !InProgress(s)
    ensures IsRun(s, [LeaderReconcile] + run) && ForcedActions(s.kind, [LeaderReconcile] + run) == 0
    ensures UpgradesBelow(s, [LeaderReconcile] + run, j) == OutdatedBelow(s, j)
  {
    var t := Apply(s, LeaderReconcile);
    assert t == s.(partition := 0);
    AllOpen(s, t, j);
    run := SpendAll(t, j, j);
    assert ([LeaderReconcile] + run)[0] == LeaderReconcile && ([LeaderReconcile] + run)[1..] == run;
  }

  /**
   And it happens: from every refresh a run without any action reaches a state with nothing to spend,
   from which it upgrades every unit below the top although the top is unhealthy.
   */
  lemma BudgetLeakIsReachable(s: StatefulSet) returns (first: seq<Step>, rest: seq<Step>)
    requires JustRefreshed(s) && s.partition <= Top(s)
    ensures IsRun(s, first) && WithinOneUpgrade(first)
    ensures var t := After(s, first);
            && |t.pods| == |s.pods| && Stuck(t, Top(s)) && Current(t, Top(s)) && OpenBelow(t, Top(s)) == 0
            && Enabled(t, LeaderReconcile) && !BudgetGuard(t, Top(s))
            && IsRun(t, rest) && ForcedActions(t.kind, rest) == 0 && UpgradesBelow(t, rest, Top(s)) == Top(s)
  {
    first := TopAloneIsReachable(s, false);
    var t := After(s, first);
    TopAloneIsUnguarded(t, false);
    NothingOpen(t, Top(s));
    rest := UnattendedReconcileBreaksBudget(t, Top(s));
    rest := [LeaderReconcile] + rest;
    AllOutdated(t, Top(s));
    assert !Current(t, 0) && 0 < t.partition;
  }

  lemma {:induction false} AllOutdated(s: StatefulSet, j: nat)
    requires j <= |s.pods| && forall u :: 0 <= u < j ==> !Current(s, u)
    ensures OutdatedBelow(s, j) == j
  {
    if j > 0 { AllOutdated(s, j - 1); }
  }

  // ---- What a forced action does -----------------------------------------------------------------

  /** `k` runs outdated, and every unit above it runs the app revision, healthy or not. */
  predicate NextUnit(s: StatefulSet, k: nat) {
    && k < |s.pods| && s.pods[k].up && s.pods[k].rev != s.app
    && forall j :: k < j < |s.pods| ==> s.pods[j].up && s.pods[j].rev == s.app
  }

  lemma ForcedDecision(s: StatefulSet, k: nat)
    requires NextUnit(s, k)
    ensures InProgress(s) && Determine(s.kind, Units(s), s.app, true, true) == Chosen(k)
  {
    var units, i := Units(s), |s.pods| - 1 - k;
    InProgressMeans(s);
    forall j | 0 <= j <= i ensures units[j].version == Some(s.pods[|s.pods| - 1 - j].rev) {
      ViewOf(s, |s.pods| - 1 - j);
    }
    assert units[i].version.Some? && units[i].version != Some(s.app);
    DecisionAtFirstBlocker(s.kind, units, s.app, true, true, i);
    ViewOf(s, k);
  }

  /** The partition `k` lets exactly unit `k` go. */
  lemma NextBecomesEligible(s: StatefulSet, k: nat, t: StatefulSet)
    requires NextUnit(s, k) && t == s.(partition := t.partition) && t.partition <= k
    ensures forall u :: 0 <= u < |t.pods| ==> (Eligible(t, u) <==> u == k)
  {
    forall u | 0 <= u < |t.pods| ensures Eligible(t, u) <==> u == k {
      assert u < k ==> !Current(t, k);
      assert forall j :: k < j < |t.pods| ==> Current(t, j);
    }
  }

  /**
   A forced resume lets the next unit go although units above it are unhealthy: the partition comes down to
   it, and the controller may stop it and no other.  So does a force action once the upgrade is resumed.
   */
  lemma ForceReleasesExactlyNext(s: StatefulSet, k: nat)
    requires NextUnit(s, k) && |s.pods| >= 2 && k <= |s.pods| - 2
    ensures var t := s.(partition := if k < s.partition then k else s.partition);
            && ResumeAction(s, true) == (t, Done)
            && (s.kind == Mongos || s.partition < |s.pods| - 1 ==> ForceAction(s) == (t, Done))
            && forall u :: 0 <= u < |t.pods| ==> (Eligible(t, u) <==> u == k)
  {
    ForcedDecision(s, k);
    NextBecomesEligible(s, k, s.(partition := if k < s.partition then k else s.partition));
  }

  /** A forced action raises when it comes to a pod that is away: its version cannot be looked up. */
  lemma ForcedLookupRaises(s: StatefulSet, k: nat)
    requires InProgress(s) && k < |s.pods| && !s.pods[k].up
    requires forall j :: k < j < |s.pods| ==> s.pods[j].up && s.pods[j].rev == s.app
    ensures ResumeAction(s, true) == (s, KeyError)
    ensures s.kind == Mongos || s.partition < |s.pods| - 1 ==> ForceAction(s) == (s, KeyError)
  {
    var units, i := Units(s), |s.pods| - 1 - k;
    forall j | 0 <= j < i ensures units[j].version == Some(s.app) {
      ViewOf(s, |s.pods| - 1 - j);
    }
    assert units[i].version == None;
    DecisionAtFirstBlocker(s.kind, units, s.app, true, true, i);
  }

  /** On a mongos every action forces, asked or not. */
  lemma MongosActionsForce(s: StatefulSet, k: nat, force: bool)
    requires s.kind == Mongos && NextUnit(s, k) && |s.pods| >= 2 && k <= |s.pods| - 2
    ensures ResumeAction(s, force) == ForceAction(s)
    ensures ResumeAction(s, force) == (s.(partition := if k < s.partition then k else s.partition), Done)
  {
    ForcedDecision(s, k);
  }

  /** Without force a mongod action does not let a unit go under an unhealthy one; with an unhealthy top it fails. */
  lemma UnforcedResumeStopsAtUnhealthy(s: StatefulSet, j: nat)
    requires s.kind == Mongod && InProgress(s) && j < |s.pods| && s.pods[j].up && !IsHealthy(s, j)
    ensures var (t, outcome) := ResumeAction(s, false);
            && (s.partition >= j ==> t.partition >= j) && (s.partition < j ==> t == s)
            && (|s.pods| >= 2 && j == |s.pods| - 1 ==> t == s && outcome == ActionFailed)
  {
    var units := Units(s);
    var i := FirstBlocked(units, s.app, false);
    ViewOf(s, j);
    assert i <= |s.pods| - 1 - j by { assert !Clear(units[|s.pods| - 1 - j], s.app, false); }
    if s.pods[|s.pods| - 1 - i].up {
      ViewOf(s, |s.pods| - 1 - i);
    }
  }

  /** Actions that are refused change nothing: no upgrade in progress, or a force before the resume on a mongod. */
  lemma RefusedActions(s: StatefulSet, force: bool)
    ensures (forall u :: 0 <= u < |s.pods| && s.pods[u].up ==> s.pods[u].rev == s.app) ==>
              ResumeAction(s, force) == (s, ActionFailed) && ForceAction(s) == (s, ActionFailed)
    ensures s.kind == Mongod && s.partition >= |s.pods| - 1 ==> ForceAction(s) == (s, ActionFailed)
    ensures |s.pods| == 1 && s.pods[0].up && s.pods[0].rev != s.app ==> ResumeAction(s, force) == (s, AssertionFailed)
  {
    InProgressMeans(s);
    if |s.pods| == 1 {
      ViewOf(s, 0);
    }
  }

  /** A run of one forced action and the pod's own restart upgrades exactly the next unit: the budget can be used. */
  lemma ForcedActionUpgradesNext(s: StatefulSet, k: nat, j: nat)
    requires NextUnit(s, k) && k < j < |s.pods| && !IsHealthy(s, j)
    ensures var run := [Resume(true), StopForUpgrade(k), Start(k)];
            && IsRun(s, run) && ForcedActions(s.kind, run) == 1 && UpgradesBelow(s, run, j) == 1
            && |After(s, run).pods| == |s.pods| && Current(After(s, run), k)
  {
    ForceReleasesExactlyNext(s, k);
    var run := [Resume(true), StopForUpgrade(k), Start(k)];
    var t1 := Apply(s, Resume(true));
    var t2 := Apply(t1, StopForUpgrade(k));
    var t3 := Apply(t2, Start(k));
    assert run[1..] == [StopForUpgrade(k), Start(k)] && run[1..][1..] == [Start(k)] && [Start(k)][1..] == [];
    assert IsRun(t3, []) && UpgradesBelow(t3, [], j) == 0 && After(t3, []) == t3;
    assert IsRun(t2, [Start(k)]) && UpgradesBelow(t2, [Start(k)], j) == 1 && After(t2, [Start(k)]) == t3;
    assert IsRun(t1, run[1..]) && UpgradesBelow(t1, run[1..], j) == 1 && After(t1, run[1..]) == t3;
    assert ForcedActions(s.kind, []) == 0 && ForcedActions(s.kind, [Start(k)]) == 0;
    assert ForcedActions(s.kind, run[1..]) == 0;
  }
}
