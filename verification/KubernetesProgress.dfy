/**
 Progress of the Kubernetes upgrade: whatever the units below are doing, one reconcile (the resume action
 when the second unit is next) makes exactly the next unit eligible, and from every state at all the upgrade
 can be completed without force.
 */
module KubernetesProgress {
  import opened UpgradeDecision
  import opened KubernetesUpgrade
  import opened KubernetesSafety

  predicate Finished(s: StatefulSet) {
    forall u :: 0 <= u < |s.pods| ==> Current(s, u)
  }

  /** `k` is the next unit to upgrade: the highest one that is outdated. */
  predicate IsNext(s: StatefulSet, k: nat) {
    k < |s.pods| && !Current(s, k) && forall j :: k < j < |s.pods| ==> Current(s, j)
  }

  /** The next unit runs, and all units above it run and are healthy.  Lower units may be away or unhealthy. */
  predicate ReadyForNext(s: StatefulSet, k: nat) {
    && Valid(s) && IsNext(s, k) && s.pods[k].up
    && forall j :: k < j < |s.pods| ==> s.pods[j].up && IsHealthy(s, j)
  }

  function Remaining(s: StatefulSet): nat {
    OutdatedBelow(s, |s.pods|)
  }

  /** The step that lets unit `k` go: the operator's confirmation for the second unit of a mongod. */
  function Release(s: StatefulSet, k: nat): Step {
    if s.kind == Mongod && k == |s.pods| - 2 then Resume(false) else LeaderReconcile
  }

  function Round(s: StatefulSet, k: nat): seq<Step> {
    [Release(s, k), StopForUpgrade(k), Start(k), Heal(k)]
  }

  lemma DecidesNext(s: StatefulSet, k: nat)
    requires ReadyForNext(s, k)
    ensures InProgress(s)
    ensures Determine(s.kind, Units(s), s.app, Release(s, k).Resume?, false) == Chosen(k)
  {
    InProgressMeans(s);
    ViewOf(s, k);
    var n, i := |s.pods|, FirstBlocked(Units(s), s.app, false);
    assert i <= n - 1 - k by { assert !Clear(Units(s)[n - 1 - k], s.app, false); }
    if i < n - 1 - k {
      ViewOf(s, n - 1 - i);
      assert false;
    }
  }

  /** After the release, the controller may stop the next unit and no other. */
  lemma ReleaseMakesExactlyNextEligible(s: StatefulSet, k: nat)
    requires ReadyForNext(s, k)
    ensures Enabled(s, Release(s, k)) && !Forces(s.kind, Release(s, k))
    ensures var t := Apply(s, Release(s, k));
            && t == s.(partition := t.partition)
            && t.partition <= k
            && forall u :: 0 <= u < |t.pods| ==> (Eligible(t, u) <==> u == k)
  {
    DecidesNext(s, k);
    var step := Release(s, k);
    var t := Apply(s, step);
    ReconcileFrame(s, step.Resume?, false);
    assert t.partition <= k;
    forall u | 0 <= u < |t.pods| ensures Eligible(t, u) <==> u == k {
      if u > k { assert Current(t, u) == Current(s, u); }
      if u < k { assert !Current(t, k); }
      if u == k { assert forall j :: k < j < |t.pods| ==> t.pods[j].up && Current(t, j) == Current(s, j); }
    }
  }

  lemma {:induction false} CountDrops(s: StatefulSet, t: StatefulSet, k: nat, upTo: nat)
    requires |s.pods| == |t.pods| && k < |s.pods| && upTo <= |s.pods|
    requires !Current(s, k) && Current(t, k)
    requires forall u :: 0 <= u < |s.pods| && u != k ==> Current(s, u) == Current(t, u)
    ensures OutdatedBelow(t, upTo) + (if k < upTo then 1 else 0) == OutdatedBelow(s, upTo)
  {
    if upTo > 0 { CountDrops(s, t, k, upTo - 1); }
  }

  /** One round is an unforced run that upgrades exactly the next unit: it is healthy, and no other pod changed. */
  lemma RoundUpgradesNext(s: StatefulSet, k: nat)
    requires ReadyForNext(s, k)
    ensures IsRun(s, Round(s, k)) && Unforced(s.kind, Round(s, k))
    ensures var t := After(s, Round(s, k));
            && t == s.(partition := k, pods := t.pods)
            && |t.pods| == |s.pods| && t.pods[k].up && Current(t, k) && IsHealthy(t, k)
            && (forall u :: 0 <= u < |s.pods| && u != k ==> t.pods[u] == s.pods[u])
            && Remaining(t) + 1 == Remaining(s)
  {
    ReleaseMakesExactlyNextEligible(s, k);
    var run := Round(s, k);
    var s1 := Apply(s, run[0]);
    assert Eligible(s1, k);
    var s2 := Apply(s1, run[1]);
    var s3 := Apply(s2, run[2]);
    var s4 := Apply(s3, run[3]);
    assert s2.partition == k;
    RunOfFour(s, run);
    assert forall u :: 0 <= u < |s.pods| && u != k ==> s4.pods[u] == s.pods[u];
    assert forall u :: 0 <= u < |s.pods| && u != k ==> Current(s, u) == Current(s4, u);
    CountDrops(s, s4, k, |s.pods|);
  }

  lemma RunOfFour(s: StatefulSet, run: seq<Step>)
    requires |run| == 4 && Enabled(s, run[0])
    requires Enabled(Apply(s, run[0]), run[1])
    requires Enabled(Apply(Apply(s, run[0]), run[1]), run[2])
    requires Enabled(Apply(Apply(Apply(s, run[0]), run[1]), run[2]), run[3])
    ensures IsRun(s, run)
         && After(s, run) == Apply(Apply(Apply(Apply(s, run[0]), run[1]), run[2]), run[3])
  {
    var s1 := Apply(s, run[0]);
    var s2 := Apply(s1, run[1]);
    var s3 := Apply(s2, run[2]);
    var s4 := Apply(s3, run[3]);
    var r1, r2, r3 := run[1..], run[2..], run[3..];
    assert r3[1..] == [] && IsRun(s4, []);
    assert IsRun(s3, r3) && After(s3, r3) == s4;
    assert r2[1..] == r3 && IsRun(s2, r2) && After(s2, r2) == s4;
    assert r1[1..] == r2 && IsRun(s1, r1) && After(s1, r1) == s4;
  }

  lemma {:induction false} FindNext(s: StatefulSet, upTo: nat) returns (k: nat)
    requires upTo <= |s.pods| && !Finished(s)
    requires forall j :: upTo <= j < |s.pods| ==> Current(s, j)
    ensures IsNext(s, k)
    decreases upTo
  {
    if upTo > 0 && Current(s, upTo - 1) {
      k := FindNext(s, upTo - 1);
    } else {
      assert upTo > 0;
      k := upTo - 1;
    }
  }

  lemma {:induction false} NoneRemaining(s: StatefulSet, upTo: nat)
    requires upTo <= |s.pods|
    ensures OutdatedBelow(s, upTo) == 0 <==> forall u :: 0 <= u < upTo ==> Current(s, u)
  {
    if upTo > 0 { NoneRemaining(s, upTo - 1); }
  }

  // ---- Completion, from every state ---------------------------------------------------------------

  /** Every pod up and healthy. */
  predicate Well(s: StatefulSet) {
    Valid(s) && AllUp(s) && forall u :: 0 <= u < |s.pods| ==> IsHealthy(s, u)
  }

  /** Two steps at most for the unit: it starts if it is away, and a health check passes. */
  lemma Repair(s: StatefulSet, u: nat) returns (run: seq<Step>)
    requires u < |s.pods|
    ensures IsRun(s, run) && Unforced(s.kind, run) && |run| <= 2
    ensures var t := After(s, run);
            && t == s.(pods := t.pods) && |t.pods| == |s.pods| && t.pods[u].up && IsHealthy(t, u)
            && forall w :: 0 <= w < |s.pods| && w != u ==> t.pods[w] == s.pods[w]
  {
    if s.pods[u].up {
      run := [Heal(u)];
      var t := Apply(s, Heal(u));
      assert run[1..] == [] && IsRun(t, []) && After(t, []) == t;
    } else {
      run := [Start(u), Heal(u)];
      var t1 := Apply(s, Start(u));
      var t2 := Apply(t1, Heal(u));
      assert run[1..] == [Heal(u)] && [Heal(u)][1..] == [] && IsRun(t2, []) && After(t2, []) == t2;
      assert IsRun(t1, [Heal(u)]) && After(t1, [Heal(u)]) == t2;
    }
  }

  /** Whatever state the pods are in, they can all be brought back and heal. */
  lemma {:induction false} RepairAll(s: StatefulSet, upTo: nat) returns (run: seq<Step>)
    requires upTo <= |s.pods|
    ensures IsRun(s, run) && Unforced(s.kind, run) && |run| <= 2 * upTo
    ensures var t := After(s, run);
            && t == s.(pods := t.pods) && |t.pods| == |s.pods|
            && forall u :: 0 <= u < upTo ==> t.pods[u].up && IsHealthy(t, u)
  {
    if upTo == 0 {
      run := [];
    } else {
      var first := RepairAll(s, upTo - 1);
      var last := Repair(After(s, first), upTo - 1);
      RunConcat(s, first, last);
      run := first + last;
    }
  }

  /** From a well state: one round of four steps per outdated unit, then a reconcile that resets the partition. */
  lemma {:induction false} WellUpgradeCompletes(s: StatefulSet) returns (run: seq<Step>)
    requires Well(s)
    ensures IsRun(s, run) && Unforced(s.kind, run) && |run| == 4 * Remaining(s) + 1
    ensures var t := After(s, run);
            Well(t) && |t.pods| == |s.pods| && t.app == s.app && Finished(t) && t.partition == 0
    decreases Remaining(s)
  {
    NoneRemaining(s, |s.pods|);
    if Finished(s) {
      run := [LeaderReconcile];
      InProgressMeans(s);
      assert run[1..] == [] && s.pods[0].up;
      var t := Apply(s, LeaderReconcile);
      assert IsRun(t, []) && After(t, []) == t;
      assert After(s, run) == t && t.pods == s.pods;
      assert forall u :: 0 <= u < |s.pods| ==> Current(t, u) == Current(s, u) && IsHealthy(t, u) == IsHealthy(s, u);
    } else {
      var k := FindNext(s, |s.pods|);
      RoundUpgradesNext(s, k);
      var t := After(s, Round(s, k));
      forall u | 0 <= u < |t.pods| ensures t.pods[u].up && IsHealthy(t, u) {
        assert u != k ==> s.pods[u].up && IsHealthy(s, u);
      }
      var rest := WellUpgradeCompletes(t);
      RunConcat(s, Round(s, k), rest);
      run := Round(s, k) + rest;
    }
  }

  /**
   From every state, however it was reached and whatever pods are away, unhealthy or outdated: the upgrade
   can be driven to its end without force, in at most six steps per unit and one reconcile.
   */
  lemma UpgradeCompletes(s: StatefulSet) returns (run: seq<Step>)
    requires Valid(s)
    ensures IsRun(s, run) && Unforced(s.kind, run) && |run| <= 6 * |s.pods| + 1
    ensures var t := After(s, run);
            Well(t) && |t.pods| == |s.pods| && t.app == s.app && Finished(t) && t.partition == 0
  {
    var repair := RepairAll(s, |s.pods|);
    var t := After(s, repair);
    var upgrade := WellUpgradeCompletes(t);
    RunConcat(s, repair, upgrade);
    run := repair + upgrade;
    AtMostAllOutdated(t, |t.pods|);
  }

  lemma {:induction false} AtMostAllOutdated(s: StatefulSet, upTo: nat)
    requires upTo <= |s.pods|
    ensures OutdatedBelow(s, upTo) <= upTo
  {
    if upTo > 0 { AtMostAllOutdated(s, upTo - 1); }
  }

  // ---- Termination of every undisturbed run ---------------------------------------------------

  /** Work left: two pod acts for an outdated pod that is up, one for a pod on its way back. */
  function Work(s: StatefulSet, upTo: nat): nat
    requires upTo <= |s.pods|
  {
    if upTo == 0 then 0
    else Work(s, upTo - 1) + (if !s.pods[upTo - 1].up then 1 else if Current(s, upTo - 1) then 0 else 2)
  }

  predicate Undisturbed(run: seq<Step>) {
    forall i :: 0 <= i < |run| ==> !run[i].Refresh? && !run[i].StopUnrelated?
  }

  function PodActs(run: seq<Step>): nat {
    if run == [] then 0
    else (if run[0].StopForUpgrade? || run[0].Start? then 1 else 0) + PodActs(run[1..])
  }

  /** Without unrelated restarts a pod that is away stands at or above the partition. */
  predicate AwayIsAllowed(s: StatefulSet) {
    Valid(s) && forall u | 0 <= u < |s.pods| && !s.pods[u].up ::
      s.partition <= u && forall j :: u < j < |s.pods| ==> s.pods[j].up && Current(s, j)
  }

  lemma {:induction false} WorkChange(s: StatefulSet, t: StatefulSet, u: nat, upTo: nat)
    requires |s.pods| == |t.pods| && u < |s.pods| && upTo <= |s.pods| && s.app == t.app
    requires forall x :: 0 <= x < |s.pods| && x != u ==> s.pods[x].up == t.pods[x].up && s.pods[x].rev == t.pods[x].rev
    ensures upTo <= u ==> Work(t, upTo) == Work(s, upTo)
    ensures u < upTo ==> Work(t, upTo) - Work(s, upTo) == Work(t, u + 1) - Work(s, u + 1)
  {
    if upTo > 0 { WorkChange(s, t, u, upTo - 1); }
  }

  lemma LoweringKeepsWork(s: StatefulSet, t: StatefulSet)
    requires AwayIsAllowed(s) && t == s.(partition := t.partition) && t.partition <= s.partition
    ensures AwayIsAllowed(t) && Work(t, |t.pods|) == Work(s, |s.pods|)
  {
    WorkChange(s, t, 0, |s.pods|);
    assert forall x :: 0 <= x < |s.pods| ==> Current(t, x) == Current(s, x);
  }

  lemma PodWork(s: StatefulSet, step: Step, u: nat)
    requires AwayIsAllowed(s) && Enabled(s, step) && step in {StopForUpgrade(u), Start(u), Heal(u)} && u < |s.pods|
    ensures var t := Apply(s, step);
            |t.pods| == |s.pods| && Work(t, |t.pods|) + (if step.Heal? then 0 else 1) == Work(s, |s.pods|)
  {
    var t := Apply(s, step);
    WorkChange(s, t, u, u);
    WorkChange(s, t, u, |s.pods|);
  }

  lemma PodKeepsAllowed(s: StatefulSet, step: Step, u: nat)
    requires AwayIsAllowed(s) && Enabled(s, step) && step in {StopForUpgrade(u), Start(u), Heal(u)} && u < |s.pods|
    ensures AwayIsAllowed(Apply(s, step))
  {
    var t := Apply(s, step);
    assert forall x :: 0 <= x < |s.pods| && x != u ==> t.pods[x] == s.pods[x] && Current(t, x) == Current(s, x);
  }

  lemma UndisturbedStep(s: StatefulSet, step: Step)
    requires AwayIsAllowed(s) && Enabled(s, step) && !step.Refresh? && !step.StopUnrelated?
    ensures var t := Apply(s, step);
            && AwayIsAllowed(t) && |t.pods| == |s.pods|
            && Work(t, |t.pods|) + (if step.StopForUpgrade? || step.Start? then 1 else 0) == Work(s, |s.pods|)
  {
    match step
    case StopForUpgrade(u) =>
      PodWork(s, step, u);
      PodKeepsAllowed(s, step, u);
    case Start(u) =>
      PodWork(s, step, u);
      PodKeepsAllowed(s, step, u);
    case Heal(u) =>
      PodWork(s, step, u);
      PodKeepsAllowed(s, step, u);
    case LeaderReconcile =>
      ReconcileFrame(s, false, false);
      LoweringKeepsWork(s, Apply(s, step));
    case Resume(force) =>
      ReconcileFrame(s, true, force);
      LoweringKeepsWork(s, Apply(s, step));
    case ForceStart =>
      ReconcileFrame(s, true, true);
      LoweringKeepsWork(s, Apply(s, step));
  }

  /**
   Every run without unrelated restarts, forced or not and in any order, stops and starts pods at
   most as often as the work left at its beginning: nothing is upgraded twice.
   */
  lemma {:induction false} UndisturbedRunsTerminate(s: StatefulSet, run: seq<Step>)
    requires AwayIsAllowed(s) && IsRun(s, run) && Undisturbed(run)
    ensures var t := After(s, run);
            |t.pods| == |s.pods| && PodActs(run) + Work(t, |t.pods|) == Work(s, |s.pods|)
    decreases |run|
  {
    if run != [] {
      assert !run[0].Refresh? && !run[0].StopUnrelated?;
      UndisturbedStep(s, run[0]);
      UndisturbedRunsTerminate(Apply(s, run[0]), run[1..]);
    }
  }
}
