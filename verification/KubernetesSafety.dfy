/**
 Safety of the Kubernetes upgrade over whole runs: while nobody forces, the controller stops a
 unit for upgrade only when every unit above it runs the app revision and is healthy.
 */
module KubernetesSafety {
  import opened Wrappers
  import opened UpgradeDecision
  import opened KubernetesUpgrade

  predicate SafeToStop(s: StatefulSet, u: nat)
    requires u < |s.pods|
  {
    forall j :: u < j < |s.pods| ==> s.pods[j].up && Current(s, j) && IsHealthy(s, j)
  }

  predicate AwayMeansRestarting(s: StatefulSet) {
    forall u :: 0 <= u < |s.pods| && !s.pods[u].up ==> s.pods[u].state == Some(Restarting)
  }

  /** The highest unit still runs an old revision, so it is the only one the controller may stop. */
  predicate TopPending(s: StatefulSet)
    requires Valid(s)
  {
    s.pods[Top(s)].up && !Current(s, Top(s))
  }

  /** An outdated pod is below the partition as soon as a unit above it was restarted and has not healed. */
  predicate Shielded(s: StatefulSet) {
    forall k, j :: 0 <= k < j < |s.pods| && s.pods[k].up && !Current(s, k)
      && !IsHealthy(s, j) && (!s.pods[j].up || Current(s, j))
      ==> k < s.partition
  }

  predicate Inv(s: StatefulSet) {
    Valid(s) && AwayMeansRestarting(s) && (TopPending(s) || Shielded(s))
  }

  lemma InvImpliesSafe(s: StatefulSet, u: nat)
    requires Inv(s) && u < |s.pods| && Eligible(s, u)
    ensures SafeToStop(s, u)
  {
    if TopPending(s) {
      assert u == Top(s);
    }
  }

  /** The version lookup of an unforced reconcile never fails on a pod that is away. */
  lemma UnforcedLookupSucceeds(s: StatefulSet, fromEvent: bool)
    requires AwayMeansRestarting(s) && !EffectiveForce(s.kind, fromEvent, false)
    ensures Reconcile(s, fromEvent, false).1 != KeyError
  {
    var i := FirstBlocked(Units(s), s.app, false);
    if i < |s.pods| { ViewOf(s, |s.pods| - 1 - i); }
  }

  lemma ReconcileKeepsShield(s: StatefulSet, fromEvent: bool)
    requires Valid(s) && AwayMeansRestarting(s) && Shielded(s)
    ensures Shielded(Reconcile(s, fromEvent, false).0) || EffectiveForce(s.kind, fromEvent, false)
  {
    var t := Reconcile(s, fromEvent, false).0;
    if t != s && !EffectiveForce(s.kind, fromEvent, false) {
      forall k, j | 0 <= k < j < |s.pods| && s.pods[k].up && !Current(s, k)
        && !IsHealthy(s, j) && (!s.pods[j].up || Current(s, j))
        ensures k < t.partition
      {
        InProgressMeans(s);
        UnforcedBound(s, fromEvent, t.partition, j);
      }
    }
  }

  lemma InvStep(s: StatefulSet, step: Step)
    requires Inv(s) && Enabled(s, step) && !Forces(s.kind, step)
    ensures Inv(Apply(s, step)) && Apply(s, step).kind == s.kind
  {
    var t := Apply(s, step);
    match step
    case Refresh(to) =>
      InProgressMeans(s);
    case StopForUpgrade(u) =>
    case StopUnrelated(u) =>
    case Start(u) =>
    case Heal(u) =>
    case LeaderReconcile =>
      ReconcileFrame(s, false, false);
      if !TopPending(s) { ReconcileKeepsShield(s, false); }
    case Resume(force) =>
      ReconcileFrame(s, true, force);
      if !TopPending(s) { ReconcileKeepsShield(s, true); }
    case ForceStart =>
      assert false;
  }

  lemma {:induction false} InvRun(s: StatefulSet, run: seq<Step>)
    requires Inv(s) && IsRun(s, run) && Unforced(s.kind, run)
    ensures Inv(After(s, run)) && After(s, run).kind == s.kind
    decreases |run|
  {
    if run != [] {
      assert !Forces(s.kind, run[0]);
      InvStep(s, run[0]);
      InvRun(Apply(s, run[0]), run[1..]);
    }
  }

  /** An upgrade about to begin: every pod up, on one revision, none on the app revision. */
  predicate Settled(s: StatefulSet) {
    Valid(s) && AllUp(s) && forall u :: 0 <= u < |s.pods| ==> s.pods[u].rev == s.app
  }

  /**
   The safety theorem: from a settled cluster, through any number of refreshes, unrelated
   restarts, health checks, reconciles and unforced resumes in any order.
   */
  lemma UpgradeIsSafe(s: StatefulSet, run: seq<Step>, u: nat)
    requires Settled(s) && IsRun(s, run) && Unforced(s.kind, run)
    requires u < |After(s, run).pods| && Eligible(After(s, run), u)
    ensures SafeToStop(After(s, run), u)
  {
    InvRun(s, run);
    InvImpliesSafe(After(s, run), u);
  }

  // ---- Refreshing while pods are away --------------------------------------------------------

  /** The highest pod that is up, if any, is the top one or is held back by the partition. */
  predicate RefreshGuard(s: StatefulSet)
    requires Valid(s)
  {
    s.pods[Top(s)].up || forall u :: 0 <= u < |s.pods| && s.pods[u].up ==> u < s.partition
  }

  function Refreshed(s: StatefulSet, to: Revision): StatefulSet {
    s.(app := to, previous := s.app)
  }

  ghost predicate SafeForever(s: StatefulSet) {
    forall run, u | IsRun(s, run) && Unforced(s.kind, run) && 0 <= u < |After(s, run).pods| ::
      Eligible(After(s, run), u) ==> SafeToStop(After(s, run), u)
  }

  lemma {:induction false} RunConcat(s: StatefulSet, a: seq<Step>, b: seq<Step>)
    requires IsRun(s, a) && IsRun(After(s, a), b)
    ensures IsRun(s, a + b) && After(s, a + b) == After(After(s, a), b)
    decreases |a|
  {
    if a == [] {
      assert a + b == b;
    } else {
      RunConcat(Apply(s, a[0]), a[1..], b);
      assert (a + b)[0] == a[0] && (a + b)[1..] == a[1..] + b;
    }
  }

  /** With every pod above `k` away and `k` at or above the partition, they all come back before they heal. */
  lemma {:induction false} BringBackAbove(s: StatefulSet, k: nat, m: nat) returns (run: seq<Step>)
    requires k < m <= |s.pods| && s.partition <= k
    requires forall j :: k < j < m ==> !s.pods[j].up
    requires forall j :: m <= j < |s.pods| ==> s.pods[j].up && Current(s, j)
    ensures IsRun(s, run) && Unforced(s.kind, run)
    ensures var t := After(s, run);
            && t == s.(pods := t.pods) && |t.pods| == |s.pods|
            && (forall j :: k < j < |t.pods| ==> t.pods[j].up && Current(t, j) && t.pods[j].state == s.pods[j].state)
            && (forall j :: 0 <= j <= k ==> t.pods[j] == s.pods[j])
    decreases m
  {
    if m == k + 1 {
      run := [];
    } else {
      var step := Start(m - 1);
      var rest := BringBackAbove(Apply(s, step), k, m - 1);
      run := [step] + rest;
      assert run[1..] == rest;
    }
  }

  /** Without the guard some unforced run stops a unit above which nobody is healthy. */
  lemma UnguardedRefreshIsUnsafe(s: StatefulSet, to: Revision)
    requires Valid(s) && AwayMeansRestarting(s) && RefreshPossible(s, to) && !RefreshGuard(s)
    requires forall u :: 0 <= u < |s.pods| ==> s.pods[u].rev != to
    ensures !SafeForever(Refreshed(s, to))
  {
    var r := Refreshed(s, to);
    var k: nat := HighestUp(s);
    var run := BringBackAbove(r, k, |r.pods|);
    var t := After(r, run);
    assert Eligible(t, k);
    assert !IsHealthy(t, Top(t));
    assert !SafeToStop(t, k);
  }

  /** Some pod is up at or above the partition: the highest pod that is up is one such. */
  lemma HighestUp(s: StatefulSet) returns (k: nat)
    requires Valid(s) && !RefreshGuard(s)
    ensures k < Top(s) && s.pods[k].up && s.partition <= k
    ensures forall j :: k < j < |s.pods| ==> !s.pods[j].up
  {
    var w :| 0 <= w < |s.pods| && s.pods[w].up && s.partition <= w;
    k := Top(s);
    while !s.pods[k].up
      invariant w <= k <= Top(s)
      invariant forall j :: k < j < |s.pods| ==> !s.pods[j].up
      decreases k
    {
      k := k - 1;
    }
  }

  /**
   Refreshing while pods are away is safe for every later unforced run exactly when the top pod is
   up, or the partition is above every pod that is up.
   */
  lemma RefreshSafeExactlyWhenGuarded(s: StatefulSet, to: Revision)
    requires Valid(s) && AwayMeansRestarting(s) && RefreshPossible(s, to)
    requires forall u :: 0 <= u < |s.pods| ==> s.pods[u].rev != to
    ensures SafeForever(Refreshed(s, to)) <==> RefreshGuard(s)
  {
    var r := Refreshed(s, to);
    if RefreshGuard(s) {
      assert Inv(r);
      forall run, u | IsRun(r, run) && Unforced(r.kind, run) && 0 <= u < |After(r, run).pods|
        && Eligible(After(r, run), u)
        ensures SafeToStop(After(r, run), u)
      {
        InvRun(r, run);
        InvImpliesSafe(After(r, run), u);
      }
    } else {
      UnguardedRefreshIsUnsafe(s, to);
    }
  }
}
