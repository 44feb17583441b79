/**
 The rolling upgrade on Kubernetes: one StatefulSet, its partition, its pods and the upgrade
 state every unit keeps in its databag.  Each hook body, and each act of the StatefulSet
 controller, is one step.
 */
module KubernetesUpgrade {
  import opened Wrappers
  import opened UpgradeDecision

  /**
   One unit, found at the index equal to its number.  `rev` is the revision its pod runs, or ran
   last while the pod is away; pods that are away are not listed by `list_revisions`.
   */
  datatype Pod = Pod(rev: Revision, up: bool, state: Option<UnitState>)

  /** `app` is the revision being rolled out, `previous` the one the pods below the partition keep. */
  datatype StatefulSet = StatefulSet(
    kind: CharmKind, app: Revision, previous: Revision, partition: nat, pods: seq<Pod>)

  predicate Valid(s: StatefulSet) {
    |s.pods| > 0 && s.app != s.previous
  }

  function Top(s: StatefulSet): nat
    requires Valid(s)
  {
    |s.pods| - 1
  }

  predicate Current(s: StatefulSet, u: nat)
    requires u < |s.pods|
  {
    s.pods[u].rev == s.app
  }

  /** How many of the units below `u` are outdated. */
  function OutdatedBelow(s: StatefulSet, u: nat): nat
    requires u <= |s.pods|
  {
    if u == 0 then 0 else OutdatedBelow(s, u - 1) + if Current(s, u - 1) then 0 else 1
  }

  predicate IsHealthy(s: StatefulSet, u: nat)
    requires u < |s.pods|
  {
    s.pods[u].state == Some(Healthy)
  }

  /** The list the leader reads: highest number first. */
  function Units(s: StatefulSet): (v: seq<UnitView>)
    ensures |v| == |s.pods| && Descending(v)
  {
    var n := |s.pods|;
    seq(n, i requires 0 <= i < n =>
      var pod := s.pods[n - 1 - i];
      UnitView(n - 1 - i, pod.state, if pod.up then Some(pod.rev) else None))
  }

  predicate InProgress(s: StatefulSet) {
    UpgradeInProgress(Units(s), s.app)
  }

  // ---- Hook bodies -------------------------------------------------------------------------

  datatype Outcome = Done | ActionFailed | AssertionFailed | KeyError

  /** `force` as `reconcile_partition` recomputes it: a mongos always forces when an action asks. */
  function EffectiveForce(kind: CharmKind, fromEvent: bool, force: bool): bool {
    fromEvent && (kind == Mongod ==> force)
  }

  /** The leader's reconcile: the decision, the action's guards, then only ever lower the partition. */
  function Reconcile(s: StatefulSet, fromEvent: bool, force: bool): (StatefulSet, Outcome) {
    match Determine(s.kind, Units(s), s.app, fromEvent, EffectiveForce(s.kind, fromEvent, force))
    case MissingVersion(_) => (s, KeyError)
    case Chosen(p) =>
      if fromEvent && |s.pods| < 2 then (s, AssertionFailed)
      else if fromEvent && p > |s.pods| - 2 then (s, ActionFailed)
      else (if p < s.partition then s.(partition := p) else s, Done)
  }

  predicate Resumed(s: StatefulSet) {
    s.partition < |s.pods| - 1
  }

  function ResumeAction(s: StatefulSet, force: bool): (StatefulSet, Outcome) {
    if !InProgress(s) then (s, ActionFailed) else Reconcile(s, true, force)
  }

  function ForceAction(s: StatefulSet): (StatefulSet, Outcome) {
    if !InProgress(s) then (s, ActionFailed)
    else if s.kind == Mongod && !Resumed(s) then (s, ActionFailed)
    else Reconcile(s, true, true)
  }

  /** The stop hook of unit `u`, after which its pod goes away. */
  function StopHook(s: StatefulSet, u: nat): StatefulSet
    requires u < |s.pods|
  {
    s.(partition := if s.partition < u then u else s.partition,
       pods := s.pods[u := s.pods[u].(up := false, state := Some(Restarting))])
  }

  /** The StatefulSet recreates the pod of `u` on the side of the partition it stands on. */
  function StartPod(s: StatefulSet, u: nat): StatefulSet
    requires u < |s.pods|
  {
    var rev := if u >= s.partition then s.app else s.previous;
    s.(pods := s.pods[u := s.pods[u].(up := true, rev := rev)])
  }

  function MarkHealthy(s: StatefulSet, u: nat): StatefulSet
    requires u < |s.pods|
  {
    s.(pods := s.pods[u := s.pods[u].(state := Some(Healthy))])
  }

  /** The controller may stop `u` for upgrade: allowed by the partition, and every higher pod done. */
  predicate Eligible(s: StatefulSet, u: nat)
    requires u < |s.pods|
  {
    s.partition <= u && s.pods[u].up && !Current(s, u)
    && forall j :: u < j < |s.pods| ==> s.pods[j].up && Current(s, j)
  }

  // ---- Steps and runs ----------------------------------------------------------------------

  datatype Step =
    | Refresh(to: Revision)      // `juju refresh`, once the previous upgrade is over
    | StopForUpgrade(unit: nat)  // the StatefulSet controller
    | StopUnrelated(unit: nat)   // any other restart: eviction, node drain, crash
    | Start(unit: nat)
    | Heal(unit: nat)            // a health check passed on the unit
    | LeaderReconcile
    | Resume(force: bool)
    | ForceStart

  predicate AllUp(s: StatefulSet) {
    forall u :: 0 <= u < |s.pods| ==> s.pods[u].up
  }

  /** Some unit runs, so some unit leads: hooks and actions of the leader need one. */
  predicate LeaderUp(s: StatefulSet) {
    exists u :: 0 <= u < |s.pods| && s.pods[u].up
  }

  /** Refresh when no pod that is up is outdated; pods may be away. */
  predicate RefreshPossible(s: StatefulSet, to: Revision) {
    to != s.app && !InProgress(s)
  }

  predicate Enabled(s: StatefulSet, step: Step) {
    match step
    case Refresh(to) => RefreshPossible(s, to) && AllUp(s)
    case StopForUpgrade(u) => u < |s.pods| && Eligible(s, u)
    case StopUnrelated(u) => u < |s.pods| && s.pods[u].up
    case Start(u) => u < |s.pods| && !s.pods[u].up
    case Heal(u) => u < |s.pods| && s.pods[u].up
    case LeaderReconcile => LeaderUp(s)
    case Resume(_) => LeaderUp(s)
    case ForceStart => LeaderUp(s)
  }

  function Apply(s: StatefulSet, step: Step): StatefulSet
    requires Enabled(s, step)
  {
    match step
    case Refresh(to) => s.(app := to, previous := s.app)
    case StopForUpgrade(u) => StopHook(s, u)
    case StopUnrelated(u) => StopHook(s, u)
    case Start(u) => StartPod(s, u)
    case Heal(u) => MarkHealthy(s, u)
    case LeaderReconcile => Reconcile(s, false, false).0
    case Resume(force) => ResumeAction(s, force).0
    case ForceStart => ForceAction(s).0
  }

  predicate IsRun(s: StatefulSet, run: seq<Step>)
    decreases |run|
  {
    run == [] || (Enabled(s, run[0]) && IsRun(Apply(s, run[0]), run[1..]))
  }

  function After(s: StatefulSet, run: seq<Step>): StatefulSet
    requires IsRun(s, run)
    decreases |run|
  {
    if run == [] then s else After(Apply(s, run[0]), run[1..])
  }

  /** Steps in which the operator forces: on a mongos every action does. */
  predicate Forces(kind: CharmKind, step: Step) {
    match step
    case Resume(force) => force || kind == Mongos
    case ForceStart => true
    case _ => false
  }

  predicate Unforced(kind: CharmKind, run: seq<Step>) {
    forall i :: 0 <= i < |run| ==> !Forces(kind, run[i])
  }

  // ---- What a decision means for unit numbers ------------------------------------------------

  lemma ViewOf(s: StatefulSet, u: nat)
    requires u < |s.pods|
    ensures var v := Units(s)[|s.pods| - 1 - u];
            && v.number == u && v.state == s.pods[u].state
            && v.version == (if s.pods[u].up then Some(s.pods[u].rev) else None)
            && Clear(v, s.app, false) == (IsHealthy(s, u) && s.pods[u].up && Current(s, u))
  {
  }

  lemma InProgressMeans(s: StatefulSet)
    ensures InProgress(s) <==> exists u :: 0 <= u < |s.pods| && s.pods[u].up && !Current(s, u)
  {
    var n, units := |s.pods|, Units(s);
    if u :| 0 <= u < n && s.pods[u].up && !Current(s, u) {
      ViewOf(s, u);
      assert IsOutdated(units[n - 1 - u], s.app);
    }
    if i :| 0 <= i < n && IsOutdated(units[i], s.app) {
      var u := n - 1 - i;
      ViewOf(s, u);
      assert s.pods[u].up && !Current(s, u);
    }
  }

  /** An unforced decision never goes below a unit that is unhealthy, away or outdated. */
  lemma UnforcedBound(s: StatefulSet, fromEvent: bool, p: nat, u: nat)
    requires u < |s.pods| && InProgress(s)
    requires Determine(s.kind, Units(s), s.app, fromEvent, false) == Chosen(p)
    requires !(IsHealthy(s, u) && s.pods[u].up && Current(s, u))
    ensures u <= p < |s.pods|
  {
    ViewOf(s, u);
    var i, n := FirstBlocked(Units(s), s.app, false), |s.pods|;
    assert i <= n - 1 - u by { assert !Clear(Units(s)[n - 1 - u], s.app, false); }
  }

  /** A forced decision stops at the highest unit not on the app revision. */
  lemma ForcedBound(s: StatefulSet, p: nat, u: nat)
    requires p < u < |s.pods| && InProgress(s)
    requires Determine(s.kind, Units(s), s.app, true, true) == Chosen(p)
    ensures s.pods[u].up && Current(s, u)
  {
    ViewOf(s, u);
    var i, n := FirstBlocked(Units(s), s.app, true), |s.pods|;
    InProgressMeans(s);
    var w :| 0 <= w < n && s.pods[w].up && !Current(s, w);
    ViewOf(s, w);
    assert i <= n - 1 - w by { assert !Clear(Units(s)[n - 1 - w], s.app, true); }
    assert n - 1 - u < i;
    assert Clear(Units(s)[n - 1 - u], s.app, true);
  }

  /** Reconcile touches nothing but the partition, and only lowers it. */
  lemma ReconcileFrame(s: StatefulSet, fromEvent: bool, force: bool)
    ensures var t := Reconcile(s, fromEvent, force).0;
            t == s.(partition := t.partition) && t.partition <= s.partition
  {
  }
}
