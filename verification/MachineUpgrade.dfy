/**
 The rolling upgrade on machines: every unit decides for itself whether it may upgrade, and the
 primary role is moved out of the way of the upgrade.
 */
module MachineUpgrade {
  import opened Wrappers
  import opened UpgradeDecision

  /** `units` is the descending list; `primary` is a position in it, so the last position is the lowest unit. */
  datatype Machines = Machines(
    kind: CharmKind, app: Revision, units: seq<UnitView>, resumed: bool, primary: nat)

  predicate Valid(m: Machines) {
    |m.units| > 0 && Descending(m.units) && m.primary < |m.units|
  }

  predicate Current(m: Machines, i: nat)
    requires i < |m.units|
  {
    m.units[i].version == Some(m.app)
  }

  predicate Outdated(m: Machines, i: nat)
    requires i < |m.units|
  {
    IsOutdated(m.units[i], m.app)
  }

  predicate IsHealthy(m: Machines, i: nat)
    requires i < |m.units|
  {
    m.units[i].state == Some(Healthy)
  }

  function Last(m: Machines): nat
    requires Valid(m)
  {
    |m.units| - 1
  }

  // ---- Hook bodies -------------------------------------------------------------------------

  /** What a unit meets in a hook.  `elected` is who wins the election a step-down starts, if anyone does. */
  datatype HookContext = HookContext(compatible: bool, precheck: Precheck, moved: bool, elected: Option<nat>)

  /** The pre-upgrade check moves the primary to the last unit to upgrade; a failing one may have done so too. */
  function AfterPrecheck(m: Machines, c: HookContext): Machines
    requires Valid(m)
  {
    if m.kind == Mongod && |m.units| >= 2 && (c.precheck == Passes || (c.precheck == Fails && c.moved))
    then m.(primary := Last(m)) else m
  }

  function UpgradeUnit(m: Machines, i: nat, elected: Option<nat>): Machines
    requires Valid(m) && i < |m.units|
  {
    var steppingDown := m.kind == Mongod && m.primary == i && |m.units| >= 2;
    if steppingDown && elected == None then m
    else
      var upgraded := m.units[i].(state := Some(Upgrading), version := Some(m.app));
      m.(units := m.units[i := upgraded], primary := if steppingDown then elected.value else m.primary)
  }

  /** `_reconcile_upgrade` on the unit at position `i`. */
  function UnitHook(m: Machines, i: nat, c: HookContext): Machines
    requires Valid(m) && i < |m.units|
  {
    if !c.compatible || !Outdated(m, i) then m
    else
      var auth := AuthorizedFrom(m.kind, m.units, m.app, m.units[i].number, m.resumed, c.precheck);
      var checked := if i == 0 then AfterPrecheck(m, c) else m;
      if auth == Yes then UpgradeUnit(checked, i, c.elected) else checked
  }

  function ForceHook(m: Machines, i: nat, elected: Option<nat>): Machines
    requires Valid(m) && i < |m.units|
  {
    if !Outdated(m, i) || (m.kind == Mongod && !m.resumed) then m else UpgradeUnit(m, i, elected)
  }

  // ---- Steps and runs ----------------------------------------------------------------------

  datatype Step =
    | Refresh(to: Revision)
    | Hook(position: nat, context: HookContext)
    | PostCheck(position: nat)
    | Resume
    | Force(position: nat, winner: Option<nat>)

  /** An election is won by another member of the replica set. */
  predicate Electable(m: Machines, i: nat, elected: Option<nat>) {
    elected.Some? ==> elected.value < |m.units| && elected.value != i
  }

  predicate Enabled(m: Machines, step: Step) {
    Valid(m) &&
    match step
    case Refresh(to) => forall i :: 0 <= i < |m.units| ==> m.units[i].version != Some(to)
    case Hook(i, c) => i < |m.units| && Electable(m, i, c.elected)
    case PostCheck(i) => i < |m.units| && m.units[i].state == Some(Upgrading)
    case Resume => true
    case Force(i, elected) => i < |m.units| && Electable(m, i, elected)
  }

  function Apply(m: Machines, step: Step): Machines
    requires Enabled(m, step)
  {
    match step
    case Refresh(to) => m.(app := to, resumed := m.kind == Mongos && m.resumed)
    case Hook(i, c) => UnitHook(m, i, c)
    case PostCheck(i) => m.(units := m.units[i := m.units[i].(state := Some(Healthy))])
    case Resume => if UpgradeInProgress(m.units, m.app) then m.(resumed := true) else m
    case Force(i, elected) => ForceHook(m, i, elected)
  }

  predicate IsRun(m: Machines, run: seq<Step>)
    decreases |run|
  {
    run == [] || (Enabled(m, run[0]) && IsRun(Apply(m, run[0]), run[1..]))
  }

  function After(m: Machines, run: seq<Step>): Machines
    requires IsRun(m, run)
    decreases |run|
  {
    if run == [] then m else After(Apply(m, run[0]), run[1..])
  }

  predicate Unforced(run: seq<Step>) {
    forall i :: 0 <= i < |run| ==> !run[i].Force?
  }

  lemma StepKeepsValid(m: Machines, step: Step)
    requires Enabled(m, step)
    ensures Valid(Apply(m, step)) && |Apply(m, step).units| == |m.units| && Apply(m, step).kind == m.kind
  {
  }

  // ---- Order of the upgrade ------------------------------------------------------------------

  /**
   Upgraded units are a prefix of the list, all of it healthy but its last member; a second one needs the resume
   flag.
   */
  predicate Inv(m: Machines) {
    Valid(m)
    && (forall i, j :: 0 <= i < j < |m.units| && Current(m, j) ==> Current(m, i) && IsHealthy(m, i))
    && (forall j :: 1 <= j < |m.units| && m.kind == Mongod && Current(m, j) ==> m.resumed)
  }

  predicate JustRefreshed(m: Machines) {
    Valid(m) && forall i :: 0 <= i < |m.units| ==> !Current(m, i)
  }

  /** The unit at position `i` is upgraded by the step. */
  predicate Upgrades(m: Machines, step: Step, i: nat)
    requires Enabled(m, step) && i < |m.units|
  {
    StepKeepsValid(m, step);
    !step.Refresh? && !Current(m, i) && Current(Apply(m, step), i)
  }

  /** Whoever upgrades unforced was authorized: everyone above is done and healthy. */
  lemma UpgradeNeedsAuthority(m: Machines, step: Step, i: nat)
    requires Inv(m) && Enabled(m, step) && !step.Force? && i < |m.units| && Upgrades(m, step, i)
    ensures step.Hook? && step.position == i
    ensures forall j :: 0 <= j < i ==> Current(m, j) && IsHealthy(m, j)
    ensures m.kind == Mongod && i >= 1 ==> m.resumed
  {
    match step
    case Hook(k, c) =>
      assert k == i;
      AuthorizedScan(m.kind, m.units, m.app, i, m.resumed, c.precheck, 0);
      forall j | 0 <= j < i ensures Current(m, j) && IsHealthy(m, j) {
        assert Clear(m.units[j], m.app, false);
      }
      assert i >= 2 ==> Current(m, 1);
    case PostCheck(k) =>
    case Resume =>
  }

  lemma HookStep(m: Machines, step: Step)
    requires Inv(m) && Enabled(m, step) && step.Hook?
    ensures Inv(Apply(m, step)) && |Apply(m, step).units| == |m.units| && Apply(m, step).kind == m.kind
  {
    var t := Apply(m, step);
    var k := step.position;
    StepKeepsValid(m, step);
    if Upgrades(m, step, k) {
      UpgradeNeedsAuthority(m, step, k);
      assert forall j :: 0 <= j < |m.units| && j != k ==> t.units[j] == m.units[j];
      assert forall j :: 0 <= j < |m.units| && j != k ==>
               Current(t, j) == Current(m, j) && IsHealthy(t, j) == IsHealthy(m, j);
      assert forall j :: k < j < |m.units| ==> !Current(m, j);
    } else {
      assert t.units == m.units;
      assert forall j :: 0 <= j < |m.units| ==> Current(t, j) == Current(m, j) && IsHealthy(t, j) == IsHealthy(m, j);
    }
  }

  lemma InvStep(m: Machines, step: Step)
    requires Inv(m) && Enabled(m, step) && !step.Force?
    ensures Inv(Apply(m, step)) && |Apply(m, step).units| == |m.units| && Apply(m, step).kind == m.kind
  {
    var t := Apply(m, step);
    StepKeepsValid(m, step);
    match step
    case Refresh(to) =>
    case Hook(_, _) => HookStep(m, step);
    case PostCheck(k) =>
      assert forall j :: 0 <= j < |m.units| ==> Current(t, j) == Current(m, j);
      assert forall j :: 0 <= j < |m.units| && IsHealthy(m, j) ==> IsHealthy(t, j);
    case Resume =>
      assert forall j :: 0 <= j < |m.units| ==> Current(t, j) == Current(m, j) && IsHealthy(t, j) == IsHealthy(m, j);
  }

  lemma {:induction false} InvRun(m: Machines, run: seq<Step>)
    requires Inv(m) && IsRun(m, run) && Unforced(run)
    ensures Inv(After(m, run)) && |After(m, run).units| == |m.units| && After(m, run).kind == m.kind
    decreases |run|
  {
    if run != [] {
      assert !run[0].Force?;
      InvStep(m, run[0]);
      InvRun(Apply(m, run[0]), run[1..]);
    }
  }

  /**
   The order theorem: in every unforced run after a refresh, whichever unit the next step upgrades,
   all units above it are upgraded and healthy, and from the second unit on the operator resumed.
   */
  lemma UpgradesInOrder(m: Machines, run: seq<Step>, step: Step, i: nat)
    requires JustRefreshed(m) && IsRun(m, run) && Unforced(run)
    requires Enabled(After(m, run), step) && !step.Force? && i < |After(m, run).units|
    requires Upgrades(After(m, run), step, i)
    ensures var t := After(m, run);
            && (forall j :: 0 <= j < i ==> Current(t, j) && IsHealthy(t, j))
            && (t.kind == Mongod && i >= 1 ==> t.resumed)
  {
    InvRun(m, run);
    UpgradeNeedsAuthority(After(m, run), step, i);
  }

  // ---- Health comes from post-upgrade checks only -----------------------------------------------

  /** No step but its own post-upgrade check makes a unit healthy, and whoever upgrades is left waiting for it. */
  lemma OnlyPostCheckHeals(m: Machines, step: Step, i: nat)
    requires Enabled(m, step) && i < |m.units|
    ensures |Apply(m, step).units| == |m.units|
    ensures !IsHealthy(m, i) && IsHealthy(Apply(m, step), i) ==> step == PostCheck(i)
    ensures Upgrades(m, step, i) ==> Apply(m, step).units[i].state == Some(UnitState.Upgrading)
  {
    StepKeepsValid(m, step);
  }

  lemma {:induction false} UnhealthyUntilChecked(m: Machines, run: seq<Step>, i: nat)
    requires IsRun(m, run) && i < |m.units| && !IsHealthy(m, i)
    requires forall k :: 0 <= k < |run| ==> run[k] != PostCheck(i)
    ensures |After(m, run).units| == |m.units| && !IsHealthy(After(m, run), i)
    decreases |run|
  {
    if run != [] {
      OnlyPostCheckHeals(m, run[0], i);
      UnhealthyUntilChecked(Apply(m, run[0]), run[1..], i);
    }
  }

  /**
   Over runs: once a unit has upgraded, no unit below it upgrades unforced before the upper one has passed
   its post-upgrade check.
   */
  lemma PostCheckBetweenUpgrades(m: Machines, first: Step, run: seq<Step>, last: Step, i: nat, j: nat)
    requires Inv(m) && Enabled(m, first) && !first.Force? && i < j < |m.units| && Upgrades(m, first, i)
    requires IsRun(Apply(m, first), run) && Unforced(run)
    requires Enabled(After(Apply(m, first), run), last) && !last.Force?
    requires j < |After(Apply(m, first), run).units| && Upgrades(After(Apply(m, first), run), last, j)
    ensures exists k :: 0 <= k < |run| && run[k] == PostCheck(i)
  {
    var t := Apply(m, first);
    OnlyPostCheckHeals(m, first, i);
    InvStep(m, first);
    InvRun(t, run);
    UpgradeNeedsAuthority(After(t, run), last, j);
    if forall k :: 0 <= k < |run| ==> run[k] != PostCheck(i) {
      UnhealthyUntilChecked(t, run, i);
    }
  }

  // ---- The resume flag ----------------------------------------------------------------------------

  lemma {:induction false} ResumedByActionOnly(m: Machines, run: seq<Step>)
    requires IsRun(m, run) && !m.resumed && After(m, run).resumed
    ensures exists k :: 0 <= k < |run| && run[k] == Resume
    decreases |run|
  {
    if run != [] && run[0] != Resume {
      assert !Apply(m, run[0]).resumed;
      ResumedByActionOnly(Apply(m, run[0]), run[1..]);
      var k :| 0 <= k < |run[1..]| && run[1..][k] == Resume;
      assert run[k + 1] == Resume;
    } else if run != [] {
      assert run[0] == Resume;
    }
  }

  /**
   From a refresh on, whatever was resumed before: a mongod unit other than the first upgrades unforced only
   after the operator ran the resume action again.
   */
  lemma SecondUnitNeedsResume(m: Machines, to: Revision, run: seq<Step>, step: Step, i: nat)
    requires m.kind == Mongod && Enabled(m, Refresh(to)) && IsRun(Apply(m, Refresh(to)), run) && Unforced(run)
    requires var t := After(Apply(m, Refresh(to)), run);
             Enabled(t, step) && !step.Force? && 1 <= i < |t.units| && Upgrades(t, step, i)
    ensures exists k :: 0 <= k < |run| && run[k] == Resume
  {
    var r := Apply(m, Refresh(to));
    UpgradesInOrder(r, run, step, i);
    InvRun(r, run);
    ResumedByActionOnly(r, run);
  }

  // ---- When a hook does upgrade --------------------------------------------------------------------

  /** The primary is to be restarted, unless the pre-check has just moved it to the last unit. */
  predicate MustStepDown(m: Machines, i: nat, c: HookContext) {
    m.kind == Mongod && |m.units| >= 2 && m.primary == i && !(i == 0 && c.precheck == Passes)
  }

  /** Everything above is done and healthy, the pre-check of the first unit passed, the second has been resumed. */
  predicate MayUpgrade(m: Machines, i: nat, c: HookContext)
    requires i < |m.units|
  {
    && c.compatible
    && (forall j :: 0 <= j < i ==> m.units[j].version == Some(m.app) && m.units[j].state == Some(Healthy))
    && (i == 0 ==> c.precheck != Fails)
    && (i == 1 && m.kind == Mongod ==> m.resumed)
  }

  lemma HookAuthorization(m: Machines, i: nat, c: HookContext)
    requires Valid(m) && i < |m.units|
    ensures AuthorizedFrom(m.kind, m.units, m.app, m.units[i].number, m.resumed, c.precheck) == Yes && c.compatible
            <==> MayUpgrade(m, i, c)
  {
    AuthorizedScan(m.kind, m.units, m.app, i, m.resumed, c.precheck, 0);
    assert forall j :: 0 <= j < i ==>
             (Clear(m.units[j], m.app, false)
              <==> m.units[j].version == Some(m.app) && m.units[j].state == Some(Healthy));
  }

  /** The whole effect of a hook on an outdated unit that may upgrade and, if primary, finds a successor. */
  lemma HookUpgrades(m: Machines, i: nat, c: HookContext)
    requires Enabled(m, Hook(i, c)) && Outdated(m, i) && MayUpgrade(m, i, c)
    requires MustStepDown(m, i, c) ==> c.elected.Some?
    ensures var t := Apply(m, Hook(i, c));
            && t.units == m.units[i := UnitView(m.units[i].number, Some(UnitState.Upgrading), Some(m.app))]
            && t.app == m.app && t.resumed == m.resumed && t.kind == m.kind
            && t.primary == if MustStepDown(m, i, c) then c.elected.value
                            else if i == 0 && m.kind == Mongod && |m.units| >= 2 && c.precheck == Passes
                            then |m.units| - 1 else m.primary
  {
    HookAuthorization(m, i, c);
  }

  /** A hook upgrades its unit exactly if it is outdated, may upgrade and, if primary, finds a successor. */
  lemma HookUpgradesExactly(m: Machines, i: nat, c: HookContext)
    requires Enabled(m, Hook(i, c)) && m.units[i].version.Some?
    ensures Upgrades(m, Hook(i, c), i) <==>
            Outdated(m, i) && MayUpgrade(m, i, c) && (MustStepDown(m, i, c) ==> c.elected.Some?)
    ensures !Upgrades(m, Hook(i, c), i) ==>
              Apply(m, Hook(i, c)) == if m.kind == Mongod && |m.units| >= 2 && i == 0 && Outdated(m, 0)
                                         && c.compatible && c.precheck == Fails && c.moved
                                      then m.(primary := |m.units| - 1) else m
  {
    HookAuthorization(m, i, c);
    StepKeepsValid(m, Hook(i, c));
  }

  /** A force action upgrades an outdated unit exactly if resumed, unless a mongos, and a primary finds a successor. */
  lemma ForceUpgradesExactly(m: Machines, i: nat, elected: Option<nat>)
    requires Enabled(m, Force(i, elected)) && m.units[i].version.Some?
    ensures var steps := m.kind == Mongod && |m.units| >= 2 && m.primary == i;
            var t := Apply(m, Force(i, elected));
            if m.units[i].version != Some(m.app) && (m.kind == Mongos || m.resumed) && (steps ==> elected.Some?)
            then t == m.(units := m.units[i := UnitView(m.units[i].number, Some(UnitState.Upgrading), Some(m.app))],
                         primary := if steps then elected.value else m.primary)
            else t == m
  {
  }

  // ---- Completion -------------------------------------------------------------------------------------

  /** Every unit reports a version, and is healthy or waits for its post-upgrade check. */
  predicate Settling(m: Machines) {
    Valid(m) && forall i :: 0 <= i < |m.units| ==>
                  m.units[i].version.Some?
                  && (m.units[i].state == Some(Healthy) || m.units[i].state == Some(UnitState.Upgrading))
  }

  /** The units above position `k` are upgraded and healthy. */
  predicate DoneAbove(m: Machines, k: nat) {
    k <= |m.units| && forall i :: 0 <= i < k ==> Current(m, i) && IsHealthy(m, i)
  }

  /** Upgraded units stay upgraded. */
  predicate KeepsCurrent(m: Machines, t: Machines) {
    |t.units| == |m.units| && t.app == m.app && t.kind == m.kind && t.resumed == m.resumed
    && forall i :: 0 <= i < |m.units| && Current(m, i) ==> Current(t, i)
  }

  lemma FinishHook(m: Machines, k: nat) returns (step: Step)
    requires Settling(m) && k < |m.units| && DoneAbove(m, k) && !Current(m, k)
    requires k == 1 && m.kind == Mongod ==> m.resumed
    ensures step.Hook? && Enabled(m, step)
    ensures var t := Apply(m, step); Settling(t) && KeepsCurrent(m, t) && DoneAbove(t, k) && Current(t, k)
  {
    var c := HookContext(true, Passes, true, if |m.units| == 1 then None else Some(if k == 0 then 1 else 0));
    step := Hook(k, c);
    forall j | 0 <= j < k ensures m.units[j].version == Some(m.app) && m.units[j].state == Some(Healthy) {
      assert Current(m, j) && IsHealthy(m, j);
    }
    HookUpgrades(m, k, c);
    StepKeepsValid(m, step);
    var t := Apply(m, step);
    assert forall i :: 0 <= i < |m.units| && i != k ==>
             t.units[i] == m.units[i] && Current(t, i) == Current(m, i) && IsHealthy(t, i) == IsHealthy(m, i);
  }

  lemma FinishCheck(m: Machines, k: nat)
    requires Settling(m) && k < |m.units| && DoneAbove(m, k) && Current(m, k) && !IsHealthy(m, k)
    ensures Enabled(m, PostCheck(k))
    ensures var t := Apply(m, PostCheck(k)); Settling(t) && KeepsCurrent(m, t) && DoneAbove(t, k + 1)
  {
    StepKeepsValid(m, PostCheck(k));
    var t := Apply(m, PostCheck(k));
    assert forall i :: 0 <= i < |m.units| && i != k ==>
             t.units[i] == m.units[i] && Current(t, i) == Current(m, i) && IsHealthy(t, i) == IsHealthy(m, i);
  }

  lemma SingleStep(m: Machines, step: Step)
    requires Enabled(m, step)
    ensures IsRun(m, [step]) && After(m, [step]) == Apply(m, step)
  {
    var t := Apply(m, step);
    assert [step][1..] == [] && IsRun(t, []) && After(t, []) == t;
  }

  /** One unit: its hook if it is outdated, its post-upgrade check if it needs one. */
  lemma FinishUnit(m: Machines, k: nat) returns (run: seq<Step>)
    requires Settling(m) && k < |m.units| && DoneAbove(m, k)
    requires k == 1 && m.kind == Mongod ==> m.resumed || Current(m, k)
    ensures IsRun(m, run) && Unforced(run) && |run| <= 2
    ensures var t := After(m, run); Settling(t) && KeepsCurrent(m, t) && DoneAbove(t, k + 1)
  {
    var t := m;
    run := [];
    if !Current(m, k) {
      var step := FinishHook(m, k);
      SingleStep(m, step);
      t := Apply(m, step);
      run := [step];
    }
    if !IsHealthy(t, k) {
      FinishCheck(t, k);
      SingleStep(t, PostCheck(k));
      RunConcat(m, run, [PostCheck(k)]);
      run := run + [PostCheck(k)];
    }
  }

  lemma {:induction false} RunConcat(m: Machines, a: seq<Step>, b: seq<Step>)
    requires IsRun(m, a) && IsRun(After(m, a), b)
    ensures IsRun(m, a + b) && After(m, a + b) == After(After(m, a), b)
    decreases |a|
  {
    if a == [] {
      assert a + b == b;
    } else {
      assert (a + b)[0] == a[0] && (a + b)[1..] == a[1..] + b;
      RunConcat(Apply(m, a[0]), a[1..], b);
    }
  }

  lemma {:induction false} FinishUnits(m: Machines, k: nat) returns (run: seq<Step>)
    requires Settling(m) && DoneAbove(m, k)
    requires m.kind == Mongod ==> m.resumed || AllCurrent(m)
    ensures IsRun(m, run) && Unforced(run) && |run| <= 2 * (|m.units| - k)
    ensures var t := After(m, run);
            Settling(t) && |t.units| == |m.units| && t.app == m.app && DoneAbove(t, |t.units|)
    decreases |m.units| - k
  {
    if k == |m.units| {
      run := [];
    } else {
      var first := FinishUnit(m, k);
      var t := After(m, first);
      assert AllCurrent(m) ==> forall i :: 0 <= i < |t.units| ==> Current(m, i) && Current(t, i);
      var rest := FinishUnits(t, k + 1);
      RunConcat(m, first, rest);
      run := first + rest;
    }
  }

  /**
   Progress: from every state in which units are healthy or wait for their check, one resume and at most two
   steps per unit, none forced, upgrade everything.
   */
  lemma UpgradeCompletes(m: Machines) returns (run: seq<Step>)
    requires Settling(m)
    ensures IsRun(m, run) && Unforced(run) && |run| <= 2 * |m.units| + 1
    ensures var t := After(m, run);
            |t.units| == |m.units| && t.app == m.app && DoneAbove(t, |t.units|)
  {
    var t := Apply(m, Resume);
    assert forall i :: 0 <= i < |m.units| && !Current(m, i) ==> IsOutdated(m.units[i], m.app);
    SingleStep(m, Resume);
    assert forall i :: 0 <= i < |m.units| ==> Current(t, i) == Current(m, i);
    var rest := FinishUnits(t, 0);
    RunConcat(m, [Resume], rest);
    run := [Resume] + rest;
  }

  // ---- The primary ---------------------------------------------------------------------------

  predicate Started(m: Machines)
    requires Valid(m)
  {
    Current(m, 0)
  }

  predicate AllCurrent(m: Machines) {
    forall i :: 0 <= i < |m.units| ==> Current(m, i)
  }

  /** Once the upgrade has started, the primary waits on the last unit until everything else is done. */
  predicate PrimaryInv(m: Machines) {
    Inv(m) && m.kind == Mongod && |m.units| >= 2 && (forall i :: 0 <= i < |m.units| ==> m.units[i].version.Some?)
    && (Started(m) ==> AllCurrent(m) || (m.primary == Last(m) && Outdated(m, Last(m))))
  }

  /** A step of one upgrade whose pre-check is not skipped as a rollback. */
  predicate Ordinary(step: Step) {
    !step.Refresh? && !step.Force? && (step.Hook? ==> step.context.precheck != SkippedByRollback)
  }

  predicate OrdinaryRun(run: seq<Step>) {
    forall i :: 0 <= i < |run| ==> Ordinary(run[i])
  }

  predicate HandsOver(m: Machines, step: Step)
    requires Enabled(m, step)
  {
    Started(m) && Apply(m, step).primary != m.primary
  }

  function Handovers(m: Machines, run: seq<Step>): nat
    requires IsRun(m, run)
    decreases |run|
  {
    if run == [] then 0
    else (if HandsOver(m, run[0]) then 1 else 0) + Handovers(Apply(m, run[0]), run[1..])
  }

  /** An upgrade hook on an outdated unit, by whether it goes through. */
  lemma PrimaryHook(m: Machines, step: Step)
    requires PrimaryInv(m) && Enabled(m, step) && Ordinary(step) && step.Hook? && Outdated(m, step.position)
    ensures var t := Apply(m, step);
            |t.units| == |m.units| && t.app == m.app
            && (Started(t) ==> AllCurrent(t) || (t.primary == Last(t) && Outdated(t, Last(t))))
            && (HandsOver(m, step) ==> AllCurrent(t))
  {
    var t, k := Apply(m, step), step.position;
    AuthorizedScan(m.kind, m.units, m.app, k, m.resumed, step.context.precheck, 0);
    if Upgrades(m, step, k) {
      UpgradeNeedsAuthority(m, step, k);
      assert forall j :: 0 <= j < |m.units| && j != k ==>
               Current(t, j) == Current(m, j) && Outdated(t, j) == Outdated(m, j);
    } else {
      assert t.units == m.units;
      assert forall j :: 0 <= j < |m.units| ==> Current(t, j) == Current(m, j) && Outdated(t, j) == Outdated(m, j);
    }
  }

  lemma StepKeepsVersions(m: Machines, step: Step)
    requires Enabled(m, step) && !step.Refresh? && !step.Force?
    requires forall i :: 0 <= i < |m.units| ==> m.units[i].version.Some?
    ensures forall i :: 0 <= i < |Apply(m, step).units| ==> Apply(m, step).units[i].version.Some?
    ensures |Apply(m, step).units| == |m.units|
    ensures AllCurrent(m) ==> AllCurrent(Apply(m, step))
  {
    if AllCurrent(m) {
      forall j | 0 <= j < |m.units| ensures Current(Apply(m, step), j) {
        assert Current(m, j) && (step.Hook? ==> Current(m, step.position));
      }
    }
  }

  lemma PrimaryStep(m: Machines, step: Step)
    requires PrimaryInv(m) && Enabled(m, step) && Ordinary(step)
    ensures PrimaryInv(Apply(m, step)) && |Apply(m, step).units| == |m.units|
    ensures HandsOver(m, step) ==> AllCurrent(Apply(m, step)) && !AllCurrent(m)
    ensures AllCurrent(m) ==> AllCurrent(Apply(m, step))
  {
    var t := Apply(m, step);
    InvStep(m, step);
    StepKeepsVersions(m, step);
    if step.Hook? && Outdated(m, step.position) {
      PrimaryHook(m, step);
      assert !Current(m, step.position);
    } else {
      assert t.primary == m.primary;
      assert forall j :: 0 <= j < |m.units| ==> Current(t, j) == Current(m, j) && Outdated(t, j) == Outdated(m, j);
    }
  }

  /**
   In every ordinary upgrade the primary role changes hands at most once after it has started, and
   not at all when every unit is already upgraded: the new primary is never restarted again.
   */
  lemma {:induction false} PrimaryMovesAtMostOnce(m: Machines, run: seq<Step>)
    requires PrimaryInv(m) && IsRun(m, run) && OrdinaryRun(run)
    ensures PrimaryInv(After(m, run))
    ensures Handovers(m, run) <= if AllCurrent(m) then 0 else 1
    ensures Handovers(m, run) == 1 ==> AllCurrent(After(m, run))
    ensures AllCurrent(m) ==> AllCurrent(After(m, run))
    decreases |run|
  {
    if run != [] {
      assert Ordinary(run[0]);
      PrimaryStep(m, run[0]);
      PrimaryMovesAtMostOnce(Apply(m, run[0]), run[1..]);
    }
  }

  /** A refreshed mongod application meets the conditions wherever its primary is. */
  lemma RefreshedMeetsPrimaryInv(m: Machines)
    requires JustRefreshed(m) && m.kind == Mongod && |m.units| >= 2
    requires forall i :: 0 <= i < |m.units| ==> m.units[i].version.Some?
    ensures PrimaryInv(m)
  {
  }

  /**
   From the refresh on: wherever the primary was, it changes hands at most once after the first unit has
   upgraded, and if it does, every unit is upgraded by then.
   */
  lemma OneHandoverPerUpgrade(m: Machines, run: seq<Step>)
    requires JustRefreshed(m) && m.kind == Mongod && |m.units| >= 2
    requires forall i :: 0 <= i < |m.units| ==> m.units[i].version.Some?
    requires IsRun(m, run) && OrdinaryRun(run)
    ensures Handovers(m, run) <= 1
    ensures Handovers(m, run) == 1 ==> AllCurrent(After(m, run))
    ensures var t := After(m, run); Valid(t) && (Started(t) ==> AllCurrent(t) || t.primary == Last(t))
  {
    RefreshedMeetsPrimaryInv(m);
    PrimaryMovesAtMostOnce(m, run);
  }

  /** A hand-over upgrades the last unit, and hands over to a unit that was upgraded before. */
  lemma HandoverIsTheLastUpgrade(m: Machines, step: Step)
    requires PrimaryInv(m) && Enabled(m, step) && Ordinary(step) && HandsOver(m, step)
    ensures step.Hook? && step.position == Last(m) && Upgrades(m, step, Last(m))
    ensures var p := Apply(m, step).primary; p < Last(m) && Current(m, p) && IsHealthy(m, p)
  {
    PrimaryStep(m, step);
    InvStep(m, step);
    var t := Apply(m, step);
    match step
    case Hook(k, c) =>
      AuthorizedScan(m.kind, m.units, m.app, k, m.resumed, c.precheck, 0);
      assert k == Last(m);
      assert Upgrades(m, step, k);
      UpgradeNeedsAuthority(m, step, k);
    case PostCheck(k) => assert false;
    case Resume => assert false;
  }

  // ---- As the charm executes it --------------------------------------------------------------

  class Charm {
    const kind: CharmKind
    const app: Revision
    var units: seq<UnitView>
    var resumed: bool
    var primary: nat

    function Snapshot(): (m: Machines)
      reads this
      ensures m == Machines(kind, app, units, resumed, primary)
    {
      Machines(kind, app, units, resumed, primary)
    }

    constructor (kind: CharmKind, app: Revision, units: seq<UnitView>, primary: nat)
      ensures Snapshot() == Machines(kind, app, units, false, primary)
    {
      this.kind := kind;
      this.app := app;
      this.units := units;
      this.resumed := false;
      this.primary := primary;
    }

    /** `upgrade_unit`: step down if primary, then upgrade in place. */
    method UpgradeThisUnit(i: nat, elected: Option<nat>)
      requires Valid(Snapshot()) && i < |units|
      modifies this`units, this`primary
      ensures Snapshot() == UpgradeUnit(old(Snapshot()), i, elected)
    {
      if kind == Mongod && primary == i && |units| >= 2 {
        if elected == None {
          return;
        }
        primary := elected.value;
      }
      units := units[i := units[i].(state := Some(Upgrading))];
      units := units[i := units[i].(version := Some(app))];
    }

    /** `_reconcile_upgrade` and `_on_vm_outdated`. */
    method ReconcileUpgrade(i: nat, c: HookContext)
      requires Valid(Snapshot()) && i < |units|
      modifies this`units, this`primary
      ensures Snapshot() == UnitHook(old(Snapshot()), i, c)
    {
      if !c.compatible || !IsOutdated(units[i], app) {
        return;
      }
      var authorized := Authorized(kind, units, app, units[i].number, resumed, c.precheck);
      if i == 0 && kind == Mongod && |units| >= 2 && (c.precheck == Passes || (c.precheck == Fails && c.moved)) {
        primary := |units| - 1;
      }
      if authorized == Yes {
        UpgradeThisUnit(i, c.elected);
      }
    }

    method OnForceAction(i: nat, elected: Option<nat>)
      requires Valid(Snapshot()) && i < |units|
      modifies this`units, this`primary
      ensures Snapshot() == ForceHook(old(Snapshot()), i, elected)
    {
      if !UpgradeInProgress(units, app) || !IsOutdated(units[i], app) {
        return;
      }
      if kind == Mongod && !resumed {
        return;
      }
      UpgradeThisUnit(i, elected);
    }
  }
}
