/**
 The upgrade decision shared by both substrates.

 Units are listed in descending order of their number, as `units_upgrade_peer_data`
 returns them.  Kubernetes turns the list into a partition number; a machine unit
 turns it into a yes or no for itself.
 */
module UpgradeDecision {
  import opened Wrappers

  type Revision = string

  datatype CharmKind = Mongod | Mongos

  datatype UnitState = Healthy | Restarting | Upgrading | Outdated

  /** What a hook reads about a unit.  `version` is None when no container version is reported for it. */
  datatype UnitView = UnitView(number: nat, state: Option<UnitState>, version: Option<Revision>)

  predicate Descending(units: seq<UnitView>) {
    forall i, j :: 0 <= i < j < |units| ==> units[j].number < units[i].number
  }

  predicate IsOutdated(v: UnitView, app: Revision) {
    v.version.Some? && v.version != Some(app)
  }

  predicate UpgradeInProgress(units: seq<UnitView>, app: Revision) {
    exists i :: 0 <= i < |units| && IsOutdated(units[i], app)
  }

  /** The unit does not hold back the units below it. */
  predicate Clear(v: UnitView, app: Revision, force: bool) {
    (force || v.state == Some(Healthy)) && v.version == Some(app)
  }

  /** The dictionary lookup of the unit's version raises. */
  predicate LookupFails(v: UnitView, force: bool) {
    (force || v.state == Some(Healthy)) && v.version == None
  }

  /** Position of the first unit, from `start` on, that holds back the ones below it. */
  function FirstBlocked(units: seq<UnitView>, app: Revision, force: bool, start: nat := 0): (r: nat)
    requires start <= |units|
    ensures start <= r <= |units|
    ensures forall j :: start <= j < r ==> Clear(units[j], app, force)
    ensures r < |units| ==> !Clear(units[r], app, force)
    decreases |units| - start
  {
    if start == |units| || !Clear(units[start], app, force) then start
    else FirstBlocked(units, app, force, start + 1)
  }

  datatype Verdict = Chosen(partition: nat) | MissingVersion(number: nat)

  /** The partition the leader asks for. */
  function Determine(kind: CharmKind, units: seq<UnitView>, app: Revision, fromEvent: bool, force: bool): Verdict {
    if !UpgradeInProgress(units, app) then Chosen(0)
    else
      var i := FirstBlocked(units, app, force);
      if i == |units| then Chosen(0)
      else if LookupFails(units[i], force) then MissingVersion(units[i].number)
      else if kind == Mongod && !fromEvent && i == 1 then Chosen(units[0].number)
      else Chosen(units[i].number)
  }

  /** The scan as the leader runs it: in order, with an early return. */
  method DeterminePartition(kind: CharmKind, units: seq<UnitView>, app: Revision, fromEvent: bool, force: bool)
    returns (v: Verdict)
    ensures v == Determine(kind, units, app, fromEvent, force)
  {
    v := Chosen(0);
    if !UpgradeInProgress(units, app) {
      return;
    }
    for i := 0 to |units|
      invariant v == Chosen(0)
      invariant FirstBlocked(units, app, force) == FirstBlocked(units, app, force, i)
    {
      var unhealthy := !force && units[i].state != Some(Healthy);
      if !unhealthy && units[i].version == None {
        return MissingVersion(units[i].number);
      }
      if unhealthy || units[i].version != Some(app) {
        if kind == Mongod && !fromEvent && i == 1 {
          return Chosen(units[0].number);
        }
        return Chosen(units[i].number);
      }
    }
  }

  /**
   The decision, said without the scan: the first unit that is unhealthy (unless forced) or not on the app
   revision decides, whatever comes after it.
   */
  lemma DecisionAtFirstBlocker(
      kind: CharmKind, units: seq<UnitView>, app: Revision, fromEvent: bool, force: bool, i: nat)
    requires i < |units| && exists j :: 0 <= j < |units| && units[j].version.Some? && units[j].version != Some(app)
    requires forall j :: 0 <= j < i ==> (force || units[j].state == Some(Healthy)) && units[j].version == Some(app)
    requires !((force || units[i].state == Some(Healthy)) && units[i].version == Some(app))
    ensures Determine(kind, units, app, fromEvent, force)
            == if (force || units[i].state == Some(Healthy)) && units[i].version == None
               then MissingVersion(units[i].number)
               else if kind == Mongod && !fromEvent && i == 1 then Chosen(units[0].number)
               else Chosen(units[i].number)
  {
    var r := FirstBlocked(units, app, force);
    assert !(r < i) by { assert r < i ==> Clear(units[r], app, force); }
    assert !(i < r) by { assert !Clear(units[i], app, force); }
    var j :| 0 <= j < |units| && units[j].version.Some? && units[j].version != Some(app);
    assert IsOutdated(units[j], app);
  }

  /** With no unit on another revision the decision is 0, for every kind, action and flag. */
  lemma NothingOutdatedDecidesZero(kind: CharmKind, units: seq<UnitView>, app: Revision, fromEvent: bool, force: bool)
    requires forall j :: 0 <= j < |units| ==> units[j].version == None || units[j].version == Some(app)
    ensures Determine(kind, units, app, fromEvent, force) == Chosen(0)
  {
    assert forall j :: 0 <= j < |units| ==> !IsOutdated(units[j], app);
  }

  /** Outcome of the pre-upgrade check that guards the first unit on machines. */
  datatype Precheck = SkippedByRollback | Passes | Fails

  datatype Authorization = Yes | No | PrecheckFailed

  /** Whether the machine unit numbered `me` may upgrade, scanning from position `start`. */
  function AuthorizedFrom(kind: CharmKind, units: seq<UnitView>, app: Revision, me: nat, resumed: bool,
                          precheck: Precheck, start: nat := 0): Authorization
    requires start <= |units|
    decreases |units| - start
  {
    if start == |units| then No
    else if units[start].number == me then
      if start == 0 then (if precheck == Fails then PrecheckFailed else Yes)
      else if start == 1 && kind == Mongod then (if resumed then Yes else No)
      else Yes
    else if !Clear(units[start], app, false) then No
    else AuthorizedFrom(kind, units, app, me, resumed, precheck, start + 1)
  }

  /** The scan as a machine unit runs it. */
  method Authorized(kind: CharmKind, units: seq<UnitView>, app: Revision, me: nat, resumed: bool, precheck: Precheck)
    returns (a: Authorization)
    ensures a == AuthorizedFrom(kind, units, app, me, resumed, precheck)
  {
    for i := 0 to |units|
      invariant AuthorizedFrom(kind, units, app, me, resumed, precheck)
             == AuthorizedFrom(kind, units, app, me, resumed, precheck, i)
    {
      if units[i].number == me {
        if i == 0 {
          return if precheck == Fails then PrecheckFailed else Yes;
        } else if i == 1 && kind == Mongod {
          return if resumed then Yes else No;
        }
        return Yes;
      }
      if units[i].version != Some(app) || units[i].state != Some(Healthy) {
        return No;
      }
    }
    return No;
  }

  /** A machine unit is refused or cleared by exactly the units above it. */
  lemma {:induction false} AuthorizedScan(kind: CharmKind, units: seq<UnitView>, app: Revision, k: nat,
                                          resumed: bool, precheck: Precheck, start: nat)
    requires Descending(units)
    requires start <= k < |units|
    ensures AuthorizedFrom(kind, units, app, units[k].number, resumed, precheck, start)
         == if exists j :: start <= j < k && !Clear(units[j], app, false) then No
            else if k == 0 then (if precheck == Fails then PrecheckFailed else Yes)
            else if k == 1 && kind == Mongod && !resumed then No
            else Yes
    decreases k - start
  {
    if start < k && Clear(units[start], app, false) {
      AuthorizedScan(kind, units, app, k, resumed, precheck, start + 1);
    }
  }

  /**
   Both substrates take the same decision: an outdated machine unit is authorized exactly when
   the Kubernetes leader, reading the same units, would put the partition on it.
   */
  lemma SubstratesAgree(kind: CharmKind, units: seq<UnitView>, app: Revision, k: nat, resumed: bool)
    requires Descending(units)
    requires k < |units| && IsOutdated(units[k], app)
    ensures AuthorizedFrom(kind, units, app, units[k].number, resumed, Passes) == Yes
       <==> Determine(kind, units, app, resumed, false) == Chosen(units[k].number)
  {
    AuthorizedScan(kind, units, app, k, resumed, Passes, 0);
    var i := FirstBlocked(units, app, false);
    assert i <= k by { assert !Clear(units[k], app, false); }
    if i == k {
      assert forall j :: 0 <= j < k ==> Clear(units[j], app, false);
    } else {
      assert !Clear(units[i], app, false);
      assert units[i].number != units[k].number;
      assert units[0].number != units[k].number;
    }
  }

  /** Whatever the lists, flags and pre-check outcomes, two outdated units are never both authorized. */
  lemma AtMostOneAuthorized(kind: CharmKind, units: seq<UnitView>, app: Revision, i: nat, j: nat,
                            resumed: bool, precheck: Precheck)
    requires Descending(units)
    requires i < |units| && IsOutdated(units[i], app)
    requires j < |units| && IsOutdated(units[j], app)
    requires AuthorizedFrom(kind, units, app, units[i].number, resumed, precheck) == Yes
    requires AuthorizedFrom(kind, units, app, units[j].number, resumed, precheck) == Yes
    ensures i == j
  {
    AuthorizedScan(kind, units, app, i, resumed, precheck, 0);
    AuthorizedScan(kind, units, app, j, resumed, precheck, 0);
    assert !Clear(units[i], app, false) && !Clear(units[j], app, false);
  }
}
