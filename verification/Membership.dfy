/**
 Replica-set membership: the server's configuration and status, the two edits a connection makes,
 and the two manager loops that bring the members in line with the Juju hosts.
 */
module Membership {
  import opened Names
  import opened Text
  import opened ReplicaSetConfig
  import opened ReplicaSetRuns

  datatype Outcome = Done | NotReady | Failed

  class ReplicaSet {
    var version: nat
    var members: seq<Member>
    var status: Status
    /** Every configuration accepted so far, the current one last. */
    var log: seq<Config>

    ghost predicate Valid()
      reads this
    {
      && WellFormed(members)
      && StatusFor(status, HostNames(members))
      && AtMostOneSyncing(status)
      && log != [] && log[|log| - 1] == Config(version, members) && Chain(log)
    }

    /** Of all configurations ever accepted, no two neighbours can elect disjoint majorities. */
    lemma NoSplitElections(i: nat, q: set<Member>, r: set<Member>)
      requires Valid() && i + 1 < |log| && Majority(q, log[i]) && Majority(r, log[i + 1])
      ensures exists m :: m in q && m in r
    {
      MajoritiesMeet(log[i], log[i + 1], q, r);
      assert exists m :: m in q * r;
    }

    ghost function State(): Server
      reads this
    {
      Server(members, status)
    }

    /** `init_replset` once accepted: ids are positions. */
    constructor (hosts: seq<string>)
      requires forall i, j :: 0 <= i < j < |hosts| ==> HostName(hosts[i]) != HostName(hosts[j])
      ensures Valid() && version == 1 && |members| == |hosts| && |log| == 1
      ensures forall i :: 0 <= i < |members| ==> members[i] == Member(i, hosts[i])
    {
      var ms := seq(|hosts|, i requires 0 <= i < |hosts| => Member(i, hosts[i]));
      version := 1;
      members := ms;
      status := map h | h in HostNames(ms) :: Secondary;
      log := [Config(1, ms)];
    }

    /** Time passes at the server, which may come to rest. */
    method Settle(calm: bool)
      requires Valid()
      modifies this`status
      ensures Valid() && Evolves(old(status), status, HostNames(members))
      ensures calm ==> Calm(status, members)
    {
      var hosts := HostNames(members);
      if calm {
        AtRestIsCalm(status, members);
        status := AtRest(members);
        return;
      }
      assert Evolves(status, status, hosts);
      var next: Status :| Evolves(status, next, hosts);
      assert Evolves(status, next, hosts);
      status := next;
    }

    /**
     `replSetReconfig`.  The server refuses ill-formed configurations and those without the primary, and unless
     calm may fail by itself.
     */
    method Reconfig(ms: seq<Member>, calm: bool) returns (ok: bool)
      requires Valid()
      requires WellFormed(ms) ==> Successor(Config(version, members), Config(version + 1, ms))
      requires AnySync(status) ==> HostNames(ms) <= HostNames(members)
      modifies this
      ensures Valid()
      ensures calm && WellFormed(ms) && PrimaryStays(old(status), ms) ==> ok
      ensures ok ==> WellFormed(ms) && PrimaryStays(old(status), ms) && members == ms && version == old(version) + 1
      ensures ok ==> log == old(log) + [Config(version, ms)]
      ensures ok ==> status == StatusAfter(old(status), HostNames(old(members)), HostNames(ms))
      ensures !ok ==> members == old(members) && version == old(version) && log == old(log) && status == old(status)
    {
      var accepted: bool := *;
      if !(accepted || calm) || !WellFormed(ms) || !PrimaryStays(status, ms) {
        return false;
      }
      var before, now := HostNames(members), HostNames(ms);
      OnlyOneNew(Config(version, members), Config(version + 1, ms));
      StatusStaysConsistent(status, before, now);
      status := StatusAfter(status, before, now);
      members := ms;
      version := version + 1;
      log := log + [Config(version, members)];
      return true;
    }

    /** `add_replset_member`; `m` is the member it appends. */
    method AddMember(hostname: string, calm: bool) returns (r: Outcome, ghost m: Member)
      requires Valid()
      modifies this
      ensures Valid()
      ensures old(AnySync(status)) ==> r == NotReady
      ensures calm && !old(AnySync(status)) && old(members) != [] && HostName(hostname) !in HostNames(old(members)) ==>
                r == Done
      ensures r == Done ==> members == old(members) + [m] && m.host == hostname && version == old(version) + 1
      ensures r == Done ==> forall i :: 0 <= i < |old(members)| ==> old(members)[i].id < m.id
      ensures r == Done ==> HostName(hostname) !in HostNames(old(members)) && AnySync(status)
      ensures r == Done ==> log == old(log) + [Config(version, members)]
      ensures r == Done ==> Possible(old(State()), Adds(m)) && State() == Apply(old(State()), Adds(m))
      ensures r != Done ==> State() == old(State()) && version == old(version) && log == old(log)
    {
      m := Member(0, hostname);
      if AnySync(status) {
        return NotReady, m;
      }
      if members == [] {
        return Failed, m;  // max() of an empty sequence
      }
      var maxId := MaxId(members);
      var newMember := Member(maxId + 1, hostname);
      m := newMember;
      HostNamesSnoc(members, newMember);
      ghost var before := members;
      if HostName(hostname) !in HostNames(members) {
        NewIsWellFormed(members, newMember);
      }
      var ok := Reconfig(members + [newMember], calm);
      if ok {
        assert Syncing(status[HostName(hostname)]);
        assert members[|before|] == m;
        forall i | 0 <= i < |before| ensures HostName(before[i].host) != HostName(hostname) {
          assert members[i] == before[i];
        }
      }
      return if ok then Done else Failed, m;
    }

    /** Time passes, as an event. */
    method Wait(calm: bool) returns (ghost es: seq<Event>)
      requires Valid()
      modifies this`status
      ensures Valid() && Evolves(old(status), status, HostNames(members))
      ensures Happened(old(State()), es, State(), {}, {})
      ensures calm ==> Calm(status, members)
    {
      ghost var before := State();
      Settle(calm);
      es := OneHappened(before, Settles(status));
    }

    /** The step-down before a primary is removed; false if it fails. */
    method StepDownIfPrimary(hostname: string, calm: bool) returns (ok: bool, ghost es: seq<Event>)
      requires Valid() && !AnyRemoving(status)
      modifies this`status
      ensures Valid() && status.Keys <= HostNames(members)
      ensures Happened(old(State()), es, State(), {}, {})
      ensures calm && Dropping(members, {hostname}) != [] ==> ok
      ensures ok ==> !IsPrimary(status, hostname)
      ensures !ok || !IsPrimary(old(status), hostname) ==> status == old(status)
    {
      ghost var before := State();
      es := NothingHappened(before);
      ok := true;
      if IsPrimary(status, hostname) {
        ok := StepDown(hostname, calm);
        if ok {
          es := OneHappened(before, Settles(status));
        }
      }
    }

    /** `replSetStepDown`: the host is not primary for a while.  Works when calm and there is another member. */
    method StepDown(hostname: string, calm: bool) returns (ok: bool)
      requires Valid()
      modifies this`status
      ensures Valid() && Evolves(old(status), status, HostNames(members))
      ensures calm && Dropping(members, {hostname}) != [] ==> ok
      ensures if ok then !IsPrimary(status, hostname) else status == old(status)
    {
      ok := *;
      ok := ok || (calm && Dropping(members, {hostname}) != []);
      assert Evolves(status, status, HostNames(members));
      if ok {
        ghost var secondary := if IsPrimary(status, hostname) then status[hostname := Secondary] else status;
        assert Evolves(status, secondary, HostNames(members)) && !IsPrimary(secondary, hostname);
        var next: Status :| Evolves(status, next, HostNames(members)) && !IsPrimary(next, hostname);
        assert Evolves(status, next, HostNames(members));
        status := next;
      }
    }

    /** The host is filtered out, and the configuration submitted. */
    method SubmitWithout(hostname: string, calm: bool) returns (ok: bool, ghost es: seq<Event>)
      requires Valid() && status.Keys <= HostNames(members)
      modifies this
      ensures Valid() && (calm && !IsPrimary(old(status), hostname) ==> ok)
      ensures ok ==> !IsPrimary(old(status), hostname)
      ensures ok ==> version == old(version) + 1 && members == Dropping(old(members), {hostname})
      ensures ok ==> log == old(log) + [Config(version, members)]
      ensures !ok ==> members == old(members) && version == old(version) && log == old(log)
      ensures Happened(old(State()), es, State(), if ok then {hostname} else {}, {})
    {
      ghost var before := State();
      var kept := FilterMembers(members, hostname);
      DroppingMembers(members, {hostname});
      ok := Reconfig(kept, calm);
      if ok {
        es := OneHappened(before, Removes(hostname));
      } else {
        es := NothingHappened(before);
      }
    }

    /** One attempt of `remove_replset_member`; `es` is what happened at the server meanwhile. */
    method TryRemove(hostname: string, calm: bool) returns (r: Outcome, ghost es: seq<Event>)
      requires Valid()
      modifies this
      ensures Valid()
      ensures old(AnyRemoving(status)) ==> r == NotReady
      ensures calm && !old(AnyRemoving(status)) && old(HasPrimary(status)) ==>
                Dropping(old(members), {hostname}) != [] ==> r == Done
      ensures r == Done ==> version == old(version) + 1 && members == Dropping(old(members), {hostname})
      ensures r == Done ==> log == old(log) + [Config(version, members)]
      ensures r != Done ==> members == old(members) && version == old(version) && log == old(log)
      ensures Happened(old(State()), es, State(), if r == Done then {hostname} else {}, {})
    {
      ghost var before := State();
      es := NothingHappened(before);
      if AnyRemoving(status) {
        return NotReady, es;
      }
      if !HasPrimary(status) {
        return Failed, es;  // "No primary found."
      }
      var ok;
      ok, es := StepDownIfPrimary(hostname, calm);
      if !ok {
        return Failed, es;
      }
      ghost var between, edit := State(), [];
      ok, edit := SubmitWithout(hostname, calm);
      es := ThenHappened(before, es, between, {}, {}, edit, State(), if ok then {hostname} else {}, {});
      return if ok then Done else Failed, es;
    }

    /** `remove_replset_member` with its retries: twenty attempts, the last error is raised. */
    method RemoveMember(hostname: string, calm: bool) returns (r: Outcome, ghost es: seq<Event>)
      requires Valid()
      modifies this
      ensures Valid() && (calm && Dropping(old(members), {hostname}) != [] ==> r == Done)
      ensures r == Done ==> version == old(version) + 1 && members == Dropping(old(members), {hostname})
      ensures r == Done ==> log == old(log) + [Config(version, members)]
      ensures r != Done ==> members == old(members) && version == old(version) && log == old(log)
      ensures Happened(old(State()), es, State(), if r == Done then {hostname} else {}, {})
    {
      ghost var before := State();
      r := NotReady;
      es := NothingHappened(before);
      for attempt := 0 to 20
        invariant Valid()
        invariant members == old(members) && version == old(version) && log == old(log) && r != Done
        invariant Happened(before, es, State(), {}, {})
        invariant calm && Dropping(members, {hostname}) != [] ==> attempt == 0
      {
        ghost var tried;
        ghost var between := State();
        r, tried := WaitAndTryRemove(hostname, calm);
        es := ThenHappened(before, es, between, {}, {}, tried, State(), if r == Done then {hostname} else {}, {});
        if r == Done {
          return;
        }
      }
    }

    method WaitAndTryRemove(hostname: string, calm: bool) returns (r: Outcome, ghost es: seq<Event>)
      requires Valid()
      modifies this
      ensures Valid() && (calm && Dropping(old(members), {hostname}) != [] ==> r == Done)
      ensures r == Done ==> version == old(version) + 1 && members == Dropping(old(members), {hostname})
      ensures r == Done ==> log == old(log) + [Config(version, members)]
      ensures r != Done ==> members == old(members) && version == old(version) && log == old(log)
      ensures Happened(old(State()), es, State(), if r == Done then {hostname} else {}, {})
    {
      ghost var before := State();
      es := Wait(calm);
      ghost var between, tried := State(), [];
      r, tried := TryRemove(hostname, calm);
      es := ThenHappened(before, es, between, {}, {}, tried, State(), if r == Done then {hostname} else {}, {});
    }

    /** One round of the removal loop, after `es` has removed `done`. */
    method RemoveNext(member: string, calm: bool, ghost before: Server, ghost es: seq<Event>, ghost done: set<string>)
      returns (r: Outcome, ghost all: seq<Event>)
      requires Valid() && Happened(before, es, State(), done, {})
      modifies this
      ensures Valid() && (calm && Dropping(old(members), {member}) != [] ==> r == Done)
      ensures r == Done ==> version == old(version) + 1 && members == Dropping(old(members), {member})
      ensures r == Done ==> log == old(log) + [Config(version, members)]
      ensures r != Done ==> members == old(members) && version == old(version) && log == old(log)
      ensures Happened(before, all, State(), if r == Done then done + {member} else done, {})
    {
      ghost var between, removal := State(), [];
      r, removal := RemoveMember(member, calm);
      all := ThenHappened(before, es, between, done, {}, removal, State(), if r == Done then {member} else {}, {});
      assert done + {} == done;
    }

    /** `process_unremoved_units`.  `done` are the hosts whose removal went through. */
    method ProcessUnremovedUnits(hosts: set<string>, calm: bool)
      returns (r: Outcome, ghost done: set<string>, ghost es: seq<Event>)
      requires Valid()
      modifies this
      ensures Valid() && old(log) <= log
      ensures done <= old(status.Keys) - hosts
      ensures members == Dropping(old(members), done) && version == old(version) + |done|
      ensures r == Done ==> done == old(status.Keys) - hosts
      ensures calm && HostNames(old(members)) * hosts != {} ==> r == Done
      ensures Happened(old(State()), es, State(), done, {})
    {
      var all := status.Keys - hosts;
      var todo := all;
      ghost var before := State();
      done := {};
      es := NothingHappened(before);
      DroppingNone(members, {});
      while todo != {}
        invariant Valid() && old(log) <= log
        invariant todo <= all && done == all - todo
        invariant members == Dropping(old(members), done) && version == old(version) + |done|
        invariant Happened(before, es, State(), done, {})
        decreases todo
      {
        var member :| member in todo;
        OneMoreDropped(old(members), done, member, hosts);
        r, es := RemoveNext(member, calm, before, es, done);
        if r != Done {
          return;
        }
        MoveOne(all, todo, member);
        todo, done := todo - {member}, done + {member};
      }
      assert done == all;
      r := Done;
    }

    /** `process_added_units`.  `added` are the members whose addition went through. */
    method ProcessAddedUnits(hosts: set<string>, calm: bool)
      returns (r: Outcome, ghost added: seq<Member>, ghost es: seq<Event>)
      requires Valid()
      requires forall h :: h in hosts ==> Free(h, ':')
      modifies this
      ensures Valid() && old(log) <= log
      ensures members == old(members) + added && version == old(version) + |added|
      ensures HostNames(added) <= hosts - old(status.Keys)
      ensures r == Done ==> HostNames(added) == hosts - old(status.Keys)
      ensures calm && old(members) != [] ==> r == Done
      ensures Happened(old(State()), es, State(), {}, HostNames(added))
    {
      ghost var before := State();
      added := [];
      es := NothingHappened(before);
      var replsetMembers := status.Keys;
      if replsetMembers == hosts {
        return Done, added, es;
      }
      var todo := hosts - replsetMembers;
      while todo != {}
        invariant Valid() && old(log) <= log
        invariant members == old(members) + added && version == old(version) + |added|
        invariant todo <= hosts - old(status.Keys)
        invariant HostNames(added) == (hosts - old(status.Keys)) - todo
        invariant Happened(before, es, State(), {}, HostNames(added))
        decreases todo
      {
        var member :| member in todo;
        ghost var between, m, tried := State(), Member(0, member), [];
        SplitFree(member, ':');
        HostNamesConcat(old(members), added);
        r, m, tried := AddWhenReady(member, calm);
        ghost var now := if r == Done then {member} else {};
        es := ThenHappened(before, es, between, {}, HostNames(added), tried, State(), {}, now);
        if r != Done {
          return;
        }
        HostNamesSnoc(added, m);
        todo, added := todo - {member}, added + [m];
      }
      r := Done;
    }

    /** One round of that loop: the host must be up before it is added. */
    method AddWhenReady(member: string, calm: bool) returns (r: Outcome, ghost m: Member, ghost es: seq<Event>)
      requires Valid()
      modifies this
      ensures Valid()
      ensures calm && old(members) != [] && HostName(member) !in HostNames(old(members)) ==> r == Done
      ensures r == Done ==>
                members == old(members) + [m] && m.host == member && version == old(version) + 1
                && log == old(log) + [Config(version, members)]
      ensures r != Done ==> members == old(members) && version == old(version) && log == old(log)
      ensures Happened(old(State()), es, State(), {}, if r == Done then {member} else {})
    {
      ghost var before := State();
      es := Wait(calm);
      m := Member(0, member);
      var ready: bool := *;
      if !(ready || calm) {
        return NotReady, m, es;
      }
      ghost var between := State();
      r, m := AddMember(member, calm);
      if r == Done {
        ghost var edit := OneHappened(between, Adds(m));
        es := ThenHappened(before, es, between, {}, {}, edit, State(), {}, {member});
      }
    }

    /**
     The membership part of `perform_self_healing`: `update_hosts`, then `on_relation_changed`.
     `removal` and `addition` are what happened at the server during each.
     */
    method PerformSelfHealing(hosts: set<string>, calm: bool)
      returns (r: Outcome, ghost removal: seq<Event>, ghost addition: seq<Event>)
      requires Valid()
      requires forall h :: h in hosts ==> Free(h, ':')
      modifies this
      ensures Valid() && old(log) <= log
      ensures State() == Healed(old(State()), removal, addition)
      ensures r == Done ==> Heals(old(State()), hosts, removal, addition)
      ensures r == Done && WillConverge(old(State()), hosts) ==> HostNames(members) == hosts
      ensures calm && HostNames(old(members)) * hosts != {} ==> r == Done && HostNames(members) == hosts
      ensures old(status.Keys) == HostNames(old(members)) ==>
        version + |Difference(HostNames(members), hosts)| == old(version) + |Difference(HostNames(old(members)), hosts)|
    {
      ghost var before, listed := State(), status.Keys;
      ghost var removed, added;
      r, removed, removal := UpdateHosts(hosts, calm);
      if r != Done {
        addition := NothingHappened(State());
        HealingAccounting(before.members, listed, removed, [], hosts);
        assert members + [] == members;
        return;
      }
      if HostNames(before.members) * hosts != {} {
        SomeWantedStays(before.members, removed, hosts);
      }
      ghost var between := State();
      r, added, addition := ProcessAddedUnits(hosts, calm);
      HealingAccounting(before.members, listed, removed, added, hosts);
      if r == Done && WillConverge(before, hosts) {
        HealingConverges(before, hosts, removal, addition);
      }
      if r == Done && calm {
        assert Clean(between, hosts);
        HealedExactlyWhenClean(before, hosts, removal, addition);
      }
    }

    /** `update_hosts`, and the time until the members are read again. */
    method UpdateHosts(hosts: set<string>, calm: bool)
      returns (r: Outcome, ghost removed: set<string>, ghost es: seq<Event>)
      requires Valid()
      modifies this
      ensures Valid() && old(log) <= log
      ensures removed <= old(status.Keys) - hosts
      ensures members == Dropping(old(members), removed) && version == old(version) + |removed|
      ensures r == Done ==> removed == old(status.Keys) - hosts
      ensures Happened(old(State()), es, State(), removed, {})
      ensures calm ==> Calm(status, members)
      ensures calm && HostNames(old(members)) * hosts != {} ==> r == Done
    {
      ghost var before := State();
      r, removed, es := ProcessUnremovedUnits(hosts, calm);
      ghost var between := State();
      ghost var waited := Wait(calm);
      es := ThenHappened(before, es, between, removed, {}, waited, State(), {}, {});
      assert removed + {} == removed;
    }
  }

  /** A primary is among the members that stay. */
  predicate PrimaryStays(st: Status, ms: seq<Member>) {
    forall h :: h in st && IsPrimary(st, h) ==> h in HostNames(ms)
  }

  lemma NewIsWellFormed(ms: seq<Member>, m: Member)
    requires WellFormed(ms) && HostName(m.host) !in HostNames(ms) && forall i :: 0 <= i < |ms| ==> ms[i].id < m.id
    ensures WellFormed(ms + [m])
  {
    forall i | 0 <= i < |ms| ensures HostName(ms[i].host) != HostName(m.host) {
      HostNamesAt(ms, i);
    }
  }

  /** Removing unwanted hosts leaves the wanted members. */
  lemma SomeWantedStays(ms: seq<Member>, removed: set<string>, hosts: set<string>)
    requires removed !! hosts
    ensures HostNames(ms) * hosts != {} ==> Dropping(ms, removed) != []
  {
    DroppingMembers(ms, removed);
    if HostNames(ms) * hosts != {} {
      var h :| h in HostNames(ms) * hosts;
      assert h in HostNames(Dropping(ms, removed));
    }
  }

  lemma OneMoreDropped(ms: seq<Member>, done: set<string>, h: string, hosts: set<string>)
    requires done !! hosts && h !in hosts
    ensures Dropping(Dropping(ms, done), {h}) == Dropping(ms, done + {h})
    ensures HostNames(ms) * hosts != {} ==> Dropping(Dropping(ms, done), {h}) != []
  {
    DroppingTwice(ms, done, {h});
    SomeWantedStays(ms, done + {h}, hosts);
  }

  /** The hosts on one side only. */
  function Difference(a: set<string>, b: set<string>): set<string> {
    (a - b) + (b - a)
  }

  lemma DifferenceAfterRemoval(a: set<string>, r: set<string>, hosts: set<string>)
    requires r <= a && r !! hosts
    ensures |Difference(a - r, hosts)| + |r| == |Difference(a, hosts)|
  {
    assert Difference(a, hosts) == Difference(a - r, hosts) + r;
  }

  lemma DifferenceAfterAddition(a: set<string>, b: set<string>, hosts: set<string>)
    requires b <= hosts && a !! b
    ensures |Difference(a + b, hosts)| + |b| == |Difference(a, hosts)|
  {
    assert Difference(a, hosts) == Difference(a + b, hosts) + b;
  }

  /** Removing hosts that are not wanted shrinks the difference by one each. */
  lemma RemovalAccounting(ms: seq<Member>, removed: set<string>, hosts: set<string>)
    requires removed <= HostNames(ms) && removed !! hosts
    ensures |Difference(HostNames(Dropping(ms, removed)), hosts)| + |removed| == |Difference(HostNames(ms), hosts)|
  {
    DroppingMembers(ms, removed);
    DifferenceAfterRemoval(HostNames(ms), removed, hosts);
  }

  /** Adding wanted hosts that are missing shrinks the difference by one each. */
  lemma AdditionAccounting(ms: seq<Member>, added: seq<Member>, hosts: set<string>)
    requires WellFormed(ms + added) && HostNames(added) <= hosts
    ensures |Difference(HostNames(ms + added), hosts)| + |added| == |Difference(HostNames(ms), hosts)|
  {
    HostNamesConcat(ms, added);
    HostNamesCount(ms, added);
    DifferenceAfterAddition(HostNames(ms), HostNames(added), hosts);
  }

  lemma {:induction false} HostNamesCount(ms: seq<Member>, added: seq<Member>)
    requires WellFormed(ms + added)
    ensures HostNames(ms) !! HostNames(added) && |HostNames(added)| == |added|
    decreases |added|
  {
    if added != [] {
      var init, m := added[..|added| - 1], added[|added| - 1];
      assert added == init + [m] && ms + added == (ms + init) + [m];
      LastIsNew(ms + init, m);
      HostNamesCount(ms, init);
      HostNamesConcat(ms, init);
      HostNamesSnoc(init, m);
    }
  }

  lemma LastIsNew(ms: seq<Member>, m: Member)
    requires WellFormed(ms + [m])
    ensures WellFormed(ms) && HostName(m.host) !in HostNames(ms)
  {
    var all := ms + [m];
    assert all[|ms|] == m && forall i :: 0 <= i < |ms| ==> all[i] == ms[i];
  }

  lemma HealingAccounting(
      before: seq<Member>, listed: set<string>, removed: set<string>, added: seq<Member>, hosts: set<string>)
    requires removed <= listed - hosts && WellFormed(Dropping(before, removed) + added) && HostNames(added) <= hosts
    ensures listed == HostNames(before) ==>
      |Difference(HostNames(Dropping(before, removed) + added), hosts)| + |removed| + |added|
      == |Difference(HostNames(before), hosts)|
  {
    if listed == HostNames(before) {
      RemovalAccounting(before, removed, hosts);
      AdditionAccounting(Dropping(before, removed), added, hosts);
    }
  }

  lemma MoveOne<T>(all: set<T>, todo: set<T>, x: T)
    requires x in todo && todo <= all
    ensures (all - todo) + {x} == all - (todo - {x}) && |all - (todo - {x})| == |all - todo| + 1
  {
    assert (all - todo) + {x} == all - (todo - {x});
  }

  lemma StatusStaysConsistent(st: Status, before: set<string>, now: set<string>)
    requires StatusFor(st, before) && AtMostOneSyncing(st)
    requires exists x :: now <= before + {x}
    requires AnySync(st) ==> now <= before
    ensures StatusFor(StatusAfter(st, before, now), now) && AtMostOneSyncing(StatusAfter(st, before, now))
  {
    var x :| now <= before + {x};
    var next := StatusAfter(st, before, now);
    forall a, b | a in next && b in next && Syncing(next[a]) && Syncing(next[b]) ensures a == b {
      if a in before && b in before {
      } else if AnySync(st) {
      } else {
      }
    }
  }

  /** A submitted configuration brings in at most one host name. */
  lemma OnlyOneNew(a: Config, b: Config)
    requires Successor(a, b) && WellFormed(a.members)
    ensures exists x :: HostNames(b.members) <= HostNames(a.members) + {x}
  {
    if |b.members| == |a.members| + 1 && b.members[..|a.members|] == a.members {
      assert b.members == a.members + [b.members[|a.members|]];
      HostNamesSnoc(a.members, b.members[|a.members|]);
    } else {
      var h :| b.members == Dropping(a.members, {h});
      DroppingMembers(a.members, {h});
      assert HostNames(b.members) <= HostNames(a.members) + {h};
    }
  }
}
