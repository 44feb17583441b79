/**
 What happens at a replica set, as values: the members and their status, the two edits of a leader, time
 passing in between, and when self-healing converges.
 */
module ReplicaSetRuns {
  import opened Names
  import opened Text
  import opened ReplicaSetConfig

  datatype MemberState =
    | Primary | Secondary | Arbiter | Down | Unknown
    | Startup | Startup2 | Rollback | Recovering
    | Removed

  /** `is_any_sync` on one member. */
  predicate Syncing(s: MemberState) {
    s.Startup? || s.Startup2? || s.Rollback? || s.Recovering?
  }

  /** The status by host name, as `replSetGetStatus` reports it. */
  type Status = map<string, MemberState>

  predicate AnySync(st: Status) {
    exists h :: h in st && Syncing(st[h])
  }

  predicate AnyRemoving(st: Status) {
    exists h :: h in st && st[h] == Removed
  }

  predicate HasPrimary(st: Status) {
    exists h :: h in st && st[h] == Primary
  }

  predicate IsPrimary(st: Status, host: string) {
    host in st && st[host] == Primary
  }

  /** Every member is listed; anything else listed is a member the server has not forgotten yet. */
  predicate StatusFor(st: Status, hosts: set<string>) {
    hosts <= st.Keys && forall h :: h in st && h !in hosts ==> st[h] == Removed
  }

  predicate AtMostOneSyncing(st: Status) {
    forall a, b :: a in st && b in st && Syncing(st[a]) && Syncing(st[b]) ==> a == b
  }

  /** What may happen between two commands: nobody enters initial sync, removed members may be forgotten. */
  predicate Evolves(before: Status, after: Status, hosts: set<string>) {
    StatusFor(after, hosts) && after.Keys <= before.Keys
    && forall h :: h in after && Syncing(after[h]) ==> h in before && Syncing(before[h])
  }

  /** The status once a configuration is accepted: new members start with an initial sync. */
  function StatusAfter(st: Status, before: set<string>, now: set<string>): Status {
    map h | h in st.Keys + now ::
      if h !in now then Removed
      else if h in before && h in st then st[h]
      else Startup2
  }

  /** The members as they are at rest: all listed, nobody else, none syncing, and a primary. */
  predicate Calm(st: Status, ms: seq<Member>) {
    st.Keys == HostNames(ms) && !AnySync(st) && !AnyRemoving(st) && (ms != [] ==> HasPrimary(st))
  }

  datatype Server = Server(members: seq<Member>, status: Status)

  /** Time passes, or the server accepts an edit: hosts filtered out, or one member appended. */
  datatype Event = Settles(next: Status) | Removes(host: string) | Adds(member: Member)

  predicate Proper(s: Server) {
    WellFormed(s.members) && StatusFor(s.status, HostNames(s.members))
  }

  /** The id of an appended member is one above the largest. */
  predicate NextId(ms: seq<Member>, id: int) {
    (forall i :: 0 <= i < |ms| ==> ms[i].id < id) && exists i :: 0 <= i < |ms| && ms[i].id + 1 == id
  }

  /** A removal takes no primary out and finds no member that is being removed, an addition none that syncs. */
  predicate Possible(s: Server, e: Event) {
    match e
    case Settles(next) => Evolves(s.status, next, HostNames(s.members))
    case Removes(h) => s.status.Keys <= HostNames(s.members) && !IsPrimary(s.status, h)
    case Adds(m) => !AnySync(s.status) && NextId(s.members, m.id) && HostName(m.host) !in HostNames(s.members)
  }

  function Apply(s: Server, e: Event): Server {
    match e
    case Settles(next) => s.(status := next)
    case Removes(h) =>
      var kept := Dropping(s.members, {h});
      Server(kept, StatusAfter(s.status, HostNames(s.members), HostNames(kept)))
    case Adds(m) =>
      var ms := s.members + [m];
      Server(ms, StatusAfter(s.status, HostNames(s.members), HostNames(ms)))
  }

  predicate IsRun(s: Server, es: seq<Event>)
    decreases |es|
  {
    es == [] || (Possible(s, es[0]) && IsRun(Apply(s, es[0]), es[1..]))
  }

  function After(s: Server, es: seq<Event>): Server
    decreases |es|
  {
    if es == [] then s else After(Apply(s, es[0]), es[1..])
  }

  function RemovedHosts(es: seq<Event>): set<string> {
    set i | 0 <= i < |es| && es[i].Removes? :: es[i].host
  }

  function AddedHosts(es: seq<Event>): set<string> {
    set i | 0 <= i < |es| && es[i].Adds? :: es[i].member.host
  }

  /** `process_unremoved_units` returns normally: everything listed that is not wanted was removed. */
  predicate RemovesUnwanted(s: Server, hosts: set<string>, es: seq<Event>) {
    IsRun(s, es) && AddedHosts(es) == {} && RemovedHosts(es) == s.status.Keys - hosts
  }

  /** `process_added_units` returns normally: everything wanted that was not listed at its start was added. */
  predicate AddsMissing(s: Server, hosts: set<string>, es: seq<Event>) {
    IsRun(s, es) && RemovedHosts(es) == {} && AddedHosts(es) == hosts - s.status.Keys
  }

  /** Self-healing returns normally. */
  predicate Heals(s: Server, hosts: set<string>, removal: seq<Event>, addition: seq<Event>) {
    RemovesUnwanted(s, hosts, removal) && AddsMissing(After(s, removal), hosts, addition)
  }

  function Healed(s: Server, removal: seq<Event>, addition: seq<Event>): Server {
    After(After(s, removal), addition)
  }

  /** From `s` to `t`, with exactly these hosts removed and added. */
  predicate Happened(s: Server, es: seq<Event>, t: Server, removed: set<string>, added: set<string>) {
    IsRun(s, es) && After(s, es) == t && RemovedHosts(es) == removed && AddedHosts(es) == added
  }

  // ---- Runs fit together --------------------------------------------------------------------------

  lemma NothingHappened(s: Server) returns (es: seq<Event>)
    ensures Happened(s, es, s, {}, {})
  {
    es := [];
  }

  lemma OneHappened(s: Server, e: Event) returns (es: seq<Event>)
    requires Possible(s, e)
    ensures Happened(s, es, Apply(s, e), if e.Removes? then {e.host} else {}, if e.Adds? then {e.member.host} else {})
  {
    es := [e];
    assert es == [e] + [] && es[1..] == [];
    EditsCons(e, []);
    assert IsRun(Apply(s, e), []) && After(Apply(s, e), []) == Apply(s, e);
  }

  lemma ThenHappened(
      s: Server, es: seq<Event>, t: Server, removed: set<string>, added: set<string>,
      more: seq<Event>, u: Server, removedThen: set<string>, addedThen: set<string>)
    returns (all: seq<Event>)
    requires Happened(s, es, t, removed, added) && Happened(t, more, u, removedThen, addedThen)
    ensures Happened(s, all, u, removed + removedThen, added + addedThen)
  {
    EventsConcat(s, es, more);
    all := es + more;
  }

  lemma EditsCons(e: Event, es: seq<Event>)
    ensures RemovedHosts([e] + es) == (if e.Removes? then {e.host} else {}) + RemovedHosts(es)
    ensures AddedHosts([e] + es) == (if e.Adds? then {e.member.host} else {}) + AddedHosts(es)
  {
    var all := [e] + es;
    assert all[0] == e && forall i :: 0 <= i < |es| ==> all[i + 1] == es[i];
    forall h | h in RemovedHosts(es) ensures h in RemovedHosts(all) {
      var i :| 0 <= i < |es| && es[i].Removes? && es[i].host == h;
      assert all[i + 1] == es[i];
    }
    forall h | h in AddedHosts(es) ensures h in AddedHosts(all) {
      var i :| 0 <= i < |es| && es[i].Adds? && es[i].member.host == h;
      assert all[i + 1] == es[i];
    }
  }

  lemma {:induction false} HostNamesConcat(ms: seq<Member>, added: seq<Member>)
    ensures HostNames(ms + added) == HostNames(ms) + HostNames(added)
    decreases |added|
  {
    if added == [] {
      assert ms + added == ms;
    } else {
      var init, m := added[..|added| - 1], added[|added| - 1];
      HostNamesConcat(ms, init);
      assert added == init + [m] && ms + added == (ms + init) + [m];
      HostNamesSnoc(ms + init, m);
      HostNamesSnoc(init, m);
    }
  }

  /** The members at rest: the first is primary. */
  function AtRest(ms: seq<Member>): Status {
    map h | h in HostNames(ms) :: if ms != [] && h == HostName(ms[0].host) then Primary else Secondary
  }

  /** A replica set may come to rest at any time. */
  lemma AtRestIsCalm(st: Status, ms: seq<Member>)
    requires StatusFor(st, HostNames(ms))
    ensures Evolves(st, AtRest(ms), HostNames(ms)) && Calm(AtRest(ms), ms) && AtMostOneSyncing(AtRest(ms))
  {
    var rest := AtRest(ms);
    assert forall h :: h in rest ==> rest[h] == Primary || rest[h] == Secondary;
    if ms != [] {
      HostNamesAt(ms, 0);
      assert rest[HostName(ms[0].host)] == Primary;
    }
  }

  lemma StepKeepsProper(s: Server, e: Event)
    requires Proper(s) && Possible(s, e)
    ensures Proper(Apply(s, e))
  {
    match e
    case Settles(_) =>
    case Removes(h) => DroppingMembers(s.members, {h});
    case Adds(m) =>
      HostNamesSnoc(s.members, m);
      forall i | 0 <= i < |s.members| ensures HostName(s.members[i].host) != HostName(m.host) {
        HostNamesAt(s.members, i);
      }
  }

  lemma HostNamesAt(ms: seq<Member>, i: nat)
    requires i < |ms|
    ensures HostName(ms[i].host) in HostNames(ms)
  {
  }

  // ---- Self-healing converges, exactly ----------------------------------------------------------------

  /** Wanted hosts that the server lists are members. */
  predicate Clean(s: Server, hosts: set<string>) {
    s.status.Keys * hosts <= HostNames(s.members)
  }

  /** Removing an unwanted host needs a server that lists members only. */
  lemma RemovalCleans(s: Server, hosts: set<string>, e: Event)
    requires Proper(s) && Possible(s, e) && !e.Adds? && (e.Removes? ==> e.host !in hosts)
    ensures Clean(s, hosts) || e.Removes? ==> Clean(Apply(s, e), hosts)
    ensures HostNames(Apply(s, e).members) == HostNames(s.members) - if e.Removes? then {e.host} else {}
  {
    if e.Removes? {
      DroppingMembers(s.members, {e.host});
    }
  }

  lemma {:induction false} RemovalPhase(s: Server, hosts: set<string>, es: seq<Event>)
    requires Proper(s) && IsRun(s, es) && AddedHosts(es) == {} && RemovedHosts(es) !! hosts
    ensures Proper(After(s, es)) && HostNames(After(s, es).members) == HostNames(s.members) - RemovedHosts(es)
    ensures Clean(s, hosts) || RemovedHosts(es) != {} ==> Clean(After(s, es), hosts)
    decreases |es|
  {
    if es != [] {
      var e, rest := es[0], es[1..];
      assert es == [e] + rest;
      EditsCons(e, rest);
      assert e.Adds? ==> AddedHosts(es) != {};
      assert e.Removes? ==> e.host in RemovedHosts(es);
      StepKeepsProper(s, e);
      RemovalCleans(s, hosts, e);
      RemovalPhase(Apply(s, e), hosts, rest);
    }
  }

  lemma {:induction false} AdditionPhase(s: Server, es: seq<Event>)
    requires IsRun(s, es) && RemovedHosts(es) == {} && AllPlain(AddedHosts(es))
    ensures HostNames(After(s, es).members) == HostNames(s.members) + AddedHosts(es)
    decreases |es|
  {
    if es != [] {
      var e, rest := es[0], es[1..];
      assert es == [e] + rest;
      EditsCons(e, rest);
      assert e.Removes? ==> RemovedHosts(es) != {};
      if e.Adds? {
        HostNamesSnoc(s.members, e.member);
        assert e.member.host in AddedHosts(es);
      }
      AdditionPhase(Apply(s, e), rest);
    }
  }

  predicate AllPlain(hosts: set<string>) {
    forall h :: h in hosts ==> HostName(h) == h
  }

  lemma PlainHostNames(hosts: set<string>)
    requires forall h :: h in hosts ==> Free(h, ':')
    ensures AllPlain(hosts)
  {
    forall h | h in hosts ensures HostName(h) == h {
      SplitFree(h, ':');
    }
  }

  /**
   What a caller can see beforehand: no wanted host is listed that is not a member, or something unwanted is
   listed, whose removal waits until the server has forgotten such hosts.
   */
  predicate WillConverge(s: Server, hosts: set<string>) {
    Clean(s, hosts) || !(s.status.Keys <= hosts)
  }

  /** A given run converges exactly if no wanted host is listed without being a member once removal is through. */
  lemma HealedExactlyWhenClean(s: Server, hosts: set<string>, removal: seq<Event>, addition: seq<Event>)
    requires Proper(s) && Heals(s, hosts, removal, addition) && forall h :: h in hosts ==> Free(h, ':')
    ensures HostNames(Healed(s, removal, addition).members) == hosts <==> Clean(After(s, removal), hosts)
  {
    RemovalPhase(s, hosts, removal);
    var t := After(s, removal);
    PlainHostNames(hosts);
    AdditionPhase(t, addition);
    assert HostNames(t.members) <= t.status.Keys && HostNames(t.members) <= hosts;
    var now := HostNames(t.members) + (hosts - t.status.Keys);
    if now == hosts {
      assert forall h :: h in t.status.Keys * hosts ==> h in now;
    } else {
      assert now <= hosts;
    }
  }

  lemma HealingConverges(s: Server, hosts: set<string>, removal: seq<Event>, addition: seq<Event>)
    requires Proper(s) && WillConverge(s, hosts) && Heals(s, hosts, removal, addition)
    requires forall h :: h in hosts ==> Free(h, ':')
    ensures HostNames(Healed(s, removal, addition).members) == hosts
  {
    RemovalPhase(s, hosts, removal);
    if !(s.status.Keys <= hosts) {
      var h :| h in s.status.Keys && h !in hosts;
      assert h in RemovedHosts(removal);
    }
    HealedExactlyWhenClean(s, hosts, removal, addition);
  }

  /** The syncing members finish: one of the ways time may pass. */
  function Synced(st: Status): Status {
    map h | h in st :: if Syncing(st[h]) then Secondary else st[h]
  }

  lemma SomeNextId(ms: seq<Member>) returns (id: int)
    requires ms != []
    ensures NextId(ms, id)
  {
    if |ms| == 1 {
      id := ms[0].id + 1;
      assert ms[0].id + 1 == id;
    } else {
      var rest := ms[..|ms| - 1];
      var last := ms[|ms| - 1];
      var below := SomeNextId(rest);
      id := if last.id < below then below else last.id + 1;
      var i :| 0 <= i < |rest| && rest[i].id + 1 == below;
      assert ms[i] == rest[i];
      assert id == below ==> ms[i].id + 1 == id;
      assert id != below ==> ms[|ms| - 1].id + 1 == id;
      forall k | 0 <= k < |ms| ensures ms[k].id < id {
        if k < |rest| { assert ms[k] == rest[k]; }
      }
    }
  }

  lemma {:induction false} EventsConcat(s: Server, a: seq<Event>, b: seq<Event>)
    requires IsRun(s, a) && IsRun(After(s, a), b)
    ensures IsRun(s, a + b) && After(s, a + b) == After(After(s, a), b)
    ensures RemovedHosts(a + b) == RemovedHosts(a) + RemovedHosts(b)
    ensures AddedHosts(a + b) == AddedHosts(a) + AddedHosts(b)
    decreases |a|
  {
    EditsConcat(a, b);
    if a == [] {
      assert a + b == b;
    } else {
      assert (a + b)[0] == a[0] && (a + b)[1..] == a[1..] + b;
      EventsConcat(Apply(s, a[0]), a[1..], b);
    }
  }

  lemma {:induction false} EditsConcat(a: seq<Event>, b: seq<Event>)
    ensures RemovedHosts(a + b) == RemovedHosts(a) + RemovedHosts(b)
    ensures AddedHosts(a + b) == AddedHosts(a) + AddedHosts(b)
    decreases |a|
  {
    if a == [] {
      assert a + b == b;
    } else {
      var e, rest := a[0], a[1..];
      assert a == [e] + rest && a + b == [e] + (rest + b);
      EditsCons(e, rest);
      EditsCons(e, rest + b);
      EditsConcat(rest, b);
    }
  }

  /** A run that adds exactly some hosts. */
  predicate AddsExactly(s: Server, hosts: set<string>, es: seq<Event>) {
    && IsRun(s, es) && RemovedHosts(es) == {} && AddedHosts(es) == hosts
    && Proper(After(s, es)) && After(s, es).members != []
    && HostNames(After(s, es).members) == HostNames(s.members) + hosts
  }

  /** One host is added once the others have synced. */
  lemma AddOne(s: Server, h: string) returns (es: seq<Event>)
    requires Proper(s) && s.members != [] && HostName(h) == h && h !in HostNames(s.members)
    ensures AddsExactly(s, {h}, es)
  {
    var id := SomeNextId(s.members);
    var e1, e2 := Settles(Synced(s.status)), Adds(Member(id, h));
    var t := Apply(s, e1);
    es := [e1, e2];
    assert es[1..] == [e2] && [e2][1..] == [];
    assert Possible(s, e1) && Possible(t, e2);
    assert IsRun(Apply(t, e2), []) && IsRun(t, [e2]);
    StepKeepsProper(s, e1);
    StepKeepsProper(t, e2);
    HostNamesSnoc(s.members, e2.member);
    assert After(Apply(t, e2), []) == Apply(t, e2) && After(t, [e2]) == Apply(t, e2);
    assert es[1].Adds? && es[1].member.host == h;
  }

  lemma AddsCompose(s: Server, h: string, first: seq<Event>, todo: set<string>, rest: seq<Event>)
    returns (es: seq<Event>)
    requires h in todo && AddsExactly(s, {h}, first) && AddsExactly(After(s, first), todo - {h}, rest)
    ensures AddsExactly(s, todo, es)
  {
    EventsConcat(s, first, rest);
    es := first + rest;
    assert {h} + (todo - {h}) == todo;
    assert HostNames(s.members) + {h} + (todo - {h}) == HostNames(s.members) + todo;
  }

  /** Hosts that can be added: a server with members, and plain host names that are not among them. */
  predicate Addable(s: Server, todo: set<string>) {
    Proper(s) && s.members != [] && todo !! HostNames(s.members) && AllPlain(todo)
  }

  lemma AddNext(s: Server, todo: set<string>, h: string) returns (es: seq<Event>)
    requires Addable(s, todo) && h in todo
    ensures AddsExactly(s, {h}, es) && Addable(After(s, es), todo - {h})
  {
    es := AddOne(s, h);
    assert forall x :: x in todo - {h} ==> x in todo;
  }

  lemma AddNothing(s: Server)
    requires Addable(s, {})
    ensures AddsExactly(s, {}, [])
  {
    assert After(s, []) == s && IsRun(s, []);
  }

  /** Any hosts that are not members can be added one after the other. */
  lemma {:induction false} AddAll(s: Server, todo: set<string>) returns (es: seq<Event>)
    requires Addable(s, todo)
    ensures AddsExactly(s, todo, es)
    decreases |todo|
  {
    if todo == {} {
      AddNothing(s);
      es := [];
    } else {
      var h :| h in todo;
      var first := AddNext(s, todo, h);
      var rest := AddAll(After(s, first), todo - {h});
      es := AddsCompose(s, h, first, todo, rest);
    }
  }

  /** Otherwise some run returns normally and leaves out a wanted host: nothing is removed, and it still is listed. */
  lemma HealingMayMiss(s: Server, hosts: set<string>) returns (removal: seq<Event>, addition: seq<Event>)
    requires Proper(s) && s.members != [] && !WillConverge(s, hosts)
    requires forall h :: h in hosts ==> Free(h, ':')
    ensures Heals(s, hosts, removal, addition)
    ensures HostNames(Healed(s, removal, addition).members) != hosts
  {
    removal := [];
    PlainHostNames(hosts);
    addition := AddAll(s, hosts - s.status.Keys);
    var x :| x in s.status.Keys * hosts && x !in HostNames(s.members);
    assert x !in HostNames(After(s, addition).members);
  }

  ghost predicate AlwaysConverges(s: Server, hosts: set<string>) {
    forall removal, addition | Heals(s, hosts, removal, addition) ::
      HostNames(Healed(s, removal, addition).members) == hosts
  }

  /**
   Self-healing that returns normally leaves exactly the wanted hosts as members, whatever happens in between,
   if and only if beforehand no wanted host is listed without being a member, or something unwanted is listed.
   */
  lemma HealingConvergesExactly(s: Server, hosts: set<string>)
    requires Proper(s) && s.members != []
    requires forall h :: h in hosts ==> Free(h, ':')
    ensures AlwaysConverges(s, hosts) <==> WillConverge(s, hosts)
  {
    if WillConverge(s, hosts) {
      forall removal, addition | Heals(s, hosts, removal, addition)
        ensures HostNames(Healed(s, removal, addition).members) == hosts
      {
        HealingConverges(s, hosts, removal, addition);
      }
    } else {
      var removal, addition := HealingMayMiss(s, hosts);
    }
  }

  /** The smallest case: "b" was just removed, is still listed, and is wanted again. */
  lemma StaleEntryIsMissed(hosts: set<string>)
    requires hosts == {"a", "b"}
    ensures var s := Server([Member(0, "a")], map["a" := Primary, "b" := Removed]);
            Proper(s) && Heals(s, hosts, [], []) && HostNames(Healed(s, [], []).members) == {"a"} != hosts
  {
    var s := Server([Member(0, "a")], map["a" := Primary, "b" := Removed]);
    SplitFree("a", ':');
    assert HostName(s.members[0].host) == "a";
    assert HostNames(s.members) == {"a"} by {
      assert forall h :: h in HostNames(s.members) ==> h == "a";
      HostNamesAt(s.members, 0);
    }
    assert s.status.Keys == hosts;
    assert "b" in hosts && "b"[0] != "a"[0];
    assert After(s, []) == s;
  }
}
