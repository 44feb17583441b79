/** What a charm learns from a relation-changed event: the difference to the databag it saw last. */
module RelationEvents {
  import opened Wrappers

  type Fields = map<string, string>

  datatype Diff = Diff(added: set<string>, changed: set<string>, deleted: set<string>)

  const NO_DIFF := Diff({}, {}, {})

  /** The databag that is compared and saved: all of it but the saved snapshot itself. */
  function Snapshot(bag: Fields): Fields {
    bag - {"data"}
  }

  function DiffOf(saved: Fields, bag: Fields): Diff {
    var now := Snapshot(bag);
    Diff(now.Keys - saved.Keys,
         (set f | f in saved && f in now && saved[f] != now[f]),
         saved.Keys - now.Keys)
  }

  /** Added, changed and deleted fields are different fields, and name everything that differs. */
  lemma DiffIsExact(saved: Fields, bag: Fields)
    ensures var d := DiffOf(saved, bag);
            && d.added !! d.changed !! d.deleted
            && (d == NO_DIFF <==> Snapshot(bag) == saved)
            && forall f :: f in d.added + d.changed + d.deleted <==>
                 (f in saved) != (f in Snapshot(bag)) || (f in saved && saved[f] != Snapshot(bag)[f])
  {
    var now := Snapshot(bag);
    if DiffOf(saved, bag) == NO_DIFF {
      assert forall f :: f in now && f !in saved ==> f in DiffOf(saved, bag).added;
      assert forall f :: f in saved && f !in now ==> f in DiffOf(saved, bag).deleted;
      assert forall f :: f in saved && f in now && saved[f] != now[f] ==> f in DiffOf(saved, bag).changed;
      assert now == saved;
    }
  }

  /** The saved snapshot in the databag takes no part: it changes no diff, and every other field is compared. */
  lemma SnapshotIgnoresItself(saved: Fields, bag: Fields, data: string)
    ensures DiffOf(saved, bag["data" := data]) == DiffOf(saved, bag - {"data"})
    ensures "data" !in Snapshot(bag)
    ensures forall f :: f != "data" ==>
              (f in Snapshot(bag) <==> f in bag) && (f in bag ==> Snapshot(bag)[f] == bag[f])
  {
    assert Snapshot(bag["data" := data]) == Snapshot(bag - {"data"});
  }

  function Replay(fields: set<string>, d: Diff): set<string> {
    (fields - d.deleted) + d.added
  }

  function ReplayAll(fields: set<string>, diffs: seq<Diff>): set<string>
    decreases |diffs|
  {
    if diffs == [] then fields else ReplayAll(Replay(fields, diffs[0]), diffs[1..])
  }

  /** The diffs of successive databags, each against the one before. */
  function Diffs(saved: Fields, bags: seq<Fields>): seq<Diff>
    decreases |bags|
  {
    if bags == [] then [] else [DiffOf(saved, bags[0])] + Diffs(Snapshot(bags[0]), bags[1..])
  }

  /** Replaying the diffs reproduces which fields each databag had. */
  lemma {:induction false} ReplayReproduces(saved: Fields, bags: seq<Fields>)
    ensures |Diffs(saved, bags)| == |bags|
    ensures forall i :: 0 <= i < |bags| ==>
              ReplayAll(saved.Keys, Diffs(saved, bags)[..i + 1]) == Snapshot(bags[i]).Keys
    decreases |bags|
  {
    if bags != [] {
      var now, rest := Snapshot(bags[0]), Diffs(Snapshot(bags[0]), bags[1..]);
      ReplayReproduces(now, bags[1..]);
      assert Replay(saved.Keys, DiffOf(saved, bags[0])) == now.Keys;
      forall i | 0 <= i < |bags|
        ensures ReplayAll(saved.Keys, Diffs(saved, bags)[..i + 1]) == Snapshot(bags[i]).Keys
      {
        var diffs := Diffs(saved, bags)[..i + 1];
        assert diffs[1..] == rest[..i];
        if i == 0 {
          assert ReplayAll(now.Keys, []) == now.Keys;
        } else {
          assert bags[1..][i - 1] == bags[i];
        }
      }
    }
  }

  // ---- The provider asks for a database once ------------------------------------------------------------

  /** An event reaches a unit; only the leader looks at it. */
  datatype Event = Event(bag: Fields, leader: bool)

  function SavedAfter(saved: Fields, event: Event): Fields {
    if event.leader then Snapshot(event.bag) else saved
  }

  predicate Requested(saved: Fields, event: Event) {
    event.leader && "database" in DiffOf(saved, event.bag).added
  }

  /** What is saved after some events. */
  function Saved(saved: Fields, events: seq<Event>): Fields
    decreases |events|
  {
    if events == [] then saved else SavedAfter(Saved(saved, events[..|events| - 1]), events[|events| - 1])
  }

  /** The databag of the last event that a leader handled, if any. */
  function LastHandled(events: seq<Event>): Option<Fields>
    decreases |events|
  {
    if events == [] then None
    else if events[|events| - 1].leader then Some(events[|events| - 1].bag)
    else LastHandled(events[..|events| - 1])
  }

  lemma {:induction false} SavedIsLastHandled(events: seq<Event>)
    ensures Saved(map[], events) == if LastHandled(events).Some? then Snapshot(LastHandled(events).value) else map[]
    decreases |events|
  {
    if events != [] {
      SavedIsLastHandled(events[..|events| - 1]);
    }
  }

  /** `database_requested` is emitted exactly when a leader sees `database` that the last leader to look did not. */
  lemma RequestedExactlyOnArrival(events: seq<Event>, i: nat)
    requires i < |events|
    ensures Requested(Saved(map[], events[..i]), events[i]) <==>
            && events[i].leader && "database" in events[i].bag
            && (LastHandled(events[..i]).Some? ==> "database" !in LastHandled(events[..i]).value)
  {
    SavedIsLastHandled(events[..i]);
    assert "database" != "data" by {
      assert |"database"| == 8 && |"data"| == 4;
    }
  }

  // ---- The requirer announces one thing at a time -----------------------------------------------------------

  datatype Announcement = DatabaseCreated | EndpointsChanged | ReadOnlyEndpointsChanged

  function Announced(d: Diff): Option<Announcement> {
    if ("username" in d.added && "password" in d.added) || "secret-user" in d.added then Some(DatabaseCreated)
    else if "endpoints" in d.added || "endpoints" in d.changed then Some(EndpointsChanged)
    else if "read-only-endpoints" in d.added || "read-only-endpoints" in d.changed then Some(ReadOnlyEndpointsChanged)
    else None
  }

  /** Fields that a databag keeps once it has them. */
  predicate Keeps(bags: seq<Fields>, field: string) {
    forall i, j :: 0 <= i < j < |bags| && field in bags[i] ==> field in bags[j]
  }

  /**
   With credentials in a secret that stays, `database_created` is announced once, at the first databag that
   has it; nothing is announced of endpoints that arrive with it.
   */
  lemma CreatedOnce(bags: seq<Fields>, i: nat)
    requires i < |bags| && Keeps(bags, "secret-user")
    requires forall k :: 0 <= k < |bags| ==> "username" !in bags[k]
    ensures Announced(DiffOf(if i == 0 then map[] else Snapshot(bags[i - 1]), bags[i])) == Some(DatabaseCreated) <==>
            "secret-user" in bags[i] && forall j :: 0 <= j < i ==> "secret-user" !in bags[j]
  {
    assert "secret-user" != "data" by {
      assert |"secret-user"| == 11 && |"data"| == 4;
    }
  }

  /** What a new databag brings of a field: it was not there, or it was different. */
  predicate Brings(saved: Fields, bag: Fields, field: string) {
    field in bag && field != "data" && (field in saved ==> saved[field] != bag[field])
  }

  predicate Arrives(saved: Fields, bag: Fields, field: string) {
    field in bag && field != "data" && field !in saved
  }

  /** One announcement at most, in this order: credentials that arrive, endpoints that are new, read-only ones. */
  lemma AnnouncedExactly(saved: Fields, bag: Fields)
    ensures var created := (Arrives(saved, bag, "username") && Arrives(saved, bag, "password"))
                           || Arrives(saved, bag, "secret-user");
            var a := Announced(DiffOf(saved, bag));
            && (a == Some(DatabaseCreated) <==> created)
            && (a == Some(EndpointsChanged) <==> !created && Brings(saved, bag, "endpoints"))
            && (a == Some(ReadOnlyEndpointsChanged) <==>
                !created && !Brings(saved, bag, "endpoints") && Brings(saved, bag, "read-only-endpoints"))
  {
  }

  class Observer {
    /** The `data` field of this side's databag. */
    var saved: Fields

    constructor ()
      ensures saved == map[]
    {
      saved := map[];
    }

    method Compare(bag: Fields) returns (d: Diff)
      modifies this
      ensures d == DiffOf(old(saved), bag) && saved == Snapshot(bag)
    {
      var now := map f | f in bag && f != "data" :: bag[f];
      assert now == Snapshot(bag);
      d := Diff(now.Keys - saved.Keys, {}, saved.Keys - now.Keys);
      var common := saved.Keys * now.Keys;
      while common != {}
        invariant common <= saved.Keys * now.Keys
        invariant d == DiffOf(saved, bag).(changed := DiffOf(saved, bag).changed - common)
      {
        var key :| key in common;
        common := common - {key};
        if saved[key] != now[key] {
          d := d.(changed := d.changed + {key});
        }
      }
      saved := now;
    }

    /** The provider's handler: true if it emits `database_requested`. */
    method OnRelationChanged(event: Event) returns (requested: bool)
      modifies this
      ensures saved == SavedAfter(old(saved), event) && requested == Requested(old(saved), event)
    {
      if !event.leader {
        return false;
      }
      var d := Compare(event.bag);
      return "database" in d.added;
    }
  }
}
