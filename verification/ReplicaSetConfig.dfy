/**
 Replica-set configurations as the leader edits them: one member at a time, with fresh ids, and
 what that means for elections.
 */
module ReplicaSetConfig {
  import opened Names

  datatype Member = Member(id: int, host: string)

  datatype Config = Config(version: nat, members: seq<Member>)

  function HostNames(ms: seq<Member>): set<string> {
    set i | 0 <= i < |ms| :: HostName(ms[i].host)
  }

  /** Ids and host names are pairwise distinct. */
  predicate WellFormed(ms: seq<Member>) {
    forall i, j :: 0 <= i < j < |ms| ==> ms[i].id != ms[j].id && HostName(ms[i].host) != HostName(ms[j].host)
  }

  /** The members whose host name is not in `drop`, in their order. */
  function Dropping(ms: seq<Member>, drop: set<string>): seq<Member> {
    if ms == [] then []
    else if HostName(ms[0].host) in drop then Dropping(ms[1..], drop)
    else [ms[0]] + Dropping(ms[1..], drop)
  }

  /** The list comprehension of `remove_replset_member`. */
  method FilterMembers(ms: seq<Member>, hostname: string) returns (kept: seq<Member>)
    ensures kept == Dropping(ms, {hostname})
  {
    kept := [];
    for i := 0 to |ms|
      invariant kept + Dropping(ms[i..], {hostname}) == Dropping(ms, {hostname})
    {
      assert ms[i..][1..] == ms[i + 1..];
      if hostname != HostName(ms[i].host) {
        kept := kept + [ms[i]];
      }
    }
  }

  lemma {:induction false} DroppingKeeps(ms: seq<Member>, drop: set<string>, m: Member)
    ensures m in Dropping(ms, drop) <==> m in ms && HostName(m.host) !in drop
  {
    if ms != [] {
      DroppingKeeps(ms[1..], drop, m);
      assert ms == [ms[0]] + ms[1..];
    }
  }

  lemma {:induction false} DroppingNames(ms: seq<Member>, drop: set<string>)
    ensures HostNames(Dropping(ms, drop)) == HostNames(ms) - drop
  {
    if ms != [] {
      DroppingNames(ms[1..], drop);
      assert ms == [ms[0]] + ms[1..];
      HostNamesCons(ms[0], ms[1..]);
      HostNamesCons(ms[0], Dropping(ms[1..], drop));
    }
  }

  lemma {:induction false} DroppingWellFormed(ms: seq<Member>, drop: set<string>)
    requires WellFormed(ms)
    ensures WellFormed(Dropping(ms, drop))
  {
    if ms != [] {
      DroppingWellFormed(ms[1..], drop);
      var kept := Dropping(ms[1..], drop);
      forall j | 0 <= j < |kept| ensures kept[j].id != ms[0].id && HostName(kept[j].host) != HostName(ms[0].host) {
        DroppingKeeps(ms[1..], drop, kept[j]);
        var k :| 0 <= k < |ms[1..]| && ms[1..][k] == kept[j];
        assert ms[k + 1] == kept[j];
      }
    }
  }

  /** Filtering hosts out keeps exactly the other members, and keeps ids and host names distinct. */
  lemma DroppingMembers(ms: seq<Member>, drop: set<string>)
    ensures forall m :: m in Dropping(ms, drop) <==> m in ms && HostName(m.host) !in drop
    ensures HostNames(Dropping(ms, drop)) == HostNames(ms) - drop
    ensures WellFormed(ms) ==> WellFormed(Dropping(ms, drop))
  {
    forall m ensures m in Dropping(ms, drop) <==> m in ms && HostName(m.host) !in drop {
      DroppingKeeps(ms, drop, m);
    }
    DroppingNames(ms, drop);
    if WellFormed(ms) {
      DroppingWellFormed(ms, drop);
    }
  }

  lemma HostNamesCons(m: Member, ms: seq<Member>)
    ensures HostNames([m] + ms) == {HostName(m.host)} + HostNames(ms)
  {
    var all := [m] + ms;
    forall h | h in HostNames(ms) ensures h in HostNames(all) {
      var i :| 0 <= i < |ms| && HostName(ms[i].host) == h;
      assert all[i + 1] == ms[i];
    }
    assert all[0] == m;
  }

  lemma {:induction false} DroppingTwice(ms: seq<Member>, a: set<string>, b: set<string>)
    ensures Dropping(Dropping(ms, a), b) == Dropping(ms, a + b)
  {
    if ms != [] {
      DroppingTwice(ms[1..], a, b);
    }
  }

  lemma {:induction false} DroppingNone(ms: seq<Member>, drop: set<string>)
    requires HostNames(ms) !! drop
    ensures Dropping(ms, drop) == ms
  {
    if ms != [] {
      HostNamesCons(ms[0], ms[1..]);
      assert ms == [ms[0]] + ms[1..];
      DroppingNone(ms[1..], drop);
    }
  }

  lemma HostNamesSnoc(ms: seq<Member>, m: Member)
    ensures HostNames(ms + [m]) == HostNames(ms) + {HostName(m.host)}
  {
    var all := ms + [m];
    forall h | h in HostNames(ms) ensures h in HostNames(all) {
      var i :| 0 <= i < |ms| && HostName(ms[i].host) == h;
      assert all[i] == ms[i];
    }
    assert all[|ms|] == m;
  }

  /** `max_id` over the current members. */
  method MaxId(ms: seq<Member>) returns (m: int)
    requires ms != []
    ensures exists i :: 0 <= i < |ms| && ms[i].id == m
    ensures forall i :: 0 <= i < |ms| ==> ms[i].id <= m
  {
    m := ms[0].id;
    for i := 1 to |ms|
      invariant exists k :: 0 <= k < |ms| && ms[k].id == m
      invariant forall k :: 0 <= k < i ==> ms[k].id <= m
    {
      if ms[i].id > m {
        m := ms[i].id;
      }
    }
  }

  // ---- One member at a time --------------------------------------------------------------------

  /** `b` is submitted after `a`: the next version, with one member appended or at most one host filtered out. */
  ghost predicate Successor(a: Config, b: Config) {
    b.version == a.version + 1 && WellFormed(b.members)
    && ((|b.members| == |a.members| + 1 && b.members[..|a.members|] == a.members)
        || exists h :: b.members == Dropping(a.members, {h}))
  }

  /** The configs submitted one after the other. */
  ghost predicate Chain(log: seq<Config>) {
    (forall i :: 0 <= i < |log| ==> WellFormed(log[i].members))
    && forall i :: 0 <= i < |log| - 1 ==> Successor(log[i], log[i + 1])
  }

  function Voters(c: Config): set<Member> {
    set m | m in c.members
  }

  predicate Majority(q: set<Member>, c: Config) {
    q <= Voters(c) && 2 * |q| > |Voters(c)|
  }

  /** A set with at most one element more than another. */
  lemma Overlap(small: set<Member>, big: set<Member>, q: set<Member>, r: set<Member>)
    requires small <= big && |big| <= |small| + 1
    requires q <= small && 2 * |q| > |small|
    requires r <= big && 2 * |r| > |big|
    ensures q * r != {}
  {
    if q * r == {} {
      assert |q + r| == |q| + |r|;
      SubsetSize(q + r, big);
      SubsetSize(small, big);
    }
  }

  lemma {:induction false} SubsetSize<T>(a: set<T>, b: set<T>)
    requires a <= b
    ensures |a| <= |b|
    decreases a
  {
    if a != {} {
      var x :| x in a;
      SubsetSize(a - {x}, b - {x});
    }
  }

  /** Members of one host name are one member. */
  lemma OneMemberPerHost(ms: seq<Member>, x: Member, y: Member)
    requires WellFormed(ms) && x in ms && y in ms && HostName(x.host) == HostName(y.host)
    ensures x == y
  {
    var i :| 0 <= i < |ms| && ms[i] == x;
    var j :| 0 <= j < |ms| && ms[j] == y;
    assert !(i < j) && !(j < i);
  }

  lemma KeptVoters(a: Config, b: Config, h: string, m: Member)
    requires WellFormed(a.members) && b.members == Dropping(a.members, {h})
    requires m in a.members && HostName(m.host) == h
    ensures Voters(a) <= Voters(b) + {m}
  {
    forall x | x in Voters(a) && x != m ensures x in Voters(b) {
      DroppingKeeps(a.members, {h}, x);
      if HostName(x.host) == h {
        OneMemberPerHost(a.members, x, m);
      }
    }
  }

  /** A filter on one host of a well-formed config drops at most one voter. */
  lemma DroppingOne(a: Config, b: Config, h: string)
    requires WellFormed(a.members) && b.members == Dropping(a.members, {h})
    ensures Voters(b) <= Voters(a) && |Voters(a)| <= |Voters(b)| + 1
  {
    DroppingMembers(a.members, {h});
    if m :| m in a.members && HostName(m.host) == h {
      KeptVoters(a, b, h, m);
      SubsetSize(Voters(a), Voters(b) + {m});
    } else {
      assert Voters(a) == Voters(b);
    }
  }

  /** Every majority of a config meets every majority of the next one. */
  lemma MajoritiesMeet(a: Config, b: Config, q: set<Member>, r: set<Member>)
    requires WellFormed(a.members) && Successor(a, b)
    requires Majority(q, a) && Majority(r, b)
    ensures q * r != {}
  {
    if |b.members| == |a.members| + 1 && b.members[..|a.members|] == a.members {
      var m := b.members[|a.members|];
      assert b.members == a.members + [m];
      assert Voters(b) == Voters(a) + {m};
      Overlap(Voters(a), Voters(b), q, r);
    } else {
      var h :| b.members == Dropping(a.members, {h});
      DroppingOne(a, b, h);
      Overlap(Voters(b), Voters(a), r, q);
    }
  }

  /** One member at a time is needed: two members appended at once already allow disjoint majorities. */
  lemma TwoAtOnceSplits(a: Config, b: Config)
    requires |a.members| == 1 && |b.members| == 3 && b.members[0] == a.members[0] && WellFormed(b.members)
    ensures var q, r := {a.members[0]}, {b.members[1], b.members[2]};
            Majority(q, a) && Majority(r, b) && q * r == {}
  {
    var x, y, z := b.members[0], b.members[1], b.members[2];
    assert x.id != y.id && x.id != z.id && y.id != z.id;
    assert Voters(a) == {x};
    assert Voters(b) == {x, y, z};
    assert |{y, z}| == 2 && |{x, y, z}| == 3;
  }
}
