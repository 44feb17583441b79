/**
 Adding, draining and removing shards: the sharded cluster as mongos reports it, the commands the
 config server issues, and the loops that keep the cluster in line with the relations.
 */
module Shards {
  import opened Wrappers
  import opened Names

  datatype Shard = Shard(draining: bool, chunks: nat)

  /** One line of `dbStats`: the key is `name/host:port,...`. */
  datatype Space = Space(key: string, bytes: nat)

  datatype Database = Database(primary: string, stats: seq<Space>)

  /** A `movePrimary` as the server saw it: was the target a shard, and was it draining, at that moment. */
  datatype Move = Move(db: string, from: string, to: string, size: int, available: int, known: bool, draining: bool)

  datatype Outcome =
    | Done | NotReady | NotInCluster | NotDrained | NotEnoughSpace | BalancerOff
    | OperationFailed | AuthenticationFailed | ConnectionFailed

  /** How the server takes a `removeShard`: whether it does, and whether it tells the remaining chunks. */
  datatype RemoveAnswer = RemoveAnswer(works: bool, tells: bool)

  /**
   The server during one removal: whether the balancer starts, its answers to the two `removeShard`, the
   databases it agrees to move, and the free space it reports before each move.
   */
  datatype Removal = Removal(
    starts: bool, first: RemoveAnswer, second: RemoveAnswer, movable: set<string>, reports: map<string, seq<Space>>)

  /** How the server takes an `addShard`. */
  datatype Answer = Accepts | RefusesAuthentication | RefusesOtherwise | Unreachable

  // ---- The two scans over storage figures ------------------------------------------------------

  /** Size of a database on a shard: the first line for it, or nothing. */
  function SizeOn(stats: seq<Space>, shard: string): nat {
    if stats == [] then 0
    else if ShardName(stats[0].key) == shard then stats[0].bytes
    else SizeOn(stats[1..], shard)
  }

  /** Line `k` is the first for the shard. */
  predicate FirstLine(stats: seq<Space>, shard: string, k: nat) {
    k < |stats| && ShardName(stats[k].key) == shard && forall i :: 0 <= i < k ==> ShardName(stats[i].key) != shard
  }

  /** The bytes of the first line for the shard, and 0 if it has none. */
  predicate IsSize(stats: seq<Space>, shard: string, size: nat) {
    && (forall k :: 0 <= k < |stats| && FirstLine(stats, shard, k) ==> size == stats[k].bytes)
    && ((forall k :: 0 <= k < |stats| ==> ShardName(stats[k].key) != shard) ==> size == 0)
  }

  lemma {:induction false} SizeIsFirstLine(stats: seq<Space>, shard: string)
    ensures IsSize(stats, shard, SizeOn(stats, shard))
  {
    if stats != [] && ShardName(stats[0].key) != shard {
      SizeIsFirstLine(stats[1..], shard);
      forall k | 0 <= k < |stats| && FirstLine(stats, shard, k) ensures SizeOn(stats, shard) == stats[k].bytes {
        assert FirstLine(stats[1..], shard, k - 1);
      }
      assert forall k :: 0 <= k < |stats[1..]| ==> stats[1..][k] == stats[k + 1];
    }
  }

  method GetDbSizeOnPrimaryShard(stats: seq<Space>, shard: string) returns (size: nat)
    ensures size == SizeOn(stats, shard)
    ensures IsSize(stats, shard, size)
  {
    SizeIsFirstLine(stats, shard);
    for i := 0 to |stats|
      invariant SizeOn(stats, shard) == SizeOn(stats[i..], shard)
    {
      assert stats[i..][1..] == stats[i + 1..];
      if ShardName(stats[i].key) == shard {
        return stats[i].bytes;
      }
    }
    return 0;
  }

  /** Line `k` is for another shard than `ignore`, has the most space of those, and is the first such line. */
  predicate BestAt(stats: seq<Space>, ignore: string, k: nat)
    requires k < |stats|
  {
    ShardName(stats[k].key) != ignore
    && forall i :: 0 <= i < |stats| && ShardName(stats[i].key) != ignore
         ==> stats[i].bytes <= stats[k].bytes && (i < k ==> stats[i].bytes < stats[k].bytes)
  }

  predicate OnlyIgnored(stats: seq<Space>, ignore: string) {
    forall i :: 0 <= i < |stats| ==> ShardName(stats[i].key) == ignore
  }

  /** The shard with the most space, or the empty name and -1 when there is no candidate. */
  predicate IsBest(stats: seq<Space>, ignore: string, name: string, bytes: int) {
    if OnlyIgnored(stats, ignore) then name == "" && bytes == -1
    else
      exists k | 0 <= k < |stats| && BestAt(stats, ignore, k) ::
        ShardName(stats[k].key) == name && stats[k].bytes == bytes
  }

  method GetShardWithMostAvailableSpace(stats: seq<Space>, ignore: string) returns (name: string, bytes: int)
    ensures IsBest(stats, ignore, name, bytes)
  {
    name, bytes := "", -1;
    for n := 0 to |stats|
      invariant IsBest(stats[..n], ignore, name, bytes)
    {
      var shard := ShardName(stats[n].key);
      BestSoFar(stats[..n], stats[n], ignore, name, bytes);
      assert stats[..n + 1] == stats[..n] + [stats[n]];
      if shard == ignore {
        continue;
      }
      if stats[n].bytes > bytes {
        name, bytes := shard, stats[n].bytes;
      }
    }
    assert stats[..|stats|] == stats;
  }

  lemma BestSoFar(seen: seq<Space>, line: Space, ignore: string, name: string, bytes: int)
    requires IsBest(seen, ignore, name, bytes)
    ensures var shard := ShardName(line.key);
            if shard != ignore && line.bytes > bytes then IsBest(seen + [line], ignore, shard, line.bytes)
            else IsBest(seen + [line], ignore, name, bytes)
  {
    var all, n := seen + [line], |seen|;
    assert all[n] == line && forall i :: 0 <= i < n ==> all[i] == seen[i];
    if !OnlyIgnored(seen, ignore) {
      var k :| 0 <= k < n && BestAt(seen, ignore, k) && ShardName(seen[k].key) == name && seen[k].bytes == bytes;
      assert ShardName(all[k].key) != ignore;
      assert BestAt(all, ignore, k) || BestAt(all, ignore, n);
    } else if ShardName(line.key) != ignore {
      assert BestAt(all, ignore, n);
    }
  }

  // ---- The cluster -----------------------------------------------------------------------------

  type ShardMap = map<string, Shard>
  type DatabaseMap = map<string, Database>

  predicate AtMostOneDraining(shards: ShardMap) {
    forall a, b :: a in shards && b in shards && shards[a].draining && shards[b].draining ==> a == b
  }

  predicate AnyDraining(shards: ShardMap, ignore: string) {
    exists s :: s in shards && s != ignore && shards[s].draining
  }

  function DatabasesFor(dbs: DatabaseMap, shard: string): set<string> {
    set d | d in dbs && dbs[d].primary == shard
  }

  /** What a move must be: to another shard of the cluster that is not draining and has the space. */
  predicate GoodMove(m: Move) {
    m.known && !m.draining && m.to != m.from && m.size <= m.available
  }

  /** Only databases of `from` may get another primary, and then one that takes it well. */
  predicate OnlyLeaves(before: DatabaseMap, after: DatabaseMap, from: string, shards: ShardMap) {
    after.Keys == before.Keys
    && forall d :: d in before ==>
         after[d].stats == before[d].stats
         && (after[d].primary != before[d].primary ==>
               before[d].primary == from && after[d].primary != from
               && after[d].primary in shards && !shards[after[d].primary].draining)
  }

  /** Shards other than `name` stay as they are. */
  predicate OthersUntouched(before: ShardMap, after: ShardMap, name: string) {
    after - {name} == before - {name}
  }

  /** What an accepted `removeShard` does. */
  function AfterRemoveShard(shards: ShardMap, dbs: DatabaseMap, name: string): ShardMap
    requires name in shards
  {
    if !shards[name].draining then shards[name := shards[name].(draining := true)]
    else if shards[name].chunks == 0 && DatabasesFor(dbs, name) == {} then shards - {name}
    else shards
  }

  /** Some other shard reports room for the database. */
  predicate HasRoom(report: seq<Space>, from: string, size: nat) {
    exists k :: 0 <= k < |report| && ShardName(report[k].key) != from && size <= report[k].bytes
  }

  /** The server reports free space for shards of the cluster only. */
  function Listed(report: seq<Space>, names: set<string>): (lines: seq<Space>)
    ensures forall k :: 0 <= k < |lines| ==> ShardName(lines[k].key) in names
  {
    if report == [] then []
    else (if ShardName(report[0].key) in names then [report[0]] else []) + Listed(report[1..], names)
  }

  function ReportFor(env: Removal, db: string, names: set<string>): seq<Space> {
    if db in env.reports then Listed(env.reports[db], names) else []
  }

  /** The server agrees to move the database, and one of the other shards reports room for it. */
  predicate Moves(env: Removal, dbs: DatabaseMap, others: set<string>, from: string, db: string)
    requires db in dbs
  {
    && db in env.movable && db in env.reports
    && exists k :: 0 <= k < |env.reports[db]| && ShardName(env.reports[db][k].key) in others
                   && SizeOn(dbs[db].stats, from) <= env.reports[db][k].bytes
  }

  lemma {:induction false} ListedRoom(report: seq<Space>, names: set<string>, from: string, size: nat)
    ensures HasRoom(Listed(report, names), from, size) <==>
            exists k :: 0 <= k < |report| && ShardName(report[k].key) in names - {from} && size <= report[k].bytes
  {
    if report != [] {
      var rest := report[1..];
      ListedRoom(rest, names, from, size);
      assert forall k :: 0 <= k < |rest| ==> rest[k] == report[k + 1];
      var first := if ShardName(report[0].key) in names then [report[0]] else [];
      RoomConcat(first, Listed(rest, names), from, size);
      if k :| 0 <= k < |rest| && ShardName(rest[k].key) in names - {from} && size <= rest[k].bytes {
        assert ShardName(report[k + 1].key) in names - {from};
      }
      if k :| 0 <= k < |report| && ShardName(report[k].key) in names - {from} && size <= report[k].bytes {
        assert k > 0 ==> ShardName(rest[k - 1].key) in names - {from} && size <= rest[k - 1].bytes;
      }
    }
  }

  lemma RoomConcat(a: seq<Space>, b: seq<Space>, from: string, size: nat)
    ensures HasRoom(a + b, from, size) <==> HasRoom(a, from, size) || HasRoom(b, from, size)
  {
    var all := a + b;
    if k :| 0 <= k < |a| && ShardName(a[k].key) != from && size <= a[k].bytes {
      assert all[k] == a[k];
    }
    if k :| 0 <= k < |b| && ShardName(b[k].key) != from && size <= b[k].bytes {
      assert all[|a| + k] == b[k];
    }
  }

  /** Part of the databases of a shard have been moved away, `rest` is to come. */
  predicate Moving(
      before: DatabaseMap, now: DatabaseMap, from: string, shards: ShardMap, todo: set<string>, rest: set<string>,
      env: Removal)
  {
    && OnlyLeaves(before, now, from, shards)
    && todo <= DatabasesFor(before, from)
    && DatabasesFor(now, from) == DatabasesFor(before, from) - (todo - rest)
    && forall db :: db in todo - rest ==> Moves(env, before, shards.Keys - {from}, from, db)
  }

  lemma NextMoves(
      before: DatabaseMap, now: DatabaseMap, from: string, shards: ShardMap, todo: set<string>, rest: set<string>,
      env: Removal, db: string)
    requires Moving(before, now, from, shards, todo, rest, env) && rest <= todo && db in rest
    ensures db in now && now[db].primary == from
    ensures Moves(env, now, shards.Keys - {from}, from, db) <==> Moves(env, before, shards.Keys - {from}, from, db)
  {
    assert db in DatabasesFor(now, from);
  }

  lemma OneMoved(
      before: DatabaseMap, now: DatabaseMap, after: DatabaseMap, from: string, shards: ShardMap, todo: set<string>,
      rest: set<string>, env: Removal, db: string, to: string)
    requires Moving(before, now, from, shards, todo, rest, env) && rest <= todo && db in rest
    requires Moves(env, before, shards.Keys - {from}, from, db)
    requires db in now && after == now[db := now[db].(primary := to)]
    requires to != from && to in shards && !shards[to].draining
    ensures Moving(before, after, from, shards, todo, rest - {db}, env)
  {
    assert before[db].primary == from;
    assert DatabasesFor(after, from) == DatabasesFor(now, from) - {db};
  }

  /**
   The shard is gone after its primaries were moved: it was draining without chunks, every database it was the
   primary of moves, and the second `removeShard` works, answers and is not for the last shard.
   */
  predicate EndsRemoval(shards: ShardMap, dbs: DatabaseMap, name: string, env: Removal)
    requires name in shards
  {
    && DatabasesFor(dbs, name) != {}
    && (forall db :: db in DatabasesFor(dbs, name) ==> Moves(env, dbs, shards.Keys - {name}, name, db))
    && env.second.works && env.second.tells && shards.Keys != {name}
    && shards[name].draining && shards[name].chunks == 0
  }

  lemma BestHasRoom(report: seq<Space>, ignore: string, name: string, bytes: int, size: nat)
    requires IsBest(report, ignore, name, bytes)
    ensures size <= bytes <==> HasRoom(report, ignore, size)
  {
    if !OnlyIgnored(report, ignore) {
      var k :| 0 <= k < |report| && BestAt(report, ignore, k)
               && ShardName(report[k].key) == name && report[k].bytes == bytes;
    }
  }

  /** Nothing stands in the way of removing the shard: not busy, the balancer runs, and the command works. */
  predicate Startable(shards: ShardMap, balancing: bool, name: string, env: Removal) {
    && name in shards && !AnyDraining(shards, name) && (balancing || env.starts)
    && env.first.works && shards.Keys != {name}
  }

  /**
   One call finishes the removal: nothing stands in its way, no chunk remains, and a shard without primaries
   was draining already, while one with primaries is gone once they have moved.
   */
  predicate Finishes(shards: ShardMap, dbs: DatabaseMap, balancing: bool, name: string, env: Removal) {
    && Startable(shards, balancing, name, env) && env.first.tells && shards[name].chunks == 0
    && if DatabasesFor(dbs, name) == {} then shards[name].draining
       else EndsRemoval(AfterRemoveShard(shards, dbs, name), dbs, name, env)
  }

  /** Shards outside `done` are as before. */
  predicate OnlyDropped(before: ShardMap, now: ShardMap, done: set<string>) {
    now.Keys <= before.Keys && forall s :: s in before && s !in done ==> s in now && now[s] == before[s]
  }

  /** Shards of `done` that are still there are as before, and were kept because another one was draining. */
  predicate Leftover(before: ShardMap, now: ShardMap, done: set<string>) {
    forall s :: s in now && s in done ==> s in before && now[s] == before[s] && AnyDraining(before, s)
  }

  /** Databases of shards outside `done` are as before. */
  predicate OnlyMoved(before: DatabaseMap, now: DatabaseMap, done: set<string>) {
    now.Keys == before.Keys && forall d :: d in before && before[d].primary !in done ==> now[d] == before[d]
  }

  class Cluster {
    var shards: ShardMap
    var dbs: DatabaseMap
    var balancing: bool
    /** Every `movePrimary` the server carried out. */
    var moves: seq<Move>

    ghost predicate Valid()
      reads this
    {
      && AtMostOneDraining(shards)
      && (forall d :: d in dbs ==> dbs[d].primary in shards)
      && (forall i :: 0 <= i < |moves| ==> GoodMove(moves[i]))
    }

    constructor ()
      ensures Valid() && shards == map[] && dbs == map[] && moves == []
    {
      shards, dbs, balancing, moves := map[], map[], false, [];
    }

    // ---- Server commands ------------------------------------------------------------------------

    /**
     Between hooks: chunks drain away, databases come and go with a primary the server picks, the balancer may
     stop.
     */
    method Background(newDbs: DatabaseMap, chunks: map<string, nat>)
      requires Valid()
      requires forall d :: d in newDbs ==> newDbs[d].primary in shards
      modifies this`shards, this`dbs, this`balancing
      ensures Valid() && dbs == newDbs
      ensures shards.Keys == old(shards.Keys)
      ensures forall s :: s in shards ==> shards[s].draining == old(shards)[s].draining
    {
      shards := map s | s in shards :: shards[s].(chunks := if s in chunks then chunks[s] else shards[s].chunks);
      dbs := newDbs;
      balancing := *;
    }

    /** `addShard`. */
    method AddShardCommand(name: string, answer: Answer) returns (r: Outcome)
      requires Valid() && name !in shards
      modifies this`shards
      ensures Valid() && (r == Done <==> answer == Accepts)
      ensures shards == if answer == Accepts then old(shards)[name := Shard(false, 0)] else old(shards)
      ensures r == AuthenticationFailed <==> answer == RefusesAuthentication
      ensures r == OperationFailed <==> answer == RefusesOtherwise
      ensures r == ConnectionFailed <==> answer == Unreachable
    {
      match answer
      case Accepts =>
        shards := shards[name := Shard(false, 0)];
        return Done;
      case RefusesAuthentication => return AuthenticationFailed;
      case RefusesOtherwise => return OperationFailed;
      case Unreachable => return ConnectionFailed;
    }

    /**
     `removeShard`: starts draining, or ends it once nothing is left, or only reports.  It refuses the last
     shard.  `remaining` is the chunk count when the answer carries one.
     */
    method RemoveShardCommand(name: string, answer: RemoveAnswer) returns (ok: bool, remaining: Option<nat>)
      requires Valid() && !AnyDraining(shards, name)
      modifies this`shards
      ensures Valid() && OthersUntouched(old(shards), shards, name)
      ensures ok <==> answer.works && name in old(shards) && old(shards).Keys != {name}
      ensures remaining == if ok && answer.tells then Some(old(shards)[name].chunks) else None
      ensures shards == if ok then AfterRemoveShard(old(shards), dbs, name) else old(shards)
    {
      remaining := None;
      ok := answer.works && name in shards && shards.Keys != {name};
      if !ok {
        return;
      }
      if answer.tells {
        remaining := Some(shards[name].chunks);
      }
      if !shards[name].draining {
        shards := shards[name := shards[name].(draining := true)];
      } else if shards[name].chunks == 0 && DatabasesFor(dbs, name) == {} {
        assert forall d :: d in dbs ==> dbs[d].primary != name by {
          assert forall d :: d in dbs && dbs[d].primary == name ==> d in DatabasesFor(dbs, name);
        }
        shards := shards - {name};
      }
    }

    /** `movePrimary`: the server knows the shard, or the command fails. */
    method MovePrimaryCommand(db: string, to: string, size: int, available: int, agrees: bool) returns (ok: bool)
      requires Valid() && db in dbs && size <= available && to != dbs[db].primary
      requires to in shards ==> !shards[to].draining
      modifies this`dbs, this`moves
      ensures Valid()
      ensures ok <==> agrees && to in shards
      ensures !ok ==> dbs == old(dbs) && moves == old(moves)
      ensures ok ==> dbs == old(dbs)[db := old(dbs)[db].(primary := to)]
      ensures ok ==> moves == old(moves) + [Move(db, old(dbs)[db].primary, to, size, available, true, false)]
    {
      ok := agrees && to in shards;
      if ok {
        moves := moves + [Move(db, dbs[db].primary, to, size, available, to in shards, shards[to].draining)];
        dbs := dbs[db := dbs[db].(primary := to)];
      }
    }

    // ---- The connection ---------------------------------------------------------------------------

    method AddShard(name: string, answer: Answer) returns (r: Outcome)
      requires Valid()
      modifies this`shards
      ensures Valid()
      ensures name in old(shards) ==> shards == old(shards) && r == Done
      ensures name !in old(shards) ==>
                && (r == Done <==> answer == Accepts) && (r == OperationFailed <==> answer == RefusesOtherwise)
                && shards == if answer == Accepts then old(shards)[name := Shard(false, 0)] else old(shards)
    {
      if name in shards {
        return Done;
      }
      r := AddShardCommand(name, answer);
    }

    /** `starts` is whether the balancer comes up once it is asked to. */
    method PreRemoveShardChecks(name: string, starts: bool) returns (r: Outcome)
      requires Valid()
      modifies this`balancing
      ensures Valid()
      ensures r == NotInCluster <==> name !in shards
      ensures r == NotReady <==> name in shards && AnyDraining(shards, name)
      ensures r == Done <==> name in shards && !AnyDraining(shards, name) && (old(balancing) || starts)
      ensures r in {NotInCluster, NotReady, BalancerOff, Done} && (r == Done ==> balancing)
    {
      if name !in shards {
        return NotInCluster;
      }
      if AnyDraining(shards, name) {
        return NotReady;
      }
      if balancing {
        return Done;
      }
      balancing := starts;
      return if balancing then Done else BalancerOff;
    }

    /** `remove_shard` of the connection. */
    method RemoveShardOnce(name: string, answer: RemoveAnswer) returns (r: Outcome)
      requires Valid() && !AnyDraining(shards, name)
      modifies this`shards
      ensures Valid() && OthersUntouched(old(shards), shards, name)
      ensures name in shards ==> name in old(shards)
      ensures r == OperationFailed <==> !answer.works || name !in old(shards) || old(shards).Keys == {name}
      ensures r == OperationFailed ==> shards == old(shards)
      ensures r != OperationFailed ==> shards == AfterRemoveShard(old(shards), dbs, name)
      ensures r != OperationFailed && name in shards ==> shards[name].draining
      ensures r == Done <==> r != OperationFailed && answer.tells && old(shards)[name].chunks == 0
      ensures r in {Done, NotDrained, OperationFailed}
    {
      var ok, remaining := RemoveShardCommand(name, answer);
      if !ok {
        return OperationFailed;
      }
      if remaining == None || remaining != Some(0) {
        return NotDrained;
      }
      return Done;
    }

    /** One round of `_move_primary`, after the server reported its free space. */
    method MoveOnePrimary(db: string, oldPrimary: string, report: seq<Space>, agrees: bool) returns (r: Outcome)
      requires Valid() && !AnyDraining(shards, oldPrimary)
      requires db in dbs && dbs[db].primary == oldPrimary
      requires forall k :: 0 <= k < |report| ==> ShardName(report[k].key) in shards
      modifies this`dbs, this`moves
      ensures Valid()
      ensures r == NotEnoughSpace <==> !HasRoom(report, oldPrimary, SizeOn(old(dbs)[db].stats, oldPrimary))
      ensures r == Done <==> r != NotEnoughSpace && agrees
      ensures r in {Done, NotEnoughSpace, OperationFailed}
      ensures r != Done ==> dbs == old(dbs) && moves == old(moves)
      ensures r == Done ==> |moves| == |old(moves)| + 1 && moves[..|old(moves)|] == old(moves)
      ensures r == Done ==> var m := moves[|old(moves)|];
        && m.db == db && m.from == oldPrimary && m.size >= 0 && IsSize(old(dbs)[db].stats, oldPrimary, m.size)
        && m.to in shards && !shards[m.to].draining && m.to != oldPrimary
        && IsBest(report, oldPrimary, m.to, m.available)
        && dbs == old(dbs)[db := old(dbs)[db].(primary := m.to)]
    {
      var size := GetDbSizeOnPrimaryShard(dbs[db].stats, oldPrimary);
      var target, available := GetShardWithMostAvailableSpace(report, oldPrimary);
      BestHasRoom(report, oldPrimary, target, available, size);
      if size > available {
        return NotEnoughSpace;
      }
      assert target in shards && target != oldPrimary;
      var ok := MovePrimaryCommand(db, target, size, available, agrees);
      return if ok then Done else OperationFailed;
    }

    /** The same, with what the server reports and answers for the database. */
    method MoveReported(db: string, oldPrimary: string, env: Removal) returns (r: Outcome)
      requires Valid() && !AnyDraining(shards, oldPrimary) && db in dbs && dbs[db].primary == oldPrimary
      modifies this`dbs, this`moves
      ensures Valid() && r in {Done, NotEnoughSpace, OperationFailed}
      ensures r == Done <==> Moves(env, old(dbs), shards.Keys - {oldPrimary}, oldPrimary, db)
      ensures r != Done ==> dbs == old(dbs)
      ensures r == Done ==>
                db in dbs && dbs == old(dbs)[db := old(dbs)[db].(primary := dbs[db].primary)]
                && dbs[db].primary in shards && !shards[dbs[db].primary].draining && dbs[db].primary != oldPrimary
    {
      r := MoveOnePrimary(db, oldPrimary, ReportFor(env, db, shards.Keys), db in env.movable);
      if db in env.reports {
        ListedRoom(env.reports[db], shards.Keys, oldPrimary, SizeOn(old(dbs)[db].stats, oldPrimary));
      }
    }

    /** `_move_primary`. */
    method MovePrimaries(todo: set<string>, oldPrimary: string, env: Removal) returns (r: Outcome)
      requires Valid() && !AnyDraining(shards, oldPrimary)
      requires todo <= DatabasesFor(dbs, oldPrimary)
      modifies this`dbs, this`moves
      ensures Valid() && r in {Done, NotEnoughSpace, OperationFailed}
      ensures OnlyLeaves(old(dbs), dbs, oldPrimary, shards)
      ensures r == Done <==>
                forall db :: db in todo ==> Moves(env, old(dbs), shards.Keys - {oldPrimary}, oldPrimary, db)
      ensures r == Done ==> DatabasesFor(dbs, oldPrimary) == DatabasesFor(old(dbs), oldPrimary) - todo
    {
      var rest := todo;
      ghost var before := dbs;
      while rest != {}
        invariant Valid() && rest <= todo
        invariant Moving(before, dbs, oldPrimary, shards, todo, rest, env)
        decreases rest
      {
        ghost var now := dbs;
        var db :| db in rest;
        NextMoves(before, now, oldPrimary, shards, todo, rest, env, db);
        r := MoveReported(db, oldPrimary, env);
        if r != Done {
          return;
        }
        OneMoved(before, now, dbs, oldPrimary, shards, todo, rest, env, db, dbs[db].primary);
        rest := rest - {db};
      }
      return Done;
    }

    /** `move_primary_after_draining_shard`. */
    method MovePrimaryAfterDrainingShard(name: string, env: Removal) returns (r: Outcome)
      requires Valid() && !AnyDraining(shards, name)
      modifies this`shards, this`dbs, this`moves
      ensures Valid() && OthersUntouched(old(shards), shards, name)
      ensures name in shards ==> name in old(shards)
      ensures OnlyLeaves(old(dbs), dbs, name, old(shards))
      ensures r == Done ==> name !in shards
      ensures r in {Done, NotDrained, NotEnoughSpace, OperationFailed}
      ensures name in old(shards) ==> (r == Done <==> EndsRemoval(old(shards), old(dbs), name, env))
      ensures name !in old(shards) ==> r == Done
      ensures name in shards && old(name in shards && shards[name].draining) ==> shards[name].draining
    {
      var using := DatabasesFor(dbs, name);
      if using != {} {
        r := MovePrimaries(using, name, env);
        if r != Done {
          return;
        }
        var ok, remaining := RemoveShardCommand(name, env.second);
        if !ok {
          return OperationFailed;
        }
        if remaining == None {
          return NotDrained;
        }
      }
      if name in shards {
        return NotDrained;
      }
      return Done;
    }

    // ---- The config server's manager --------------------------------------------------------------

    /**
     `remove_shard` of the manager: the checks, the command, then the primaries.  A shard that is gone counts as
     removed.
     */
    method RemoveShard(name: string, env: Removal) returns (r: Outcome)
      requires Valid()
      modifies this
      ensures Valid() && OthersUntouched(old(shards), shards, name)
      ensures name in shards ==> name in old(shards)
      ensures OnlyLeaves(old(dbs), dbs, name, old(shards))
      ensures name !in old(shards) ==> r == Done && shards == old(shards)
      ensures r == Done ==> name !in shards
      ensures r == Done <==> name !in old(shards) || old(Finishes(shards, dbs, balancing, name, env))
      ensures old(name in shards && AnyDraining(shards, name)) <==> r == NotReady
      ensures r == NotReady ==> shards == old(shards) && dbs == old(dbs) && moves == old(moves)
      ensures r != NotInCluster
      ensures old(Startable(shards, balancing, name, env)) ==> name !in shards || shards[name].draining
    {
      r := PreRemoveShardChecks(name, env.starts);
      if r == NotInCluster {
        return Done;
      }
      if r != Done {
        return;
      }
      ghost var before := shards;
      r := RemoveShardOnce(name, env.first);
      if r != Done {
        return;
      }
      ghost var draining := shards;
      SameOthersDraining(before, draining, name);
      r := MovePrimaryAfterDrainingShard(name, env);
      LeavesFor(old(dbs), dbs, name, draining, before);
    }

    /** `add_shard` of the manager: nothing without units; a refusal other than of authentication is only logged. */
    method AddRelatedShard(name: string, hasUnits: bool, answer: Answer) returns (r: Outcome)
      requires Valid() && name !in shards
      modifies this`shards
      ensures Valid()
      ensures r == Done <==> !hasUnits || !Raises(answer)
      ensures shards == if hasUnits && answer == Accepts then old(shards)[name := Shard(false, 0)] else old(shards)
    {
      if !hasUnits {
        return Done;
      }
      r := AddShard(name, answer);
      if r == OperationFailed {
        r := Done;
      }
    }

    /** `add_shards`: every related application that is not a shard yet, in some order. */
    method AddShards(relations: set<string>, withUnits: set<string>, answers: string -> Answer) returns (r: Outcome)
      requires Valid()
      modifies this`shards
      ensures Valid()
      ensures r == Done <==> forall s :: s in relations * withUnits - old(shards).Keys ==> !Raises(answers(s))
      ensures old(shards).Keys <= shards.Keys <= old(shards).Keys + Accepted(relations * withUnits, answers)
      ensures forall s :: s in shards ==> shards[s] == if s in old(shards) then old(shards)[s] else Shard(false, 0)
      ensures r == Done ==> shards.Keys == old(shards).Keys + Accepted(relations * withUnits, answers)
      ensures r == Done ==>
                (shards.Keys == old(shards).Keys + relations * withUnits <==>
                 forall s :: s in relations * withUnits - old(shards).Keys ==> answers(s) == Accepts)
    {
      var clusterShards := shards.Keys;
      var rest := relations - clusterShards;
      while rest != {}
        invariant Valid() && rest <= relations - clusterShards && clusterShards <= shards.Keys
        invariant forall s :: s in rest ==> s !in shards
        invariant shards.Keys == clusterShards + Accepted(relations * withUnits - clusterShards - rest, answers)
        invariant forall s :: s in relations * withUnits - clusterShards - rest ==> !Raises(answers(s))
        invariant forall s :: s in shards ==> shards[s] == if s in old(shards) then old(shards)[s] else Shard(false, 0)
        decreases rest
      {
        var app :| app in rest;
        r := AddRelatedShard(app, app in withUnits, answers(app));
        if r != Done {
          return;
        }
        rest := rest - {app};
      }
      EverythingAddedExactlyWhenAccepted(clusterShards, shards.Keys, relations * withUnits, answers);
      return Done;
    }

    /** One round of `remove_shards`: a busy cluster counts as done for now. */
    method RemoveUnrelated(name: string, env: Removal) returns (r: Outcome)
      requires Valid() && name in shards
      modifies this
      ensures Valid() && r != NotReady && r != NotInCluster
      ensures name in shards && r == Done ==> shards[name] == old(shards)[name] && AnyDraining(old(shards), name)
      ensures forall s :: s != name ==> (s in shards <==> s in old(shards))
      ensures forall s :: s != name && s in shards ==> shards[s] == old(shards)[s]
      ensures dbs.Keys == old(dbs).Keys
      ensures forall d :: d in dbs && dbs[d] != old(dbs)[d] ==> old(dbs)[d].primary == name
      ensures r == Done <==> old(AnyDraining(shards, name) || Finishes(shards, dbs, balancing, name, env))
    {
      r := RemoveShard(name, env);
      forall s | s != name ensures s in shards <==> s in old(shards)
        ensures s in shards ==> shards[s] == old(shards)[s]
      {
        OthersSame(old(shards), shards, name, s);
      }
      if r == NotReady {
        r := Done;
      }
    }

    /**
     `remove_shards`: whatever is in the cluster without a relation.  A busy cluster is skipped over,
     any other failure ends the loop.
     */
    method RemoveShards(relations: set<string>, env: string -> Removal) returns (r: Outcome)
      requires Valid()
      modifies this
      ensures Valid() && shards.Keys <= old(shards.Keys)
      ensures forall s :: s in relations && s in old(shards) ==> s in shards && shards[s] == old(shards)[s]
      ensures dbs.Keys == old(dbs).Keys
      ensures forall d :: d in dbs && dbs[d] != old(dbs)[d] ==> old(dbs)[d].primary !in relations
      ensures r == Done ==> forall s :: s in shards ==>
        shards[s] == old(shards)[s] && (s in relations || AnyDraining(old(shards), s))
      ensures r != NotReady && r != NotInCluster
      ensures old(shards).Keys <= relations ==> r == Done && shards == old(shards) && dbs == old(dbs)
      ensures forall s :: old(shards).Keys - relations == {s} ==>
        (r == Done <==> AnyDraining(old(shards), s) || Finishes(old(shards), old(dbs), old(balancing), s, env(s)))
    {
      var rest := shards.Keys - relations;
      ghost var before, beforeDbs, unrelated := shards, dbs, rest;
      while rest != {}
        invariant Valid() && rest <= unrelated
        invariant OnlyDropped(before, shards, unrelated - rest) && Leftover(before, shards, unrelated - rest)
        invariant OnlyMoved(beforeDbs, dbs, unrelated - rest)
        invariant rest == unrelated ==> shards == before && dbs == beforeDbs && balancing == old(balancing)
        invariant forall s :: unrelated == {s} && rest == {} ==>
                    AnyDraining(before, s) || Finishes(before, beforeDbs, old(balancing), s, env(s))
        decreases rest
      {
        var name :| name in rest;
        ghost var now, nowDbs := shards, dbs;
        r := RemoveUnrelated(name, env(name));
        OneDropped(before, now, shards, unrelated, rest, name, r == Done);
        OneSwept(beforeDbs, nowDbs, dbs, unrelated, rest, name);
        rest := rest - {name};
        if r != Done {
          return;
        }
      }
      return Done;
    }
  }

  lemma OneDropped(
      before: ShardMap, now: ShardMap, after: ShardMap, all: set<string>, rest: set<string>, name: string, kept: bool)
    requires name in rest && rest <= all && all <= before.Keys
    requires OnlyDropped(before, now, all - rest) && Leftover(before, now, all - rest)
    requires forall s :: s != name ==> (s in after <==> s in now)
    requires forall s :: s != name && s in after ==> after[s] == now[s]
    requires name in after ==> name in now
    requires kept && name in after ==> after[name] == now[name] && AnyDraining(now, name)
    ensures OnlyDropped(before, after, all - (rest - {name}))
    ensures kept ==> Leftover(before, after, all - (rest - {name}))
  {
    if s :| s in now && s != name && now[s].draining {
      assert s in before && now[s] == before[s];
    }
  }

  lemma OneSwept(
      before: DatabaseMap, now: DatabaseMap, after: DatabaseMap, all: set<string>, rest: set<string>, name: string)
    requires name in rest && rest <= all && OnlyMoved(before, now, all - rest)
    requires after.Keys == now.Keys && forall d :: d in after && after[d] != now[d] ==> now[d].primary == name
    ensures OnlyMoved(before, after, all - (rest - {name}))
  {
  }

  /** The exceptions that end the loop: authentication, and anything that is no answer of the server. */
  predicate Raises(answer: Answer) {
    answer == RefusesAuthentication || answer == Unreachable
  }

  function Accepted(names: set<string>, answers: string -> Answer): set<string> {
    set s | s in names && answers(s) == Accepts
  }

  /** A normal return has added every related application with units exactly if the server accepted each new one. */
  lemma EverythingAddedExactlyWhenAccepted(
      before: set<string>, after: set<string>, wanted: set<string>, answers: string -> Answer)
    requires after == before + Accepted(wanted, answers)
    ensures after == before + wanted <==> forall s :: s in wanted - before ==> answers(s) == Accepts
  {
    if after == before + wanted {
      assert forall s :: s in wanted - before ==> s in after;
    } else {
      assert after <= before + wanted;
    }
  }

  lemma SameOthersDraining(before: ShardMap, after: ShardMap, name: string)
    requires OthersUntouched(before, after, name)
    ensures AnyDraining(after, name) <==> AnyDraining(before, name)
  {
    assert forall s :: s != name && s in after ==> s in (after - {name}) && after[s] == (after - {name})[s];
    assert forall s :: s != name && s in before ==> s in (before - {name}) && before[s] == (before - {name})[s];
  }

  lemma OthersSame(before: ShardMap, after: ShardMap, name: string, s: string)
    requires OthersUntouched(before, after, name) && s != name
    ensures s in after <==> s in before
    ensures s in after ==> after[s] == before[s]
  {
    assert s in after ==> s in (after - {name});
    assert s in before ==> s in (before - {name});
  }

  lemma LeavesFor(before: DatabaseMap, after: DatabaseMap, from: string, a: ShardMap, b: ShardMap)
    requires OnlyLeaves(before, after, from, a) && OthersUntouched(b, a, from)
    ensures OnlyLeaves(before, after, from, b)
  {
    forall d | d in before && after[d].primary != before[d].primary
      ensures after[d].primary in b && !b[after[d].primary].draining
    {
      assert after[d].primary in (a - {from});
    }
  }
}
