/** Aliases for the relations of an endpoint, handed out from a fixed list. */
module RelationAliases {
  import opened Wrappers

  /** The live relations and the alias each holds, if any. */
  type Relations = map<nat, Option<string>>

  predicate Distinct(s: seq<string>) {
    forall i, j :: 0 <= i < j < |s| ==> s[i] != s[j]
  }

  function Used(relations: Relations): set<string> {
    set id | id in relations && relations[id].Some? :: relations[id].value
  }

  /** Live relations hold pairwise different aliases of the list. */
  predicate Allocated(aliases: seq<string>, relations: Relations) {
    && (forall id :: id in relations && relations[id].Some? ==> relations[id].value in aliases)
    && (forall a, b :: a in relations && b in relations && a != b && relations[a].Some? ==>
            relations[a] != relations[b])
  }

  /** The aliases of the list that are not in a set, in order. */
  function Without(aliases: seq<string>, used: set<string>): (free: seq<string>)
    ensures forall a :: a in free <==> a in aliases && a !in used
  {
    if aliases == [] then []
    else if aliases[0] in used then Without(aliases[1..], used)
    else [aliases[0]] + Without(aliases[1..], used)
  }

  function RemoveFirst(s: seq<string>, a: string): seq<string>
    requires a in s
  {
    if s[0] == a then s[1..] else [s[0]] + RemoveFirst(s[1..], a)
  }

  lemma {:induction false} WithoutNothing(aliases: seq<string>)
    ensures Without(aliases, {}) == aliases
  {
    if aliases != [] {
      WithoutNothing(aliases[1..]);
    }
  }

  lemma {:induction false} WithoutAbsent(aliases: seq<string>, used: set<string>, a: string)
    requires a !in aliases
    ensures Without(aliases, used + {a}) == Without(aliases, used)
  {
    if aliases != [] {
      assert aliases[0] in aliases && forall x :: x in aliases[1..] ==> x in aliases;
      WithoutAbsent(aliases[1..], used, a);
    }
  }

  /** Removing an alias from a list without repeats leaves the list without it. */
  lemma {:induction false} RemoveIsWithout(aliases: seq<string>, used: set<string>, a: string)
    requires Distinct(aliases) && a in aliases && a !in used
    ensures RemoveFirst(Without(aliases, used), a) == Without(aliases, used + {a})
  {
    var rest := aliases[1..];
    assert forall x :: x in aliases <==> x == aliases[0] || x in rest;
    if aliases[0] == a {
      assert a !in rest;
      WithoutAbsent(rest, used, a);
    } else {
      RemoveIsWithout(rest, used, a);
    }
  }

  /** The alias a relation gets: none is left, or the first that no relation holds. */
  function Assigned(aliases: seq<string>, relations: Relations, id: nat): Option<Relations> {
    if aliases == [] || (id in relations && relations[id].Some?) then Some(relations)
    else
      var free := Without(aliases, Used(relations));
      if free == [] then None
      else if id in relations then Some(relations[id := Some(free[0])])
      else Some(relations)
  }

  /** Assignment is an allocator: what relations hold stays different and from the list, and the new alias was free. */
  lemma AssignedKeepsAllocated(aliases: seq<string>, relations: Relations, id: nat)
    requires Allocated(aliases, relations) && Assigned(aliases, relations, id).Some?
    ensures Allocated(aliases, Assigned(aliases, relations, id).value)
    ensures id in relations && aliases != [] ==> Assigned(aliases, relations, id).value[id].Some?
    ensures Assigned(aliases, relations, id).value - {id} == relations - {id}
  {
    var free := Without(aliases, Used(relations));
    if aliases != [] && id in relations && relations[id] == None {
      assert free[0] in free;
      assert forall b :: b in relations && relations[b].Some? ==> relations[b].value in Used(relations);
    }
  }

  /** Position `k` of the list is the first alias that no relation holds. */
  predicate FirstFree(aliases: seq<string>, relations: Relations, k: nat) {
    && k < |aliases| && (forall id :: id in relations ==> relations[id] != Some(aliases[k]))
    && forall j :: 0 <= j < k ==> exists id :: id in relations && relations[id] == Some(aliases[j])
  }

  lemma {:induction false} FirstOfWithout(aliases: seq<string>, used: set<string>) returns (k: nat)
    requires Without(aliases, used) != []
    ensures k < |aliases| && aliases[k] == Without(aliases, used)[0] && aliases[k] !in used
    ensures forall j :: 0 <= j < k ==> aliases[j] in used
  {
    if aliases[0] in used {
      var below := FirstOfWithout(aliases[1..], used);
      k := below + 1;
      assert forall j :: 1 <= j < k ==> aliases[j] == aliases[1..][j - 1];
    } else {
      k := 0;
    }
  }

  /** Assigning twice is assigning once, and a relation without an alias gets the first free one of the list. */
  lemma AssignsFirstFree(aliases: seq<string>, relations: Relations, id: nat)
    ensures aliases == [] || (id in relations && relations[id].Some?) ==>
              Assigned(aliases, relations, id) == Some(relations)
    ensures aliases != [] && id in relations && relations[id] == None && Assigned(aliases, relations, id).Some? ==>
              exists k: nat :: FirstFree(aliases, relations, k)
                          && Assigned(aliases, relations, id) == Some(relations[id := Some(aliases[k])])
  {
    if aliases != [] && id in relations && relations[id] == None && Assigned(aliases, relations, id).Some? {
      var k := FirstOfWithout(aliases, Used(relations));
      forall j | 0 <= j < k ensures exists other :: other in relations && relations[other] == Some(aliases[j]) {
        assert aliases[j] in Used(relations);
      }
      assert forall other :: other in relations && relations[other].Some? ==> relations[other].value in Used(relations);
      assert FirstFree(aliases, relations, k);
    }
  }

  function Holders(relations: Relations): set<nat> {
    set id | id in relations && relations[id].Some?
  }

  /** One relation more uses its alias more, if it holds one. */
  lemma UsedWith(aliases: seq<string>, relations: Relations, id: nat)
    requires Allocated(aliases, relations) && id in relations
    ensures Allocated(aliases, relations - {id})
    ensures relations[id] == None ==> Used(relations) == Used(relations - {id})
    ensures relations[id].Some? ==>
              relations[id].value !in Used(relations - {id})
              && Used(relations) == Used(relations - {id}) + {relations[id].value}
  {
    var rest := relations - {id};
    assert forall b :: b in rest <==> b in relations && b != id;
    assert forall b :: b in rest ==> rest[b] == relations[b];
  }

  lemma HoldersWith(relations: Relations, id: nat)
    requires id in relations
    ensures Holders(relations)
            == if relations[id].Some? then Holders(relations - {id}) + {id} else Holders(relations - {id})
    ensures id !in Holders(relations - {id}) && |relations - {id}| < |relations|
  {
    assert (relations - {id}).Keys + {id} == relations.Keys && id !in (relations - {id}).Keys;
  }

  /** As many aliases are in use as relations hold one. */
  lemma {:induction false} UsedCount(aliases: seq<string>, relations: Relations)
    requires Allocated(aliases, relations)
    ensures |Used(relations)| == |Holders(relations)|
    decreases |relations|
  {
    if relations.Keys == {} {
      assert Used(relations) == {};
      assert Holders(relations) == {};
    } else {
      var id :| id in relations.Keys;
      UsedWith(aliases, relations, id);
      HoldersWith(relations, id);
      UsedCount(aliases, relations - {id});
    }
  }

  function Elements(s: seq<string>): set<string> {
    set a | a in s
  }

  lemma {:induction false} DistinctCount(s: seq<string>)
    requires Distinct(s)
    ensures |Elements(s)| == |s|
  {
    if s != [] {
      DistinctCount(s[1..]);
      assert Elements(s) == Elements(s[1..]) + {s[0]};
    }
  }

  lemma SubsetOfSameSize(a: set<string>, b: set<string>)
    requires a <= b
    ensures |a| <= |b|
    ensures |a| == |b| <==> a == b
  {
    assert b == a + (b - a);
    assert |b| == |a| + |b - a|;
  }

  /** The list runs out exactly when as many relations hold an alias as there are aliases. */
  lemma RunsOutExactlyWhenAllHeld(aliases: seq<string>, relations: Relations, id: nat)
    requires Distinct(aliases) && aliases != [] && Allocated(aliases, relations) && id in relations
    requires relations[id] == None
    ensures Assigned(aliases, relations, id) == None <==> |Holders(relations)| == |aliases|
  {
    UsedCount(aliases, relations);
    DistinctCount(aliases);
    SubsetOfSameSize(Used(relations), Elements(aliases));
    var free := Without(aliases, Used(relations));
    if free == [] {
      assert forall a :: a in aliases ==> a in Used(relations) by {
        forall a | a in aliases ensures a in Used(relations) {
          assert a !in free;
        }
      }
      assert Used(relations) == Elements(aliases);
    } else {
      assert free[0] in free && free[0] in Elements(aliases);
    }
  }

  // ---- Runs: relations come and go within the limit --------------------------------------------------------

  datatype Step = Created(id: nat) | Broken(id: nat)

  /** Juju admits no more relations than the limit, which is the number of aliases. */
  predicate Possible(aliases: seq<string>, relations: Relations, step: Step) {
    match step
    case Created(id) => id !in relations && |relations| < |aliases|
    case Broken(id) => id in relations
  }

  function Apply(aliases: seq<string>, relations: Relations, step: Step): Option<Relations> {
    match step
    case Created(id) => Assigned(aliases, relations[id := None], id)
    case Broken(id) => Some(relations - {id})
  }

  ghost predicate IsRun(aliases: seq<string>, relations: Relations, steps: seq<Step>)
    decreases |steps|
  {
    steps == [] ||
    (Possible(aliases, relations, steps[0])
     && (Apply(aliases, relations, steps[0]).Some? ==>
             IsRun(aliases, Apply(aliases, relations, steps[0]).value, steps[1..])))
  }

  /** `None` if some assignment found no alias left. */
  function After(aliases: seq<string>, relations: Relations, steps: seq<Step>): Option<Relations>
    decreases |steps|
  {
    if steps == [] then Some(relations)
    else
      var next := Apply(aliases, relations, steps[0]);
      if next == None then None else After(aliases, next.value, steps[1..])
  }

  predicate AllHold(relations: Relations) {
    forall id :: id in relations ==> relations[id].Some?
  }

  lemma CreatedFindsAlias(aliases: seq<string>, relations: Relations, id: nat)
    requires Distinct(aliases) && Allocated(aliases, relations) && AllHold(relations)
    requires Possible(aliases, relations, Created(id))
    ensures Apply(aliases, relations, Created(id)).Some?
    ensures Allocated(aliases, Apply(aliases, relations, Created(id)).value)
    ensures AllHold(Apply(aliases, relations, Created(id)).value)
  {
    var grown := relations[id := None];
    assert Holders(grown) == relations.Keys by {
      forall b ensures b in Holders(grown) <==> b in relations.Keys {
        assert b in relations ==> relations[b].Some? && b != id;
      }
    }
    assert |relations.Keys| == |relations|;
    RunsOutExactlyWhenAllHeld(aliases, grown, id);
    AssignedKeepsAllocated(aliases, grown, id);
    var after := Assigned(aliases, grown, id).value;
    forall b | b in after ensures after[b].Some? {
      assert b != id ==> b in after - {id} && b in grown - {id} && after[b] == grown[b];
    }
  }

  /** Within the limit no assignment ever fails, and all live relations hold different aliases of the list. */
  lemma {:induction false} NeverRunsOut(aliases: seq<string>, relations: Relations, steps: seq<Step>)
    requires Distinct(aliases) && Allocated(aliases, relations) && AllHold(relations)
    requires IsRun(aliases, relations, steps)
    ensures After(aliases, relations, steps).Some?
    ensures Allocated(aliases, After(aliases, relations, steps).value)
    ensures AllHold(After(aliases, relations, steps).value)
    decreases |steps|
  {
    if steps != [] {
      match steps[0] {
        case Created(id) => CreatedFindsAlias(aliases, relations, id);
        case Broken(_) =>
      }
      NeverRunsOut(aliases, Apply(aliases, relations, steps[0]).value, steps[1..]);
    }
  }

  class Requirer {
    const aliases: seq<string>
    var relations: Relations

    constructor (aliases: seq<string>)
      ensures this.aliases == aliases && relations == map[]
    {
      this.aliases := aliases;
      relations := map[];
    }

    /** False if the list has run out, which raises. */
    method AssignRelationAlias(id: nat) returns (done: bool)
      requires Distinct(aliases) && Allocated(aliases, relations)
      modifies this
      ensures done <==> Assigned(aliases, old(relations), id).Some?
      ensures relations == if done then Assigned(aliases, old(relations), id).value else old(relations)
    {
      if aliases == [] || (id in relations && relations[id].Some?) {
        return true;
      }
      var available := aliases;
      var current := relations;
      var rest := current.Keys;
      ghost var seen: set<string> := {};
      WithoutNothing(aliases);
      while rest != {}
        invariant rest <= current.Keys && relations == current
        invariant seen == set b | b in current && b !in rest && current[b].Some? :: current[b].value
        invariant available == Without(aliases, seen)
      {
        var other :| other in rest;
        if current[other].Some? {
          RemoveIsWithout(aliases, seen, current[other].value);
          available := RemoveFirst(available, current[other].value);
          seen := seen + {current[other].value};
        }
        rest := rest - {other};
      }
      assert seen == Used(relations);
      if available == [] {
        return false;
      }
      if id in relations {
        relations := relations[id := Some(available[0])];
      }
      return true;
    }
  }
}
