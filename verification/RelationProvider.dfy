/** The provider side of the data layer as the charm runs it: databag and secrets updated in place, group by group. */
module RelationProvider {
  import opened RelationData
  import opened RelationEvents

  class ProviderData {
    const labels: Labels
    const requested: set<string>
    var bag: Fields
    var secrets: Secrets

    constructor (labels: Labels, requested: set<string>)
      ensures State() == Relation(labels, map[], map[], requested, map[], {})
    {
      this.labels, this.requested := labels, requested;
      bag, secrets := map[], map[];
    }

    /** The provider's part of a relation; what the requirer keeps is not its own. */
    function State(): Relation
      reads this
    {
      Relation(labels, bag, secrets, requested, map[], {})
    }

    /** The groups of the given fields that were asked to be secret, each once. */
    method GroupSecretFields(fields: set<string>) returns (groups: seq<Group>)
      ensures Lists(groups, State(), fields)
    {
      groups := [];
      var rest := fields * requested;
      while rest != {}
        invariant rest <= fields * requested
        invariant forall i, j :: 0 <= i < j < |groups| ==> groups[i] != groups[j]
        invariant forall g :: g in groups ==> Touches(State(), fields, g)
        invariant forall f :: f in fields * requested ==> f in rest || GroupOf(labels, f) in groups
      {
        var field :| field in rest;
        rest := rest - {field};
        var group := GroupOf(labels, field);
        if group !in groups {
          assert Touches(State(), fields, group);
          groups := groups + [group];
        }
      }
    }

    /** True if the group's fields are in its secret now. */
    method AddOrUpdateRelationSecrets(group: Group, data: Fields, uri: string) returns (done: bool)
      modifies this
      ensures State() == GroupUpdated(old(State()), data, group, uri)
      ensures done == !Lost(old(State()), group)
    {
      var content := map f | f in data && f in requested && GroupOf(labels, f) == group :: data[f];
      assert content == GroupContent(State(), data, group);
      if group in secrets {
        secrets := secrets[group := Secret(secrets[group].uri, secrets[group].content + content)];
        return true;
      }
      if UriField(group) in bag && bag[UriField(group)] != "" {
        return false;
      }
      secrets := secrets[group := Secret(uri, content)];
      bag := bag[UriField(group) := uri];
      return true;
    }

    /** Every group in turn; those whose secret is lost are returned. */
    method ProcessGroups(order: seq<Group>, data: Fields, uris: map<Group, string>) returns (failed: set<Group>)
      requires RealUris(uris) && forall i, j :: 0 <= i < j < |order| ==> order[i] != order[j]
      modifies this
      ensures State() == GroupsUpdated(old(State()), data, order, uris)
      ensures failed == set g: Group | g in order && Lost(old(State()), g)
    {
      failed := {};
      ghost var before := State();
      var i := 0;
      while i < |order|
        invariant 0 <= i <= |order|
        invariant GroupsUpdated(State(), data, order[i..], uris) == GroupsUpdated(before, data, order, uris)
        invariant forall j :: i <= j < |order| ==> (Lost(State(), order[j]) <==> Lost(before, order[j]))
        invariant failed == set g: Group | g in order[..i] && Lost(before, g)
      {
        NextGroup(State(), data, order, i, uris);
        OthersStayLost(State(), data, order[i], uris[order[i]]);
        var done := AddOrUpdateRelationSecrets(order[i], data, uris[order[i]]);
        if !done {
          failed := failed + {order[i]};
        }
        i := i + 1;
      }
      assert order[i..] == [] && order[..i] == order;
    }

    method UpdateRelationData(data: Fields, uris: map<Group, string>) returns (ghost groups: seq<Group>)
      requires RealUris(uris)
      modifies this
      ensures Lists(groups, old(State()), data.Keys)
      ensures State() == Updated(old(State()), data, groups, uris)
      ensures requested == {} || requested * old(bag).Keys != {} ==>
                bag == old(bag) + data && secrets == old(secrets)
    {
      if requested == {} || requested * bag.Keys != {} {
        UpdateWithoutSecrets(State(), data, [], uris);
      }
      var order := GroupSecretFields(data.Keys);
      groups := order;
      NormalParts(State(), data, order);
      var normal := data;
      if requested != {} && requested * bag.Keys == {} {
        var failed := ProcessGroups(order, data, uris);
        normal := map f | f in data && (f !in requested || GroupOf(labels, f) in failed) :: data[f];
      }
      bag := bag + normal;
    }

    /** False, and nothing done, if the secret does not hold one of the fields. */
    method DeleteRelationSecret(group: Group, fields: set<string>) returns (done: bool)
      modifies this
      ensures State() == GroupDeleted(old(State()), fields, group)
      ensures done == Deletable(old(State()), fields, group)
    {
      if group !in secrets {
        return false;
      }
      var content := secrets[group].content;
      var rest := fields;
      while rest != {}
        invariant rest <= fields
        invariant fields - rest <= secrets[group].content.Keys
        invariant content == secrets[group].content - (fields - rest)
      {
        var field :| field in rest;
        if field !in content {
          return false;
        }
        content := content - {field};
        rest := rest - {field};
      }
      assert fields - rest == fields;
      if content == map[] {
        bag := bag - {UriField(group)};
        secrets := secrets - {group};
      } else {
        secrets := secrets[group := Secret(secrets[group].uri, content)];
      }
      return true;
    }

    method DeleteFromGroups(order: seq<Group>, fields: set<string>) returns (failed: set<Group>)
      requires forall i, j :: 0 <= i < j < |order| ==> order[i] != order[j]
      modifies this
      ensures State() == GroupsDeleted(old(State()), fields, order)
      ensures failed == set g: Group | g in order && !Deletable(old(State()), fields, g)
    {
      failed := {};
      ghost var before := State();
      var i := 0;
      while i < |order|
        invariant 0 <= i <= |order|
        invariant GroupsDeleted(State(), fields, order[i..]) == GroupsDeleted(before, fields, order)
        invariant forall j :: i <= j < |order| ==>
                    Deletable(State(), fields, order[j]) == Deletable(before, fields, order[j])
        invariant failed == set g: Group | g in order[..i] && !Deletable(before, fields, g)
      {
        assert order[i..][1..] == order[i + 1..] && order[..i + 1] == order[..i] + [order[i]];
        var done := DeleteRelationSecret(order[i], fields);
        if !done {
          failed := failed + {order[i]};
        }
        i := i + 1;
      }
      assert order[i..] == [] && order[..i] == order;
    }

    method DeleteRelationData(fields: set<string>) returns (ghost groups: seq<Group>)
      modifies this
      ensures Lists(groups, old(State()), fields)
      ensures State() == Deleted(old(State()), fields, groups)
    {
      var order := GroupSecretFields(fields);
      groups := order;
      LeftoverParts(State(), fields, order);
      var normal := fields;
      if requested != {} && requested * bag.Keys == {} {
        var failed := DeleteFromGroups(order, fields);
        normal := set f | f in fields && (f !in requested || GroupOf(labels, f) in failed);
      }
      bag := bag - normal;
    }
  }

  lemma LeftoverParts(r: Relation, fields: set<string>, groups: seq<Group>)
    requires Lists(groups, r, fields)
    ensures !UsesSecrets(r) ==> NormalFields(r, fields) == fields
    ensures UsesSecrets(r) ==>
              var failed := set g: Group | g in groups && !Deletable(r, fields, g);
              NormalFields(r, fields) == set f | f in fields && (f !in r.requested || GroupOf(r.labels, f) in failed)
  {
    assert forall f :: f in fields && f in r.requested ==> Touches(r, fields, GroupOf(r.labels, f));
  }

  /** The fields left for the databag, from the groups that failed. */
  lemma NormalParts(r: Relation, data: Fields, groups: seq<Group>)
    requires Lists(groups, r, data.Keys)
    ensures !UsesSecrets(r) ==> NormalContent(r, data) == data
    ensures UsesSecrets(r) ==>
              var failed := set g: Group | g in groups && Lost(r, g);
              NormalContent(r, data)
              == map f | f in data && (f !in r.requested || GroupOf(r.labels, f) in failed) :: data[f]
  {
    AllListed(r, groups, data);
  }

  lemma NextGroup(r: Relation, data: Fields, groups: seq<Group>, i: nat, uris: map<Group, string>)
    requires i < |groups| && RealUris(uris)
    ensures GroupsUpdated(r, data, groups[i..], uris)
            == GroupsUpdated(GroupUpdated(r, data, groups[i], uris[groups[i]]), data, groups[i + 1..], uris)
    ensures groups[..i + 1] == groups[..i] + [groups[i]]
  {
    assert groups[i..][1..] == groups[i + 1..];
  }

  lemma OthersStayLost(r: Relation, data: Fields, g: Group, uri: string)
    ensures forall h :: h != g ==> (Lost(GroupUpdated(r, data, g, uri), h) <==> Lost(r, h))
  {
    forall h | h != g ensures UriField(h) != UriField(g) {
      UriFieldsDiffer(h, g);
    }
  }

  lemma AllListed(r: Relation, groups: seq<Group>, data: Fields)
    requires Lists(groups, r, data.Keys)
    ensures forall f :: f in data && f in r.requested ==> GroupOf(r.labels, f) in groups
  {
    assert forall f :: f in data && f in r.requested ==> Touches(r, data.Keys, GroupOf(r.labels, f));
  }
}
