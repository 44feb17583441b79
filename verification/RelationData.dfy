/**
 The data layer of a relation in which the requirer asked for some fields to travel as secrets: the
 provider's databag and its secrets, one per group of fields, written and read as one dictionary.
 */
module RelationData {
  import opened RelationEvents
  import opened Wrappers

  datatype Group = User | Tls | Extra

  const PROV_SECRET_PREFIX := "secret-"

  function GroupName(g: Group): string {
    match g
    case User => "user"
    case Tls => "tls"
    case Extra => "extra"
  }

  type Labels = map<string, Group>

  /** The usual labels; descendants of the data layer may have others. */
  const SECRET_LABEL_MAP: Labels :=
    map["username" := User, "password" := User, "uris" := User, "tls" := Tls, "tls-ca" := Tls]

  /** The group of a secret field; what is not labelled goes to the extra group. */
  function GroupOf(labels: Labels, field: string): Group {
    if field in labels then labels[field] else Extra
  }

  /** The groups of the usual fields; any other goes to the extra group. */
  lemma UsualGroups(field: string)
    ensures GroupOf(SECRET_LABEL_MAP, "username") == GroupOf(SECRET_LABEL_MAP, "password") == User
    ensures GroupOf(SECRET_LABEL_MAP, "uris") == User
    ensures GroupOf(SECRET_LABEL_MAP, "tls") == GroupOf(SECRET_LABEL_MAP, "tls-ca") == Tls
    ensures field !in {"username", "password", "uris", "tls", "tls-ca"} ==> GroupOf(SECRET_LABEL_MAP, field) == Extra
  {
  }

  /** The databag field that holds the URI of a group's secret. */
  function UriField(g: Group): string {
    PROV_SECRET_PREFIX + GroupName(g)
  }

  predicate IsSecretField(field: string) {
    PROV_SECRET_PREFIX <= field
  }

  lemma UriFieldsDiffer(a: Group, b: Group)
    ensures UriField(a) == UriField(b) ==> a == b
    ensures IsSecretField(UriField(a))
  {
    assert UriField(a)[7..] == GroupName(a) && UriField(b)[7..] == GroupName(b);
    assert GroupName(a)[0] == GroupName(b)[0] ==> a == b;
  }

  datatype Secret = Secret(uri: string, content: Fields)

  type Secrets = map<Group, Secret>

  /**
   The provider's databag and secrets, the fields the requirer asked to be secret, the databag snapshot the
   requirer's last event left behind, and the groups whose secret the requirer has labelled.
   */
  datatype Relation = Relation(
    labels: Labels,
    bag: Fields,
    secrets: Secrets,
    requested: set<string>,
    seen: Fields,
    registered: set<Group>)

  // ---- The provider writes ---------------------------------------------------------------------------

  /** A relation that began on the databag stays on it. */
  predicate Fallback(r: Relation) {
    r.requested * r.bag.Keys != {}
  }

  predicate UsesSecrets(r: Relation) {
    r.requested != {} && !Fallback(r)
  }

  predicate Touches(r: Relation, fields: set<string>, g: Group) {
    exists f :: f in fields && f in r.requested && GroupOf(r.labels, f) == g
  }

  /** A URI in the databag whose secret cannot be found: a new one is refused. */
  predicate Lost(r: Relation, g: Group) {
    g !in r.secrets && UriField(g) in r.bag && r.bag[UriField(g)] != ""
  }

  function GroupContent(r: Relation, data: Fields, g: Group): Fields {
    map f | f in data && f in r.requested && GroupOf(r.labels, f) == g :: data[f]
  }

  /** `_add_or_update_relation_secrets` for one group. */
  function GroupUpdated(r: Relation, data: Fields, g: Group, uri: string): Relation {
    if g in r.secrets then
      r.(secrets := r.secrets[g := r.secrets[g].(content := r.secrets[g].content + GroupContent(r, data, g))])
    else if Lost(r, g) then r
    else r.(secrets := r.secrets[g := Secret(uri, GroupContent(r, data, g))], bag := r.bag[UriField(g) := uri])
  }

  function GroupsUpdated(r: Relation, data: Fields, groups: seq<Group>, uris: map<Group, string>): Relation
    requires forall g :: g in uris
    decreases |groups|
  {
    if groups == [] then r
    else GroupsUpdated(GroupUpdated(r, data, groups[0], uris[groups[0]]), data, groups[1..], uris)
  }

  /** What goes to the databag: unrequested fields, and those of groups whose secret is lost. */
  function NormalContent(r: Relation, data: Fields): Fields {
    map f | f in data && (!UsesSecrets(r) || f !in r.requested || Lost(r, GroupOf(r.labels, f))) :: data[f]
  }

  predicate Lists(groups: seq<Group>, r: Relation, fields: set<string>) {
    && (forall i, j :: 0 <= i < j < |groups| ==> groups[i] != groups[j])
    && (forall g :: g in groups <==> Touches(r, fields, g))
  }

  /** `update_relation_data`, its groups taken in the order `groups`. */
  function Updated(r: Relation, data: Fields, groups: seq<Group>, uris: map<Group, string>): Relation
    requires forall g :: g in uris
  {
    var after := if UsesSecrets(r) then GroupsUpdated(r, data, groups, uris) else r;
    after.(bag := after.bag + NormalContent(r, data))
  }

  // ---- Reading ----------------------------------------------------------------------------------------

  /** The contents of the secrets that a reader finds. */
  type Found = map<Group, Fields>

  function Asked(bag: Fields, requested: set<string>, fields: set<string>): set<string> {
    if fields != {} then fields else (set f | f in bag && !IsSecretField(f)) + requested
  }

  predicate FromSecret(labels: Labels, found: Found, requested: set<string>, asked: set<string>, f: string) {
    var g := GroupOf(labels, f);
    f in asked && f in requested && g in found && f in found[g]
  }

  /** None of a group's asked fields is in its secret: its fields get a second chance in the databag. */
  predicate GroupMissing(found: Found, requested: set<string>, asked: set<string>, g: Group) {
    g !in found || forall f :: f in found[g] ==> !(f in asked && f in requested)
  }

  /** `_fetch_relation_data_with_secrets`: no fields means all. */
  function Fetch(
      labels: Labels, bag: Fields, requested: set<string>, found: Found, fallback: bool, fields: set<string>): Fields
  {
    var asked := Asked(bag, requested, fields);
    if requested == {} || fallback then map f | f in asked && f in bag :: bag[f]
    else
      (map f | f in asked && FromSecret(labels, found, requested, asked, f) :: found[GroupOf(labels, f)][f])
      + (map f | f in asked && f in bag
                 && (f !in requested || GroupMissing(found, requested, asked, GroupOf(labels, f))) :: bag[f])
  }

  function Contents(r: Relation): Found {
    map g | g in r.secrets :: r.secrets[g].content
  }

  /** What the provider reads of its own side. */
  function ProviderFetch(r: Relation, fields: set<string>): Fields {
    Fetch(r.labels, r.bag, r.requested, Contents(r), Fallback(r), fields)
  }

  function Registered(r: Relation): Found {
    map g | g in r.secrets && g in r.registered :: r.secrets[g].content
  }

  /** What the requirer reads: a secret is found by its label, so only once it is registered. */
  function RequirerFetch(r: Relation, fields: set<string>): Fields {
    Fetch(r.labels, r.bag, r.requested, Registered(r), false, fields)
  }

  // ---- The requirer's relation-changed event --------------------------------------------------------------

  /** The new URIs of the databag are registered under their group's label. */
  function Handled(r: Relation): Relation {
    var added := Snapshot(r.bag).Keys - r.seen.Keys;
    r.(seen := Snapshot(r.bag),
       registered := r.registered + set g: Group | UriField(g) in added && r.bag[UriField(g)] != "")
  }

  // ---- The dictionary it stands for -------------------------------------------------------------------------

  /** Secrets are not empty, and hold requested fields of their own group. */
  predicate GroupsHoldTheirOwn(labels: Labels, requested: set<string>, secrets: Secrets) {
    && (forall g, f :: g in secrets && f in secrets[g].content ==> f in requested && GroupOf(labels, f) == g)
    && (forall g :: g in secrets ==> secrets[g].content != map[])
  }

  /** The relation in secrets mode: nothing asked to be secret lies in the databag, and URIs point at secrets. */
  predicate SecretsMode(r: Relation) {
    && UsesSecrets(r) && (forall f :: f in r.requested ==> !IsSecretField(f))
    && (forall g :: UriField(g) in r.bag <==> g in r.secrets)
    && (forall g :: g in r.secrets ==> r.secrets[g].uri != "" && r.bag[UriField(g)] == r.secrets[g].uri)
    && GroupsHoldTheirOwn(r.labels, r.requested, r.secrets)
  }

  /** The requirer has labelled the secrets whose URIs it has seen. */
  predicate SeenRegistered(r: Relation) {
    forall g :: UriField(g) in r.seen ==> g in r.registered
  }

  /** What the secrets hold of one field. */
  function SecretField(labels: Labels, requested: set<string>, secrets: Secrets, f: string): Option<string> {
    var g := GroupOf(labels, f);
    if f in requested && g in secrets && f in secrets[g].content then Some(secrets[g].content[f]) else None
  }

  function PlainField(bag: Fields, f: string): Option<string> {
    if f in bag && !IsSecretField(f) then Some(bag[f]) else None
  }

  function Get(r: Relation, f: string): Option<string> {
    var hidden := SecretField(r.labels, r.requested, r.secrets, f);
    if hidden.Some? then hidden else PlainField(r.bag, f)
  }

  /** The one dictionary behind databag and secrets. */
  function View(r: Relation): Fields {
    map f | f in r.bag.Keys + r.requested && Get(r, f).Some? :: Get(r, f).value
  }

  lemma ViewIsGet(r: Relation, f: string)
    ensures f in View(r) <==> Get(r, f).Some?
    ensures f in View(r) ==> View(r)[f] == Get(r, f).value
  {
  }

  predicate Writable(data: Fields) {
    forall f :: f in data ==> !IsSecretField(f)
  }

  predicate RealUris(uris: map<Group, string>) {
    forall g :: g in uris && uris[g] != ""
  }

  lemma TouchedContent(r: Relation, data: Fields, g: Group)
    requires Touches(r, data.Keys, g)
    ensures GroupContent(r, data, g) != map[]
  {
    var f :| f in data.Keys && f in r.requested && GroupOf(r.labels, f) == g;
    assert f in GroupContent(r, data, g);
  }

  lemma SecretFieldPut(
      labels: Labels, requested: set<string>, secrets: Secrets, g: Group, uri: string,
      content: Fields, added: Fields, f: string)
    requires GroupsHoldTheirOwn(labels, requested, secrets)
    requires forall f :: f in added ==> f in requested && GroupOf(labels, f) == g
    requires content == if g in secrets then secrets[g].content + added else added
    ensures SecretField(labels, requested, secrets[g := Secret(uri, content)], f)
            == if f in added then Some(added[f]) else SecretField(labels, requested, secrets, f)
  {
  }

  lemma GroupPut(labels: Labels, requested: set<string>, secrets: Secrets, g: Group, uri: string, added: Fields)
    requires GroupsHoldTheirOwn(labels, requested, secrets) && added != map[]
    requires forall f :: f in added ==> f in requested && GroupOf(labels, f) == g
    ensures var content := if g in secrets then secrets[g].content + added else added;
            GroupsHoldTheirOwn(labels, requested, secrets[g := Secret(uri, content)])
  {
    assert added.Keys != {};
    var f :| f in added.Keys;
    var content := if g in secrets then secrets[g].content + added else added;
    assert f in content;
  }

  lemma UriPut(bag: Fields, secrets: Secrets, g: Group, secret: Secret)
    requires forall h :: UriField(h) in bag <==> h in secrets
    requires forall h :: h in secrets ==> secrets[h].uri != "" && bag[UriField(h)] == secrets[h].uri
    requires secret.uri != ""
    ensures forall h :: UriField(h) in bag[UriField(g) := secret.uri] <==> h in secrets[g := secret]
    ensures forall h :: h in secrets[g := secret] ==>
              && secrets[g := secret][h].uri != ""
              && bag[UriField(g) := secret.uri][UriField(h)] == secrets[g := secret][h].uri
    ensures forall f :: PlainField(bag[UriField(g) := secret.uri], f) == PlainField(bag, f)
  {
    forall h ensures UriField(h) == UriField(g) ==> h == g {
      UriFieldsDiffer(h, g);
    }
    UriFieldsDiffer(g, g);
  }

  /** In secrets mode a group has a secret afterwards, whether it had one before or not. */
  lemma GroupUpdatedForm(r: Relation, data: Fields, g: Group, uri: string) returns (secret: Secret)
    requires SecretsMode(r) && uri != ""
    ensures secret.uri != ""
    ensures secret.content
            == if g in r.secrets then r.secrets[g].content + GroupContent(r, data, g) else GroupContent(r, data, g)
    ensures GroupUpdated(r, data, g, uri)
            == r.(secrets := r.secrets[g := secret], bag := r.bag[UriField(g) := secret.uri])
  {
    if g in r.secrets {
      secret := Secret(r.secrets[g].uri, r.secrets[g].content + GroupContent(r, data, g));
      assert r.bag[UriField(g) := secret.uri] == r.bag;
    } else {
      secret := Secret(uri, GroupContent(r, data, g));
    }
  }

  lemma GroupUpdatedMode(r: Relation, data: Fields, g: Group, uri: string)
    requires SecretsMode(r) && uri != "" && Touches(r, data.Keys, g)
    ensures SecretsMode(GroupUpdated(r, data, g, uri))
  {
    TouchedContent(r, data, g);
    var secret := GroupUpdatedForm(r, data, g, uri);
    GroupPut(r.labels, r.requested, r.secrets, g, secret.uri, GroupContent(r, data, g));
    UriPut(r.bag, r.secrets, g, secret);
    UriFieldsDiffer(g, g);
  }

  /** Updating one group changes exactly its fields. */
  lemma GroupUpdatedGet(r: Relation, data: Fields, g: Group, uri: string, f: string)
    requires SecretsMode(r) && uri != ""
    ensures Get(GroupUpdated(r, data, g, uri), f) == if f in GroupContent(r, data, g) then Some(data[f]) else Get(r, f)
  {
    var secret := GroupUpdatedForm(r, data, g, uri);
    UriPut(r.bag, r.secrets, g, secret);
    SecretFieldPut(r.labels, r.requested, r.secrets, g, secret.uri, secret.content, GroupContent(r, data, g), f);
  }

  lemma {:induction false} GroupsUpdatedSays(
      r: Relation, data: Fields, groups: seq<Group>, uris: map<Group, string>, f: string)
    requires SecretsMode(r) && RealUris(uris) && forall g :: g in groups ==> Touches(r, data.Keys, g)
    ensures var u := GroupsUpdated(r, data, groups, uris);
            && SecretsMode(u) && u == r.(secrets := u.secrets, bag := u.bag)
            && Get(u, f)
               == if f in data && f in r.requested && GroupOf(r.labels, f) in groups then Some(data[f]) else Get(r, f)
    decreases |groups|
  {
    if groups != [] {
      var g := groups[0];
      var u := GroupUpdated(r, data, g, uris[g]);
      GroupUpdatedMode(r, data, g, uris[g]);
      GroupUpdatedGet(r, data, g, uris[g], f);
      assert u.requested == r.requested && u.labels == r.labels;
      assert forall h :: Touches(r, data.Keys, h) ==> Touches(u, data.Keys, h);
      GroupsUpdatedSays(u, data, groups[1..], uris, f);
      assert groups == [g] + groups[1..];
    }
  }

  /** Databag fields that are nobody's secret and no URI can be written freely. */
  lemma PlainPut(r: Relation, plain: Fields, f: string)
    requires SecretsMode(r) && Writable(plain) && forall k :: k in plain ==> k !in r.requested
    ensures SecretsMode(r.(bag := r.bag + plain))
    ensures Get(r.(bag := r.bag + plain), f) == if f in plain then Some(plain[f]) else Get(r, f)
  {
    forall g ensures UriField(g) !in plain {
      UriFieldsDiffer(g, g);
    }
  }

  /** The main result: in secrets mode an update is map override, on every field, and stays in secrets mode. */
  lemma UpdateIsOverride(r: Relation, data: Fields, groups: seq<Group>, uris: map<Group, string>)
    requires SecretsMode(r) && Writable(data) && RealUris(uris) && Lists(groups, r, data.Keys)
    ensures View(Updated(r, data, groups, uris)) == View(r) + data
    ensures SecretsMode(Updated(r, data, groups, uris))
  {
    var u := Updated(r, data, groups, uris);
    forall f
      ensures SecretsMode(u) && Get(u, f) == if f in data then Some(data[f]) else Get(r, f)
    {
      UpdatedGet(r, data, groups, uris, f);
    }
    SameView(u, r, data);
  }

  lemma SameView(u: Relation, r: Relation, data: Fields)
    requires forall f :: Get(u, f) == if f in data then Some(data[f]) else Get(r, f)
    ensures View(u) == View(r) + data
  {
    forall f ensures f in View(u) <==> f in View(r) + data
             ensures f in View(u) ==> View(u)[f] == (View(r) + data)[f] {
      ViewIsGet(u, f);
      ViewIsGet(r, f);
    }
    assert View(u) == View(r) + data;
  }

  lemma UpdatedGet(r: Relation, data: Fields, groups: seq<Group>, uris: map<Group, string>, f: string)
    requires SecretsMode(r) && Writable(data) && RealUris(uris) && Lists(groups, r, data.Keys)
    ensures SecretsMode(Updated(r, data, groups, uris))
    ensures Get(Updated(r, data, groups, uris), f) == if f in data then Some(data[f]) else Get(r, f)
  {
    GroupsUpdatedSays(r, data, groups, uris, f);
    var between := GroupsUpdated(r, data, groups, uris);
    var plain := NormalContent(r, data);
    assert forall k :: k in plain <==> k in data && k !in r.requested by {
      forall g ensures !Lost(r, g) {
      }
    }
    PlainPut(between, plain, f);
    assert f in data && f in r.requested ==> Touches(r, data.Keys, GroupOf(r.labels, f));
  }

  // ---- Reading back ------------------------------------------------------------------------------------------

  function Restrict(view: Fields, fields: set<string>): Fields {
    map f | f in view && (fields == {} || f in fields) :: view[f]
  }

  predicate Readable(fields: set<string>) {
    forall f :: f in fields ==> !IsSecretField(f)
  }

  lemma RequestedIsNotInBag(r: Relation, f: string)
    requires SecretsMode(r) && f in r.requested
    ensures f !in r.bag && !IsSecretField(f)
  {
    assert f in r.bag ==> f in r.requested * r.bag.Keys;
  }

  lemma AskedAt(r: Relation, fields: set<string>, f: string)
    requires SecretsMode(r) && Readable(fields) && Get(r, f).Some?
    ensures f in Asked(r.bag, r.requested, fields) <==> fields == {} || f in fields
  {
  }

  lemma FetchAtRequested(r: Relation, found: Found, fields: set<string>, f: string)
    requires SecretsMode(r) && Readable(fields) && f in r.requested
    requires forall g :: g in found ==> g in r.secrets && found[g] == r.secrets[g].content
    ensures var result := Fetch(r.labels, r.bag, r.requested, found, false, fields);
            && (f in result <==> Get(r, f).Some? && (fields == {} || f in fields) && GroupOf(r.labels, f) in found)
            && (f in result ==> Some(result[f]) == Get(r, f))
  {
    RequestedIsNotInBag(r, f);
    if Get(r, f).Some? {
      AskedAt(r, fields, f);
    }
  }

  lemma FetchAtPlain(r: Relation, found: Found, fields: set<string>, f: string)
    requires SecretsMode(r) && Readable(fields) && f !in r.requested
    ensures var result := Fetch(r.labels, r.bag, r.requested, found, false, fields);
            && (f in result <==> Get(r, f).Some? && (fields == {} || f in fields))
            && (f in result ==> Some(result[f]) == Get(r, f))
  {
    if Get(r, f).Some? {
      AskedAt(r, fields, f);
    }
    assert f in Asked(r.bag, r.requested, fields) && f in r.bag ==> !IsSecretField(f);
  }

  /** What a reader that finds some of the secrets reads of one field. */
  lemma FetchAt(r: Relation, found: Found, fields: set<string>, f: string)
    requires SecretsMode(r) && Readable(fields)
    requires forall g :: g in found ==> g in r.secrets && found[g] == r.secrets[g].content
    ensures var result := Fetch(r.labels, r.bag, r.requested, found, false, fields);
            && (f in result <==> Get(r, f).Some? && (fields == {} || f in fields)
                                 && (f in r.requested ==> GroupOf(r.labels, f) in found))
            && (f in result ==> Some(result[f]) == Get(r, f))
  {
    if f in r.requested {
      FetchAtRequested(r, found, fields, f);
    } else {
      FetchAtPlain(r, found, fields, f);
    }
  }

  /** The provider reads exactly the dictionary, or the part of it that was asked for. */
  lemma ProviderReadsView(r: Relation, fields: set<string>)
    requires SecretsMode(r) && Readable(fields)
    ensures ProviderFetch(r, fields) == Restrict(View(r), fields)
  {
    forall f
      ensures f in ProviderFetch(r, fields) <==> f in Restrict(View(r), fields)
      ensures f in ProviderFetch(r, fields) ==> ProviderFetch(r, fields)[f] == Restrict(View(r), fields)[f]
    {
      FetchAt(r, Contents(r), fields, f);
      ViewIsGet(r, f);
    }
    assert ProviderFetch(r, fields) == Restrict(View(r), fields);
  }

  lemma RequirerReadsRegistered(r: Relation, fields: set<string>)
    requires SecretsMode(r) && Readable(fields) && forall g :: g in r.secrets ==> g in r.registered
    ensures RequirerFetch(r, fields) == Restrict(View(r), fields)
  {
    forall f
      ensures f in RequirerFetch(r, fields) <==> f in Restrict(View(r), fields)
      ensures f in RequirerFetch(r, fields) ==> RequirerFetch(r, fields)[f] == Restrict(View(r), fields)[f]
    {
      FetchAt(r, Registered(r), fields, f);
      ViewIsGet(r, f);
    }
    assert RequirerFetch(r, fields) == Restrict(View(r), fields);
  }

  lemma SomeHiddenField(r: Relation, g: Group) returns (f: string)
    requires SecretsMode(r) && g in r.secrets
    ensures f in r.requested && GroupOf(r.labels, f) == g && Get(r, f).Some?
  {
    assert r.secrets[g].content.Keys != {};
    f :| f in r.secrets[g].content.Keys;
  }

  lemma UnregisteredIsMissed(r: Relation, g: Group) returns (f: string)
    requires SecretsMode(r) && g in r.secrets && g !in r.registered
    ensures f in View(r) && f !in RequirerFetch(r, {})
  {
    f := SomeHiddenField(r, g);
    FetchAtRequested(r, Registered(r), {}, f);
    ViewIsGet(r, f);
  }

  /** The requirer reads what the provider reads exactly when it has labelled every secret there is. */
  lemma ViewsAgreeExactlyWhenRegistered(r: Relation)
    requires SecretsMode(r)
    ensures RequirerFetch(r, {}) == ProviderFetch(r, {}) <==> forall g :: g in r.secrets ==> g in r.registered
  {
    ProviderReadsView(r, {});
    assert Restrict(View(r), {}) == View(r);
    if g :| g in r.secrets && g !in r.registered {
      var f := UnregisteredIsMissed(r, g);
    } else {
      RequirerReadsRegistered(r, {});
    }
  }

  lemma HandledRegistersAll(r: Relation)
    requires SecretsMode(r) && SeenRegistered(r)
    ensures SeenRegistered(Handled(r)) && SecretsMode(Handled(r))
    ensures forall g :: g in r.secrets ==> g in Handled(r).registered
  {
    forall g ensures UriField(g) in Handled(r).seen ==> g in Handled(r).registered
             ensures g in r.secrets ==> g in Handled(r).registered {
      assert UriField(g)[0] == 's';
      assert UriField(g) in Snapshot(r.bag) <==> UriField(g) in r.bag;
    }
  }

  lemma HandledKeepsView(r: Relation)
    ensures View(Handled(r)) == View(r)
  {
    assert forall f :: Get(Handled(r), f) == Get(r, f);
    SameView(Handled(r), r, map[]);
    assert View(r) + map[] == View(r);
  }

  /** Once the requirer has handled relation-changed, both sides read the same dictionary. */
  lemma HandledSeesProvider(r: Relation, fields: set<string>)
    requires SecretsMode(r) && SeenRegistered(r) && Readable(fields)
    ensures SecretsMode(Handled(r)) && SeenRegistered(Handled(r)) && View(Handled(r)) == View(r)
    ensures RequirerFetch(Handled(r), fields) == ProviderFetch(r, fields) == Restrict(View(r), fields)
  {
    HandledRegistersAll(r);
    HandledKeepsView(r);
    ProviderReadsView(r, fields);
    RequirerReadsRegistered(Handled(r), fields);
  }

  // ---- Runs ------------------------------------------------------------------------------------------------------

  datatype Step = Update(data: Fields, groups: seq<Group>, uris: map<Group, string>) | Handle

  predicate Possible(r: Relation, step: Step) {
    step.Update? ==> Writable(step.data) && RealUris(step.uris) && Lists(step.groups, r, step.data.Keys)
  }

  function Apply(r: Relation, step: Step): Relation
    requires Possible(r, step)
  {
    match step
    case Update(data, groups, uris) => Updated(r, data, groups, uris)
    case Handle => Handled(r)
  }

  predicate IsRun(r: Relation, steps: seq<Step>)
    decreases |steps|
  {
    steps == [] || (Possible(r, steps[0]) && IsRun(Apply(r, steps[0]), steps[1..]))
  }

  function After(r: Relation, steps: seq<Step>): Relation
    requires IsRun(r, steps)
    decreases |steps|
  {
    if steps == [] then r else After(Apply(r, steps[0]), steps[1..])
  }

  /** What a plain dictionary holds after the same updates. */
  function Plain(view: Fields, steps: seq<Step>): Fields
    decreases |steps|
  {
    if steps == [] then view
    else Plain(if steps[0].Update? then view + steps[0].data else view, steps[1..])
  }

  lemma {:induction false} RunIsPlainDictionary(r: Relation, steps: seq<Step>)
    requires SecretsMode(r) && SeenRegistered(r) && IsRun(r, steps)
    ensures var u := After(r, steps);
            SecretsMode(u) && SeenRegistered(u) && View(u) == Plain(View(r), steps)
    decreases |steps|
  {
    if steps != [] {
      match steps[0] {
        case Update(data, groups, uris) =>
          UpdateIsOverride(r, data, groups, uris);
          UpdatedKeepsSeen(r, data, groups, uris);
        case Handle => HandledSeesProvider(r, {});
      }
      RunIsPlainDictionary(Apply(r, steps[0]), steps[1..]);
    }
  }

  lemma UpdatedKeepsSeen(r: Relation, data: Fields, groups: seq<Group>, uris: map<Group, string>)
    requires SecretsMode(r) && SeenRegistered(r) && Writable(data) && RealUris(uris) && Lists(groups, r, data.Keys)
    ensures SeenRegistered(Updated(r, data, groups, uris))
  {
    GroupsUpdatedSays(r, data, groups, uris, "");
  }

  /**
   After any run of updates and events both sides read what a plain dictionary would hold: the provider at
   once, the requirer when it next handles relation-changed. No field asked to be secret is in the databag.
   */
  lemma BothSidesReadPlainDictionary(r: Relation, steps: seq<Step>, fields: set<string>)
    requires SecretsMode(r) && SeenRegistered(r) && IsRun(r, steps) && Readable(fields)
    ensures var u := After(r, steps);
            && ProviderFetch(u, fields) == Restrict(Plain(View(r), steps), fields)
            && RequirerFetch(Handled(u), fields) == Restrict(Plain(View(r), steps), fields)
            && u.requested * u.bag.Keys == {}
  {
    RunIsPlainDictionary(r, steps);
    ProviderReadsView(After(r, steps), fields);
    HandledSeesProvider(After(r, steps), fields);
  }

  // ---- Without secrets ------------------------------------------------------------------------------------------

  /** Nothing was asked to be secret, or the relation began on the databag: an update is a databag update, in full. */
  lemma UpdateWithoutSecrets(r: Relation, data: Fields, groups: seq<Group>, uris: map<Group, string>)
    requires RealUris(uris) && (r.requested == {} || r.requested * r.bag.Keys != {})
    ensures Updated(r, data, groups, uris) == r.(bag := r.bag + data)
  {
    assert NormalContent(r, data) == data;
  }

  /** Likewise a deletion removes exactly the fields from the databag. */
  lemma DeleteWithoutSecrets(r: Relation, fields: set<string>, groups: seq<Group>)
    requires r.requested == {} || r.requested * r.bag.Keys != {}
    ensures Deleted(r, fields, groups) == r.(bag := r.bag - fields)
  {
    assert NormalFields(r, fields) == fields;
  }

  /** And both sides read the databag: the fields asked for, or all but the secret fields. */
  lemma ReadWithoutSecrets(r: Relation, fields: set<string>)
    requires r.requested == {} || r.requested * r.bag.Keys != {}
    requires forall f :: f in r.requested ==> !IsSecretField(f)
    ensures fields != {} ==> ProviderFetch(r, fields) == map f | f in r.bag && f in fields :: r.bag[f]
    ensures fields == {} ==> ProviderFetch(r, fields) == map f | f in r.bag && !IsSecretField(f) :: r.bag[f]
    ensures r.requested == {} || r.secrets == map[] ==> RequirerFetch(r, fields) == ProviderFetch(r, fields)
  {
    var asked := Asked(r.bag, r.requested, fields);
    var plain := map f | f in asked && f in r.bag :: r.bag[f];
    assert ProviderFetch(r, fields) == plain;
    if fields == {} {
      assert plain == map f | f in r.bag && !IsSecretField(f) :: r.bag[f];
    }
    if r.requested != {} && r.secrets == map[] {
      assert Registered(r) == map[];
      NothingFound(r.labels, r.bag, r.requested, fields);
    }
  }

  lemma NothingFound(labels: Labels, bag: Fields, requested: set<string>, fields: set<string>)
    ensures Fetch(labels, bag, requested, map[], false, fields)
            == map f | f in Asked(bag, requested, fields) && f in bag :: bag[f]
  {
  }

  /** A field whose group's secret is lost is written to the databag, and no secret is made for it. */
  lemma LostFieldsGoToDatabag(r: Relation, data: Fields, groups: seq<Group>, uris: map<Group, string>, f: string)
    requires RealUris(uris) && f in data && f in r.requested && Lost(r, GroupOf(r.labels, f))
    ensures var u := Updated(r, data, groups, uris);
            f in u.bag && u.bag[f] == data[f] && GroupOf(r.labels, f) !in u.secrets
  {
    if UsesSecrets(r) {
      GroupsKeepLost(r, data, groups, uris, GroupOf(r.labels, f));
    }
    assert f in NormalContent(r, data);
  }

  lemma {:induction false} GroupsKeepLost(
      r: Relation, data: Fields, groups: seq<Group>, uris: map<Group, string>, g: Group)
    requires RealUris(uris) && Lost(r, g)
    ensures g !in GroupsUpdated(r, data, groups, uris).secrets
    decreases |groups|
  {
    if groups != [] {
      var h := groups[0];
      UriFieldsDiffer(h, g);
      GroupsKeepLost(GroupUpdated(r, data, h, uris[h]), data, groups[1..], uris, g);
    }
  }

  /** A relation that began on the databag: updates and reads stay there, whatever is asked to be secret. */
  lemma DatabagRelationStaysOnDatabag(r: Relation, data: Fields, groups: seq<Group>, uris: map<Group, string>)
    requires Fallback(r) && RealUris(uris)
    ensures Fallback(Updated(r, data, groups, uris)) && Updated(r, data, groups, uris).secrets == r.secrets
    ensures Updated(r, data, groups, uris).bag == r.bag + data
  {
    var f :| f in r.requested * r.bag.Keys;
    assert f in r.requested * Updated(r, data, groups, uris).bag.Keys;
    assert NormalContent(r, data) == data;
  }

  // ---- The provider deletes -----------------------------------------------------------------------------------

  /** Fields can be deleted from a group's secret only if it holds every one of them. */
  predicate Deletable(r: Relation, fields: set<string>, g: Group) {
    g in r.secrets && fields <= r.secrets[g].content.Keys
  }

  function GroupDeleted(r: Relation, fields: set<string>, g: Group): Relation {
    if !Deletable(r, fields, g) then r
    else
      var rest := r.secrets[g].content - fields;
      if rest == map[] then r.(secrets := r.secrets - {g}, bag := r.bag - {UriField(g)})
      else r.(secrets := r.secrets[g := r.secrets[g].(content := rest)])
  }

  function GroupsDeleted(r: Relation, fields: set<string>, groups: seq<Group>): Relation
    decreases |groups|
  {
    if groups == [] then r else GroupsDeleted(GroupDeleted(r, fields, groups[0]), fields, groups[1..])
  }

  function NormalFields(r: Relation, fields: set<string>): set<string> {
    set f | f in fields && (!UsesSecrets(r) || f !in r.requested || !Deletable(r, fields, GroupOf(r.labels, f)))
  }

  /** `delete_relation_data`. */
  function Deleted(r: Relation, fields: set<string>, groups: seq<Group>): Relation {
    var after := if UsesSecrets(r) then GroupsDeleted(r, fields, groups) else r;
    after.(bag := after.bag - NormalFields(r, fields))
  }

  lemma UriDrop(bag: Fields, secrets: Secrets, g: Group)
    requires forall h :: UriField(h) in bag <==> h in secrets
    requires forall h :: h in secrets ==> bag[UriField(h)] == secrets[h].uri
    ensures forall h :: UriField(h) in bag - {UriField(g)} <==> h in secrets - {g}
    ensures forall h :: h in secrets - {g} ==> (bag - {UriField(g)})[UriField(h)] == secrets[h].uri
    ensures forall f :: PlainField(bag - {UriField(g)}, f) == PlainField(bag, f)
  {
    forall h ensures UriField(h) == UriField(g) ==> h == g {
      UriFieldsDiffer(h, g);
    }
    UriFieldsDiffer(g, g);
  }

  lemma HeldAfterTrim(labels: Labels, requested: set<string>, secrets: Secrets, g: Group, fields: set<string>)
    requires GroupsHoldTheirOwn(labels, requested, secrets) && g in secrets
    ensures GroupsHoldTheirOwn(labels, requested, secrets - {g})
    ensures secrets[g].content - fields != map[] ==>
              GroupsHoldTheirOwn(labels, requested, secrets[g := secrets[g].(content := secrets[g].content - fields)])
  {
  }

  lemma FewerFieldsUseSecrets(r: Relation, after: Relation)
    requires UsesSecrets(r) && after.requested == r.requested && after.bag.Keys <= r.bag.Keys
    ensures UsesSecrets(after)
  {
    assert forall f :: f in after.requested * after.bag.Keys ==> f in r.requested * r.bag.Keys;
  }

  lemma GroupDeletedMode(r: Relation, fields: set<string>, g: Group)
    requires SecretsMode(r)
    ensures SecretsMode(GroupDeleted(r, fields, g))
  {
    if Deletable(r, fields, g) {
      HeldAfterTrim(r.labels, r.requested, r.secrets, g, fields);
      FewerFieldsUseSecrets(r, GroupDeleted(r, fields, g));
      UriDrop(r.bag, r.secrets, g);
    }
  }

  lemma TrimmedField(labels: Labels, requested: set<string>, secrets: Secrets, fields: set<string>, g: Group, f: string)
    requires GroupsHoldTheirOwn(labels, requested, secrets) && g in secrets && fields <= secrets[g].content.Keys
    ensures var content := secrets[g].content - fields;
            var after := if content == map[] then secrets - {g} else secrets[g := secrets[g].(content := content)];
            SecretField(labels, requested, after, f)
            == if f in fields then None else SecretField(labels, requested, secrets, f)
  {
    var content := secrets[g].content;
    assert f in fields ==> f in content;
    assert f in content && f !in fields ==> f in content - fields;
  }

  lemma GroupDeletedGet(r: Relation, fields: set<string>, g: Group, f: string)
    requires SecretsMode(r)
    ensures Get(GroupDeleted(r, fields, g), f) == if f in fields && Deletable(r, fields, g) then None else Get(r, f)
  {
    if Deletable(r, fields, g) {
      TrimmedField(r.labels, r.requested, r.secrets, fields, g, f);
      UriDrop(r.bag, r.secrets, g);
      if f in fields {
        assert f in r.secrets[g].content;
        RequestedIsNotInBag(r, f);
      }
    }
  }

  ghost predicate SomeDeletable(r: Relation, fields: set<string>, groups: seq<Group>) {
    exists g :: g in groups && Deletable(r, fields, g)
  }

  lemma OthersStayDeletable(r: Relation, fields: set<string>, g: Group, groups: seq<Group>)
    requires g !in groups
    ensures SomeDeletable(GroupDeleted(r, fields, g), fields, groups) == SomeDeletable(r, fields, groups)
  {
    forall h | h in groups ensures Deletable(GroupDeleted(r, fields, g), fields, h) <==> Deletable(r, fields, h) {
      assert h != g;
    }
  }

  lemma FirstOrRestDeletable(r: Relation, fields: set<string>, groups: seq<Group>)
    requires groups != []
    ensures SomeDeletable(r, fields, groups) <==>
            Deletable(r, fields, groups[0]) || SomeDeletable(r, fields, groups[1..])
  {
    assert groups == [groups[0]] + groups[1..];
  }

  lemma {:induction false} GroupsDeletedSays(r: Relation, fields: set<string>, groups: seq<Group>, f: string)
    requires SecretsMode(r) && forall i, j :: 0 <= i < j < |groups| ==> groups[i] != groups[j]
    ensures var u := GroupsDeleted(r, fields, groups);
            && SecretsMode(u) && u == r.(secrets := u.secrets, bag := u.bag)
            && Get(u, f) == if f in fields && SomeDeletable(r, fields, groups) then None else Get(r, f)
    decreases |groups|
  {
    if groups != [] {
      var g := groups[0];
      GroupDeletedMode(r, fields, g);
      GroupDeletedGet(r, fields, g, f);
      OthersStayDeletable(r, fields, g, groups[1..]);
      FirstOrRestDeletable(r, fields, groups);
      GroupsDeletedSays(GroupDeleted(r, fields, g), fields, groups[1..], f);
    }
  }

  predicate Deletes(r: Relation, fields: set<string>, f: string) {
    f in fields && (f !in r.requested || Deletable(r, fields, GroupOf(r.labels, f)))
  }

  lemma DeletableGroups(r: Relation, fields: set<string>, groups: seq<Group>, f: string)
    requires SecretsMode(r) && Lists(groups, r, fields)
    ensures f in fields ==>
              (SomeDeletable(r, fields, groups) <==> f in r.requested && Deletable(r, fields, GroupOf(r.labels, f)))
  {
    assert f in fields && f in r.requested ==> Touches(r, fields, GroupOf(r.labels, f));
    assert forall g :: f in fields && Deletable(r, fields, g) ==> f in r.secrets[g].content;
  }

  /** Secret fields go only if the secret of their group holds all that is to be deleted; others always go. */
  lemma DeletedGet(r: Relation, fields: set<string>, groups: seq<Group>, f: string)
    requires SecretsMode(r) && Readable(fields) && Lists(groups, r, fields)
    ensures SecretsMode(Deleted(r, fields, groups))
    ensures Get(Deleted(r, fields, groups), f) == if Deletes(r, fields, f) then None else Get(r, f)
  {
    GroupsDeletedSays(r, fields, groups, f);
    var between := GroupsDeleted(r, fields, groups);
    var normal := NormalFields(r, fields);
    forall g ensures UriField(g) !in normal {
      UriFieldsDiffer(g, g);
    }
    DeletableGroups(r, fields, groups, f);
    PlainDrop(between, normal, f);
    if f in r.requested {
      RequestedIsNotInBag(between, f);
    }
  }

  lemma PlainDrop(r: Relation, normal: set<string>, f: string)
    requires SecretsMode(r) && forall g :: UriField(g) !in normal
    ensures SecretsMode(r.(bag := r.bag - normal))
    ensures Get(r.(bag := r.bag - normal), f)
            == if SecretField(r.labels, r.requested, r.secrets, f) == None && f in normal then None else Get(r, f)
  {
    FewerFieldsUseSecrets(r, r.(bag := r.bag - normal));
  }

  /**
   Deleting is removal from the dictionary exactly if every secret field that is there lies in a secret that
   holds all the fields to be deleted: all of them in one group, or none of them secret.
   */
  lemma DeleteIsRemovalExactly(r: Relation, fields: set<string>, groups: seq<Group>)
    requires SecretsMode(r) && Readable(fields) && Lists(groups, r, fields)
    ensures View(Deleted(r, fields, groups)) == View(r) - fields <==>
            forall f :: f in fields && f in r.requested && Get(r, f).Some? ==>
                  Deletable(r, fields, GroupOf(r.labels, f))
  {
    forall f ensures Get(Deleted(r, fields, groups), f) == if Deletes(r, fields, f) then None else Get(r, f) {
      DeletedGet(r, fields, groups, f);
    }
    RemovalExactly(Deleted(r, fields, groups), r, fields);
  }

  lemma RemovalExactly(u: Relation, r: Relation, fields: set<string>)
    requires forall f :: Get(u, f) == if Deletes(r, fields, f) then None else Get(r, f)
    ensures View(u) == View(r) - fields <==> forall f :: f in fields && Get(r, f).Some? ==> Deletes(r, fields, f)
  {
    forall f ensures f in View(u) <==> f in View(r) && !Deletes(r, fields, f)
             ensures f in View(u) ==> View(u)[f] == View(r)[f] {
      ViewIsGet(u, f);
      ViewIsGet(r, f);
    }
    if f :| f in fields && Get(r, f).Some? && !Deletes(r, fields, f) {
      ViewIsGet(r, f);
      assert f in View(u) && f !in View(r) - fields;
    } else {
      forall f ensures f in View(u) <==> f in View(r) - fields {
        ViewIsGet(r, f);
      }
      assert View(u) == View(r) - fields;
    }
  }
}
