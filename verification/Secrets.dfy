/**
 The charm's secret cache: one Juju secret per scope, cached dictionaries that callers share, and a
 tombstone instead of deletion.
 */
module Secrets {
  import opened Wrappers

  datatype Scope = AppScope | UnitScope

  const SECRET_DELETED_LABEL := "None"

  type Content = map<string, string>

  /** The Juju secrets of the application and of the unit. */
  type Store = map<Scope, Content>

  // ---- What the operations do to the store -------------------------------------------------------

  function ContentOf(store: Store, scope: Scope): Content {
    if scope in store then store[scope] else map[]
  }

  function Put(store: Store, scope: Scope, key: string, value: string): Store {
    store[scope := ContentOf(store, scope)[key := value]]
  }

  predicate Removable(store: Store, scope: Scope, key: string) {
    var c := ContentOf(store, scope);
    key in c && c[key] != "" && c[key] != SECRET_DELETED_LABEL
  }

  function Delete(store: Store, scope: Scope, key: string): Store {
    if Removable(store, scope, key) then Put(store, scope, key, SECRET_DELETED_LABEL) else store
  }

  function Lookup(store: Store, scope: Scope, key: string): Option<string> {
    var c := ContentOf(store, scope);
    if key in c && c[key] != SECRET_DELETED_LABEL then Some(c[key]) else None
  }

  // ---- The plain map it stands for ---------------------------------------------------------------

  datatype Op = SetOp(scope: Scope, key: string, value: string) | RemoveOp(scope: Scope, key: string)

  function Execute(store: Store, ops: seq<Op>): Store
    decreases |ops|
  {
    if ops == [] then store
    else
      var last := ops[|ops| - 1];
      var before := Execute(store, ops[..|ops| - 1]);
      match last
      case SetOp(s, k, v) => Put(before, s, k, v)
      case RemoveOp(s, k) => Delete(before, s, k)
  }

  /** What a plain dictionary from (scope, key) would answer after the same operations. */
  function Plain(initial: (Scope, string) -> Option<string>, ops: seq<Op>, scope: Scope, key: string): Option<string>
    decreases |ops|
  {
    if ops == [] then initial(scope, key)
    else
      var last := ops[|ops| - 1];
      if last.scope == scope && last.key == key then (if last.SetOp? then Some(last.value) else None)
      else Plain(initial, ops[..|ops| - 1], scope, key)
  }

  predicate Storable(v: string) {
    v != "" && v != SECRET_DELETED_LABEL
  }

  predicate StorableOps(ops: seq<Op>) {
    forall i :: 0 <= i < |ops| && ops[i].SetOp? ==> Storable(ops[i].value)
  }

  predicate StorableStore(store: Store) {
    forall s, k :: s in store && k in store[s] ==> store[s][k] != ""
  }

  /** No empty value ever gets into the store. */
  lemma {:induction false} StaysStorable(store: Store, ops: seq<Op>)
    requires StorableStore(store) && StorableOps(ops)
    ensures StorableStore(Execute(store, ops))
    decreases |ops|
  {
    if ops != [] {
      StaysStorable(store, ops[..|ops| - 1]);
    }
  }

  /** The refinement: over any sequence of operations every read answers what the plain dictionary would. */
  lemma {:induction false} RefinesPlainMap(store: Store, ops: seq<Op>, scope: Scope, key: string)
    requires StorableStore(store) && StorableOps(ops)
    ensures Lookup(Execute(store, ops), scope, key) == Plain((s, k) => Lookup(store, s, k), ops, scope, key)
    decreases |ops|
  {
    if ops != [] {
      var rest := ops[..|ops| - 1];
      RefinesPlainMap(store, rest, scope, key);
      StaysStorable(store, rest);
    }
  }

  /** The two scopes never interfere: operations on one leave the other's secret as it was. */
  lemma {:induction false} ScopesDoNotInterfere(store: Store, ops: seq<Op>, scope: Scope)
    requires forall i :: 0 <= i < |ops| ==> ops[i].scope != scope
    ensures scope in Execute(store, ops) <==> scope in store
    ensures ContentOf(Execute(store, ops), scope) == ContentOf(store, scope)
    decreases |ops|
  {
    if ops != [] {
      ScopesDoNotInterfere(store, ops[..|ops| - 1], scope);
    }
  }

  /**
   Outside those values the cache is not a map: what is read back is exact only for values other than the
   tombstone.
   */
  lemma ReadBackExactly(store: Store, scope: Scope, key: string, value: string)
    ensures Lookup(Put(store, scope, key, value), scope, key) == Some(value) <==> value != SECRET_DELETED_LABEL
  {
  }

  /** And removal takes effect exactly unless the value is empty. */
  lemma RemovalTakesEffectExactly(store: Store, scope: Scope, key: string)
    ensures Lookup(Delete(store, scope, key), scope, key) == None <==> Lookup(store, scope, key) != Some("")
  {
  }

  // ---- The cache as the charm runs it --------------------------------------------------------------

  /** A Python dictionary: an object, so that two holders see each other's updates. */
  class Dict {
    var entries: Content

    constructor (entries: Content)
      ensures this.entries == entries
    {
      this.entries := entries;
    }
  }

  class Juju {
    var secrets: Store

    constructor ()
      ensures secrets == map[]
    {
      secrets := map[];
    }
  }

  class CachedSecret {
    const scope: Scope
    const juju: Juju
    var hasMeta: bool
    var content: Dict

    /** What is cached agrees with Juju; an empty dictionary means nothing was fetched. */
    ghost predicate Valid()
      reads this, juju, content
    {
      (hasMeta ==> scope in juju.secrets)
      && (content.entries != map[] ==> scope in juju.secrets && content.entries == juju.secrets[scope])
    }

    constructor (juju: Juju, scope: Scope)
      ensures Valid() && this.juju == juju && this.scope == scope && !hasMeta
      ensures fresh(content) && content.entries == map[]
    {
      this.juju := juju;
      this.scope := scope;
      this.hasMeta := false;
      this.content := new Dict(map[]);
    }

    method Meta() returns (found: bool)
      requires Valid()
      modifies this`hasMeta
      ensures Valid() && found == (scope in juju.secrets) && hasMeta == found
    {
      if hasMeta {
        return true;
      }
      hasMeta := scope in juju.secrets;
      return hasMeta;
    }

    /** The cached dictionary itself, fetched first if it is empty. */
    method GetContent() returns (d: Dict)
      requires Valid()
      modifies this
      ensures Valid() && d == content && (d == old(content) || fresh(d))
      ensures d.entries == ContentOf(juju.secrets, scope)
    {
      if content.entries == map[] {
        var found := Meta();
        if found {
          content := new Dict(juju.secrets[scope]);
        }
      }
      return content;
    }

    /** Writes a dictionary to Juju and keeps it, whoever else holds it. */
    method SetContent(d: Dict)
      requires hasMeta ==> scope in juju.secrets
      requires content.entries == map[] || d == content
               || (scope in juju.secrets && content.entries == juju.secrets[scope])
      modifies this, juju
      ensures old(scope in juju.secrets) ==>
                Valid() && content == d && juju.secrets == old(juju.secrets)[scope := d.entries]
      ensures !old(scope in juju.secrets) ==> juju.secrets == old(juju.secrets) && content == old(content)
    {
      if !hasMeta {
        hasMeta := scope in juju.secrets;
      }
      if hasMeta {
        juju.secrets := juju.secrets[scope := d.entries];
        content := d;
      }
    }
  }

  /** `get_content`, an update of that same dictionary, then `set_content`: the update is shared before it is stored. */
  method UpdateInPlace(secret: CachedSecret, key: string, value: string)
    requires secret.Valid() && secret.scope in secret.juju.secrets
    modifies secret, secret.juju, secret.content
    ensures secret.Valid() && (secret.content == old(secret.content) || fresh(secret.content))
    ensures secret.juju.secrets == Put(old(secret.juju.secrets), secret.scope, key, value)
  {
    var content := secret.GetContent();
    content.entries := content.entries[key := value];
    secret.SetContent(content);
  }

  /** `add_secret` on a new cached secret: its content is fetched when it is first asked for. */
  method AddSecret(juju: Juju, scope: Scope, content: Content) returns (secret: CachedSecret)
    requires scope !in juju.secrets
    modifies juju
    ensures fresh(secret) && fresh(secret.content) && secret.Valid()
    ensures secret.juju == juju && secret.scope == scope
    ensures juju.secrets == old(juju.secrets)[scope := content]
  {
    secret := new CachedSecret(juju, scope);
    juju.secrets := juju.secrets[scope := content];
    secret.hasMeta := true;
  }

  class SecretCache {
    const juju: Juju
    var secrets: map<Scope, CachedSecret>
    ghost var Repr: set<object>

    ghost predicate Valid()
      reads this, Repr
    {
      && this in Repr && juju in Repr
      && (forall s :: s in secrets ==>
            secrets[s] in Repr && secrets[s].content in Repr
            && secrets[s].juju == juju && secrets[s].scope == s && secrets[s].Valid() && s in juju.secrets)
      && (AppScope in secrets && UnitScope in secrets ==>
            secrets[AppScope] != secrets[UnitScope] && secrets[AppScope].content != secrets[UnitScope].content)
    }

    constructor (juju: Juju)
      ensures Valid() && fresh(Repr - {juju}) && this.juju == juju && secrets == map[]
    {
      this.juju := juju;
      this.secrets := map[];
      this.Repr := {this, juju};
    }

    /** The cached secret of a scope, looked up in Juju the first time. */
    method Get(scope: Scope) returns (r: Option<CachedSecret>)
      requires Valid()
      modifies this
      ensures Valid() && fresh(Repr - old(Repr)) && juju.secrets == old(juju.secrets)
      ensures r == if scope in secrets then Some(secrets[scope]) else None
      ensures scope in secrets <==> scope in juju.secrets
    {
      if scope !in secrets {
        var secret := new CachedSecret(juju, scope);
        var found := secret.Meta();
        if found {
          secrets := secrets[scope := secret];
          Repr := Repr + {secret, secret.content};
        }
      }
      return if scope in secrets then Some(secrets[scope]) else None;
    }

    /** The dictionary of a scope's secret, as `get` then `get_content` hand it out. */
    method Fetch(scope: Scope) returns (content: Option<Dict>)
      requires Valid()
      modifies Repr
      ensures Valid() && fresh(Repr - old(Repr)) && juju.secrets == old(juju.secrets)
      ensures content.Some? <==> scope in juju.secrets
      ensures content.Some? ==> scope in secrets && content.value == secrets[scope].content
                                && content.value.entries == juju.secrets[scope]
    {
      var found := Get(scope);
      if found == None {
        return None;
      }
      var dict := found.value.GetContent();
      Repr := Repr + {dict};
      return Some(dict);
    }

    method GetForKey(scope: Scope, key: string) returns (value: Option<string>)
      requires Valid()
      modifies Repr
      ensures Valid() && fresh(Repr - old(Repr)) && juju.secrets == old(juju.secrets)
      ensures value == Lookup(juju.secrets, scope, key)
    {
      var content := Fetch(scope);
      if content == None {
        return None;
      }
      if key in content.value.entries && content.value.entries[key] != SECRET_DELETED_LABEL {
        return Some(content.value.entries[key]);
      }
      return None;
    }

    /** The in-place update of a cached secret, and the write to Juju that follows it. */
    method Overwrite(scope: Scope, key: string, value: string)
      requires Valid() && scope in secrets
      modifies Repr
      ensures Valid() && fresh(Repr - old(Repr))
      ensures juju.secrets == Put(old(juju.secrets), scope, key, value)
    {
      UpdateInPlace(secrets[scope], key, value);
      Repr := Repr + {secrets[scope].content};
    }

    method Set(key: string, value: string, scope: Scope)
      requires Valid()
      modifies Repr
      ensures Valid() && fresh(Repr - old(Repr))
      ensures juju.secrets == Put(old(juju.secrets), scope, key, value)
    {
      var found := Get(scope);
      if found == None {
        Add(scope, map[key := value]);
        return;
      }
      Overwrite(scope, key, value);
    }

    method Add(scope: Scope, content: Content)
      requires Valid() && scope !in juju.secrets && scope !in secrets
      modifies this, juju
      ensures Valid() && fresh(Repr - old(Repr))
      ensures juju.secrets == old(juju.secrets)[scope := content]
    {
      var secret := AddSecret(juju, scope, content);
      secrets := secrets[scope := secret];
      Repr := Repr + {secret, secret.content};
    }

    method Remove(scope: Scope, key: string)
      requires Valid()
      modifies Repr
      ensures Valid() && fresh(Repr - old(Repr))
      ensures juju.secrets == Delete(old(juju.secrets), scope, key)
    {
      var content := Fetch(scope);
      if content == None {
        return;
      }
      var entries := content.value.entries;
      if key !in entries || entries[key] == "" || entries[key] == SECRET_DELETED_LABEL {
        return;
      }
      Overwrite(scope, key, SECRET_DELETED_LABEL);
    }
  }
}
