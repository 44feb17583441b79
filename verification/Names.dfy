/** Names that are printed in one place and taken apart in another. */
module Names {
  import opened Wrappers
  import opened Text

  /** `hostname_from_hostport`. */
  function HostName(hostPort: string): string {
    Split(hostPort, ':')[0]
  }

  /** `hostname_from_shardname`. */
  function ShardName(entry: string): string {
    Split(entry, '/')[0]
  }

  // ---- Secret labels: relation name, relation id, group ----------------------------------------------

  const LABEL_SUFFIX := "secret"

  function SecretLabel(relation: string, id: nat, group: string): string {
    relation + "." + (Decimal(id) + "." + (group + "." + LABEL_SUFFIX))
  }

  /** Of the parts of a label the last two go, the next is the id, the rest is the name. */
  function RelationOfParts(contents: seq<string>): Option<(string, nat)> {
    if |contents| < 3 then None
    else
      var id := ParseNat(contents[|contents| - 3]);
      if id == None then None else Some((Join(contents[..|contents| - 3], '.'), id.value))
  }

  /** `_relation_from_secret_label`, up to looking the relation up. */
  function RelationOfLabel(text: string): Option<(string, nat)> {
    RelationOfParts(Split(text, '.'))
  }

  lemma DecimalIsFree(n: nat, c: char)
    requires !('0' <= c <= '9')
    ensures Free(Decimal(n), c)
  {
    DecimalParses(n);
  }

  lemma SplitLast(a: string, b: string, c: char)
    requires Free(b, c)
    ensures Split(a + [c] + b, c) == Split(a, c) + [b]
  {
    SplitFree(b, c);
    SplitConcat(a, b, c);
  }

  lemma SplitMiddle(a: string, b: string, tail: string, c: char)
    requires Free(b, c)
    ensures Split(a + [c] + (b + [c] + tail), c) == Split(a, c) + ([b] + Split(tail, c))
  {
    SplitFirst(b, tail, c);
    SplitConcat(a, b + [c] + tail, c);
  }

  lemma LabelParts(relation: string, id: nat, group: string)
    ensures Split(SecretLabel(relation, id, group), '.')
            == Split(relation, '.') + ([Decimal(id)] + (Split(group, '.') + [LABEL_SUFFIX]))
  {
    assert Free(LABEL_SUFFIX, '.');
    SplitLast(group, LABEL_SUFFIX, '.');
    DecimalIsFree(id, '.');
    SplitMiddle(relation, Decimal(id), group + "." + LABEL_SUFFIX, '.');
  }

  lemma SplitsExactlyAtSeparators(s: string, c: char)
    ensures |Split(s, c)| == 1 <==> Free(s, c)
  {
    var parts := Split(s, c);
    assert |parts| == 1 ==> Join(parts, c) == parts[0] && parts[0] in parts;
    if Free(s, c) {
      SplitFree(s, c);
    }
  }

  lemma PartsOfPlainGroup(names: seq<string>, id: nat, group: string)
    ensures RelationOfParts(names + ([Decimal(id)] + ([group] + [LABEL_SUFFIX]))) == Some((Join(names, '.'), id))
  {
    var contents := names + ([Decimal(id)] + ([group] + [LABEL_SUFFIX]));
    assert contents[..|contents| - 3] == names && contents[|contents| - 3] == Decimal(id);
    DecimalParses(id);
  }

  lemma PartsOfDottedGroup(names: seq<string>, id: nat, groups: seq<string>)
    requires |names| >= 1 && |groups| >= 2
    ensures var r := RelationOfParts(names + ([Decimal(id)] + (groups + [LABEL_SUFFIX])));
            r.Some? ==> |r.value.0| > |Join(names, '.')|
  {
    var contents := names + ([Decimal(id)] + (groups + [LABEL_SUFFIX]));
    var more := [Decimal(id)] + groups[..|groups| - 2];
    assert contents[..|contents| - 3] == names + more;
    JoinConcat(names, more, '.');
  }

  /** The label gives its relation back, dots in the name or not, exactly for groups without a dot. */
  lemma LabelParsesExactly(relation: string, id: nat, group: string)
    ensures RelationOfLabel(SecretLabel(relation, id, group)) == Some((relation, id)) <==> Free(group, '.')
  {
    LabelParts(relation, id, group);
    SplitsExactlyAtSeparators(group, '.');
    var names, groups := Split(relation, '.'), Split(group, '.');
    if |groups| == 1 {
      SplitFree(group, '.');
      PartsOfPlainGroup(names, id, group);
    } else {
      PartsOfDottedGroup(names, id, groups);
    }
  }

  /** Labels of different secrets differ. */
  lemma LabelsDiffer(relation: string, id: nat, group: string, relation': string, id': nat, group': string)
    requires Free(group, '.') && Free(group', '.')
    requires SecretLabel(relation, id, group) == SecretLabel(relation', id', group')
    ensures relation == relation' && id == id' && group == group'
  {
    LabelParsesExactly(relation, id, group);
    LabelParsesExactly(relation', id', group');
    LabelParts(relation, id, group);
    LabelParts(relation', id', group');
    SplitFree(group, '.');
    SplitFree(group', '.');
    var contents := Split(SecretLabel(relation, id, group), '.');
    assert contents[|contents| - 2] == group && contents[|contents| - 2] == group';
  }

  // ---- Shard entries: shard name and hosts --------------------------------------------------------------

  function HostPorts(hosts: seq<string>, port: nat): seq<string> {
    seq(|hosts|, i requires 0 <= i < |hosts| => hosts[i] + ":" + Decimal(port))
  }

  /** What `add_shard` sends. */
  function ShardUrl(name: string, hosts: seq<string>, port: nat): string {
    name + "/" + Join(HostPorts(hosts, port), ',')
  }

  /** The hosts of an entry; there are none to find without a slash. */
  function HostsOfEntry(entry: string): Option<set<string>> {
    var parts := Split(entry, '/');
    if |parts| < 2 then None else Some(set h | h in Split(parts[1], ',') :: HostName(h))
  }

  predicate PlainHost(h: string) {
    h != "" && Free(h, '/') && Free(h, ',') && Free(h, ':')
  }

  lemma {:induction false} JoinFree(parts: seq<string>, sep: char, c: char)
    requires sep != c && forall p :: p in parts ==> Free(p, c)
    ensures Free(Join(parts, sep), c)
  {
    if |parts| > 1 {
      assert parts[0] in parts && forall p :: p in parts[1..] ==> p in parts;
      JoinFree(parts[1..], sep, c);
    } else if |parts| == 1 {
      assert parts[0] in parts;
    }
  }

  lemma HostPortFree(h: string, port: nat)
    requires PlainHost(h)
    ensures Free(h + ":" + Decimal(port), '/') && Free(h + ":" + Decimal(port), ',')
    ensures HostName(h + ":" + Decimal(port)) == h
  {
    DecimalIsFree(port, '/');
    DecimalIsFree(port, ',');
    SplitFirst(h, Decimal(port), ':');
  }

  /** Without hosts the entry reads back as one host without a name. */
  lemma EmptyEntry(name: string, port: nat)
    requires Free(name, '/')
    ensures HostsOfEntry(ShardUrl(name, [], port)) == Some({""})
  {
    assert ShardUrl(name, [], port) == name + "/" + "";
    SplitFirst(name, "", '/');
    assert Split("", '/')[0] == "" && Split("", ',') == [""] && HostName("") == "";
    assert (set h | h in [""] :: HostName(h)) == {""};
  }

  /** A printed entry gives its shard and its hosts back, exactly if there are hosts at all. */
  lemma ShardEntryParsesExactly(name: string, hosts: seq<string>, port: nat)
    requires Free(name, '/') && forall i :: 0 <= i < |hosts| ==> PlainHost(hosts[i])
    ensures ShardName(ShardUrl(name, hosts, port)) == name
    ensures HostsOfEntry(ShardUrl(name, hosts, port)) == Some(set h | h in hosts) <==> hosts != []
  {
    var parts := HostPorts(hosts, port);
    forall i | 0 <= i < |hosts|
      ensures Free(parts[i], '/') && Free(parts[i], ',') && HostName(parts[i]) == hosts[i]
    {
      HostPortFree(hosts[i], port);
    }
    JoinFree(parts, ',', '/');
    SplitFirst(name, Join(parts, ','), '/');
    SplitFree(Join(parts, ','), '/');
    if hosts == [] {
      EmptyEntry(name, port);
      assert (set h | h in hosts) == {};
    } else {
      SplitJoin(parts, ',');
      HostsOfParts(parts, hosts);
    }
  }

  lemma HostsOfParts(parts: seq<string>, hosts: seq<string>)
    requires |parts| == |hosts| && forall i :: 0 <= i < |hosts| ==> HostName(parts[i]) == hosts[i]
    ensures (set h | h in parts :: HostName(h)) == (set h | h in hosts)
  {
    forall i | 0 <= i < |hosts|
      ensures hosts[i] in (set h | h in parts :: HostName(h))
      ensures HostName(parts[i]) in (set h | h in hosts)
    {
      assert parts[i] in parts && hosts[i] in hosts;
    }
  }

  // ---- Pods and units ------------------------------------------------------------------------------------

  /** `s.replace("/", "-")`. */
  function Dashed(s: string): string {
    seq(|s|, i requires 0 <= i < |s| => if s[i] == '/' then '-' else s[i])
  }

  function PodName(unit: string): string {
    Dashed(unit)
  }

  function UnitOfParts(parts: seq<string>): string
    requires parts != []
  {
    Join(parts[..|parts| - 1], '-') + "/" + parts[|parts| - 1]
  }

  /** The unit of a pod: the last part is the number, the rest the application. */
  function UnitOfPod(pod: string): string {
    UnitOfParts(Split(pod, '-'))
  }

  function UnitNumber(unit: string): Option<nat> {
    var parts := Split(unit, '/');
    ParseNat(parts[|parts| - 1])
  }

  lemma PodParts(app: string, number: string)
    requires Free(app, '/') && Free(number, '/')
    ensures Split(PodName(app + "/" + number), '-') == Split(app, '-') + Split(number, '-')
  {
    assert PodName(app + "/" + number) == app + ['-'] + number;
    SplitConcat(app, number, '-');
  }

  lemma UnitOfPlainParts(apps: seq<string>, number: string)
    ensures UnitOfParts(apps + [number]) == Join(apps, '-') + "/" + number
  {
    var parts := apps + [number];
    assert parts[..|parts| - 1] == apps;
  }

  /** A dash in the number ends up where the slash should be. */
  lemma UnitOfDashedParts(apps: seq<string>, numbers: seq<string>)
    requires |apps| >= 1 && |numbers| >= 2
    ensures var unit := UnitOfParts(apps + numbers);
            |unit| > |Join(apps, '-')| && unit[|Join(apps, '-')|] == '-'
  {
    var parts := apps + numbers;
    var more := numbers[..|numbers| - 1];
    assert parts[..|parts| - 1] == apps + more;
    JoinConcat(apps, more, '-');
  }

  /** The pod of a unit gives the unit back, dashes in the application name or not, exactly if its number has none. */
  lemma PodGivesUnitExactly(app: string, number: string)
    requires Free(app, '/') && Free(number, '/')
    ensures UnitOfPod(PodName(app + "/" + number)) == app + "/" + number <==> Free(number, '-')
  {
    PodParts(app, number);
    SplitsExactlyAtSeparators(number, '-');
    if Free(number, '-') {
      SplitFree(number, '-');
      UnitOfPlainParts(Split(app, '-'), number);
    } else {
      UnitOfDashedParts(Split(app, '-'), Split(number, '-'));
      assert (app + "/" + number)[|app|] == '/';
    }
  }

  /** Units of an application are numbered by the last part of their name, and the pod keeps it. */
  lemma PodKeepsNumber(app: string, n: nat)
    requires Free(app, '/')
    ensures UnitNumber(app + "/" + Decimal(n)) == Some(n)
    ensures UnitOfPod(PodName(app + "/" + Decimal(n))) == app + "/" + Decimal(n)
  {
    DecimalParses(n);
    DecimalIsFree(n, '/');
    DecimalIsFree(n, '-');
    PodGivesUnitExactly(app, Decimal(n));
    SplitFirst(app, Decimal(n), '/');
    SplitFree(Decimal(n), '/');
  }
}
