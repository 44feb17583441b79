/** Charms that configure and remove their kernel settings on one machine, each with a freshly loaded `Config`. */
module SysctlConfig {
  import opened Wrappers
  import opened Text
  import opened Sysctl

  /** The files of the charms, by charm name, and the merged file. */
  datatype Directory = Directory(files: Files, merged: Option<string>)

  function Loaded(d: Directory): Settings {
    if d.merged.Some? then Meaning(d.merged.value) else map[]
  }

  predicate Consistent(d: Directory) {
    AllTerminated(d.files) && Agree(Says(d.files)) && IsUnion(Loaded(d), Says(d.files))
  }

  function Others(d: Directory, name: string): Files {
    d.files - {name}
  }

  /** A charm that configures again first takes its own file out of the merged one. */
  function Refreshed(d: Directory, name: string, before: seq<string>): Directory
    requires Enumerates(before, Others(d, name))
  {
    if name in d.files then d.(merged := Some(Merged(before, Others(d, name)))) else d
  }

  function Conflicts(settings: Settings, desired: Settings): set<string> {
    set k | k in settings && k in desired && settings[k] != desired[k]
  }

  predicate Accepted(d: Directory, name: string, entries: seq<Entry>, before: seq<string>)
    requires Enumerates(before, Others(d, name))
  {
    Conflicts(Loaded(Refreshed(d, name, before)), AsMap(entries)) == {}
  }

  function Written(d: Directory, name: string, entries: seq<Entry>): Files {
    d.files[name := Print(name, entries)]
  }

  function Configured(
      d: Directory, name: string, entries: seq<Entry>, applies: bool, before: seq<string>, after: seq<string>)
    : Directory
    requires Enumerates(before, Others(d, name)) && Enumerates(after, Written(d, name, entries))
  {
    if Accepted(d, name, entries, before) && applies
    then Directory(Written(d, name, entries), Some(Merged(after, Written(d, name, entries))))
    else Refreshed(d, name, before)
  }

  function Removed(d: Directory, name: string, after: seq<string>): Directory
    requires Enumerates(after, Others(d, name))
  {
    Directory(Others(d, name), Some(Merged(after, Others(d, name))))
  }

  lemma OthersAgree(d: Directory, name: string)
    requires AllTerminated(d.files) && Agree(Says(d.files))
    ensures AllTerminated(Others(d, name)) && Agree(Says(Others(d, name)))
    ensures Says(Others(d, name)) == Says(d.files) - {name}
  {
    assert Says(Others(d, name)) == Says(d.files) - {name};
  }

  /** Whoever removes a file leaves the rest consistent. */
  lemma RemoveKeepsConsistent(d: Directory, name: string, after: seq<string>)
    requires Consistent(d) && Enumerates(after, Others(d, name))
    ensures Consistent(Removed(d, name, after))
  {
    OthersAgree(d, name);
    MergedIsUnion(after, Others(d, name));
  }

  /** What the wishes are checked against: the union of the other charms' files. */
  lemma CheckedAgainstOthers(d: Directory, name: string, before: seq<string>)
    requires Consistent(d) && Enumerates(before, Others(d, name))
    ensures IsUnion(Loaded(Refreshed(d, name, before)), Says(d.files) - {name})
  {
    OthersAgree(d, name);
    if name in d.files {
      MergedIsUnion(before, Others(d, name));
    } else {
      assert Says(d.files) - {name} == Says(d.files);
    }
  }

  predicate Contradicts(settings: Settings, desired: Settings, k: string) {
    k in settings && k in desired && settings[k] != desired[k]
  }

  ghost predicate SomeoneContradicts(says: Sayings, name: string, desired: Settings) {
    exists a, k :: a in says && a != name && Contradicts(says[a], desired, k)
  }

  /** The union of all files but one conflicts with some wishes exactly when one of those files does. */
  lemma UnionConflictsLikeFiles(settings: Settings, says: Sayings, name: string, desired: Settings)
    requires IsUnion(settings, says - {name})
    ensures Conflicts(settings, desired) != {} <==> SomeoneContradicts(says, name, desired)
  {
    var others := says - {name};
    if Conflicts(settings, desired) != {} {
      var k :| k in Conflicts(settings, desired);
      assert SaidIn(others, k);
      var a :| a in others && k in others[a];
      assert a in says && a != name && Contradicts(says[a], desired, k);
    }
    if SomeoneContradicts(says, name, desired) {
      var a, k :| a in says && a != name && Contradicts(says[a], desired, k);
      assert a in others && others[a] == says[a];
      assert k in Conflicts(settings, desired);
    }
  }

  /** Wishes are rejected exactly when another charm's file sets one of the keys to something else. */
  lemma RejectedExactlyOnConflict(d: Directory, name: string, entries: seq<Entry>, before: seq<string>)
    requires Consistent(d) && Enumerates(before, Others(d, name))
    ensures !Accepted(d, name, entries, before) <==> SomeoneContradicts(Says(d.files), name, AsMap(entries))
  {
    CheckedAgainstOthers(d, name, before);
    UnionConflictsLikeFiles(Loaded(Refreshed(d, name, before)), Says(d.files), name, AsMap(entries));
  }

  lemma AgreeWithNew(says: Sayings, name: string, desired: Settings)
    requires Agree(says)
    requires !SomeoneContradicts(says, name, desired)
    ensures Agree(says[name := desired])
  {
    var after := says[name := desired];
    forall a, b, k | a in after && b in after && k in after[a] && k in after[b]
      ensures after[a][k] == after[b][k]
    {
      assert a != name && b == name ==> !Contradicts(says[a], desired, k);
      assert b != name && a == name ==> !Contradicts(says[b], desired, k);
    }
  }

  lemma WrittenSays(d: Directory, name: string, entries: seq<Entry>)
    requires AllTerminated(d.files) && AllPrintable(entries) && OneLine(name)
    ensures AllTerminated(Written(d, name, entries))
    ensures Says(Written(d, name, entries)) == Says(d.files)[name := AsMap(entries)]
  {
    PrintThenParse(name, entries);
  }

  lemma AcceptedAgree(d: Directory, name: string, entries: seq<Entry>, before: seq<string>)
    requires Consistent(d) && Enumerates(before, Others(d, name)) && AllPrintable(entries) && OneLine(name)
    requires Accepted(d, name, entries, before)
    ensures AllTerminated(Written(d, name, entries)) && Agree(Says(Written(d, name, entries)))
  {
    WrittenSays(d, name, entries);
    RejectedExactlyOnConflict(d, name, entries, before);
    AgreeWithNew(Says(d.files), name, AsMap(entries));
  }

  /** A configuration that goes through, or that fails before the charm has a file, leaves the directory consistent. */
  lemma ConfigureKeepsConsistent(
      d: Directory, name: string, entries: seq<Entry>, applies: bool, before: seq<string>, after: seq<string>)
    requires Consistent(d) && AllPrintable(entries) && OneLine(name)
    requires Enumerates(before, Others(d, name)) && Enumerates(after, Written(d, name, entries))
    requires name in d.files ==> Accepted(d, name, entries, before) && applies
    ensures Consistent(Configured(d, name, entries, applies, before, after))
  {
    if Accepted(d, name, entries, before) && applies {
      AcceptedAgree(d, name, entries, before);
      MergedIsUnion(after, Written(d, name, entries));
    }
  }

  lemma OtherSaysTheSame(settings: Settings, says: Sayings, name: string, k: string)
    requires Agree(says) && name in says && IsUnion(settings, says - {name})
    requires k in says[name] && SaidIn(says - {name}, k)
    ensures k in settings && settings[k] == says[name][k]
  {
    var b :| b in says - {name} && k in (says - {name})[b];
    assert says[b] == (says - {name})[b];
  }

  /** If the rest say all its keys, the union of the rest is the union of all. */
  lemma CoveredUnion(settings: Settings, says: Sayings, name: string)
    requires Agree(says) && name in says && IsUnion(settings, says - {name})
    requires forall k :: k in says[name] ==> SaidIn(says - {name}, k)
    ensures IsUnion(settings, says)
  {
    forall a, k | a in says && k in says[a] ensures k in settings && settings[k] == says[a][k] {
      if a == name {
        OtherSaysTheSame(settings, says, name, k);
      } else {
        assert a in says - {name} && (says - {name})[a] == says[a];
      }
    }
    forall k | k in settings ensures SaidIn(says, k) {
      assert SaidIn(says - {name}, k);
      var b :| b in says - {name} && k in (says - {name})[b];
      assert b in says && says[b] == (says - {name})[b];
    }
  }

  lemma UnionWithoutOne(settings: Settings, says: Sayings, name: string)
    requires Agree(says) && name in says && IsUnion(settings, says - {name})
    ensures IsUnion(settings, says) <==> forall k :: k in says[name] ==> SaidIn(says - {name}, k)
  {
    if IsUnion(settings, says) {
      forall k | k in says[name] ensures SaidIn(says - {name}, k) {
        assert k in settings;
      }
    } else if forall k :: k in says[name] ==> SaidIn(says - {name}, k) {
      CoveredUnion(settings, says, name);
    }
  }

  /** A second configuration that fails is harmless exactly if the other files say every key of the charm's own. */
  lemma FailedReconfigureHarmlessExactlyIfCovered(d: Directory, name: string, before: seq<string>)
    requires Consistent(d) && name in d.files && Enumerates(before, Others(d, name))
    ensures Consistent(Refreshed(d, name, before)) <==>
            forall k :: k in Says(d.files)[name] ==> SaidIn(Says(d.files) - {name}, k)
  {
    CheckedAgainstOthers(d, name, before);
    UnionWithoutOne(Loaded(Refreshed(d, name, before)), Says(d.files), name);
  }

  /** And otherwise a newcomer can set such a key to something else: it is accepted, and the files disagree. */
  lemma UncoveredKeyLetsConflictIn(
      d: Directory, name: string, before: seq<string>, k: string, newcomer: string, value: string, rest: seq<string>)
    requires Consistent(d) && name in d.files && Enumerates(before, Others(d, name))
    requires k in Says(d.files)[name] && !SaidIn(Says(d.files) - {name}, k)
    requires newcomer !in d.files && OneLine(newcomer)
    requires Printable(Entry(k, value)) && value != Says(d.files)[name][k]
    requires Enumerates(rest, Others(Refreshed(d, name, before), newcomer))
    ensures Accepted(Refreshed(d, name, before), newcomer, [Entry(k, value)], rest)
    ensures !Agree(Says(Written(Refreshed(d, name, before), newcomer, [Entry(k, value)])))
  {
    CheckedAgainstOthers(d, name, before);
    var refreshed := Refreshed(d, name, before);
    assert k !in Loaded(refreshed);
    OneEntry(Entry(k, value));
    WrittenSays(refreshed, newcomer, [Entry(k, value)]);
    var says := Says(d.files)[newcomer := map[k := value]];
    assert name in says && newcomer in says && k in says[name] && k in says[newcomer];
  }

  lemma OneEntry(e: Entry)
    ensures AsMap([e]) == map[e.key := e.value]
  {
    assert [e][1..] == [];
  }

  // ---- What a configuration achieves ---------------------------------------------------------------

  /** No charm but `name` has another file than before. */
  ghost predicate OthersKept(before: Files, after: Files, name: string) {
    forall a :: a != name ==> (a in after <==> a in before) && (a in before ==> after[a] == before[a])
  }

  /** A configuration that goes through: the charm's file says it, every other is as it was, and all of it is loaded. */
  lemma SuccessTakesEffect(
      d: Directory, name: string, entries: seq<Entry>, before: seq<string>, after: seq<string>)
    requires Consistent(d) && AllPrintable(entries) && OneLine(name)
    requires Enumerates(before, Others(d, name)) && Enumerates(after, Written(d, name, entries))
    requires !SomeoneContradicts(Says(d.files), name, AsMap(entries))
    ensures var t := Configured(d, name, entries, true, before, after);
            && name in t.files && Says(t.files)[name] == AsMap(entries) && OthersKept(d.files, t.files, name)
            && t.merged.Some? && forall k :: k in AsMap(entries) ==> k in Loaded(t) && Loaded(t)[k] == AsMap(entries)[k]
  {
    RejectedExactlyOnConflict(d, name, entries, before);
    ConfigureKeepsConsistent(d, name, entries, true, before, after);
    WrittenSays(d, name, entries);
    var t := Configured(d, name, entries, true, before, after);
    assert t.files == Written(d, name, entries);
    assert Says(t.files)[name] == AsMap(entries);
  }

  /** A configuration that is refused, by another charm's file or by `sysctl`, changes no charm's file. */
  lemma RefusalKeepsFiles(
      d: Directory, name: string, entries: seq<Entry>, applies: bool, before: seq<string>, after: seq<string>)
    requires Consistent(d)
    requires Enumerates(before, Others(d, name)) && Enumerates(after, Written(d, name, entries))
    requires SomeoneContradicts(Says(d.files), name, AsMap(entries)) || !applies
    ensures Configured(d, name, entries, applies, before, after).files == d.files
  {
    RejectedExactlyOnConflict(d, name, entries, before);
  }

  /** A removed charm has no file, and every other is as it was. */
  lemma RemovalTakesEffect(d: Directory, name: string, after: seq<string>)
    requires Enumerates(after, Others(d, name))
    ensures name !in Removed(d, name, after).files && OthersKept(d.files, Removed(d, name, after).files, name)
    ensures Removed(d, name, after).merged.Some?
  {
  }

  // ---- Runs ---------------------------------------------------------------------------------------------

  datatype Step =
    | Configure(name: string, entries: seq<Entry>, applies: bool, before: seq<string>, after: seq<string>)
    | Remove(name: string, after: seq<string>)

  predicate Possible(d: Directory, step: Step) {
    match step
    case Configure(name, entries, _, before, after) =>
      && AllPrintable(entries) && OneLine(name)
      && Enumerates(before, Others(d, name)) && Enumerates(after, Written(d, name, entries))
    case Remove(name, after) => Enumerates(after, Others(d, name))
  }

  function Apply(d: Directory, step: Step): Directory
    requires Possible(d, step)
  {
    match step
    case Configure(name, entries, applies, before, after) => Configured(d, name, entries, applies, before, after)
    case Remove(name, after) => Removed(d, name, after)
  }

  predicate FailedReconfigure(d: Directory, step: Step)
    requires Possible(d, step)
  {
    step.Configure? && step.name in d.files && !(Accepted(d, step.name, step.entries, step.before) && step.applies)
  }

  /** A run in which no charm that already has a file fails to configure again. */
  predicate IsRun(d: Directory, steps: seq<Step>)
    decreases |steps|
  {
    steps == [] ||
    (Possible(d, steps[0]) && !FailedReconfigure(d, steps[0]) && IsRun(Apply(d, steps[0]), steps[1..]))
  }

  function After(d: Directory, steps: seq<Step>): Directory
    requires IsRun(d, steps)
    decreases |steps|
  {
    if steps == [] then d else After(Apply(d, steps[0]), steps[1..])
  }

  lemma StepKeepsConsistent(d: Directory, step: Step)
    requires Consistent(d) && Possible(d, step) && !FailedReconfigure(d, step)
    ensures Consistent(Apply(d, step))
  {
    match step
    case Configure(name, entries, applies, before, after) =>
      ConfigureKeepsConsistent(d, name, entries, applies, before, after);
    case Remove(name, after) => RemoveKeepsConsistent(d, name, after);
  }

  lemma {:induction false} RunKeepsConsistent(d: Directory, steps: seq<Step>)
    requires Consistent(d) && IsRun(d, steps)
    ensures Consistent(After(d, steps))
    decreases |steps|
  {
    if steps != [] {
      StepKeepsConsistent(d, steps[0]);
      RunKeepsConsistent(Apply(d, steps[0]), steps[1..]);
    }
  }

  /** What a charm's file says, if it has one. */
  function SayingOf(d: Directory, name: string): Option<Settings> {
    if name in d.files then Some(Meaning(d.files[name])) else None
  }

  /** No other charm contradicts the wishes, and `sysctl` takes them. */
  ghost predicate GoesThrough(d: Directory, step: Step) {
    step.Configure? && step.applies && !SomeoneContradicts(Says(d.files), step.name, AsMap(step.entries))
  }

  /** What the charm configured last with success and did not remove since. */
  ghost function LastConfigured(d: Directory, steps: seq<Step>, name: string, said: Option<Settings>): Option<Settings>
    requires IsRun(d, steps)
    decreases |steps|
  {
    if steps == [] then said
    else
      var step := steps[0];
      var now := if step.name != name then said
                 else if step.Remove? then None
                 else if GoesThrough(d, step) then Some(AsMap(step.entries)) else said;
      LastConfigured(Apply(d, step), steps[1..], name, now)
  }

  lemma StepSays(d: Directory, step: Step, name: string)
    requires Consistent(d) && Possible(d, step)
    ensures SayingOf(Apply(d, step), name)
            == if step.name != name then SayingOf(d, name)
               else if step.Remove? then None
               else if GoesThrough(d, step) then Some(AsMap(step.entries)) else SayingOf(d, name)
  {
    match step
    case Configure(who, entries, applies, before, after) =>
      if GoesThrough(d, step) {
        SuccessTakesEffect(d, who, entries, before, after);
      } else {
        RefusalKeepsFiles(d, who, entries, applies, before, after);
      }
    case Remove(who, after) => RemovalTakesEffect(d, who, after);
  }

  /** Over runs: each charm's file says its last successful configuration, and is absent after a removal. */
  lemma {:induction false} FilesSayLastConfigured(d: Directory, steps: seq<Step>, name: string)
    requires Consistent(d) && IsRun(d, steps)
    ensures SayingOf(After(d, steps), name) == LastConfigured(d, steps, name, SayingOf(d, name))
    decreases |steps|
  {
    if steps != [] {
      StepSays(d, steps[0], name);
      StepKeepsConsistent(d, steps[0]);
      FilesSayLastConfigured(Apply(d, steps[0]), steps[1..], name);
    }
  }

  const EMPTY := Directory(map[], None)

  /**
   The main result: on a machine that starts without files, whatever order the files are read in, the merged
   file is their union.
   */
  lemma MergedFileIsUnionOfCharms(steps: seq<Step>, order: seq<string>)
    requires IsRun(EMPTY, steps) && Enumerates(order, After(EMPTY, steps).files)
    ensures Agree(Says(After(EMPTY, steps).files))
    ensures IsUnion(Loaded(After(EMPTY, steps)), Says(After(EMPTY, steps).files))
    ensures Meaning(Merged(order, After(EMPTY, steps).files)) == Loaded(After(EMPTY, steps))
  {
    assert Consistent(EMPTY);
    RunKeepsConsistent(EMPTY, steps);
    var d := After(EMPTY, steps);
    MergedIsUnion(order, d.files);
    UnionIsUnique(Meaning(Merged(order, d.files)), Loaded(d), Says(d.files));
  }

  // ---- The library as a charm runs it -----------------------------------------------------------------------

  datatype Error = CommandError | ApplyError | ValidationError(keys: set<string>)

  class Machine {
    var files: Files
    var merged: Option<string>

    constructor ()
      ensures State() == EMPTY
    {
      files, merged := map[], None;
    }

    function State(): Directory
      reads this
    {
      Directory(files, merged)
    }
  }

  class Config {
    const name: string
    const machine: Machine
    var data: Settings
    var desired: seq<Entry>

    constructor (machine: Machine, name: string)
      ensures this.machine == machine && this.name == name && data == Loaded(machine.State())
    {
      this.machine, this.name := machine, name;
      this.desired := [];
      new;
      data := LoadData();
    }

    method LoadData() returns (settings: Settings)
      ensures settings == Loaded(machine.State())
    {
      settings := map[];
      if machine.merged == None {
        return;
      }
      var lines := Split(machine.merged.value, '\n');
      var i := 0;
      while i < |lines|
        invariant 0 <= i <= |lines|
        invariant LoadLines(settings, lines[i..]) == LoadLines(map[], lines)
      {
        var line := lines[i];
        assert lines[i..][1..] == lines[i + 1..];
        i := i + 1;
        if (line != "" && (line[0] == '#' || line[0] == ';')) || Blank(line) || '=' !in line {
          continue;
        }
        var parts := Cut(line);
        settings := settings[Strip(parts.0) := Strip(parts.1)];
      }
    }

    /** The keys of the wishes that the loaded settings hold with another value. */
    method Validate() returns (conflicts: set<string>)
      ensures conflicts == Conflicts(data, AsMap(desired))
    {
      var wanted := AsMap(desired);
      var keys := data.Keys * wanted.Keys;
      conflicts := {};
      while keys != {}
        invariant keys <= data.Keys * wanted.Keys
        invariant conflicts == Conflicts(data, wanted) - keys
      {
        var key :| key in keys;
        if data[key] != wanted[key] {
          conflicts := conflicts + {key};
        }
        keys := keys - {key};
      }
    }

    method CreateCharmFile()
      modifies machine
      ensures machine.State() == old(machine.State()).(files := Written(old(machine.State()), name, desired))
    {
      var text := "# " + name + "\n";
      var i := 0;
      while i < |desired|
        invariant 0 <= i <= |desired|
        invariant text + Body(desired[i..]) == Print(name, desired)
      {
        assert desired[i..][1..] == desired[i + 1..];
        text := text + desired[i].key + "=" + desired[i].value + "\n";
        i := i + 1;
      }
      assert desired[i..] == [] && text + "" == text;
      machine.files := machine.files[name := text];
    }

    /** Rewrites the merged file from the charm files, in some order, and loads it. */
    method Merge(addOwnCharm: bool) returns (ghost order: seq<string>)
      modifies this, machine
      ensures Enumerates(order, if addOwnCharm then machine.files else Others(machine.State(), name))
      ensures machine.files == old(machine.files) && desired == old(desired)
      ensures var files := if addOwnCharm then machine.files else Others(machine.State(), name);
              machine.merged == Some(Merged(order, files))
      ensures data == Loaded(machine.State())
    {
      var files := if addOwnCharm then machine.files else machine.files - {name};
      var paths := files.Keys;
      var text := AllLines(HEADER_LINES);
      order := [];
      while paths != {}
        invariant paths <= files.Keys
        invariant forall i :: 0 <= i < |order| ==> order[i] in files
        invariant forall a :: a in files ==> a in order || a in paths
        invariant text == Merged(order, files)
      {
        var path :| path in paths;
        assert (order + [path])[..|order|] == order;
        text := text + files[path];
        order := order + [path];
        paths := paths - {path};
      }
      machine.merged := Some(text);
      data := LoadData();
    }

    /** `refusal` is what the `sysctl` command raises, if it does. */
    method Configure(entries: seq<Entry>, refusal: Option<Error>)
      returns (r: Result<(), Error>, ghost before: seq<string>, ghost after: seq<string>)
      requires data == Loaded(machine.State())
      modifies this, machine
      ensures Enumerates(before, Others(old(machine.State()), name))
      ensures Enumerates(after, Written(old(machine.State()), name, entries))
      ensures machine.State() == Configured(old(machine.State()), name, entries, refusal == None, before, after)
      ensures r.Ok? <==> Accepted(old(machine.State()), name, entries, before) && refusal == None
      ensures machine.files == if r.Ok? then old(machine.files)[name := Print(name, entries)] else old(machine.files)
      ensures !Accepted(old(machine.State()), name, entries, before) ==>
                var loaded := Loaded(Refreshed(old(machine.State()), name, before));
                r == Err(ValidationError(Conflicts(loaded, AsMap(entries))))
      ensures data == Loaded(machine.State())
    {
      ghost var start := machine.State();
      after := SomeOrder(Written(start, name, entries).Keys);
      before := SomeOrder(Others(start, name).Keys);
      desired := entries;
      if name in machine.files {
        before := Merge(false);
      }
      assert machine.State() == Refreshed(start, name, before);
      var conflicts := Validate();
      if conflicts != {} {
        return Err(ValidationError(conflicts)), before, after;
      }
      if refusal.Some? {
        return Err(refusal.value), before, after;
      }
      CreateCharmFile();
      after := Merge(true);
      return Ok(()), before, after;
    }

    method Remove() returns (ghost after: seq<string>)
      modifies this, machine
      ensures Enumerates(after, Others(old(machine.State()), name))
      ensures machine.State() == Removed(old(machine.State()), name, after)
      ensures machine.files == old(machine.files) - {name}
      ensures data == Loaded(machine.State())
    {
      machine.files := machine.files - {name};
      after := Merge(true);
    }
  }
}
