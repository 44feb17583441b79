/**
 Kernel settings shared by several charms on one machine: each charm has a file of its own, and one
 merged file holds them all. A charm checks its wishes against the merged file before it applies them.
 */
module Sysctl {
  import opened Text

  datatype Entry = Entry(key: string, value: string)

  type Settings = map<string, string>

  /** The comment that heads the merged file. */
  const HEADER_LINES := [
    "# This config file was " + "produced by sysctl lib v0.4",
    "#",
    "# This file represents " + "the output of the sysctl lib, " + "which can combine multiple",
    "# configurations into a " + "single file like."]

  // ---- Reading a file ------------------------------------------------------------------------------

  /** `line.partition("=")`: what stands before and after the first `=`. */
  function Cut(line: string): (string, string)
    requires '=' in line
  {
    if line[0] == '=' then ("", line[1..])
    else var rest := Cut(line[1..]); ([line[0]] + rest.0, rest.1)
  }

  predicate Skipped(line: string) {
    (line != "" && (line[0] == '#' || line[0] == ';')) || Blank(line) || '=' !in line
  }

  function LoadLine(settings: Settings, line: string): Settings {
    if Skipped(line) then settings else settings[Strip(Cut(line).0) := Strip(Cut(line).1)]
  }

  function LoadLines(settings: Settings, lines: seq<string>): Settings
    decreases |lines|
  {
    if lines == [] then settings else LoadLines(LoadLine(settings, lines[0]), lines[1..])
  }

  /** What a file says: later lines override earlier ones. */
  function Meaning(text: string): Settings {
    LoadLines(map[], Split(text, '\n'))
  }

  lemma {:induction false} LoadConcat(settings: Settings, a: seq<string>, b: seq<string>)
    ensures LoadLines(settings, a + b) == LoadLines(LoadLines(settings, a), b)
    decreases |a|
  {
    if a == [] {
      assert a + b == b;
    } else {
      assert (a + b)[0] == a[0] && (a + b)[1..] == a[1..] + b;
      LoadConcat(LoadLine(settings, a[0]), a[1..], b);
    }
  }

  lemma {:induction false} LoadOverrides(settings: Settings, lines: seq<string>)
    ensures LoadLines(settings, lines) == settings + LoadLines(map[], lines)
    decreases |lines|
  {
    if lines != [] {
      LoadOverrides(LoadLine(settings, lines[0]), lines[1..]);
      LoadOverrides(LoadLine(map[], lines[0]), lines[1..]);
      assert LoadLine(settings, lines[0]) == settings + LoadLine(map[], lines[0]);
    }
  }

  predicate Terminated(text: string) {
    text != "" && text[|text| - 1] == '\n'
  }

  lemma MeaningOfLine(line: string)
    requires Free(line, '\n')
    ensures Meaning(line + "\n") == LoadLine(map[], line)
  {
    SplitFirst(line, "", '\n');
    assert line + "\n" + "" == line + "\n";
    var lines := Split(line + "\n", '\n');
    assert lines == [line] + [""] && lines[1..] == [""] && [""][1..] == [];
    assert LoadLines(LoadLine(map[], line), [""]) == LoadLine(map[], line);
  }

  /** Comments of both kinds, blank lines and lines without `=` say nothing. */
  lemma IgnoredLineSaysNothing(line: string)
    requires Free(line, '\n')
    requires (line != "" && line[0] in "#;") || (forall i :: 0 <= i < |line| ==> Space(line[i])) || '=' !in line
    ensures Meaning(line + "\n") == map[]
  {
    MeaningOfLine(line);
    assert line != "" && line[0] in "#;" ==> line[0] == '#' || line[0] == ';';
  }

  /** Any other line sets what stands before its first `=`, stripped, to what stands after it, stripped. */
  lemma OtherLineSets(key: string, value: string)
    requires Free(key, '=') && Free(key + "=" + value, '\n')
    requires key != "" ==> key[0] != '#' && key[0] != ';'
    ensures Meaning(key + "=" + value + "\n") == map[Strip(key) := Strip(value)]
  {
    var line := key + "=" + value;
    MeaningOfLine(line);
    CutAtFirst(key, value);
    assert line[|key|] == '=' && (key != "" ==> line[0] == key[0]);
  }

  /** The second of two files overrides the first. */
  lemma MeaningConcat(a: string, b: string)
    requires Terminated(a)
    ensures Meaning(a + b) == Meaning(a) + Meaning(b)
  {
    var body := a[..|a| - 1];
    assert a == body + ['\n'] + "" && a + b == body + ['\n'] + b;
    SplitConcat(body, b, '\n');
    SplitConcat(body, "", '\n');
    LoadConcat(map[], Split(body, '\n'), Split(b, '\n'));
    LoadConcat(map[], Split(body, '\n'), [""]);
    assert [""][1..] == [];
    LoadOverrides(LoadLines(map[], Split(body, '\n')), Split(b, '\n'));
  }

  // ---- Writing a charm's file ----------------------------------------------------------------------

  predicate OneLine(s: string) {
    Free(s, '\n') && Free(s, '\r')
  }

  /** A key and value that survive printing and parsing. */
  predicate Printable(e: Entry) {
    && OneLine(e.key) && OneLine(e.value) && Strip(e.key) == e.key && Strip(e.value) == e.value
    && Free(e.key, '=') && (e.key != "" ==> e.key[0] != '#' && e.key[0] != ';')
  }

  predicate AllPrintable(entries: seq<Entry>) {
    forall i :: 0 <= i < |entries| ==> Printable(entries[i])
  }

  /** The dictionary that a list of entries, without repeated keys, lists in order. */
  function AsMap(entries: seq<Entry>): Settings {
    if entries == [] then map[] else map[entries[0].key := entries[0].value] + AsMap(entries[1..])
  }

  function Line(e: Entry): string {
    e.key + "=" + e.value
  }

  function Body(entries: seq<Entry>): string {
    if entries == [] then "" else Line(entries[0]) + "\n" + Body(entries[1..])
  }

  function Print(name: string, entries: seq<Entry>): string {
    "# " + name + "\n" + Body(entries)
  }

  lemma {:induction false} CutAtFirst(key: string, value: string)
    requires Free(key, '=')
    ensures Cut(key + "=" + value) == (key, value)
  {
    var line := key + "=" + value;
    if key == "" {
      assert line[1..] == value;
    } else {
      assert line[0] == key[0] && line[1..] == key[1..] + "=" + value;
      CutAtFirst(key[1..], value);
      assert [key[0]] + key[1..] == key;
    }
  }

  lemma LineSays(e: Entry)
    requires Printable(e)
    ensures Free(Line(e), '\n') && LoadLine(map[], Line(e)) == map[e.key := e.value]
  {
    CutAtFirst(e.key, e.value);
    assert Line(e)[|e.key|] == '=';
    assert e.key != "" ==> Line(e)[0] == e.key[0];
  }

  lemma {:induction false} BodySays(entries: seq<Entry>)
    requires AllPrintable(entries)
    ensures Meaning(Body(entries)) == AsMap(entries)
    ensures entries != [] ==> Terminated(Body(entries))
  {
    if entries == [] {
      assert Split("", '\n') == [""] && [""][1..] == [];
    } else {
      LineSays(entries[0]);
      MeaningOfLine(Line(entries[0]));
      BodySays(entries[1..]);
      assert Body(entries) == (Line(entries[0]) + "\n") + Body(entries[1..]);
      MeaningConcat(Line(entries[0]) + "\n", Body(entries[1..]));
    }
  }

  /** Parsing what was printed gives the configuration back. */
  lemma PrintThenParse(name: string, entries: seq<Entry>)
    requires AllPrintable(entries) && OneLine(name)
    ensures Terminated(Print(name, entries)) && Meaning(Print(name, entries)) == AsMap(entries)
  {
    BodySays(entries);
    MeaningOfLine("# " + name);
    assert Print(name, entries) == ("# " + name + "\n") + Body(entries);
    MeaningConcat("# " + name + "\n", Body(entries));
  }

  // ---- The merged file -------------------------------------------------------------------------------

  type Files = map<string, string>

  predicate AllTerminated(files: Files) {
    forall a :: a in files ==> Terminated(files[a])
  }

  /** What each charm's file says. */
  type Sayings = map<string, Settings>

  function Says(files: Files): Sayings {
    map a | a in files :: Meaning(files[a])
  }

  /** Two charms that set the same key set it to the same value. */
  predicate Agree(says: Sayings) {
    forall a, b, k :: a in says && b in says && k in says[a] && k in says[b] ==> says[a][k] == says[b][k]
  }

  predicate SaidIn(says: Sayings, k: string) {
    exists a :: a in says && k in says[a]
  }

  /** The settings of all the files together, and nothing else. */
  predicate IsUnion(settings: Settings, says: Sayings) {
    && (forall k :: k in settings ==> SaidIn(says, k))
    && (forall a, k :: a in says && k in says[a] ==> k in settings && settings[k] == says[a][k])
  }

  /** An order in which a set of files may be read. */
  predicate Enumerates(order: seq<string>, files: Files) {
    (forall i :: 0 <= i < |order| ==> order[i] in files) && (forall a :: a in files ==> a in order)
  }

  function Concat(order: seq<string>, files: Files): string
    requires forall i :: 0 <= i < |order| ==> order[i] in files
  {
    if order == [] then "" else Concat(order[..|order| - 1], files) + files[order[|order| - 1]]
  }

  function Merged(order: seq<string>, files: Files): string
    requires forall i :: 0 <= i < |order| ==> order[i] in files
  {
    AllLines(HEADER_LINES) + Concat(order, files)
  }

  function AllLines(lines: seq<string>): string {
    if lines == [] then "" else lines[0] + "\n" + AllLines(lines[1..])
  }

  lemma {:induction false} CommentsSayNothing(lines: seq<string>)
    requires lines != []
    requires forall i :: 0 <= i < |lines| ==> lines[i] != "" && lines[i][0] == '#' && Free(lines[i], '\n')
    ensures Terminated(AllLines(lines)) && Meaning(AllLines(lines)) == map[]
  {
    MeaningOfLine(lines[0]);
    if |lines| == 1 {
      assert AllLines(lines) == lines[0] + "\n";
    } else {
      CommentsSayNothing(lines[1..]);
      assert AllLines(lines) == (lines[0] + "\n") + AllLines(lines[1..]);
      MeaningConcat(lines[0] + "\n", AllLines(lines[1..]));
    }
  }

  lemma FirstHeaderLine()
    ensures Free(HEADER_LINES[0], '\n')
  {
    assert Free("# This config file was ", '\n') && Free("produced by sysctl lib v0.4", '\n');
  }

  lemma ThirdHeaderLine()
    ensures Free(HEADER_LINES[2], '\n')
  {
    assert Free("# This file represents ", '\n') && Free("the output of the sysctl lib, ", '\n');
    assert Free("which can combine multiple", '\n');
  }

  lemma LastHeaderLine()
    ensures Free(HEADER_LINES[3], '\n')
  {
    assert Free("# configurations into a ", '\n') && Free("single file like.", '\n');
  }

  lemma HeaderSaysNothing()
    ensures Terminated(AllLines(HEADER_LINES)) && Meaning(AllLines(HEADER_LINES)) == map[]
  {
    FirstHeaderLine();
    ThirdHeaderLine();
    LastHeaderLine();
    CommentsSayNothing(HEADER_LINES);
  }

  // ---- Merging is independent of the order, exactly if the files agree ------------------------------

  /** Read in a given order, a key has the value of the last file that sets it. */
  lemma {:induction false} ConcatSays(order: seq<string>, files: Files)
    requires AllTerminated(files) && forall i :: 0 <= i < |order| ==> order[i] in files
    ensures order != [] ==> Terminated(Concat(order, files))
    ensures order == [] ==> Meaning(Concat(order, files)) == map[]
    ensures order != [] ==>
              Meaning(Concat(order, files))
              == Meaning(Concat(order[..|order| - 1], files)) + Meaning(files[order[|order| - 1]])
  {
    if order == [] {
      assert Split("", '\n') == [""] && [""][1..] == [];
    } else {
      var rest := order[..|order| - 1];
      var last := files[order[|order| - 1]];
      ConcatSays(rest, files);
      if rest == [] {
        assert Concat(order, files) == last;
      } else {
        MeaningConcat(Concat(rest, files), last);
      }
    }
  }

  lemma MergedSays(order: seq<string>, files: Files)
    requires AllTerminated(files) && forall i :: 0 <= i < |order| ==> order[i] in files
    ensures Meaning(Merged(order, files)) == Meaning(Concat(order, files))
  {
    HeaderSaysNothing();
    MeaningConcat(AllLines(HEADER_LINES), Concat(order, files));
  }

  /** Files that agree: of a key, what has been read so far is what any of them says. */
  lemma {:induction false} ConcatOfAgreeing(order: seq<string>, files: Files, k: string)
    requires AllTerminated(files) && Agree(Says(files)) && forall i :: 0 <= i < |order| ==> order[i] in files
    ensures k in Meaning(Concat(order, files)) ==> SaidIn(Says(files), k)
    ensures forall a :: a in order && k in Says(files)[a] ==>
              k in Meaning(Concat(order, files)) && Meaning(Concat(order, files))[k] == Says(files)[a][k]
  {
    ConcatSays(order, files);
    if order != [] {
      var rest, last := order[..|order| - 1], order[|order| - 1];
      ConcatOfAgreeing(rest, files, k);
      assert order == rest + [last];
      if k in Says(files)[last] {
        assert forall a :: a in order && k in Says(files)[a] ==> Says(files)[a][k] == Says(files)[last][k];
      }
    }
  }

  /** Files that agree merge into their union, in whatever order they are read. */
  lemma MergedIsUnion(order: seq<string>, files: Files)
    requires AllTerminated(files) && Agree(Says(files)) && Enumerates(order, files)
    ensures IsUnion(Meaning(Merged(order, files)), Says(files))
  {
    MergedSays(order, files);
    forall k ensures k in Meaning(Concat(order, files)) ==> SaidIn(Says(files), k)
             ensures forall a :: a in order && k in Says(files)[a] ==>
                       k in Meaning(Concat(order, files)) && Meaning(Concat(order, files))[k] == Says(files)[a][k] {
      ConcatOfAgreeing(order, files, k);
    }
  }

  lemma UnionIsUnique(a: Settings, b: Settings, says: Sayings)
    requires IsUnion(a, says) && IsUnion(b, says)
    ensures a == b
  {
  }

  lemma LastFileWins(order: seq<string>, last: string, files: Files, k: string)
    requires AllTerminated(files) && Enumerates(order + [last], files) && last in files && k in Says(files)[last]
    ensures k in Meaning(Merged(order + [last], files))
            && Meaning(Merged(order + [last], files))[k] == Says(files)[last][k]
  {
    MergedSays(order + [last], files);
    ConcatSays(order + [last], files);
  }

  lemma {:induction false} SomeOrder(names: set<string>) returns (order: seq<string>)
    ensures forall a :: a in order <==> a in names
    decreases |names|
  {
    if names == {} {
      order := [];
    } else {
      var a :| a in names;
      var rest := SomeOrder(names - {a});
      order := rest + [a];
    }
  }

  ghost predicate OrderIrrelevant(files: Files) {
    forall o, p :: Enumerates(o, files) && Enumerates(p, files) ==>
          Meaning(Merged(o, files)) == Meaning(Merged(p, files))
  }

  lemma AgreeingMergeAlike(o: seq<string>, p: seq<string>, files: Files)
    requires AllTerminated(files) && Agree(Says(files)) && Enumerates(o, files) && Enumerates(p, files)
    ensures Meaning(Merged(o, files)) == Meaning(Merged(p, files))
  {
    MergedIsUnion(o, files);
    MergedIsUnion(p, files);
    UnionIsUnique(Meaning(Merged(o, files)), Meaning(Merged(p, files)), Says(files));
  }

  lemma DisagreeingMergeDiffers(a: string, b: string, k: string, files: Files)
    requires AllTerminated(files) && a in files && b in files
    requires k in Says(files)[a] && k in Says(files)[b] && Says(files)[a][k] != Says(files)[b][k]
    ensures !OrderIrrelevant(files)
  {
    var order := SomeOrder(files.Keys);
    LastFileWins(order, a, files, k);
    LastFileWins(order, b, files, k);
    assert Enumerates(order + [a], files) && Enumerates(order + [b], files);
  }

  /** The merged file says the same whatever the order of reading, exactly when the charm files agree. */
  lemma OrderIrrelevantExactlyIfAgreeing(files: Files)
    requires AllTerminated(files)
    ensures OrderIrrelevant(files) <==> Agree(Says(files))
  {
    if Agree(Says(files)) {
      forall o, p | Enumerates(o, files) && Enumerates(p, files)
        ensures Meaning(Merged(o, files)) == Meaning(Merged(p, files))
      {
        AgreeingMergeAlike(o, p, files);
      }
    } else {
      var a, b, k :| a in files && b in files && k in Says(files)[a] && k in Says(files)[b]
                     && Says(files)[a][k] != Says(files)[b][k];
      DisagreeingMergeDiffers(a, b, k, files);
    }
  }
}
