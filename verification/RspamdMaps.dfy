/**
 The two rspamd map files (modoboa/rspamd/jobs.py): one line per domain, the domain and its
 DKIM selector in one file, the domain and the path of its private key in the other.
 */
module RspamdMaps {
  import opened Text
  import opened Strings

  datatype Domain = Domain(name: string, enableDkim: bool, selector: string, keyPath: string)

  type Table = map<string, string>

  // ---------------------------------------------------------------- reading

  /** Reading in text mode: "\r\n" and "\r" end a line like "\n". */
  function Universal(text: string): string {
    if text == "" then ""
    else if text[0] == '\r' then
      "\n" + Universal(if |text| > 1 && text[1] == '\n' then text[2..] else text[1..])
    else [text[0]] + Universal(text[1..])
  }

  predicate NotNewline(c: char) {
    c != '\n'
  }

  /** Reads the lines of `text` into `table`. None: a line that has not exactly two words
      (`ValueError` when the words are assigned). */
  function ReadLines(text: string, table: Table): Option<Table>
    decreases |text|
  {
    if text == "" then Some(table)
    else
      var n := PrefixLength(NotNewline, text);
      var words := Split(text[..n]);
      if |words| != 2 then None
      else ReadLines(if n < |text| then text[n + 1..] else "", table[words[0] := words[1]])
  }

  /** The table in a file; a missing file is an empty table. */
  function Load(files: map<string, string>, path: string): Option<Table> {
    if path in files then ReadLines(Universal(files[path]), map[]) else Some(map[])
  }

  // ---------------------------------------------------------------- writing

  function Line(name: string, value: string): string {
    name + (" " + (value + "\n"))
  }

  function Written(order: seq<string>, table: Table): string
    requires forall i :: 0 <= i < |order| ==> order[i] in table
  {
    if order == [] then "" else Line(order[0], table[order[0]]) + Written(order[1..], table)
  }

  predicate Lists(order: seq<string>, table: Table) {
    && (forall i :: 0 <= i < |order| ==> order[i] in table)
    && (forall name :: name in table ==> name in order)
  }

  /** `text` is what writing `table` produces, its entries taken in some order. */
  ghost predicate Writes(text: string, table: Table) {
    exists order {:trigger Lists(order, table)} :: Lists(order, table) && text == Written(order, table)
  }

  predicate IsWord(s: string) {
    s != "" && NoSpace(s)
  }

  predicate AllWords(table: Table) {
    forall name :: name in table ==> IsWord(name) && IsWord(table[name])
  }

  method WriteTable(table: Table) returns (text: string)
    ensures Writes(text, table)
  {
    text := "";
    ghost var order: seq<string> := [];
    var todo := table.Keys;
    while todo != {}
      invariant todo <= table.Keys
      invariant forall i :: 0 <= i < |order| ==> order[i] in table
      invariant forall name :: name in table ==> name in order || name in todo
      invariant text == Written(order, table)
      decreases |todo|
    {
      var name :| name in todo;
      WrittenOneMore(order, name, table);
      text := text + Line(name, table[name]);
      order := order + [name];
      todo := todo - {name};
    }
    assert Lists(order, table);
  }

  lemma {:induction false} WrittenOneMore(order: seq<string>, name: string, table: Table)
    requires forall i :: 0 <= i < |order| ==> order[i] in table
    requires name in table
    ensures Written(order + [name], table) == Written(order, table) + Line(name, table[name])
  {
    if order == [] {
      assert [name][1..] == [];
      assert Line(name, table[name]) + "" == Line(name, table[name]);
    } else {
      assert (order + [name])[1..] == order[1..] + [name];
      WrittenOneMore(order[1..], name, table);
      ConcatThree(Line(order[0], table[order[0]]), Written(order[1..], table), Line(name, table[name]));
    }
  }

  // ---------------------------------------------------------------- reading back

  predicate NoReturn(s: string) {
    forall i :: 0 <= i < |s| ==> s[i] != '\r'
  }

  lemma {:induction false} UniversalKeeps(text: string)
    requires NoReturn(text)
    ensures Universal(text) == text
  {
    if text != "" {
      UniversalKeeps(text[1..]);
      assert text == [text[0]] + text[1..];
    }
  }

  lemma {:induction false} UniversalAfter(s: string, rest: string)
    requires NoReturn(s)
    ensures Universal(s + rest) == s + Universal(rest)
  {
    if s == "" {
      assert s + rest == rest;
    } else {
      assert (s + rest)[0] == s[0] && (s + rest)[1..] == s[1..] + rest;
      UniversalAfter(s[1..], rest);
    }
  }

  /** Each line ends in "\n" once read, whichever of the three ways it ended in the file. */
  lemma LineEnds(s: string, rest: string)
    requires NoReturn(s)
    ensures Universal(s + ("\n" + rest)) == s + ("\n" + Universal(rest))
    ensures Universal(s + ("\r\n" + rest)) == s + ("\n" + Universal(rest))
    ensures rest == "" || rest[0] != '\n' ==> Universal(s + ("\r" + rest)) == s + ("\n" + Universal(rest))
  {
    UniversalAfter(s, "\n" + rest);
    UniversalAfter("\n", rest);
    UniversalAfter(s, "\r\n" + rest);
    assert ("\r\n" + rest)[2..] == rest;
    UniversalAfter(s, "\r" + rest);
    assert ("\r" + rest)[1..] == rest;
  }

  /** The text of a table with one entry. */
  lemma WrittenExample()
    ensures Writes("a.org x\n", map["a.org" := "x"])
  {
    var table: Table := map["a.org" := "x"];
    assert Lists(["a.org"], table);
    assert ["a.org"][1..] == [];
    assert Written(["a.org"], table) == "a.org x\n";
  }

  lemma LineNoReturn(name: string, value: string)
    requires IsWord(name) && IsWord(value)
    ensures NoReturn(Line(name, value))
  {
    assert forall i :: 0 <= i < |name| ==> NotSpace(name[i]);
    assert forall i :: 0 <= i < |value| ==> NotSpace(value[i]);
  }

  lemma {:induction false} WrittenNoReturn(order: seq<string>, table: Table)
    requires AllWords(table) && forall i :: 0 <= i < |order| ==> order[i] in table
    ensures NoReturn(Written(order, table))
  {
    if order != [] {
      WrittenNoReturn(order[1..], table);
      LineNoReturn(order[0], table[order[0]]);
    }
  }

  lemma LineWords(name: string, value: string)
    requires IsWord(name) && IsWord(value)
    ensures Split(name + (" " + value)) == [name, value]
  {
    SplitWord(name, " " + value);
    SplitSpace(value);
    SplitWord(value, "");
    assert value + "" == value;
    assert Split("") == [];
  }

  lemma LineLength(name: string, value: string, rest: string)
    requires IsWord(name) && IsWord(value)
    ensures var text := Line(name, value) + rest; var n := |name| + 1 + |value|;
            && PrefixLength(NotNewline, text) == n < |text|
            && text[..n] == name + (" " + value) && text[n + 1..] == rest
  {
    var text, n := Line(name, value) + rest, |name| + 1 + |value|;
    assert forall i :: 0 <= i < |name| ==> NotSpace(name[i]);
    assert forall i :: 0 <= i < |value| ==> NotSpace(value[i]);
    PrefixLengthIs(NotNewline, text, n);
  }

  lemma ReadLine(name: string, value: string, rest: string, table: Table)
    requires IsWord(name) && IsWord(value)
    ensures ReadLines(Line(name, value) + rest, table) == ReadLines(rest, table[name := value])
  {
    LineLength(name, value, rest);
    LineWords(name, value);
    ReadFirst(Line(name, value) + rest, |name| + 1 + |value|, table);
  }

  lemma ReadFirst(text: string, n: nat, table: Table)
    requires n < |text| && PrefixLength(NotNewline, text) == n && |Split(text[..n])| == 2
    ensures var words := Split(text[..n]);
            ReadLines(text, table) == ReadLines(text[n + 1..], table[words[0] := words[1]])
  {
  }

  /** A file is read line by line: two words are one more entry, a line of any other number of words
      fails, and so does an empty one; a missing file is an empty table. */
  lemma LoadExactly(line: string, rest: string, table: Table, files: map<string, string>, path: string)
    requires Free(line, '\n')
    ensures ReadLines(line + ("\n" + rest), table) ==
              if |Split(line)| == 2 then ReadLines(rest, table[Split(line)[0] := Split(line)[1]]) else None
    ensures line != "" ==> ReadLines(line, table) == ReadLines(line + "\n", table)
    ensures Load(files, path) == if path in files then ReadLines(Universal(files[path]), map[]) else Some(map[])
  {
    CutLine(line, rest);
    CutLine(line, "");
    if line != "" {
      PrefixLengthIs(NotNewline, line, |line|);
      assert line[..|line|] == line && line + ("\n" + "") == line + "\n";
    }
  }

  lemma CutLine(line: string, rest: string)
    requires Free(line, '\n')
    ensures var text := line + ("\n" + rest);
            PrefixLength(NotNewline, text) == |line| && text[..|line|] == line && text[|line| + 1..] == rest
  {
    PrefixLengthIs(NotNewline, line + ("\n" + rest), |line|);
  }

  /** The part of `table` whose names are in `order`. */
  function Picked(order: seq<string>, table: Table): Table {
    map name | name in table && name in order :: table[name]
  }

  lemma PickedFirst(order: seq<string>, table: Table, start: Table)
    requires order != [] && order[0] in table
    ensures start[order[0] := table[order[0]]] + Picked(order[1..], table) == start + Picked(order, table)
  {
    assert forall name :: name in order <==> name == order[0] || name in order[1..];
  }

  lemma {:induction false} ReadWritten(order: seq<string>, table: Table, start: Table)
    requires AllWords(table) && forall i :: 0 <= i < |order| ==> order[i] in table
    ensures ReadLines(Written(order, table), start) == Some(start + Picked(order, table))
  {
    if order == [] {
      assert start + Picked(order, table) == start;
    } else {
      ReadLine(order[0], table[order[0]], Written(order[1..], table), start);
      ReadWritten(order[1..], table, start[order[0] := table[order[0]]]);
      PickedFirst(order, table, start);
    }
  }

  lemma ReadOfWritten(text: string, table: Table)
    requires Writes(text, table) && AllWords(table)
    ensures ReadLines(Universal(text), map[]) == Some(table)
  {
    var order :| Lists(order, table) && text == Written(order, table);
    WrittenNoReturn(order, table);
    UniversalKeeps(text);
    ReadWritten(order, table, map[]);
    PickedAll(order, table);
  }

  lemma PickedAll(order: seq<string>, table: Table)
    requires Lists(order, table)
    ensures map[] + Picked(order, table) == table
  {
  }

  lemma {:induction false} ReadGivesWords(text: string, table: Table)
    requires AllWords(table)
    ensures ReadLines(text, table).Some? ==> AllWords(ReadLines(text, table).value)
    decreases |text|
  {
    if text != "" {
      var n := PrefixLength(NotNewline, text);
      var words := Split(text[..n]);
      SplitGivesWords(text[..n]);
      if |words| == 2 {
        ReadGivesWords(if n < |text| then text[n + 1..] else "", table[words[0] := words[1]]);
      }
    }
  }

  lemma LoadGivesWords(files: map<string, string>, path: string)
    ensures Load(files, path).Some? ==> AllWords(Load(files, path).value)
  {
    if path in files {
      ReadGivesWords(Universal(files[path]), map[]);
    }
  }

  /** A written file reads back as the table it was written from exactly when every name and
      every value in the table is one word. */
  lemma FileRoundTrip(text: string, table: Table)
    requires Writes(text, table)
    ensures ReadLines(Universal(text), map[]) == Some(table) <==> AllWords(table)
  {
    if AllWords(table) {
      ReadOfWritten(text, table);
    } else {
      ReadGivesWords(Universal(text), map[]);
    }
  }

  // ---------------------------------------------------------------- one table

  /** `replace("\n", "")`. */
  function Clean(value: string): string {
    Without(value, '\n')
  }

  datatype State = State(table: Table, modified: bool)

  /** What `manage_domain` does to one of the two maps. */
  function Managed(s: State, name: string, enabled: bool, value: string): State {
    if !enabled then
      if name in s.table then State(s.table - {name}, true) else s
    else if name !in s.table || s.table[name] != value then State(s.table[name := Clean(value)], true)
    else s
  }

  /** The field of a domain that a map holds. */
  datatype Field = Selector | KeyPath

  function ValueOf(f: Field, d: Domain): string {
    if f.Selector? then d.selector else d.keyPath
  }

  function ManagedAll(s: State, f: Field, domains: seq<Domain>): State {
    if domains == [] then s
    else
      var d := domains[|domains| - 1];
      Managed(ManagedAll(s, f, domains[..|domains| - 1]), d.name, d.enableDkim, ValueOf(f, d))
  }

  /** Domain names are unique in the database. */
  predicate DistinctNames(domains: seq<Domain>) {
    forall i, j :: 0 <= i < j < |domains| ==> domains[i].name != domains[j].name
  }

  predicate Mentions(domains: seq<Domain>, name: string) {
    exists i :: 0 <= i < |domains| && domains[i].name == name
  }

  lemma {:induction false} OthersUntouched(s: State, f: Field, domains: seq<Domain>, name: string)
    requires !Mentions(domains, name)
    ensures var t := ManagedAll(s, f, domains).table;
            (name in t <==> name in s.table) && (name in t ==> t[name] == s.table[name])
  {
    if domains != [] {
      var n := |domains| - 1;
      assert forall i :: 0 <= i < n ==> domains[..n][i] == domains[i];
      assert !Mentions(domains[..n], name);
      assert domains[n].name != name;
      OthersUntouched(s, f, domains[..n], name);
    }
  }

  predicate NewlineFree(table: Table) {
    forall name :: name in table ==> Free(table[name], '\n')
  }

  lemma ManagedIs(s: State, name: string, enabled: bool, value: string)
    requires name in s.table ==> Free(s.table[name], '\n')
    ensures var t := Managed(s, name, enabled, value).table;
            (name in t <==> enabled) && (enabled ==> t[name] == Clean(value))
  {
    if name in s.table && s.table[name] == value {
      WithoutFree(value, '\n');
    }
  }

  /** Every processed domain is in the table, with its own value, exactly when DKIM is enabled. */
  lemma {:induction false} ProcessedDomain(s: State, f: Field, domains: seq<Domain>, i: nat)
    requires NewlineFree(s.table) && DistinctNames(domains) && i < |domains|
    ensures var t := ManagedAll(s, f, domains).table; var d := domains[i];
            (d.name in t <==> d.enableDkim) && (d.enableDkim ==> t[d.name] == Clean(ValueOf(f, d)))
  {
    var n := |domains| - 1;
    var rest, d := domains[..n], domains[i];
    if i < n {
      ProcessedDomain(s, f, rest, i);
      assert d.name != domains[n].name;
    } else {
      assert !Mentions(rest, d.name);
      OthersUntouched(s, f, rest, d.name);
      ManagedIs(ManagedAll(s, f, rest), d.name, d.enableDkim, ValueOf(f, d));
    }
  }

  lemma {:induction false} UnmodifiedIsSame(s: State, f: Field, domains: seq<Domain>)
    ensures s.modified ==> ManagedAll(s, f, domains).modified
    ensures !ManagedAll(s, f, domains).modified ==> ManagedAll(s, f, domains) == s
  {
    if domains != [] {
      UnmodifiedIsSame(s, f, domains[..|domains| - 1]);
    }
  }

  // ---------------------------------------------------------------- a second run

  /** The domain is as the table says. */
  predicate Settled(t: Table, f: Field, d: Domain) {
    (d.name in t <==> d.enableDkim) && (d.enableDkim ==> t[d.name] == ValueOf(f, d))
  }

  lemma {:induction false} SettledAll(t: Table, f: Field, domains: seq<Domain>)
    requires forall i :: 0 <= i < |domains| ==> Settled(t, f, domains[i])
    ensures ManagedAll(State(t, false), f, domains) == State(t, false)
  {
    if domains != [] {
      var n := |domains| - 1;
      SettledAll(t, f, domains[..n]);
      assert Settled(t, f, domains[n]);
    }
  }

  lemma {:induction false} Unsettled(s: State, f: Field, domains: seq<Domain>, i: nat)
    requires DistinctNames(domains) && i < |domains| && !Settled(s.table, f, domains[i])
    ensures ManagedAll(s, f, domains).modified
  {
    var n := |domains| - 1;
    var rest := domains[..n];
    if i < n {
      Unsettled(s, f, rest, i);
    } else {
      assert !Mentions(rest, domains[i].name);
      OthersUntouched(s, f, rest, domains[i].name);
    }
  }

  predicate HasNewline(f: Field, d: Domain) {
    d.enableDkim && !Free(ValueOf(f, d), '\n')
  }

  lemma {:induction false} CleanIsFree(s: string)
    ensures Free(Clean(s), '\n')
  {
    if s != "" {
      CleanIsFree(s[1..]);
    }
  }

  /** Processing the same domains again, from the table the first run left, modifies it exactly
      when some enabled domain has a line break in its value: the table keeps the value without
      it and is compared with the value that has it. */
  lemma SecondRun(s: State, f: Field, domains: seq<Domain>)
    requires NewlineFree(s.table) && DistinctNames(domains)
    ensures var t := ManagedAll(s, f, domains).table;
            ManagedAll(State(t, false), f, domains).modified <==>
            exists i :: 0 <= i < |domains| && HasNewline(f, domains[i])
  {
    var t := ManagedAll(s, f, domains).table;
    forall i | 0 <= i < |domains|
      ensures Settled(t, f, domains[i]) <==> !HasNewline(f, domains[i])
    {
      ProcessedDomain(s, f, domains, i);
      CleanIsFree(ValueOf(f, domains[i]));
      if !HasNewline(f, domains[i]) && domains[i].enableDkim {
        WithoutFree(ValueOf(f, domains[i]), '\n');
      }
    }
    if i :| 0 <= i < |domains| && HasNewline(f, domains[i]) {
      Unsettled(State(t, false), f, domains, i);
    } else {
      SettledAll(t, f, domains);
    }
  }

  /** A selector of two lines is kept as one word, and found different again by every run. */
  lemma LineBreakRewrites()
    ensures var d := Domain("a.org", true, "x\ny", "/k");
            var t := ManagedAll(State(map[], false), Selector, [d]).table;
            t == map["a.org" := "xy"] && ManagedAll(State(t, false), Selector, [d]) == State(t, true)
  {
    var d := Domain("a.org", true, "x\ny", "/k");
    var value := "x\ny";
    assert [d][..0] == [];
    assert value[1..] == "\ny" && "\ny"[1..] == "y" && "y"[1..] == "";
    assert Without("y", '\n') == "y" && Without("\ny", '\n') == "y";
    assert Clean(value) == "xy";
  }

  // ---------------------------------------------------------------- the updater

  lemma WordsHaveNoNewline(t: Table)
    requires AllWords(t)
    ensures NewlineFree(t)
  {
    forall name | name in t
      ensures Free(t[name], '\n')
    {
      assert forall i :: 0 <= i < |t[name]| ==> NotSpace(t[name][i]);
    }
  }

  class Disk {
    var files: map<string, string>
  }

  datatype Outcome = Done | NotConfigured | BadFile

  class MapsUpdater {
    const keyMapPath: string
    const selectorMapPath: string
    var modifiedSelectorFile: bool
    var modifiedKeyPathFile: bool
    var dkimPathMap: Table
    var selectorMap: Table

    constructor (keyMapPath: string, selectorMapPath: string)
      ensures this.keyMapPath == keyMapPath && this.selectorMapPath == selectorMapPath
      ensures Fresh()
    {
      this.keyMapPath, this.selectorMapPath := keyMapPath, selectorMapPath;
      modifiedSelectorFile, modifiedKeyPathFile := false, false;
      dkimPathMap, selectorMap := map[], map[];
    }

    predicate Fresh()
      reads this
    {
      !modifiedSelectorFile && !modifiedKeyPathFile && dkimPathMap == map[] && selectorMap == map[]
    }

    function Selectors(): State
      reads this
    {
      State(selectorMap, modifiedSelectorFile)
    }

    function KeyPaths(): State
      reads this
    {
      State(dkimPathMap, modifiedKeyPathFile)
    }

    /** The text is what the loop over the lines reads from; the entries go into an empty map. */
    static method ReadFile(text: string) returns (table: Option<Table>)
      ensures table == ReadLines(text, map[])
    {
      var rest, entries: Table := text, map[];
      while rest != ""
        invariant ReadLines(rest, entries) == ReadLines(text, map[])
        decreases |rest|
      {
        var n := PrefixLength(NotNewline, rest);
        var words := Split(rest[..n]);
        if |words| != 2 {
          return None;
        }
        entries := entries[words[0] := words[1]];
        rest := if n < |rest| then rest[n + 1..] else "";
      }
      return Some(entries);
    }

    /** Done: both maps are loaded. On a bad file the exception leaves the updater unused. */
    method LoadFiles(disk: Disk) returns (outcome: Outcome)
      requires Fresh()
      modifies this
      ensures outcome == NotConfigured <==> keyMapPath == "" || selectorMapPath == ""
      ensures outcome == BadFile ==>
                Load(disk.files, keyMapPath) == None || Load(disk.files, selectorMapPath) == None
      ensures outcome == Done ==>
                && Load(disk.files, keyMapPath) == Some(dkimPathMap)
                && Load(disk.files, selectorMapPath) == Some(selectorMap)
                && !modifiedSelectorFile && !modifiedKeyPathFile
    {
      if keyMapPath == "" || selectorMapPath == "" {
        return NotConfigured;
      }
      if keyMapPath in disk.files {
        var table := ReadFile(Universal(disk.files[keyMapPath]));
        if table.None? { return BadFile; }
        dkimPathMap := table.value;
      }
      if selectorMapPath in disk.files {
        var table := ReadFile(Universal(disk.files[selectorMapPath]));
        if table.None? { return BadFile; }
        selectorMap := table.value;
      }
      return Done;
    }

    method ManageDomain(d: Domain)
      modifies this
      ensures Selectors() == Managed(old(Selectors()), d.name, d.enableDkim, d.selector)
      ensures KeyPaths() == Managed(old(KeyPaths()), d.name, d.enableDkim, d.keyPath)
    {
      if !d.enableDkim {
        if d.name in selectorMap {
          selectorMap, modifiedSelectorFile := selectorMap - {d.name}, true;
        }
        if d.name in dkimPathMap {
          dkimPathMap, modifiedKeyPathFile := dkimPathMap - {d.name}, true;
        }
        return;
      }
      if d.name !in selectorMap || selectorMap[d.name] != d.selector {
        selectorMap, modifiedSelectorFile := selectorMap[d.name := Clean(d.selector)], true;
      }
      if d.name !in dkimPathMap || dkimPathMap[d.name] != d.keyPath {
        dkimPathMap, modifiedKeyPathFile := dkimPathMap[d.name := Clean(d.keyPath)], true;
      }
    }

    method ManageDomains(domains: seq<Domain>)
      modifies this
      ensures Selectors() == ManagedAll(old(Selectors()), Selector, domains)
      ensures KeyPaths() == ManagedAll(old(KeyPaths()), KeyPath, domains)
    {
      var i := 0;
      while i < |domains|
        invariant 0 <= i <= |domains|
        invariant Selectors() == ManagedAll(old(Selectors()), Selector, domains[..i])
        invariant KeyPaths() == ManagedAll(old(KeyPaths()), KeyPath, domains[..i])
      {
        assert domains[..i + 1][..i] == domains[..i];
        ManageDomain(domains[i]);
        i := i + 1;
      }
      assert domains[..i] == domains;
    }

    method WriteFiles(disk: Disk)
      modifies disk
      ensures Rewritten(old(disk.files), disk.files, selectorMapPath, Selectors(), keyMapPath, KeyPaths())
    {
      ghost var before := disk.files;
      if modifiedSelectorFile {
        var text := WriteTable(selectorMap);
        disk.files := disk.files[selectorMapPath := text];
      }
      ghost var middle := disk.files;
      assert Stored(before, middle, selectorMapPath, Selectors());
      if modifiedKeyPathFile {
        var text := WriteTable(dkimPathMap);
        disk.files := disk.files[keyMapPath := text];
      }
      assert Stored(middle, disk.files, keyMapPath, KeyPaths());
    }

    /** `run`. The disk changes only when both files could be read. */
    method Update(disk: Disk, domains: seq<Domain>) returns (outcome: Outcome)
      requires Fresh()
      modifies this, disk
      ensures outcome == NotConfigured <==> keyMapPath == "" || selectorMapPath == ""
      ensures outcome != Done ==> disk.files == old(disk.files)
      ensures outcome == BadFile ==>
                Load(old(disk.files), keyMapPath) == None || Load(old(disk.files), selectorMapPath) == None
      ensures outcome == Done ==>
                var keys := Load(old(disk.files), keyMapPath); var selectors := Load(old(disk.files), selectorMapPath);
                && keys.Some? && selectors.Some?
                && KeyPaths() == ManagedAll(State(keys.value, false), KeyPath, domains)
                && Selectors() == ManagedAll(State(selectors.value, false), Selector, domains)
                && Rewritten(old(disk.files), disk.files, selectorMapPath, Selectors(), keyMapPath, KeyPaths())
    {
      outcome := LoadFiles(disk);
      if outcome != Done {
        return;
      }
      ManageDomains(domains);
      WriteFiles(disk);
    }
  }

  /** A file is rewritten exactly when its map was modified. */
  ghost predicate Stored(before: map<string, string>, after: map<string, string>, path: string, s: State) {
    && (!s.modified ==> after == before)
    && (s.modified ==> path in after && Writes(after[path], s.table) && after == before[path := after[path]])
  }

  /** The selector file is written first, then the key file. */
  ghost predicate Rewritten(before: map<string, string>, after: map<string, string>,
                            selectorPath: string, selectors: State, keyPath: string, keys: State)
  {
    exists middle {:trigger Stored(before, middle, selectorPath, selectors)} ::
      Stored(before, middle, selectorPath, selectors) && Stored(middle, after, keyPath, keys)
  }

  lemma StoredLoads(before: map<string, string>, after: map<string, string>, path: string, s: State)
    requires Stored(before, after, path, s) && AllWords(s.table)
    requires !s.modified ==> Load(before, path) == Some(s.table)
    ensures Load(after, path) == Some(s.table)
  {
    if s.modified {
      ReadOfWritten(after[path], s.table);
    }
  }

  lemma OtherPath(before: map<string, string>, after: map<string, string>, path: string, s: State, other: string)
    requires Stored(before, after, path, s) && other != path
    ensures Load(after, other) == Load(before, other)
  {
  }

  /** After a run both files read back as the maps in memory, changed or not. */
  lemma FilesFollowMaps(before: map<string, string>, after: map<string, string>, selectorPath: string, keyPath: string,
                        domains: seq<Domain>, selectors: Table, keys: Table)
    requires selectorPath != keyPath
    requires Load(before, selectorPath) == Some(selectors) && Load(before, keyPath) == Some(keys)
    requires var s := ManagedAll(State(selectors, false), Selector, domains);
             var k := ManagedAll(State(keys, false), KeyPath, domains);
             AllWords(s.table) && AllWords(k.table) && Rewritten(before, after, selectorPath, s, keyPath, k)
    ensures Load(after, selectorPath) == Some(ManagedAll(State(selectors, false), Selector, domains).table)
    ensures Load(after, keyPath) == Some(ManagedAll(State(keys, false), KeyPath, domains).table)
  {
    var s := ManagedAll(State(selectors, false), Selector, domains);
    var k := ManagedAll(State(keys, false), KeyPath, domains);
    var middle :| Stored(before, middle, selectorPath, s) && Stored(middle, after, keyPath, k);
    UnmodifiedIsSame(State(selectors, false), Selector, domains);
    UnmodifiedIsSame(State(keys, false), KeyPath, domains);
    StoredLoads(before, middle, selectorPath, s);
    OtherPath(middle, after, keyPath, k, selectorPath);
    OtherPath(before, middle, selectorPath, s, keyPath);
    StoredLoads(middle, after, keyPath, k);
  }

  predicate DomainWords(d: Domain) {
    IsWord(d.name) && IsWord(d.selector) && IsWord(d.keyPath)
  }

  lemma {:induction false} ManagedKeepsWords(s: State, f: Field, domains: seq<Domain>)
    requires AllWords(s.table) && forall i :: 0 <= i < |domains| ==> DomainWords(domains[i])
    ensures AllWords(ManagedAll(s, f, domains).table)
  {
    if domains != [] {
      var d := domains[|domains| - 1];
      ManagedKeepsWords(s, f, domains[..|domains| - 1]);
      assert DomainWords(d);
      WordHasNoNewline(ValueOf(f, d));
      WithoutFree(ValueOf(f, d), '\n');
    }
  }

  lemma WordHasNoNewline(s: string)
    requires IsWord(s)
    ensures Free(s, '\n')
  {
    assert forall i :: 0 <= i < |s| ==> NotSpace(s[i]);
  }

  /** For domains whose fields are words, a run followed by the same run: the second loads what
      the first left in memory, changes nothing and writes nothing. */
  lemma SecondRunWritesNothing(before: map<string, string>, after: map<string, string>, selectorPath: string,
                               keyPath: string, domains: seq<Domain>, selectors: Table, keys: Table)
    requires selectorPath != keyPath && DistinctNames(domains)
    requires forall i :: 0 <= i < |domains| ==> DomainWords(domains[i])
    requires Load(before, selectorPath) == Some(selectors) && Load(before, keyPath) == Some(keys)
    requires Rewritten(before, after,
                       selectorPath, ManagedAll(State(selectors, false), Selector, domains),
                       keyPath, ManagedAll(State(keys, false), KeyPath, domains))
    ensures var s := Load(after, selectorPath); var k := Load(after, keyPath);
            && s.Some? && k.Some?
            && ManagedAll(State(s.value, false), Selector, domains) == State(s.value, false)
            && ManagedAll(State(k.value, false), KeyPath, domains) == State(k.value, false)
  {
    LoadGivesWords(before, selectorPath);
    LoadGivesWords(before, keyPath);
    ManagedKeepsWords(State(selectors, false), Selector, domains);
    ManagedKeepsWords(State(keys, false), KeyPath, domains);
    FilesFollowMaps(before, after, selectorPath, keyPath, domains, selectors, keys);
    SecondRunOf(selectors, Selector, domains);
    SecondRunOf(keys, KeyPath, domains);
  }

  lemma SecondRunOf(table: Table, f: Field, domains: seq<Domain>)
    requires AllWords(table) && DistinctNames(domains)
    requires forall i :: 0 <= i < |domains| ==> DomainWords(domains[i])
    ensures var t := ManagedAll(State(table, false), f, domains).table;
            ManagedAll(State(t, false), f, domains) == State(t, false)
  {
    var t := ManagedAll(State(table, false), f, domains).table;
    WordsHaveNoNewline(table);
    SecondRun(State(table, false), f, domains);
    forall i | 0 <= i < |domains|
      ensures !HasNewline(f, domains[i])
    {
      assert DomainWords(domains[i]);
      WordHasNoNewline(ValueOf(f, domains[i]));
    }
    UnmodifiedIsSame(State(t, false), f, domains);
  }
}
