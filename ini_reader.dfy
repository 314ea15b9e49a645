/**
 * `IniReader`: the binding index and `ReadIni`, which files every `setting = Key`
 * line of a configuration file under the key it names.
 *
 * The index maps each key to the records filed under it, a record being
 * `"[<file label>] <setting>"`. The functions below give the index that results
 * from reading lines and files; the class `BindingIndex` holds the index and
 * updates it in place, as the program's static dictionary is updated.
 */
module IniReader {

  import opened Wrappers
  import opened Text
  import opened KeyNames
  import opened Paths

  type Index = map<SymbolicKey, seq<string>>

  /** A key is present only with a non-empty list of records. */
  predicate WellFormed(m: Index) {
    forall k :: k in m ==> m[k] != []
  }

  /** The records filed under `k`; none when the key is absent. */
  function Records(m: Index, k: SymbolicKey): seq<string> {
    if k in m then m[k] else []
  }

  /** The provenance record of a binding: the file label and the setting name. */
  function BindingRecord(fileLabel: string, setting: string): (r: string)
    ensures |r| == |fileLabel| + |setting| + 3
    ensures r[0] == '[' && r[1..|fileLabel| + 1] == fileLabel && r[|fileLabel| + 1..|fileLabel| + 3] == "] "
    ensures r[|fileLabel| + 3..] == setting
  {
    "[" + fileLabel + "] " + setting
  }

  const Equals: set<char> := {'='}

  /** `line.Split('=')` when the line contains `=` and the split yields exactly
      two pieces. */
  function SplitAssignment(line: string): Option<(string, string)> {
    if '=' in line then
      var split := Split(line, Equals);
      if |split| == 2 then Some((split[0], split[1])) else Option.None
    else Option.None
  }

  /** The lines `SplitAssignment` accepts are exactly those with a single `=`,
      and it cuts them at that `=`. */
  lemma SplitAssignmentCutsAtEquals(line: string)
    ensures var r := SplitAssignment(line);
            && (r.Some? <==> CountIn(line, Equals) == 1)
            && (r.Some? ==> line == r.value.0 + "=" + r.value.1)
            && (r.Some? ==> NoneIn(r.value.0, Equals) && NoneIn(r.value.1, Equals))
  {
    CountInPositive(line, Equals);
    if '=' in line {
      var split := Split(line, Equals);
      if |split| == 2 {
        JoinSplit(line, '=');
        assert Join(split, '=') == split[0] + "=" + split[1];
      }
    }
  }

  /** What a line binds, if anything: the key its trimmed value names and the
      record to file under it. Integer values and values naming no key bind
      nothing. */
  function LineBinding(kb: Keyboard, fileLabel: string, line: string): Option<(SymbolicKey, string)> {
    match SplitAssignment(line)
    case Some((setting, value)) => ValueBinding(kb, fileLabel, Trim(setting), Trim(value))
    case _ => Option.None
  }

  /** What an assignment of the trimmed `key` to the trimmed `setting` binds. */
  function ValueBinding(kb: Keyboard, fileLabel: string, setting: string, key: string): Option<(SymbolicKey, string)> {
    if ParseInt32(key).Some? then Option.None
    else
      match Resolve(kb, key)
      case Some(k) => Some((k, BindingRecord(fileLabel, setting)))
      case _ => Option.None
  }

  /** The index after reading one line. */
  function IngestLine(m: Index, kb: Keyboard, fileLabel: string, line: string): Index {
    match LineBinding(kb, fileLabel, line)
    case Some((k, record)) => m[k := Records(m, k) + [record]]
    case _ => m
  }

  /** The index after reading `lines` in order. */
  function IngestLines(m: Index, kb: Keyboard, fileLabel: string, lines: seq<string>): Index {
    if |lines| == 0 then m
    else IngestLine(IngestLines(m, kb, fileLabel, lines[..|lines| - 1]), kb, fileLabel, lines[|lines| - 1])
  }

  /** The records `lines` bind to `k`, in line order. */
  function RecordsFrom(kb: Keyboard, fileLabel: string, k: SymbolicKey, lines: seq<string>): seq<string> {
    if |lines| == 0 then []
    else
      RecordsFrom(kb, fileLabel, k, lines[..|lines| - 1]) + LineRecords(kb, fileLabel, k, lines[|lines| - 1])
  }

  /** The record one line binds to `k`, if any. */
  function LineRecords(kb: Keyboard, fileLabel: string, k: SymbolicKey, line: string): seq<string> {
    match LineBinding(kb, fileLabel, line)
    case Some((k', record)) => if k' == k then [record] else []
    case _ => []
  }

  /** A configuration file: its path and its lines. */
  datatype IniFile = IniFile(path: string, lines: seq<string>)

  /** The index after reading `files` in order. */
  function IngestFiles(m: Index, kb: Keyboard, files: seq<IniFile>): Index {
    if |files| == 0 then m
    else
      var f := files[|files| - 1];
      IngestLines(IngestFiles(m, kb, files[..|files| - 1]), kb, GetFileNameWithTwoFolders(f.path), f.lines)
  }

  /** The records `files` bind to `k`, in file order and then line order. */
  function FileRecordsFrom(kb: Keyboard, k: SymbolicKey, files: seq<IniFile>): seq<string> {
    if |files| == 0 then []
    else
      var f := files[|files| - 1];
      FileRecordsFrom(kb, k, files[..|files| - 1]) + RecordsFrom(kb, GetFileNameWithTwoFolders(f.path), k, f.lines)
  }

  // ---------------------------------------------------------------------------
  // One line
  // ---------------------------------------------------------------------------

  /** Splitting `setting=value` on `=` gives back the two sides. */
  lemma ParseAssignment(setting: string, value: string)
    requires NoneIn(setting, Equals) && NoneIn(value, Equals)
    ensures SplitAssignment(setting + "=" + value) == Some((setting, value))
  {
    var line := setting + "=" + value;
    SplitAtSeparator(setting, '=', value, Equals);
    SplitNoSeparator(setting, Equals);
    SplitNoSeparator(value, Equals);
    assert line[|setting|] == '=';
  }

  /** A `setting=value` line binds what its trimmed sides bind. */
  lemma AssignmentBinding(kb: Keyboard, fileLabel: string, setting: string, value: string)
    requires NoneIn(setting, Equals) && NoneIn(value, Equals)
    ensures LineBinding(kb, fileLabel, setting + "=" + value) == ValueBinding(kb, fileLabel, Trim(setting), Trim(value))
  {
    ParseAssignment(setting, value);
  }

  /** A line that splits on `=` into two pieces binds what its trimmed pieces
      bind. */
  lemma SplitLineBinding(kb: Keyboard, fileLabel: string, line: string)
    requires '=' in line && |Split(line, Equals)| == 2
    ensures var split := Split(line, Equals);
            LineBinding(kb, fileLabel, line) == ValueBinding(kb, fileLabel, Trim(split[0]), Trim(split[1]))
  {
  }

  /** A line without `=`, or with more than one, leaves the index unchanged. */
  lemma NotAnAssignment(m: Index, kb: Keyboard, fileLabel: string, line: string)
    requires CountIn(line, Equals) != 1
    ensures IngestLine(m, kb, fileLabel, line) == m
  {
    SplitAssignmentCutsAtEquals(line);
    assert LineBinding(kb, fileLabel, line).None?;
  }

  /** A value that parses as an integer leaves the index unchanged. */
  lemma IntegerValue(m: Index, kb: Keyboard, fileLabel: string, setting: string, value: string)
    requires NoneIn(setting, Equals) && NoneIn(value, Equals)
    requires ParseInt32(Trim(value)).Some?
    ensures IngestLine(m, kb, fileLabel, setting + "=" + value) == m
  {
    AssignmentBinding(kb, fileLabel, setting, value);
  }

  /** A value naming a keyboard key appends one record to that key's list and
      changes nothing else. */
  lemma KeyboardValue(m: Index, kb: Keyboard, fileLabel: string, setting: string, value: string)
    requires NoneIn(setting, Equals) && NoneIn(value, Equals)
    requires ParseInt32(Trim(value)).None? && Trim(value) in kb
    ensures var k := KeyboardKey(kb[Trim(value)]);
            IngestLine(m, kb, fileLabel, setting + "=" + value)
              == m[k := Records(m, k) + [BindingRecord(fileLabel, Trim(setting))]]
  {
    var t, record := Trim(value), BindingRecord(fileLabel, Trim(setting));
    assert ParseKeyboard(kb, t) == Some(kb[t]) by {
      TrimIdempotent(value);
    }
    assert ValueBinding(kb, fileLabel, Trim(setting), t) == Some((KeyboardKey(kb[t]), record));
    AssignmentBinding(kb, fileLabel, setting, value);
    BoundLine(m, kb, fileLabel, setting + "=" + value, KeyboardKey(kb[t]), record);
  }

  /** A value naming no keyboard key but a controller button appends one record
      to that button's list and changes nothing else. */
  lemma ControllerButtonValue(m: Index, kb: Keyboard, fileLabel: string, setting: string, value: string, c: ControllerKeybind)
    requires NoneIn(setting, Equals) && NoneIn(value, Equals)
    requires ParseInt32(Trim(value)).None? && Trim(value) !in kb
    requires Trim(value) == ControllerName(c)
    ensures var k := ControllerKey(c);
            IngestLine(m, kb, fileLabel, setting + "=" + value)
              == m[k := Records(m, k) + [BindingRecord(fileLabel, Trim(setting))]]
  {
    var t, record := Trim(value), BindingRecord(fileLabel, Trim(setting));
    assert ParseKeyboard(kb, t).None? by {
      TrimIdempotent(value);
    }
    assert ParseController(t) == Some(c) by {
      ParseControllerName(c);
    }
    assert ValueBinding(kb, fileLabel, Trim(setting), t) == Some((ControllerKey(c), record));
    AssignmentBinding(kb, fileLabel, setting, value);
    BoundLine(m, kb, fileLabel, setting + "=" + value, ControllerKey(c), record);
  }

  /** A line that binds nothing leaves the index as it was. */
  lemma UnboundLine(m: Index, kb: Keyboard, fileLabel: string, line: string)
    requires LineBinding(kb, fileLabel, line).None?
    ensures IngestLine(m, kb, fileLabel, line) == m
  {
  }

  /** A line that binds a key appends its record to that key's list. */
  lemma BoundLine(m: Index, kb: Keyboard, fileLabel: string, line: string, k: SymbolicKey, record: string)
    requires LineBinding(kb, fileLabel, line) == Some((k, record))
    ensures IngestLine(m, kb, fileLabel, line) == m[k := Records(m, k) + [record]]
  {
  }

  /** A value naming neither a keyboard key nor a controller button leaves the
      index unchanged. */
  lemma UnknownValue(m: Index, kb: Keyboard, fileLabel: string, setting: string, value: string)
    requires NoneIn(setting, Equals) && NoneIn(value, Equals)
    requires Trim(value) !in kb
    requires forall c :: ControllerName(c) != Trim(value)
    ensures IngestLine(m, kb, fileLabel, setting + "=" + value) == m
  {
    AssignmentBinding(kb, fileLabel, setting, value);
    TrimIdempotent(value);
  }

  /** A name in both enumerations is filed under the keyboard key: the button's
      list is left as it was. */
  lemma KeyboardBeforeController(m: Index, kb: Keyboard, fileLabel: string, setting: string, c: ControllerKeybind)
    requires NoneIn(setting, Equals) && ControllerName(c) in kb
    ensures var line := setting + "=" + ControllerName(c);
            var k := KeyboardKey(kb[ControllerName(c)]);
            && Records(IngestLine(m, kb, fileLabel, line), k) == Records(m, k) + [BindingRecord(fileLabel, Trim(setting))]
            && Records(IngestLine(m, kb, fileLabel, line), ControllerKey(c)) == Records(m, ControllerKey(c))
  {
    var name := ControllerName(c);
    ControllerNameLetters(c);
    assert NoneIn(name, Equals);
    ControllerNameTrimmed(c);
    ControllerNameNotInteger(c);
    KeyboardValue(m, kb, fileLabel, setting, name);
  }

  // ---------------------------------------------------------------------------
  // Many lines, many files
  // ---------------------------------------------------------------------------

  /** Reading lines appends, to each key's list, the records those lines bind to
      it, in line order: lists only grow, and nothing is reordered. */
  lemma {:induction false} IngestLinesRecords(m: Index, kb: Keyboard, fileLabel: string, lines: seq<string>, k: SymbolicKey)
    ensures Records(IngestLines(m, kb, fileLabel, lines), k) == Records(m, k) + RecordsFrom(kb, fileLabel, k, lines)
  {
    if |lines| > 0 {
      var prefix := lines[..|lines| - 1];
      IngestLinesRecords(m, kb, fileLabel, prefix, k);
      IngestLineRecords(IngestLines(m, kb, fileLabel, prefix), kb, fileLabel, lines[|lines| - 1], k);
      AppendAssociates(Records(m, k), RecordsFrom(kb, fileLabel, k, prefix), LineRecords(kb, fileLabel, k, lines[|lines| - 1]));
    } else {
      assert Records(m, k) + [] == Records(m, k);
    }
  }

  /** Reading one line appends to `k`'s list the record the line binds to it. */
  lemma IngestLineRecords(m: Index, kb: Keyboard, fileLabel: string, line: string, k: SymbolicKey)
    ensures Records(IngestLine(m, kb, fileLabel, line), k) == Records(m, k) + LineRecords(kb, fileLabel, k, line)
  {
    match LineBinding(kb, fileLabel, line)
    case Some((k', record)) =>
    case _ =>
  }

  /** Reading lines keeps every present key's list non-empty, and a key becomes
      present exactly when a line binds to it. */
  lemma {:induction false} IngestLinesWellFormed(m: Index, kb: Keyboard, fileLabel: string, lines: seq<string>)
    requires WellFormed(m)
    ensures WellFormed(IngestLines(m, kb, fileLabel, lines))
    ensures forall k :: k in IngestLines(m, kb, fileLabel, lines) <==> k in m || RecordsFrom(kb, fileLabel, k, lines) != []
  {
    if |lines| > 0 {
      var prefix, last := lines[..|lines| - 1], lines[|lines| - 1];
      var before := IngestLines(m, kb, fileLabel, prefix);
      IngestLinesWellFormed(m, kb, fileLabel, prefix);
      IngestLineWellFormed(before, kb, fileLabel, last);
      assert IngestLines(m, kb, fileLabel, lines) == IngestLine(before, kb, fileLabel, last);
      forall k ensures k in IngestLines(m, kb, fileLabel, lines) <==> k in m || RecordsFrom(kb, fileLabel, k, lines) != [] {
        assert RecordsFrom(kb, fileLabel, k, lines) == RecordsFrom(kb, fileLabel, k, prefix) + LineRecords(kb, fileLabel, k, last);
      }
    }
  }

  /** Reading one line keeps the index well formed, and adds a key exactly when
      the line binds to it. */
  lemma IngestLineWellFormed(m: Index, kb: Keyboard, fileLabel: string, line: string)
    requires WellFormed(m)
    ensures WellFormed(IngestLine(m, kb, fileLabel, line))
    ensures forall k :: k in IngestLine(m, kb, fileLabel, line) <==> k in m || LineRecords(kb, fileLabel, k, line) != []
  {
  }

  /** Reading one more line of a file reads it into the index built so far. */
  lemma IngestNextLine(m: Index, kb: Keyboard, fileLabel: string, lines: seq<string>, i: nat)
    requires i < |lines|
    ensures IngestLines(m, kb, fileLabel, lines[..i + 1]) == IngestLine(IngestLines(m, kb, fileLabel, lines[..i]), kb, fileLabel, lines[i])
  {
    assert lines[..i + 1][..i] == lines[..i];
  }

  /** Reading `a` and then `b` is reading `a + b`. */
  lemma {:induction false} IngestLinesConcat(m: Index, kb: Keyboard, fileLabel: string, a: seq<string>, b: seq<string>)
    ensures IngestLines(m, kb, fileLabel, a + b) == IngestLines(IngestLines(m, kb, fileLabel, a), kb, fileLabel, b)
  {
    if |b| == 0 {
      assert a + b == a;
    } else {
      assert (a + b)[..|a + b| - 1] == a + b[..|b| - 1];
      IngestLinesConcat(m, kb, fileLabel, a, b[..|b| - 1]);
    }
  }

  /** Reading files appends, to each key's list, the records the files bind to
      it, in file order and then line order. */
  lemma {:induction false} IngestFilesRecords(m: Index, kb: Keyboard, files: seq<IniFile>, k: SymbolicKey)
    ensures Records(IngestFiles(m, kb, files), k) == Records(m, k) + FileRecordsFrom(kb, k, files)
  {
    if |files| > 0 {
      var f, prefix := files[|files| - 1], files[..|files| - 1];
      var fl := GetFileNameWithTwoFolders(f.path);
      var before := IngestFiles(m, kb, prefix);
      assert IngestFiles(m, kb, files) == IngestLines(before, kb, fl, f.lines);
      assert FileRecordsFrom(kb, k, files) == FileRecordsFrom(kb, k, prefix) + RecordsFrom(kb, fl, k, f.lines);
      IngestFilesRecords(m, kb, prefix, k);
      IngestLinesRecords(before, kb, fl, f.lines, k);
      AppendAssociates(Records(m, k), FileRecordsFrom(kb, k, prefix), RecordsFrom(kb, fl, k, f.lines));
    } else {
      assert Records(m, k) + [] == Records(m, k);
    }
  }

  /** The index built from the empty one holds a key exactly when some line of
      some file binds to it, and then holds exactly those records, in order. */
  lemma {:induction false} IngestFilesFromEmpty(kb: Keyboard, files: seq<IniFile>)
    ensures WellFormed(IngestFiles(map[], kb, files))
    ensures forall k :: k in IngestFiles(map[], kb, files) <==> FileRecordsFrom(kb, k, files) != []
    ensures forall k :: Records(IngestFiles(map[], kb, files), k) == FileRecordsFrom(kb, k, files)
  {
    IngestFilesWellFormed(map[], kb, files);
    forall k ensures Records(IngestFiles(map[], kb, files), k) == FileRecordsFrom(kb, k, files) {
      IngestFilesRecords(map[], kb, files, k);
    }
  }

  lemma {:induction false} IngestFilesWellFormed(m: Index, kb: Keyboard, files: seq<IniFile>)
    requires WellFormed(m)
    ensures WellFormed(IngestFiles(m, kb, files))
  {
    if |files| > 0 {
      var f := files[|files| - 1];
      IngestFilesWellFormed(m, kb, files[..|files| - 1]);
      IngestLinesWellFormed(IngestFiles(m, kb, files[..|files| - 1]), kb, GetFileNameWithTwoFolders(f.path), f.lines);
    }
  }

  // ---------------------------------------------------------------------------
  // The index object
  // ---------------------------------------------------------------------------

  /** The binding index, built once by reading every configuration file. */
  class BindingIndex {
    /** The keyboard `Keys` enumeration the values are resolved against. */
    const keyboard: Keyboard
    var keybinds: Index

    ghost predicate Valid()
      reads this
    {
      WellFormed(keybinds)
    }

    constructor (keyboard: Keyboard)
      ensures this.keyboard == keyboard && keybinds == map[] && Valid()
    {
      this.keyboard := keyboard;
      keybinds := map[];
    }

    /** Reads the lines of `file`, filing each binding under its key. */
    method ReadIni(file: string, lines: seq<string>)
      requires Valid()
      modifies this
      ensures Valid()
      ensures keybinds == IngestLines(old(keybinds), keyboard, GetFileNameWithTwoFolders(file), lines)
      ensures forall k :: Records(keybinds, k)
                            == Records(old(keybinds), k) + RecordsFrom(keyboard, GetFileNameWithTwoFolders(file), k, lines)
    {
      var fileLabel := GetFileNameWithTwoFolders(file);
      for i := 0 to |lines|
        invariant Valid()
        invariant keybinds == IngestLines(old(keybinds), keyboard, fileLabel, lines[..i])
      {
        IngestNextLine(old(keybinds), keyboard, fileLabel, lines, i);
        ReadLine(fileLabel, lines[i]);
      }
      assert lines[..|lines|] == lines;
      ReadIniFacts(old(keybinds), fileLabel, lines);
    }

    lemma ReadIniFacts(m: Index, fileLabel: string, lines: seq<string>)
      requires WellFormed(m)
      ensures WellFormed(IngestLines(m, keyboard, fileLabel, lines))
      ensures forall k :: Records(IngestLines(m, keyboard, fileLabel, lines), k)
                            == Records(m, k) + RecordsFrom(keyboard, fileLabel, k, lines)
    {
      IngestLinesWellFormed(m, keyboard, fileLabel, lines);
      forall k ensures Records(IngestLines(m, keyboard, fileLabel, lines), k) == Records(m, k) + RecordsFrom(keyboard, fileLabel, k, lines) {
        IngestLinesRecords(m, keyboard, fileLabel, lines, k);
      }
    }

    /** One pass of the loop in `ReadIni`: files the binding of `line`, if any. */
    method ReadLine(fileLabel: string, line: string)
      requires Valid()
      modifies this
      ensures Valid()
      ensures keybinds == IngestLine(old(keybinds), keyboard, fileLabel, line)
    {
      if '=' in line {
        var split := Split(line, Equals);
        if |split| == 2 {
          SplitLineBinding(keyboard, fileLabel, line);
          var key := Trim(split[1]);
          if ParseInt32(key).Some? {
            UnboundLine(keybinds, keyboard, fileLabel, line);
            return;
          }
          var value := BindingRecord(fileLabel, Trim(split[0]));
          var k := ParseKeyboard(keyboard, key);
          if k.Some? {
            assert LineBinding(keyboard, fileLabel, line) == Some((KeyboardKey(k.value), value));
            BoundLine(keybinds, keyboard, fileLabel, line, KeyboardKey(k.value), value);
            Append(KeyboardKey(k.value), value);
            return;
          }
          var c := ParseController(key);
          if c.Some? {
            assert LineBinding(keyboard, fileLabel, line) == Some((ControllerKey(c.value), value));
            BoundLine(keybinds, keyboard, fileLabel, line, ControllerKey(c.value), value);
            Append(ControllerKey(c.value), value);
          } else {
            UnboundLine(keybinds, keyboard, fileLabel, line);
          }
        } else {
          UnboundLine(keybinds, keyboard, fileLabel, line);
        }
      } else {
        UnboundLine(keybinds, keyboard, fileLabel, line);
      }
    }

    /** Adds `record` at the end of the list of `k`, creating the list when
        the key is new. */
    method Append(k: SymbolicKey, record: string)
      requires Valid()
      modifies this
      ensures Valid()
      ensures keybinds == old(keybinds)[k := Records(old(keybinds), k) + [record]]
    {
      if k in keybinds {
        keybinds := keybinds[k := keybinds[k] + [record]];
        return;
      }
      assert Records(keybinds, k) + [record] == [record];
      keybinds := keybinds[k := [record]];
    }

    /** Reads every file in order. */
    method ReadAll(files: seq<IniFile>)
      requires Valid()
      modifies this
      ensures Valid()
      ensures keybinds == IngestFiles(old(keybinds), keyboard, files)
    {
      for i := 0 to |files|
        invariant Valid()
        invariant keybinds == IngestFiles(old(keybinds), keyboard, files[..i])
      {
        assert files[..i + 1][..i] == files[..i];
        ReadIni(files[i].path, files[i].lines);
      }
      assert files[..|files|] == files;
    }
  }
}
