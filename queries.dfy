/**
 * The decisions of the interactive loop in `Program.Main`: which command a line
 * of input is, what a key query reports against the binding index
 * (`CheckKeys` and `CheckControllerKeys`), and what lookup mode writes for each
 * key press until escape ends it. Console input becomes parameters and console
 * output becomes returned values.
 */
module Queries {

  import opened Wrappers
  import opened Text
  import opened KeyNames
  import opened IniReader

  // ---------------------------------------------------------------------------
  // Commands
  // ---------------------------------------------------------------------------

  /** What a line typed at the prompt asks for. */
  datatype Command =
    | Quit
    | ShowModifiers
    | Lookup
    | Query(input: string)

  /** Equality up to the case of ASCII letters. */
  predicate EqualsIgnoreCase(a: string, b: string) {
    |a| == |b| && forall i :: 0 <= i < |a| ==> ToLowerChar(a[i]) == ToLowerChar(b[i])
  }

  /** The reserved words are recognised whatever their case; every other line,
      untouched, is a key query. */
  function ParseCommand(input: string): (r: Command)
    ensures r == Quit <==> EqualsIgnoreCase(input, "quit")
    ensures r == ShowModifiers <==> EqualsIgnoreCase(input, "modifiers")
    ensures r == Lookup <==> EqualsIgnoreCase(input, "lookup")
    ensures r.Query? ==> r.input == input
  {
    LowerEquals(input, "quit");
    LowerEquals(input, "modifiers");
    LowerEquals(input, "lookup");
    var lower := ToLower(input);
    if lower == "quit" then Quit
    else if lower == "modifiers" then ShowModifiers
    else if lower == "lookup" then Lookup
    else Query(input)
  }

  /** Lower-casing `s` gives the lower-case `word` exactly when `s` is `word`
      up to case. */
  lemma LowerEquals(s: string, word: string)
    requires ToLower(word) == word
    ensures ToLower(s) == word <==> EqualsIgnoreCase(s, word)
  {
    if EqualsIgnoreCase(s, word) {
      assert forall i :: 0 <= i < |s| ==> ToLower(s)[i] == ToLower(word)[i];
    }
  }

  /** Two inputs that differ only in case are the same command, and a query
      is asked of the input as typed. */
  lemma CommandIgnoresCase(a: string, b: string)
    requires EqualsIgnoreCase(a, b)
    ensures ParseCommand(a).Query? <==> ParseCommand(b).Query?
    ensures !ParseCommand(a).Query? ==> ParseCommand(a) == ParseCommand(b)
  {
    assert ToLower(a) == ToLower(b);
  }

  /** The modifier keys, each with the name a binding uses for it, in the order
      the `modifiers` command lists them. */
  const Modifiers: seq<(string, string)> := [
    ("Left Shift", "LShiftKey"),
    ("Right Shift", "RShiftKey"),
    ("Left Control", "LControlKey"),
    ("Right Control", "RControlKey"),
    ("Left Alt", "LMenu"),
    ("Right Alt", "RMenu")
  ]

  /** The lines the `modifiers` command writes: one per modifier key, in table
      order, naming the key and then what to type for it. */
  function ModifierLines(): (lines: seq<string>)
    ensures |lines| == |Modifiers|
    ensures forall i :: 0 <= i < |lines| ==>
              |Modifiers[i].0| < |lines[i]| && lines[i][..|Modifiers[i].0|] == Modifiers[i].0
              && lines[i][|lines[i]| - |Modifiers[i].1|..] == Modifiers[i].1
  {
    seq(|Modifiers|, i requires 0 <= i < |Modifiers| => Modifiers[i].0 + " -> " + Modifiers[i].1)
  }

  // ---------------------------------------------------------------------------
  // Key queries
  // ---------------------------------------------------------------------------

  /** The records a query writes for one key: `Found <n> keys for <key>`
      followed by the records themselves. */
  datatype Report = Report(key: SymbolicKey, records: seq<string>)

  /** The `(bool, int)` pair a check returns, and what it wrote. */
  datatype Check = Check(parsed: bool, count: nat, report: Option<Report>)

  /** The check of one key that the input did name. */
  function CountStored(keybinds: Index, k: SymbolicKey): (r: Check)
    ensures r.parsed && r.count == |Records(keybinds, k)|
    ensures r.report.Some? <==> k in keybinds
    ensures r.report.Some? ==> r.report.value == Report(k, keybinds[k])
  {
    if k in keybinds then Check(true, |keybinds[k]|, Some(Report(k, keybinds[k])))
    else Check(true, 0, Option.None)
  }

  /** `CheckKeys`: the input as a keyboard key, and the number of records filed
      under it. */
  function CheckKeys(keybinds: Index, kb: Keyboard, input: string): (r: Check)
    ensures r.parsed <==> Trim(input) in kb
    ensures !r.parsed ==> r.count == 0 && !r.report.Some?
    ensures r.parsed ==> r == CountStored(keybinds, KeyboardKey(kb[Trim(input)]))
  {
    match ParseKeyboard(kb, input)
    case Some(code) => CountStored(keybinds, KeyboardKey(code))
    case _ => Check(false, 0, Option.None)
  }

  /** `CheckControllerKeys`: the input as a controller button, and the number
      of records filed under it. */
  function CheckControllerKeys(keybinds: Index, input: string): (r: Check)
    ensures r.parsed <==> exists c :: ControllerName(c) == Trim(input)
    ensures !r.parsed ==> r.count == 0 && !r.report.Some?
    ensures forall c :: ControllerName(c) == Trim(input) ==> r == CountStored(keybinds, ControllerKey(c))
    ensures r.parsed <==> ParseController(input).Some?
    ensures r.parsed ==> r == CountStored(keybinds, ControllerKey(ParseController(input).value))
  {
    match ParseController(input)
    case Some(c) =>
      ControllerNamesDistinct();
      CountStored(keybinds, ControllerKey(c))
    case _ => Check(false, 0, Option.None)
  }

  /** The keys a query names: its keyboard key, then its controller button,
      each only when the input parses as one. */
  function Resolved(kb: Keyboard, input: string): seq<SymbolicKey> {
    (if Trim(input) in kb then [KeyboardKey(kb[Trim(input)])] else [])
    + (match ParseController(input) case Some(c) => [ControllerKey(c)] case _ => [])
  }

  /** How a query ends. */
  datatype Verdict = InvalidKeybind | NoKeysFound | KeysFound

  /** Both checks of a query, and its verdict. */
  datatype Answer = Answer(keyboard: Check, controller: Check, verdict: Verdict)

  /** The reports a query writes, keyboard first. */
  function Reports(a: Answer): seq<Report> {
    (match a.keyboard.report case Some(rep) => [rep] case _ => [])
    + (match a.controller.report case Some(rep) => [rep] case _ => [])
  }

  /** A query runs both checks. It is an invalid keybind exactly when the input
      names no key; it finds no keys exactly when it names one and the keys it
      names hold no records; otherwise it reports, in order, the records of each
      named key present in the index, and the two counts add up to all the
      records of the named keys. */
  function AnswerQuery(keybinds: Index, kb: Keyboard, input: string): (r: Answer)
    ensures r.verdict == InvalidKeybind <==> Resolved(kb, input) == []
    ensures r.verdict == NoKeysFound <==> Resolved(kb, input) != [] && Total(keybinds, Resolved(kb, input)) == 0
    ensures r.verdict == KeysFound <==> Total(keybinds, Resolved(kb, input)) > 0
    ensures Reports(r) == ReportsOf(keybinds, Resolved(kb, input))
    ensures r.keyboard.count + r.controller.count == Total(keybinds, Resolved(kb, input))
  {
    var ck := CheckKeys(keybinds, kb, input);
    var cck := CheckControllerKeys(keybinds, input);
    var verdict :=
      if !ck.parsed && !cck.parsed then InvalidKeybind
      else if ck.count == 0 && cck.count == 0 then NoKeysFound
      else KeysFound;
    ChecksCoverResolved(keybinds, kb, input);
    Answer(ck, cck, verdict)
  }

  /** The two checks between them cover exactly the keys the input names. */
  lemma ChecksCoverResolved(keybinds: Index, kb: Keyboard, input: string)
    ensures var ck, cck := CheckKeys(keybinds, kb, input), CheckControllerKeys(keybinds, input);
            && (Resolved(kb, input) == [] <==> !ck.parsed && !cck.parsed)
            && ReportsOf(keybinds, Resolved(kb, input)) == Reports(Answer(ck, cck, InvalidKeybind))
            && Total(keybinds, Resolved(kb, input)) == ck.count + cck.count
  {
    var ck, cck := CheckKeys(keybinds, kb, input), CheckControllerKeys(keybinds, input);
    var kk := if Trim(input) in kb then [KeyboardKey(kb[Trim(input)])] else [];
    var cc := if cck.parsed then [ControllerKey(ParseController(input).value)] else [];
    assert Resolved(kb, input) == kk + cc;
    NamedKeysConcat(keybinds, kk, cc);
    assert ReportsOf(keybinds, kk) == (match ck.report case Some(rep) => [rep] case _ => []);
    assert ReportsOf(keybinds, cc) == (match cck.report case Some(rep) => [rep] case _ => []);
    assert Total(keybinds, kk) == ck.count;
    assert Total(keybinds, cc) == cck.count;
  }

  /** The reports and the record total of `a + b` are those of `a`, then `b`. */
  lemma {:induction false} NamedKeysConcat(keybinds: Index, a: seq<SymbolicKey>, b: seq<SymbolicKey>)
    ensures ReportsOf(keybinds, a + b) == ReportsOf(keybinds, a) + ReportsOf(keybinds, b)
    ensures Total(keybinds, a + b) == Total(keybinds, a) + Total(keybinds, b)
  {
    if |a| == 0 {
      assert a + b == b;
    } else {
      assert (a + b)[0] == a[0] && (a + b)[1..] == a[1..] + b;
      NamedKeysConcat(keybinds, a[1..], b);
    }
  }

  /** The report of each key in `ks` that has records, in order. */
  function ReportsOf(keybinds: Index, ks: seq<SymbolicKey>): seq<Report> {
    if |ks| == 0 then []
    else (if ks[0] in keybinds then [Report(ks[0], keybinds[ks[0]])] else []) + ReportsOf(keybinds, ks[1..])
  }

  /** How many records the keys in `ks` hold together. */
  function Total(keybinds: Index, ks: seq<SymbolicKey>): nat {
    if |ks| == 0 then 0 else |Records(keybinds, ks[0])| + Total(keybinds, ks[1..])
  }

  /** The record total of a list of keys is zero exactly when none of them
      holds a record. */
  lemma {:induction false} TotalZero(keybinds: Index, ks: seq<SymbolicKey>)
    ensures Total(keybinds, ks) == 0 <==> forall i :: 0 <= i < |ks| ==> Records(keybinds, ks[i]) == []
  {
    if |ks| > 0 {
      TotalZero(keybinds, ks[1..]);
      assert forall i :: 1 <= i < |ks| ==> ks[i] == ks[1..][i - 1];
    }
  }

  /** In a well-formed index a check reports its key exactly when it counts
      some records, so "no keys found" is never written beside a report. */
  lemma ReportOnlyWhenFound(keybinds: Index, kb: Keyboard, input: string)
    requires WellFormed(keybinds)
    ensures var a := AnswerQuery(keybinds, kb, input);
            && (a.keyboard.report.Some? <==> a.keyboard.count > 0)
            && (a.controller.report.Some? <==> a.controller.count > 0)
            && (a.verdict == KeysFound <==> Reports(a) != [])
  {
  }

  /** After reading `files` from an empty index, a key counts, and reports
      in file and line order, exactly the records the files bind to it. */
  lemma CountAfterReading(kb: Keyboard, files: seq<IniFile>, k: SymbolicKey)
    ensures var c := CountStored(IngestFiles(map[], kb, files), k);
            && c.count == |FileRecordsFrom(kb, k, files)|
            && (c.report.Some? <==> FileRecordsFrom(kb, k, files) != [])
            && (c.report.Some? ==> c.report.value.records == FileRecordsFrom(kb, k, files))
  {
    IngestFilesFromEmpty(kb, files);
  }

  /** Queries against the index built by reading `files` from an empty index:
      each check counts exactly the records the files bind to the key it names,
      and "no keys found" means that no line of any file binds a key the input
      names. */
  lemma QueryAfterReading(kb: Keyboard, files: seq<IniFile>, input: string)
    ensures var keybinds := IngestFiles(map[], kb, files);
            var a := AnswerQuery(keybinds, kb, input);
            && (a.keyboard.parsed ==>
                  a.keyboard.count == |FileRecordsFrom(kb, KeyboardKey(kb[Trim(input)]), files)|)
            && (a.controller.parsed ==>
                  a.controller.count == |FileRecordsFrom(kb, ControllerKey(ParseController(input).value), files)|)
            && (a.verdict == NoKeysFound <==>
                  Resolved(kb, input) != []
                  && forall i :: 0 <= i < |Resolved(kb, input)| ==> FileRecordsFrom(kb, Resolved(kb, input)[i], files) == [])
  {
    var keybinds := IngestFiles(map[], kb, files);
    var ks := Resolved(kb, input);
    if Trim(input) in kb {
      CountAfterReading(kb, files, KeyboardKey(kb[Trim(input)]));
    }
    if ParseController(input).Some? {
      CountAfterReading(kb, files, ControllerKey(ParseController(input).value));
    }
    TotalZero(keybinds, ks);
    forall i | 0 <= i < |ks| ensures Records(keybinds, ks[i]) == FileRecordsFrom(kb, ks[i], files) {
      IngestFilesRecords(map[], kb, files, ks[i]);
    }
  }

  // ---------------------------------------------------------------------------
  // Lookup mode
  // ---------------------------------------------------------------------------

  /** A key press as `Console.ReadKey` returns it: the name of the console key
      and the modifier keys held with it. */
  datatype KeyEvent = KeyEvent(key: string, alt: bool, shift: bool, control: bool)

  /** Console key names whose keyboard `Keys` name differs. */
  const WeirdKeys: map<string, string> := map[
    "Backspace" := "Back",
    "UpArrow" := "Up",
    "DownArrow" := "Down",
    "LeftArrow" := "Left",
    "RightArrow" := "Right",
    "Spacebar" := "Space",
    "OemComma" := "Oemcomma",
    "OemPlus" := "Oemplus",
    "OemTilde" := "Oemtilde"
  ]

  /** The line terminator `Console.WriteLine` writes on Windows. */
  const NewLine: string := "\r\n"

  /** What is written for the modifiers held with a press, ALT first, then
      SHIFT, then CTL. */
  function ModifierPrefix(e: KeyEvent): string {
    (if e.alt then "ALT + " else "") + (if e.shift then "SHIFT + " else "") + (if e.control then "CTL + " else "")
  }

  /** The press that leaves lookup mode. */
  predicate IsEscape(e: KeyEvent) {
    ToLower(e.key) == "escape"
  }

  /** The name to type in a binding for a console key. */
  function DisplayName(key: string): string {
    if key in WeirdKeys then WeirdKeys[key] else key
  }

  /** Everything lookup mode writes for `events`, up to and including the
      modifiers of the first escape press; nothing after it. */
  function Transcript(events: seq<KeyEvent>): string {
    if |events| == 0 then ""
    else if IsEscape(events[0]) then ModifierPrefix(events[0])
    else ModifierPrefix(events[0]) + DisplayName(events[0].key) + NewLine + Transcript(events[1..])
  }

  /** Lookup mode: reads presses until escape, writing for each its modifiers
      and then, unless it is escape, the name to type for it. Returns what was
      written, how many presses were read and whether escape ended the mode. */
  method KeyProbe(events: seq<KeyEvent>) returns (output: string, consumed: nat, exited: bool)
    ensures output == Transcript(events)
    ensures consumed <= |events|
    ensures exited ==> 0 < consumed && IsEscape(events[consumed - 1])
                       && forall i :: 0 <= i < consumed - 1 ==> !IsEscape(events[i])
    ensures !exited ==> consumed == |events| && forall i :: 0 <= i < |events| ==> !IsEscape(events[i])
  {
    output, consumed, exited := "", 0, false;
    while consumed < |events|
      invariant consumed <= |events|
      invariant forall i :: 0 <= i < consumed ==> !IsEscape(events[i])
      invariant output + Transcript(events[consumed..]) == Transcript(events)
    {
      var key := events[consumed];
      ProbeStep(events, consumed, output);
      consumed := consumed + 1;
      output := output + ModifierPrefix(key);
      if IsEscape(key) {
        exited := true;
        break;
      }
      output := output + DisplayName(key.key) + NewLine;
    }
    if !exited {
      assert events[consumed..] == [];
    }
  }

  /** One press of lookup mode keeps what is written a prefix of the
      transcript, and completes it at escape. */
  lemma ProbeStep(events: seq<KeyEvent>, i: nat, written: string)
    requires i < |events| && written + Transcript(events[i..]) == Transcript(events)
    ensures var key := events[i];
            if IsEscape(key) then written + ModifierPrefix(key) == Transcript(events)
            else written + ModifierPrefix(key) + DisplayName(key.key) + NewLine + Transcript(events[i + 1..])
                   == Transcript(events)
  {
    var key := events[i];
    TranscriptUnfold(events, i);
    if !IsEscape(key) {
      ConcatAssociates(written, ModifierPrefix(key), DisplayName(key.key), NewLine, Transcript(events[i + 1..]));
    }
  }

  lemma ConcatAssociates(a: string, b: string, c: string, d: string, e: string)
    ensures a + (b + c + d + e) == a + b + c + d + e
  {
  }

  /** What is written from press `i` on: that press, then the rest unless it
      was escape. */
  lemma TranscriptUnfold(events: seq<KeyEvent>, i: nat)
    requires i < |events|
    ensures Transcript(events[i..]) == if IsEscape(events[i]) then ModifierPrefix(events[i])
              else ModifierPrefix(events[i]) + DisplayName(events[i].key) + NewLine + Transcript(events[i + 1..])
  {
    assert events[i..][0] == events[i] && events[i..][1..] == events[i + 1..];
  }

  /** Presses after the first escape change nothing that is written. */
  lemma {:induction false} TranscriptStopsAtEscape(before: seq<KeyEvent>, escape: KeyEvent, after: seq<KeyEvent>)
    requires forall i :: 0 <= i < |before| ==> !IsEscape(before[i])
    requires IsEscape(escape)
    ensures Transcript(before + [escape] + after) == Transcript(before) + ModifierPrefix(escape)
  {
    var events := before + [escape] + after;
    if |before| == 0 {
      assert events[0] == escape;
    } else {
      assert events[0] == before[0];
      assert events[1..] == before[1..] + [escape] + after;
      TranscriptStopsAtEscape(before[1..], escape, after);
    }
  }

  /** The flags can be read back from the prefix: it starts with `A` when ALT
      was held, ends with `CTL + ` when CTL was, and is long enough to hold
      `SHIFT + ` exactly when SHIFT was. */
  lemma ModifierPrefixDecodes(e: KeyEvent)
    ensures var p := ModifierPrefix(e);
            && (e.alt <==> |p| > 0 && p[0] == 'A')
            && (e.control <==> |p| >= 6 && p[|p| - 6..] == "CTL + ")
            && (e.shift <==> |p| == (if e.alt then 6 else 0) + 8 + (if e.control then 6 else 0))
  {
    var p := ModifierPrefix(e);
    var front := (if e.alt then "ALT + " else "") + (if e.shift then "SHIFT + " else "");
    if e.control {
      assert p == front + "CTL + ";
      assert p[|p| - 6..] == "CTL + ";
    } else if e.shift {
      assert p[|p| - 6..] == "IFT + ";
    } else if e.alt {
      assert p == "ALT + ";
    }
  }

  /** The prefix tells exactly which modifiers were held. */
  lemma ModifierPrefixInjective(e: KeyEvent, f: KeyEvent)
    requires ModifierPrefix(e) == ModifierPrefix(f)
    ensures e.alt == f.alt && e.shift == f.shift && e.control == f.control
  {
    ModifierPrefixDecodes(e);
    ModifierPrefixDecodes(f);
  }
}
