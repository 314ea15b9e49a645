# KeybindFinder in Dafny

KeybindFinder is a console tool for a game's plugin directory. It reads every
`*.ini` file it finds. Each `setting = Key` line becomes a record filed under the
key it names, in a dictionary from keys to lists of records. The user then types
a key name and sees every setting bound to that key and the file that binds it.
A `lookup` mode prints the name to type for a key as it is pressed. A
`modifiers` command lists the names of the modifier keys.

This project models that core in Dafny and proves what it does.

- `wrappers.dfy`, module `Wrappers`: the `Option` type that stands for .NET's
  `TryParse` results.
- `text.dfy`, module `Text`: the .NET string operations the program relies on.
  These are `String.Trim` (with the `char.IsWhiteSpace` set), `String.Split`
  on separator characters, ASCII `ToLower` and `int.TryParse`. Each comes with
  its characterising lemmas, such as the split/join round trip and the
  decimal round trip.
- `key_names.dfy`, module `KeyNames`: the two enumerations a value can name.
  - The program's `ControllerKeybind` is written out with its 15 buttons.
  - The WinForms `Keys` enumeration is a parameter: a map from names to
    numeric values, so aliases share a key.
  - `Enum.TryParse` on each enumeration, and the keyboard-first resolution
    the reader applies.
- `paths.dfy`, module `Paths`: `Program.GetFileNameWithTwoFolders` and the
  `Path` operations it is built from, on Windows paths where `\` and `/` both
  separate directories.
- `ini_reader.dfy`, module `IniReader`: the binding index.
  - Pure functions give the index that results from reading lines and files.
  - Lemmas state the per-line rules and the order and well-formedness of the
    lists.
  - The class `BindingIndex` holds the dictionary as a mutable field. Its
    methods `ReadIni`, `ReadLine`, `Append` and `ReadAll` update it in place,
    as the program's static `keybinds` dictionary is updated. Each method is
    proved to leave exactly the index the functions describe.
- `queries.dfy`, module `Queries`: the decisions of the interactive loop.
  - Command recognition.
  - The `CheckKeys` / `CheckControllerKeys` queries and their verdict, with
    a lemma tying a query to the configuration files that were read.
  - Lookup mode, as a loop over a given sequence of key presses.

The lines a file holds, the key presses and the typed input are parameters.
What would be written to the console is returned as values.

## Model

| member | source | states |
|---|---|---|
| `Text.Trim` | Program.cs:250 | the trimmed value neither starts nor ends with a whitespace character |
| `Text.IsWhiteSpace` | Program.cs:250 | the characters `char.IsWhiteSpace` accepts: the Unicode space separators, U+0009 to U+000D, U+0085, U+2028 and U+2029; `TrimRemovesOnlyWhiteSpace` shows that trimming removes these and only these |
| `Text.TrimRemovesOnlyWhiteSpace` | Program.cs:250 | trimming removes only a whitespace prefix and a whitespace suffix: the result sits in the input between them |
| `Text.TrimIdempotent` | Program.cs:250-253 | trimming an already trimmed value changes nothing, so the value `Enum.TryParse` trims again is the value the reader trimmed |
| `Text.Split` | Program.cs:247 | splitting yields one more piece than there are separators, and no piece contains a separator |
| `Text.JoinSplit` | Program.cs:247 | no character is lost: joining the pieces with `=` gives back the line |
| `Text.SplitJoin` | Program.cs:220 | splitting separator-free pieces joined by a separator gives back those pieces |
| `Text.SplitAtSeparator` | Program.cs:220 | splitting distributes over a separator occurrence |
| `Text.ToLower` | Program.cs:80 | the lower-cased input keeps its length and holds no upper-case ASCII letter; what the command comparison relies on is stated by `ToLowerIdempotent`, `Queries.LowerEquals` and `Queries.CommandIgnoresCase` |
| `Text.ToLowerIdempotent` | Program.cs:80 | lower-casing an already lower-cased input changes nothing |
| `Text.TrimIgnoresPadding` | Program.cs:250 | whitespace added on either side of a value does not change its trim |
| `Text.ParseInt32` | Program.cs:251 | a parsed integer lies in the 32-bit signed range, and the input contains a digit |
| `Text.ParseDecimalString` | Program.cs:251 | every 32-bit integer written in decimal is read back as itself, so such values are always skipped |
| `KeyNames.ControllerValue` | Program.cs:11-28 | each button's numeric value is its position in the declaration |
| `KeyNames.ParseController` | Program.cs:263 | a value parses as a button exactly when its trimmed text is that button's name (case-sensitive); otherwise no button has that name |
| `KeyNames.ParseControllerName` | Program.cs:11-28 | every button's own name parses back to that button |
| `KeyNames.ParseKeyboard` | Program.cs:253 | `Enum.TryParse<Keys>` by name; what it means for a caller is stated by `ParseKeyboardIgnoresPadding`, `KeyboardTakesPrecedence` and the per-value lemmas `KeyboardValue` and `UnknownValue` |
| `KeyNames.ParseKeyboardIgnoresPadding` | Program.cs:250-253 | whitespace around a value does not change the keyboard key it names |
| `KeyNames.ParseControllerIgnoresPadding` | Program.cs:250-263 | whitespace around a value does not change the button it names |
| `KeyNames.Resolve` | Program.cs:253-271 | the keyboard enumeration first, then the controller one; its contract for callers is stated by `KeyboardTakesPrecedence`, `IniReader.KeyboardValue`, `IniReader.ControllerButtonValue` and `IniReader.UnknownValue` |
| `KeyNames.KeyboardTakesPrecedence` | Program.cs:253-263 | a name in both enumerations (A, B, X, Y, Back, None) resolves to the keyboard key |
| `KeyNames.ControllerNameNotInteger` | Program.cs:251 | no button name reads as an integer, so the integer filter never hides a button |
| `Paths.GetFileName` | Program.cs:212 | the file name has no separator and is a suffix of the path |
| `Paths.GetDirectoryName` | Program.cs:213 | what precedes the last separator; its contract is stated by `DirectoryAndFileName` |
| `Paths.DirectoryAndFileName` | Program.cs:212-213 | a path without a separator has an empty directory and is its own file name; otherwise the path is its directory, one separator and its file name |
| `Paths.Combine` | Program.cs:226-227 | the combination ends with its second component |
| `Paths.GetFileNameWithTwoFolders` | Program.cs:210-231 | the label of a file; its contract is stated by `LabelEndsWithFileName`, `LabelOfTwoFolders`, `LabelOfOneFolder` and `LabelOfFileName` below |
| `Paths.LabelEndsWithFileName` | Program.cs:210-231 | every label ends with the file name and holds at most two separators |
| `Paths.LabelOfTwoFolders` | Program.cs:220-228 | with at least two directory segments the label is the last two segments and the file name, joined by `\` |
| `Paths.LabelOfOneFolder` | Program.cs:224-230 | with a single directory segment the label is the file name alone |
| `Paths.LabelOfFileName` | Program.cs:212-217 | a bare file name is its own label |
| `IniReader.SplitAssignmentCutsAtEquals` | Program.cs:245-248 | a line is accepted exactly when it holds a single `=`, and is cut at it into two `=`-free sides |
| `IniReader.ParseAssignment` | Program.cs:245-248 | `setting=value` with `=`-free sides splits back into those sides |
| `IniReader.NotAnAssignment` | Program.cs:245-248 | a line with no `=` or with two or more leaves the index unchanged |
| `IniReader.SplitAssignment` | Program.cs:245-248 | the `Contains("=")` and `Split('=')` guard; its contract is stated by `SplitAssignmentCutsAtEquals`, `ParseAssignment` and `NotAnAssignment` |
| `IniReader.BindingRecord` | Program.cs:252 | the record filed for a binding; `KeyboardValue` and `ControllerButtonValue` state where it is filed |
| `IniReader.ValueBinding` | Program.cs:250-271 | what a trimmed value binds: nothing for an integer, else the keyboard key, else the button; stated by `IntegerValue`, `KeyboardValue`, `ControllerButtonValue`, `UnknownValue` and `KeyboardBeforeController` |
| `IniReader.LineBinding` | Program.cs:245-271 | what one line binds, if anything; stated by the same lemmas for `setting=value` lines and by `NotAnAssignment` for the others |
| `IniReader.IngestLine` | Program.cs:245-271 | the index after one line: the bound record appended to its key's list, or the index unchanged; stated by the per-line lemmas and implemented by `BindingIndex.ReadLine` |
| `IniReader.IntegerValue` | Program.cs:250-251 | a value that parses as an integer leaves the index unchanged |
| `IniReader.KeyboardValue` | Program.cs:252-261 | a value naming a keyboard key appends exactly the record `[label] setting` to the end of that key's list, and changes nothing else |
| `IniReader.ControllerButtonValue` | Program.cs:263-271 | a value naming no keyboard key but a button appends the record to that button's list, and changes nothing else |
| `IniReader.UnknownValue` | Program.cs:253-271 | a value naming neither a keyboard key nor a button leaves the index unchanged |
| `IniReader.KeyboardBeforeController` | Program.cs:253-263 | a name in both enumerations is filed under the keyboard key, and the button's list is untouched |
| `IniReader.IngestLinesRecords` | Program.cs:243-271 | reading lines appends to each key's list the records those lines bind to it, in line order; lists only grow |
| `IniReader.IngestLinesWellFormed` | Program.cs:255-260 | every present key has a non-empty list, and a key becomes present exactly when some line binds to it |
| `IniReader.IngestLinesConcat` | Program.cs:243 | reading `a` and then `b` is reading `a + b` |
| `IniReader.IngestLines` | Program.cs:243-272 | the index after a file's lines in order; stated by `IngestLinesRecords`, `IngestLinesWellFormed` and `IngestLinesConcat`, and implemented by `BindingIndex.ReadIni` |
| `IniReader.IngestFilesRecords` | Program.cs:188-192 | reading files appends each key's records in file order, then line order |
| `IniReader.IngestFilesFromEmpty` | Program.cs:238 | starting from the empty dictionary, a key is present exactly when some line of some file binds to it, and holds exactly those records in order |
| `IniReader.IngestFiles` | Program.cs:188-192 | the index after the files in order; stated by `IngestFilesRecords` and `IngestFilesFromEmpty`, and implemented by `BindingIndex.ReadAll` |
| `IniReader.BindingIndex.constructor` | Program.cs:238 | the dictionary starts empty |
| `IniReader.BindingIndex.ReadIni` | Program.cs:240-275 | reading a file leaves the index that reading its lines under the file's label gives; each key's list gains that file's records at its end |
| `IniReader.BindingIndex.ReadLine` | Program.cs:245-271 | one pass of the loop leaves exactly the index the line rules give |
| `IniReader.BindingIndex.Append` | Program.cs:255-261 | a record is added at the end of its key's list, which is created when the key is new; no other key changes |
| `IniReader.BindingIndex.ReadAll` | Program.cs:188-192 | reading files one after another leaves the index the file fold gives |
| `Queries.ParseCommand` | Program.cs:80-91 | `quit`, `modifiers` and `lookup` are recognised exactly when the input equals them up to letter case; any other input is a query of the text as typed |
| `Queries.LowerEquals` | Program.cs:80-91 | lower-casing an input gives a lower-case command word exactly when the input is that word up to ASCII case |
| `Queries.CommandIgnoresCase` | Program.cs:80-91 | inputs that differ only in letter case are the same command |
| `Queries.ModifierLines` | Program.cs:47-55 | the table the `modifiers` command writes; no property beyond its layout is claimed |
| `Queries.CountStored` | Program.cs:151-157 | the check of a key the input names; its contract for callers is stated by `AnswerQuery`, `ReportOnlyWhenFound` and `QueryAfterReading` |
| `Queries.CheckKeys` | Program.cs:160-171 | the keyboard check of a query; its contract for callers is stated by `AnswerQuery`, `ReportOnlyWhenFound` and `QueryAfterReading` |
| `Queries.CheckControllerKeys` | Program.cs:148-159 | parsed exactly when the input names a button, and then counts that button's records; otherwise `(false, 0)` |
| `Queries.AnswerQuery` | Program.cs:119-130 | the input is an invalid keybind exactly when it names no key; "no keys found" exactly when it names one and the named keys hold no records; otherwise the named keys are reported in order, keyboard first, and the two counts add up to their records |
| `Queries.ReportOnlyWhenFound` | Program.cs:151-167 | in a well-formed index a check reports its key exactly when it counts records |
| `Queries.QueryAfterReading` | Program.cs:119-130 | against the index built from the files, each check counts exactly the records the files bind to its key, and "no keys found" means that no file binds any key the input names |
| `Queries.KeyProbe` | Program.cs:99-114 | lookup mode writes exactly the transcript of the presses. It stops at the first escape, after writing that press's modifiers. It reads every press when none is escape |
| `Queries.Transcript` | Program.cs:99-114 | what lookup mode writes for a sequence of presses; `KeyProbe` is proved to write exactly it, and `TranscriptStopsAtEscape` states where it ends |
| `Queries.IsEscape` | Program.cs:105 | the press whose key name, lower-cased, is `escape`; `KeyProbe` stops exactly at the first such press |
| `Queries.ModifierPrefix` | Program.cs:102-104 | the modifiers written before each press; stated by `ModifierPrefixDecodes` and `ModifierPrefixInjective` |
| `Queries.DisplayName` | Program.cs:106-113 | the replacement name for a key in the table, else the key's own name; what lookup mode writes with it is stated by `KeyProbe` and `TranscriptStopsAtEscape` |
| `Queries.TranscriptStopsAtEscape` | Program.cs:101-105 | presses after the first escape change nothing; the escape press still has its modifiers written |
| `Queries.ModifierPrefixDecodes` | Program.cs:102-104 | the prefix begins with ALT when Alt is held, ends with CTL when Control is held, and has room for SHIFT exactly when Shift is held |
| `Queries.ModifierPrefixInjective` | Program.cs:102-104 | the written prefix tells exactly which modifiers were held |

## Left out

- Console input and output are not modelled as I/O. The typed line, the key
  presses and a file's lines are parameters. What is written is returned.
  This covers `Console.ReadLine`, `Console.ReadKey`, the outer `while (true)`
  loop, `WriteLineInColor` with its dependence on the console width, the
  `BoldText` escape sequence, and the separator lines.
- `SearchFiles` is modelled only as `ReadAll`, a fold of `ReadIni` over a given
  sequence of files. Directory enumeration, recursion into subdirectories,
  their order, and the caught exceptions are file-system behaviour.
- `File.ReadAllLines` is left out. A file is its path and its given lines.
- `IniReader.PrintDictionary` is debugging output that nothing calls.
- The commented-out check that the program runs in the game directory is left out.
- A `null` line from `Console.ReadLine` at end of input crashes the program. It is not modelled.
- `KeyNames.ParseKeyboard` and `KeyNames.ParseController` accept only names.
  `Enum.TryParse` also accepts numeric strings and comma-separated lists of
  names. For `ReadIni` this matters only for comma lists, because integer
  values are skipped before the enumeration is tried. For a typed query, a
  number or a comma list can still name a key.
- `KeyNames.ParseKeyboard`: the WinForms `Keys` enumeration is not part of this
  model. It is the parameter `kb`, a map from each name to its value.
- `Text.ParseInt32`: the model accepts an optional `+` or `-` followed by ASCII
  digits in the 32-bit range. Culture-specific signs and the whitespace that
  `int.TryParse` allows are not modelled. The value it reads is already trimmed.
- `Text.ToLower` lower-cases ASCII letters only. Non-ASCII letters are not
  lower-cased, and culture-sensitive lower-casing is not modelled. Some
  non-ASCII letters lower-case to ASCII ones: U+212A KELVIN SIGN becomes `k`
  and U+0130 becomes `i`. So an input such as `LOO` U+212A `UP` is the
  `lookup` command in the program but a query in the model. Under a Turkish
  culture `I` lower-cases to dotless `ı`, so `QUIT` and `MODIFIERS` typed with
  a capital `I` are not commands there, while the model recognises them;
  `lookup` and `escape` are unaffected.
- `Paths.GetFileName` and `Paths.Combine` model only the plain rules: cut at
  the last separator, and join with `\`. These are not modelled:
  - root paths, for which `Path.GetDirectoryName` keeps the trailing separator
    or gives `null`;
  - drive-relative joining, where `Path.Combine("C:", "x")` adds no separator;
  - the normalisation of doubled separators.
- `IniReader.BindingIndex.ReadIni` computes the file's label once. The program
  computes the same label again for every line.
- Keys are compared by enumeration value, as boxed `Enum` keys are, so two
  `Keys` names with one value share a list. `Enum.ToString` names in the
  "Found … keys for …" message are not modelled. A report carries the key itself.

## Notes

Two behaviours of the program worth knowing:
- A path with fewer than two directory segments is labelled by its file name
  alone (Program.cs:224-230). So `a/settings.ini` is labelled `settings.ini`.
- A line is used only when it holds exactly one `=` (Program.cs:247-248). It is
  not cut at its first `=`.
