/**
 * The two closed enumerations a binding can name: the WinForms keyboard `Keys`
 * enumeration and the program's own `ControllerKeybind`, and `Enum.TryParse`
 * resolution against each of them.
 */
module KeyNames {

  import opened Wrappers
  import opened Text

  /** The `ControllerKeybind` enumeration, in declaration order. */
  datatype ControllerKeybind =
    | None
    | DPadUp
    | DPadDown
    | DPadLeft
    | DPadRight
    | Start
    | Back
    | LeftThumb
    | RightThumb
    | LeftShoulder
    | RightShoulder
    | A
    | B
    | X
    | Y

  /** Every controller button, in declaration order. */
  const AllControllerKeybinds: seq<ControllerKeybind> := [
    ControllerKeybind.None, DPadUp, DPadDown, DPadLeft, DPadRight, Start, Back,
    LeftThumb, RightThumb, LeftShoulder, RightShoulder, A, B, X, Y
  ]

  /** The numeric value of a controller button: its position in the declaration. */
  function ControllerValue(c: ControllerKeybind): (v: nat)
    ensures v < |AllControllerKeybinds| && AllControllerKeybinds[v] == c
  {
    match c
    case None => 0
    case DPadUp => 1
    case DPadDown => 2
    case DPadLeft => 3
    case DPadRight => 4
    case Start => 5
    case Back => 6
    case LeftThumb => 7
    case RightThumb => 8
    case LeftShoulder => 9
    case RightShoulder => 10
    case A => 11
    case B => 12
    case X => 13
    case Y => 14
  }

  /** The identifier of a controller button, as `ToString()` spells it. */
  function ControllerName(c: ControllerKeybind): string {
    match c
    case None => "None"
    case DPadUp => "DPadUp"
    case DPadDown => "DPadDown"
    case DPadLeft => "DPadLeft"
    case DPadRight => "DPadRight"
    case Start => "Start"
    case Back => "Back"
    case LeftThumb => "LeftThumb"
    case RightThumb => "RightThumb"
    case LeftShoulder => "LeftShoulder"
    case RightShoulder => "RightShoulder"
    case A => "A"
    case B => "B"
    case X => "X"
    case Y => "Y"
  }

  /** The keyboard `Keys` enumeration: each of its names with its numeric value.
      Several names may share one value (`Enter` and `Return`, for one), and then
      they are the same key. The enumeration itself is a parameter of the model. */
  type Keyboard = map<string, int>

  /** A key an index entry can be filed under. Keyboard keys are compared by
      value, as boxed enumeration values are; a keyboard key never equals a
      controller button, because their enumeration types differ. */
  datatype SymbolicKey =
    | KeyboardKey(code: int)
    | ControllerKey(button: ControllerKeybind)

  /** The first controller button in `cs` whose name is `s`. */
  function FindController(cs: seq<ControllerKeybind>, s: string): (r: Option<ControllerKeybind>)
    ensures r.Some? ==> r.value in cs && ControllerName(r.value) == s
    ensures !r.Some? ==> forall i :: 0 <= i < |cs| ==> ControllerName(cs[i]) != s
  {
    if |cs| == 0 then Option.None
    else if ControllerName(cs[0]) == s then Some(cs[0])
    else FindController(cs[1..], s)
  }

  /** `Enum.TryParse<ControllerKeybind>`: the input, with surrounding whitespace
      ignored, must spell a button's name exactly (the match is case-sensitive). */
  function ParseController(s: string): (r: Option<ControllerKeybind>)
    ensures r.Some? ==> ControllerName(r.value) == Trim(s)
    ensures !r.Some? ==> forall c :: ControllerName(c) != Trim(s)
  {
    var r := FindController(AllControllerKeybinds, Trim(s));
    if !r.Some? then
      forall c ensures ControllerName(c) != Trim(s) {
        assert AllControllerKeybinds[ControllerValue(c)] == c;
      }
      r
    else r
  }

  /** `Enum.TryParse<Keys>`, by name: surrounding whitespace ignored, exact,
      case-sensitive match. */
  function ParseKeyboard(kb: Keyboard, s: string): (r: Option<int>)
    ensures r.Some? <==> Trim(s) in kb
    ensures r.Some? ==> r.value == kb[Trim(s)]
  {
    var t := Trim(s);
    if t in kb then Some(kb[t]) else Option.None
  }

  /** The resolution `IniReader.ReadIni` applies to a value: the keyboard
      enumeration first, the controller enumeration only when that fails. */
  function Resolve(kb: Keyboard, s: string): (r: Option<SymbolicKey>)
    ensures Trim(s) in kb ==> r == Some(KeyboardKey(kb[Trim(s)]))
    ensures Trim(s) !in kb ==> (r.Some? <==> ParseController(s).Some?)
    ensures Trim(s) !in kb && r.Some? ==> r.value == ControllerKey(ParseController(s).value)
  {
    match ParseKeyboard(kb, s)
    case Some(code) => Some(KeyboardKey(code))
    case None =>
      match ParseController(s)
      case Some(c) => Some(ControllerKey(c))
      case None => Option.None
  }

  /** Whitespace around a value does not change the keyboard key it names. */
  lemma ParseKeyboardIgnoresPadding(kb: Keyboard, w: string, n: string, w': string)
    requires AllWhiteSpace(w) && AllWhiteSpace(w')
    ensures ParseKeyboard(kb, w + n + w') == ParseKeyboard(kb, n)
  {
    TrimIgnoresPadding(w, n, w');
  }

  /** Whitespace around a value does not change the button it names. */
  lemma ParseControllerIgnoresPadding(w: string, n: string, w': string)
    requires AllWhiteSpace(w) && AllWhiteSpace(w')
    ensures ParseController(w + n + w') == ParseController(n)
  {
    TrimIgnoresPadding(w, n, w');
  }

  /** Names spelled identically in both enumerations resolve to the keyboard key. */
  lemma KeyboardTakesPrecedence(kb: Keyboard, c: ControllerKeybind)
    requires ControllerName(c) in kb
    ensures ParseController(ControllerName(c)) == Some(c)
    ensures Resolve(kb, ControllerName(c)) == Some(KeyboardKey(kb[ControllerName(c)]))
  {
    ParseControllerName(c);
  }

  /** Controller names carry no surrounding whitespace. */
  lemma ControllerNameTrimmed(c: ControllerKeybind)
    ensures Trim(ControllerName(c)) == ControllerName(c)
  {
    var n := ControllerName(c);
    ControllerNameLetters(c);
    LetterNotWhiteSpace(n[0]);
    LetterNotWhiteSpace(n[|n| - 1]);
    TrimUnpadded(n);
  }

  predicate IsAsciiLetter(ch: char) {
    'A' <= ch <= 'Z' || 'a' <= ch <= 'z'
  }

  lemma LetterNotWhiteSpace(ch: char)
    requires IsAsciiLetter(ch)
    ensures !IsWhiteSpace(ch)
  {
  }

  /** Controller names are made of letters only. */
  lemma ControllerNameLetters(c: ControllerKeybind)
    ensures var n := ControllerName(c); |n| > 0 && forall i :: 0 <= i < |n| ==> IsAsciiLetter(n[i])
  {
  }

  /** No controller name reads as an integer. */
  lemma ControllerNameNotInteger(c: ControllerKeybind)
    ensures ParseInt32(ControllerName(c)).None?
  {
    var n := ControllerName(c);
    ControllerNameLetters(c);
    assert forall i :: 0 <= i < |n| ==> !IsDigit(n[i]);
  }

  /** No two controller buttons share a name. */
  lemma ControllerNamesDistinct()
    ensures forall c, d :: ControllerName(c) == ControllerName(d) ==> c == d
  {
  }

  /** Every button's own name parses back to that button. */
  lemma ParseControllerName(c: ControllerKeybind)
    ensures ParseController(ControllerName(c)) == Some(c)
  {
    ControllerNameTrimmed(c);
    ControllerNamesDistinct();
  }
}
