/**
 * The .NET string primitives the key-binding finder relies on: `String.Trim`,
 * `String.Split(char[])`, `String.ToLower` and `int.TryParse`, each modelled on
 * `string`, a sequence of characters. A .NET string is a sequence of UTF-16
 * code units, while a Dafny `char` is a Unicode scalar value; the difference
 * (surrogate pairs) plays no part in the operations modelled here.
 */
module Text {

  import opened Wrappers

  // ---------------------------------------------------------------------------
  // Whitespace and String.Trim
  // ---------------------------------------------------------------------------

  /** `char.IsWhiteSpace`: the Unicode space separators, the line and paragraph
      separators, U+0009..U+000D and U+0085. */
  predicate IsWhiteSpace(c: char) {
    || c == ' '
    || ('\t' <= c <= '\r')
    || c == '\U{85}'
    || c == '\U{A0}'
    || c == '\U{1680}'
    || ('\U{2000}' <= c <= '\U{200A}')
    || c == '\U{2028}'
    || c == '\U{2029}'
    || c == '\U{202F}'
    || c == '\U{205F}'
    || c == '\U{3000}'
  }

  predicate AllWhiteSpace(s: string) {
    forall i :: 0 <= i < |s| ==> IsWhiteSpace(s[i])
  }

  /** Number of whitespace characters at the start of `s`. */
  function LeadingWhiteSpace(s: string): (n: nat)
    ensures n <= |s|
    ensures forall i :: 0 <= i < n ==> IsWhiteSpace(s[i])
    ensures n < |s| ==> !IsWhiteSpace(s[n])
  {
    if |s| == 0 || !IsWhiteSpace(s[0]) then 0
    else 1 + LeadingWhiteSpace(s[1..])
  }

  /** Number of whitespace characters at the end of `s`. */
  function TrailingWhiteSpace(s: string): (n: nat)
    ensures n <= |s|
    ensures forall i :: |s| - n <= i < |s| ==> IsWhiteSpace(s[i])
    ensures n < |s| ==> !IsWhiteSpace(s[|s| - 1 - n])
  {
    if |s| == 0 || !IsWhiteSpace(s[|s| - 1]) then 0
    else 1 + TrailingWhiteSpace(s[..|s| - 1])
  }

  /** `String.Trim()`: `s` with every leading and trailing whitespace removed.
      The result neither starts nor ends with whitespace. */
  function Trim(s: string): (r: string)
    ensures r == [] || (!IsWhiteSpace(r[0]) && !IsWhiteSpace(r[|r| - 1]))
  {
    var i := LeadingWhiteSpace(s);
    var t := s[i..];
    t[..|t| - TrailingWhiteSpace(t)]
  }

  /** What trimming removes is whitespace only: `s` is a whitespace prefix,
      then the result, then a whitespace suffix. */
  lemma TrimRemovesOnlyWhiteSpace(s: string)
    ensures var i, r := LeadingWhiteSpace(s), Trim(s);
            && i + |r| <= |s| && s[i..i + |r|] == r
            && AllWhiteSpace(s[..i]) && AllWhiteSpace(s[i + |r|..])
  {
    var i := LeadingWhiteSpace(s);
    var t := s[i..];
    var n := TrailingWhiteSpace(t);
    var r := t[..|t| - n];
    assert r == Trim(s);
    assert s[i..i + |r|] == r;
    assert AllWhiteSpace(s[i + |r|..]) by {
      assert s[i + |r|..] == t[|t| - n..];
    }
  }

  /** A string that neither starts nor ends with whitespace is its own trim. */
  lemma TrimUnpadded(s: string)
    requires s == [] || (!IsWhiteSpace(s[0]) && !IsWhiteSpace(s[|s| - 1]))
    ensures Trim(s) == s
  {
    assert LeadingWhiteSpace(s) == 0;
    assert TrailingWhiteSpace(s[0..]) == 0;
    assert s[0..][..|s|] == s;
  }

  /** Trimming a trimmed string changes nothing. */
  lemma TrimIdempotent(s: string)
    ensures Trim(Trim(s)) == Trim(s)
  {
    TrimUnpadded(Trim(s));
  }

  /** `LeadingWhiteSpace` is the unique count of leading whitespace. */
  lemma LeadingWhiteSpaceIs(s: string, k: nat)
    requires k <= |s| && (forall i :: 0 <= i < k ==> IsWhiteSpace(s[i]))
    requires k < |s| ==> !IsWhiteSpace(s[k])
    ensures LeadingWhiteSpace(s) == k
  {
    var n := LeadingWhiteSpace(s);
    if n != k {
      assert false;
    }
  }

  /** `TrailingWhiteSpace` is the unique count of trailing whitespace. */
  lemma TrailingWhiteSpaceIs(s: string, k: nat)
    requires k <= |s| && (forall i :: |s| - k <= i < |s| ==> IsWhiteSpace(s[i]))
    requires k < |s| ==> !IsWhiteSpace(s[|s| - 1 - k])
    ensures TrailingWhiteSpace(s) == k
  {
    var n := TrailingWhiteSpace(s);
    if n != k {
      assert false;
    }
  }

  /** Trimming a string without surrounding whitespace, padded by whitespace
      on both sides, gives back that string. */
  lemma TrimPadded(w: string, n: string, w': string)
    requires AllWhiteSpace(w) && AllWhiteSpace(w')
    requires n == [] || (!IsWhiteSpace(n[0]) && !IsWhiteSpace(n[|n| - 1]))
    ensures Trim(w + n + w') == n
  {
    var s := w + n + w';
    if n == [] {
      assert forall i :: 0 <= i < |s| ==> IsWhiteSpace(s[i]) by {
        assert s == w + w';
      }
      LeadingWhiteSpaceIs(s, |s|);
    } else {
      assert s[|w|] == n[0];
      LeadingWhiteSpaceIs(s, |w|);
      var t := s[|w|..];
      assert t == n + w';
      assert t[|t| - 1 - |w'|] == n[|n| - 1];
      TrailingWhiteSpaceIs(t, |w'|);
      assert t[..|n|] == n;
    }
  }

  /** Whitespace added around a string does not change its trim. */
  lemma TrimIgnoresPadding(w: string, n: string, w': string)
    requires AllWhiteSpace(w) && AllWhiteSpace(w')
    ensures Trim(w + n + w') == Trim(n)
  {
    TrimRemovesOnlyWhiteSpace(n);
    var i, r := LeadingWhiteSpace(n), Trim(n);
    var pre, post := n[..i], n[i + |r|..];
    assert n == pre + r + post by {
      assert n == n[..i] + n[i..i + |r|] + n[i + |r|..];
    }
    Regroup(w, pre, r, post, w');
    WhiteSpaceConcat(w, pre);
    WhiteSpaceConcat(post, w');
    TrimPadded(w + pre, r, post + w');
  }

  lemma WhiteSpaceConcat(a: string, b: string)
    requires AllWhiteSpace(a) && AllWhiteSpace(b)
    ensures AllWhiteSpace(a + b)
  {
    assert forall i :: |a| <= i < |a + b| ==> (a + b)[i] == b[i - |a|];
  }

  lemma Regroup<T>(w: seq<T>, pre: seq<T>, r: seq<T>, post: seq<T>, w': seq<T>)
    ensures w + (pre + r + post) + w' == (w + pre) + r + (post + w')
  {
  }

  lemma AppendAssociates<T>(a: seq<T>, b: seq<T>, c: seq<T>)
    ensures (a + b) + c == a + (b + c)
  {
  }

  // ---------------------------------------------------------------------------
  // String.Split on a set of separator characters
  // ---------------------------------------------------------------------------

  /** How many characters of `s` are separators. */
  function CountIn(s: string, seps: set<char>): nat {
    if |s| == 0 then 0
    else (if s[0] in seps then 1 else 0) + CountIn(s[1..], seps)
  }

  predicate NoneIn(s: string, seps: set<char>) {
    forall i :: 0 <= i < |s| ==> s[i] !in seps
  }

  /** `s.Split(seps)`: the pieces between separators, empty pieces kept. */
  function Split(s: string, seps: set<char>): (parts: seq<string>)
    ensures |parts| == CountIn(s, seps) + 1
    ensures forall k :: 0 <= k < |parts| ==> NoneIn(parts[k], seps)
  {
    if |s| == 0 then [""]
    else
      var rest := Split(s[1..], seps);
      if s[0] in seps then [""] + rest
      else [[s[0]] + rest[0]] + rest[1..]
  }

  lemma {:induction false} CountInConcat(x: string, y: string, seps: set<char>)
    ensures CountIn(x + y, seps) == CountIn(x, seps) + CountIn(y, seps)
  {
    if |x| > 0 {
      assert (x + y)[0] == x[0] && (x + y)[1..] == x[1..] + y;
      CountInConcat(x[1..], y, seps);
    } else {
      assert x + y == y;
    }
  }

  lemma {:induction false} NoSeparatorsCounted(s: string, seps: set<char>)
    requires NoneIn(s, seps)
    ensures CountIn(s, seps) == 0
  {
    if |s| > 0 {
      NoSeparatorsCounted(s[1..], seps);
    }
  }

  /** The inverse of splitting on a single separator `c`. */
  function Join(parts: seq<string>, c: char): string
    requires |parts| > 0
  {
    if |parts| == 1 then parts[0]
    else parts[0] + [c] + Join(parts[1..], c)
  }

  lemma {:induction false} CountInPositive(s: string, seps: set<char>)
    ensures CountIn(s, seps) > 0 <==> exists i :: 0 <= i < |s| && s[i] in seps
  {
    if |s| > 0 {
      CountInPositive(s[1..], seps);
      assert forall i :: 1 <= i < |s| ==> s[i] == s[1..][i - 1];
    }
  }

  /** Splitting never loses a character: joining the pieces gives back `s`. */
  lemma {:induction false} JoinSplit(s: string, c: char)
    ensures Join(Split(s, {c}), c) == s
  {
    if |s| > 0 {
      var rest := Split(s[1..], {c});
      JoinSplit(s[1..], c);
      if s[0] == c {
        assert Split(s, {c})[1..] == rest;
      } else if |rest| > 1 {
        var parts := Split(s, {c});
        assert parts[1..] == rest[1..];
        assert Join(rest, c) == rest[0] + [c] + Join(rest[1..], c);
        assert Join(parts, c) == [s[0]] + rest[0] + [c] + Join(rest[1..], c);
      }
    }
  }

  /** A string without separators is a single piece. */
  lemma {:induction false} SplitNoSeparator(s: string, seps: set<char>)
    requires NoneIn(s, seps)
    ensures Split(s, seps) == [s]
  {
    if |s| > 0 {
      assert s[0] !in seps;
      SplitNoSeparator(s[1..], seps);
      assert [s[0]] + s[1..] == s;
    }
  }

  /** Splitting distributes over a separator occurrence. */
  lemma {:induction false} SplitAtSeparator(x: string, c: char, y: string, seps: set<char>)
    requires c in seps
    ensures Split(x + [c] + y, seps) == Split(x, seps) + Split(y, seps)
  {
    var s := x + [c] + y;
    if |x| == 0 {
      assert s[1..] == y;
    } else {
      assert s[0] == x[0];
      assert s[1..] == x[1..] + [c] + y;
      SplitAtSeparator(x[1..], c, y, seps);
    }
  }

  /** The pieces of a joined sequence of separator-free strings are those strings. */
  lemma {:induction false} SplitJoin(parts: seq<string>, c: char, seps: set<char>)
    requires |parts| > 0 && c in seps
    requires forall k :: 0 <= k < |parts| ==> NoneIn(parts[k], seps)
    ensures Split(Join(parts, c), seps) == parts
  {
    if |parts| == 1 {
      SplitNoSeparator(parts[0], seps);
    } else {
      SplitJoin(parts[1..], c, seps);
      SplitNoSeparator(parts[0], seps);
      SplitAtSeparator(parts[0], c, Join(parts[1..], c), seps);
    }
  }

  // ---------------------------------------------------------------------------
  // String.ToLower, restricted to ASCII letters
  // ---------------------------------------------------------------------------

  function ToLowerChar(c: char): char {
    if 'A' <= c <= 'Z' then (c as int + 32) as char else c
  }

  function ToLower(s: string): (r: string)
    ensures |r| == |s|
    ensures forall i :: 0 <= i < |s| ==> r[i] == ToLowerChar(s[i])
    ensures forall i :: 0 <= i < |r| ==> !('A' <= r[i] <= 'Z')
  {
    seq(|s|, i requires 0 <= i < |s| => ToLowerChar(s[i]))
  }

  /** Lower-casing a lower-cased string changes nothing. */
  lemma ToLowerIdempotent(s: string)
    ensures ToLower(ToLower(s)) == ToLower(s)
  {
    var r := ToLower(s);
    assert forall i :: 0 <= i < |r| ==> ToLowerChar(r[i]) == r[i];
  }

  // ---------------------------------------------------------------------------
  // int.TryParse (NumberStyles.Integer, invariant signs)
  // ---------------------------------------------------------------------------

  const MinInt32: int := -0x8000_0000
  const MaxInt32: int := 0x7FFF_FFFF

  predicate IsDigit(c: char) {
    '0' <= c <= '9'
  }

  predicate AllDigits(s: string) {
    forall i :: 0 <= i < |s| ==> IsDigit(s[i])
  }

  /** The value of a string of decimal digits, most significant first. */
  function DigitsValue(ds: string): nat
    requires AllDigits(ds)
  {
    if |ds| == 0 then 0
    else 10 * DigitsValue(ds[..|ds| - 1]) + (ds[|ds| - 1] as int - '0' as int)
  }

  /** `int.TryParse`: an optional sign followed by at least one ASCII digit,
      whose value lies in the 32-bit signed range. */
  function ParseInt32(s: string): (r: Option<int>)
    ensures r.Some? ==> MinInt32 <= r.value <= MaxInt32
    ensures r.Some? ==> exists i :: 0 <= i < |s| && IsDigit(s[i])
  {
    var negative := |s| > 0 && s[0] == '-';
    var digits := if |s| > 0 && (s[0] == '-' || s[0] == '+') then s[1..] else s;
    if |digits| == 0 || !AllDigits(digits) then None
    else
      assert digits[0] == s[|s| - |digits|];
      var v: int := if negative then -(DigitsValue(digits) as int) else DigitsValue(digits);
      if MinInt32 <= v <= MaxInt32 then Some(v) else None
  }

  /** The decimal spelling of a natural number, without leading zeros. */
  function DecimalDigits(n: nat): (ds: string)
    ensures |ds| > 0 && AllDigits(ds)
  {
    if n < 10 then ['0' + n as char]
    else DecimalDigits(n / 10) + ['0' + (n % 10) as char]
  }

  /** `int.ToString()` for a signed value. */
  function DecimalString(n: int): string {
    if n < 0 then "-" + DecimalDigits(-n) else DecimalDigits(n)
  }

  lemma {:induction false} DecimalDigitsValue(n: nat)
    ensures DigitsValue(DecimalDigits(n)) == n
  {
    if n >= 10 {
      var ds := DecimalDigits(n);
      assert ds[..|ds| - 1] == DecimalDigits(n / 10);
      DecimalDigitsValue(n / 10);
    }
  }

  /** Every 32-bit integer, written in decimal, is read back by `int.TryParse`. */
  lemma ParseDecimalString(n: int)
    requires MinInt32 <= n <= MaxInt32
    ensures ParseInt32(DecimalString(n)) == Some(n)
  {
    var s := DecimalString(n);
    if n < 0 {
      var ds := DecimalDigits(-n);
      assert s[0] == '-' && s[1..] == ds;
      DecimalDigitsValue(-n);
      assert DigitsValue(ds) == -n;
    } else {
      var ds := DecimalDigits(n);
      assert s == ds && IsDigit(ds[0]);
      DecimalDigitsValue(n);
    }
  }
}
