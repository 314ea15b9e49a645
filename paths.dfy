/**
 * `Program.GetFileNameWithTwoFolders`: the short label a configuration file is
 * shown under, and the `System.IO.Path` operations it is built from, on a
 * Windows-style path where both `\` and `/` separate directories.
 */
module Paths {

  import opened Text

  const DirectorySeparatorChar: char := '\\'
  const AltDirectorySeparatorChar: char := '/'
  const Separators: set<char> := {DirectorySeparatorChar, AltDirectorySeparatorChar}

  /** The index of the last separator in `p`, or -1 when it has none. */
  function LastSeparator(p: string): (r: int)
    ensures -1 <= r < |p|
    ensures r >= 0 ==> p[r] in Separators
    ensures forall i :: r < i < |p| ==> p[i] !in Separators
  {
    if |p| == 0 then -1
    else if p[|p| - 1] in Separators then |p| - 1
    else LastSeparator(p[..|p| - 1])
  }

  /** `Path.GetFileName`: what follows the last separator. */
  function GetFileName(p: string): (r: string)
    ensures NoneIn(r, Separators)
    ensures |r| <= |p| && p[|p| - |r|..] == r
  {
    p[LastSeparator(p) + 1..]
  }

  /** `Path.GetDirectoryName`: what precedes the last separator; empty when
      there is none. */
  function GetDirectoryName(p: string): string {
    var i := LastSeparator(p);
    if i < 0 then "" else p[..i]
  }

  /** A path is its directory, one separator and its file name; a path without
      a separator has an empty directory and is its own file name. */
  lemma DirectoryAndFileName(p: string)
    ensures var d := GetDirectoryName(p);
            && (NoneIn(p, Separators) ==> d == [] && GetFileName(p) == p)
            && (!NoneIn(p, Separators) ==>
                  |d| < |p| && p[|d|] in Separators && p == d + [p[|d|]] + GetFileName(p))
  {
    var i := LastSeparator(p);
    if NoneIn(p, Separators) {
      assert i == -1;
    } else {
      assert p == p[..i] + [p[i]] + p[i + 1..];
    }
  }

  /** `Path.Combine` of two components, neither of which ends in a separator:
      an empty component is dropped, otherwise the two are joined by the
      directory separator. */
  function Combine(a: string, b: string): (r: string)
    ensures |b| <= |r| && r[|r| - |b|..] == b
  {
    if a == "" then b
    else if b == "" then a
    else a + [DirectorySeparatorChar] + b
  }

  /** The label of a file: its last two directory segments and its name, or the
      name alone when its directory has fewer than two segments. */
  function GetFileNameWithTwoFolders(filePath: string): string {
    var fileName := GetFileName(filePath);
    var directory := GetDirectoryName(filePath);
    var parts := Split(directory, Separators);
    if |parts| >= 2 then
      var twoFolders := Combine(parts[|parts| - 2], parts[|parts| - 1]);
      Combine(twoFolders, fileName)
    else
      fileName
  }

  /** Every label ends with the file name and holds at most two separators. */
  lemma LabelEndsWithFileName(filePath: string)
    ensures var r, fileName := GetFileNameWithTwoFolders(filePath), GetFileName(filePath);
            && |fileName| <= |r| && r[|r| - |fileName|..] == fileName
            && CountIn(r, Separators) <= 2
  {
    var fileName := GetFileName(filePath);
    var parts := Split(GetDirectoryName(filePath), Separators);
    NoSeparatorsCounted(fileName, Separators);
    if |parts| >= 2 {
      var a, b := parts[|parts| - 2], parts[|parts| - 1];
      assert GetFileNameWithTwoFolders(filePath) == Combine(Combine(a, b), fileName);
      TwoFoldersLabel(a, b, fileName);
    } else {
      assert GetFileNameWithTwoFolders(filePath) == fileName;
      assert fileName[|fileName| - |fileName|..] == fileName;
    }
  }

  /** A label built from two separator-free segments and a file name ends with
      the file name and holds two separators at most. */
  lemma TwoFoldersLabel(a: string, b: string, fileName: string)
    requires NoneIn(a, Separators) && NoneIn(b, Separators) && CountIn(fileName, Separators) == 0
    ensures var r := Combine(Combine(a, b), fileName);
            |fileName| <= |r| && r[|r| - |fileName|..] == fileName && CountIn(r, Separators) <= 2
  {
    NoSeparatorsCounted(a, Separators);
    NoSeparatorsCounted(b, Separators);
    CombineSeparators(a, b);
    CombineSeparators(Combine(a, b), fileName);
  }

  /** Combining adds at most one separator to those of its components. */
  lemma CombineSeparators(a: string, b: string)
    ensures CountIn(Combine(a, b), Separators) <= CountIn(a, Separators) + CountIn(b, Separators) + 1
  {
    if a != "" && b != "" {
      CountInConcat(a + [DirectorySeparatorChar], b, Separators);
      CountInConcat(a, [DirectorySeparatorChar], Separators);
    }
  }

  /** The file name of a path ending in a separator-free segment is that segment. */
  lemma {:induction false} FileNameOfSegment(d: string, s: char, f: string)
    requires s in Separators && NoneIn(f, Separators)
    ensures LastSeparator(d + [s] + f) == |d|
    ensures GetFileName(d + [s] + f) == f
    ensures GetDirectoryName(d + [s] + f) == d
  {
    var p := d + [s] + f;
    assert p[|d|] == s;
    assert p[..|d|] == d && p[|d| + 1..] == f;
    if |f| > 0 {
      assert p[..|p| - 1] == d + [s] + f[..|f| - 1];
      FileNameOfSegment(d, s, f[..|f| - 1]);
    }
  }

  /** A path with at least two directory segments is labelled by its last two
      segments and its file name. */
  lemma LabelOfTwoFolders(root: string, a: string, s1: char, b: string, s2: char, f: string)
    requires root == [] || root[|root| - 1] in Separators
    requires s1 in Separators && s2 in Separators
    requires NoneIn(a, Separators) && NoneIn(b, Separators) && NoneIn(f, Separators)
    ensures GetFileNameWithTwoFolders(root + a + [s1] + b + [s2] + f) == Combine(Combine(a, b), f)
    ensures a != "" && b != "" && f != "" ==>
              GetFileNameWithTwoFolders(root + a + [s1] + b + [s2] + f) == a + "\\" + b + "\\" + f
  {
    var dir := root + a + [s1] + b;
    assert root + a + [s1] + b + [s2] + f == dir + [s2] + f;
    FileNameOfSegment(dir, s2, f);
    SplitAtSeparator(root + a, s1, b, Separators);
    SplitNoSeparator(a, Separators);
    SplitNoSeparator(b, Separators);
    if root == [] {
      assert root + a == a;
    } else {
      var r := root[..|root| - 1];
      assert root + a == r + [root[|root| - 1]] + a;
      SplitAtSeparator(r, root[|root| - 1], a, Separators);
    }
    assert Split(dir, Separators)[|Split(dir, Separators)| - 2..] == [a, b];
  }

  /** A path whose directory is a single segment is labelled by its file name. */
  lemma LabelOfOneFolder(a: string, s: char, f: string)
    requires s in Separators && NoneIn(a, Separators) && NoneIn(f, Separators)
    ensures GetFileNameWithTwoFolders(a + [s] + f) == f
  {
    FileNameOfSegment(a, s, f);
    SplitNoSeparator(a, Separators);
  }

  /** A bare file name is its own label. */
  lemma LabelOfFileName(f: string)
    requires NoneIn(f, Separators)
    ensures GetFileNameWithTwoFolders(f) == f
  {
    assert LastSeparator(f) == -1;
    SplitNoSeparator("", Separators);
  }
}
