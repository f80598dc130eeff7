/**
 * The pieces of System.String and System.IO.Path that the core relies on, as functions on
 * `seq<char>`. Paths follow the Windows flavour of System.IO.Path, where both '\' and '/'
 * separate directories.
 */
module Text {
  import opened Wrappers

  // ---------------------------------------------------------------------------------------
  // Characters and case

  /** char.IsWhiteSpace: the Unicode space separators, the line and paragraph separators,
      U+0009 to U+000D, U+0085 and U+00A0. */
  predicate IsWhiteSpace(c: char) {
    c == ' ' || ('\t' <= c <= '\r') || c == '\U{85}' || c == '\U{A0}' || c == '\U{1680}'
    || ('\U{2000}' <= c <= '\U{200A}') || c == '\U{2028}' || c == '\U{2029}'
    || c == '\U{202F}' || c == '\U{205F}' || c == '\U{3000}'
  }

  /** string.IsNullOrEmpty; `None` stands for a null string. */
  predicate IsNullOrEmpty(s: Option<string>) {
    s.None? || s.value == ""
  }

  /** string.IsNullOrWhiteSpace. */
  predicate IsNullOrWhiteSpace(s: Option<string>) {
    s.None? || forall i :: 0 <= i < |s.value| ==> IsWhiteSpace(s.value[i])
  }

  /** Upper-casing as StringComparison.OrdinalIgnoreCase applies it, restricted to ASCII letters:
      no lower-case letter survives it. */
  function ToUpper(c: char): (u: char)
    ensures !('a' <= u <= 'z')
  {
    if 'a' <= c <= 'z' then (c as int - 32) as char else c
  }

  /** Upper-casing twice is upper-casing once. */
  lemma ToUpperIdempotent(c: char)
    ensures ToUpper(ToUpper(c)) == ToUpper(c)
  {
  }

  /** Two characters compare equal ignoring case exactly when they are equal or are one ASCII
      letter in its two cases. */
  lemma SameUpper(c: char, d: char)
    ensures ToUpper(c) == ToUpper(d) <==>
      || c == d
      || ('a' <= c <= 'z' && d as int == c as int - 32)
      || ('a' <= d <= 'z' && c as int == d as int - 32)
  {
  }

  /** String.Equals(a, b, StringComparison.OrdinalIgnoreCase). */
  predicate EqualsIgnoreCase(a: string, b: string) {
    |a| == |b| && forall i :: 0 <= i < |a| ==> ToUpper(a[i]) == ToUpper(b[i])
  }

  /** `pat` occurs in `s` at index `i`, compared case-insensitively. */
  predicate MatchesAt(s: string, pat: string, i: int) {
    0 <= i && i + |pat| <= |s| && forall j :: 0 <= j < |pat| ==> ToUpper(s[i + j]) == ToUpper(pat[j])
  }

  /** The first index at or after `from` where `pat` occurs case-insensitively, or -1. */
  function IndexOfIgnoreCaseFrom(s: string, pat: string, from: nat): (r: int)
    requires from <= |s|
    ensures r == -1 || (from <= r && MatchesAt(s, pat, r))
    ensures forall k :: from <= k && (r == -1 || k < r) ==> !MatchesAt(s, pat, k)
    decreases |s| - from
  {
    if MatchesAt(s, pat, from) then from
    else if from == |s| then -1
    else IndexOfIgnoreCaseFrom(s, pat, from + 1)
  }

  /** s.IndexOf(pat, StringComparison.OrdinalIgnoreCase): the first occurrence, or -1. */
  function IndexOfIgnoreCase(s: string, pat: string): (r: int)
    ensures r >= 0 <==> exists k :: MatchesAt(s, pat, k)
    ensures r >= 0 ==> MatchesAt(s, pat, r) && forall k :: 0 <= k < r ==> !MatchesAt(s, pat, k)
    ensures r >= -1
  {
    IndexOfIgnoreCaseFrom(s, pat, 0)
  }

  // ---------------------------------------------------------------------------------------
  // Splitting and replacing

  /** string.Split(sep): the pieces between the occurrences of `sep`, empty pieces kept. */
  function Split(s: string, sep: char): (parts: seq<string>)
    ensures |parts| >= 1
    ensures forall i :: 0 <= i < |parts| ==> sep !in parts[i]
  {
    if |s| == 0 then [""]
    else
      var rest := Split(s[1..], sep);
      if s[0] == sep then [""] + rest
      else [[s[0]] + rest[0]] + rest[1..]
  }

  /** Two pieces without the separator, joined by it, split back into those two pieces. */
  lemma {:induction false} SplitTwo(a: string, b: string, sep: char)
    requires sep !in a && sep !in b
    ensures Split(a + [sep] + b, sep) == [a, b]
    decreases |a|
  {
    if a == [] {
      assert a + [sep] + b == [sep] + b;
      SplitPlain(b, sep);
    } else {
      var s := a + [sep] + b;
      assert s[0] == a[0] && s[1..] == a[1..] + [sep] + b;
      SplitTwo(a[1..], b, sep);
      assert [a[0]] + a[1..] == a;
    }
  }

  /** A string without the separator splits into itself alone. */
  lemma {:induction false} SplitPlain(s: string, sep: char)
    requires sep !in s
    ensures Split(s, sep) == [s]
    decreases |s|
  {
    if s != [] {
      assert sep !in s[1..] by {
        assert forall k :: 0 <= k < |s| - 1 ==> s[1..][k] == s[k + 1];
      }
      SplitPlain(s[1..], sep);
      assert [s[0]] + s[1..] == s;
    }
  }

  /** string.Join(sep, parts). */
  function Join(parts: seq<string>, sep: char): string
    requires |parts| >= 1
  {
    if |parts| == 1 then parts[0] else parts[0] + [sep] + Join(parts[1..], sep)
  }

  /** Splitting loses nothing: joining the pieces with the separator gives the string back. */
  lemma {:induction false} JoinSplit(s: string, sep: char)
    ensures Join(Split(s, sep), sep) == s
  {
    if |s| > 0 {
      JoinSplit(s[1..], sep);
      var rest := Split(s[1..], sep);
      if s[0] != sep {
        var parts := Split(s, sep);
        assert parts[0] == [s[0]] + rest[0] && parts[1..] == rest[1..];
        if |rest| == 1 {
          assert Join(parts, sep) == [s[0]] + rest[0];
        } else {
          assert Join(parts, sep) == [s[0]] + rest[0] + [sep] + Join(rest[1..], sep);
        }
      }
    }
  }

  /** string.Replace(from, to) for single characters. */
  function ReplaceChar(s: string, from: char, to: char): (r: string)
    ensures |r| == |s|
    ensures forall i :: 0 <= i < |s| ==> r[i] == (if s[i] == from then to else s[i])
  {
    if |s| == 0 then "" else [if s[0] == from then to else s[0]] + ReplaceChar(s[1..], from, to)
  }

  // ---------------------------------------------------------------------------------------
  // Paths (Windows flavour of System.IO.Path)

  /** Path.DirectorySeparatorChar '\' or Path.AltDirectorySeparatorChar '/'. */
  predicate IsSeparator(c: char) {
    c == '\\' || c == '/'
  }

  /** The index of the last character of `s` satisfying `p`, or -1. */
  function LastIndexWhere(s: string, p: char -> bool): (i: int)
    ensures -1 <= i < |s|
    ensures i >= 0 ==> p(s[i])
    ensures forall k :: i < k < |s| ==> !p(s[k])
  {
    if |s| == 0 then -1
    else if p(s[|s| - 1]) then |s| - 1
    else LastIndexWhere(s[..|s| - 1], p)
  }

  /** Path.GetFileName: what follows the last separator. */
  function FileName(path: string): string {
    if |path| == 0 || IsSeparator(path[|path| - 1]) then ""
    else FileName(path[..|path| - 1]) + [path[|path| - 1]]
  }

  /** The file name is the separator-free tail of the path, preceded by a separator when it is
      not the whole path. */
  lemma FileNameShape(path: string)
    ensures var name := FileName(path);
      && (forall k :: 0 <= k < |name| ==> !IsSeparator(name[k]))
      && |name| <= |path| && name == path[|path| - |name|..]
      && (|name| < |path| ==> IsSeparator(path[|path| - |name| - 1]))
  {
    FileNameSuffix(path);
    FileNameNoSeparator(path);
  }

  /** The file name is a tail of the path, and whatever precedes it ends in a separator. */
  lemma {:induction false} FileNameSuffix(path: string)
    ensures |FileName(path)| <= |path|
    ensures forall k :: 0 <= k < |FileName(path)| ==> FileName(path)[k] == path[|path| - |FileName(path)| + k]
    ensures |FileName(path)| < |path| ==> IsSeparator(path[|path| - |FileName(path)| - 1])
    decreases |path|
  {
    if |path| > 0 && !IsSeparator(path[|path| - 1]) {
      var init := path[..|path| - 1];
      FileNameSuffix(init);
      assert FileName(path) == FileName(init) + [path[|path| - 1]];
    }
  }

  /** The file name holds no separator. */
  lemma {:induction false} FileNameNoSeparator(path: string)
    ensures forall k :: 0 <= k < |FileName(path)| ==> !IsSeparator(FileName(path)[k])
    decreases |path|
  {
    if |path| > 0 && !IsSeparator(path[|path| - 1]) {
      FileNameNoSeparator(path[..|path| - 1]);
    }
  }

  /** The extension separator '.'. */
  predicate IsDot(c: char) {
    c == '.'
  }

  /** Path.GetExtension: the file name from its last '.', or "" when it has no '.' or ends in one. */
  function Extension(path: string): (ext: string)
    ensures var name := FileName(path);
      && (ext == "" <==> '.' !in name || name[|name| - 1] == '.')
      && (ext != "" ==> 2 <= |ext| <= |name| && ext == name[|name| - |ext|..] && ext[0] == '.' && '.' !in ext[1..])
  {
    FileNameShape(path);
    var name := FileName(path);
    var dot := LastIndexWhere(name, IsDot);
    if dot < 0 || dot == |name| - 1 then "" else
      assert forall k :: 0 <= k < |name| - dot - 1 ==> name[dot..][1..][k] == name[dot + 1 + k];
      name[dot..]
  }

  /** A suffix of the file name that starts with the only '.' in it is the extension. */
  lemma ExtensionOfDotSuffix(path: string, sfx: string)
    requires 2 <= |sfx| && sfx[0] == '.' && '.' !in sfx[1..]
    requires |sfx| <= |FileName(path)| && FileName(path)[|FileName(path)| - |sfx|..] == sfx
    ensures Extension(path) == sfx
  {
    var name := FileName(path);
    var n := |name|;
    assert name[n - |sfx|] == '.' by { assert name[n - |sfx|] == name[n - |sfx|..][0]; }
    assert name[n - 1] != '.' by {
      assert name[n - 1] == sfx[|sfx| - 1] == sfx[1..][|sfx| - 2];
    }
  }

  /** Where Path.GetDirectoryName ends the directory part: at the start of the run of separators
      in front of the file name; -1 when the path holds no separator. */
  function DirectoryEnd(path: string): (e: int)
    ensures e == -1 <==> forall k :: 0 <= k < |path| ==> !IsSeparator(path[k])
    ensures e >= 0 ==>
      var i := LastIndexWhere(path, IsSeparator);
      && e <= i && (forall k :: e <= k <= i ==> IsSeparator(path[k]))
      && (e == 0 || !IsSeparator(path[e - 1]))
  {
    var i := LastIndexWhere(path, IsSeparator);
    if i < 0 then -1
    else
      TrimEndSeparatorsShape(path[..i]);
      |TrimEndSeparators(path[..i])|
  }

  /** The separators of `s` with each run of them collapsed into one '\'. */
  function Collapse(s: string): (r: string)
    ensures |r| <= |s| && (|r| == 0 <==> |s| == 0)
    ensures forall k :: 0 <= k < |r| ==> r[k] != '/'
    ensures forall k :: 0 <= k < |r| - 1 ==> !(IsSeparator(r[k]) && IsSeparator(r[k + 1]))
    ensures |s| > 0 ==> (IsSeparator(r[0]) <==> IsSeparator(s[0]))
    ensures |s| > 0 ==> (IsSeparator(r[|r| - 1]) <==> IsSeparator(s[|s| - 1]))
  {
    if s == [] then []
    else
      var n := |s| - 1;
      if !IsSeparator(s[n]) then Collapse(s[..n]) + [s[n]]
      else if n > 0 && IsSeparator(s[n - 1]) then Collapse(s[..n])
      else Collapse(s[..n]) + ['\\']
  }

  /** The characters of `s` other than separators, in order. */
  function Names(s: string): string {
    if s == [] then []
    else Names(s[..|s| - 1]) + (if IsSeparator(s[|s| - 1]) then [] else [s[|s| - 1]])
  }

  /** Collapsing changes separators only. */
  lemma {:induction false} CollapseKeepsNames(s: string)
    ensures Names(Collapse(s)) == Names(s)
    decreases |s|
  {
    if s != [] {
      var n := |s| - 1;
      CollapseKeepsNames(s[..n]);
      var p := Collapse(s[..n]);
      if !IsSeparator(s[n]) {
        assert (p + [s[n]])[..|p|] == p;
      } else if !(n > 0 && IsSeparator(s[n - 1])) {
        assert (p + ['\\'])[..|p|] == p;
      }
    }
  }

  /** Replacing separators by separators, and nothing else, keeps the names. */
  lemma {:induction false} NamesKeepSeparatorKind(s: string, t: string)
    requires |s| == |t|
    requires forall k :: 0 <= k < |s| ==> s[k] == t[k] || (IsSeparator(s[k]) && IsSeparator(t[k]))
    ensures Names(s) == Names(t)
    decreases |s|
  {
    if s != [] {
      NamesKeepSeparatorKind(s[..|s| - 1], t[..|t| - 1]);
    }
  }

  /** A string whose separators are single backslashes is already collapsed. */
  lemma {:induction false} CollapseNormal(s: string)
    requires forall k :: 0 <= k < |s| ==> s[k] != '/'
    requires forall k :: 0 <= k < |s| - 1 ==> !(IsSeparator(s[k]) && IsSeparator(s[k + 1]))
    ensures Collapse(s) == s
    decreases |s|
  {
    if s != [] {
      var n := |s| - 1;
      CollapseNormal(s[..n]);
      assert s == s[..n] + [s[n]];
    }
  }

  /** PathInternal.NormalizeDirectorySeparators: every separator becomes '\' and runs of them
      collapse into one, except that a leading separator is kept apart (a UNC prefix keeps both
      of its backslashes). */
  function NormaliseSeparators(s: string): (r: string)
    ensures forall k :: 0 <= k < |r| ==> r[k] != '/'
    ensures forall k :: 1 <= k < |r| - 1 ==> !(IsSeparator(r[k]) && IsSeparator(r[k + 1]))
    ensures (|s| > 0 && IsSeparator(s[0])) <==> (|r| > 0 && r[0] == '\\')
    ensures |r| == 0 <==> |s| == 0
  {
    if |s| > 0 && IsSeparator(s[0]) then "\\" + Collapse(s[1..]) else Collapse(s)
  }

  /** Path.GetDirectoryName, as .NET Core 2.1 and later implement it on Windows: null (None) for
      an empty or all-space path, "" for a bare file name, and otherwise the path up to the run
      of separators in front of the file name, with its separators normalised. Volume roots are
      not treated specially. */
  function DirectoryPart(path: string): (dir: Option<string>)
    ensures dir.None? <==> forall k :: 0 <= k < |path| ==> path[k] == ' '
    ensures dir.Some? && DirectoryEnd(path) < 0 ==> dir.value == ""
    ensures dir.Some? && DirectoryEnd(path) >= 0 ==>
      && (forall k :: 0 <= k < |dir.value| ==> dir.value[k] != '/')
      && Names(dir.value) == Names(path[..DirectoryEnd(path)])
      && (|dir.value| > 0 ==> !IsSeparator(dir.value[|dir.value| - 1]))
  {
    if forall k :: 0 <= k < |path| ==> path[k] == ' ' then None
    else
      var e := DirectoryEnd(path);
      if e < 0 then Some("")
      else
        DirectoryPartNames(path[..e]);
        Some(NormaliseSeparators(path[..e]))
  }

  /** Normalisation keeps the names, and a string not ending in a separator still does not. */
  lemma DirectoryPartNames(s: string)
    ensures Names(NormaliseSeparators(s)) == Names(s)
    ensures |s| > 0 && !IsSeparator(s[|s| - 1]) ==> !IsSeparator(NormaliseSeparators(s)[|NormaliseSeparators(s)| - 1])
  {
    if |s| > 0 && IsSeparator(s[0]) {
      CollapseKeepsNames(s[1..]);
      NamesAfterSeparator(s);
    } else {
      CollapseKeepsNames(s);
    }
  }

  /** A leading separator contributes no name. */
  lemma {:induction false} NamesAfterSeparator(s: string)
    requires |s| > 0 && IsSeparator(s[0])
    ensures Names(s) == Names(s[1..])
    ensures Names("\\" + Collapse(s[1..])) == Names(Collapse(s[1..]))
  {
    NamesConcat([s[0]], s[1..]);
    assert [s[0]] + s[1..] == s;
    NamesConcat("\\", Collapse(s[1..]));
    assert Names([s[0]]) == [] by { assert [s[0]][..0] == []; }
    assert Names("\\") == [] by { assert "\\"[..0] == []; }
  }

  /** Names distributes over concatenation. */
  lemma {:induction false} NamesConcat(a: string, b: string)
    ensures Names(a + b) == Names(a) + Names(b)
    decreases |b|
  {
    if b == [] {
      assert a + b == a;
    } else {
      var n := |b| - 1;
      NamesConcat(a, b[..n]);
      assert (a + b)[..|a + b| - 1] == a + b[..n];
    }
  }

  /** `path` without its trailing separators. */
  function TrimEndSeparators(path: string): string {
    if |path| > 0 && IsSeparator(path[|path| - 1]) then TrimEndSeparators(path[..|path| - 1]) else path
  }

  /** Trimming removes exactly the run of separators at the end. */
  lemma {:induction false} TrimEndSeparatorsShape(path: string)
    ensures var r := TrimEndSeparators(path);
      && |r| <= |path| && r == path[..|r|]
      && (|r| > 0 ==> !IsSeparator(r[|r| - 1]))
      && (forall k :: |r| <= k < |path| ==> IsSeparator(path[k]))
    decreases |path|
  {
    if |path| > 0 && IsSeparator(path[|path| - 1]) {
      TrimEndSeparatorsShape(path[..|path| - 1]);
    }
  }

  /** DirectoryInfo.Name (PathUtils.DirectoryName): the last component, trailing separators ignored. */
  function LastComponent(path: string): string {
    FileName(TrimEndSeparators(path))
  }

  /** A directory name contains no separator. */
  lemma LastComponentShape(path: string)
    ensures forall k :: 0 <= k < |LastComponent(path)| ==> !IsSeparator(LastComponent(path)[k])
  {
    FileNameShape(TrimEndSeparators(path));
  }
}
