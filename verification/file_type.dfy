/** File-type extraction: `get_file_type` returns the last piece of the file
    name split on '.', i.e. the text after the last dot, or the whole name
    when there is no dot. */
module FileType {

  import opened Wrappers

  const Dot: char := '.'

  /** `b` ends with `a`. */
  predicate IsSuffix(a: string, b: string) {
    |a| <= |b| && b[|b| - |a|..] == a
  }

  /** Joins `parts` with `sep` between neighbours, as Python's `sep.join(parts)`. */
  function Join(parts: seq<string>, sep: char): string
  {
    if |parts| == 0 then ""
    else if |parts| == 1 then parts[0]
    else parts[0] + [sep] + Join(parts[1..], sep)
  }

  /** Python's `s.split(sep)` with an explicit separator: the maximal
      separator-free pieces between occurrences of `sep`, empty pieces kept. */
  function Split(s: string, sep: char): (parts: seq<string>)
    ensures |parts| >= 1
    ensures forall i :: 0 <= i < |parts| ==> sep !in parts[i]
  {
    if |s| == 0 then [""]
    else
      var rest := Split(s[1..], sep);
      if s[0] == sep then [""] + rest
      else [[s[0]] + rest[0]] + rest[1..]
  }

  /** The last element of a non-empty sequence. */
  function Last<T>(xs: seq<T>): T
    requires |xs| > 0
  {
    xs[|xs| - 1]
  }

  /** Joining the pieces of a split with the separator gives the string back. */
  lemma {:induction false} JoinSplit(s: string, sep: char)
    ensures Join(Split(s, sep), sep) == s
  {
    if |s| > 0 {
      var rest := Split(s[1..], sep);
      JoinSplit(s[1..], sep);
      assert s == [s[0]] + s[1..];
      if s[0] != sep && |rest| > 1 {
        assert Join(rest, sep) == rest[0] + [sep] + Join(rest[1..], sep);
        var parts := [[s[0]] + rest[0]] + rest[1..];
        assert parts[1..] == rest[1..];
      }
    }
  }

  /** A string without a separator splits into itself alone. */
  lemma {:induction false} SplitNoSeparator(s: string, sep: char)
    ensures sep !in s ==> Split(s, sep) == [s]
  {
    if sep !in s && |s| > 0 {
      SplitNoSeparator(s[1..], sep);
      assert [s[0]] + s[1..] == s;
    }
  }

  /** Text that ends `s[1..]` also ends `s`, and keeps its position. */
  lemma SuffixOfTail(a: string, s: string)
    requires |s| > 0 && IsSuffix(a, s[1..])
    ensures IsSuffix(a, s)
    ensures |a| < |s| - 1 ==> s[1..][|s| - 1 - |a| - 1] == s[|s| - |a| - 1]
  {
    assert s[1..][|s| - 1 - |a|..] == s[|s| - |a|..];
  }

  /** The last piece of a split is a suffix of the string and, when the
      string holds a separator, directly follows one. */
  lemma {:induction false} SplitLast(s: string, sep: char)
    ensures IsSuffix(Last(Split(s, sep)), s)
    ensures sep in s ==> s[|s| - |Last(Split(s, sep))| - 1] == sep
    decreases |s|, 1
  {
    if sep !in s {
      SplitNoSeparator(s, sep);
    } else {
      var rest := Split(s[1..], sep);
      if s[0] == sep {
        SplitLastAfterSeparator(s, sep);
      } else {
        SplitLast(s[1..], sep);
        assert sep in s[1..];
        assert |rest| > 1 by {
          if |rest| == 1 {
            JoinSplit(s[1..], sep);
          }
        }
        assert Last(Split(s, sep)) == Last(rest);
        SuffixOfTail(Last(rest), s);
      }
    }
  }

  /** `SplitLast` for a string that starts with the separator. */
  lemma {:induction false} SplitLastAfterSeparator(s: string, sep: char)
    requires |s| > 0 && s[0] == sep
    ensures IsSuffix(Last(Split(s, sep)), s)
    ensures s[|s| - |Last(Split(s, sep))| - 1] == sep
    decreases |s|, 0
  {
    var rest := Split(s[1..], sep);
    assert Last(Split(s, sep)) == Last(rest);
    if sep !in s[1..] {
      SplitNoSeparator(s[1..], sep);
      assert s[1..][0..] == s[1..];
    } else {
      SplitLast(s[1..], sep);
      SuffixOfTail(Last(rest), s);
    }
  }

  /** The file type of `fileName`: the last piece of `fileName.split(".")`. */
  function GetFileType(fileName: string): (ext: string)
    ensures Dot !in ext
    ensures IsSuffix(ext, fileName)
    ensures Dot !in fileName ==> ext == fileName
    ensures Dot in fileName ==> fileName[|fileName| - |ext| - 1] == Dot
  {
    SplitLast(fileName, Dot);
    SplitNoSeparator(fileName, Dot);
    Last(Split(fileName, Dot))
  }

  /** Position of the last occurrence of `c` in `s`, if any. */
  function LastIndexOf(s: string, c: char): (r: Option<nat>)
    ensures r.None? <==> c !in s
    ensures r.Some? ==> r.value < |s| && s[r.value] == c
    ensures r.Some? ==> forall j :: r.value < j < |s| ==> s[j] != c
  {
    if |s| == 0 then None
    else if s[|s| - 1] == c then Some(|s| - 1)
    else
      assert s == s[..|s| - 1] + [s[|s| - 1]];
      LastIndexOf(s[..|s| - 1], c)
  }

  /** Reference definition: the text after the last dot, or the whole name. */
  function AfterLastDot(fileName: string): string
  {
    match LastIndexOf(fileName, Dot)
    case None => fileName
    case Some(i) => fileName[i + 1..]
  }

  /** `GetFileType` agrees with the reference definition on every name. */
  lemma GetFileTypeIsAfterLastDot(fileName: string)
    ensures GetFileType(fileName) == AfterLastDot(fileName)
  {
    var ext := GetFileType(fileName);
    match LastIndexOf(fileName, Dot)
    case None =>
    case Some(i) =>
      var k := |fileName| - |ext| - 1;
      assert fileName[k] == Dot;
      assert fileName[i + 1..] == ext;
  }

  /** A name ending in '.' has the empty file type. */
  lemma TrailingDotGivesEmpty(fileName: string)
    requires |fileName| > 0 && fileName[|fileName| - 1] == Dot
    ensures GetFileType(fileName) == ""
  {
  }

  /** For a dot-free `e`, the file type is `e` exactly when the name is `e`
      itself or ends with "." + `e`. */
  lemma FileTypeIs(fileName: string, e: string)
    requires Dot !in e
    ensures GetFileType(fileName) == e <==> fileName == e || IsSuffix([Dot] + e, fileName)
  {
    var ext := GetFileType(fileName);
    if fileName == e {
    } else if IsSuffix([Dot] + e, fileName) {
      var n := |fileName|;
      assert fileName[n - |e|..] == e;
      assert fileName[n - |e| - 1] == Dot;
      assert Dot in fileName;
      assert ext == fileName[n - |e|..];
    }
  }

  /** Splitting a joined list of dot-free pieces gives the pieces back. */
  lemma {:induction false} SplitJoin(parts: seq<string>, sep: char)
    requires |parts| >= 1
    requires forall i :: 0 <= i < |parts| ==> sep !in parts[i]
    ensures Split(Join(parts, sep), sep) == parts
  {
    if |parts| == 1 {
      SplitNoSeparator(parts[0], sep);
    } else {
      SplitJoin(parts[1..], sep);
      SplitPrefix(parts[0], [sep] + Join(parts[1..], sep), sep);
      assert parts[0] + [sep] + Join(parts[1..], sep) == parts[0] + ([sep] + Join(parts[1..], sep));
      assert ([sep] + Join(parts[1..], sep))[1..] == Join(parts[1..], sep);
    }
  }

  /** Splitting `w + t` where `w` is separator-free and `t` starts with the
      separator puts `w` in front of the pieces of `t` after that separator. */
  lemma {:induction false} SplitPrefix(w: string, t: string, sep: char)
    requires sep !in w
    requires |t| > 0 && t[0] == sep
    ensures Split(w + t, sep) == [w] + Split(t[1..], sep)
  {
    if |w| == 0 {
      assert w + t == t;
    } else {
      SplitPrefix(w[1..], t, sep);
      assert (w + t)[1..] == w[1..] + t;
      assert [w[0]] + w[1..] == w;
    }
  }
}
