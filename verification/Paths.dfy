/** Repository paths: what the validators of src/causure/onboarding.py and
    src/causure/github_selection.py accept, and paths as segment lists. */
module Paths {
  import opened Vocabulary
  import opened Sequences

  // ---------------------------------------------------------------- segments

  function Split(s: string): (segments: seq<string>)
    ensures 1 <= |segments|
    ensures forall i :: 0 <= i < |segments| ==> '/' !in segments[i]
  {
    if s == [] then [""]
    else
      var rest := Split(s[1..]);
      if s[0] == '/' then [""] + rest else [[s[0]] + rest[0]] + rest[1..]
  }

  function Join(segments: seq<string>): string
    requires 1 <= |segments|
  {
    if |segments| == 1 then segments[0] else segments[0] + "/" + Join(segments[1..])
  }

  /** A path is its segments joined by slashes ... */
  lemma {:induction false} JoinSplit(s: string)
    ensures Join(Split(s)) == s
  {
    if s != [] {
      JoinSplit(s[1..]);
      var rest := Split(s[1..]);
      if s[0] == '/' {
        assert ([""] + rest)[1..] == rest;
      } else {
        assert ([[s[0]] + rest[0]] + rest[1..])[1..] == rest[1..];
      }
    }
  }

  /** ... and no other slash-free list of segments joins to it. */
  lemma {:induction false} SplitJoin(segments: seq<string>)
    requires 1 <= |segments| && forall i :: 0 <= i < |segments| ==> '/' !in segments[i]
    ensures Split(Join(segments)) == segments
  {
    var first := segments[0];
    if |segments| == 1 {
      SplitFirst(first, "");
      assert first + "" == first;
    } else {
      SplitJoin(segments[1..]);
      var tail := "/" + Join(segments[1..]);
      SplitFirst(first, tail);
      assert first + tail == Join(segments);
      assert tail[1..] == Join(segments[1..]);
      assert Split(tail) == [""] + segments[1..];
      assert first + "" == first;
    }
  }

  lemma {:induction false} SplitFirst(first: string, tail: string)
    requires '/' !in first
    ensures Split(first + tail) == [first + Split(tail)[0]] + Split(tail)[1..]
  {
    if first == "" {
      assert first + tail == tail && first + Split(tail)[0] == Split(tail)[0];
    } else {
      SplitFirst(first[1..], tail);
      assert (first + tail)[1..] == first[1..] + tail;
      assert [first[0]] + (first[1..] + Split(tail)[0]) == first + Split(tail)[0];
    }
  }

  // ---------------------------------------------------------------- validators

  const MAX_FILE_PATH := 4096
  const MAX_PATTERN := 1024

  /** The characters str.strip removes. */
  predicate IsSpace(c: char) {
    || '\U{0009}' <= c <= '\U{000d}' || '\U{001c}' <= c <= '\U{0020}'
    || c in {'\U{0085}', '\U{00a0}', '\U{1680}', '\U{2028}', '\U{2029}', '\U{202f}', '\U{205f}', '\U{3000}'}
    || '\U{2000}' <= c <= '\U{200a}'
  }

  function StripLeft(s: string): (t: string)
    ensures t == "" || !IsSpace(t[0])
    ensures |t| <= |s| && t == s[|s| - |t|..]
  {
    if s != "" && IsSpace(s[0]) then StripLeft(s[1..]) else s
  }

  function StripRight(s: string): (t: string)
    ensures t == "" || !IsSpace(t[|t| - 1])
    ensures |t| <= |s| && t == s[..|t|]
  {
    if s != "" && IsSpace(s[|s| - 1]) then StripRight(s[..|s| - 1]) else s
  }

  function Strip(s: string): string {
    StripRight(StripLeft(s))
  }

  lemma Unstripped(s: string)
    requires s != "" && !IsSpace(s[0]) && !IsSpace(s[|s| - 1])
    ensures Strip(s) == s
  {
    hide IsSpace;
    assert StripLeft(s) == s;
    assert StripRight(s) == s;
  }

  lemma StripIdempotent(s: string)
    ensures Strip(Strip(s)) == Strip(s)
  {
    var t := Strip(s);
    if t != "" {
      assert t[0] == StripLeft(s)[0];
    }
  }

  predicate HasControl(s: string) {
    exists i :: 0 <= i < |s| && (s[i] < ' ' || s[i] == '\U{007f}')
  }

  /** No empty, "." or ".." segment, or the path "." (ContainedIsTheCheck). */
  predicate Contained(path: string) {
    path == "." || forall i :: 0 <= i < |Split(path)| ==> Split(path)[i] !in {"", ".", ".."}
  }

  /** PurePosixPath(path).parts of a relative path: empty and "." segments vanish. */
  function PathParts(path: string): seq<string> {
    Filter(Split(path), IsPart)
  }

  predicate IsPart(segment: string) { segment !in {"", "."} }

  function AsPosix(parts: seq<string>): string {
    if parts == [] then "." else Join(parts)
  }

  lemma {:induction false} KeepAll<T>(s: seq<T>, p: T -> bool)
    requires forall i :: 0 <= i < |s| ==> p(s[i])
    ensures Filter(s, p) == s
  {
    if s != [] {
      var front := s[..|s| - 1];
      assert forall i :: 0 <= i < |front| ==> front[i] == s[i];
      KeepAll(front, p);
    }
  }

  lemma SplitDot()
    ensures Split(".") == ["."]
  {
    hide Split;
    SplitJoin(["."]);
    assert Join(["."]) == ".";
  }

  lemma PartsAreSegments(path: string)
    ensures forall i :: 0 <= i < |PathParts(path)| ==> PathParts(path)[i] in Split(path) && IsPart(PathParts(path)[i])
  {
    hide Split, IsPart;
    FilterMembers(Split(path), IsPart);
    assert forall i :: 0 <= i < |PathParts(path)| ==> PathParts(path)[i] in PathParts(path);
  }

  /** The parts of a contained path are its segments, except that "." has none. */
  lemma ContainedParts(path: string)
    requires Contained(path)
    ensures path == "." ==> PathParts(path) == []
    ensures path != "." ==> PathParts(path) == Split(path)
  {
    if path == "." {
      SplitDot();
      assert Filter(["."][..0], IsPart) == [];
    } else {
      KeepAll(Split(path), IsPart);
    }
  }

  /** The validators' test, word for word: a path passes iff it is the
      canonical spelling of its parts and none of them is "..". */
  lemma ContainedIsTheCheck(path: string)
    ensures Contained(path) <==> AsPosix(PathParts(path)) == path && ".." !in PathParts(path)
  {
    hide Split, Join, Filter;
    var parts := PathParts(path);
    if Contained(path) {
      ContainedParts(path);
      JoinSplit(path);
    } else if AsPosix(parts) == path && ".." !in parts {
      PartsAreSegments(path);
      assert parts != [];
      assert forall i :: 0 <= i < |parts| ==> '/' !in parts[i];
      SplitJoin(parts);
      assert forall i :: 0 <= i < |parts| ==> parts[i] !in {"", ".", ".."};
    }
  }

  /** base.joinpath(*parts). */
  function Below(base: seq<string>, path: string): seq<string> {
    base + PathParts(path)
  }

  /** Where accepted paths lead: different ones to different places strictly
      below the base, except "." which leads to the base itself. */
  lemma ContainedPathsLead(base: seq<string>, p: string, q: string)
    requires Contained(p) && Contained(q)
    ensures PathParts(p) == [] <==> p == "."
    ensures Below(base, p) == base <==> p == "."
    ensures Below(base, p) == Below(base, q) <==> p == q
  {
    hide Split, Filter, Contained, Join;
    ContainedParts(p);
    ContainedParts(q);
    JoinSplit(p);
    JoinSplit(q);
    assert Below(base, p)[|base|..] == PathParts(p) && Below(base, q)[|base|..] == PathParts(q);
  }

  predicate FilePathAccepted(path: string) {
    path != "" && path == Strip(path) && |path| <= MAX_FILE_PATH && !HasControl(path) && '\\' !in path && Contained(path)
  }

  /** _relative_project_path: the stripped path, or nothing. */
  function RelativePath(value: string): (path: Option<string>)
    ensures path.Some? ==> path.value == Strip(value) && path.value != ""
  {
    var path := Strip(value);
    if path == "" || HasControl(path) || '\\' in path || !Contained(path) then None else Some(path)
  }

  predicate NoDoubleStar(segment: string) {
    forall i :: 0 <= i < |segment| - 1 ==> !(segment[i] == '*' && segment[i + 1] == '*')
  }

  predicate WholeDoubleStars(path: string) {
    forall i :: 0 <= i < |Split(path)| ==> Split(path)[i] == "**" || NoDoubleStar(Split(path)[i])
  }

  /** _repository_path. */
  function RepositoryPath(value: string, allowGlob: bool): (path: Option<string>)
    ensures path.Some? ==> path.value == Strip(value) && path.value != ""
  {
    var relative := RelativePath(value);
    if relative.None? then None
    else
      var path := relative.value;
      if |path| > MAX_PATTERN then None
      else if !allowGlob && '*' in path then None
      else if allowGlob && ('?' in path || '[' in path || ']' in path) then None
      else if allowGlob && !WholeDoubleStars(path) then None
      else Some(path)
  }

  predicate PatternAccepted(pattern: string) {
    RepositoryPath(pattern, true) == Some(pattern)
  }

  /** Every validator accepts ".", the one contained path without parts. */
  lemma DotIsAccepted(allowGlob: bool)
    ensures FilePathAccepted(".") && RelativePath(".") == Some(".") && RepositoryPath(".", allowGlob) == Some(".")
  {
    hide Strip, StripLeft, StripRight, Split;
    assert !IsSpace('.');
    Unstripped(".");
    SplitDot();
  }

  /** Accepting a path again changes nothing. */
  lemma RepositoryPathIdempotent(value: string, allowGlob: bool)
    requires RepositoryPath(value, allowGlob).Some?
    ensures RepositoryPath(RepositoryPath(value, allowGlob).value, allowGlob) == RepositoryPath(value, allowGlob)
  {
    hide Strip, Contained, HasControl, WholeDoubleStars;
    StripIdempotent(value);
  }

  lemma RelativePathIdempotent(value: string)
    requires RelativePath(value).Some?
    ensures RelativePath(RelativePath(value).value) == RelativePath(value)
  {
    hide Strip, Contained, HasControl;
    StripIdempotent(value);
  }

  // ---------------------------------------------------------------- what the validators accept, segment by segment

  /** No control character and no backslash. */
  predicate PlainChar(c: char) {
    ' ' <= c && c != '\U{007f}' && c != '\\'
  }

  predicate PlainSegment(segment: string) {
    forall i :: 0 <= i < |segment| ==> PlainChar(segment[i])
  }

  /** A segment of a pattern: literal text and single stars, or two stars alone. */
  predicate PatternSegment(segment: string) {
    && '?' !in segment && '[' !in segment && ']' !in segment
    && (segment == "**" || forall i, j :: 0 <= i < j < |segment| && segment[i] == segment[j] == '*' ==> i + 1 < j)
  }

  lemma {:induction false} CharsOfJoin(segments: seq<string>, c: char)
    requires 1 <= |segments|
    ensures c in Join(segments) <==> (|segments| > 1 && c == '/') || exists i :: 0 <= i < |segments| && c in segments[i]
  {
    if |segments| > 1 {
      var rest := segments[1..];
      CharsOfJoin(rest, c);
      if i :| 0 <= i < |rest| && c in rest[i] { assert c in segments[i + 1]; }
      if i :| 0 <= i < |segments| && c in segments[i] {
        if i > 0 { assert c in rest[i - 1]; }
      }
    } else {
      if c in Join(segments) { assert c in segments[0]; }
    }
  }

  lemma PlainJoin(segments: seq<string>)
    requires 1 <= |segments|
    ensures !HasControl(Join(segments)) && '\\' !in Join(segments) <==> forall i :: 0 <= i < |segments| ==> PlainSegment(segments[i])
  {
    hide Join;
    var path := Join(segments);
    if !HasControl(path) && '\\' !in path {
      forall i, k | 0 <= i < |segments| && 0 <= k < |segments[i]| ensures PlainChar(segments[i][k]) {
        assert segments[i][k] in segments[i];
        CharsOfJoin(segments, segments[i][k]);
        var n :| 0 <= n < |path| && path[n] == segments[i][k];
      }
    }
    if forall i :: 0 <= i < |segments| ==> PlainSegment(segments[i]) {
      forall n | 0 <= n < |path| ensures PlainChar(path[n]) {
        CharsOfJoin(segments, path[n]);
        if i :| 0 <= i < |segments| && path[n] in segments[i] {
          var k :| 0 <= k < |segments[i]| && segments[i][k] == path[n];
        }
      }
    }
  }

  lemma StarsApart(segment: string)
    ensures NoDoubleStar(segment) <==> forall i, j :: 0 <= i < j < |segment| && segment[i] == segment[j] == '*' ==> i + 1 < j
  {
  }

  /** A text is accepted as a pattern exactly when its stripped form has at most
      1024 characters and is "." or consists of segments that are plain, not
      empty, not "." or "..", and each of literals and single stars or "**". */
  lemma PatternIsExact(value: string, segments: seq<string>)
    requires segments == Split(Strip(value))
    ensures RepositoryPath(value, true).Some? <==>
              && Strip(value) != "" && |Strip(value)| <= 1024
              && (Strip(value) == "." || forall i :: 0 <= i < |segments| ==> segments[i] !in {"", ".", ".."})
              && forall i :: 0 <= i < |segments| ==> PlainSegment(segments[i]) && PatternSegment(segments[i])
  {
    hide Split, Strip, Join, HasControl, NoDoubleStar;
    JoinSplit(Strip(value));
    PlainJoin(segments);
    CharsOfJoin(segments, '?');
    CharsOfJoin(segments, '[');
    CharsOfJoin(segments, ']');
    forall i | 0 <= i < |segments| ensures NoDoubleStar(segments[i]) <==>
      forall k, n :: 0 <= k < n < |segments[i]| && segments[i][k] == segments[i][n] == '*' ==> k + 1 < n
    {
      StarsApart(segments[i]);
    }
  }

  /** The same for a path that is no pattern: it has no star at all. */
  lemma PathIsExact(value: string, segments: seq<string>)
    requires segments == Split(Strip(value))
    ensures RepositoryPath(value, false).Some? <==>
              && Strip(value) != "" && |Strip(value)| <= 1024
              && (Strip(value) == "." || forall i :: 0 <= i < |segments| ==> segments[i] !in {"", ".", ".."})
              && forall i :: 0 <= i < |segments| ==> PlainSegment(segments[i]) && '*' !in segments[i]
  {
    hide Split, Strip, Join, HasControl;
    JoinSplit(Strip(value));
    PlainJoin(segments);
    CharsOfJoin(segments, '*');
  }

  /** The same for the path of a file: it is taken as it is, up to 4096 characters. */
  lemma FilePathIsExact(path: string, segments: seq<string>)
    requires segments == Split(path)
    ensures FilePathAccepted(path) <==>
              && path != "" && !IsSpace(path[0]) && !IsSpace(path[|path| - 1]) && |path| <= 4096
              && (path == "." || forall i :: 0 <= i < |segments| ==> segments[i] !in {"", ".", ".."})
              && forall i :: 0 <= i < |segments| ==> PlainSegment(segments[i])
  {
    hide Split, Strip, StripLeft, StripRight, Join, HasControl, IsSpace;
    JoinSplit(path);
    PlainJoin(segments);
    if path != "" { StrippedMeans(path); }
  }

  lemma StrippedMeans(s: string)
    requires s != ""
    ensures Strip(s) == s <==> !IsSpace(s[0]) && !IsSpace(s[|s| - 1])
  {
    hide IsSpace, StripLeft, StripRight;
    var left := StripLeft(s);
    if Strip(s) == s {
      assert |left| == |s| && left == s;
    } else if !IsSpace(s[0]) && !IsSpace(s[|s| - 1]) {
      Unstripped(s);
    }
  }

  /** The white space that is stripped, by code point. */
  lemma SpacesSpelled(c: char)
    ensures IsSpace(c) <==>
              || 9 <= c as int <= 13 || 28 <= c as int <= 32 || 8192 <= c as int <= 8202
              || c as int in {133, 160, 5760, 8232, 8233, 8239, 8287, 12288}
  {
  }
}
