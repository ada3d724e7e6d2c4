/** The glob compiler of src/causure/github_selection.py: path globs to regular
    expressions, and the proof that the translation preserves meaning. */
module Glob {
  import opened Paths

  // ---------------------------------------------------------------- regular expressions

  datatype CharClass = Exactly(c: char) | NotSlash | AnyButNewline {
    predicate Has(x: char) {
      match this
      case Exactly(c) => x == c
      case NotSlash => x != '/'
      case AnyButNewline => x != '\n'
    }
  }

  datatype Regex = Empty | One(cls: CharClass) | Then(first: Regex, second: Regex) | Many(body: Regex)

  /** fullmatch: the whole string belongs to the language of the expression. */
  predicate Matches(r: Regex, s: string)
    decreases |s|, r
  {
    match r
    case Empty => s == ""
    case One(cls) => |s| == 1 && cls.Has(s[0])
    case Then(first, second) => exists i :: 0 <= i <= |s| && Matches(first, s[..i]) && Matches(second, s[i..])
    case Many(body) => s == "" || exists i :: 0 < i <= |s| && Matches(body, s[..i]) && Matches(r, s[i..])
  }

  function Chain(pieces: seq<Regex>): Regex {
    if pieces == [] then Empty else Then(pieces[0], Chain(pieces[1..]))
  }

  const SEGMENTS := Many(Then(Then(One(NotSlash), Many(One(NotSlash))), One(Exactly('/'))))
  const ANYTHING := Many(One(AnyButNewline))
  const RUN := Many(One(NotSlash))

  function Literal(c: char): Regex {
    One(Exactly(c))
  }

  // ---------------------------------------------------------------- the compiler

  predicate StartsDoubleStar(s: string) {
    2 <= |s| && s[0] == '*' && s[1] == '*'
  }

  predicate StartsDoubleStarSlash(s: string) {
    StartsDoubleStar(s) && 3 <= |s| && s[2] == '/'
  }

  /** What the compiler still has to emit for the rest of a pattern; boundary
      says whether that rest starts the pattern or follows a slash. */
  function CompileRest(rest: string, boundary: bool): seq<Regex> {
    if rest == "" then []
    else if StartsDoubleStarSlash(rest) && boundary then [SEGMENTS] + CompileRest(rest[3..], true)
    else if StartsDoubleStar(rest) then [ANYTHING] + CompileRest(rest[2..], false)
    else if rest[0] == '*' then [RUN] + CompileRest(rest[1..], false)
    else [Literal(rest[0])] + CompileRest(rest[1..], rest[0] == '/')
  }

  function CompileAt(pattern: string, index: nat): seq<Regex>
    requires index <= |pattern|
  {
    CompileRest(pattern[index..], index == 0 || pattern[index - 1] == '/')
  }

  lemma CompileStep(pattern: string, index: nat)
    requires index < |pattern|
    ensures var rest, boundary := pattern[index..], index == 0 || pattern[index - 1] == '/';
            CompileAt(pattern, index)
            == if StartsDoubleStarSlash(rest) && boundary then [SEGMENTS] + CompileAt(pattern, index + 3)
               else if StartsDoubleStar(rest) then [ANYTHING] + CompileAt(pattern, index + 2)
               else if rest[0] == '*' then [RUN] + CompileAt(pattern, index + 1)
               else [Literal(rest[0])] + CompileAt(pattern, index + 1)
  {
    var rest := pattern[index..];
    assert rest[1..] == pattern[index + 1..];
    if 2 <= |rest| { assert rest[2..] == pattern[index + 2..]; }
    if 3 <= |rest| { assert rest[3..] == pattern[index + 3..]; }
  }

  lemma AppendPiece(pieces: seq<Regex>, piece: Regex, rest: seq<Regex>)
    ensures pieces + ([piece] + rest) == pieces + [piece] + rest
  {
  }

  /** _path_pattern_regex. An accepted pattern compiles to an expression that
      fully matches an accepted path exactly when the segment lists match. */
  method CompilePattern(pattern: string) returns (pieces: seq<Regex>)
    ensures pieces == CompileRest(pattern, true)
    ensures PatternAccepted(pattern) ==> MeansGlob(pieces, pattern)
  {
    pieces := [];
    var index := 0;
    while index < |pattern|
      invariant 0 <= index <= |pattern|
      invariant pieces + CompileAt(pattern, index) == CompileRest(pattern, true)
    {
      CompileStep(pattern, index);
      if StartsDoubleStarSlash(pattern[index..]) && (index == 0 || pattern[index - 1] == '/') {
        AppendPiece(pieces, SEGMENTS, CompileAt(pattern, index + 3));
        pieces := pieces + [SEGMENTS];
        index := index + 3;
      } else if StartsDoubleStar(pattern[index..]) {
        AppendPiece(pieces, ANYTHING, CompileAt(pattern, index + 2));
        pieces := pieces + [ANYTHING];
        index := index + 2;
      } else if pattern[index] == '*' {
        AppendPiece(pieces, RUN, CompileAt(pattern, index + 1));
        pieces := pieces + [RUN];
        index := index + 1;
      } else {
        AppendPiece(pieces, Literal(pattern[index]), CompileAt(pattern, index + 1));
        pieces := pieces + [Literal(pattern[index])];
        index := index + 1;
      }
    }
    assert pattern[index..] == "";
    CompiledMeaning(pattern);
  }

  // ---------------------------------------------------------------- what a glob means

  /** One segment: a star stands for any run of characters. */
  predicate SegmentMatches(glob: string, segment: string)
    decreases |glob|
  {
    if glob == "" then segment == ""
    else if glob[0] == '*' then exists i :: 0 <= i <= |segment| && SegmentMatches(glob[1..], segment[i..])
    else segment != "" && segment[0] == glob[0] && SegmentMatches(glob[1..], segment[1..])
  }

  /** A final "**" stands for one or more segments, any other for zero or more. */
  predicate SegmentsMatch(globs: seq<string>, segments: seq<string>)
    decreases |globs|
  {
    if globs == [] then segments == []
    else if globs == ["**"] then segments != []
    else if globs[0] == "**" then exists j :: 0 <= j <= |segments| && SegmentsMatch(globs[1..], segments[j..])
    else segments != [] && SegmentMatches(globs[0], segments[0]) && SegmentsMatch(globs[1..], segments[1..])
  }

  ghost predicate GlobSegments(globs: seq<string>) {
    forall i :: 0 <= i < |globs| ==> globs[i] != "" && '/' !in globs[i] && (globs[i] == "**" || NoDoubleStar(globs[i]))
  }

  ghost predicate PathSegments(segments: seq<string>) {
    forall i :: 0 <= i < |segments| ==> segments[i] != "" && '/' !in segments[i] && '\n' !in segments[i]
  }

  /** The compiled pieces decide accepted paths as the segment lists do. */
  ghost predicate MeansGlob(pieces: seq<Regex>, pattern: string) {
    forall path :: FilePathAccepted(path) ==>
      (Matches(Chain(pieces), path) <==> SegmentsMatch(Split(pattern), Split(path)))
  }

  // ---------------------------------------------------------------- proof

  ghost predicate Fits(pieces: seq<Regex>, s: string) {
    Matches(Chain(pieces), s)
  }

  lemma FitsFirst(piece: Regex, pieces: seq<Regex>, s: string)
    ensures Fits([piece] + pieces, s) <==> exists i :: 0 <= i <= |s| && Matches(piece, s[..i]) && Fits(pieces, s[i..])
  {
    assert ([piece] + pieces)[1..] == pieces;
  }

  lemma FitsLiteral(c: char, pieces: seq<Regex>, s: string)
    ensures Fits([Literal(c)] + pieces, s) <==> s != "" && s[0] == c && Fits(pieces, s[1..])
  {
    FitsFirst(Literal(c), pieces, s);
    if s != "" && s[0] == c && Fits(pieces, s[1..]) {
      assert Matches(Literal(c), s[..1]);
    }
  }

  lemma {:induction false} RunMatches(s: string)
    ensures Matches(RUN, s) <==> '/' !in s
  {
    if s != "" {
      if Matches(RUN, s) {
        var i :| 0 < i <= |s| && Matches(One(NotSlash), s[..i]) && Matches(RUN, s[i..]);
        RunMatches(s[1..]);
        assert s == [s[0]] + s[1..];
      } else if '/' !in s {
        RunMatches(s[1..]);
        assert Matches(One(NotSlash), s[..1]);
      }
    }
  }

  lemma FitsRun(pieces: seq<Regex>, s: string)
    ensures Fits([RUN] + pieces, s) <==> exists i :: 0 <= i <= |s| && '/' !in s[..i] && Fits(pieces, s[i..])
  {
    FitsFirst(RUN, pieces, s);
    forall i | 0 <= i <= |s| ensures Matches(RUN, s[..i]) <==> '/' !in s[..i] {
      RunMatches(s[..i]);
    }
  }

  lemma {:induction false} AnythingMatches(s: string)
    ensures Matches(ANYTHING, s) <==> '\n' !in s
  {
    if s != "" {
      if Matches(ANYTHING, s) {
        var i :| 0 < i <= |s| && Matches(One(AnyButNewline), s[..i]) && Matches(ANYTHING, s[i..]);
        AnythingMatches(s[1..]);
        assert s == [s[0]] + s[1..];
      } else if '\n' !in s {
        AnythingMatches(s[1..]);
        assert Matches(One(AnyButNewline), s[..1]);
      }
    }
  }

  const SEGMENT_SLASH := Then(Then(One(NotSlash), Many(One(NotSlash))), One(Exactly('/')))

  /** One whole segment with its slash. */
  lemma SegmentSlashMatches(s: string)
    ensures Matches(SEGMENT_SLASH, s) <==> 2 <= |s| && s[|s| - 1] == '/' && '/' !in s[..|s| - 1]
  {
    var name := Then(One(NotSlash), Many(One(NotSlash)));
    if Matches(SEGMENT_SLASH, s) {
      var i :| 0 <= i <= |s| && Matches(name, s[..i]) && Matches(One(Exactly('/')), s[i..]);
      assert i == |s| - 1;
      NameMatches(s[..i]);
    }
    if 2 <= |s| && s[|s| - 1] == '/' && '/' !in s[..|s| - 1] {
      NameMatches(s[..|s| - 1]);
      assert Matches(One(Exactly('/')), s[|s| - 1..]);
    }
  }

  lemma NameMatches(s: string)
    ensures Matches(Then(One(NotSlash), Many(One(NotSlash))), s) <==> s != "" && '/' !in s
  {
    if Matches(Then(One(NotSlash), Many(One(NotSlash))), s) {
      var i :| 0 <= i <= |s| && Matches(One(NotSlash), s[..i]) && Matches(RUN, s[i..]);
      RunMatches(s[1..]);
      assert s == [s[0]] + s[1..];
    }
    if s != "" && '/' !in s {
      RunMatches(s[1..]);
      assert Matches(One(NotSlash), s[..1]);
    }
  }

  /** Segment globs compile letter by letter. */
  function CompileSegment(glob: string): seq<Regex> {
    if glob == "" then [] else [if glob[0] == '*' then RUN else Literal(glob[0])] + CompileSegment(glob[1..])
  }

  /** A single star or a letter compiles to one piece. */
  lemma CompileOneChar(rest: string, boundary: bool)
    requires rest != "" && rest[0] != '/' && !StartsDoubleStar(rest)
    ensures CompileRest(rest, boundary) == [if rest[0] == '*' then RUN else Literal(rest[0])] + CompileRest(rest[1..], false)
  {
  }

  lemma NoStarFollows(glob: string, tail: string)
    requires glob != "" && NoDoubleStar(glob) && (tail == "" || tail[0] == '/')
    ensures !StartsDoubleStar(glob + tail)
  {
    var rest := glob + tail;
    if 1 < |rest| {
      assert rest[1] == if 1 < |glob| then glob[1] else tail[0];
    }
  }

  lemma {:induction false} CompileOneSegment(glob: string, tail: string, boundary: bool)
    requires '/' !in glob && NoDoubleStar(glob)
    requires tail == "" || tail[0] == '/'
    ensures CompileRest(glob + tail, boundary)
            == CompileSegment(glob) + (if tail == "" then [] else [Literal('/')] + CompileRest(tail[1..], true))
  {
    if glob == "" {
      assert glob + tail == tail;
    } else {
      assert (glob + tail)[1..] == glob[1..] + tail;
      NoStarFollows(glob, tail);
      CompileOneChar(glob + tail, boundary);
      hide CompileRest, StartsDoubleStar;
      CompileOneSegment(glob[1..], tail, false);
    }
  }

  /** A compiled segment followed by more pieces accepts a slash-free prefix
      its glob matches, followed by what the pieces accept ... */
  lemma {:induction false} SegmentAccepts(glob: string, more: seq<Regex>, s: string, i: nat)
    requires '/' !in glob && i <= |s| && '/' !in s[..i] && SegmentMatches(glob, s[..i]) && Fits(more, s[i..])
    ensures Fits(CompileSegment(glob) + more, s)
    decreases |glob|
  {
    if glob == "" {
      assert CompileSegment(glob) + more == more && s[0..] == s;
    } else if glob[0] == '*' {
      var k := StarLeaves(glob, s, i);
      assert s[k..][i - k..] == s[i..];
      SegmentAccepts(glob[1..], more, s[k..], i - k);
      CompileHead(glob, more);
      FitsRun(CompileSegment(glob[1..]) + more, s);
    } else {
      LiteralLeaves(glob, s, i);
      assert s[1..][i - 1..] == s[i..];
      SegmentAccepts(glob[1..], more, s[1..], i - 1);
      CompileHead(glob, more);
      FitsLiteral(glob[0], CompileSegment(glob[1..]) + more, s);
    }
  }

  /** ... and nothing else. */
  lemma {:induction false} SegmentConsumes(glob: string, more: seq<Regex>, s: string) returns (i: nat)
    requires '/' !in glob && Fits(CompileSegment(glob) + more, s)
    ensures i <= |s| && '/' !in s[..i] && SegmentMatches(glob, s[..i]) && Fits(more, s[i..])
    decreases |glob|
  {
    if glob == "" {
      assert CompileSegment(glob) + more == more && s[0..] == s;
      i := 0;
    } else if glob[0] == '*' {
      CompileHead(glob, more);
      FitsRun(CompileSegment(glob[1..]) + more, s);
      var k :| 0 <= k <= |s| && '/' !in s[..k] && Fits(CompileSegment(glob[1..]) + more, s[k..]);
      var rest := SegmentConsumes(glob[1..], more, s[k..]);
      StarTakes(glob, s, k, rest);
      assert s[k + rest..] == s[k..][rest..];
      i := k + rest;
    } else {
      CompileHead(glob, more);
      FitsLiteral(glob[0], CompileSegment(glob[1..]) + more, s);
      var rest := SegmentConsumes(glob[1..], more, s[1..]);
      LiteralTakes(glob, s, rest);
      assert s[rest + 1..] == s[1..][rest..];
      i := rest + 1;
    }
  }

  lemma CompileHead(glob: string, more: seq<Regex>)
    requires glob != ""
    ensures CompileSegment(glob) + more
            == [if glob[0] == '*' then RUN else Literal(glob[0])] + (CompileSegment(glob[1..]) + more)
  {
  }

  /** Split i characters off, then k more: the star took the first i. */
  lemma StarTakes(glob: string, s: string, i: nat, k: nat)
    requires glob != "" && glob[0] == '*' && i + k <= |s|
    requires '/' !in s[..i] && '/' !in s[i..][..k] && SegmentMatches(glob[1..], s[i..][..k])
    ensures '/' !in s[..i + k] && SegmentMatches(glob, s[..i + k])
  {
    assert s[..i + k] == s[..i] + s[i..][..k];
    assert s[..i + k][i..] == s[i..][..k];
  }

  lemma StarLeaves(glob: string, s: string, i: nat) returns (k: nat)
    requires glob != "" && glob[0] == '*' && i <= |s| && '/' !in s[..i] && SegmentMatches(glob, s[..i])
    ensures k <= i && '/' !in s[..k] && '/' !in s[k..][..i - k] && SegmentMatches(glob[1..], s[k..][..i - k])
  {
    k :| 0 <= k <= |s[..i]| && SegmentMatches(glob[1..], s[..i][k..]);
    assert s[..i][k..] == s[k..][..i - k];
    assert s[..i] == s[..k] + s[k..][..i - k];
  }

  /** The literal took one character, the rest of the glob the next k. */
  lemma LiteralTakes(glob: string, s: string, k: nat)
    requires glob != "" && '/' !in glob && glob[0] != '*' && s != "" && s[0] == glob[0] && k + 1 <= |s|
    requires '/' !in s[1..][..k] && SegmentMatches(glob[1..], s[1..][..k])
    ensures '/' !in s[..k + 1] && SegmentMatches(glob, s[..k + 1])
  {
    assert s[..k + 1] == [s[0]] + s[1..][..k];
    assert s[..k + 1][1..] == s[1..][..k];
  }

  lemma LiteralLeaves(glob: string, s: string, i: nat)
    requires glob != "" && glob[0] != '*' && i <= |s| && '/' !in s[..i] && SegmentMatches(glob, s[..i])
    ensures 0 < i && s[0] == glob[0] && '/' !in s[1..][..i - 1] && SegmentMatches(glob[1..], s[1..][..i - 1])
  {
    assert s[..i] != "";
    assert s[..i] == [s[0]] + s[1..][..i - 1];
    assert s[..i][1..] == s[1..][..i - 1];
  }

  // -- segment lists

  lemma JoinHead(segments: seq<string>)
    requires 2 <= |segments|
    ensures var s, n := Join(segments), |segments[0]|;
            n < |s| && s[..n] == segments[0] && s[n] == '/' && s[n + 1..] == Join(segments[1..])
  {
  }

  lemma {:induction false} JoinClean(segments: seq<string>)
    requires 1 <= |segments| && PathSegments(segments)
    ensures var s := Join(segments); s != "" && '\n' !in s && s[|s| - 1] != '/'
  {
    if |segments| > 1 {
      JoinClean(segments[1..]);
    }
  }

  lemma SlashInPrefix(s: string, n: nat, i: nat)
    requires i < n <= |s| && s[i] == '/'
    ensures '/' in s[..n]
  {
    assert s[..n][i] == '/';
  }

  lemma FirstSlash(s: string, n: nat, i: nat)
    requires n <= |s| && '/' !in s[..n] && (n < |s| ==> s[n] == '/')
    requires i <= |s| && '/' !in s[..i] && (i < |s| ==> s[i] == '/')
    ensures i == n
  {
    if i < n {
      SlashInPrefix(s, n, i);
    } else if n < i {
      SlashInPrefix(s, i, n);
    }
  }

  /** The last segment glob against a path: the path has that one segment. */
  lemma LastSegment(glob: string, segments: seq<string>)
    requires GlobSegments([glob]) && glob != "**" && 1 <= |segments| && PathSegments(segments)
    ensures Fits(CompileRest(glob, true), Join(segments)) <==> |segments| == 1 && SegmentMatches(glob, segments[0])
  {
    var s := Join(segments);
    assert [glob][0] == glob;
    CompileOneSegment(glob, "", true);
    assert glob + "" == glob && CompileSegment(glob) + [] == CompileSegment(glob);
    if Fits(CompileSegment(glob) + [], s) {
      var i := SegmentConsumes(glob, [], s);
      assert i == |s| && s[..i] == s;
      if |segments| > 1 {
        JoinHead(segments);
      }
    }
    if |segments| == 1 && SegmentMatches(glob, segments[0]) {
      assert s[..|s|] == s && s[|s|..] == "";
      SegmentAccepts(glob, [], s, |s|);
    }
  }

  lemma SlashMeansMore(segments: seq<string>, i: nat)
    requires 1 <= |segments| && PathSegments(segments) && i < |Join(segments)| && Join(segments)[i] == '/'
    ensures 2 <= |segments|
  {
  }

  lemma SlashFits(more: seq<Regex>, s: string, i: nat)
    requires i <= |s|
    ensures Fits([Literal('/')] + more, s[i..]) <==> i < |s| && s[i] == '/' && Fits(more, s[i + 1..])
  {
    FitsLiteral('/', more, s[i..]);
    if i < |s| { assert s[i..][1..] == s[i + 1..]; }
  }

  /** A compiled segment and a slash consume exactly the first segment. */
  lemma SegmentThenSlash(glob: string, more: seq<Regex>, segments: seq<string>)
    requires '/' !in glob && 1 <= |segments| && PathSegments(segments)
    ensures Fits(CompileSegment(glob) + ([Literal('/')] + more), Join(segments))
            <==> 2 <= |segments| && SegmentMatches(glob, segments[0]) && Fits(more, Join(segments[1..]))
  {
    var s := Join(segments);
    if Fits(CompileSegment(glob) + ([Literal('/')] + more), s) {
      var i := SegmentConsumes(glob, [Literal('/')] + more, s);
      SlashFits(more, s, i);
      SlashMeansMore(segments, i);
      JoinHead(segments);
      FirstSlash(s, |segments[0]|, i);
    }
    if 2 <= |segments| && SegmentMatches(glob, segments[0]) && Fits(more, Join(segments[1..])) {
      JoinHead(segments);
      SlashFits(more, s, |segments[0]|);
      SegmentAccepts(glob, [Literal('/')] + more, s, |segments[0]|);
    }
  }

  lemma InnerSegment(globs: seq<string>, segments: seq<string>)
    requires GlobSegments(globs) && 2 <= |globs| && globs[0] != "**" && 1 <= |segments| && PathSegments(segments)
    ensures Fits(CompileRest(Join(globs), true), Join(segments))
            <==> 2 <= |segments| && SegmentMatches(globs[0], segments[0])
                 && Fits(CompileRest(Join(globs[1..]), true), Join(segments[1..]))
  {
    var tail := "/" + Join(globs[1..]);
    CompileOneSegment(globs[0], tail, true);
    assert globs[0] + tail == Join(globs) && tail[1..] == Join(globs[1..]);
    SegmentThenSlash(globs[0], CompileRest(Join(globs[1..]), true), segments);
  }

  /** A leading "**" skips nothing or one more segment. */
  lemma SkipSegments(more: seq<Regex>, segments: seq<string>)
    requires 1 <= |segments| && PathSegments(segments)
    ensures Fits([SEGMENTS] + more, Join(segments))
            <==> Fits(more, Join(segments)) || (2 <= |segments| && Fits([SEGMENTS] + more, Join(segments[1..])))
  {
    var s := Join(segments);
    if Fits(more, s) {
      SkipNone(more, s);
    }
    if 2 <= |segments| && Fits([SEGMENTS] + more, Join(segments[1..])) {
      SkipOne(more, segments);
    }
    if Fits([SEGMENTS] + more, s) {
      FitsFirst(SEGMENTS, more, s);
      var i :| 0 <= i <= |s| && Matches(SEGMENTS, s[..i]) && Fits(more, s[i..]);
      if i == 0 {
        assert s[0..] == s;
      } else {
        SkippedOne(more, segments, i);
      }
    }
  }

  lemma SkipNone(more: seq<Regex>, s: string)
    requires Fits(more, s)
    ensures Fits([SEGMENTS] + more, s)
  {
    FitsFirst(SEGMENTS, more, s);
    assert s[..0] == "" && s[0..] == s && Matches(SEGMENTS, "");
  }

  lemma SkippedOne(more: seq<Regex>, segments: seq<string>, i: nat)
    requires 1 <= |segments| && PathSegments(segments)
    requires 0 < i <= |Join(segments)| && Matches(SEGMENTS, Join(segments)[..i]) && Fits(more, Join(segments)[i..])
    ensures 2 <= |segments| && Fits([SEGMENTS] + more, Join(segments[1..]))
  {
    var s := Join(segments);
    var k := FirstSkipped(s[..i]);
    assert s[..i][..k] == s[..k];
    assert s[k - 1] == '/' && s[..k][..k - 1] == s[..k - 1];
    SlashMeansMore(segments, k - 1);
    JoinHead(segments);
    FirstSlash(s, |segments[0]|, k - 1);
    var t := Join(segments[1..]);
    assert s[..i][k..] == t[..i - k] && s[i..] == t[i - k..];
    FitsFirst(SEGMENTS, more, t);
  }

  lemma FirstSkipped(s: string) returns (k: nat)
    requires s != "" && Matches(SEGMENTS, s)
    ensures 2 <= k <= |s| && s[..k][k - 1] == '/' && '/' !in s[..k][..k - 1] && Matches(SEGMENTS, s[k..])
  {
    k :| 0 < k <= |s| && Matches(SEGMENT_SLASH, s[..k]) && Matches(SEGMENTS, s[k..]);
    SegmentSlashMatches(s[..k]);
  }

  lemma SkipOne(more: seq<Regex>, segments: seq<string>)
    requires 2 <= |segments| && PathSegments(segments)
    requires Fits([SEGMENTS] + more, Join(segments[1..]))
    ensures Fits([SEGMENTS] + more, Join(segments))
  {
    var s, t, n := Join(segments), Join(segments[1..]), |segments[0]|;
    JoinHead(segments);
    FitsFirst(SEGMENTS, more, t);
    var i :| 0 <= i <= |t| && Matches(SEGMENTS, t[..i]) && Fits(more, t[i..]);
    var j := n + 1 + i;
    assert s[..j] == (segments[0] + "/") + t[..i] && s[j..] == t[i..];
    SegmentsGrow(segments[0], t[..i]);
    FitsFirst(SEGMENTS, more, s);
  }

  lemma SegmentsGrow(segment: string, rest: string)
    requires segment != "" && '/' !in segment && Matches(SEGMENTS, rest)
    ensures Matches(SEGMENTS, (segment + "/") + rest)
  {
    var first := segment + "/";
    var s := first + rest;
    assert first[..|first| - 1] == segment;
    SegmentSlashMatches(first);
    assert s[..|first|] == first && s[|first|..] == rest;
    assert Matches(SEGMENT_SLASH, s[..|first|]) && Matches(SEGMENTS, s[|first|..]);
  }

  lemma {:induction false} NothingLeft(globs: seq<string>)
    requires globs != []
    ensures !SegmentsMatch(globs, [])
    decreases |globs|
  {
    if globs != ["**"] && globs[0] == "**" {
      assert |globs| > 1 by { assert |globs| == 1 ==> globs == ["**"]; }
      NothingLeft(globs[1..]);
    }
  }

  lemma SkipMeans(globs: seq<string>, segments: seq<string>)
    requires 2 <= |globs| && globs[0] == "**" && 1 <= |segments|
    ensures SegmentsMatch(globs, segments)
            <==> SegmentsMatch(globs[1..], segments) || (2 <= |segments| && SegmentsMatch(globs, segments[1..]))
  {
    if SegmentsMatch(globs, segments) {
      var j :| 0 <= j <= |segments| && SegmentsMatch(globs[1..], segments[j..]);
      if j == 0 {
        assert segments[0..] == segments;
      } else {
        assert segments[1..][j - 1..] == segments[j..];
        if |segments| == 1 { assert segments[j..] == []; NothingLeft(globs[1..]); }
      }
    }
    if SegmentsMatch(globs[1..], segments) {
      assert segments[0..] == segments;
    }
    if 2 <= |segments| && SegmentsMatch(globs, segments[1..]) {
      var j :| 0 <= j <= |segments[1..]| && SegmentsMatch(globs[1..], segments[1..][j..]);
      assert segments[1..][j..] == segments[j + 1..];
    }
  }

  lemma {:induction false} SegmentListsAgree(globs: seq<string>, segments: seq<string>)
    requires GlobSegments(globs) && 1 <= |globs| && PathSegments(segments) && 1 <= |segments|
    ensures Fits(CompileRest(Join(globs), true), Join(segments)) <==> SegmentsMatch(globs, segments)
    decreases |globs| + |segments|
  {
    if globs == ["**"] {
      FinalStars(segments);
    } else if globs[0] == "**" {
      assert |globs| > 1 by { assert |globs| == 1 ==> globs == ["**"]; }
      LeadingStars(globs);
      SkipSegments(CompileRest(Join(globs[1..]), true), segments);
      SkipMeans(globs, segments);
      SegmentListsAgree(globs[1..], segments);
      if 2 <= |segments| { SegmentListsAgree(globs, segments[1..]); }
    } else if |globs| == 1 {
      assert globs == [globs[0]];
      LastSegment(globs[0], segments);
      assert globs[1..] == [];
    } else {
      InnerSegment(globs, segments);
      if 2 <= |segments| {
        SegmentListsAgree(globs[1..], segments[1..]);
      } else {
        assert segments[1..] == [];
        NothingLeft(globs[1..]);
      }
    }
  }

  lemma LeadingStars(globs: seq<string>)
    requires 2 <= |globs| && globs[0] == "**"
    ensures CompileRest(Join(globs), true) == [SEGMENTS] + CompileRest(Join(globs[1..]), true)
  {
    var rest := Join(globs);
    assert rest == "**" + "/" + Join(globs[1..]);
    assert rest[..3] == "**/" && rest[3..] == Join(globs[1..]);
  }

  lemma FinalStars(segments: seq<string>)
    requires 1 <= |segments| && PathSegments(segments)
    ensures Fits(CompileRest(Join(["**"]), true), Join(segments))
  {
    var s := Join(segments);
    assert Join(["**"]) == "**" && "**"[2..] == "" && "**"[..2] == "**";
    assert CompileRest("**", true) == [ANYTHING] + CompileRest("", false);
    JoinClean(segments);
    AnythingMatches(s);
    FitsFirst(ANYTHING, [], s);
    assert s[..|s|] == s && s[|s|..] == "";
    assert CompileRest("", false) == [] && Fits([], "");
    assert [ANYTHING] + CompileRest("", false) == [ANYTHING] + [];
  }

  lemma AcceptedSegments(path: string)
    requires path != "" && Contained(path)
    ensures forall i :: 0 <= i < |Split(path)| ==> Split(path)[i] != ""
  {
    if path == "." {
      SplitJoin(["."]);
      assert Join(["."]) == ".";
    }
  }

  lemma {:induction false} NewlineStays(s: string)
    requires '\n' !in s
    ensures forall i :: 0 <= i < |Split(s)| ==> '\n' !in Split(s)[i]
  {
    if s != "" {
      NewlineStays(s[1..]);
    }
  }

  lemma AcceptedPattern(pattern: string)
    requires PatternAccepted(pattern)
    ensures GlobSegments(Split(pattern))
  {
    AcceptedSegments(pattern);
  }

  lemma AcceptedPath(path: string)
    requires FilePathAccepted(path)
    ensures PathSegments(Split(path))
  {
    AcceptedSegments(path);
    assert forall i :: 0 <= i < |path| ==> path[i] != '\n';
    NewlineStays(path);
  }

  /** For every accepted pattern and path, the compiled expression fully
      matches exactly when the segment lists match. */
  lemma {:induction false} CompilerPreservesMeaning(pattern: string, path: string)
    requires PatternAccepted(pattern) && FilePathAccepted(path)
    ensures Matches(Chain(CompileRest(pattern, true)), path) <==> SegmentsMatch(Split(pattern), Split(path))
  {
    JoinSplit(pattern);
    JoinSplit(path);
    AcceptedPattern(pattern);
    AcceptedPath(path);
    SegmentListsAgree(Split(pattern), Split(path));
  }

  lemma CompiledMeaning(pattern: string)
    ensures PatternAccepted(pattern) ==> MeansGlob(CompileRest(pattern, true), pattern)
  {
    if PatternAccepted(pattern) {
      forall path | FilePathAccepted(path)
        ensures Matches(Chain(CompileRest(pattern, true)), path) <==> SegmentsMatch(Split(pattern), Split(path))
      {
        CompilerPreservesMeaning(pattern, path);
      }
    }
  }
}
