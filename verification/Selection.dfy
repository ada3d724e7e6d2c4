/** Pull-request file discovery and component selection
    (src/causure/github_selection.py), with the server's answers as inputs. */
module Selection {
  import opened Vocabulary
  import opened Paths
  import opened Glob
  import opened Sequences
  import opened Sorting
  import opened Configuration

  const MAX_FILES := 500
  const PER_PAGE := 100

  datatype ChangedFile = ChangedFile(path: string, previous: Option<string>)

  datatype SelectionError =
    | Transport | ResponseInvalid | ResponseIncomplete | PullRequestChanged | TooManyFiles
    | GovernanceChanged(path: string) | AmbiguousComponents(ids: seq<string>)

  // ---------------------------------------------------------------- discovery

  datatype Identity = Identity(
    number: int, baseId: int, baseName: string, baseSha: string, headId: int, headName: string, headSha: string)

  /** One answer of the pull-request endpoint. */
  datatype PullRequest = PullRequest(identity: Identity, changedFiles: nat)

  function Folded(identity: Identity, fold: string -> string): Identity {
    identity.(baseName := fold(identity.baseName), headName := fold(identity.headName))
  }

  /** What discovery remembers of an answer: the head repository name is not part of it. */
  datatype Snapshot = Snapshot(
    number: int, baseSha: string, headSha: string, changedFiles: nat, baseName: string, headId: int)

  function TakeSnapshot(answer: Result<PullRequest, SelectionError>, expected: Identity, fold: string -> string)
    : Result<Snapshot, SelectionError>
  {
    if answer.Err? then Err(answer.error)
    else
      var pr := answer.value;
      if Folded(pr.identity, fold) != Folded(expected, fold) then Err(PullRequestChanged)
      else if pr.changedFiles > MAX_FILES then Err(TooManyFiles)
      else Ok(Snapshot(pr.identity.number, pr.identity.baseSha, pr.identity.headSha, pr.changedFiles,
                       pr.identity.baseName, pr.identity.headId))
  }

  predicate FileAccepted(file: ChangedFile) {
    FilePathAccepted(file.path) && (file.previous.Some? ==> FilePathAccepted(file.previous.value))
  }

  function ParsePage(answer: Result<seq<ChangedFile>, SelectionError>): Result<seq<ChangedFile>, SelectionError> {
    if answer.Err? then answer
    else if forall i :: 0 <= i < |answer.value| ==> FileAccepted(answer.value[i]) then answer
    else Err(ResponseInvalid)
  }

  function PageCount(files: nat): nat {
    (files + PER_PAGE - 1) / PER_PAGE
  }

  /** How many entries page p (from 1) must have. */
  function PageSize(files: nat, p: nat): int {
    if p * PER_PAGE <= files then PER_PAGE else files - (p - 1) * PER_PAGE
  }

  type Pages = int -> Result<seq<ChangedFile>, SelectionError>

  ghost predicate PageFits(files: nat, pages: Pages, p: nat) {
    ParsePage(pages(p)).Ok? && |ParsePage(pages(p)).value| == PageSize(files, p)
  }

  ghost predicate PagesFit(files: nat, pages: Pages, count: nat) {
    forall p: nat :: 1 <= p <= count ==> PageFits(files, pages, p)
  }

  lemma PagesCover(files: nat)
    ensures files <= PageCount(files) * PER_PAGE < files + PER_PAGE
  {
  }

  /** The entries of the first pages, in order. */
  ghost function Listed(pages: Pages, count: nat): seq<ChangedFile> {
    if count == 0 then []
    else Listed(pages, count - 1) + (if ParsePage(pages(count)).Ok? then ParsePage(pages(count)).value else [])
  }

  predicate DistinctPaths(files: seq<ChangedFile>) {
    forall i, j :: 0 <= i < j < |files| ==> files[i].path != files[j].path
  }

  function PreviousOrEmpty(file: ChangedFile): string {
    match file.previous
    case None => ""
    case Some(path) => path
  }

  /** Order by (path, previous path or the empty string). */
  predicate FileLe(a: ChangedFile, b: ChangedFile) {
    StringLess(a.path, b.path) || (a.path == b.path && StringLe(PreviousOrEmpty(a), PreviousOrEmpty(b)))
  }

  lemma FilePreorder()
    ensures Preorder(FileLe)
  {
    forall x, y ensures FileLe(x, y) || FileLe(y, x) {
      StringTotal(x.path, y.path);
      StringTotal(PreviousOrEmpty(x), PreviousOrEmpty(y));
    }
    forall x, y, z | FileLe(x, y) && FileLe(y, z) ensures FileLe(x, z) {
      StringTotal(x.path, y.path);
      StringTotal(y.path, z.path);
      StringTransitive(x.path, y.path, z.path);
      if x.path == y.path == z.path {
        StringTransitive(PreviousOrEmpty(x), PreviousOrEmpty(y), PreviousOrEmpty(z));
      }
    }
  }

  /** Exactly the answers discovery accepts: one unchanged snapshot of the
      expected pull request around pages of the announced sizes, no path twice. */
  ghost predicate Discoverable(
    before: Result<PullRequest, SelectionError>, pages: Pages, after: Result<PullRequest, SelectionError>,
    expected: Identity, fold: string -> string)
  {
    var snapshot := TakeSnapshot(before, expected, fold);
    && snapshot.Ok?
    && TakeSnapshot(after, expected, fold) == snapshot
    && var n := snapshot.value.changedFiles;
       PagesFit(n, pages, PageCount(n)) && DistinctPaths(Listed(pages, PageCount(n)))
  }

  /** The page loop. */
  method CollectPages(expectedCount: nat, pages: Pages) returns (result: Result<seq<ChangedFile>, SelectionError>)
    ensures result.Ok? <==> PagesFit(expectedCount, pages, PageCount(expectedCount))
    ensures result.Ok? ==> result.value == Listed(pages, PageCount(expectedCount)) && |result.value| == expectedCount
  {
    var files: seq<ChangedFile> := [];
    PagesCover(expectedCount);
    for page := 1 to PageCount(expectedCount) + 1
      invariant PagesFit(expectedCount, pages, page - 1)
      invariant files == Listed(pages, page - 1)
      invariant |files| == if (page - 1) * PER_PAGE <= expectedCount then (page - 1) * PER_PAGE else expectedCount
    {
      var parsed := ParsePage(pages(page));
      if parsed.Err? {
        assert !PageFits(expectedCount, pages, page);
        return Err(parsed.error);
      }
      var size := if PER_PAGE <= expectedCount - |files| then PER_PAGE else expectedCount - |files|;
      assert size == PageSize(expectedCount, page);
      assert PageFits(expectedCount, pages, page) <==> |parsed.value| == size;
      if |parsed.value| != size { return Err(ResponseIncomplete); }
      files := files + parsed.value;
    }
    return Ok(files);
  }

  /** discover_github_pull_request_files: either every announced file under one
      unchanged snapshot, sorted and without a repeated path, or an error. */
  method Discover(
    before: Result<PullRequest, SelectionError>, pages: Pages, after: Result<PullRequest, SelectionError>,
    expected: Identity, fold: string -> string) returns (result: Result<seq<ChangedFile>, SelectionError>)
    ensures result.Ok? <==> Discoverable(before, pages, after, expected, fold)
    ensures result.Ok? ==>
              && before.Ok? && after.Ok?
              && Folded(before.value.identity, fold) == Folded(after.value.identity, fold) == Folded(expected, fold)
              && |result.value| == before.value.changedFiles == after.value.changedFiles <= MAX_FILES
              && multiset(result.value) == multiset(Listed(pages, PageCount(before.value.changedFiles)))
              && SortedBy(result.value, FileLe) && DistinctPaths(result.value)
              && forall f :: f in result.value ==> FileAccepted(f)
  {
    var first := TakeSnapshot(before, expected, fold);
    if first.Err? { return Err(first.error); }
    var collected := CollectPages(first.value.changedFiles, pages);
    if collected.Err? { return Err(collected.error); }
    var files := collected.value;
    var last := TakeSnapshot(after, expected, fold);
    if last.Err? { return Err(last.error); }
    if last.value != first.value { return Err(PullRequestChanged); }
    if |files| != first.value.changedFiles || !DistinctPaths(files) { return Err(ResponseIncomplete); }
    SortedFiles(files);
    ListedAreAccepted(first.value.changedFiles, pages, PageCount(first.value.changedFiles));
    SameElements(files, Sort(files, FileLe));
    return Ok(Sort(files, FileLe));
  }

  lemma {:induction false} ListedAreAccepted(files: nat, pages: Pages, count: nat)
    requires PagesFit(files, pages, count)
    ensures forall f :: f in Listed(pages, count) ==> FileAccepted(f)
  {
    hide FileAccepted;
    if count > 0 {
      ListedAreAccepted(files, pages, count - 1);
      assert PageFits(files, pages, count);
    }
  }

  /** An answer names the expected pull request: the repository names up to case. */
  ghost predicate Names(answer: Result<PullRequest, SelectionError>, expected: Identity, fold: string -> string) {
    && answer.Ok?
    && var id := answer.value.identity;
       && id.number == expected.number && id.baseId == expected.baseId && id.headId == expected.headId
       && id.baseSha == expected.baseSha && id.headSha == expected.headSha
       && fold(id.baseName) == fold(expected.baseName) && fold(id.headName) == fold(expected.headName)
  }

  /** Page p of n announced files is there, has the entries it must have, and all of them are well formed. */
  ghost predicate PageComplete(n: nat, pages: Pages, p: nat) {
    && pages(p).Ok?
    && |pages(p).value| == (if 100 * p <= n then 100 else n - 100 * (p - 1))
    && forall f :: f in pages(p).value ==> FileAccepted(f)
  }

  /** When discovery succeeds, over the answers alone: both name the expected pull
      request, spell its base repository alike and announce the same number of
      files, at most 500; pages of a hundred cover it; no path is listed twice. */
  lemma DiscoveryIsExact(
    before: Result<PullRequest, SelectionError>, pages: Pages, after: Result<PullRequest, SelectionError>,
    expected: Identity, fold: string -> string)
    ensures Discoverable(before, pages, after, expected, fold) <==>
              && Names(before, expected, fold) && Names(after, expected, fold)
              && before.value.changedFiles == after.value.changedFiles <= 500
              && before.value.identity.baseName == after.value.identity.baseName
              && var n := before.value.changedFiles;
                 && (forall p: nat :: 1 <= p <= (n + 99) / 100 ==> PageComplete(n, pages, p))
                 && DistinctPaths(Listed(pages, (n + 99) / 100))
  {
    hide FileAccepted, DistinctPaths, Listed;
    if Names(before, expected, fold) {
      var n := before.value.changedFiles;
      assert PageCount(n) == (n + 99) / 100;
      forall p: nat | 1 <= p <= PageCount(n) ensures PageFits(n, pages, p) <==> PageComplete(n, pages, p) {
        PageFitsMeans(n, pages, p);
      }
      assert PagesFit(n, pages, PageCount(n)) <==> forall p: nat :: 1 <= p <= (n + 99) / 100 ==> PageComplete(n, pages, p);
      hide PageFits, PagesFit, PageComplete, PageCount;
    }
  }

  lemma PageFitsMeans(n: nat, pages: Pages, p: nat)
    requires p >= 1
    ensures PageFits(n, pages, p) <==> PageComplete(n, pages, p)
  {
    hide FileAccepted;
    if pages(p).Ok? && forall f :: f in pages(p).value ==> FileAccepted(f) {
      assert forall i :: 0 <= i < |pages(p).value| ==> FileAccepted(pages(p).value[i]);
    }
  }

  lemma SortedFiles(files: seq<ChangedFile>)
    requires DistinctPaths(files)
    ensures SortedBy(Sort(files, FileLe), FileLe) && DistinctPaths(Sort(files, FileLe))
  {
    FilePreorder();
    SortSorts(files, FileLe);
    PathsStayDistinct(files, Sort(files, FileLe));
  }

  function PathsOf(files: seq<ChangedFile>): seq<string> {
    Map(files, (file: ChangedFile) => file.path)
  }

  lemma PathsStayDistinct(a: seq<ChangedFile>, b: seq<ChangedFile>)
    requires multiset(a) == multiset(b) && DistinctPaths(a)
    ensures DistinctPaths(b)
  {
    MapPermutes(a, b, (file: ChangedFile) => file.path);
    DistinctStays(PathsOf(a), PathsOf(b));
  }

  // ---------------------------------------------------------------- selection

  datatype Chosen = Chosen(
    componentId: string, component: string, componentPath: string, matchedPaths: seq<string>, caseFile: string,
    policyFile: string, retentionDays: int)

  predicate PatternMatches(pattern: string, path: string) {
    Matches(Chain(CompileRest(pattern, true)), path)
  }

  predicate FileMatches(patterns: seq<string>, file: ChangedFile) {
    exists i :: 0 <= i < |patterns|
      && (PatternMatches(patterns[i], file.path) || (file.previous.Some? && PatternMatches(patterns[i], file.previous.value)))
  }

  /** Paths of the files a component's patterns match, sorted. */
  function MatchedPaths(component: Component, files: seq<ChangedFile>): seq<string> {
    Sort(PathsOf(Filter(files, file => FileMatches(component.paths, file))), StringLe)
  }

  function MatchedBy(files: seq<ChangedFile>): Component -> seq<string> {
    component => MatchedPaths(component, files)
  }

  function Matching(components: seq<Component>, matched: Component -> seq<string>): seq<Component> {
    Filter(components, component => matched(component) != [])
  }

  /** The policy file, taken relative to the configuration's directory. */
  function PolicyPath(configPath: string, policyFile: string): string {
    var parts := PathParts(configPath);
    AsPosix((if parts == [] then [] else parts[..|parts| - 1]) + PathParts(policyFile))
  }

  predicate Touched(path: string, files: seq<ChangedFile>, fold: string -> string) {
    exists i :: 0 <= i < |files|
      && (fold(files[i].path) == fold(path) || (files[i].previous.Some? && fold(files[i].previous.value) == fold(path)))
  }

  function GovernanceError(files: seq<ChangedFile>, configPath: string, policyPath: string, fold: string -> string)
    : Option<SelectionError>
  {
    if !FilePathAccepted(configPath) || !FilePathAccepted(policyPath) then Some(ResponseInvalid)
    else if Touched(configPath, files, fold) then Some(GovernanceChanged(configPath))
    else if Touched(policyPath, files, fold) then Some(GovernanceChanged(policyPath))
    else None
  }

  function Choose(project: Project, component: Component, matchedPaths: seq<string>, policyPath: string): Chosen
    requires matchedPaths != []
  {
    Chosen(component.componentId, component.component, matchedPaths[0], matchedPaths, component.caseFile, policyPath,
           project.retentionDays)
  }

  function Select(project: Project, files: seq<ChangedFile>, configPath: string, fold: string -> string)
    : Result<Option<Chosen>, SelectionError>
  {
    var policyPath := PolicyPath(configPath, project.policyFile);
    Unless(GovernanceError(files, configPath, policyPath, fold), SelectFrom(project, MatchedBy(files), policyPath))
  }

  function Unless(error: Option<SelectionError>, outcome: Result<Option<Chosen>, SelectionError>)
    : Result<Option<Chosen>, SelectionError>
  {
    if error.Some? then Err(error.value) else outcome
  }

  /** The choice once it is known which paths each component matches. */
  function SelectFrom(project: Project, matched: Component -> seq<string>, policyPath: string)
    : Result<Option<Chosen>, SelectionError>
  {
    var matching := Matching(project.components, matched);
    if |matching| > 1 then Err(AmbiguousComponents(Map(matching, (c: Component) => c.componentId)))
    else if matching == [] || matched(matching[0]) == [] then Ok(None)
    else Ok(Some(Choose(project, matching[0], matched(matching[0]), policyPath)))
  }

  /** The loop: components with at least one matched path, and those paths. */
  method CollectMatches(components: seq<Component>, matched: Component -> seq<string>)
    returns (matches: seq<(Component, seq<string>)>)
    ensures |matches| == |Matching(components, matched)|
    ensures forall k :: 0 <= k < |matches| ==>
              matches[k].0 == Matching(components, matched)[k] && matches[k].1 == matched(matches[k].0) != []
  {
    matches := [];
    for i := 0 to |components|
      invariant |matches| == |Matching(components[..i], matched)|
      invariant forall k :: 0 <= k < |matches| ==>
                  matches[k].0 == Matching(components[..i], matched)[k] && matches[k].1 == matched(matches[k].0) != []
    {
      assert components[..i + 1][..i] == components[..i];
      var matchedPaths := matched(components[i]);
      if matchedPaths != [] {
        matches := matches + [(components[i], matchedPaths)];
      }
    }
    assert components[..|components|] == components;
  }

  /** select_configured_github_change. */
  method SelectChange(project: Project, files: seq<ChangedFile>, configPath: string, fold: string -> string)
    returns (result: Result<Option<Chosen>, SelectionError>)
    ensures result == Select(project, files, configPath, fold)
  {
    var policyPath := PolicyPath(configPath, project.policyFile);
    var error := GovernanceError(files, configPath, policyPath, fold);
    if error.Some? { return Err(error.value); }
    result := SelectMatching(project, MatchedBy(files), policyPath);
  }

  method SelectMatching(project: Project, matched: Component -> seq<string>, policyPath: string)
    returns (result: Result<Option<Chosen>, SelectionError>)
    ensures result == SelectFrom(project, matched, policyPath)
  {
    var matches := CollectMatches(project.components, matched);
    if matches == [] { return Ok(None); }
    if |matches| > 1 {
      var ids := Map(matches, (m: (Component, seq<string>)) => m.0.componentId);
      assert ids == Map(Matching(project.components, matched), (c: Component) => c.componentId);
      return Err(AmbiguousComponents(ids));
    }
    return Ok(Some(Choose(project, matches[0].0, matches[0].1, policyPath)));
  }

  // -- what a selection means

  /** A glob of the component matches the current or previous path, as segment lists. */
  ghost predicate Configured(component: Component, file: ChangedFile) {
    exists i :: 0 <= i < |component.paths|
      && (|| SegmentsMatch(Split(component.paths[i]), Split(file.path))
          || (file.previous.Some? && SegmentsMatch(Split(component.paths[i]), Split(file.previous.value))))
  }

  ghost predicate Usable(project: Project, files: seq<ChangedFile>) {
    && (forall c :: c in project.components ==> forall i :: 0 <= i < |c.paths| ==> PatternAccepted(c.paths[i]))
    && (forall f :: f in files ==> FileAccepted(f))
  }

  lemma FileMatchesMeaning(component: Component, file: ChangedFile)
    requires FileAccepted(file) && forall i :: 0 <= i < |component.paths| ==> PatternAccepted(component.paths[i])
    ensures FileMatches(component.paths, file) <==> Configured(component, file)
  {
    forall i | 0 <= i < |component.paths|
      ensures PatternMatches(component.paths[i], file.path) <==> SegmentsMatch(Split(component.paths[i]), Split(file.path))
      ensures file.previous.Some? ==>
                (PatternMatches(component.paths[i], file.previous.value)
                 <==> SegmentsMatch(Split(component.paths[i]), Split(file.previous.value)))
    {
      CompilerPreservesMeaning(component.paths[i], file.path);
      if file.previous.Some? { CompilerPreservesMeaning(component.paths[i], file.previous.value); }
    }
  }

  lemma MatchedPathsMembers(component: Component, files: seq<ChangedFile>)
    ensures forall p :: p in MatchedPaths(component, files)
                        <==> exists f :: f in files && FileMatches(component.paths, f) && f.path == p
  {
    FilteredPaths(files, file => FileMatches(component.paths, file));
  }

  lemma FilteredPaths(files: seq<ChangedFile>, matches: ChangedFile -> bool)
    ensures forall p :: p in Sort(PathsOf(Filter(files, matches)), StringLe) <==> exists f :: f in files && matches(f) && f.path == p
  {
    var kept := Filter(files, matches);
    FilterMembers(files, matches);
    SameElements(PathsOf(kept), Sort(PathsOf(kept), StringLe));
    forall f | f in kept ensures f.path in PathsOf(kept) {
      var i :| 0 <= i < |kept| && kept[i] == f;
      assert PathsOf(kept)[i] == f.path;
    }
    forall p | p in PathsOf(kept) ensures exists f :: f in files && matches(f) && f.path == p {
      var i :| 0 <= i < |kept| && PathsOf(kept)[i] == p;
      assert kept[i] in kept;
    }
  }

  ghost predicate Hit(component: Component, files: seq<ChangedFile>) {
    exists f :: f in files && Configured(component, f)
  }

  lemma MatchedMeaning(component: Component, files: seq<ChangedFile>)
    requires forall i :: 0 <= i < |component.paths| ==> PatternAccepted(component.paths[i])
    requires forall f :: f in files ==> FileAccepted(f)
    ensures forall p :: p in MatchedPaths(component, files) <==> exists f :: f in files && Configured(component, f) && f.path == p
    ensures MatchedPaths(component, files) != [] <==> Hit(component, files)
  {
    MatchedPathsMembers(component, files);
    forall f | f in files ensures FileMatches(component.paths, f) <==> Configured(component, f) {
      FileMatchesMeaning(component, f);
    }
    var paths := MatchedPaths(component, files);
    if paths != [] {
      assert paths[0] in paths;
    }
    if f :| f in files && Configured(component, f) {
      assert f.path in paths;
    }
  }

  lemma AnyMatching(components: seq<Component>, matched: Component -> seq<string>)
    ensures Matching(components, matched) == [] <==> forall c :: c in components ==> matched(c) == []
    ensures Matching(components, matched) != [] ==> matched(Matching(components, matched)[0]) != []
  {
    FilterMembers(components, c => matched(c) != []);
    var matching := Matching(components, matched);
    if matching != [] {
      assert matching[0] in matching;
    }
    forall c | c in components && matched(c) != [] ensures c in matching {
    }
  }

  /** Neither the configuration nor the policy file is changed, renamed or
      spelled in a way that a changed file could not be. */
  predicate GovernanceUntouched(project: Project, files: seq<ChangedFile>, configPath: string, fold: string -> string) {
    var policyPath := PolicyPath(configPath, project.policyFile);
    && FilePathAccepted(configPath) && FilePathAccepted(policyPath)
    && !Touched(configPath, files, fold) && !Touched(policyPath, files, fold)
  }

  ghost predicate HitAt(project: Project, files: seq<ChangedFile>, i: int) {
    0 <= i < |project.components| && Hit(project.components[i], files)
  }

  ghost predicate NothingHit(project: Project, files: seq<ChangedFile>) {
    forall i :: 0 <= i < |project.components| ==> !HitAt(project, files, i)
  }

  ghost predicate OnlyHit(project: Project, files: seq<ChangedFile>, i: int) {
    HitAt(project, files, i) && forall j :: 0 <= j < |project.components| && j != i ==> !HitAt(project, files, j)
  }

  ghost predicate TwoHit(project: Project, files: seq<ChangedFile>) {
    exists i, j :: 0 <= i < j < |project.components| && HitAt(project, files, i) && HitAt(project, files, j)
  }

  /** How many components match, and how many are hit. */
  lemma MatchingCounts(project: Project, files: seq<ChangedFile>)
    requires Usable(project, files)
    ensures var n := |Matching(project.components, MatchedBy(files))|;
            && (n == 0 <==> NothingHit(project, files))
            && (n == 1 <==> exists i :: OnlyHit(project, files, i))
            && (n >= 2 <==> TwoHit(project, files))
  {
    hide Hit, MatchedBy, Usable, Filter;
    var components, matched := project.components, MatchedBy(files);
    var p := (c: Component) => matched(c) != [];
    forall i | 0 <= i < |components| ensures p(components[i]) <==> HitAt(project, files, i) {
      MatchedIsHit(project, files, i);
    }
    NoneKept(components, p);
    if |Filter(components, p)| == 1 {
      var i := OnlyFiltered(components, p);
      assert OnlyHit(project, files, i);
    }
    if i :| OnlyHit(project, files, i) {
      KeptOnce(components, p, i);
    }
    if |Filter(components, p)| >= 2 {
      var i, j := TwoKept(components, p);
      assert HitAt(project, files, i) && HitAt(project, files, j);
    }
    if TwoHit(project, files) {
      var i, j :| 0 <= i < j < |components| && HitAt(project, files, i) && HitAt(project, files, j);
      KeptTwice(components, p, i, j);
    }
  }

  lemma FirstMatchingIsMatched(components: seq<Component>, matched: Component -> seq<string>)
    ensures Matching(components, matched) != [] ==> matched(Matching(components, matched)[0]) != []
  {
    AnyMatching(components, matched);
  }

  /** The four outcomes of a selection over well-formed paths: nothing, one
      component, an ambiguity or a governance change, each exactly when no
      component, one, or several are hit by the changed files, and governance is
      untouched or not. */
  lemma SelectionIsExact(project: Project, files: seq<ChangedFile>, configPath: string, fold: string -> string)
    requires Usable(project, files)
    ensures var outcome := Select(project, files, configPath, fold);
            var untouched := GovernanceUntouched(project, files, configPath, fold);
            && (outcome == Ok(None) <==> untouched && NothingHit(project, files))
            && (outcome.Ok? && outcome.value.Some? <==> untouched && exists i :: OnlyHit(project, files, i))
            && (outcome.Err? && outcome.error.AmbiguousComponents? <==> untouched && TwoHit(project, files))
            && (outcome.Ok? || outcome.error.AmbiguousComponents? <==> untouched)
  {
    hide Hit, MatchedBy, Usable, Matching, Touched, FilePathAccepted, PolicyPath, OnlyHit, NothingHit, TwoHit;
    MatchingCounts(project, files);
    FirstMatchingIsMatched(project.components, MatchedBy(files));
  }

  /** An ambiguity names exactly the components that are hit. */
  lemma AmbiguityNamesTheHit(project: Project, files: seq<ChangedFile>, configPath: string, fold: string -> string)
    requires Usable(project, files)
    requires Select(project, files, configPath, fold).Err? && Select(project, files, configPath, fold).error.AmbiguousComponents?
    ensures forall id :: id in Select(project, files, configPath, fold).error.ids <==>
                         exists i :: HitAt(project, files, i) && project.components[i].componentId == id
  {
    hide Hit, MatchedBy, Usable, Touched, FilePathAccepted, PolicyPath, Filter;
    var components, matched := project.components, MatchedBy(files);
    var matching, ids := Matching(components, matched), Select(project, files, configPath, fold).error.ids;
    FilterMembers(components, c => matched(c) != []);
    forall id | id in ids ensures exists i :: HitAt(project, files, i) && components[i].componentId == id {
      var k :| 0 <= k < |ids| && ids[k] == id;
      assert matching[k] in matching;
      var i :| 0 <= i < |components| && components[i] == matching[k];
      MatchedIsHit(project, files, i);
      assert HitAt(project, files, i);
    }
    forall i | HitAt(project, files, i) ensures components[i].componentId in ids {
      MatchedIsHit(project, files, i);
      assert components[i] in matching;
      var k :| 0 <= k < |matching| && matching[k] == components[i];
      assert ids[k] == components[i].componentId;
    }
  }

  // -- governance over segments

  /** The path of a file that is named relative to the directory of another. */
  ghost function Beside(path: string, file: string): string {
    var segments := Split(path);
    var beside := segments[..|segments| - 1] + (if file == "." then [] else Split(file));
    if beside == [] then "." else Join(beside)
  }

  lemma PolicyLiesBeside(configPath: string, policyFile: string)
    requires Contained(configPath) && Contained(policyFile)
    ensures PolicyPath(configPath, policyFile) == Beside(configPath, policyFile)
  {
    hide Split, Join, Filter, Contained;
    ContainedParts(configPath);
    ContainedParts(policyFile);
    if configPath == "." { SplitDot(); }
  }

  /** No file is at the path, or was, whatever the case of the letters. */
  ghost predicate Spares(files: seq<ChangedFile>, path: string, fold: string -> string) {
    forall f :: f in files ==> fold(f.path) != fold(path) && (f.previous.Some? ==> fold(f.previous.value) != fold(path))
  }

  lemma SparedMeans(path: string, files: seq<ChangedFile>, fold: string -> string)
    ensures Touched(path, files, fold) <==> !Spares(files, path, fold)
  {
    if !Spares(files, path, fold) {
      var f :| f in files && (fold(f.path) == fold(path) || (f.previous.Some? && fold(f.previous.value) == fold(path)));
      var i :| 0 <= i < |files| && files[i] == f;
    }
  }

  /** Governance is untouched exactly when both paths are well formed and no
      changed file is, or was, the configuration or the policy beside it; a
      change of either is refused and named; and the policy chosen is that one. */
  lemma GovernanceIsExact(project: Project, files: seq<ChangedFile>, configPath: string, fold: string -> string)
    requires Contained(project.policyFile)
    ensures var policy := Beside(configPath, project.policyFile);
            var outcome := Select(project, files, configPath, fold);
            var named := FilePathAccepted(configPath) && FilePathAccepted(policy);
            && (GovernanceUntouched(project, files, configPath, fold) <==>
                  named && Spares(files, configPath, fold) && Spares(files, policy, fold))
            && (named && !Spares(files, configPath, fold) ==> outcome == Err(GovernanceChanged(configPath)))
            && (named && Spares(files, configPath, fold) && !Spares(files, policy, fold) ==> outcome == Err(GovernanceChanged(policy)))
            && (!named ==> outcome == Err(ResponseInvalid))
            && (outcome.Ok? && outcome.value.Some? ==> outcome.value.value.policyFile == policy)
  {
    hide Touched, Spares, SelectFrom, PolicyPath, Beside;
    var policy := PolicyPath(configPath, project.policyFile);
    SparedMeans(configPath, files, fold);
    SparedMeans(policy, files, fold);
    if FilePathAccepted(configPath) { PolicyLiesBeside(configPath, project.policyFile); }
    hide FilePathAccepted;
    ChosenPolicy(project, MatchedBy(files), policy);
  }

  lemma ChosenPolicy(project: Project, matched: Component -> seq<string>, policyPath: string)
    ensures var outcome := SelectFrom(project, matched, policyPath);
            && (outcome.Ok? && outcome.value.Some? ==>
                  outcome.value.value.policyFile == policyPath && outcome.value.value.retentionDays == project.retentionDays)
            && (outcome.Err? ==> outcome.error.AmbiguousComponents?)
  {
  }

  /** A pull request that changes the policy in the configuration's own directory
      is refused, however the policy is renamed or spelled. */
  lemma PolicyChangeIsRefused(project: Project, files: seq<ChangedFile>, configPath: string, fold: string -> string,
                              dir: seq<string>, name: string, file: ChangedFile)
    requires FilePathAccepted(configPath) && Split(configPath) == dir + [name]
    requires Contained(project.policyFile) && project.policyFile != "."
    requires FilePathAccepted(Join(dir + Split(project.policyFile))) && file in files
    requires var policy := Join(dir + Split(project.policyFile));
             fold(file.path) == fold(policy) || (file.previous.Some? && fold(file.previous.value) == fold(policy))
    ensures Select(project, files, configPath, fold).Err? && Select(project, files, configPath, fold).error.GovernanceChanged?
  {
    hide FilePathAccepted, Split, Join, Select, Contained;
    assert Split(configPath)[..|Split(configPath)| - 1] == dir;
    GovernanceIsExact(project, files, configPath, fold);
  }

  ghost predicate ChosenFrom(component: Component, files: seq<ChangedFile>, chosen: Chosen) {
    && chosen.componentId == component.componentId && chosen.component == component.component
    && chosen.caseFile == component.caseFile
    && SortedBy(chosen.matchedPaths, StringLe) && chosen.matchedPaths != [] && chosen.componentPath == chosen.matchedPaths[0]
    && forall p :: p in chosen.matchedPaths <==> exists f :: f in files && Configured(component, f) && f.path == p
  }

  lemma OnlyMatching(project: Project, matched: Component -> seq<string>, policyPath: string) returns (i: nat)
    requires SelectFrom(project, matched, policyPath).Ok? && SelectFrom(project, matched, policyPath).value.Some?
    ensures i < |project.components|
    ensures forall j :: 0 <= j < |project.components| ==> (matched(project.components[j]) != [] <==> j == i)
    ensures SelectFrom(project, matched, policyPath).value.value
            == Choose(project, project.components[i], matched(project.components[i]), policyPath)
  {
    i := OnlyFiltered(project.components, c => matched(c) != []);
  }

  /** A selection names the only component hit, with exactly its matched paths in order. */
  lemma SelectionIsUnique(project: Project, files: seq<ChangedFile>, configPath: string, fold: string -> string) returns (i: nat)
    requires Usable(project, files)
    requires Select(project, files, configPath, fold).Ok? && Select(project, files, configPath, fold).value.Some?
    ensures i < |project.components| && Hit(project.components[i], files)
    ensures forall j :: 0 <= j < |project.components| && j != i ==> !Hit(project.components[j], files)
    ensures ChosenFrom(project.components[i], files, Select(project, files, configPath, fold).value.value)
    ensures GovernanceUntouched(project, files, configPath, fold)
    ensures Select(project, files, configPath, fold).value.value.retentionDays == project.retentionDays
    ensures Contained(project.policyFile) ==>
              Select(project, files, configPath, fold).value.value.policyFile == Beside(configPath, project.policyFile)
  {
    hide Hit, Contained, Beside, MatchedBy, Usable, Touched, FilePathAccepted, PolicyPath, SelectFrom, ChosenFrom, Choose;
    var matched := MatchedBy(files);
    i := OnlyMatching(project, matched, PolicyPath(configPath, project.policyFile));
    forall j | 0 <= j < |project.components| ensures Hit(project.components[j], files) <==> j == i {
      MatchedIsHit(project, files, j);
    }
    ChosenMeaning(project, files, i, PolicyPath(configPath, project.policyFile));
    ChosenPolicy(project, matched, PolicyPath(configPath, project.policyFile));
    if Contained(project.policyFile) { GovernanceIsExact(project, files, configPath, fold); }
  }

  lemma MatchedIsHit(project: Project, files: seq<ChangedFile>, j: nat)
    requires Usable(project, files) && j < |project.components|
    ensures MatchedBy(files)(project.components[j]) != [] <==> Hit(project.components[j], files)
  {
    assert project.components[j] in project.components;
    MatchedMeaning(project.components[j], files);
  }

  lemma ChosenMeaning(project: Project, files: seq<ChangedFile>, i: nat, policyPath: string)
    requires Usable(project, files) && i < |project.components| && MatchedBy(files)(project.components[i]) != []
    ensures ChosenFrom(project.components[i], files,
                       Choose(project, project.components[i], MatchedBy(files)(project.components[i]), policyPath))
  {
    assert project.components[i] in project.components;
    MatchedMeaning(project.components[i], files);
    MatchedPathsSorted(project.components[i], files);
  }

  lemma MatchedPathsSorted(component: Component, files: seq<ChangedFile>)
    ensures SortedBy(MatchedPaths(component, files), StringLe)
  {
    StringPreorder();
    SortSorts(PathsOf(Filter(files, file => FileMatches(component.paths, file))), StringLe);
  }

  // -- permutations

  lemma MatchedPathsPermute(component: Component, a: seq<ChangedFile>, b: seq<ChangedFile>)
    requires multiset(a) == multiset(b)
    ensures MatchedPaths(component, a) == MatchedPaths(component, b)
  {
    var matches := (file: ChangedFile) => FileMatches(component.paths, file);
    FilterPermutes(a, b, matches);
    MapPermutes(Filter(a, matches), Filter(b, matches), (file: ChangedFile) => file.path);
    StringPreorder();
    StringsUntied(PathsOf(Filter(a, matches)));
    SortCanonical(PathsOf(Filter(a, matches)), PathsOf(Filter(b, matches)), StringLe);
  }

  lemma SelectFromAgrees(project: Project, m: Component -> seq<string>, m': Component -> seq<string>, policyPath: string)
    requires forall c :: c in project.components ==> m(c) == m'(c)
    ensures SelectFrom(project, m, policyPath) == SelectFrom(project, m', policyPath)
  {
    FilterAgrees(project.components, c => m(c) != [], c => m'(c) != []);
    FilterMembers(project.components, c => m(c) != []);
    var matching := Matching(project.components, m);
    if matching != [] {
      assert matching[0] in matching;
    }
  }

  lemma TouchedPermutes(path: string, a: seq<ChangedFile>, b: seq<ChangedFile>, fold: string -> string)
    requires multiset(a) == multiset(b) && Touched(path, a, fold)
    ensures Touched(path, b, fold)
  {
    SameElements(a, b);
    var i :| 0 <= i < |a|
      && (fold(a[i].path) == fold(path) || (a[i].previous.Some? && fold(a[i].previous.value) == fold(path)));
    assert a[i] in b;
  }

  lemma GovernancePermutes(
    a: seq<ChangedFile>, b: seq<ChangedFile>, configPath: string, policyPath: string, fold: string -> string)
    requires multiset(a) == multiset(b)
    ensures GovernanceError(a, configPath, policyPath, fold) == GovernanceError(b, configPath, policyPath, fold)
  {
    forall path ensures Touched(path, a, fold) <==> Touched(path, b, fold) {
      if Touched(path, a, fold) { TouchedPermutes(path, a, b, fold); }
      if Touched(path, b, fold) { TouchedPermutes(path, b, a, fold); }
    }
  }

  /** The outcome, errors included, does not depend on the order of the files. */
  lemma SelectionIgnoresOrder(
    project: Project, a: seq<ChangedFile>, b: seq<ChangedFile>, configPath: string, fold: string -> string)
    requires multiset(a) == multiset(b)
    ensures Select(project, a, configPath, fold) == Select(project, b, configPath, fold)
  {
    var policyPath := PolicyPath(configPath, project.policyFile);
    assert GovernanceError(a, configPath, policyPath, fold) == GovernanceError(b, configPath, policyPath, fold) by {
      GovernancePermutes(a, b, configPath, policyPath, fold);
    }
    assert SelectFrom(project, MatchedBy(a), policyPath) == SelectFrom(project, MatchedBy(b), policyPath) by {
      MatchedByPermutes(a, b);
      SelectFromAgrees(project, MatchedBy(a), MatchedBy(b), policyPath);
    }
  }

  lemma MatchedByPermutes(a: seq<ChangedFile>, b: seq<ChangedFile>)
    requires multiset(a) == multiset(b)
    ensures forall c :: MatchedBy(a)(c) == MatchedBy(b)(c)
  {
    forall c ensures MatchedBy(a)(c) == MatchedBy(b)(c) {
      MatchedPathsPermute(c, a, b);
    }
  }
}
