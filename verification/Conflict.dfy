/** Conflict and base-drift risk of a change. Whether a path is policy sensitive is a parameter. */
module Conflict {
  import opened Domain
  import opened Text

  function NormalizedPath(path: string): string {
    TrimPrefix(TrimSpace(path), "./")
  }

  predicate HasConflictMarkers(patch: string) {
    Contains(patch, "<<<<<<< ") && Contains(patch, "=======") && Contains(patch, ">>>>>>> ")
  }

  // ---- What the assessment counts -------------------------------------------------------------------

  predicate Drifted(baseSHA: string, currentBaseSHA: string) {
    baseSHA != "" && currentBaseSHA != "" && baseSHA != currentBaseSHA
  }

  /** A file with a path after normalization; the others are skipped. */
  predicate Considered(file: ChangedFile) {
    NormalizedPath(file.path) != ""
  }

  /** The paths as written of the files that normalize to one path. */
  function WrittenAs(files: seq<ChangedFile>, path: string): seq<string> {
    if files == [] then []
    else
      var last := files[|files| - 1];
      WrittenAs(files[..|files| - 1], path) + if NormalizedPath(last.path) == path then [last.path] else []
  }

  function NormalizedPaths(files: seq<ChangedFile>): set<string> {
    set file | file in files && Considered(file) :: NormalizedPath(file.path)
  }

  /** Normalized paths that two or more diff entries modify. */
  function Overlaps(files: seq<ChangedFile>): set<string> {
    set path | path in NormalizedPaths(files) && |WrittenAs(files, path)| >= 2
  }

  function SensitivePaths(files: seq<ChangedFile>, sensitive: string -> bool): set<string> {
    set file | file in files && Considered(file) && sensitive(NormalizedPath(file.path)) :: file.path
  }

  function MarkerPaths(files: seq<ChangedFile>): set<string> {
    set file | file in files && Considered(file) && HasConflictMarkers(file.patch) :: file.path
  }

  function Members(paths: seq<string>): set<string> {
    set path | path in paths
  }

  ghost predicate SortedFrom(listing: seq<string>, paths: set<string>) {
    StrictlySorted(listing) && Members(listing) == paths
  }

  function Score(drifted: bool, overlaps: nat, sensitive: bool, markers: bool): nat {
    var total :=
      (if drifted then 25 else 0) + 20 * overlaps + (if sensitive then 10 else 0) + (if markers then 45 else 0);
    if total < 100 then total else 100
  }

  function Route(drifted: bool, overlaps: nat, sensitive: bool, markers: bool): ConflictRoute {
    if markers then ConflictRouteHumanResolution
    else if drifted || overlaps > 0 || sensitive then ConflictRouteRefreshAndVerify
    else ConflictRouteNone
  }

  const DRIFT := ConflictFinding("base_drift", SeverityHigh, [])

  /** The findings: drift, then one per overlapping path in the order visited, then sensitive files, then
    * markers; each with the sorted distinct paths it is about. */
  ghost predicate Findings(findings: seq<ConflictFinding>, visits: seq<string>, files: seq<ChangedFile>, drifted: bool,
                           sensitive: string -> bool)
  {
    var s, m := SensitivePaths(files, sensitive), MarkerPaths(files);
    var d := if drifted then 1 else 0;
    var n := d + |visits|;
    var k := if s != {} then 1 else 0;
    && |findings| == n + k + (if m != {} then 1 else 0)
    && (drifted ==> findings[0] == DRIFT)
    && (forall i | 0 <= i < |visits| :: OverlapFinding(findings[d + i], files, visits[i]))
    && (s != {} ==> IsAbout(findings[n], "policy_sensitive_files", SeverityMedium, s))
    && (m != {} ==> IsAbout(findings[n + k], "conflict_markers", SeverityCritical, m))
  }

  ghost predicate OverlapFinding(finding: ConflictFinding, files: seq<ChangedFile>, path: string) {
    IsAbout(finding, "overlapping_diff_entries", SeverityMedium, Members(WrittenAs(files, path)))
  }

  ghost predicate IsAbout(finding: ConflictFinding, kind: string, severity: Severity, paths: set<string>) {
    finding.kind == kind && finding.severity == severity && SortedFrom(finding.paths, paths)
  }

  /** What the analyzer may answer: only the order of the overlap findings is left open. */
  ghost predicate IsAssessment(assessment: ConflictAssessment, files: seq<ChangedFile>, drifted: bool,
                               sensitive: string -> bool)
  {
    var overlaps, anySensitive := |Overlaps(files)|, SensitivePaths(files, sensitive) != {};
    var anyMarkers := MarkerPaths(files) != {};
    && assessment.score == Score(drifted, overlaps, anySensitive, anyMarkers)
    && assessment.route == Route(drifted, overlaps, anySensitive, anyMarkers)
    && assessment.requiresHumanResolution == anyMarkers
    && exists visits ::
         Enumerates(visits, Overlaps(files)) && Findings(assessment.findings, visits, files, drifted, sensitive)
  }

  // ---- The analyzer ---------------------------------------------------------------------------------

  method UniqueSorted(paths: seq<string>) returns (listing: seq<string>)
    ensures SortedFrom(listing, Members(paths))
  {
    listing := SortedListing(Members(paths));
  }

  method FindingAbout(kind: string, severity: Severity, written: seq<string>) returns (finding: ConflictFinding)
    ensures IsAbout(finding, kind, severity, Members(written))
  {
    var paths := UniqueSorted(written);
    finding := ConflictFinding(kind, severity, paths);
  }

  ghost predicate Gathered(seen: map<string, seq<string>>, files: seq<ChangedFile>) {
    && seen.Keys == NormalizedPaths(files)
    && forall path | path in seen :: seen[path] == WrittenAs(files, path)
  }

  function WithFile(seen: map<string, seq<string>>, path: string, written: string): map<string, seq<string>> {
    seen[path := (if path in seen then seen[path] else []) + [written]]
  }

  method Collect(files: seq<ChangedFile>, sensitive: string -> bool)
    returns (seen: map<string, seq<string>>, sensitivePaths: seq<string>, markerPaths: seq<string>)
    ensures Gathered(seen, files)
    ensures Members(sensitivePaths) == SensitivePaths(files, sensitive)
    ensures Members(markerPaths) == MarkerPaths(files)
  {
    hide HasConflictMarkers, NormalizedPath, Gathered, WithFile, SensitivePaths, MarkerPaths;
    seen, sensitivePaths, markerPaths := map[], [], [];
    NothingCollected(sensitive);
    for i := 0 to |files|
      invariant Gathered(seen, files[..i])
      invariant Members(sensitivePaths) == SensitivePaths(files[..i], sensitive)
      invariant Members(markerPaths) == MarkerPaths(files[..i])
    {
      var file := files[i];
      var path := NormalizedPath(file.path);
      assert files[..i + 1] == files[..i] + [file];
      MoreFiles(files[..i], file, sensitive);
      GatheredMore(seen, files[..i], file);
      if path != "" {
        seen := WithFile(seen, path, file.path);
        if HasConflictMarkers(file.patch) {
          markerPaths := markerPaths + [file.path];
        }
        if sensitive(path) {
          sensitivePaths := sensitivePaths + [file.path];
        }
      }
    }
    assert files[..|files|] == files;
  }

  lemma NothingCollected(sensitive: string -> bool)
    ensures Gathered(map[], []) && SensitivePaths([], sensitive) == {} && MarkerPaths([]) == {}
    ensures NormalizedPaths([]) == {} && forall path :: WrittenAs([], path) == []
  {
  }

  lemma GatheredMore(seen: map<string, seq<string>>, files: seq<ChangedFile>, file: ChangedFile)
    requires Gathered(seen, files)
    ensures Gathered(if Considered(file) then WithFile(seen, NormalizedPath(file.path), file.path) else seen,
                     files + [file])
  {
    hide HasConflictMarkers, NormalizedPath, WrittenAs;
    MoreFiles(files, file, path => false);
    var written := NormalizedPath(file.path);
    if Considered(file) {
      WrittenOnlyWhenPresent(files, written);
    }
    var next := if Considered(file) then WithFile(seen, written, file.path) else seen;
    forall path | path in next
      ensures next[path] == WrittenAs(files + [file], path)
    {
    }
  }

  lemma MoreFiles(files: seq<ChangedFile>, file: ChangedFile, sensitive: string -> bool)
    ensures NormalizedPaths(files + [file]) ==
            NormalizedPaths(files) + if Considered(file) then {NormalizedPath(file.path)} else {}
    ensures SensitivePaths(files + [file], sensitive) ==
            SensitivePaths(files, sensitive) +
            if Considered(file) && sensitive(NormalizedPath(file.path)) then {file.path} else {}
    ensures MarkerPaths(files + [file]) ==
            MarkerPaths(files) + if Considered(file) && HasConflictMarkers(file.patch) then {file.path} else {}
    ensures forall path :: WrittenAs(files + [file], path) ==
              WrittenAs(files, path) + if NormalizedPath(file.path) == path then [file.path] else []
  {
    hide HasConflictMarkers, NormalizedPath;
    assert (files + [file])[..|files|] == files;
    assert forall f :: f in files + [file] <==> f in files || f == file;
  }

  lemma {:induction false} WrittenOnlyWhenPresent(files: seq<ChangedFile>, path: string)
    requires path != ""
    ensures path in NormalizedPaths(files) <==> WrittenAs(files, path) != []
  {
    hide NormalizedPath, NormalizedPaths, SensitivePaths, MarkerPaths, WrittenAs;
    if files == [] {
      NothingCollected(_ => false);
    } else {
      var before, last := files[..|files| - 1], files[|files| - 1];
      WrittenOnlyWhenPresent(before, path);
      assert files == before + [last];
      MoreFiles(before, last, _ => false);
    }
  }

  ghost predicate ReportInOrder(findings: seq<ConflictFinding>, visits: seq<string>, files: seq<ChangedFile>) {
    |findings| == |visits| && forall i | 0 <= i < |visits| :: OverlapFinding(findings[i], files, visits[i])
  }

  /** The overlap findings, one per path of two or more entries, in the order the map yields them. */
  method OverlapFindings(files: seq<ChangedFile>, seen: map<string, seq<string>>, score0: nat, route0: ConflictRoute)
    returns (findings: seq<ConflictFinding>, score: nat, route: ConflictRoute)
    requires Gathered(seen, files)
    ensures exists visits :: Enumerates(visits, Overlaps(files)) && ReportInOrder(findings, visits, files)
    ensures score == score0 + 20 * |findings|
    ensures route == if route0.ConflictRouteNone? && findings != [] then ConflictRouteRefreshAndVerify else route0
  {
    hide Gathered, Overlaps, OverlapFinding, SortedFrom, Enumerates;
    findings := [];
    ghost var visits := [];
    score, route := score0, route0;
    var left := seen.Keys;
    OverlapsAreSeen(seen, files);
    NothingEnumerated();
    assert Overlaps(files) - left == {};
    while left != {}
      invariant left <= seen.Keys
      invariant Enumerates(visits, Overlaps(files) - left)
      invariant ReportInOrder(findings, visits, files)
      invariant score == score0 + 20 * |findings|
      invariant route == if route0.ConflictRouteNone? && findings != [] then ConflictRouteRefreshAndVerify else route0
    {
      var path :| path in left;
      OverlapsWhenRepeated(seen, files, path);
      OneMoreVisit(visits, Overlaps(files), left, path);
      left := left - {path};
      if |seen[path]| >= 2 {
        var finding := OverlapFound(files, seen, path);
        findings := findings + [finding];
        score := score + 20;
        if route.ConflictRouteNone? {
          route := ConflictRouteRefreshAndVerify;
        }
        visits := visits + [path];
      }
    }
    assert Overlaps(files) - left == Overlaps(files);
  }

  lemma OverlapsAreSeen(seen: map<string, seq<string>>, files: seq<ChangedFile>)
    requires Gathered(seen, files)
    ensures Overlaps(files) <= seen.Keys
  {
  }

  lemma OverlapsWhenRepeated(seen: map<string, seq<string>>, files: seq<ChangedFile>, path: string)
    requires Gathered(seen, files) && path in seen
    ensures path in Overlaps(files) <==> |seen[path]| >= 2
  {
    hide NormalizedPaths, WrittenAs;
  }

  method OverlapFound(files: seq<ChangedFile>, seen: map<string, seq<string>>, path: string)
    returns (finding: ConflictFinding)
    requires Gathered(seen, files) && path in seen
    ensures OverlapFinding(finding, files, path)
  {
    hide NormalizedPaths, WrittenAs, IsAbout, Members;
    finding := FindingAbout("overlapping_diff_entries", SeverityMedium, seen[path]);
  }

  /** Lists each path once. */
  ghost predicate Enumerates(visits: seq<string>, paths: set<string>) {
    Members(visits) == paths && |visits| == |paths|
  }

  lemma NothingEnumerated()
    ensures Enumerates([], {})
  {
  }

  lemma OneMoreVisit(visits: seq<string>, overlaps: set<string>, left: set<string>, path: string)
    requires path in left && Enumerates(visits, overlaps - left)
    ensures Enumerates(if path in overlaps then visits + [path] else visits, overlaps - (left - {path}))
  {
    if path !in overlaps {
      assert overlaps - (left - {path}) == overlaps - left;
    } else {
      assert overlaps - (left - {path}) == (overlaps - left) + {path};
    }
  }

  /** Whatever order the seen paths are visited in, the score, the route and the findings are these. */
  method Analyze(files: seq<ChangedFile>, baseSHA: string, metadataBaseSHA: string, sensitive: string -> bool)
    returns (assessment: ConflictAssessment)
    ensures IsAssessment(assessment, files, Drifted(baseSHA, TrimSpace(metadataBaseSHA)), sensitive)
  {
    hide TrimSpace, IsAssessment, Overlaps, SensitivePaths, MarkerPaths, ReportInOrder, Enumerates, Gathered, Members,
         About, DRIFT;
    var currentBaseSHA := TrimSpace(metadataBaseSHA);
    var seen, sensitivePaths, markerPaths := Collect(files, sensitive);
    var drift: seq<ConflictFinding> := [];
    var score, route := 0, ConflictRouteNone;
    if Drifted(baseSHA, currentBaseSHA) {
      drift := [DRIFT];
      score := score + 25;
      route := ConflictRouteRefreshAndVerify;
    }
    var overlapping;
    overlapping, score, route := OverlapFindings(files, seen, score, route);
    var aboutSensitive := FindingsAbout("policy_sensitive_files", SeverityMedium, sensitivePaths);
    if |aboutSensitive| > 0 {
      score := score + 10;
      if route.ConflictRouteNone? {
        route := ConflictRouteRefreshAndVerify;
      }
    }
    var aboutMarkers := FindingsAbout("conflict_markers", SeverityCritical, markerPaths);
    var human := false;
    if |aboutMarkers| > 0 {
      score := score + 45;
      human := true;
      route := ConflictRouteHumanResolution;
    }
    var findings := drift + overlapping + aboutSensitive + aboutMarkers;
    assessment := ConflictAssessment(route, if score < 100 then score else 100, human, findings);
    Concludes(assessment, drift, overlapping, aboutSensitive, aboutMarkers, files, Drifted(baseSHA, currentBaseSHA),
              sensitive);
  }

  /** One finding on the paths, none when there are none. */
  method FindingsAbout(kind: string, severity: Severity, written: seq<string>) returns (findings: seq<ConflictFinding>)
    ensures About(findings, kind, severity, Members(written))
  {
    hide IsAbout, Members;
    AnyMember(written);
    findings := [];
    if |written| > 0 {
      var finding := FindingAbout(kind, severity, written);
      findings := [finding];
    }
  }

  lemma Concludes(assessment: ConflictAssessment, drift: seq<ConflictFinding>, overlapping: seq<ConflictFinding>,
                  aboutSensitive: seq<ConflictFinding>, aboutMarkers: seq<ConflictFinding>, files: seq<ChangedFile>,
                  drifted: bool, sensitive: string -> bool)
    requires drift == if drifted then [DRIFT] else []
    requires exists visits :: Enumerates(visits, Overlaps(files)) && ReportInOrder(overlapping, visits, files)
    requires About(aboutSensitive, "policy_sensitive_files", SeverityMedium, SensitivePaths(files, sensitive))
    requires About(aboutMarkers, "conflict_markers", SeverityCritical, MarkerPaths(files))
    requires assessment.findings == drift + overlapping + aboutSensitive + aboutMarkers
    requires assessment.score == Score(drifted, |overlapping|, |aboutSensitive| > 0, |aboutMarkers| > 0)
    requires assessment.route == Route(drifted, |overlapping|, |aboutSensitive| > 0, |aboutMarkers| > 0)
    requires assessment.requiresHumanResolution == (|aboutMarkers| > 0)
    ensures IsAssessment(assessment, files, drifted, sensitive)
  {
    hide Findings, IsAbout, Overlaps, SensitivePaths, MarkerPaths, ReportInOrder, Enumerates, DRIFT, Score, Route;
    var visits :| Enumerates(visits, Overlaps(files)) && ReportInOrder(overlapping, visits, files);
    OneFindingPerOverlap(overlapping, visits, files);
    ArrangedFindings(drift, overlapping, aboutSensitive, aboutMarkers, visits, files, drifted, sensitive);
  }

  lemma OneFindingPerOverlap(findings: seq<ConflictFinding>, visits: seq<string>, files: seq<ChangedFile>)
    requires Enumerates(visits, Overlaps(files)) && ReportInOrder(findings, visits, files)
    ensures |findings| == |Overlaps(files)|
  {
  }

  ghost predicate About(findings: seq<ConflictFinding>, kind: string, severity: Severity, paths: set<string>) {
    && |findings| == (if paths == {} then 0 else 1)
    && (paths != {} ==> IsAbout(findings[0], kind, severity, paths))
  }

  lemma ArrangedFindings(drift: seq<ConflictFinding>, overlapping: seq<ConflictFinding>,
                         aboutSensitive: seq<ConflictFinding>, aboutMarkers: seq<ConflictFinding>, visits: seq<string>,
                         files: seq<ChangedFile>, drifted: bool, sensitive: string -> bool)
    requires drift == if drifted then [DRIFT] else []
    requires ReportInOrder(overlapping, visits, files)
    requires About(aboutSensitive, "policy_sensitive_files", SeverityMedium, SensitivePaths(files, sensitive))
    requires About(aboutMarkers, "conflict_markers", SeverityCritical, MarkerPaths(files))
    ensures Findings(drift + overlapping + aboutSensitive + aboutMarkers, visits, files, drifted, sensitive)
  {
    hide SortedFrom, SensitivePaths, MarkerPaths, OverlapFinding, IsAbout, DRIFT;
    FourParts(drift, overlapping, aboutSensitive, aboutMarkers);
  }

  lemma FourParts<T>(a: seq<T>, b: seq<T>, c: seq<T>, d: seq<T>)
    ensures var all := a + b + c + d;
            && |all| == |a| + |b| + |c| + |d|
            && (forall i | 0 <= i < |a| :: all[i] == a[i])
            && (forall i | 0 <= i < |b| :: all[|a| + i] == b[i])
            && (|c| > 0 ==> all[|a| + |b|] == c[0])
            && (|d| > 0 ==> all[|a| + |b| + |c|] == d[0])
  {
  }

  lemma AnyMember(paths: seq<string>)
    ensures Members(paths) != {} <==> |paths| > 0
  {
    if |paths| > 0 {
      assert paths[0] in Members(paths);
    }
  }

  // ---- Laws -----------------------------------------------------------------------------------------

  function RouteRank(route: ConflictRoute): nat {
    match route
    case ConflictRouteNone => 0
    case ConflictRouteRefreshAndVerify => 1
    case ConflictRouteHumanResolution => 2
  }

  function ScoreOf(files: seq<ChangedFile>, drifted: bool, sensitive: string -> bool): nat {
    Score(drifted, |Overlaps(files)|, SensitivePaths(files, sensitive) != {}, MarkerPaths(files) != {})
  }

  function RouteOf(files: seq<ChangedFile>, drifted: bool, sensitive: string -> bool): ConflictRoute {
    Route(drifted, |Overlaps(files)|, SensitivePaths(files, sensitive) != {}, MarkerPaths(files) != {})
  }

  /** No route, no score and no finding go together; a human is needed exactly when there are markers. */
  lemma NoneExactlyWhenNothingFound(assessment: ConflictAssessment, files: seq<ChangedFile>, drifted: bool,
                                    sensitive: string -> bool)
    requires IsAssessment(assessment, files, drifted, sensitive)
    ensures assessment.route.ConflictRouteNone? <==> assessment.findings == []
    ensures assessment.score == 0 <==> assessment.findings == []
    ensures assessment.findings == [] <==>
              !drifted && Overlaps(files) == {} && SensitivePaths(files, sensitive) == {} && MarkerPaths(files) == {}
    ensures assessment.route.ConflictRouteHumanResolution? <==> assessment.requiresHumanResolution
    ensures assessment.requiresHumanResolution <==> MarkerPaths(files) != {}
    ensures 0 <= assessment.score <= 100
  {
    hide SortedFrom, SensitivePaths, MarkerPaths, Overlaps, Members, OverlapFinding, IsAbout, DRIFT;
    Cardinality(Overlaps(files));
  }

  lemma Cardinality(paths: set<string>)
    ensures |paths| == 0 <==> paths == {}
  {
  }

  /** Another diff entry never lowers the score or the route. */
  lemma AppendingNeverLowers(files: seq<ChangedFile>, file: ChangedFile, drifted: bool, sensitive: string -> bool)
    ensures ScoreOf(files, drifted, sensitive) <= ScoreOf(files + [file], drifted, sensitive)
    ensures RouteRank(RouteOf(files, drifted, sensitive)) <= RouteRank(RouteOf(files + [file], drifted, sensitive))
  {
    hide HasConflictMarkers, NormalizedPath, Considered, NormalizedPaths, SensitivePaths, MarkerPaths, Overlaps,
         WrittenAs;
    MoreFiles(files, file, sensitive);
    OverlapsStay(files, file, sensitive);
    SubsetSize(Overlaps(files), Overlaps(files + [file]));
  }

  lemma OverlapsStay(files: seq<ChangedFile>, file: ChangedFile, sensitive: string -> bool)
    ensures Overlaps(files) <= Overlaps(files + [file])
  {
    hide HasConflictMarkers, NormalizedPath, Considered, NormalizedPaths, SensitivePaths, MarkerPaths, WrittenAs;
    MoreFiles(files, file, sensitive);
    forall path | path in Overlaps(files)
      ensures path in Overlaps(files + [file])
    {
      assert |WrittenAs(files + [file], path)| >= |WrittenAs(files, path)|;
    }
  }

  lemma SubsetSize(a: set<string>, b: set<string>)
    requires a <= b
    ensures |a| <= |b|
  {
    assert b == a + (b - a);
  }
}
