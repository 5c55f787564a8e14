/** What the conflict findings are about, told from the paths as written, and what each finding is worth. */
module ConflictLaws {
  import opened Domain
  import opened Text
  import opened Bags
  import opened Conflict

  // ---- Paths ------------------------------------------------------------------------------------------

  /** A way of writing the path: spaces around it, and at most one "./" before it. */
  ghost predicate Spells(written: string, path: string) {
    exists before, after :: Blank(before) && Blank(after) && SpelledWith(written, path, before, after)
  }

  ghost predicate SpelledWith(written: string, path: string, before: string, after: string) {
    written == before + path + after || written == before + "./" + path + after
  }

  predicate Plain(path: string) {
    Bare(path) && !("./" <= path)
  }

  /** A path without outer spaces or a leading "./" is what exactly its spellings normalize to. */
  lemma NormalizesExactlySpellings(written: string, path: string)
    requires Plain(path)
    ensures NormalizedPath(written) == path <==> Spells(written, path)
  {
    hide IsSpace, Blank, TrimSpace;
    if before, after :| Blank(before) && Blank(after) && SpelledWith(written, path, before, after) {
      SpellingNormalizes(written, path, before, after);
    }
    if NormalizedPath(written) == path {
      TrimSpaceEmpties(written);
      var before, core, after := BetweenSpaces(written);
      TrimSpaceFinds(before, core, after);
      if "./" <= core {
        assert core == "./" + core[2..];
        assert before + core + after == before + "./" + core[2..] + after;
      }
      assert SpelledWith(written, path, before, after);
    }
  }

  lemma SpellingNormalizes(written: string, path: string, before: string, after: string)
    requires Plain(path) && Blank(before) && Blank(after) && SpelledWith(written, path, before, after)
    ensures NormalizedPath(written) == path
  {
    hide IsSpace, Blank, TrimSpace;
    if written == before + path + after {
      TrimSpaceFinds(before, path, after);
      PrefixTakenOff("./", path);
    } else {
      DotIsNoSpace(path);
      assert before + "./" + path + after == before + ("./" + path) + after;
      TrimSpaceFinds(before, "./" + path, after);
      PrefixTakenOff("./", path);
    }
  }

  lemma DotIsNoSpace(path: string)
    requires Bare(path)
    ensures Bare("./" + path)
  {
  }

  /** Such a path is reported as overlapping exactly when two diff entries spell it. */
  lemma OverlapsExactlyWhenSpelledTwice(files: seq<ChangedFile>, path: string)
    requires Plain(path)
    ensures path in Overlaps(files) <==>
            exists i, j | 0 <= i < j < |files| :: Spells(files[i].path, path) && Spells(files[j].path, path)
  {
    hide NormalizedPath, Spells, Plain, Overlaps, WrittenAs, NormalizedPaths;
    forall i | 0 <= i < |files|
      ensures Spells(files[i].path, path) <==> NormalizedPath(files[i].path) == path
    {
      NormalizesExactlySpellings(files[i].path, path);
    }
    WrittenTwice(files, path);
    PlainIsNotEmpty(path);
    OverlapsByWriting(files, path);
  }

  lemma PlainIsNotEmpty(path: string)
    requires Plain(path)
    ensures path != ""
  {
  }

  lemma OverlapsByWriting(files: seq<ChangedFile>, path: string)
    requires path != ""
    ensures path in Overlaps(files) <==> |WrittenAs(files, path)| >= 2
  {
    hide NormalizedPath, WrittenAs, NormalizedPaths;
    WrittenOnlyWhenPresent(files, path);
  }

  lemma {:induction false} WrittenTwice(files: seq<ChangedFile>, path: string)
    ensures |WrittenAs(files, path)| >= 1 <==> exists i | 0 <= i < |files| :: NormalizedPath(files[i].path) == path
    ensures |WrittenAs(files, path)| >= 2 <==>
            exists i, j | 0 <= i < j < |files| :: NormalizedPath(files[i].path) == path
                   && NormalizedPath(files[j].path) == path
  {
    hide NormalizedPath;
    if files != [] {
      var last := |files| - 1;
      var before := files[..last];
      WrittenTwice(before, path);
      assert forall i | 0 <= i < last :: before[i] == files[i];
      if NormalizedPath(files[last].path) == path && |WrittenAs(before, path)| >= 1 {
        var i :| 0 <= i < |before| && NormalizedPath(before[i].path) == path;
        assert NormalizedPath(files[i].path) == path && NormalizedPath(files[last].path) == path;
      }
      if |WrittenAs(before, path)| >= 2 {
        var i, j :| 0 <= i < j < |before| && NormalizedPath(before[i].path) == path
            && NormalizedPath(before[j].path) == path;
        assert NormalizedPath(files[i].path) == path && NormalizedPath(files[j].path) == path;
      }
    }
  }

  /** A file is left out exactly when its path is blank but for at most one "./". */
  lemma LeftOutExactlyWhen(file: ChangedFile)
    ensures !Considered(file) <==> Blank(file.path) || exists before, after :: OnlyDot(file.path, before, after)
  {
    hide IsSpace, Blank, TrimSpace;
    TrimSpaceEmpties(file.path);
    if before, after :| OnlyDot(file.path, before, after) {
      DotIsBare();
      TrimSpaceFinds(before, "./", after);
    }
    if !Blank(file.path) {
      var before, core, after := BetweenSpaces(file.path);
      TrimSpaceFinds(before, core, after);
      if !Considered(file) {
        assert core == "./" by {
          assert core[..2] == "./" && core == core[..2] + core[2..];
        }
        assert OnlyDot(file.path, before, after);
      }
    }
  }

  ghost predicate OnlyDot(path: string, before: string, after: string) {
    Blank(before) && Blank(after) && path == before + "./" + after
  }

  lemma DotIsBare()
    ensures Bare("./")
  {
  }

  // ---- Markers ----------------------------------------------------------------------------------------

  ghost predicate Has(text: string, part: string) {
    exists before, after :: text == before + part + after
  }

  ghost predicate HasAllMarkers(patch: string) {
    Has(patch, "<<<<<<< ") && Has(patch, "=======") && Has(patch, ">>>>>>> ")
  }

  /** A human is needed exactly when some considered file's patch has all three kinds of conflict marker. */
  lemma HumanExactlyOnMarkers(assessment: ConflictAssessment, files: seq<ChangedFile>, drifted: bool,
                              sensitive: string -> bool)
    requires IsAssessment(assessment, files, drifted, sensitive)
    ensures assessment.requiresHumanResolution <==>
            exists f | f in files && Considered(f) :: HasAllMarkers(f.patch)
    ensures assessment.requiresHumanResolution <==> assessment.route == ConflictRouteHumanResolution
  {
    hide IsAssessment, Considered, Contains, Has;
    NoneExactlyWhenNothingFound(assessment, files, drifted, sensitive);
    forall f | f in files
      ensures HasConflictMarkers(f.patch) <==> HasAllMarkers(f.patch)
    {
      ContainsMeansHas(f.patch, "<<<<<<< ");
      ContainsMeansHas(f.patch, "=======");
      ContainsMeansHas(f.patch, ">>>>>>> ");
    }
    if MarkerPaths(files) != {} {
      var path :| path in MarkerPaths(files);
    }
    if f :| f in files && Considered(f) && HasConflictMarkers(f.patch) {
      assert f.path in MarkerPaths(files);
    }
  }

  lemma ContainsMeansHas(text: string, part: string)
    ensures Contains(text, part) <==> Has(text, part)
  {
    hide Contains;
    ContainsExactlyWhen(text, part);
  }

  // ---- What findings are worth ------------------------------------------------------------------------

  function Points(finding: ConflictFinding): int {
    if finding.kind == "base_drift" then 25
    else if finding.kind == "overlapping_diff_entries" then 20
    else if finding.kind == "policy_sensitive_files" then 10
    else if finding.kind == "conflict_markers" then 45
    else 0
  }

  /** The score adds up what the findings are worth, up to 100. */
  lemma ScoreAddsUpFindings(assessment: ConflictAssessment, files: seq<ChangedFile>, drifted: bool,
                            sensitive: string -> bool)
    requires IsAssessment(assessment, files, drifted, sensitive)
    ensures var total := Sum(assessment.findings, Points);
            assessment.score == if total < 100 then total else 100
  {
    hide SensitivePaths, MarkerPaths, Overlaps, Points, Findings, Sum;
    var visits :| Enumerates(visits, Overlaps(files))
        && Findings(assessment.findings, visits, files, drifted, sensitive);
    FindingsAddUp(assessment.findings, visits, files, drifted, sensitive);
  }

  lemma FindingsAddUp(findings: seq<ConflictFinding>, visits: seq<string>, files: seq<ChangedFile>, drifted: bool,
                      sensitive: string -> bool)
    requires Findings(findings, visits, files, drifted, sensitive)
    ensures Sum(findings, Points) ==
            (if drifted then 25 else 0) + 20 * |visits| + (if SensitivePaths(files, sensitive) != {} then 10 else 0)
            + (if MarkerPaths(files) != {} then 45 else 0)
  {
    hide Points, Sum, Findings;
    var d := if drifted then 1 else 0;
    var n := d + |visits|;
    var k := if SensitivePaths(files, sensitive) != {} then 1 else 0;
    FindingsByKind(findings, visits, files, drifted, sensitive);
    FourSums(findings, d, n, n + k);
    SameWorth(findings[..d], 25);
    SameWorth(findings[d..n], 20);
    SameWorth(findings[n..n + k], 10);
    SameWorth(findings[n + k..], 45);
  }

  lemma FourSums(findings: seq<ConflictFinding>, i: nat, j: nat, k: nat)
    requires i <= j <= k <= |findings|
    ensures Sum(findings, Points) ==
            Sum(findings[..i], Points) + Sum(findings[i..j], Points) + Sum(findings[j..k], Points) +
                Sum(findings[k..], Points)
  {
    hide Points, Sum;
    var a, b, c, e := findings[..i], findings[i..j], findings[j..k], findings[k..];
    assert findings == a + b + c + e;
    SumAppend(a + b + c, e, Points);
    SumAppend(a + b, c, Points);
    SumAppend(a, b, Points);
  }

  lemma FindingsByKind(findings: seq<ConflictFinding>, visits: seq<string>, files: seq<ChangedFile>, drifted: bool,
                       sensitive: string -> bool)
    requires Findings(findings, visits, files, drifted, sensitive)
    ensures var d := if drifted then 1 else 0;
            var n := d + |visits|;
            var k := if SensitivePaths(files, sensitive) != {} then 1 else 0;
            && |findings| == n + k + (if MarkerPaths(files) != {} then 1 else 0)
            && (forall f | f in findings[..d] :: Points(f) == 25)
            && (forall f | f in findings[d..n] :: Points(f) == 20)
            && (forall f | f in findings[n..n + k] :: Points(f) == 10)
            && (forall f | f in findings[n + k..] :: Points(f) == 45)
  {
    hide SensitivePaths, MarkerPaths, Points, SortedFrom, OverlapFinding;
    var d := if drifted then 1 else 0;
    forall finding {
      PointsOfKind(finding);
    }
    DriftKind();
    forall f | f in findings[d..d + |visits|]
      ensures f.kind == "overlapping_diff_entries"
    {
      var i :| 0 <= i < |visits| && findings[d..d + |visits|][i] == f;
      assert findings[d + i] == f;
      OverlapKind(f, files, visits[i]);
    }
  }

  lemma DriftKind()
    ensures DRIFT.kind == "base_drift"
  {
  }

  lemma OverlapKind(finding: ConflictFinding, files: seq<ChangedFile>, path: string)
    requires OverlapFinding(finding, files, path)
    ensures finding.kind == "overlapping_diff_entries"
  {
  }

  lemma PointsOfKind(finding: ConflictFinding)
    ensures finding.kind == "base_drift" ==> Points(finding) == 25
    ensures finding.kind == "overlapping_diff_entries" ==> Points(finding) == 20
    ensures finding.kind == "policy_sensitive_files" ==> Points(finding) == 10
    ensures finding.kind == "conflict_markers" ==> Points(finding) == 45
  {
  }

  lemma {:induction false} SameWorth(findings: seq<ConflictFinding>, points: int)
    requires forall f | f in findings :: Points(f) == points
    ensures Sum(findings, Points) == points * |findings|
  {
    hide Points;
    if findings != [] {
      SameWorth(findings[..|findings| - 1], points);
    }
  }

  // ---- What findings are about ------------------------------------------------------------------------

  predicate Involves(assessment: ConflictAssessment, kind: string) {
    exists i | 0 <= i < |assessment.findings| :: assessment.findings[i].kind == kind
  }

  /** There is a drift finding exactly when both commits are known and differ, whatever spaces surround the
    * later one. */
  lemma DriftIsFound(assessment: ConflictAssessment, files: seq<ChangedFile>, baseSHA: string, metadataBaseSHA: string,
                     before: string, current: string, after: string, sensitive: string -> bool)
    requires IsAssessment(assessment, files, Drifted(baseSHA, TrimSpace(metadataBaseSHA)), sensitive)
    requires metadataBaseSHA == before + current + after && Blank(before) && Bare(current) && Blank(after)
    ensures Involves(assessment, "base_drift") <==> baseSHA != "" && baseSHA != current
  {
    hide TrimSpace, Blank, Findings, SensitivePaths, MarkerPaths, Overlaps, Bare;
    TrimSpaceFinds(before, current, after);
    BareIsNotEmpty(current);
    var visits :| Enumerates(visits, Overlaps(files))
                  && Findings(assessment.findings, visits, files, Drifted(baseSHA, current), sensitive);
    KindsFound(assessment.findings, visits, files, Drifted(baseSHA, current), sensitive);
  }

  lemma BareIsNotEmpty(s: string)
    requires Bare(s)
    ensures s != ""
  {
  }

  /** Drift comes first if at all; sensitive files and markers, each sorted and as written, come last. */
  lemma KindsFound(findings: seq<ConflictFinding>, visits: seq<string>, files: seq<ChangedFile>, drifted: bool,
                   sensitive: string -> bool)
    requires Findings(findings, visits, files, drifted, sensitive)
    ensures (exists i | 0 <= i < |findings| :: findings[i].kind == "base_drift") <==> drifted
    ensures forall i | 0 <= i < |findings| && findings[i].kind == "base_drift" ::
              findings[i].severity == SeverityHigh && findings[i].paths == []
    ensures forall i | 0 <= i < |findings| && findings[i].kind == "policy_sensitive_files" ::
              && findings[i].severity == SeverityMedium && StrictlySorted(findings[i].paths)
              && forall path :: path in findings[i].paths <==>
                   exists f | f in files && Considered(f) :: sensitive(NormalizedPath(f.path)) && f.path == path
    ensures forall i | 0 <= i < |findings| && findings[i].kind == "conflict_markers" ::
              && findings[i].severity == SeverityCritical && StrictlySorted(findings[i].paths)
              && forall path :: path in findings[i].paths <==>
                   exists f | f in files && Considered(f) :: HasConflictMarkers(f.patch) && f.path == path
  {
    hide Findings, StrictlySorted, HasConflictMarkers, NormalizedPath, Considered;
    PlacesOfKinds(findings, visits, files, drifted, sensitive);
    forall i | 0 <= i < |findings| && findings[i].kind == "policy_sensitive_files"
      ensures findings[i].severity == SeverityMedium && SortedFrom(findings[i].paths, SensitivePaths(files, sensitive))
    {
    }
    forall i | 0 <= i < |findings| && findings[i].kind == "conflict_markers"
      ensures findings[i].severity == SeverityCritical && SortedFrom(findings[i].paths, MarkerPaths(files))
    {
    }
    assert forall listing, paths | SortedFrom(listing, paths) :: forall path :: path in listing <==> path in paths by {
      forall listing, paths, path | SortedFrom(listing, paths)
        ensures path in listing <==> path in paths
      {
        assert path in Members(listing) <==> path in listing;
      }
    }
  }

  /** Every finding is of one of the four kinds, and says what that kind says. */
  lemma PlacesOfKinds(findings: seq<ConflictFinding>, visits: seq<string>, files: seq<ChangedFile>, drifted: bool,
                      sensitive: string -> bool)
    requires Findings(findings, visits, files, drifted, sensitive)
    ensures drifted ==> |findings| > 0 && findings[0].kind == "base_drift"
    ensures forall i | 0 <= i < |findings| ::
              || (drifted && findings[i] == ConflictFinding("base_drift", SeverityHigh, []))
              || findings[i].kind == "overlapping_diff_entries"
              || IsAbout(findings[i], "policy_sensitive_files", SeverityMedium, SensitivePaths(files, sensitive))
              || IsAbout(findings[i], "conflict_markers", SeverityCritical, MarkerPaths(files))
  {
    hide SensitivePaths, MarkerPaths, SortedFrom, OverlapFinding;
    var d := if drifted then 1 else 0;
    DriftKind();
    forall i | d <= i < d + |visits|
      ensures findings[i].kind == "overlapping_diff_entries"
    {
      OverlapKind(findings[d + (i - d)], files, visits[i - d]);
    }
  }
}
