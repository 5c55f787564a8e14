/** What a classification holds, told from the rules that match and the analyzers' proposals. */
module MutationLaws {
  import opened Domain
  import opened Bags
  import opened Mutations

  // ---- Severity ---------------------------------------------------------------------------------------

  ghost predicate Severest(candidates: seq<Mutation>, kind: MutationKind, severity: Severity) {
    exists c | c in candidates :: c.kind == kind && c.severity == severity
  }

  /** The merged severity is critical if any proposal's is, else high if any is, else medium if any is. */
  lemma MergedSeverity(candidates: seq<Mutation>, kind: MutationKind)
    requires kind in AddAll(map[], candidates)
    ensures var severity := AddAll(map[], candidates)[kind].severity;
            && (severity == SeverityCritical <==> Severest(candidates, kind, SeverityCritical))
            && (severity == SeverityHigh <==>
                  Severest(candidates, kind, SeverityHigh) && !Severest(candidates, kind, SeverityCritical))
            && (severity == SeverityMedium <==>
                  && Severest(candidates, kind, SeverityMedium)
                  && !Severest(candidates, kind, SeverityHigh) && !Severest(candidates, kind, SeverityCritical))
  {
    hide AddAll, HasSignal, ProposedFile, ProposedSignal;
    IndexGathers(candidates, kind);
    RanksAreSeverities(AddAll(map[], candidates)[kind].severity);
    forall c | c in candidates {
      RanksAreSeverities(c.severity);
    }
  }

  lemma RanksAreSeverities(severity: Severity)
    ensures SeverityRank(severity) == 4 <==> severity == SeverityCritical
    ensures SeverityRank(severity) == 3 <==> severity == SeverityHigh
    ensures SeverityRank(severity) == 2 <==> severity == SeverityMedium
    ensures SeverityRank(severity) <= 4
  {
  }

  // ---- Texts ------------------------------------------------------------------------------------------

  /** The first proposal of its kind that has the text. */
  ghost predicate FirstWith(candidates: seq<Mutation>, kind: MutationKind, i: nat, text: Mutation -> string) {
    && i < |candidates| && candidates[i].kind == kind && text(candidates[i]) != ""
    && forall j | 0 <= j < i && candidates[j].kind == kind :: text(candidates[j]) == ""
  }

  function TitleOf(m: Mutation): string {
    m.title
  }

  function DescriptionOf(m: Mutation): string {
    m.description
  }

  function DetectorOf(m: Mutation): string {
    m.detector
  }

  ghost predicate NoneWith(candidates: seq<Mutation>, kind: MutationKind, text: Mutation -> string) {
    forall c | c in candidates && c.kind == kind :: text(c) == ""
  }

  /** Title, description and detector each come from the first proposal that has one. */
  lemma {:induction false} FirstTextWins(candidates: seq<Mutation>, kind: MutationKind, i: nat)
    requires kind in AddAll(map[], candidates)
    ensures var m := AddAll(map[], candidates)[kind];
            && (FirstWith(candidates, kind, i, TitleOf) ==> m.title == candidates[i].title)
            && (FirstWith(candidates, kind, i, DescriptionOf) ==> m.description == candidates[i].description)
            && (FirstWith(candidates, kind, i, DetectorOf) ==> m.detector == candidates[i].detector)
            && (NoneWith(candidates, kind, TitleOf) ==> m.title == "")
            && (NoneWith(candidates, kind, DescriptionOf) ==> m.description == "")
            && (NoneWith(candidates, kind, DetectorOf) ==> m.detector == "")
  {
    hide AppendUnique, AppendUniqueSignals, FirstWith, NoneWith, SeverityRank, Proposed;
    var before, last := candidates[..|candidates| - 1], candidates[|candidates| - 1];
    if kind !in AddAll(map[], before) {
      UnproposedHasNone(before, kind);
    }
    FirstTextOf(candidates, kind, i, TitleOf);
    FirstTextOf(candidates, kind, i, DescriptionOf);
    FirstTextOf(candidates, kind, i, DetectorOf);
    if kind in AddAll(map[], before) {
      FirstTextWins(before, kind, i);
    }
  }

  lemma UnproposedHasNone(candidates: seq<Mutation>, kind: MutationKind)
    requires kind !in AddAll(map[], candidates)
    ensures NoneWith(candidates, kind, TitleOf) && NoneWith(candidates, kind, DescriptionOf)
    ensures NoneWith(candidates, kind, DetectorOf)
  {
    hide AddAll, Gathers;
    IndexGathers(candidates, kind);
  }

  /** How being first looks from one proposal earlier. */
  lemma FirstTextOf(candidates: seq<Mutation>, kind: MutationKind, i: nat, text: Mutation -> string)
    requires candidates != []
    ensures var before, last := candidates[..|candidates| - 1], candidates[|candidates| - 1];
            && (NoneWith(candidates, kind, text) ==> NoneWith(before, kind, text))
            && (NoneWith(candidates, kind, text) && last.kind == kind ==> text(last) == "")
            && (FirstWith(candidates, kind, i, text) ==> i < |candidates| && text(candidates[i]) != "")
            && (i < |before| ==> before[i] == candidates[i])
            && (FirstWith(candidates, kind, i, text) ==>
                  if i < |before| then FirstWith(before, kind, i, text) && !NoneWith(before, kind, text)
                  else i == |before| && last.kind == kind && NoneWith(before, kind, text))
  {
    var before, last := candidates[..|candidates| - 1], candidates[|candidates| - 1];
    assert candidates == before + [last];
  }

  // ---- Files ------------------------------------------------------------------------------------------

  /** Some rule for the kind matches a changed file with the path. */
  ghost predicate MatchedBy(engine: Engine, files: seq<ChangedFile>, kind: MutationKind, path: string) {
    exists file, rule | file in files && rule in engine.rules ::
      Matches(engine, file, rule) && file.path == path && rule.kind == kind
  }

  predicate Matches(engine: Engine, file: ChangedFile, rule: Rule) {
    engine.extract(file).Ok? && rule.matches(file.path, engine.extract(file).value)
  }

  /** Some analyzer proposes the kind with the path among its files. */
  ghost predicate AnalyzedAs(engine: Engine, files: seq<ChangedFile>, kind: MutationKind, path: string) {
    exists file, x, c | file in files && x in engine.analyzers && c in Proposals(x, file) :: c.kind == kind
           && path in c.files
  }

  function Proposals(x: Analyzer, file: ChangedFile): seq<Mutation> {
    if x.supports(file) && x.analyze(file).Ok? then x.analyze(file).value else []
  }

  /** The files of a classified kind are those some rule for it matches and those some analyzer reports. */
  lemma FilesOfKind(engine: Engine, files: seq<ChangedFile>, kind: MutationKind, path: string)
    requires FromFiles(engine, files).Ok?
    ensures var index := AddAll(map[], FromFiles(engine, files).value);
            kind in index && path in index[kind].files <==>
            MatchedBy(engine, files, kind, path) || AnalyzedAs(engine, files, kind, path)
  {
    hide AddAll, FromFiles, FromFile, Gathers, MatchedBy, AnalyzedAs;
    var candidates := FromFiles(engine, files).value;
    IndexGathers(candidates, kind);
    if kind in AddAll(map[], candidates) {
      GatheredFiles(AddAll(map[], candidates)[kind], candidates, kind, path);
    } else {
      NothingProposed(candidates, kind, path);
    }
    ProposedByWhom(engine, files, kind, path);
  }

  lemma GatheredFiles(m: Mutation, candidates: seq<Mutation>, kind: MutationKind, path: string)
    requires Gathers(m, candidates, kind)
    ensures path in m.files <==> ProposedFile(candidates, kind, path)
  {
  }

  lemma NothingProposed(candidates: seq<Mutation>, kind: MutationKind, path: string)
    requires !Proposed(candidates, kind)
    ensures !ProposedFile(candidates, kind, path)
  {
  }

  lemma ProposedByWhom(engine: Engine, files: seq<ChangedFile>, kind: MutationKind, path: string)
    requires FromFiles(engine, files).Ok?
    ensures ProposedFile(FromFiles(engine, files).value, kind, path) <==>
            MatchedBy(engine, files, kind, path) || AnalyzedAs(engine, files, kind, path)
  {
    hide FromFiles, ProposedFile, MatchedBy, AnalyzedAs;
    if ProposedFile(FromFiles(engine, files).value, kind, path) {
      ProposerFound(engine, files, kind, path);
    }
    if MatchedBy(engine, files, kind, path) {
      MatchIsProposed(engine, files, kind, path);
    }
    if AnalyzedAs(engine, files, kind, path) {
      AnalysisIsProposed(engine, files, kind, path);
    }
  }

  lemma ProposerFound(engine: Engine, files: seq<ChangedFile>, kind: MutationKind, path: string)
    requires FromFiles(engine, files).Ok? && ProposedFile(FromFiles(engine, files).value, kind, path)
    ensures MatchedBy(engine, files, kind, path) || AnalyzedAs(engine, files, kind, path)
  {
    hide FromFiles, FromFile, Matches, Proposals;
    FilesAreFine(engine, files);
    var c :| c in FromFiles(engine, files).value && c.kind == kind && path in c.files;
    FromFilesHas(engine, files, c);
    var file :| file in files && c in FromFile(engine, file).value;
    OneFileProposes(engine, file, c);
    if rule :| rule in engine.rules && Matches(engine, file, rule) && c.kind == rule.kind && c.files == [file.path] {
      assert MatchedBy(engine, files, kind, path);
    }
  }

  lemma MatchIsProposed(engine: Engine, files: seq<ChangedFile>, kind: MutationKind, path: string)
    requires FromFiles(engine, files).Ok? && MatchedBy(engine, files, kind, path)
    ensures ProposedFile(FromFiles(engine, files).value, kind, path)
  {
    hide FromFiles, FromFile, Matches;
    FilesAreFine(engine, files);
    var file, rule :| file in files && rule in engine.rules && Matches(engine, file, rule) && file.path == path
                      && rule.kind == kind;
    var c := RuleProposes(engine, file, rule);
    FromFilesHas(engine, files, c);
  }

  lemma AnalysisIsProposed(engine: Engine, files: seq<ChangedFile>, kind: MutationKind, path: string)
    requires FromFiles(engine, files).Ok? && AnalyzedAs(engine, files, kind, path)
    ensures ProposedFile(FromFiles(engine, files).value, kind, path)
  {
    hide FromFiles, FromFile, Proposals;
    FilesAreFine(engine, files);
    var file, x, c :| file in files && x in engine.analyzers && c in Proposals(x, file) && c.kind == kind
        && path in c.files;
    OneFileProposes(engine, file, c);
    FromFilesHas(engine, files, c);
  }

  lemma FilesAreFine(engine: Engine, files: seq<ChangedFile>)
    requires FromFiles(engine, files).Ok?
    ensures forall file | file in files :: FromFile(engine, file).Ok?
  {
    hide FromFile, FromFiles;
    FromFilesHas(engine, files, Fallback([]));
  }

  /** A file is proposed by a rule that matches it, as its only file, or by an analyzer. */
  lemma OneFileProposes(engine: Engine, file: ChangedFile, c: Mutation)
    requires FromFile(engine, file).Ok?
    ensures c in FromFile(engine, file).value ==>
              || (exists rule | rule in engine.rules ::
                    Matches(engine, file, rule) && c.kind == rule.kind && c.files == [file.path])
              || (exists x | x in engine.analyzers :: c in Proposals(x, file))
    ensures (exists x | x in engine.analyzers :: c in Proposals(x, file)) ==> c in FromFile(engine, file).value
  {
    hide FromRules, FromAnalyzers;
    FromRulesHas(engine.rules, file, engine.extract(file).value, c);
    FromAnalyzersHas(engine.analyzers, file, c);
  }

  lemma RuleProposes(engine: Engine, file: ChangedFile, rule: Rule) returns (c: Mutation)
    requires FromFile(engine, file).Ok? && rule in engine.rules && Matches(engine, file, rule)
    ensures c in FromFile(engine, file).value && c.kind == rule.kind && c.files == [file.path]
    ensures c.severity == rule.severity && c.confidence == rule.confidence && c.title == rule.title
    ensures c.description == rule.description && c.detector == rule.name && c.signals == engine.extract(file).value
  {
    hide FromRules, FromAnalyzers;
    c := RuleMutation(rule, file, engine.extract(file).value);
    FromRulesHas(engine.rules, file, engine.extract(file).value, c);
  }

  /** A file some rule matches is in that kind's mutation, no less confident and no less severe. */
  lemma MatchedFileIsClassified(engine: Engine, files: seq<ChangedFile>, file: ChangedFile, rule: Rule)
    requires FromFiles(engine, files).Ok? && file in files && rule in engine.rules && Matches(engine, file, rule)
    ensures var index := Classified(FromFiles(engine, files).value, files);
            && rule.kind in index && file.path in index[rule.kind].files
            && index[rule.kind].confidence >= rule.confidence
            && (rule.severity == SeverityCritical ==> index[rule.kind].severity == SeverityCritical)
            && (rule.severity == SeverityHigh ==>
                  index[rule.kind].severity == SeverityHigh || index[rule.kind].severity == SeverityCritical)
  {
    hide AddAll, FromFiles, FromFile, Matches;
    var candidates := FromFiles(engine, files).value;
    FilesAreFine(engine, files);
    var c := RuleProposes(engine, file, rule);
    FromFilesHas(engine, files, c);
    IndexGathers(candidates, rule.kind);
    assert Proposed(candidates, rule.kind);
    assert ProposedFile(candidates, rule.kind, file.path);
    RanksAreSeverities(rule.severity);
    RanksAreSeverities(AddAll(map[], candidates)[rule.kind].severity);
    assert |AddAll(map[], candidates)| == |AddAll(map[], candidates).Keys|;
  }

  /** When nothing is proposed for a change with files, it is one unclassified mutation over all of them. */
  lemma NothingFoundIsUnknown(files: seq<ChangedFile>)
    requires files != []
    ensures var index := Classified([], files);
            && index.Keys == {MutationUnknown}
            && index[MutationUnknown].severity == SeverityLow
            && index[MutationUnknown].title == "unclassified change surface"
            && |index[MutationUnknown].files| == |files|
            && forall i | 0 <= i < |files| :: index[MutationUnknown].files[i] == files[i].path
  {
    PathsInOrder(files);
  }

  lemma {:induction false} PathsInOrder(files: seq<ChangedFile>)
    ensures |Paths(files)| == |files| && forall i | 0 <= i < |files| :: Paths(files)[i] == files[i].path
  {
    if files != [] {
      PathsInOrder(files[..|files| - 1]);
    }
  }

  // ---- Signals ----------------------------------------------------------------------------------------

  ghost predicate DistinctSignals(signals: seq<MutationSignal>) {
    forall i, j | 0 <= i < j < |signals| :: signals[i].source != signals[j].source
           || signals[i].value != signals[j].value
  }

  /** Appending signals keeps those there and adds, in order, only signals of a new source and value, so a
    * repeated signal keeps the weight it had first. */
  lemma {:induction false} SignalsStayDistinct(values: seq<MutationSignal>, candidates: seq<MutationSignal>)
    ensures values <= AppendUniqueSignals(values, candidates)
    ensures DistinctSignals(values) ==> DistinctSignals(AppendUniqueSignals(values, candidates))
    ensures forall s | s in AppendUniqueSignals(values, candidates) :: s in values || s in candidates
    ensures forall c | c in candidates ::
              exists s | s in AppendUniqueSignals(values, candidates) :: s.source == c.source && s.value == c.value
  {
    if candidates != [] {
      var before, last := candidates[..|candidates| - 1], candidates[|candidates| - 1];
      SignalsStayDistinct(values, before);
      assert candidates == before + [last];
      var kept, all := AppendUniqueSignals(values, before), AppendUniqueSignals(values, candidates);
      assert forall s | s in kept :: s in all;
      if HasSignal(kept, last) {
        var s :| s in kept && SameSignal(s, last);
      } else {
        assert last in all;
        DistinctNext(kept, last);
      }
    }
  }

  lemma DistinctNext(signals: seq<MutationSignal>, next: MutationSignal)
    requires !HasSignal(signals, next)
    ensures DistinctSignals(signals) ==> DistinctSignals(signals + [next])
  {
    forall i | 0 <= i < |signals|
      ensures signals[i].source != next.source || signals[i].value != next.value
    {
      assert signals[i] in signals && !SameSignal(signals[i], next);
    }
  }

  // ---- Failures ---------------------------------------------------------------------------------------

  ghost predicate Fine(engine: Engine, file: ChangedFile) {
    engine.extract(file).Ok? && forall x | x in engine.analyzers && x.supports(file) :: x.analyze(file).Ok?
  }

  /** The first analyzer that supports the file and fails on it. */
  ghost predicate FirstFails(engine: Engine, file: ChangedFile, j: nat) {
    && j < |engine.analyzers| && engine.analyzers[j].supports(file) && engine.analyzers[j].analyze(file).Err?
    && forall k | 0 <= k < j && engine.analyzers[k].supports(file) :: engine.analyzers[k].analyze(file).Ok?
  }

  /** Classification fails with the error of the first file that is not fine: that of reading its signals, or
    * else that of the first analyzer failing on it. */
  lemma FirstFailureIsReported(engine: Engine, files: seq<ChangedFile>, i: nat, j: nat)
    requires i < |files| && forall k | 0 <= k < i :: Fine(engine, files[k])
    ensures engine.extract(files[i]).Err? ==> FromFiles(engine, files) == Err(engine.extract(files[i]).error)
    ensures engine.extract(files[i]).Ok? && FirstFails(engine, files[i], j) ==>
              FromFiles(engine, files) == Err(engine.analyzers[j].analyze(files[i]).error)
  {
    hide FromFiles, FromFile, Fine, FirstFails;
    forall file | file in files[..i]
      ensures FromFile(engine, file).Ok?
    {
      FineFile(engine, file);
    }
    FromFilesHas(engine, files[..i], Fallback([]));
    FailingFile(engine, files[i], j);
    assert files[..i + 1] == files[..i] + [files[i]];
    if FromFile(engine, files[i]).Err? {
      NextFile(engine, files[..i], files[i]);
      FileErrorStays(engine, files, i + 1);
    }
  }

  lemma NextFile(engine: Engine, files: seq<ChangedFile>, file: ChangedFile)
    requires FromFiles(engine, files).Ok? && FromFile(engine, file).Err?
    ensures FromFiles(engine, files + [file]) == Err(FromFile(engine, file).error)
  {
    hide FromFile;
    assert (files + [file])[..|files|] == files;
  }

  lemma FineFile(engine: Engine, file: ChangedFile)
    requires Fine(engine, file)
    ensures FromFile(engine, file).Ok?
  {
    hide FromAnalyzers, FromRules;
    FromAnalyzersHas(engine.analyzers, file, Fallback([]));
  }

  lemma FailingFile(engine: Engine, file: ChangedFile, j: nat)
    ensures engine.extract(file).Err? ==> FromFile(engine, file) == Err(engine.extract(file).error)
    ensures engine.extract(file).Ok? && FirstFails(engine, file, j) ==>
              FromFile(engine, file) == Err(engine.analyzers[j].analyze(file).error)
  {
    hide FromAnalyzers, FromRules;
    if FirstFails(engine, file, j) {
      FirstFailingAnalyzer(engine.analyzers, file, j);
    }
  }

  lemma {:induction false} FirstFailingAnalyzer(analyzers: seq<Analyzer>, file: ChangedFile, j: nat)
    requires j < |analyzers| && analyzers[j].supports(file) && analyzers[j].analyze(file).Err?
    requires forall k | 0 <= k < j && analyzers[k].supports(file) :: analyzers[k].analyze(file).Ok?
    ensures FromAnalyzers(analyzers, file) == Err(analyzers[j].analyze(file).error)
  {
    var before := analyzers[..|analyzers| - 1];
    if j < |before| {
      FirstFailingAnalyzer(before, file, j);
    } else {
      FromAnalyzersHas(before, file, Fallback([]));
    }
  }
}
