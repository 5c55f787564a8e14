/** Classifying a change: every rule and analyzer proposes mutations file by file, and proposals of one kind
  * merge into one mutation. Rule matching, signal extraction and analyzers are function parameters. */
module Mutations {
  import opened Domain
  import opened Bags

  datatype Rule = Rule(
    name: string,
    kind: MutationKind,
    severity: Severity,
    confidence: real,
    title: string,
    description: string,
    matches: (string, seq<MutationSignal>) -> bool)

  datatype Analyzer = Analyzer(
    supports: ChangedFile -> bool,
    analyze: ChangedFile -> Result<seq<Mutation>, string>)

  datatype Engine = Engine(
    rules: seq<Rule>,
    extract: ChangedFile -> Result<seq<MutationSignal>, string>,
    analyzers: seq<Analyzer>)

  type Index = map<MutationKind, Mutation>

  function SeverityRank(value: Severity): nat {
    match value
    case SeverityCritical => 4
    case SeverityHigh => 3
    case SeverityMedium => 2
    case _ => 1
  }

  // ---- Merging --------------------------------------------------------------------------------------

  predicate SameSignal(a: MutationSignal, b: MutationSignal) {
    a.source == b.source && a.value == b.value
  }

  predicate HasSignal(signals: seq<MutationSignal>, signal: MutationSignal) {
    exists s | s in signals :: SameSignal(s, signal)
  }

  /** Source and value identify a signal; the weight of the first one stays. */
  function AppendUniqueSignals(values: seq<MutationSignal>, candidates: seq<MutationSignal>): seq<MutationSignal> {
    if candidates == [] then values
    else
      var before, last := AppendUniqueSignals(values, candidates[..|candidates| - 1]), candidates[|candidates| - 1];
      if HasSignal(before, last) then before else before + [last]
  }

  function Merged(current: Mutation, candidate: Mutation): Mutation {
    Mutation(
      current.kind,
      if SeverityRank(candidate.severity) > SeverityRank(current.severity) then candidate.severity
      else current.severity,
      if candidate.confidence > current.confidence then candidate.confidence else current.confidence,
      if current.title == "" then candidate.title else current.title,
      if current.description == "" then candidate.description else current.description,
      AppendUnique(current.files, candidate.files),
      AppendUniqueSignals(current.signals, candidate.signals),
      if current.detector == "" then candidate.detector else current.detector)
  }

  function Added(index: Index, candidate: Mutation): Index {
    index[candidate.kind := if candidate.kind in index then Merged(index[candidate.kind], candidate) else candidate]
  }

  function AddAll(index: Index, candidates: seq<Mutation>): Index {
    if candidates == [] then index
    else Added(AddAll(index, candidates[..|candidates| - 1]), candidates[|candidates| - 1])
  }

  lemma {:induction false} AddAllAppend(index: Index, a: seq<Mutation>, b: seq<Mutation>)
    ensures AddAll(index, a + b) == AddAll(AddAll(index, a), b)
  {
    hide Added;
    if b == [] {
      assert a + b == a;
    } else {
      AddAllAppend(index, a, b[..|b| - 1]);
      assert (a + b)[..|a + b| - 1] == a + b[..|b| - 1];
    }
  }

  method AppendSignals(values0: seq<MutationSignal>, candidates: seq<MutationSignal>)
    returns (values: seq<MutationSignal>)
    ensures values == AppendUniqueSignals(values0, candidates)
  {
    values := values0;
    for i := 0 to |candidates|
      invariant values == AppendUniqueSignals(values0, candidates[..i])
    {
      var candidate := candidates[i];
      var found := false;
      for k := 0 to |values|
        invariant !found && !HasSignal(values[..k], candidate)
      {
        if SameSignal(values[k], candidate) {
          found := true;
          assert values[k] in values;
          break;
        }
        assert values[..k + 1] == values[..k] + [values[k]];
      }
      assert values[..|values|] == values;
      assert candidates[..i + 1][..i] == candidates[..i];
      if !found {
        values := values + [candidate];
      }
    }
    assert candidates[..|candidates|] == candidates;
  }

  method AddMutation(index0: Index, candidate: Mutation) returns (index: Index)
    ensures index == Added(index0, candidate)
  {
    index := index0;
    if candidate.kind !in index {
      index := index[candidate.kind := candidate];
      return;
    }
    var current := index[candidate.kind];
    var files := AppendUniqueStrings(current.files, candidate.files);
    current := current.(files := files);
    var signals := AppendSignals(current.signals, candidate.signals);
    current := current.(signals := signals);
    if candidate.confidence > current.confidence {
      current := current.(confidence := candidate.confidence);
    }
    if SeverityRank(candidate.severity) > SeverityRank(current.severity) {
      current := current.(severity := candidate.severity);
    }
    if current.title == "" {
      current := current.(title := candidate.title);
    }
    if current.description == "" {
      current := current.(description := candidate.description);
    }
    if current.detector == "" {
      current := current.(detector := candidate.detector);
    }
    index := index[candidate.kind := current];
  }

  // ---- Proposals ------------------------------------------------------------------------------------

  function RuleMutation(rule: Rule, file: ChangedFile, signals: seq<MutationSignal>): Mutation {
    Mutation(rule.kind, rule.severity, rule.confidence, rule.title, rule.description, [file.path], signals, rule.name)
  }

  function FromRules(rules: seq<Rule>, file: ChangedFile, signals: seq<MutationSignal>): seq<Mutation> {
    if rules == [] then []
    else
      var last := rules[|rules| - 1];
      FromRules(rules[..|rules| - 1], file, signals) +
      if last.matches(file.path, signals) then [RuleMutation(last, file, signals)] else []
  }

  function FromAnalyzers(analyzers: seq<Analyzer>, file: ChangedFile): Result<seq<Mutation>, string> {
    if analyzers == [] then Ok([])
    else
      var last := analyzers[|analyzers| - 1];
      match FromAnalyzers(analyzers[..|analyzers| - 1], file)
      case Err(error) => Err(error)
      case Ok(before) =>
        if !last.supports(file) then Ok(before)
        else
          match last.analyze(file)
          case Err(error) => Err(error)
          case Ok(found) => Ok(before + found)
  }

  function FromFile(engine: Engine, file: ChangedFile): Result<seq<Mutation>, string> {
    match engine.extract(file)
    case Err(error) => Err(error)
    case Ok(signals) =>
      match FromAnalyzers(engine.analyzers, file)
      case Err(error) => Err(error)
      case Ok(found) => Ok(FromRules(engine.rules, file, signals) + found)
  }

  /** All proposals in order, or the first error. */
  function FromFiles(engine: Engine, files: seq<ChangedFile>): Result<seq<Mutation>, string> {
    if files == [] then Ok([])
    else
      match FromFiles(engine, files[..|files| - 1])
      case Err(error) => Err(error)
      case Ok(before) =>
        match FromFile(engine, files[|files| - 1])
        case Err(error) => Err(error)
        case Ok(found) => Ok(before + found)
  }

  function Paths(files: seq<ChangedFile>): seq<string> {
    if files == [] then [] else Paths(files[..|files| - 1]) + [files[|files| - 1].path]
  }

  function Fallback(files: seq<ChangedFile>): Mutation {
    Mutation(MutationUnknown, SeverityLow, 0.35, "unclassified change surface", "", Paths(files), [], "fallback")
  }

  /** The merged proposals; a change nothing proposes on gets the fallback. */
  function Classified(candidates: seq<Mutation>, files: seq<ChangedFile>): Index {
    var index := AddAll(map[], candidates);
    if |index| == 0 && |files| > 0 then Added(index, Fallback(files)) else index
  }

  // ---- The engine -----------------------------------------------------------------------------------

  ghost predicate Lists(mutations: seq<Mutation>, index: Index) {
    && |mutations| == |index|
    && (forall m | m in mutations :: m.kind in index && index[m.kind] == m)
    && (forall kind | kind in index :: index[kind] in mutations)
  }

  method AddRules(index0: Index, rules: seq<Rule>, file: ChangedFile, signals: seq<MutationSignal>)
    returns (index: Index)
    ensures index == AddAll(index0, FromRules(rules, file, signals))
  {
    hide Added, AddAll, FromRules, RuleMutation;
    index := index0;
    NoRules(index0, file, signals);
    for i := 0 to |rules|
      invariant index == AddAll(index0, FromRules(rules[..i], file, signals))
    {
      var rule := rules[i];
      AddRule(index0, rules[..i], rule, file, signals);
      assert rules[..i + 1] == rules[..i] + [rule];
      if rule.matches(file.path, signals) {
        index := AddMutation(index, RuleMutation(rule, file, signals));
      }
    }
    assert rules[..|rules|] == rules;
  }

  lemma NoRules(index: Index, file: ChangedFile, signals: seq<MutationSignal>)
    ensures AddAll(index, FromRules([], file, signals)) == index
  {
  }

  lemma AddRule(index: Index, rules: seq<Rule>, rule: Rule, file: ChangedFile, signals: seq<MutationSignal>)
    ensures var before := AddAll(index, FromRules(rules, file, signals));
            AddAll(index, FromRules(rules + [rule], file, signals)) ==
            if rule.matches(file.path, signals) then Added(before, RuleMutation(rule, file, signals)) else before
  {
    hide Added, RuleMutation;
    var before := FromRules(rules, file, signals);
    assert (rules + [rule])[..|rules + [rule]| - 1] == rules;
    if rule.matches(file.path, signals) {
      assert (before + [RuleMutation(rule, file, signals)])[..|before|] == before;
    } else {
      assert before + [] == before;
    }
  }

  method AddCandidates(index0: Index, candidates: seq<Mutation>) returns (index: Index)
    ensures index == AddAll(index0, candidates)
  {
    hide Added;
    index := index0;
    for i := 0 to |candidates|
      invariant index == AddAll(index0, candidates[..i])
    {
      index := AddMutation(index, candidates[i]);
      assert candidates[..i + 1][..i] == candidates[..i];
    }
    assert candidates[..|candidates|] == candidates;
  }

  method AddAnalyses(index0: Index, analyzers: seq<Analyzer>, file: ChangedFile) returns (result: Result<Index, string>)
    ensures result.Ok? <==> FromAnalyzers(analyzers, file).Ok?
    ensures result.Err? ==> result.error == FromAnalyzers(analyzers, file).error
    ensures result.Ok? ==> result.value == AddAll(index0, FromAnalyzers(analyzers, file).value)
  {
    hide AddAll;
    var index := index0;
    AddNothing(index0);
    for i := 0 to |analyzers|
      invariant FromAnalyzers(analyzers[..i], file).Ok?
      invariant index == AddAll(index0, FromAnalyzers(analyzers[..i], file).value)
    {
      var analyzer := analyzers[i];
      assert analyzers[..i + 1][..i] == analyzers[..i];
      if analyzer.supports(file) {
        var found := analyzer.analyze(file);
        if found.Err? {
          AnalyzerErrorStays(analyzers, i + 1, file);
          return Err(found.error);
        }
        AddAllAppend(index0, FromAnalyzers(analyzers[..i], file).value, found.value);
        index := AddCandidates(index, found.value);
      }
    }
    assert analyzers[..|analyzers|] == analyzers;
    return Ok(index);
  }

  lemma AddNothing(index: Index)
    ensures AddAll(index, []) == index
  {
  }

  lemma {:induction false} AnalyzerErrorStays(analyzers: seq<Analyzer>, n: nat, file: ChangedFile)
    requires n <= |analyzers| && FromAnalyzers(analyzers[..n], file).Err?
    ensures FromAnalyzers(analyzers, file) == FromAnalyzers(analyzers[..n], file)
    decreases |analyzers|
  {
    if n == |analyzers| {
      assert analyzers[..n] == analyzers;
    } else {
      var before := analyzers[..|analyzers| - 1];
      assert before[..n] == analyzers[..n];
      AnalyzerErrorStays(before, n, file);
    }
  }

  lemma {:induction false} FileErrorStays(engine: Engine, files: seq<ChangedFile>, n: nat)
    requires n <= |files| && FromFiles(engine, files[..n]).Err?
    ensures FromFiles(engine, files) == FromFiles(engine, files[..n])
    decreases |files|
  {
    hide FromFile;
    if n == |files| {
      assert files[..n] == files;
    } else {
      var before := files[..|files| - 1];
      assert before[..n] == files[..n];
      FileErrorStays(engine, before, n);
    }
  }

  /** One mutation per kind proposed, in arbitrary order, or the first error. */
  method Classify(engine: Engine, files: seq<ChangedFile>) returns (result: Result<seq<Mutation>, string>)
    ensures result.Ok? <==> FromFiles(engine, files).Ok?
    ensures result.Err? ==> result.error == FromFiles(engine, files).error
    ensures result.Ok? ==> Lists(result.value, Classified(FromFiles(engine, files).value, files))
  {
    var index: Index := map[];
    for i := 0 to |files|
      invariant FromFiles(engine, files[..i]).Ok?
      invariant index == AddAll(map[], FromFiles(engine, files[..i]).value)
    {
      hide AddAll, FromRules, FromAnalyzers;
      var file := files[i];
      assert files[..i + 1][..i] == files[..i];
      var signals := engine.extract(file);
      if signals.Err? {
        FileErrorStays(engine, files, i + 1);
        return Err(signals.error);
      }
      index := AddRules(index, engine.rules, file, signals.value);
      var analysed := AddAnalyses(index, engine.analyzers, file);
      if analysed.Err? {
        FileErrorStays(engine, files, i + 1);
        return Err(analysed.error);
      }
      index := analysed.value;
      var before, found := FromFiles(engine, files[..i]).value, FromAnalyzers(engine.analyzers, file).value;
      AddAllAppend(map[], before, FromRules(engine.rules, file, signals.value) + found);
      AddAllAppend(AddAll(map[], before), FromRules(engine.rules, file, signals.value), found);
    }
    assert files[..|files|] == files;
    if |index| == 0 && |files| > 0 {
      var fallback := FallbackFor(files);
      index := AddMutation(index, fallback);
    }
    assert index == Classified(FromFiles(engine, files).value, files);
    IndexIsKeyed(FromFiles(engine, files).value, files);
    var mutations := Materialize(index);
    return Ok(mutations);
  }

  method FallbackFor(files: seq<ChangedFile>) returns (fallback: Mutation)
    ensures fallback == Fallback(files)
  {
    fallback := Mutation(MutationUnknown, SeverityLow, 0.35, "unclassified change surface", "", [], [], "fallback");
    for i := 0 to |files|
      invariant fallback == Fallback([]).(files := Paths(files[..i]))
    {
      fallback := fallback.(files := fallback.files + [files[i].path]);
      assert files[..i + 1][..i] == files[..i];
    }
    assert files[..|files|] == files;
  }

  /** Lists the map's values in arbitrary order. */
  method Materialize(index: Index) returns (mutations: seq<Mutation>)
    requires forall kind | kind in index :: index[kind].kind == kind
    ensures Lists(mutations, index)
  {
    mutations := [];
    var left := index.Keys;
    while left != {}
      invariant left <= index.Keys && |mutations| + |left| == |index|
      invariant forall m | m in mutations :: m.kind in index && index[m.kind] == m
      invariant forall kind | kind in index && kind !in left :: index[kind] in mutations
    {
      var kind :| kind in left;
      left := left - {kind};
      mutations := mutations + [index[kind]];
    }
  }

  // ---- Laws -----------------------------------------------------------------------------------------

  lemma {:induction false} AddAllIsKeyed(index: Index, candidates: seq<Mutation>)
    requires forall kind | kind in index :: index[kind].kind == kind
    ensures forall kind | kind in AddAll(index, candidates) :: AddAll(index, candidates)[kind].kind == kind
  {
    if candidates != [] {
      AddAllIsKeyed(index, candidates[..|candidates| - 1]);
    }
  }

  lemma IndexIsKeyed(candidates: seq<Mutation>, files: seq<ChangedFile>)
    ensures forall kind | kind in Classified(candidates, files) :: Classified(candidates, files)[kind].kind == kind
  {
    AddAllIsKeyed(map[], candidates);
  }

  ghost predicate Proposed(candidates: seq<Mutation>, kind: MutationKind) {
    exists c | c in candidates :: c.kind == kind
  }

  ghost predicate ProposedFile(candidates: seq<Mutation>, kind: MutationKind, path: string) {
    exists c | c in candidates :: c.kind == kind && path in c.files
  }

  ghost predicate ProposedSignal(candidates: seq<Mutation>, kind: MutationKind, signal: MutationSignal) {
    exists c | c in candidates :: c.kind == kind && HasSignal(c.signals, signal)
  }

  /** The merged mutation covers all files and signals of its kind and the strongest confidence and severity. */
  ghost predicate Gathers(m: Mutation, candidates: seq<Mutation>, kind: MutationKind) {
    && m.kind == kind
    && (forall path :: path in m.files <==> ProposedFile(candidates, kind, path))
    && (forall signal :: HasSignal(m.signals, signal) <==> ProposedSignal(candidates, kind, signal))
    && (forall c | c in candidates && c.kind == kind ::
          c.confidence <= m.confidence && SeverityRank(c.severity) <= SeverityRank(m.severity))
    && (exists c | c in candidates :: c.kind == kind && c.confidence == m.confidence)
    && (exists c | c in candidates :: c.kind == kind && SeverityRank(c.severity) == SeverityRank(m.severity))
  }

  lemma {:induction false} AppendedSignals(values: seq<MutationSignal>, candidates: seq<MutationSignal>,
                                           signal: MutationSignal)
    ensures HasSignal(AppendUniqueSignals(values, candidates), signal) <==>
            HasSignal(values, signal) || HasSignal(candidates, signal)
  {
    if candidates != [] {
      var last := candidates[|candidates| - 1];
      AppendedSignals(values, candidates[..|candidates| - 1], signal);
      assert candidates == candidates[..|candidates| - 1] + [last];
      assert HasSignal(candidates, signal) <==>
             HasSignal(candidates[..|candidates| - 1], signal) || SameSignal(last, signal);
      if SameSignal(last, signal) && HasSignal(AppendUniqueSignals(values, candidates[..|candidates| - 1]), last) {
        var s :| s in AppendUniqueSignals(values, candidates[..|candidates| - 1]) && SameSignal(s, last);
        assert SameSignal(s, signal);
      }
    }
  }

  lemma MergedGathers(m: Mutation, candidates: seq<Mutation>, next: Mutation, kind: MutationKind)
    requires Gathers(m, candidates, kind) && next.kind == kind
    ensures Gathers(Merged(m, next), candidates + [next], kind)
  {
    var all, merged := candidates + [next], Merged(m, next);
    AppendUniqueIsUnion(m.files, next.files);
    assert forall c :: c in all <==> c in candidates || c == next;
    forall path
      ensures path in merged.files <==> ProposedFile(all, kind, path)
    {
      assert ProposedFile(all, kind, path) <==> ProposedFile(candidates, kind, path) || path in next.files by {
        MoreProposals(candidates, next);
      }
    }
    forall signal
      ensures HasSignal(merged.signals, signal) <==> ProposedSignal(all, kind, signal)
    {
      AppendedSignals(m.signals, next.signals, signal);
      assert ProposedSignal(all, kind, signal) <==>
             ProposedSignal(candidates, kind, signal) || HasSignal(next.signals, signal) by {
        MoreProposals(candidates, next);
      }
    }
    assert next in all;
    var c :| c in candidates && c.kind == kind && c.confidence == m.confidence;
    var d :| d in candidates && d.kind == kind && SeverityRank(d.severity) == SeverityRank(m.severity);
    assert c in all && d in all;
  }

  lemma MoreProposals(candidates: seq<Mutation>, next: Mutation)
    ensures forall kind, path :: ProposedFile(candidates + [next], kind, path) <==>
              ProposedFile(candidates, kind, path) || (next.kind == kind && path in next.files)
    ensures forall kind, signal :: ProposedSignal(candidates + [next], kind, signal) <==>
              ProposedSignal(candidates, kind, signal) || (next.kind == kind && HasSignal(next.signals, signal))
  {
    hide HasSignal;
    assert forall c :: c in candidates + [next] <==> c in candidates || c == next;
  }

  /** The merged proposals, kind by kind. */
  lemma {:induction false} IndexGathers(candidates: seq<Mutation>, kind: MutationKind)
    ensures var index := AddAll(map[], candidates);
            && (kind in index <==> Proposed(candidates, kind))
            && (kind in index ==> Gathers(index[kind], candidates, kind))
  {
    hide Gathers, Merged;
    if candidates != [] {
      var before, next := candidates[..|candidates| - 1], candidates[|candidates| - 1];
      IndexGathers(before, kind);
      assert candidates == before + [next];
      assert Proposed(candidates, kind) <==> Proposed(before, kind) || next.kind == kind;
      if next.kind == kind {
        if kind in AddAll(map[], before) {
          MergedGathers(AddAll(map[], before)[kind], before, next, kind);
        } else {
          FirstGathers(before, next);
        }
      } else if kind in AddAll(map[], before) {
        OthersKeepGathering(AddAll(map[], before)[kind], before, next, kind);
      }
    }
  }

  lemma FirstGathers(candidates: seq<Mutation>, first: Mutation)
    requires !Proposed(candidates, first.kind)
    ensures Gathers(first, candidates + [first], first.kind)
  {
    MoreProposals(candidates, first);
    assert first in candidates + [first];
  }

  lemma OthersKeepGathering(m: Mutation, candidates: seq<Mutation>, next: Mutation, kind: MutationKind)
    requires Gathers(m, candidates, kind) && next.kind != kind
    ensures Gathers(m, candidates + [next], kind)
  {
    MoreProposals(candidates, next);
    var c :| c in candidates && c.kind == kind && c.confidence == m.confidence;
    var d :| d in candidates && d.kind == kind && SeverityRank(d.severity) == SeverityRank(m.severity);
    assert c in candidates + [next] && d in candidates + [next];
  }

  /** The same files, signals, confidence and severity rank. */
  ghost predicate SameMutation(m: Mutation, n: Mutation) {
    && (forall path :: path in m.files <==> path in n.files)
    && (forall signal :: HasSignal(m.signals, signal) <==> HasSignal(n.signals, signal))
    && m.confidence == n.confidence
    && SeverityRank(m.severity) == SeverityRank(n.severity)
  }

  ghost predicate SameClassification(a: Index, b: Index) {
    a.Keys == b.Keys && forall kind | kind in a :: SameMutation(a[kind], b[kind])
  }

  /** The result depends on which proposals are made, not on their order or number. */
  lemma MergingIgnoresOrder(a: seq<Mutation>, b: seq<Mutation>)
    requires forall c :: c in a <==> c in b
    ensures SameClassification(AddAll(map[], a), AddAll(map[], b))
  {
    hide AddAll, SameMutation;
    forall kind
      ensures kind in AddAll(map[], a) <==> kind in AddAll(map[], b)
      ensures kind in AddAll(map[], a) ==> SameMutation(AddAll(map[], a)[kind], AddAll(map[], b)[kind])
    {
      IndexGathers(a, kind);
      IndexGathers(b, kind);
      if kind in AddAll(map[], a) {
        SameGathering(AddAll(map[], a)[kind], AddAll(map[], b)[kind], a, b, kind);
      }
    }
  }

  lemma SameGathering(m: Mutation, n: Mutation, a: seq<Mutation>, b: seq<Mutation>, kind: MutationKind)
    requires forall c :: c in a <==> c in b
    requires Gathers(m, a, kind) && Gathers(n, b, kind)
    ensures SameMutation(m, n)
  {
    hide HasSignal;
    assert forall path :: ProposedFile(a, kind, path) <==> ProposedFile(b, kind, path);
    assert forall signal :: ProposedSignal(a, kind, signal) <==> ProposedSignal(b, kind, signal);
  }

  // ---- Order of files, rules and analyzers ------------------------------------------------------------

  lemma {:induction false} FromRulesHas(rules: seq<Rule>, file: ChangedFile, signals: seq<MutationSignal>, c: Mutation)
    ensures c in FromRules(rules, file, signals) <==>
            exists rule | rule in rules :: rule.matches(file.path, signals) && c == RuleMutation(rule, file, signals)
  {
    if rules != [] {
      var last := rules[|rules| - 1];
      FromRulesHas(rules[..|rules| - 1], file, signals, c);
      assert rules == rules[..|rules| - 1] + [last];
    }
  }

  /** Analysis fails exactly when a supporting analyzer does, and otherwise finds what any of them finds. */
  lemma {:induction false} FromAnalyzersHas(analyzers: seq<Analyzer>, file: ChangedFile, c: Mutation)
    ensures FromAnalyzers(analyzers, file).Ok? <==> forall x | x in analyzers && x.supports(file) :: x.analyze(file).Ok?
    ensures FromAnalyzers(analyzers, file).Ok? ==>
              (c in FromAnalyzers(analyzers, file).value <==>
                 exists x | x in analyzers :: x.supports(file) && c in x.analyze(file).value)
  {
    if analyzers != [] {
      var last := analyzers[|analyzers| - 1];
      FromAnalyzersHas(analyzers[..|analyzers| - 1], file, c);
      assert analyzers == analyzers[..|analyzers| - 1] + [last];
    }
  }

  lemma {:induction false} FromFilesHas(engine: Engine, files: seq<ChangedFile>, c: Mutation)
    ensures FromFiles(engine, files).Ok? <==> forall file | file in files :: FromFile(engine, file).Ok?
    ensures FromFiles(engine, files).Ok? ==>
              (c in FromFiles(engine, files).value <==>
               exists file | file in files :: c in FromFile(engine, file).value)
  {
    hide FromFile;
    if files != [] {
      var last := files[|files| - 1];
      FromFilesHas(engine, files[..|files| - 1], c);
      assert files == files[..|files| - 1] + [last];
    }
  }

  lemma FromFileIgnoresOrder(e: Engine, f: Engine, file: ChangedFile, c: Mutation)
    requires e.extract == f.extract
    requires forall rule :: rule in e.rules <==> rule in f.rules
    requires forall analyzer :: analyzer in e.analyzers <==> analyzer in f.analyzers
    ensures FromFile(e, file).Ok? <==> FromFile(f, file).Ok?
    ensures FromFile(e, file).Ok? ==> (c in FromFile(e, file).value <==> c in FromFile(f, file).value)
  {
    hide FromRules, FromAnalyzers;
    if e.extract(file).Ok? {
      var signals := e.extract(file).value;
      FromRulesHas(e.rules, file, signals, c);
      FromRulesHas(f.rules, file, signals, c);
      FromAnalyzersHas(e.analyzers, file, c);
      FromAnalyzersHas(f.analyzers, file, c);
    }
  }

  lemma FromFilesIgnoresOrder(e: Engine, f: Engine, files: seq<ChangedFile>, others: seq<ChangedFile>, c: Mutation)
    requires e.extract == f.extract
    requires forall rule :: rule in e.rules <==> rule in f.rules
    requires forall analyzer :: analyzer in e.analyzers <==> analyzer in f.analyzers
    requires forall file :: file in files <==> file in others
    ensures FromFiles(e, files).Ok? <==> FromFiles(f, others).Ok?
    ensures FromFiles(e, files).Ok? ==> (c in FromFiles(e, files).value <==> c in FromFiles(f, others).value)
  {
    hide FromFile, FromFiles;
    forall file
      ensures FromFile(e, file).Ok? <==> FromFile(f, file).Ok?
      ensures FromFile(e, file).Ok? ==> (c in FromFile(e, file).value <==> c in FromFile(f, file).value)
    {
      FromFileIgnoresOrder(e, f, file, c);
    }
    FromFilesHas(e, files, c);
    FromFilesHas(f, others, c);
  }

  /** Reordering files, rules or analyzers neither turns success into failure nor changes the kinds found,
    * their files, signals, confidence or severity. */
  lemma ClassifyIgnoresOrder(e: Engine, f: Engine, files: seq<ChangedFile>, others: seq<ChangedFile>)
    requires e.extract == f.extract
    requires forall rule :: rule in e.rules <==> rule in f.rules
    requires forall analyzer :: analyzer in e.analyzers <==> analyzer in f.analyzers
    requires forall file :: file in files <==> file in others
    ensures FromFiles(e, files).Ok? <==> FromFiles(f, others).Ok?
    ensures FromFiles(e, files).Ok? ==>
              SameClassification(Classified(FromFiles(e, files).value, files),
                                 Classified(FromFiles(f, others).value, others))
  {
    hide FromFile, FromFiles, AddAll, SameMutation;
    FromFilesIgnoresOrder(e, f, files, others, Fallback(files));
    forall c
      ensures FromFiles(e, files).Ok? ==> (c in FromFiles(e, files).value <==> c in FromFiles(f, others).value)
    {
      FromFilesIgnoresOrder(e, f, files, others, c);
    }
    if FromFiles(e, files).Ok? {
      FallbackIgnoresOrder(FromFiles(e, files).value, FromFiles(f, others).value, files, others);
    }
  }

  lemma {:induction false} PathsHas(files: seq<ChangedFile>, path: string)
    ensures path in Paths(files) <==> exists file | file in files :: file.path == path
  {
    if files != [] {
      PathsHas(files[..|files| - 1], path);
      assert files == files[..|files| - 1] + [files[|files| - 1]];
    }
  }

  lemma FallbackIgnoresOrder(a: seq<Mutation>, b: seq<Mutation>, files: seq<ChangedFile>, others: seq<ChangedFile>)
    requires forall c :: c in a <==> c in b
    requires forall file :: file in files <==> file in others
    ensures SameClassification(Classified(a, files), Classified(b, others))
  {
    hide AddAll;
    MergingIgnoresOrder(a, b);
    forall path
      ensures path in Paths(files) <==> path in Paths(others)
    {
      PathsHas(files, path);
      PathsHas(others, path);
    }
    assert files == [] <==> others == [] by {
      assert files != [] ==> files[0] in others;
      assert others != [] ==> others[0] in files;
    }
    assert |AddAll(map[], a)| == |AddAll(map[], a).Keys| && |AddAll(map[], b)| == |AddAll(map[], b).Keys|;
  }

  /** A change with files always yields a mutation. */
  lemma ClassifiedIsNonEmpty(candidates: seq<Mutation>, files: seq<ChangedFile>)
    requires files != []
    ensures |Classified(candidates, files)| > 0
  {
    hide AddAll;
  }
}
