/** Parsing a unified diff into files: one pass over the lines, a file per "diff --git " header. */
module Diff {
  import opened Domain
  import opened Text

  datatype FileStatus = Added | Modified | Removed | Renamed

  datatype File = File(
    path: string,
    previousPath: string,
    status: FileStatus,
    additions: nat,
    deletions: nat,
    patch: string)

  const HEADER := "diff --git "

  predicate IsHeader(line: string) {
    HasPrefix(line, HEADER)
  }

  predicate IsAddition(line: string) {
    HasPrefix(line, "+") && !HasPrefix(line, "+++")
  }

  predicate IsDeletion(line: string) {
    HasPrefix(line, "-") && !HasPrefix(line, "---")
  }

  // ---- Reference: lines in groups -------------------------------------------------------------------

  /** The lines of each file: a header and everything up to the next one; lines before the first header
    * belong to no file. */
  function Groups(lines: seq<string>): seq<seq<string>> {
    if lines == [] then []
    else
      var line := lines[|lines| - 1];
      var groups := Groups(lines[..|lines| - 1]);
      if IsHeader(line) then groups + [[line]]
      else if groups == [] then []
      else groups[..|groups| - 1] + [groups[|groups| - 1] + [line]]
  }

  function FromHeader(line: string): File {
    var parts := Split(line, ' ');
    if |parts| >= 4 then File(TrimPrefix(parts[3], "b/"), TrimPrefix(parts[2], "a/"), Modified, 0, 0, "")
    else File("", "", Modified, 0, 0, "")
  }

  /** What one line below the header says about the file. */
  function Noted(file: File, line: string): File {
    if HasPrefix(line, "new file mode") then file.(status := Added)
    else if HasPrefix(line, "deleted file mode") then file.(status := Removed)
    else if HasPrefix(line, "rename from ") then
      file.(previousPath := TrimPrefix(line, "rename from "), status := Renamed)
    else if HasPrefix(line, "rename to ") then file.(path := TrimPrefix(line, "rename to "), status := Renamed)
    else if IsAddition(line) then file.(additions := file.additions + 1)
    else if IsDeletion(line) then file.(deletions := file.deletions + 1)
    else file
  }

  function Summary(group: seq<string>): File
    requires group != []
  {
    if |group| == 1 then FromHeader(group[0]) else Noted(Summary(group[..|group| - 1]), group[|group| - 1])
  }

  function FileOf(group: seq<string>): File
    requires group != []
  {
    Summary(group).(patch := Join(group, '\n'))
  }

  ghost predicate IsGroup(group: seq<string>) {
    group != [] && IsHeader(group[0]) && forall i | 1 <= i < |group| :: !IsHeader(group[i])
  }

  lemma {:induction false} GroupsAreGroups(lines: seq<string>)
    ensures forall g | g in Groups(lines) :: IsGroup(g)
    ensures forall g, l | g in Groups(lines) && l in g :: l in lines
  {
    hide IsHeader;
    if lines != [] {
      var before, line := lines[..|lines| - 1], lines[|lines| - 1];
      GroupsAreGroups(before);
      var groups := Groups(before);
      assert lines == before + [line];
      forall g | g in Groups(lines)
        ensures IsGroup(g) && forall l | l in g :: l in lines
      {
        if g !in groups && !IsHeader(line) {
          assert g == groups[|groups| - 1] + [line];
          assert groups[|groups| - 1] in groups;
        }
      }
    }
  }

  predicate NonEmpty(groups: seq<seq<string>>) {
    forall i | 0 <= i < |groups| :: groups[i] != []
  }

  function Files(groups: seq<seq<string>>): seq<File>
    requires NonEmpty(groups)
  {
    if groups == [] then [] else Files(groups[..|groups| - 1]) + [FileOf(groups[|groups| - 1])]
  }

  /** What parsing returns, in terms of groups. */
  function Parsed(input: string): (files: seq<File>) {
    GroupsNonEmpty(Split(input, '\n'));
    Files(Groups(Split(input, '\n')))
  }

  lemma GroupsNonEmpty(lines: seq<string>)
    ensures NonEmpty(Groups(lines))
  {
    GroupsAreGroups(lines);
  }

  // ---- The parser -----------------------------------------------------------------------------------

  /** A single pass with an open file and its lines so far, flushed at each header and at the end. */
  method ParseUnified(input: string) returns (files: seq<File>)
    ensures files == Parsed(input)
  {
    hide Groups, Files, Summary, Split, Blank, IsHeader, FromHeader, Noted, Holds, Join;
    if Blank(input) {
      BlankHasNoFiles(input);
      return [];
    }
    var lines := Split(input, '\n');
    files := [];
    var current: Option<File> := None;
    var patch: seq<string> := [];
    HoldsAtStart();
    for i := 0 to |lines|
      invariant Holds(files, current, patch, Groups(lines[..i]))
    {
      var line := lines[i];
      NextLine(files, current, patch, lines[..i], line);
      assert lines[..i + 1] == lines[..i] + [line];
      if IsHeader(line) {
        if current.Some? {
          files := files + [current.value.(patch := Join(patch, '\n'))];
        }
        var file := OpenFile(line);
        current, patch := Some(file), [line];
      } else if current.Some? {
        patch := patch + [line];
        var file := NoteLine(current.value, line);
        current := Some(file);
      }
    }
    assert lines[..|lines|] == lines;
    HoldsAtEnd(files, current, patch, Groups(lines));
    if current.Some? {
      files := files + [current.value.(patch := Join(patch, '\n'))];
    }
  }

  method OpenFile(line: string) returns (file: File)
    ensures file == FromHeader(line)
  {
    file := File("", "", Modified, 0, 0, "");
    var parts := Split(line, ' ');
    if |parts| >= 4 {
      file := file.(previousPath := TrimPrefix(parts[2], "a/"));
      file := file.(path := TrimPrefix(parts[3], "b/"));
    }
  }

  method NoteLine(before: File, line: string) returns (file: File)
    ensures file == Noted(before, line)
  {
    file := before;
    if HasPrefix(line, "new file mode") {
      file := file.(status := Added);
    } else if HasPrefix(line, "deleted file mode") {
      file := file.(status := Removed);
    } else if HasPrefix(line, "rename from ") {
      file := file.(previousPath := TrimPrefix(line, "rename from "));
      file := file.(status := Renamed);
    } else if HasPrefix(line, "rename to ") {
      file := file.(path := TrimPrefix(line, "rename to "));
      file := file.(status := Renamed);
    } else if HasPrefix(line, "+") && !HasPrefix(line, "+++") {
      file := file.(additions := file.additions + 1);
    } else if HasPrefix(line, "-") && !HasPrefix(line, "---") {
      file := file.(deletions := file.deletions + 1);
    }
  }

  lemma HoldsAtStart()
    ensures Holds([], None, [], Groups([]))
  {
  }

  lemma HoldsAtEnd(files: seq<File>, current: Option<File>, patch: seq<string>, groups: seq<seq<string>>)
    requires Holds(files, current, patch, groups)
    ensures NonEmpty(groups)
    ensures Files(groups) == if current.Some? then files + [current.value.(patch := Join(patch, '\n'))] else files
  {
    hide Summary, Join;
  }

  /** The finished files and the open one stand for the groups of the lines read. */
  ghost predicate Holds(files: seq<File>, current: Option<File>, patch: seq<string>, groups: seq<seq<string>>) {
    && NonEmpty(groups)
    && match current
       case None => groups == [] && files == [] && patch == []
       case Some(file) =>
         && groups != []
         && files == Files(groups[..|groups| - 1])
         && patch == groups[|groups| - 1]
         && file == Summary(patch)
  }

  lemma NextLine(files: seq<File>, current: Option<File>, patch: seq<string>, lines: seq<string>, line: string)
    requires Holds(files, current, patch, Groups(lines))
    ensures var groups := Groups(lines + [line]);
            if IsHeader(line) then
              Holds(if current.Some? then files + [current.value.(patch := Join(patch, '\n'))] else files,
                    Some(FromHeader(line)), [line], groups)
            else if current.Some? then Holds(files, Some(Noted(current.value, line)), patch + [line], groups)
            else Holds(files, current, patch, groups)
  {
    hide FromHeader, Noted, IsHeader, Groups, Files, Summary, Join, NonEmpty;
    NextGroup(lines, line);
    if IsHeader(line) {
      HeaderHolds(files, current, patch, Groups(lines), line);
    } else if current.Some? {
      LineHolds(files, current.value, patch, Groups(lines), line);
    }
  }

  lemma HeaderHolds(files: seq<File>, current: Option<File>, patch: seq<string>, groups: seq<seq<string>>, line: string)
    requires Holds(files, current, patch, groups)
    ensures Holds(if current.Some? then files + [current.value.(patch := Join(patch, '\n'))] else files,
                  Some(FromHeader(line)), [line], groups + [[line]])
  {
    hide FromHeader, Files, Join;
    HoldsAtEnd(files, current, patch, groups);
    assert (groups + [[line]])[..|groups|] == groups;
  }

  lemma LineHolds(files: seq<File>, file: File, patch: seq<string>, groups: seq<seq<string>>, line: string)
    requires Holds(files, Some(file), patch, groups)
    ensures Holds(files, Some(Noted(file, line)), patch + [line],
                  groups[..|groups| - 1] + [groups[|groups| - 1] + [line]])
  {
    hide Noted, Files, Join;
    var next := groups[..|groups| - 1] + [patch + [line]];
    assert next[..|next| - 1] == groups[..|groups| - 1];
    assert (patch + [line])[..|patch|] == patch && (patch + [line])[|patch|] == line;
  }

  lemma {:induction false} SplitUsesCharacters(s: string, sep: char)
    ensures forall piece, c | piece in Split(s, sep) && c in piece :: c in s
  {
    if s != "" {
      SplitUsesCharacters(s[1..], sep);
      assert s == [s[0]] + s[1..];
      var rest := Split(s[1..], sep);
      forall piece, c | piece in Split(s, sep) && c in piece
        ensures c in s
      {
        if s[0] != sep && piece == [s[0]] + rest[0] {
          assert rest[0] in rest;
        }
      }
    }
  }

  lemma BlankHasNoFiles(input: string)
    requires Blank(input)
    ensures Parsed(input) == []
  {
    var lines := Split(input, '\n');
    SplitUsesCharacters(input, '\n');
    forall line | line in lines
      ensures !IsHeader(line)
    {
      if IsHeader(line) {
        HeaderStart(line);
      }
    }
    NoHeaderNoGroups(lines);
  }

  lemma HeaderStart(line: string)
    requires IsHeader(line)
    ensures 'd' in line
  {
    assert line[0] == 'd';
  }

  lemma {:induction false} NoHeaderNoGroups(lines: seq<string>)
    requires forall line | line in lines :: !IsHeader(line)
    ensures Groups(lines) == []
  {
    if lines != [] {
      NoHeaderNoGroups(lines[..|lines| - 1]);
    }
  }

  // ---- Laws -----------------------------------------------------------------------------------------

  function FromFirstHeader(lines: seq<string>): seq<string> {
    if lines == [] || IsHeader(lines[0]) then lines else FromFirstHeader(lines[1..])
  }

  function Concat(groups: seq<seq<string>>): seq<string> {
    if groups == [] then [] else Concat(groups[..|groups| - 1]) + groups[|groups| - 1]
  }

  lemma {:induction false} FromFirstHeaderAppend(lines: seq<string>, line: string)
    ensures FromFirstHeader(lines + [line]) ==
            if FromFirstHeader(lines) != [] || IsHeader(line) then FromFirstHeader(lines) + [line] else []
  {
    hide IsHeader;
    if lines == [] {
      assert lines + [line] == [line] && [line][1..] == [];
    } else if IsHeader(lines[0]) {
    } else {
      assert (lines + [line])[1..] == lines[1..] + [line];
      FromFirstHeaderAppend(lines[1..], line);
    }
  }

  /** The groups hold every line from the first header on, in order. */
  lemma {:induction false} GroupsLoseNothing(lines: seq<string>)
    ensures Concat(Groups(lines)) == FromFirstHeader(lines)
    ensures Groups(lines) == [] <==> FromFirstHeader(lines) == []
  {
    hide IsHeader, Groups, Concat, FromFirstHeader;
    if lines == [] {
      NothingToLose();
    } else {
      var before, line := lines[..|lines| - 1], lines[|lines| - 1];
      GroupsLoseNothing(before);
      FromFirstHeaderAppend(before, line);
      assert lines == before + [line];
      NextGroup(before, line);
      var groups := Groups(before);
      if IsHeader(line) {
        ConcatNext(groups, [line]);
      } else if groups != [] {
        var last := groups[|groups| - 1];
        ConcatNext(groups[..|groups| - 1], last);
        ConcatNext(groups[..|groups| - 1], last + [line]);
        assert groups == groups[..|groups| - 1] + [last];
      }
    }
  }

  lemma NothingToLose()
    ensures Groups([]) == [] && Concat([]) == [] && FromFirstHeader([]) == []
  {
  }

  lemma ConcatNext(groups: seq<seq<string>>, group: seq<string>)
    ensures Concat(groups + [group]) == Concat(groups) + group
  {
    assert (groups + [group])[..|groups|] == groups;
  }

  function Patches(files: seq<File>): seq<string> {
    if files == [] then [] else Patches(files[..|files| - 1]) + [files[|files| - 1].patch]
  }

  lemma {:induction false} FilesAt(groups: seq<seq<string>>)
    requires NonEmpty(groups)
    ensures |Files(groups)| == |groups|
    ensures forall i | 0 <= i < |groups| :: Files(groups)[i] == FileOf(groups[i])
  {
    hide FileOf;
    if groups != [] {
      FilesAt(groups[..|groups| - 1]);
    }
  }

  lemma {:induction false} ConcatNonEmpty(groups: seq<seq<string>>)
    requires NonEmpty(groups) && groups != []
    ensures Concat(groups) != []
  {
  }

  lemma {:induction false} PatchesJoin(groups: seq<seq<string>>)
    requires NonEmpty(groups)
    ensures Join(Patches(Files(groups)), '\n') == Join(Concat(groups), '\n')
    ensures |Patches(Files(groups))| == |groups|
  {
    hide Join, Files, Patches, Concat;
    if groups == [] {
      NoPatches();
    } else {
      var before, last := groups[..|groups| - 1], groups[|groups| - 1];
      var patch := Join(last, '\n');
      PatchesJoin(before);
      LastPatch(groups);
      JoinOne(patch);
      if before == [] {
        NoPatches();
        assert [] + [patch] == [patch] && [] + last == last;
      } else {
        ConcatNonEmpty(before);
        JoinAppend(Patches(Files(before)), [patch], '\n');
        JoinAppend(Concat(before), last, '\n');
      }
    }
  }

  lemma NoPatches()
    ensures Patches(Files([])) == [] && Concat([]) == []
  {
  }

  lemma LastPatch(groups: seq<seq<string>>)
    requires NonEmpty(groups) && groups != []
    ensures var before, last := groups[..|groups| - 1], groups[|groups| - 1];
            && Patches(Files(groups)) == Patches(Files(before)) + [Join(last, '\n')]
            && Concat(groups) == Concat(before) + last
  {
    hide Join, Summary;
    var files := Files(groups[..|groups| - 1]);
    assert (files + [FileOf(groups[|groups| - 1])])[..|files|] == files;
  }

  lemma JoinOne(piece: string)
    ensures Join([piece], '\n') == piece
  {
  }

  lemma {:induction false} FromFirstHeaderIsSuffix(lines: seq<string>)
    ensures |FromFirstHeader(lines)| <= |lines|
    ensures FromFirstHeader(lines) == lines[|lines| - |FromFirstHeader(lines)|..]
    ensures forall i | 0 <= i < |lines| - |FromFirstHeader(lines)| :: !IsHeader(lines[i])
  {
    hide IsHeader;
    if lines != [] && !IsHeader(lines[0]) {
      FromFirstHeaderIsSuffix(lines[1..]);
      assert forall i | 1 <= i < |lines| :: lines[i] == lines[1..][i - 1];
    }
  }

  predicate IsSuffix(part: string, whole: string) {
    |part| <= |whole| && whole[|whole| - |part|..] == part
  }

  /** Nothing is lost: joined by newlines, the patches are the input itself from its first header line. */
  lemma ParsingLosesNothing(input: string)
    ensures Join(Patches(Parsed(input)), '\n') == Join(FromFirstHeader(Split(input, '\n')), '\n')
    ensures IsSuffix(Join(Patches(Parsed(input)), '\n'), input)
  {
    hide Join, Split, Groups, Files, FromFirstHeader, Concat, Patches;
    var lines := Split(input, '\n');
    GroupsNonEmpty(lines);
    PatchesJoin(Groups(lines));
    GroupsLoseNothing(lines);
    FromFirstHeaderIsSuffix(lines);
    JoinSplit(input, '\n');
    JoinSuffix(lines, |lines| - |FromFirstHeader(lines)|);
  }

  lemma JoinSuffix(lines: seq<string>, n: nat)
    requires n <= |lines|
    ensures |Join(lines[n..], '\n')| <= |Join(lines, '\n')|
    ensures Join(lines, '\n')[|Join(lines, '\n')| - |Join(lines[n..], '\n')|..] == Join(lines[n..], '\n')
  {
    if n == 0 {
      assert lines[0..] == lines;
    } else if n < |lines| {
      JoinAppend(lines[..n], lines[n..], '\n');
      assert lines == lines[..n] + lines[n..];
    }
  }

  lemma {:induction false} GroupIsItsOwnGroups(group: seq<string>)
    requires IsGroup(group)
    ensures Groups(group) == [group]
  {
    hide IsHeader;
    if |group| > 1 {
      GroupIsItsOwnGroups(group[..|group| - 1]);
      assert group == group[..|group| - 1] + [group[|group| - 1]];
    } else {
      assert group[..0] == [] && group == [group[0]];
    }
  }

  /** Parsing the patch of any parsed file gives back exactly that file. */
  lemma PatchReparses(input: string, i: nat)
    requires i < |Parsed(input)|
    ensures Parsed(Parsed(input)[i].patch) == [Parsed(input)[i]]
  {
    hide Join, Split, Groups, Summary, IsGroup;
    var lines := Split(input, '\n');
    var groups := Groups(lines);
    GroupsNonEmpty(lines);
    FilesAt(groups);
    GroupsAreGroups(lines);
    var group := groups[i];
    assert group in groups;
    SplitJoin(group, '\n');
    GroupIsItsOwnGroups(group);
    FilesAt([group]);
  }

  /** Starting a new file closes the old one: groups of concatenated lines. */
  lemma {:induction false} GroupsAppend(a: seq<string>, b: seq<string>)
    requires b != [] && IsHeader(b[0])
    ensures Groups(a + b) == Groups(a) + Groups(b)
    ensures Groups(b) != []
  {
    hide IsHeader, Groups;
    var init, last := b[..|b| - 1], b[|b| - 1];
    assert a + b == a + init + [last] && b == init + [last];
    NextGroup(a + init, last);
    NextGroup(init, last);
    if |b| == 1 {
      assert a + init == a && init == [];
      NoGroups();
    } else {
      GroupsAppend(a, init);
      var groups := Groups(init);
      if !IsHeader(last) {
        assert (Groups(a) + groups)[..|Groups(a)| + |groups| - 1] == Groups(a) + groups[..|groups| - 1];
      }
    }
  }

  lemma NoGroups()
    ensures Groups([]) == []
  {
  }

  lemma NextGroup(lines: seq<string>, line: string)
    ensures var groups := Groups(lines);
            Groups(lines + [line]) ==
            if IsHeader(line) then groups + [[line]]
            else if groups == [] then []
            else groups[..|groups| - 1] + [groups[|groups| - 1] + [line]]
  {
    hide IsHeader;
    assert (lines + [line])[..|lines + [line]| - 1] == lines;
  }

  lemma {:induction false} FilesAppend(a: seq<seq<string>>, b: seq<seq<string>>)
    requires NonEmpty(a) && NonEmpty(b) && NonEmpty(a + b)
    ensures Files(a + b) == Files(a) + Files(b)
  {
    hide FileOf;
    if b == [] {
      assert a + b == a;
    } else {
      var init := b[..|b| - 1];
      assert (a + b)[..|a + b| - 1] == a + init;
      FilesAppend(a, init);
    }
  }

  /** The first line of a text that begins with a header is a header. */
  lemma FirstLineIsHeader(b: string)
    requires HasPrefix(b, HEADER)
    ensures IsHeader(Split(b, '\n')[0])
  {
    FirstLineStartsAlike(b, |HEADER|);
  }

  lemma {:induction false} FirstLineStartsAlike(b: string, n: nat)
    requires n <= |b| && '\n' !in b[..n]
    ensures b[..n] <= Split(b, '\n')[0]
  {
    if n > 0 {
      assert b[..n][0] == b[0] && b[1..][..n - 1] == b[..n][1..];
      FirstLineStartsAlike(b[1..], n - 1);
    }
  }

  /** Parsing two diffs joined at a header boundary is parsing each. */
  lemma ParsingConcatenates(a: string, b: string)
    requires HasPrefix(b, HEADER)
    ensures Parsed(a + ['\n'] + b) == Parsed(a) + Parsed(b)
  {
    hide Groups, Files, Split, IsHeader;
    SplitAppend(a, b, '\n');
    FirstLineIsHeader(b);
    GroupsAppend(Split(a, '\n'), Split(b, '\n'));
    GroupsNonEmpty(Split(a, '\n'));
    GroupsNonEmpty(Split(b, '\n'));
    FilesAppend(Groups(Split(a, '\n')), Groups(Split(b, '\n')));
  }

  function Count(lines: seq<string>, holds: string -> bool): nat {
    if lines == [] then 0
    else Count(lines[..|lines| - 1], holds) + if holds(lines[|lines| - 1]) then 1 else 0
  }

  lemma {:induction false} CountAppend(a: seq<string>, b: seq<string>, holds: string -> bool)
    ensures Count(a + b, holds) == Count(a, holds) + Count(b, holds)
  {
    if b == [] {
      assert a + b == a;
    } else {
      assert (a + b)[..|a + b| - 1] == a + b[..|b| - 1];
      CountAppend(a, b[..|b| - 1], holds);
    }
  }

  lemma {:induction false} SummaryCounts(group: seq<string>)
    requires IsGroup(group)
    ensures Summary(group).additions == Count(group, IsAddition)
    ensures Summary(group).deletions == Count(group, IsDeletion)
  {
    if |group| == 1 {
      assert group[..0] == [] && group[0][0] == 'd';
    } else {
      SummaryCounts(group[..|group| - 1]);
      NotedCounts(Summary(group[..|group| - 1]), group[|group| - 1]);
    }
  }

  lemma NotedCounts(file: File, line: string)
    ensures Noted(file, line).additions == file.additions + if IsAddition(line) then 1 else 0
    ensures Noted(file, line).deletions == file.deletions + if IsDeletion(line) then 1 else 0
  {
    if line != "" {
      assert HasPrefix(line, "+") ==> line[0] == '+';
      assert HasPrefix(line, "-") ==> line[0] == '-';
      assert HasPrefix(line, "new file mode") ==> line[0] == 'n';
      assert HasPrefix(line, "deleted file mode") ==> line[0] == 'd';
      assert HasPrefix(line, "rename from ") ==> line[0] == 'r';
      assert HasPrefix(line, "rename to ") ==> line[0] == 'r';
    }
  }

  function TotalAdditions(files: seq<File>): nat {
    if files == [] then 0 else TotalAdditions(files[..|files| - 1]) + files[|files| - 1].additions
  }

  function TotalDeletions(files: seq<File>): nat {
    if files == [] then 0 else TotalDeletions(files[..|files| - 1]) + files[|files| - 1].deletions
  }

  lemma {:induction false} GroupCounts(groups: seq<seq<string>>)
    requires NonEmpty(groups) && forall g | g in groups :: IsGroup(g)
    ensures TotalAdditions(Files(groups)) == Count(Concat(groups), IsAddition)
    ensures TotalDeletions(Files(groups)) == Count(Concat(groups), IsDeletion)
  {
    hide Join, Summary, IsGroup;
    if groups != [] {
      var before, last := groups[..|groups| - 1], groups[|groups| - 1];
      GroupCounts(before);
      SummaryCounts(last);
      CountAppend(Concat(before), last, IsAddition);
      CountAppend(Concat(before), last, IsDeletion);
      FilesAt(groups);
      assert Files(groups)[..|groups| - 1] == Files(before);
    }
  }

  /** Additions and deletions are counts of lines from the first header on: those that start with one sign
    * but not three. */
  lemma CountsAreConserved(input: string)
    ensures var lines := FromFirstHeader(Split(input, '\n'));
            && TotalAdditions(Parsed(input)) == Count(lines, IsAddition)
            && TotalDeletions(Parsed(input)) == Count(lines, IsDeletion)
  {
    hide Groups, Files, Split, FromFirstHeader, Count, Concat;
    var lines := Split(input, '\n');
    GroupsNonEmpty(lines);
    GroupsAreGroups(lines);
    GroupCounts(Groups(lines));
    GroupsLoseNothing(lines);
  }
}
