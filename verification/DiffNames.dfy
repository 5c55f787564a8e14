/** What a parsed file is called and what happened to it, told from the lines of its own patch. */
module DiffNames {
  import opened Text
  import opened Diff

  /** The lines of the i-th file of the input. */
  function LinesOf(input: string, i: nat): seq<string>
    requires i < |Parsed(input)|
  {
    Split(Parsed(input)[i].patch, '\n')
  }

  predicate IsMarker(line: string) {
    || HasPrefix(line, "new file mode") || HasPrefix(line, "deleted file mode")
    || HasPrefix(line, "rename from ") || HasPrefix(line, "rename to ")
  }

  /** The last line from the second on with the prefix. */
  ghost predicate IsLast(lines: seq<string>, j: nat, prefix: string) {
    && 1 <= j < |lines| && HasPrefix(lines[j], prefix)
    && forall k | j < k < |lines| :: !HasPrefix(lines[k], prefix)
  }

  ghost predicate HasNone(lines: seq<string>, prefix: string) {
    forall k | 1 <= k < |lines| :: !HasPrefix(lines[k], prefix)
  }

  // ---- From files to their lines ----------------------------------------------------------------------

  lemma FileOfLines(input: string, i: nat)
    requires i < |Parsed(input)|
    ensures IsGroup(LinesOf(input, i)) && Parsed(input)[i] == FileOf(LinesOf(input, i))
    ensures |Parsed(input)| == |Groups(Split(input, '\n'))| && LinesOf(input, i) == Groups(Split(input, '\n'))[i]
  {
    hide Join, Split, Groups, Summary, IsGroup;
    var groups := Groups(Split(input, '\n'));
    GroupsNonEmpty(Split(input, '\n'));
    FilesAt(groups);
    LinesKeepNoBreaks(input);
    assert groups[i] in groups;
    SplitJoin(groups[i], '\n');
  }

  lemma LinesKeepNoBreaks(input: string)
    ensures forall g | g in Groups(Split(input, '\n')) :: IsGroup(g) && g != [] && forall l | l in g :: '\n' !in l
  {
    hide Split, Groups;
    GroupsAreGroups(Split(input, '\n'));
    JoinSplit(input, '\n');
  }

  /** One file for each line that starts with "diff --git ", which is the first of its lines and the only such. */
  lemma FilesPerHeader(input: string)
    ensures |Parsed(input)| == Count(Split(input, '\n'), StartsFile)
    ensures forall i, j | 0 <= i < |Parsed(input)| && 0 <= j < |LinesOf(input, i)| ::
              StartsFile(LinesOf(input, i)[j]) <==> j == 0
  {
    hide Groups, Split, Count, IsGroup;
    GroupsPerHeader(Split(input, '\n'));
    GroupsNonEmpty(Split(input, '\n'));
    FilesAt(Groups(Split(input, '\n')));
    forall i | 0 <= i < |Parsed(input)|
      ensures forall j | 0 <= j < |LinesOf(input, i)| :: StartsFile(LinesOf(input, i)[j]) <==> j == 0
    {
      FileOfLines(input, i);
      OnlyFirstStarts(LinesOf(input, i));
    }
  }

  predicate StartsFile(line: string) {
    "diff --git " <= line
  }

  lemma OnlyFirstStarts(group: seq<string>)
    requires IsGroup(group)
    ensures forall j | 0 <= j < |group| :: StartsFile(group[j]) <==> j == 0
  {
  }

  lemma {:induction false} GroupsPerHeader(lines: seq<string>)
    ensures |Groups(lines)| == Count(lines, StartsFile)
  {
    if lines != [] {
      GroupsPerHeader(lines[..|lines| - 1]);
      assert IsHeader(lines[|lines| - 1]) <==> StartsFile(lines[|lines| - 1]);
    }
  }

  // ---- One line at a time -----------------------------------------------------------------------------

  lemma MarkersExclude(line: string)
    ensures HasPrefix(line, "new file mode") ==>
              !HasPrefix(line, "deleted file mode") && !HasPrefix(line, "rename from ")
                  && !HasPrefix(line, "rename to ")
    ensures HasPrefix(line, "deleted file mode") ==> !HasPrefix(line, "rename from ") && !HasPrefix(line, "rename to ")
    ensures HasPrefix(line, "rename from ") ==> !HasPrefix(line, "rename to ")
  {
    assert HasPrefix(line, "new file mode") ==> line[0] == 'n';
    assert HasPrefix(line, "deleted file mode") ==> line[0] == 'd';
    assert HasPrefix(line, "rename from ") ==> line[0] == 'r' && line[7] == 'f';
    assert HasPrefix(line, "rename to ") ==> line[0] == 'r' && line[7] == 't';
  }

  lemma NotedNames(file: File, line: string)
    ensures Noted(file, line).path == if HasPrefix(line, "rename to ") then line[|"rename to "|..] else file.path
    ensures Noted(file, line).previousPath ==
            if HasPrefix(line, "rename from ") then line[|"rename from "|..] else file.previousPath
    ensures Noted(file, line).status ==
            if HasPrefix(line, "new file mode") then Added
            else if HasPrefix(line, "deleted file mode") then Removed
            else if HasPrefix(line, "rename from ") || HasPrefix(line, "rename to ") then Renamed
            else file.status
  {
    hide HasPrefix;
    MarkersExclude(line);
  }

  /** The four words of a header give both names, without their one-letter directories. */
  lemma HeaderNames(p: string, q: string)
    requires ' ' !in p && ' ' !in q
    ensures FromHeader("diff --git a/" + p + " b/" + q) == File(q, p, Modified, 0, 0, "")
  {
    var words := ["diff", "--git", "a/" + p, "b/" + q];
    FourWords("diff", "--git", "a/" + p, "b/" + q);
    assert "diff" + [' '] + "--git" + [' '] + ("a/" + p) + [' '] + ("b/" + q) == "diff --git a/" + p + " b/" + q;
    SplitJoin(words, ' ');
    assert ("a/" + p)[2..] == p && ("b/" + q)[2..] == q;
  }

  lemma FourWords(a: string, b: string, c: string, d: string)
    ensures Join([a, b, c, d], ' ') == a + [' '] + b + [' '] + c + [' '] + d
  {
    JoinAppend([a], [b, c, d], ' ');
    JoinAppend([b], [c, d], ' ');
    JoinAppend([c], [d], ' ');
    JoinOne(a);
    JoinOne(b);
    JoinOne(c);
    JoinOne(d);
    assert [a] + [b, c, d] == [a, b, c, d] && [b] + [c, d] == [b, c, d] && [c] + [d] == [c, d];
  }

  // ---- Whole files ------------------------------------------------------------------------------------

  lemma {:induction false} SummaryNames(group: seq<string>, j: nat)
    requires group != []
    ensures HasNone(group, "rename to ") ==> Summary(group).path == FromHeader(group[0]).path
    ensures HasNone(group, "rename from ") ==> Summary(group).previousPath == FromHeader(group[0]).previousPath
    ensures IsLast(group, j, "rename to ") ==> Summary(group).path == group[j][|"rename to "|..]
    ensures IsLast(group, j, "rename from ") ==> Summary(group).previousPath == group[j][|"rename from "|..]
  {
    hide HasPrefix, FromHeader, Noted;
    if |group| > 1 {
      SummaryNames(group[..|group| - 1], j);
      NotedNames(Summary(group[..|group| - 1]), group[|group| - 1]);
    }
  }

  lemma {:induction false} SummaryStatus(group: seq<string>, j: nat)
    requires group != []
    ensures (forall k | 1 <= k < |group| :: !IsMarker(group[k])) ==> Summary(group).status == Modified
    ensures 1 <= j < |group| && IsMarker(group[j]) && (forall k | j < k < |group| :: !IsMarker(group[k])) ==>
              Summary(group).status ==
              if HasPrefix(group[j], "new file mode") then Added
              else if HasPrefix(group[j], "deleted file mode") then Removed
              else Renamed
  {
    hide HasPrefix, Noted;
    if |group| > 1 {
      SummaryStatus(group[..|group| - 1], j);
      NotedNames(Summary(group[..|group| - 1]), group[|group| - 1]);
    }
  }

  /** Without rename lines a file is called what its header says: a/ and b/ are not part of the names. */
  lemma NamesFromHeader(input: string, i: nat, p: string, q: string)
    requires i < |Parsed(input)| && ' ' !in p && ' ' !in q
    requires LinesOf(input, i)[0] == "diff --git a/" + p + " b/" + q
    ensures HasNone(LinesOf(input, i), "rename to ") ==> Parsed(input)[i].path == q
    ensures HasNone(LinesOf(input, i), "rename from ") ==> Parsed(input)[i].previousPath == p
  {
    hide Parsed, LinesOf, Split, HasPrefix, Summary, FromHeader, IsGroup, HasNone;
    FileOfLines(input, i);
    HeaderNames(p, q);
    LinesNotEmpty(input, i);
    SummaryNames(LinesOf(input, i), 0);
  }

  lemma LinesNotEmpty(input: string, i: nat)
    requires i < |Parsed(input)|
    ensures LinesOf(input, i) != []
  {
    hide Parsed, Split;
  }

  /** The last rename lines, where there are any, name the file instead. */
  lemma NamesFromRenames(input: string, i: nat, j: nat, name: string)
    requires i < |Parsed(input)|
    ensures IsLast(LinesOf(input, i), j, "rename to ") && LinesOf(input, i)[j] == "rename to " + name ==>
              Parsed(input)[i].path == name
    ensures IsLast(LinesOf(input, i), j, "rename from ") && LinesOf(input, i)[j] == "rename from " + name ==>
              Parsed(input)[i].previousPath == name
  {
    hide Parsed, LinesOf, Split, HasPrefix, Summary, FromHeader, IsGroup, IsLast;
    FileOfLines(input, i);
    LinesNotEmpty(input, i);
    SummaryNames(LinesOf(input, i), j);
    assert ("rename to " + name)[|"rename to "|..] == name;
    assert ("rename from " + name)[|"rename from "|..] == name;
  }

  /** The last marker line says whether the file was added, removed or renamed; without one it was modified. */
  lemma StatusFromMarkers(input: string, i: nat, j: nat)
    requires i < |Parsed(input)|
    ensures var lines, status := LinesOf(input, i), Parsed(input)[i].status;
            && ((forall k | 1 <= k < |lines| :: !IsMarker(lines[k])) ==> status == Modified)
            && (1 <= j < |lines| && IsMarker(lines[j]) && (forall k | j < k < |lines| :: !IsMarker(lines[k])) ==>
                  && (status == Added <==> HasPrefix(lines[j], "new file mode"))
                  && (status == Removed <==> HasPrefix(lines[j], "deleted file mode"))
                  && (status == Renamed <==> HasPrefix(lines[j], "rename from ") || HasPrefix(lines[j], "rename to ")))
  {
    hide Parsed, LinesOf, Split, HasPrefix, Summary, IsGroup;
    FileOfLines(input, i);
    LinesNotEmpty(input, i);
    SummaryStatus(LinesOf(input, i), j);
    if j < |LinesOf(input, i)| {
      MarkersExclude(LinesOf(input, i)[j]);
    }
  }

  /** A diff of one file without marker lines parses to that file, modified under its two names. */
  lemma OneModifiedFile(p: string, q: string, body: seq<string>)
    requires ' ' !in p && ' ' !in q && '\n' !in p && '\n' !in q
    requires forall l | l in body :: '\n' !in l && !StartsFile(l) && !IsMarker(l)
    ensures var files := Parsed(Join(["diff --git a/" + p + " b/" + q] + body, '\n'));
            && |files| == 1
            && files[0].path == q && files[0].previousPath == p && files[0].status == Modified
            && files[0].patch == Join(["diff --git a/" + p + " b/" + q] + body, '\n')
  {
    hide Join, Split, Groups, Summary, FromHeader, HasPrefix;
    var group := ["diff --git a/" + p + " b/" + q] + body;
    assert forall l | l in group :: '\n' !in l;
    HeaderIsFirst(p, q, body);
    SplitJoin(group, '\n');
    GroupIsItsOwnGroups(group);
    FilesAt([group]);
    HeaderNames(p, q);
    SummaryNames(group, 0);
    SummaryStatus(group, 0);
    MarkersCover(group);
  }

  lemma HeaderIsFirst(p: string, q: string, body: seq<string>)
    requires forall l | l in body :: !StartsFile(l)
    ensures IsGroup(["diff --git a/" + p + " b/" + q] + body)
  {
    var group := ["diff --git a/" + p + " b/" + q] + body;
    assert forall i | 1 <= i < |group| :: group[i] == body[i - 1] && body[i - 1] in body;
  }

  lemma MarkersCover(group: seq<string>)
    requires forall k | 1 <= k < |group| :: !IsMarker(group[k])
    ensures HasNone(group, "rename to ") && HasNone(group, "rename from ")
  {
    hide HasPrefix;
  }

  // ---- Counts -----------------------------------------------------------------------------------------

  /** The line starts with the sign, but not with three of it. */
  predicate Signed(line: string, sign: char) {
    line != "" && line[0] == sign && (|line| < 3 || line[1] != sign || line[2] != sign)
  }

  function SignedWith(sign: char): string -> bool {
    (line: string) => Signed(line, sign)
  }

  /** Additions and deletions of a file are its lines that start with one sign but not with three. */
  lemma CountsOfFile(input: string, i: nat)
    requires i < |Parsed(input)|
    ensures Parsed(input)[i].additions == Count(LinesOf(input, i), SignedWith('+'))
    ensures Parsed(input)[i].deletions == Count(LinesOf(input, i), SignedWith('-'))
  {
    hide Parsed, LinesOf, Split, Summary, Count, IsGroup, IsAddition, IsDeletion;
    FileOfLines(input, i);
    LinesNotEmpty(input, i);
    SummaryCounts(LinesOf(input, i));
    SameCounts(LinesOf(input, i));
  }

  lemma {:induction false} SameCounts(lines: seq<string>)
    ensures Count(lines, IsAddition) == Count(lines, SignedWith('+'))
    ensures Count(lines, IsDeletion) == Count(lines, SignedWith('-'))
  {
    hide IsAddition, IsDeletion, Signed;
    if lines != [] {
      SameCounts(lines[..|lines| - 1]);
      SignsAgree(lines[|lines| - 1]);
    }
  }

  lemma SignsAgree(line: string)
    ensures IsAddition(line) <==> Signed(line, '+')
    ensures IsDeletion(line) <==> Signed(line, '-')
  {
    assert HasPrefix(line, "+") <==> line != "" && line[0] == '+';
    assert HasPrefix(line, "-") <==> line != "" && line[0] == '-';
    assert HasPrefix(line, "+++") <==> |line| >= 3 && line[0] == '+' && line[1] == '+' && line[2] == '+';
    assert HasPrefix(line, "---") <==> |line| >= 3 && line[0] == '-' && line[1] == '-' && line[2] == '-';
  }
}
