/** The few string operations the components share: trimming, prefixes, splitting at one character,
  * joining, and the ordering that sort.Strings uses. */
module Text {

  /** Unicode White_Space, the set strings.TrimSpace removes. */
  predicate IsSpace(c: char) {
    || '\t' <= c <= '\r'
    || c == ' '
    || c == '\U{85}'
    || c == '\U{A0}'
    || c == '\U{1680}'
    || '\U{2000}' <= c <= '\U{200A}'
    || c in {'\U{2028}', '\U{2029}', '\U{202F}', '\U{205F}', '\U{3000}'}
  }

  /** strings.TrimSpace(s) == "" */
  predicate Blank(s: string) {
    forall c | c in s :: IsSpace(c)
  }

  function TrimLeft(s: string): string {
    if s != "" && IsSpace(s[0]) then TrimLeft(s[1..]) else s
  }

  function TrimRight(s: string): string {
    if s != "" && IsSpace(s[|s| - 1]) then TrimRight(s[..|s| - 1]) else s
  }

  function TrimSpace(s: string): string {
    TrimRight(TrimLeft(s))
  }

  /** Trimming empties exactly the blank strings. */
  lemma {:induction false} TrimSpaceEmpties(s: string)
    ensures TrimSpace(s) == "" <==> Blank(s)
  {
    TrimLeftKeeps(s);
    TrimRightKeeps(TrimLeft(s));
  }

  /** The code points with the White_Space property. */
  lemma SpacesAreListed(c: char)
    ensures IsSpace(c) <==>
            c as int in {0x9, 0xA, 0xB, 0xC, 0xD, 0x20, 0x85, 0xA0, 0x1680, 0x2000, 0x2001, 0x2002, 0x2003,
                                         0x2004, 0x2005, 0x2006, 0x2007, 0x2008, 0x2009, 0x200A, 0x2028, 0x2029, 0x202F,
                                         0x205F, 0x3000}
  {
  }

  /** Without spaces at either end. */
  predicate Bare(s: string) {
    s != "" && !IsSpace(s[0]) && !IsSpace(s[|s| - 1])
  }

  /** Trimming finds what stands between outer spaces, */
  lemma {:induction false} TrimSpaceFinds(before: string, core: string, after: string)
    requires Blank(before) && Bare(core) && Blank(after)
    ensures TrimSpace(before + core + after) == core
  {
    hide IsSpace, Blank, TrimLeft, TrimRight;
    assert (core + after)[0] == core[0];
    TrimLeftFinds(before, core + after);
    TrimRightFinds(core, after);
    assert before + core + after == before + (core + after);
  }

  lemma {:induction false} TrimLeftFinds(before: string, rest: string)
    requires Blank(before) && rest != "" && !IsSpace(rest[0])
    ensures TrimLeft(before + rest) == rest
  {
    hide IsSpace;
    if before == "" {
      assert before + rest == rest;
    } else {
      assert before[0] in before;
      assert forall c | c in before[1..] :: c in before;
      TrimLeftFinds(before[1..], rest);
      assert (before + rest)[1..] == before[1..] + rest;
    }
  }

  lemma {:induction false} TrimRightFinds(rest: string, after: string)
    requires Blank(after) && rest != "" && !IsSpace(rest[|rest| - 1])
    ensures TrimRight(rest + after) == rest
  {
    hide IsSpace;
    if after == "" {
      assert rest + after == rest;
    } else {
      var last := |after| - 1;
      assert after[last] in after;
      assert forall c | c in after[..last] :: c in after;
      TrimRightFinds(rest, after[..last]);
      assert (rest + after)[..|rest + after| - 1] == rest + after[..last];
    }
  }

  /** and every string that is not blank has something there. */
  lemma {:induction false} BetweenSpaces(s: string) returns (before: string, core: string, after: string)
    requires !Blank(s)
    ensures s == before + core + after
    ensures Blank(before) && Bare(core) && Blank(after)
    decreases |s|
  {
    hide IsSpace;
    if IsSpace(s[0]) {
      assert s == [s[0]] + s[1..];
      before, core, after := BetweenSpaces(s[1..]);
      assert forall c | c in [s[0]] + before :: c == s[0] || c in before;
      before := [s[0]] + before;
    } else if IsSpace(s[|s| - 1]) {
      var last := |s| - 1;
      assert s == s[..last] + [s[last]];
      before, core, after := BetweenSpaces(s[..last]);
      assert forall c | c in after + [s[last]] :: c in after || c == s[last];
      after := after + [s[last]];
    } else {
      before, core, after := "", s, "";
    }
  }

  lemma {:induction false} TrimLeftKeeps(s: string)
    ensures Blank(TrimLeft(s)) <==> Blank(s)
    ensures TrimLeft(s) != "" ==> !IsSpace(TrimLeft(s)[0])
  {
    if s != "" && IsSpace(s[0]) {
      TrimLeftKeeps(s[1..]);
      assert s == [s[0]] + s[1..];
    }
  }

  lemma {:induction false} TrimRightKeeps(s: string)
    ensures TrimRight(s) == "" <==> Blank(s)
  {
    if s != "" && IsSpace(s[|s| - 1]) {
      TrimRightKeeps(s[..|s| - 1]);
      assert s == s[..|s| - 1] + [s[|s| - 1]];
    } else if s != "" {
      assert s[|s| - 1] in s;
    }
  }

  predicate HasPrefix(s: string, prefix: string) {
    prefix <= s
  }

  function TrimPrefix(s: string, prefix: string): string {
    if HasPrefix(s, prefix) then s[|prefix|..] else s
  }

  predicate Contains(s: string, part: string) {
    exists i | 0 <= i <= |s| :: HasPrefix(s[i..], part)
  }

  /** strings.Split(s, sep) for a one-character separator: always at least one piece. */
  function Split(s: string, sep: char): (pieces: seq<string>)
    ensures |pieces| >= 1
    ensures forall p | p in pieces :: sep !in p
  {
    if s == "" then [""]
    else if s[0] == sep then [""] + Split(s[1..], sep)
    else
      var rest := Split(s[1..], sep);
      [[s[0]] + rest[0]] + rest[1..]
  }

  /** strings.Join(pieces, sep) for a one-character separator. */
  function Join(pieces: seq<string>, sep: char): string {
    if |pieces| == 0 then ""
    else if |pieces| == 1 then pieces[0]
    else pieces[0] + [sep] + Join(pieces[1..], sep)
  }

  lemma {:induction false} JoinSplit(s: string, sep: char)
    ensures Join(Split(s, sep), sep) == s
  {
    if s != "" {
      JoinSplit(s[1..], sep);
      var rest := Split(s[1..], sep);
      if s[0] == sep {
        assert ([""] + rest)[1..] == rest;
      } else {
        assert ([[s[0]] + rest[0]] + rest[1..])[1..] == rest[1..];
        if |rest| > 1 {
          assert rest[0] + [sep] + Join(rest[1..], sep) == s[1..];
        }
      }
    }
  }

  lemma {:induction false} SplitPlain(s: string, sep: char)
    requires sep !in s
    ensures Split(s, sep) == [s]
  {
    if s != "" {
      SplitPlain(s[1..], sep);
      assert [s[0]] + s[1..] == s;
    }
  }

  /** Splitting at a separator inside the string splits the two sides separately. */
  lemma {:induction false} SplitAppend(a: string, b: string, sep: char)
    ensures Split(a + [sep] + b, sep) == Split(a, sep) + Split(b, sep)
  {
    var whole := a + [sep] + b;
    if a == "" {
      assert whole[1..] == b;
    } else {
      assert whole[1..] == a[1..] + [sep] + b;
      SplitAppend(a[1..], b, sep);
    }
  }

  lemma {:induction false} SplitJoin(pieces: seq<string>, sep: char)
    requires |pieces| >= 1
    requires forall p | p in pieces :: sep !in p
    ensures Split(Join(pieces, sep), sep) == pieces
  {
    if |pieces| == 1 {
      SplitPlain(pieces[0], sep);
    } else {
      SplitJoin(pieces[1..], sep);
      SplitAppend(pieces[0], Join(pieces[1..], sep), sep);
      SplitPlain(pieces[0], sep);
    }
  }

  lemma {:induction false} JoinAppend(a: seq<string>, b: seq<string>, sep: char)
    requires |a| >= 1 && |b| >= 1
    ensures Join(a + b, sep) == Join(a, sep) + [sep] + Join(b, sep)
  {
    if |a| == 1 {
      assert (a + b)[1..] == b;
    } else {
      assert (a + b)[1..] == a[1..] + b;
      JoinAppend(a[1..], b, sep);
    }
  }

  // ---- Ordering -------------------------------------------------------------------------------

  /** Go's < on strings, by code point. */
  predicate Less(a: string, b: string) {
    if b == "" then false
    else if a == "" then true
    else if a[0] != b[0] then a[0] < b[0]
    else Less(a[1..], b[1..])
  }

  /** The first character that differs decides, the smaller one first; a proper prefix comes first. */
  lemma {:induction false} FirstDifferenceDecides(a: string, b: string, n: nat)
    requires n <= |a| && n <= |b| && a[..n] == b[..n]
    ensures n == |a| && n < |b| ==> Less(a, b)
    ensures n < |a| && n < |b| && a[n] < b[n] ==> Less(a, b) && !Less(b, a)
  {
    if n > 0 {
      assert a[0] == a[..n][0] == b[0];
      assert a[1..][..n - 1] == a[..n][1..] && b[1..][..n - 1] == b[..n][1..];
      FirstDifferenceDecides(a[1..], b[1..], n - 1);
    }
  }

  /** A prefix is what can be taken off the front. */
  lemma PrefixTakenOff(prefix: string, s: string)
    ensures TrimPrefix(prefix + s, prefix) == s
    ensures !(prefix <= s) ==> TrimPrefix(s, prefix) == s
  {
    assert (prefix + s)[|prefix|..] == s;
  }

  /** A part is contained when something before and something after make up the whole. */
  lemma ContainsExactlyWhen(s: string, part: string)
    ensures Contains(s, part) <==> exists before, after :: s == before + part + after
  {
    if Contains(s, part) {
      var i :| 0 <= i <= |s| && HasPrefix(s[i..], part);
      assert s == s[..i] + part + s[i + |part|..];
    }
    if before, after :| s == before + part + after {
      assert s[|before|..] == part + after;
    }
  }

  lemma {:induction false} LessIrreflexive(a: string)
    ensures !Less(a, a)
  {
    if a != "" {
      LessIrreflexive(a[1..]);
    }
  }

  lemma {:induction false} LessTransitive(a: string, b: string, c: string)
    requires Less(a, b) && Less(b, c)
    ensures Less(a, c)
  {
    if a != "" && a[0] == b[0] == c[0] {
      LessTransitive(a[1..], b[1..], c[1..]);
    }
  }

  lemma {:induction false} LessTotal(a: string, b: string)
    ensures a == b || Less(a, b) || Less(b, a)
  {
    if a != "" && b != "" && a[0] == b[0] {
      LessTotal(a[1..], b[1..]);
      assert a == [a[0]] + a[1..] && b == [b[0]] + b[1..];
    }
  }

  ghost predicate StrictlySorted(names: seq<string>) {
    forall i, j | 0 <= i < j < |names| :: Less(names[i], names[j])
  }

  /** A set of strings has one strictly sorted listing, so collecting map keys in any order and
    * sorting them yields a result that does not depend on that order. */
  lemma {:induction false} SortedListingIsUnique(a: seq<string>, b: seq<string>)
    requires StrictlySorted(a) && StrictlySorted(b)
    requires forall x :: x in a <==> x in b
    ensures a == b
  {
    assert a != [] ==> a[0] in a;
    assert b != [] ==> b[0] in b;
    if a != [] && b != [] {
      HeadIsLeast(a, b);
      HeadIsLeast(b, a);
      assert a[0] == b[0] by {
        if Less(a[0], b[0]) && Less(b[0], a[0]) {
          LessTransitive(a[0], b[0], a[0]);
          LessIrreflexive(a[0]);
        }
      }
      assert a == [a[0]] + a[1..] && b == [b[0]] + b[1..];
      TailAvoidsHead(a);
      TailAvoidsHead(b);
      assert forall x :: x in a[1..] <==> x in a && x != a[0];
      assert forall x :: x in b[1..] <==> x in b && x != b[0];
      SortedListingIsUnique(a[1..], b[1..]);
    }
  }

  lemma HeadIsLeast(a: seq<string>, b: seq<string>)
    requires StrictlySorted(a) && a != [] && b != []
    requires b[0] in a
    ensures a[0] == b[0] || Less(a[0], b[0])
  {
  }

  lemma TailAvoidsHead(a: seq<string>)
    requires StrictlySorted(a) && a != []
    ensures a[0] !in a[1..]
  {
    LessIrreflexive(a[0]);
  }

  /** Collects a set in arbitrary order and sorts it. */
  method SortedListing(items: set<string>) returns (listing: seq<string>)
    ensures StrictlySorted(listing)
    ensures forall x :: x in listing <==> x in items
    ensures |listing| == |items|
  {
    listing := [];
    var left := items;
    while left != {}
      invariant left <= items
      invariant StrictlySorted(listing)
      invariant forall x :: x in listing <==> x in items - left
      invariant |listing| + |left| == |items|
    {
      var item :| item in left;
      left := left - {item};
      listing := InsertSorted(listing, item);
    }
  }

  method InsertSorted(listing: seq<string>, item: string) returns (longer: seq<string>)
    requires StrictlySorted(listing) && item !in listing
    ensures StrictlySorted(longer)
    ensures forall x :: x in longer <==> x in listing || x == item
    ensures |longer| == |listing| + 1
  {
    var i := 0;
    while i < |listing| && Less(listing[i], item)
      invariant 0 <= i <= |listing|
      invariant forall k | 0 <= k < i :: Less(listing[k], item)
    {
      i := i + 1;
    }
    longer := listing[..i] + [item] + listing[i..];
    forall k | i <= k < |listing|
      ensures Less(item, listing[k])
    {
      LessTotal(listing[i], item);
      if k > i {
        LessTransitive(item, listing[i], listing[k]);
      }
    }
    assert listing == listing[..i] + listing[i..];
  }
}
