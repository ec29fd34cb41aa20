/** The managed block Kari keeps inside a workspace's .gitignore (internal/syncd/gitignore.go). */
module Gitignore {
  /** The lines that delimit the managed block. */
  datatype Markers = Markers(begin: string, end: string)

  const KARI_MARKERS := Markers("# >>> kari managed (do not edit) >>>", "# <<< kari managed <<<")
  const MANAGED_PATTERNS: seq<string> := ["/.kari/", "/.kari-engine/"]

  predicate Line(m: string) {
    m != "" && '\n' !in m
  }

  /** Two lines, of which neither can begin inside the other. */
  predicate Proper(k: Markers) {
    && Line(k.begin) && Line(k.end)
    && (exists c :: c in k.end && c !in k.begin)
    && (forall j :: 0 < j < |k.begin| ==> k.begin[j] != k.end[0])
  }

  lemma KariMarkersAreProper()
    ensures Proper(KARI_MARKERS)
  {
    var rest := " >>> kari managed (do not edit) >>>";
    BeginIsHashThen(rest);
    LacksHash(rest);
    LacksNewline(rest);
    LacksAngle(rest);
    ProperByFirstChar(KARI_MARKERS, '#', rest, '<');
  }

  lemma BeginIsHashThen(rest: string)
    requires rest == " >>> kari managed (do not edit) >>>"
    ensures KARI_MARKERS.begin == ['#'] + rest
  {
  }

  lemma LacksHash(rest: string)
    requires rest == " >>> kari managed (do not edit) >>>"
    ensures '#' !in rest
  {
  }

  lemma LacksNewline(rest: string)
    requires rest == " >>> kari managed (do not edit) >>>"
    ensures '\n' !in rest
  {
  }

  lemma LacksAngle(rest: string)
    requires rest == " >>> kari managed (do not edit) >>>"
    ensures '<' !in rest
  {
  }

  lemma ProperByFirstChar(k: Markers, first: char, rest: string, other: char)
    requires k.begin == [first] + rest && k.end != "" && k.end[0] == first && Line(k.end)
    requires first !in rest && first != '\n' && '\n' !in rest && other in k.end && other !in rest && other != first
    ensures Proper(k)
  {
    forall j | 0 < j < |k.begin| ensures k.begin[j] != first {
      assert k.begin[j] == rest[j - 1];
    }
  }

  // ---- searching and trimming -------------------------------------------------------------

  /** From its character `j` on, `m` is what `s` says at `i + j`. */
  predicate Agrees(s: string, m: string, i: nat, j: nat)
    requires j <= |m| && i + |m| <= |s|
    decreases |m| - j
  {
    j == |m| || (s[i + j] == m[j] && Agrees(s, m, i, j + 1))
  }

  predicate OccursAt(s: string, m: string, i: int) {
    0 <= i <= |s| - |m| && Agrees(s, m, i, 0)
  }

  lemma {:induction false} AgreesIsSlice(s: string, m: string, i: nat, j: nat)
    requires j <= |m| && i + |m| <= |s|
    ensures Agrees(s, m, i, j) <==> s[i + j..i + |m|] == m[j..]
    decreases |m| - j
  {
    if j < |m| {
      AgreesIsSlice(s, m, i, j + 1);
      assert m[j..] == [m[j]] + m[j + 1..];
      assert s[i + j..i + |m|] == [s[i + j]] + s[i + j + 1..i + |m|];
    }
  }

  lemma OccursIsSlice(s: string, m: string, i: int)
    ensures OccursAt(s, m, i) <==> 0 <= i <= |s| - |m| && s[i..i + |m|] == m
  {
    if 0 <= i <= |s| - |m| {
      AgreesIsSlice(s, m, i, 0);
      assert m[0..] == m;
    }
  }

  lemma SliceOfSlice(s: string, from: nat, to: nat, a: nat, b: nat)
    requires from <= to <= |s| && a <= b && from + b <= to
    ensures s[from..to][a..b] == s[from + a..from + b]
  {
    var l, r := s[from..to][a..b], s[from + a..from + b];
    forall j | 0 <= j < b - a ensures l[j] == r[j] {
    }
  }

  /** Where `m` occurs in a part of `s` is where it occurs in `s`. */
  lemma OccursInPart(s: string, m: string, i: int, from: nat, to: nat)
    requires from <= to <= |s|
    ensures OccursAt(s[from..to], m, i) <==> 0 <= i && from + i + |m| <= to && OccursAt(s, m, from + i)
  {
    OccursIsSlice(s[from..to], m, i);
    OccursIsSlice(s, m, from + i);
    if 0 <= i && from + i + |m| <= to {
      SliceOfSlice(s, from, to, i, i + |m|);
    }
  }

  /** The least position at or after `start` where `m` occurs, or -1. */
  function IndexFrom(s: string, m: string, start: nat): (r: int)
    ensures r == -1 || start <= r <= |s| - |m|
    decreases |s| - start
  {
    if start + |m| > |s| then -1
    else if OccursAt(s, m, start) then start
    else if start == |s| then -1
    else IndexFrom(s, m, start + 1)
  }

  lemma {:induction false} IndexFromIsFirst(s: string, m: string, start: nat)
    ensures var r := IndexFrom(s, m, start);
            && (r >= 0 ==> OccursAt(s, m, r) && forall i :: start <= i < r ==> !OccursAt(s, m, i))
            && (r < 0 ==> forall i :: start <= i ==> !OccursAt(s, m, i))
    decreases |s| - start
  {
    if start + |m| <= |s| && !OccursAt(s, m, start) && start < |s| {
      IndexFromIsFirst(s, m, start + 1);
    }
  }

  function Index(s: string, m: string): (r: int)
    ensures r == -1 || 0 <= r <= |s| - |m|
  {
    IndexFrom(s, m, 0)
  }

  predicate FirstAt(s: string, m: string, r: int) {
    OccursAt(s, m, r) && forall i :: 0 <= i < r ==> !OccursAt(s, m, i)
  }

  ghost predicate Nowhere(s: string, m: string) {
    forall i :: 0 <= i ==> !OccursAt(s, m, i)
  }

  lemma IndexIsFirst(s: string, m: string)
    ensures if Index(s, m) >= 0 then FirstAt(s, m, Index(s, m)) else Nowhere(s, m)
  {
    IndexFromIsFirst(s, m, 0);
  }

  lemma FirstIsIndex(s: string, m: string, r: int)
    requires FirstAt(s, m, r) || (r == -1 && Nowhere(s, m))
    ensures Index(s, m) == r
  {
    IndexIsFirst(s, m);
  }

  predicate Blank(s: string) {
    forall i :: 0 <= i < |s| ==> s[i] == '\n'
  }

  /** How much of `s[..n]` is left once the newlines at its end are gone. */
  function RightEnd(s: string, n: nat): (r: nat)
    requires n <= |s|
    ensures r <= n
  {
    if n > 0 && s[n - 1] == '\n' then RightEnd(s, n - 1) else n
  }

  function TrimRight(s: string): (r: string)
    ensures |r| <= |s|
  {
    s[..RightEnd(s, |s|)]
  }

  lemma {:induction false} RightEndTrims(s: string, n: nat)
    requires n <= |s|
    ensures var r := RightEnd(s, n); (forall i :: r <= i < n ==> s[i] == '\n') && (r > 0 ==> s[r - 1] != '\n')
  {
    if n > 0 && s[n - 1] == '\n' {
      RightEndTrims(s, n - 1);
    }
  }

  lemma TrimRightTrims(s: string)
    ensures var r := TrimRight(s); r <= s && Blank(s[|r|..]) && (r != "" ==> r[|r| - 1] != '\n')
  {
    RightEndTrims(s, |s|);
  }

  /** Where `s[n..]` starts once the newlines at its start are gone. */
  function LeftStart(s: string, n: nat): (r: nat)
    requires n <= |s|
    ensures n <= r <= |s|
    decreases |s| - n
  {
    if n < |s| && s[n] == '\n' then LeftStart(s, n + 1) else n
  }

  function TrimLeft(s: string): (r: string)
    ensures |r| <= |s|
  {
    s[LeftStart(s, 0)..]
  }

  lemma {:induction false} LeftStartTrims(s: string, n: nat)
    requires n <= |s|
    ensures var r := LeftStart(s, n); (forall i :: n <= i < r ==> s[i] == '\n') && (r < |s| ==> s[r] != '\n')
    decreases |s| - n
  {
    if n < |s| && s[n] == '\n' {
      LeftStartTrims(s, n + 1);
    }
  }

  lemma TrimLeftTrims(s: string)
    ensures var r := TrimLeft(s); r == s[|s| - |r|..] && Blank(s[..|s| - |r|]) && (r != "" ==> r[0] != '\n')
  {
    LeftStartTrims(s, 0);
  }

  // ---- the merge --------------------------------------------------------------------------

  function Body(patterns: seq<string>): string {
    if patterns == [] then "" else patterns[0] + "\n" + Body(patterns[1..])
  }

  function BuildKariBlock(k: Markers, patterns: seq<string>): string {
    k.begin + "\n" + Body(patterns) + k.end
  }

  function Joined(parts: seq<string>): string {
    if parts == [] then "" else if |parts| == 1 then parts[0] else parts[0] + "\n\n" + Joined(parts[1..])
  }

  function JoinSections(prefix: string, block: string, suffix: string): string {
    Joined((if prefix != "" then [TrimRight(prefix)] else [])
           + [TrimRight(block)]
           + (if suffix != "" then [TrimRight(suffix)] else [])) + "\n"
  }

  function Append(prior: string, block: string): string {
    if prior == "" then block + "\n" else prior + "\n\n" + block + "\n"
  }

  function Splice(existing: string, b: nat, e: nat, block: string): string
    requires b <= e <= |existing|
  {
    JoinSections(TrimRight(existing[..b]), block, TrimLeft(existing[e..]))
  }

  /** Puts `block` where the file has one, or else at the end. */
  function MergeBlock(k: Markers, existing: string, block: string): string {
    var beginIdx := Index(existing, k.begin);
    var endIdx := Index(existing, k.end);
    if beginIdx >= 0 && endIdx >= 0 && endIdx > beginIdx then
      Splice(existing, beginIdx, endIdx + |k.end|, block)
    else Append(TrimRight(existing), block)
  }

  function MergeKariBlock(k: Markers, existing: string, patterns: seq<string>): string {
    MergeBlock(k, existing, BuildKariBlock(k, patterns))
  }

  // ---- what a file says -------------------------------------------------------------------

  /** Both markers are there and the first begin comes before the first end. */
  predicate HasBlock(k: Markers, x: string) {
    0 <= Index(x, k.begin) < Index(x, k.end)
  }

  /** A file Kari never touched, or one whose first markers enclose a block. */
  predicate Tidy(k: Markers, x: string) {
    HasBlock(k, x) || (Index(x, k.begin) < 0 && Index(x, k.end) < 0)
  }

  /** The user's text around the block, without the newlines next to the block and at the end. */
  datatype Sections = Sections(before: string, after: string)

  function Cut(x: string, b: nat, e: nat): Sections
    requires b <= e <= |x|
  {
    Sections(TrimRight(x[..b]), TrimRight(TrimLeft(x[e..])))
  }

  function UserText(k: Markers, x: string): Sections {
    if HasBlock(k, x) then Cut(x, Index(x, k.begin), Index(x, k.end) + |k.end|) else Sections(TrimRight(x), "")
  }

  function Lead(before: string): string {
    if before != "" then before + "\n\n" else ""
  }

  function Trail(after: string): string {
    if after != "" then "\n\n" + after + "\n" else "\n"
  }

  function Render(u: Sections, block: string): string {
    Lead(u.before) + (block + Trail(u.after))
  }

  /** Only an end marker inside a pattern could cut the block short. */
  predicate CleanPatterns(k: Markers, patterns: seq<string>) {
    forall p :: p in patterns ==> Index(p, k.end) < 0
  }

  lemma ManagedPatternsAreClean()
    ensures CleanPatterns(KARI_MARKERS, MANAGED_PATTERNS)
  {
  }

  // ---- markers do not straddle a newline --------------------------------------------------

  lemma CharOf(s: string, m: string, i: nat, k: nat)
    requires OccursAt(s, m, i) && k < |m|
    ensures s[i + k] == m[k] && m[k] in s
  {
    OccursIsSlice(s, m, i);
    assert s[i..i + |m|][k] == s[i + k];
  }

  lemma NewlineOutside(s: string, m: string, i: nat, n: nat)
    requires Line(m) && OccursAt(s, m, i) && n < |s| && s[n] == '\n'
    ensures n < i || i + |m| <= n
  {
    if i <= n < i + |m| {
      CharOf(s, m, i, n - i);
    }
  }

  lemma OccursAcrossNewline(a: string, b: string, m: string, i: nat)
    requires Line(m)
    ensures OccursAt(a + "\n" + b, m, i) <==> OccursAt(a, m, i) || (i > |a| && OccursAt(b, m, i - |a| - 1))
  {
    var s := a + "\n" + b;
    assert s[0..|a|] == a && s[|a| + 1..|s|] == b;
    OccursInPart(s, m, i, 0, |a|);
    OccursInPart(s, m, i - |a| - 1, |a| + 1, |s|);
    if OccursAt(s, m, i) {
      NewlineOutside(s, m, i, |a|);
    }
  }

  /** Searching text with a newline in it is searching the part before it, then the part after. */
  lemma IndexAcrossNewline(a: string, b: string, m: string)
    requires Line(m)
    ensures Index(a + "\n" + b, m) ==
            if Index(a, m) >= 0 then Index(a, m) else if Index(b, m) >= 0 then |a| + 1 + Index(b, m) else -1
  {
    var s := a + "\n" + b;
    forall i: nat ensures OccursAt(s, m, i) <==> OccursAt(a, m, i) || (i > |a| && OccursAt(b, m, i - |a| - 1)) {
      OccursAcrossNewline(a, b, m, i);
    }
    IndexIsFirst(a, m);
    IndexIsFirst(b, m);
    if Index(a, m) >= 0 {
      FirstIsIndex(s, m, Index(a, m));
    } else if Index(b, m) >= 0 {
      FirstIsIndex(s, m, |a| + 1 + Index(b, m));
    } else {
      FirstIsIndex(s, m, -1);
    }
  }

  lemma EmptyHasNone(m: string)
    requires Line(m)
    ensures Index("", m) == -1
  {
  }

  /** Trimming newlines moves no marker. */
  lemma TrimRightKeepsIndex(s: string, m: string)
    requires Line(m)
    ensures Index(TrimRight(s), m) == Index(s, m)
  {
    RightEndTrims(s, |s|);
    var n := |TrimRight(s)|;
    assert TrimRight(s) == s[0..n];
    IndexIsFirst(s, m);
    forall i: int ensures OccursAt(TrimRight(s), m, i) <==> OccursAt(s, m, i) {
      OccursInPart(s, m, i, 0, n);
      if OccursAt(s, m, i) {
        EndsBeforeNewlines(s, m, i, n);
      }
    }
    FirstIsIndex(TrimRight(s), m, Index(s, m));
  }

  lemma EndsBeforeNewlines(s: string, m: string, i: nat, n: nat)
    requires Line(m) && OccursAt(s, m, i) && n <= |s| && forall j :: n <= j < |s| ==> s[j] == '\n'
    ensures i + |m| <= n
  {
    if i + |m| > n {
      NewlineOutside(s, m, i, i + |m| - 1);
    }
  }

  lemma PrefixHasNone(s: string, n: nat, m: string)
    requires Line(m) && n <= |s| && (Index(s, m) < 0 || n <= Index(s, m))
    ensures Index(s[..n], m) < 0
  {
    IndexIsFirst(s, m);
    assert s[..n] == s[0..n];
    forall i: int ensures !OccursAt(s[..n], m, i) {
      OccursInPart(s, m, i, 0, n);
    }
    FirstIsIndex(s[..n], m, -1);
  }

  // ---- where the markers of a rendered file are -------------------------------------------

  lemma {:induction false} BodyHasNoEnd(k: Markers, patterns: seq<string>)
    requires Proper(k) && CleanPatterns(k, patterns)
    ensures Index(Body(patterns), k.end) < 0
  {
    if patterns == [] {
      EmptyHasNone(k.end);
    } else {
      BodyHasNoEnd(k, patterns[1..]);
      IndexAcrossNewline(patterns[0], Body(patterns[1..]), k.end);
    }
  }

  lemma {:induction false} BodyThen(k: Markers, patterns: seq<string>, rest: string)
    requires Proper(k) && CleanPatterns(k, patterns)
    ensures Index(Body(patterns) + rest, k.end) ==
      if Index(rest, k.end) < 0 then -1 else |Body(patterns)| + Index(rest, k.end)
  {
    if patterns == [] {
      assert Body(patterns) + rest == rest;
    } else {
      BodyThen(k, patterns[1..], rest);
      IndexAcrossNewline(patterns[0], Body(patterns[1..]) + rest, k.end);
      assert Body(patterns) + rest == patterns[0] + "\n" + (Body(patterns[1..]) + rest);
    }
  }

  lemma BeginHoldsNoEnd(k: Markers)
    requires Proper(k)
    ensures Index(k.begin, k.end) < 0
  {
    IndexIsFirst(k.begin, k.end);
    var i := Index(k.begin, k.end);
    if i >= 0 {
      var n :| 0 <= n < |k.end| && k.end[n] !in k.begin;
      CharOf(k.begin, k.end, i, n);
    }
  }

  lemma StartsWith(m: string, rest: string)
    ensures Index(m + rest, m) == 0
  {
    OccursIsSlice(m + rest, m, 0);
    assert (m + rest)[0..|m|] == m;
    FirstIsIndex(m + rest, m, 0);
  }

  /** The block shows its begin marker first thing and its end marker last thing. */
  lemma BlockMarkers(k: Markers, patterns: seq<string>, rest: string)
    requires Proper(k) && CleanPatterns(k, patterns)
    ensures var s := BuildKariBlock(k, patterns) + rest;
            Index(s, k.begin) == 0 && Index(s, k.end) == |BuildKariBlock(k, patterns)| - |k.end|
  {
    var s := BuildKariBlock(k, patterns) + rest;
    assert s == k.begin + "\n" + (Body(patterns) + (k.end + rest));
    StartsWith(k.begin, "\n" + (Body(patterns) + (k.end + rest)));
    assert s == k.begin + ("\n" + (Body(patterns) + (k.end + rest)));
    StartsWith(k.end, rest);
    BodyThen(k, patterns, k.end + rest);
    BeginHoldsNoEnd(k);
    IndexAcrossNewline(k.begin, Body(patterns) + (k.end + rest), k.end);
  }

  /** In text followed by a block, the first marker is the text's own if it has one. */
  lemma MarkersAfter(k: Markers, before: string, patterns: seq<string>, rest: string)
    requires Proper(k) && CleanPatterns(k, patterns)
    ensures var s := before + "\n\n" + (BuildKariBlock(k, patterns) + rest);
            && Index(s, k.begin) == (if Index(before, k.begin) >= 0 then Index(before, k.begin) else |before| + 2)
            && Index(s, k.end) == if Index(before, k.end) >= 0 then Index(before, k.end)
                                      else |before| + 2 + |BuildKariBlock(k, patterns)| - |k.end|
  {
    var tail := BuildKariBlock(k, patterns) + rest;
    BlockMarkers(k, patterns, rest);
    forall m | m in {k.begin, k.end}
      ensures Index(before + "\n\n" + tail, m) ==
        if Index(before, m) >= 0 then Index(before, m) else |before| + 2 + Index(tail, m)
    {
      IndexAcrossNewline("", tail, m);
      EmptyHasNone(m);
      IndexAcrossNewline(before, "" + "\n" + tail, m);
      assert before + "\n\n" + tail == before + "\n" + ("" + "\n" + tail);
    }
  }

  // ---- rendering --------------------------------------------------------------------------

  predicate Trimmed(u: Sections) {
    && (u.before != "" ==> u.before[|u.before| - 1] != '\n')
    && (u.after != "" ==> u.after[0] != '\n' && u.after[|u.after| - 1] != '\n')
  }

  lemma TrimRightOfTrimmed(s: string, n: string)
    requires (s != "" ==> s[|s| - 1] != '\n') && Blank(n)
    ensures TrimRight(s + n) == s
  {
    var t := s + n;
    RightEndTrims(t, |t|);
    assert s != "" ==> t[|s| - 1] == s[|s| - 1];
    assert forall i :: |s| <= i < |t| ==> t[i] == n[i - |s|];
    assert RightEnd(t, |t|) == |s|;
    assert t[..|s|] == s;
  }

  lemma TrimLeftOfTrimmed(n: string, s: string)
    requires (s != "" ==> s[0] != '\n') && Blank(n)
    ensures TrimLeft(n + s) == s
  {
    var t := n + s;
    LeftStartTrims(t, 0);
    assert s != "" ==> t[|n|] == s[0];
    assert forall i :: 0 <= i < |n| ==> t[i] == n[i];
    assert LeftStart(t, 0) == |n|;
    assert t[|n|..] == s;
  }

  lemma CutIsTrimmed(x: string, b: nat, e: nat)
    requires b <= e <= |x|
    ensures Trimmed(Cut(x, b, e))
  {
    TrimRightTrims(x[..b]);
    var suffix := TrimLeft(x[e..]);
    TrimLeftTrims(x[e..]);
    TrimRightTrims(suffix);
    assert TrimRight(suffix) <= suffix;
  }

  lemma UserTextIsTrimmed(k: Markers, x: string)
    ensures Trimmed(UserText(k, x))
  {
    if HasBlock(k, x) {
      CutIsTrimmed(x, Index(x, k.begin), Index(x, k.end) + |k.end|);
    } else {
      TrimRightTrims(x);
    }
  }

  lemma BlockEndsInMarker(k: Markers, patterns: seq<string>)
    requires Proper(k)
    ensures TrimRight(BuildKariBlock(k, patterns)) == BuildKariBlock(k, patterns)
  {
    TrimmedAfter(k.begin + "\n" + Body(patterns), k.end);
    assert BuildKariBlock(k, patterns) == k.begin + "\n" + Body(patterns) + k.end;
  }

  lemma TrimmedAfter(a: string, m: string)
    requires Line(m)
    ensures TrimRight(a + m) == a + m
  {
    var s := a + m;
    assert s[|s| - 1] == m[|m| - 1];
    assert m[|m| - 1] in m;
    assert s[..|s|] == s;
  }

  lemma TrimRightEmptyIff(s: string)
    requires s != "" && s[0] != '\n'
    ensures TrimRight(s) != ""
  {
    RightEndTrims(s, |s|);
  }

  lemma JoinedIsRender(prefix: string, block: string, suffix: string)
    requires TrimRight(prefix) == prefix && TrimRight(block) == block && (suffix != "" ==> suffix[0] != '\n')
    ensures JoinSections(prefix, block, suffix) == Render(Sections(prefix, TrimRight(suffix)), block)
  {
    var after := TrimRight(suffix);
    var end := if suffix != "" then [after] else [];
    var tail := [block] + end;
    JoinedTail(block, suffix);
    if prefix != "" {
      JoinedTwo(prefix, tail);
      assert [prefix] + [block] + end == [prefix] + tail;
      Assoc(prefix, "\n\n", Joined(tail), "\n");
    } else {
      assert [] + [block] + end == tail;
    }
  }

  lemma JoinedTail(block: string, suffix: string)
    requires suffix != "" ==> suffix[0] != '\n'
    ensures Joined([block] + if suffix != "" then [TrimRight(suffix)] else []) + "\n" ==
      block + Trail(TrimRight(suffix))
  {
    if suffix != "" {
      var after := TrimRight(suffix);
      TrimRightEmptyIff(suffix);
      JoinedTwo(block, [after]);
      Assoc(block, "\n\n", after, "\n");
      assert block + ("\n\n" + after + "\n") == block + "\n\n" + (after + "\n");
    } else {
      assert [block] + [] == [block];
    }
  }

  lemma Reassoc(a: string, b: string, c: string)
    ensures a + (b + c) == a + b + c
  {
  }

  lemma Assoc(a: string, b: string, c: string, d: string)
    ensures a + b + c + d == a + b + (c + d)
  {
  }

  lemma JoinedTwo(first: string, rest: seq<string>)
    requires rest != []
    ensures Joined([first] + rest) == first + "\n\n" + Joined(rest)
  {
    assert ([first] + rest)[1..] == rest;
  }

  /** A merge keeps of a file its user text and nothing else. */
  lemma MergeRendersUserText(k: Markers, x: string, patterns: seq<string>)
    requires Proper(k)
    ensures MergeKariBlock(k, x, patterns) == Render(UserText(k, x), BuildKariBlock(k, patterns))
  {
    BlockEndsInMarker(k, patterns);
    MergeBlockRenders(k, x, BuildKariBlock(k, patterns));
  }

  lemma MergeBlockRenders(k: Markers, x: string, block: string)
    requires TrimRight(block) == block
    ensures MergeBlock(k, x, block) == Render(UserText(k, x), block)
  {
    if HasBlock(k, x) {
      var b, e := Index(x, k.begin), Index(x, k.end) + |k.end|;
      SpliceIsRender(x, b, e, block);
      MergeSplices(k, x, b, e, block);
    } else {
      AppendIsRender(TrimRight(x), block);
      MergeAppends(k, x, block);
    }
  }

  lemma MergeSplices(k: Markers, x: string, b: nat, e: nat, block: string)
    requires BlockAt(k, x, b, e)
    ensures b <= e <= |x| && MergeBlock(k, x, block) == Splice(x, b, e, block) && UserText(k, x) == Cut(x, b, e)
  {
  }

  lemma MergeAppends(k: Markers, x: string, block: string)
    requires !HasBlock(k, x)
    ensures MergeBlock(k, x, block) == Append(TrimRight(x), block) && UserText(k, x) == Sections(TrimRight(x), "")
  {
  }

  lemma SpliceIsRender(x: string, b: nat, e: nat, block: string)
    requires b <= e <= |x| && TrimRight(block) == block
    ensures Splice(x, b, e, block) == Render(Cut(x, b, e), block)
  {
    TrimRightTwice(x[..b]);
    TrimLeftTrims(x[e..]);
    JoinedIsRender(TrimRight(x[..b]), block, TrimLeft(x[e..]));
  }

  lemma TrimRightTwice(s: string)
    ensures TrimRight(TrimRight(s)) == TrimRight(s)
  {
    TrimRightTrims(s);
    TrimRightOfTrimmed(TrimRight(s), "");
    assert TrimRight(s) + "" == TrimRight(s);
  }

  lemma AppendIsRender(prior: string, block: string)
    ensures Append(prior, block) == Render(Sections(prior, ""), block)
  {
    Assoc(prior, "\n\n", block, "\n");
    assert "" + (block + "\n") == block + "\n";
  }

  /** Where the block of a rendered file stands. */
  lemma RenderedMarkers(k: Markers, u: Sections, patterns: seq<string>)
    requires Proper(k) && CleanPatterns(k, patterns) && Index(u.before, k.begin) < 0 && Index(u.before, k.end) < 0
    ensures BlockAt(k, Render(u, BuildKariBlock(k, patterns)),
                    |Lead(u.before)|, |Lead(u.before)| + |BuildKariBlock(k, patterns)|)
  {
    var rest := Trail(u.after);
    if u.before != "" {
      MarkersAfter(k, u.before, patterns, rest);
    } else {
      BlockMarkers(k, patterns, rest);
      assert "" + (BuildKariBlock(k, patterns) + rest) == BuildKariBlock(k, patterns) + rest;
    }
    BlockHoldsBegin(k, patterns);
  }

  lemma BlockHoldsBegin(k: Markers, patterns: seq<string>)
    requires Proper(k)
    ensures |BuildKariBlock(k, patterns)| > |k.end|
  {
  }

  lemma CutAround(y: string, lead: string, block: string, trail: string)
    requires y == lead + (block + trail)
    ensures Cut(y, |lead|, |lead| + |block|) == Sections(TrimRight(lead), TrimRight(TrimLeft(trail)))
  {
    assert y[..|lead|] == lead;
    assert y[|lead| + |block|..] == trail;
  }

  lemma TrimmedLine(lead: string, block: string)
    requires block != "" && TrimRight(block) == block
    ensures TrimRight(lead + block + "\n") == lead + block
  {
    var s := lead + block;
    assert s[|s| - 1] == block[|block| - 1];
    TrimRightOfTrimmed(s, "\n");
  }

  lemma TrimLead(before: string)
    requires before != "" ==> before[|before| - 1] != '\n'
    ensures TrimRight(Lead(before)) == before
  {
    if before != "" {
      TrimRightOfTrimmed(before, "\n\n");
    }
  }

  lemma TrimTrail(after: string)
    requires after != "" ==> after[0] != '\n' && after[|after| - 1] != '\n'
    ensures TrimRight(TrimLeft(Trail(after))) == after
  {
    if after != "" {
      assert "\n\n" + after + "\n" == "\n\n" + (after + "\n");
      TrimLeftOfTrimmed("\n\n", after + "\n");
      TrimRightOfTrimmed(after, "\n");
    } else {
      TrimLeftOfTrimmed("\n", "");
      assert "\n" + "" == "\n";
    }
  }

  /** The sections of what was rendered are the sections it was rendered from, if the text before the
      block holds no marker. */
  lemma RenderedSections(k: Markers, u: Sections, patterns: seq<string>)
    requires Proper(k) && Trimmed(u) && CleanPatterns(k, patterns)
    requires Index(u.before, k.begin) < 0 && Index(u.before, k.end) < 0
    ensures HasBlock(k, Render(u, BuildKariBlock(k, patterns)))
    ensures UserText(k, Render(u, BuildKariBlock(k, patterns))) == u
  {
    RenderedMarkers(k, u, patterns);
    RenderedCut(u, BuildKariBlock(k, patterns));
    CutIsUserText(k, Render(u, BuildKariBlock(k, patterns)), |Lead(u.before)|,
                  |Lead(u.before)| + |BuildKariBlock(k, patterns)|, u);
  }

  lemma CutIsUserText(k: Markers, y: string, b: nat, e: nat, u: Sections)
    requires BlockAt(k, y, b, e) && b <= e <= |y| && Cut(y, b, e) == u
    ensures UserText(k, y) == u
  {
  }

  /** The block of `y` is `y[b..e]`. */
  predicate BlockAt(k: Markers, y: string, b: int, e: int) {
    HasBlock(k, y) && Index(y, k.begin) == b && Index(y, k.end) + |k.end| == e
  }

  lemma RenderedCut(u: Sections, block: string)
    requires Trimmed(u)
    ensures var n := |Lead(u.before)|; n + |block| <= |Render(u, block)| && Cut(Render(u, block), n, n + |block|) == u
  {
    CutAround(Render(u, block), Lead(u.before), block, Trail(u.after));
    TrimLead(u.before);
    TrimTrail(u.after);
  }

  lemma SectionsAround(k: Markers, y: string, b: nat, e: nat)
    requires BlockAt(k, y, b, e)
    ensures b <= e <= |y| && UserText(k, y) == Cut(y, b, e)
  {
  }

  // ---- the main results -------------------------------------------------------------------

  /** In a tidy file a merge changes nothing of the user's text, and afterwards the file has a block. */
  lemma MergeKeepsUserText(k: Markers, x: string, patterns: seq<string>)
    requires Proper(k) && Tidy(k, x) && CleanPatterns(k, patterns)
    ensures HasBlock(k, MergeKariBlock(k, x, patterns))
    ensures UserText(k, MergeKariBlock(k, x, patterns)) == UserText(k, x)
  {
    UserTextIsTrimmed(k, x);
    MergeRendersUserText(k, x, patterns);
    if HasBlock(k, x) {
      var n := Index(x, k.begin);
      PrefixHasNone(x, n, k.begin);
      PrefixHasNone(x, n, k.end);
      TrimRightKeepsIndex(x[..n], k.begin);
      TrimRightKeepsIndex(x[..n], k.end);
    } else {
      TrimRightKeepsIndex(x, k.begin);
      TrimRightKeepsIndex(x, k.end);
    }
    RenderedSections(k, UserText(k, x), patterns);
  }

  /** The user text is the file itself, but for newlines and the span of the block. */
  lemma UserTextIsTheFile(k: Markers, x: string) returns (b: nat, e: nat, q: nat)
    requires Proper(k)
    ensures if HasBlock(k, x) then b == Index(x, k.begin) && e == Index(x, k.end) + |k.end| else b == e == |x|
    ensures |UserText(k, x).before| <= b <= e <= q && q + |UserText(k, x).after| <= |x|
    ensures UserText(k, x).before == x[..|UserText(k, x).before|] && Blank(x[|UserText(k, x).before|..b])
    ensures UserText(k, x).after == x[q..q + |UserText(k, x).after|]
    ensures Blank(x[e..q]) && Blank(x[q + |UserText(k, x).after|..])
  {
    b, e := if HasBlock(k, x) then Index(x, k.begin) else |x|,
            if HasBlock(k, x) then Index(x, k.end) + |k.end| else |x|;
    if HasBlock(k, x) {
      BlockIsOneSpan(k, x);
      q := CutIsTheFile(x, b, e);
    } else {
      RightEndTrims(x, |x|);
      q := |x|;
    }
  }

  lemma CutIsTheFile(x: string, b: nat, e: nat) returns (q: nat)
    requires b <= e <= |x|
    ensures var u := Cut(x, b, e);
            && |u.before| <= b && e <= q && q + |u.after| <= |x|
            && u.before == x[..|u.before|] && Blank(x[|u.before|..b])
            && u.after == x[q..q + |u.after|] && Blank(x[e..q]) && Blank(x[q + |u.after|..])
  {
    RightEndTrims(x[..b], b);
    q := TailIsTheFile(x, e);
  }

  lemma TailIsTheFile(x: string, e: nat) returns (q: nat)
    requires e <= |x|
    ensures var after := TrimRight(TrimLeft(x[e..]));
            && e <= q && q + |after| <= |x|
            && after == x[q..q + |after|] && Blank(x[e..q]) && Blank(x[q + |after|..])
  {
    var tail := x[e..];
    LeftStartTrims(tail, 0);
    q := e + LeftStart(tail, 0);
    assert TrimLeft(tail) == x[q..];
    RightEndTrims(x[q..], |x| - q);
  }

  lemma BlockIsOneSpan(k: Markers, x: string)
    requires Proper(k) && HasBlock(k, x)
    ensures var b, e := Index(x, k.begin), Index(x, k.end) + |k.end|;
            b < e <= |x| && k.begin <= x[b..e] && OccursAt(x[b..e], k.end, e - b - |k.end|)
  {
    var b, i := Index(x, k.begin), Index(x, k.end);
    var e := i + |k.end|;
    IndexIsFirst(x, k.begin);
    IndexIsFirst(x, k.end);
    EndStartsAfterBegin(k, x, b, i);
    OccursInPart(x, k.begin, 0, b, e);
    OccursIsSlice(x[b..e], k.begin, 0);
    OccursInPart(x, k.end, i - b, b, e);
  }

  /** An end marker cannot start inside a begin marker: its first character is not there. */
  lemma EndStartsAfterBegin(k: Markers, x: string, b: nat, i: nat)
    requires Proper(k) && OccursAt(x, k.begin, b) && OccursAt(x, k.end, i) && b < i
    ensures b + |k.begin| <= i
  {
    if i < b + |k.begin| {
      CharOf(x, k.begin, b, i - b);
    }
  }

  /** A file with a lone begin marker: the second merge takes everything from that marker on for the
      block, and drops it. */
  lemma StrayBegin(k: Markers, x: string, patterns: seq<string>)
    requires Proper(k) && CleanPatterns(k, patterns) && Index(x, k.begin) >= 0 && Index(x, k.end) < 0
    ensures var y := MergeKariBlock(k, x, patterns);
            && MergeKariBlock(k, y, patterns) ==
                 Render(Sections(TrimRight(x[..Index(x, k.begin)]), ""), BuildKariBlock(k, patterns))
            && |MergeKariBlock(k, y, patterns)| < |y|
  {
    var y, before := StrayBeginText(k, x, patterns);
    MergeRendersUserText(k, y, patterns);
    AppendedLength(before, BuildKariBlock(k, patterns));
  }

  lemma StrayBeginText(k: Markers, x: string, patterns: seq<string>) returns (y: string, before: string)
    requires Proper(k) && CleanPatterns(k, patterns) && Index(x, k.begin) >= 0 && Index(x, k.end) < 0
    ensures y == MergeKariBlock(k, x, patterns) && before == TrimRight(x[..Index(x, k.begin)])
    ensures UserText(k, y) == Sections(before, "")
    ensures |y| > |before| + 2 + |BuildKariBlock(k, patterns)| + 1
  {
    var block := BuildKariBlock(k, patterns);
    var b := Index(x, k.begin);
    before := TrimRight(x[..b]);
    y := AppendedMarkers(k, x, patterns);
    var lead := Lead(TrimRight(x));
    TrimRightTrims(x);
    TrimRightKeepsIndex(x, k.begin);
    AppendedCut(x, y, lead, block, b);
    BlockHoldsBegin(k, patterns);
    SectionsAround(k, y, b, |lead| + |block|);
  }

  lemma AppendedCut(x: string, y: string, lead: string, block: string, b: nat)
    requires y == lead + (block + "\n") && TrimRight(x) != "" && lead == Lead(TrimRight(x)) && b < |TrimRight(x)|
    ensures Cut(y, b, |lead| + |block|) == Sections(TrimRight(x[..b]), "") && |y| == |TrimRight(x)| + 2 + |block| + 1
  {
    TrimRightTrims(x);
    KeptStart(x, y, b);
    CutEnd(y, lead, block, b);
  }

  lemma AppendedLength(before: string, block: string)
    ensures |Render(Sections(before, ""), block)| <= |before| + 2 + |block| + 1
  {
  }

  lemma CutEnd(y: string, lead: string, block: string, b: nat)
    requires y == lead + (block + "\n") && b <= |lead|
    ensures Cut(y, b, |lead| + |block|) == Sections(TrimRight(y[..b]), "")
  {
    assert y[|lead| + |block|..] == "\n";
    TrimTrail("");
  }

  lemma KeptStart(x: string, y: string, b: nat)
    requires b <= |TrimRight(x)| && TrimRight(x) <= y
    ensures x[..b] == y[..b]
  {
    assert TrimRight(x)[..b] == x[..b] && TrimRight(x)[..b] == y[..b];
  }

  /** Appending puts the block after whatever markers the file has. */
  lemma AppendedMarkers(k: Markers, x: string, patterns: seq<string>) returns (y: string)
    requires Proper(k) && CleanPatterns(k, patterns) && !Tidy(k, x)
    ensures y == MergeKariBlock(k, x, patterns) == Lead(TrimRight(x)) + (BuildKariBlock(k, patterns) + "\n")
    ensures TrimRight(x) != ""
    ensures Index(y, k.begin) == if Index(x, k.begin) >= 0 then Index(x, k.begin) else |TrimRight(x)| + 2
    ensures Index(y, k.end) == if Index(x, k.end) >= 0 then Index(x, k.end)
                                   else |TrimRight(x)| + 2 + |BuildKariBlock(k, patterns)| - |k.end|
  {
    y := MergeKariBlock(k, x, patterns);
    TrimRightKeepsIndex(x, k.begin);
    TrimRightKeepsIndex(x, k.end);
    EmptyHasNone(k.begin);
    EmptyHasNone(k.end);
    MergeRendersUserText(k, x, patterns);
    MarkersAfter(k, TrimRight(x), patterns, "\n");
  }

  /** A file whose first end marker has no begin marker before it: every further merge adds a block. */
  lemma StrayEnd(k: Markers, x: string, patterns: seq<string>)
    requires Proper(k) && CleanPatterns(k, patterns) && Index(x, k.end) >= 0 && !HasBlock(k, x)
    ensures var y := MergeKariBlock(k, x, patterns);
            && |MergeKariBlock(k, y, patterns)| > |y|
            && MergeKariBlock(k, y, patterns) == Lead(TrimRight(y)) + (BuildKariBlock(k, patterns) + "\n")
  {
    var y := AppendedMarkers(k, x, patterns);
    TrimRightKeepsIndex(x, k.end);
    SecondAppend(k, Lead(TrimRight(x)), y, patterns);
  }

  lemma SecondAppend(k: Markers, lead: string, y: string, patterns: seq<string>)
    requires Proper(k) && y == lead + (BuildKariBlock(k, patterns) + "\n") && !HasBlock(k, y)
    ensures MergeKariBlock(k, y, patterns) == Lead(TrimRight(y)) + (BuildKariBlock(k, patterns) + "\n")
    ensures |MergeKariBlock(k, y, patterns)| > |y|
  {
    var block := BuildKariBlock(k, patterns);
    BlockEndsInMarker(k, patterns);
    BlockHoldsBegin(k, patterns);
    Reassoc(lead, block, "\n");
    TrimmedLine(lead, block);
    MergeRendersUserText(k, y, patterns);
  }

  /** Merging twice is merging once exactly for tidy files. With a lone begin marker the second merge
      swallows the text after it; with an end marker first, every merge adds another block. */
  lemma MergeIdempotentIffTidy(k: Markers, x: string, patterns: seq<string>)
    requires Proper(k) && CleanPatterns(k, patterns)
    ensures MergeKariBlock(k, MergeKariBlock(k, x, patterns), patterns) == MergeKariBlock(k, x, patterns) <==>
      Tidy(k, x)
  {
    if Tidy(k, x) {
      MergeKeepsUserText(k, x, patterns);
      MergeRendersUserText(k, x, patterns);
      MergeRendersUserText(k, MergeKariBlock(k, x, patterns), patterns);
    } else if Index(x, k.end) < 0 {
      StrayBegin(k, x, patterns);
    } else {
      StrayEnd(k, x, patterns);
    }
  }

  /** With the markers and patterns Kari uses. */
  lemma ManagedMergeIdempotentIffTidy(x: string)
    ensures var once := MergeKariBlock(KARI_MARKERS, x, MANAGED_PATTERNS);
            MergeKariBlock(KARI_MARKERS, once, MANAGED_PATTERNS) == once <==> Tidy(KARI_MARKERS, x)
  {
    KariMarkersAreProper();
    ManagedPatternsAreClean();
    MergeIdempotentIffTidy(KARI_MARKERS, x, MANAGED_PATTERNS);
  }

  /** The smallest untidy file: a begin marker and nothing else. */
  lemma LoneBeginIsNotIdempotent(k: Markers, patterns: seq<string>)
    requires Proper(k) && CleanPatterns(k, patterns)
    ensures MergeKariBlock(k, MergeKariBlock(k, k.begin, patterns), patterns) != MergeKariBlock(k, k.begin, patterns)
  {
    StartsWith(k.begin, "");
    assert k.begin + "" == k.begin;
    BeginHoldsNoEnd(k);
    MergeIdempotentIffTidy(k, k.begin, patterns);
  }
}
