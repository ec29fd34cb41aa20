/** The managed .gitignore (internal/syncd/gitignore.go) read line by line, as git reads it. */
module GitignoreLines {
  import opened Gitignore

  /** The text between newlines. */
  function Lines(s: string): (lines: seq<string>)
    ensures lines != []
  {
    if s == "" then [""]
    else
      var rest := Lines(s[1..]);
      if s[0] == '\n' then [""] + rest else [[s[0]] + rest[0]] + rest[1..]
  }

  lemma {:induction false} LinesJoin(s: string, t: string)
    ensures Lines(s + "\n" + t) == Lines(s) + Lines(t)
    decreases |s|
  {
    var all := s + "\n" + t;
    if s == "" {
      assert all[0] == '\n' && all[1..] == t;
    } else {
      assert all[0] == s[0] && all[1..] == s[1..] + "\n" + t;
      LinesJoin(s[1..], t);
      HeadGrows(s[0], Lines(s[1..]), Lines(t));
    }
  }

  lemma HeadGrows(c: char, lines: seq<string>, more: seq<string>)
    requires lines != []
    ensures [[c] + (lines + more)[0]] + (lines + more)[1..] == [[c] + lines[0]] + lines[1..] + more
    ensures [""] + (lines + more) == [""] + lines + more
  {
  }

  lemma {:induction false} OneLine(s: string)
    requires '\n' !in s
    ensures Lines(s) == [s]
  {
    if s != "" {
      OneLine(s[1..]);
      assert s == [s[0]] + s[1..];
    }
  }

  predicate OneLiners(patterns: seq<string>) {
    forall p :: p in patterns ==> '\n' !in p
  }

  lemma {:induction false} BodyLines(patterns: seq<string>, rest: string)
    requires OneLiners(patterns)
    ensures Lines(Body(patterns) + rest) == patterns + Lines(rest)
  {
    if patterns == [] {
      assert Body(patterns) + rest == rest;
    } else {
      var p := patterns[0];
      OneMoreLine(p, Body(patterns[1..]), rest);
      BodyLines(patterns[1..], rest);
      assert patterns == [p] + patterns[1..];
      Reassociate([p], patterns[1..], Lines(rest));
    }
  }

  lemma OneMoreLine(p: string, more: string, rest: string)
    requires '\n' !in p
    ensures Lines(p + "\n" + more + rest) == [p] + Lines(more + rest)
  {
    assert p + "\n" + more + rest == p + "\n" + (more + rest);
    LinesJoin(p, more + rest);
    OneLine(p);
  }

  lemma Reassociate(a: seq<string>, b: seq<string>, c: seq<string>)
    ensures a + (b + c) == a + b + c
  {
  }

  /** The block reads as its begin line, every pattern on a line of its own, and its end line. */
  lemma BlockLines(k: Markers, patterns: seq<string>)
    requires Proper(k) && OneLiners(patterns)
    ensures Lines(BuildKariBlock(k, patterns)) == [k.begin] + patterns + [k.end]
  {
    assert BuildKariBlock(k, patterns) == k.begin + "\n" + (Body(patterns) + k.end);
    LinesJoin(k.begin, Body(patterns) + k.end);
    OneLine(k.begin);
    OneLine(k.end);
    BodyLines(patterns, k.end);
  }

  /** Whatever the file was, the merged one has the block's lines in it, one after another, behind the lines
      of the user's text before it and in front of those of the text after it. */
  lemma MergedLines(k: Markers, x: string, patterns: seq<string>)
    requires Proper(k) && OneLiners(patterns)
    ensures var u := UserText(k, x);
            Lines(MergeKariBlock(k, x, patterns)) ==
            (if u.before != "" then Lines(u.before) + [""] else [])
            + ([k.begin] + patterns + [k.end])
            + (if u.after != "" then [""] + Lines(u.after) + [""] else [""])
  {
    var u, block := UserText(k, x), BuildKariBlock(k, patterns);
    MergeRendersUserText(k, x, patterns);
    BlockLines(k, patterns);
    TrailLines(block, u.after);
    LeadLines(u.before, block + Trail(u.after));
  }

  lemma TrailLines(block: string, after: string)
    ensures Lines(block + Trail(after)) == Lines(block) + if after != "" then [""] + Lines(after) + [""] else [""]
  {
    if after == "" {
      assert block + "\n" == block + "\n" + "";
      LinesJoin(block, "");
    } else {
      assert block + Trail(after) == block + "\n" + ("" + "\n" + (after + "\n" + ""));
      LinesJoin(block, "" + "\n" + (after + "\n" + ""));
      LinesJoin("", after + "\n" + "");
      LinesJoin(after, "");
    }
  }

  lemma LeadLines(before: string, rest: string)
    ensures Lines(Lead(before) + rest) == (if before != "" then Lines(before) + [""] else []) + Lines(rest)
  {
    if before == "" {
      assert Lead(before) + rest == rest;
    } else {
      assert Lead(before) + rest == before + "\n" + ("" + "\n" + rest);
      LinesJoin(before, "" + "\n" + rest);
      LinesJoin("", rest);
    }
  }

  /** Kari's own: both engine directories are on lines of their own in every managed file. */
  lemma ManagedLinesAreThere(x: string)
    ensures var lines := Lines(MergeKariBlock(KARI_MARKERS, x, MANAGED_PATTERNS));
            "/.kari/" in lines && "/.kari-engine/" in lines
  {
    KariMarkersAreProper();
    assert MANAGED_PATTERNS[0] == "/.kari/" && MANAGED_PATTERNS[1] == "/.kari-engine/";
    MergedLines(KARI_MARKERS, x, MANAGED_PATTERNS);
  }
}
