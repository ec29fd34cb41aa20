/** Bracketed pastes, byte by byte: the reference that the sniffer (internal/ptyinput/sniffer.go) has to
    agree with however its input is cut into chunks. */
module PasteParser {
  import opened Wrappers
  import opened ByteSeq

  const ESC: Byte := 0x1b
  const BEGIN: Bytes := [0x1b, 0x5b, 0x32, 0x30, 0x30, 0x7e]
  const END: Bytes := [0x1b, 0x5b, 0x32, 0x30, 0x31, 0x7e]

  /** What leaves the sniffer: a byte as it came, or a paste, shown as it came or, when it was a
      dropped image, as the path it was uploaded to. */
  datatype Piece = Raw(b: Byte) | Pasted(body: Bytes, uploaded: Option<Bytes>)

  function Shown(p: Piece): Bytes {
    match p
    case Raw(b) => [b]
    case Pasted(body, uploaded) => BEGIN + (if uploaded.Some? then uploaded.value else body) + END
  }

  function Original(p: Piece): Bytes {
    match p
    case Raw(b) => [b]
    case Pasted(body, _) => BEGIN + body + END
  }

  function ShownAll(ps: seq<Piece>): Bytes {
    if ps == [] then [] else Shown(ps[0]) + ShownAll(ps[1..])
  }

  function OriginalAll(ps: seq<Piece>): Bytes {
    if ps == [] then [] else Original(ps[0]) + OriginalAll(ps[1..])
  }

  function Raws(b: Bytes): seq<Piece> {
    seq(|b|, i requires 0 <= i < |b| => Raw(b[i]))
  }

  /** What becomes of the n-th paste: path parsing, the local file, the upload and its fate. */
  type Uploads = (nat, Bytes) -> Option<Bytes>

  // ---- byte by byte -----------------------------------------------------------------------

  /** `k` bytes of the awaited marker have been seen; `count` pastes have been handled. */
  datatype Mode = Mode(inside: bool, body: Bytes, k: nat, count: nat)

  function Idle(count: nat): Mode {
    Mode(false, [], 0, count)
  }

  function Inside(body: Bytes, count: nat): Mode {
    Mode(true, body, 0, count)
  }

  function Marker(inside: bool): Bytes {
    if inside then END else BEGIN
  }

  predicate Proper(m: Mode) {
    m.k < 6 && (!m.inside ==> m.body == [])
  }

  datatype Result = Result(mode: Mode, pieces: seq<Piece>)

  function Next(up: Uploads, m: Mode, b: Byte): (r: Result)
    requires Proper(m)
    ensures Proper(r.mode)
  {
    var mark := Marker(m.inside);
    if b == mark[m.k] then
      if m.k < 5 then Result(m.(k := m.k + 1), [])
      else if m.inside then Result(Idle(m.count + 1), [Pasted(m.body, up(m.count, m.body))])
      else Result(Inside([], m.count), [])
    else
      var k, freed := if b == ESC then 1 else 0, mark[..m.k] + if b == ESC then [] else [b];
      if m.inside then Result(m.(body := m.body + freed, k := k), [])
      else Result(m.(k := k), Raws(freed))
  }

  function Run(up: Uploads, m: Mode, input: Bytes): (r: Result)
    requires Proper(m)
    ensures Proper(r.mode)
    decreases |input|
  {
    if input == [] then Result(m, [])
    else
      var first := Next(up, m, input[0]);
      var rest := Run(up, first.mode, input[1..]);
      Result(rest.mode, first.pieces + rest.pieces)
  }

  /** No paste body, finished or not, is ever longer than the cap. */
  predicate Fits(up: Uploads, cap: nat, m: Mode, input: Bytes)
    requires Proper(m)
    decreases |input|
  {
    |m.body| <= cap && (input != [] ==> Fits(up, cap, Next(up, m, input[0]).mode, input[1..]))
  }

  function After(ps: seq<Piece>, r: Result): Result {
    Result(r.mode, ps + r.pieces)
  }

  lemma {:induction false} RunConcat(up: Uploads, m: Mode, p: Bytes, q: Bytes)
    requires Proper(m)
    ensures Run(up, m, p + q) == After(Run(up, m, p).pieces, Run(up, Run(up, m, p).mode, q))
    decreases |p|
  {
    if p == [] {
      assert p + q == q;
      assert [] + Run(up, m, q).pieces == Run(up, m, q).pieces;
    } else {
      var first := Next(up, m, p[0]);
      assert (p + q)[0] == p[0] && (p + q)[1..] == p[1..] + q;
      RunConcat(up, first.mode, p[1..], q);
      var r1 := Run(up, first.mode, p[1..]);
      AfterAfter(first.pieces, r1.pieces, Run(up, r1.mode, q));
    }
  }

  lemma {:induction false} FitsConcat(up: Uploads, cap: nat, m: Mode, p: Bytes, q: Bytes)
    requires Proper(m)
    ensures Fits(up, cap, m, p + q) <==> Fits(up, cap, m, p) && Fits(up, cap, Run(up, m, p).mode, q)
    decreases |p|
  {
    if p == [] {
      assert p + q == q;
    } else {
      assert (p + q)[0] == p[0] && (p + q)[1..] == p[1..] + q;
      FitsConcat(up, cap, Next(up, m, p[0]).mode, p[1..], q);
    }
  }

  // ---- conservation -----------------------------------------------------------------------

  /** Bytes that have come in and not yet gone out. */
  function Held(m: Mode): Bytes
    requires Proper(m)
  {
    (if m.inside then BEGIN + m.body else []) + Marker(m.inside)[..m.k]
  }

  lemma {:induction false} OriginalConcat(a: seq<Piece>, b: seq<Piece>)
    ensures OriginalAll(a + b) == OriginalAll(a) + OriginalAll(b)
  {
    if a == [] {
      assert a + b == b;
    } else {
      assert (a + b)[1..] == a[1..] + b;
      OriginalConcat(a[1..], b);
    }
  }

  lemma {:induction false} OriginalRaws(b: Bytes)
    ensures OriginalAll(Raws(b)) == b
  {
    if b != [] {
      assert Raws(b)[1..] == Raws(b[1..]);
      OriginalRaws(b[1..]);
    }
  }

  lemma OriginalOne(p: Piece)
    ensures OriginalAll([p]) == Original(p)
  {
    assert [p][1..] == [];
  }

  lemma MatchConserves(up: Uploads, m: Mode)
    requires Proper(m)
    ensures var b := Marker(m.inside)[m.k];
            OriginalAll(Next(up, m, b).pieces) + Held(Next(up, m, b).mode) == Held(m) + [b]
  {
    var mark := Marker(m.inside);
    assert mark[..m.k] + [mark[m.k]] == mark[..m.k + 1];
    if m.k == 5 {
      assert mark[..6] == mark;
      OriginalOne(Pasted(m.body, up(m.count, m.body)));
    }
  }

  lemma MissConserves(up: Uploads, m: Mode, b: Byte)
    requires Proper(m) && b != Marker(m.inside)[m.k]
    ensures OriginalAll(Next(up, m, b).pieces) + Held(Next(up, m, b).mode) == Held(m) + [b]
  {
    var mark := Marker(m.inside);
    var freed := mark[..m.k] + if b == ESC then [] else [b];
    var k := if b == ESC then 1 else 0;
    assert freed + mark[..k] == mark[..m.k] + [b];
    if m.inside {
      assert BEGIN + (m.body + freed) + mark[..k] == BEGIN + m.body + (freed + mark[..k]);
      assert BEGIN + m.body + (mark[..m.k] + [b]) == BEGIN + m.body + mark[..m.k] + [b];
    } else {
      OriginalRaws(freed);
    }
  }

  /** No byte is lost, added or reordered: whatever the chunks, what has gone out, with uploaded
      pastes put back as they came, followed by what is held back, is exactly what came in. */
  lemma {:induction false} RunConserves(up: Uploads, m: Mode, input: Bytes)
    requires Proper(m)
    ensures OriginalAll(Run(up, m, input).pieces) + Held(Run(up, m, input).mode) == Held(m) + input
    decreases |input|
  {
    if input != [] {
      var first := Next(up, m, input[0]);
      var rest := Run(up, first.mode, input[1..]);
      if input[0] == Marker(m.inside)[m.k] {
        MatchConserves(up, m);
      } else {
        MissConserves(up, m, input[0]);
      }
      RunConserves(up, first.mode, input[1..]);
      OriginalConcat(first.pieces, rest.pieces);
      Regroup(OriginalAll(first.pieces), OriginalAll(rest.pieces), Held(rest.mode), Held(first.mode), Held(m), input);
    }
  }

  lemma Regroup(first: Bytes, rest: Bytes, held: Bytes, between: Bytes, before: Bytes, input: Bytes)
    requires input != [] && first + between == before + [input[0]] && rest + held == between + input[1..]
    ensures first + rest + held == before + input
  {
    assert first + rest + held == first + (rest + held) == first + between + input[1..];
    assert before + input == before + [input[0]] + input[1..];
  }

  lemma {:induction false} ShownConcat(a: seq<Piece>, b: seq<Piece>)
    ensures ShownAll(a + b) == ShownAll(a) + ShownAll(b)
  {
    if a == [] {
      assert a + b == b;
    } else {
      assert (a + b)[1..] == a[1..] + b;
      ShownConcat(a[1..], b);
    }
  }

  lemma ShownOne(p: Piece)
    ensures ShownAll([p]) == Shown(p)
  {
    assert [p][1..] == [];
  }

  lemma {:induction false} ShownRaws(b: Bytes)
    ensures ShownAll(Raws(b)) == b
  {
    if b != [] {
      assert Raws(b)[1..] == Raws(b[1..]);
      ShownRaws(b[1..]);
    }
  }

  // ---- runs of ordinary bytes and of marker bytes -----------------------------------------

  /** Without an ESC nothing is held back. */
  lemma {:induction false} PlainRun(up: Uploads, cap: nat, m: Mode, s: Bytes, t: Bytes)
    requires Proper(m) && m.k == 0 && ESC !in s
    ensures Run(up, m, s + t) ==
      if m.inside then Run(up, m.(body := m.body + s), t) else After(Raws(s), Run(up, m, t))
    ensures Fits(up, cap, m, s + t) ==>
      if m.inside then |m.body + s| <= cap && Fits(up, cap, m.(body := m.body + s), t) else Fits(up, cap, m, t)
    decreases |s|
  {
    if s == [] {
      assert s + t == t && m.body + s == m.body;
      assert [] + Run(up, m, t).pieces == Run(up, m, t).pieces;
    } else {
      var b := s[0];
      assert (s + t)[0] == b && (s + t)[1..] == s[1..] + t;
      var first := Next(up, m, b);
      assert Marker(m.inside)[..0] + [b] == [b];
      PlainRun(up, cap, first.mode, s[1..], t);
      if m.inside {
        assert m.body + [b] + s[1..] == m.body + s;
      } else {
        var rest := Run(up, m, t);
        assert Raws([b]) + (Raws(s[1..]) + rest.pieces) == Raws(s) + rest.pieces;
      }
    }
  }

  /** Marker bytes are held back. */
  lemma {:induction false} MarkerRun(up: Uploads, cap: nat, m: Mode, k: nat, t: Bytes)
    requires Proper(m) && m.k <= k < 6
    ensures var mark := Marker(m.inside);
            Run(up, m, mark[m.k..k] + t) == Run(up, m.(k := k), t)
    ensures Fits(up, cap, m, Marker(m.inside)[m.k..k] + t) <==> Fits(up, cap, m.(k := k), t)
    decreases k - m.k
  {
    var mark := Marker(m.inside);
    var s := mark[m.k..k] + t;
    if m.k == k {
      assert s == t;
    } else {
      assert s[0] == mark[m.k] && s[1..] == mark[m.k + 1..k] + t;
      MarkerRun(up, cap, m.(k := m.k + 1), k, t);
      var rest := Run(up, m.(k := k), t);
      assert [] + rest.pieces == rest.pieces;
    }
  }

  lemma FullMarker(up: Uploads, cap: nat, m: Mode, t: Bytes)
    requires Proper(m) && m.k == 0
    ensures Run(up, m, Marker(m.inside) + t) ==
      if m.inside then After([Pasted(m.body, up(m.count, m.body))], Run(up, Idle(m.count + 1), t))
      else Run(up, Inside([], m.count), t)
    ensures Fits(up, cap, m, Marker(m.inside) + t) ==>
      Fits(up, cap, if m.inside then Idle(m.count + 1) else Inside([], m.count), t)
  {
    var mark := Marker(m.inside);
    assert mark + t == mark[0..5] + (mark[5..] + t);
    MarkerRun(up, cap, m, 5, mark[5..] + t);
    assert (mark[5..] + t)[0] == mark[5] && (mark[5..] + t)[1..] == t;
    if !m.inside {
      var rest := Run(up, Inside([], m.count), t);
      assert [] + rest.pieces == rest.pieces;
    }
  }

  /** After `j` marker bytes the input goes another way. */
  predicate Deviates(mark: Bytes, j: nat, r: Bytes)
    requires |mark| == 6
    decreases |r|
  {
    j < 6 && r != [] && (r[0] != mark[j] || Deviates(mark, j + 1, r[1..]))
  }

  lemma RawsConcat(a: Bytes, b: Bytes)
    ensures Raws(a + b) == Raws(a) + Raws(b)
  {
  }

  /** Then the bytes held back were ordinary ones after all. */
  lemma {:induction false} DeviationFreesInside(up: Uploads, cap: nat, m: Mode, r: Bytes)
    requires Proper(m) && m.inside && m.k >= 1 && Deviates(END, m.k, r)
    ensures var m' := m.(body := m.body + END[..m.k], k := 0);
            && Run(up, m, r) == Run(up, m', r)
            && (Fits(up, cap, m, r) ==> Fits(up, cap, m', r))
    decreases |r|
  {
    var b, freed := r[0], END[..m.k];
    assert END[..0] + [b] == [b];
    assert m.body + (freed + [b]) == m.body + freed + [b];
    if b == END[m.k] {
      assert END[..m.k + 1] == freed + [b];
      DeviationFreesInside(up, cap, m.(k := m.k + 1), r[1..]);
    } else {
      assert freed + [] == freed && m.body + freed + (END[..0] + []) == m.body + freed;
      if Fits(up, cap, m, r) {
        var next := Next(up, m, b).mode;
        assert Fits(up, cap, next, r[1..]);
        assert |next.body| <= cap;
      }
    }
  }

  lemma {:induction false} DeviationFreesOutside(up: Uploads, cap: nat, m: Mode, r: Bytes)
    requires Proper(m) && !m.inside && m.k >= 1 && Deviates(BEGIN, m.k, r)
    ensures Run(up, m, r) == After(Raws(BEGIN[..m.k]), Run(up, m.(k := 0), r))
    ensures Fits(up, cap, m, r) ==> Fits(up, cap, m.(k := 0), r)
    decreases |r|
  {
    var b, freed := r[0], BEGIN[..m.k];
    assert BEGIN[..0] + [b] == [b] && BEGIN[..0] + [] == [] && freed + [] == freed;
    var next := if b == ESC then m.(k := 1) else m.(k := 0);
    var rest := Run(up, next, r[1..]);
    if b == BEGIN[m.k] {
      assert BEGIN[..m.k + 1] == freed + [b];
      DeviationFreesOutside(up, cap, m.(k := m.k + 1), r[1..]);
    }
    RawsConcat(freed, [b]);
    AfterAfter(Raws(freed), Raws([b]), rest);
    NothingAfter(rest);
  }

  lemma NothingAfter(r: Result)
    ensures After([], r) == r && After(Raws([]), r) == r
  {
    assert [] + r.pieces == r.pieces;
  }

  /** An ESC that begins no marker is an ordinary byte. */
  lemma LoneEsc(up: Uploads, cap: nat, m: Mode, r: Bytes)
    requires Proper(m) && m.k == 0 && r != [] && r[0] == ESC && Deviates(Marker(m.inside), 1, r[1..])
    ensures Run(up, m, r) == if m.inside then Run(up, m.(body := m.body + [ESC]), r[1..])
                             else After(Raws([ESC]), Run(up, m, r[1..]))
    ensures Fits(up, cap, m, r) ==>
      if m.inside then |m.body| + 1 <= cap && Fits(up, cap, m.(body := m.body + [ESC]), r[1..])
      else Fits(up, cap, m, r[1..])
  {
    if m.inside {
      DeviationFreesInside(up, cap, m.(k := 1), r[1..]);
    } else {
      DeviationFreesOutside(up, cap, m.(k := 1), r[1..]);
    }
    assert Marker(m.inside)[..1] == [ESC];
    var rest := Run(up, m.(k := 1), r[1..]);
    assert [] + rest.pieces == rest.pieces;
  }

  // ---- what counts as a paste -------------------------------------------------------------

  predicate MarkerAt(mark: Bytes, s: Bytes, i: nat) {
    i + 6 <= |s| && s[i..i + 6] == mark
  }

  lemma {:induction false} NoMatchDeviates(mark: Bytes, j: nat, r: Bytes)
    requires |mark| == 6 && j < 6 && |r| >= 6 - j && r[..6 - j] != mark[j..]
    ensures Deviates(mark, j, r)
    decreases 6 - j
  {
    if r[0] == mark[j] {
      assert r[..6 - j] == [r[0]] + r[1..][..5 - j] && mark[j..] == [mark[j]] + mark[j + 1..];
      if j < 5 {
        NoMatchDeviates(mark, j + 1, r[1..]);
      }
    }
  }

  /** A byte at which no marker begins is an ordinary one. */
  lemma NotAMarker(up: Uploads, m: Mode, s: Bytes)
    requires Proper(m) && m.k == 0 && |s| >= 6 && !MarkerAt(Marker(m.inside), s, 0)
    ensures Run(up, m, s) == if m.inside then Run(up, m.(body := m.body + [s[0]]), s[1..])
                             else After(Raws([s[0]]), Run(up, m, s[1..]))
  {
    var mark := Marker(m.inside);
    if s[0] == ESC {
      assert s[0..6] == [ESC] + s[1..][..5] && mark == [ESC] + mark[1..];
      NoMatchDeviates(mark, 1, s[1..]);
      LoneEsc(up, 0, m, s);
    } else {
      assert s == [s[0]] + s[1..];
      PlainRun(up, 0, m, [s[0]], s[1..]);
    }
  }

  lemma ShiftedMarker(mark: Bytes, s: Bytes, i: nat)
    requires i > 0 && MarkerAt(mark, s, i) && forall j: nat :: j < i ==> !MarkerAt(mark, s, j)
    ensures MarkerAt(mark, s[1..], i - 1) && forall j: nat :: j < i - 1 ==> !MarkerAt(mark, s[1..], j)
    ensures s[..i] == [s[0]] + s[1..][..i - 1] && s[1..][i + 5..] == s[i + 6..]
  {
    assert s[1..][i - 1..i + 5] == s[i..i + 6];
    forall j: nat | j < i - 1 ensures !MarkerAt(mark, s[1..], j) {
      assert !MarkerAt(mark, s, j + 1);
      assert s[1..][j..j + 6] == s[j + 1..j + 7];
    }
  }

  /** Outside a paste everything passes up to the first begin marker, which opens one. */
  lemma {:induction false} FirstBeginOpens(up: Uploads, count: nat, s: Bytes, i: nat)
    requires MarkerAt(BEGIN, s, i) && forall j: nat :: j < i ==> !MarkerAt(BEGIN, s, j)
    ensures Run(up, Idle(count), s) == After(Raws(s[..i]), Run(up, Inside([], count), s[i + 6..]))
    decreases |s|
  {
    var rest := Run(up, Inside([], count), s[i + 6..]);
    if i == 0 {
      assert s == BEGIN + s[6..];
      FullMarker(up, 0, Idle(count), s[6..]);
      assert Raws(s[..0]) + rest.pieces == rest.pieces;
    } else {
      NotAMarker(up, Idle(count), s);
      ShiftedMarker(BEGIN, s, i);
      FirstBeginOpens(up, count, s[1..], i - 1);
      RawsConcat([s[0]], s[1..][..i - 1]);
      AfterAfter(Raws([s[0]]), Raws(s[1..][..i - 1]), rest);
    }
  }

  lemma OneByteOn(body: Bytes, s: Bytes, i: nat)
    requires 0 < i <= |s|
    ensures body + [s[0]] + s[1..][..i - 1] == body + s[..i]
  {
    assert s[..i] == [s[0]] + s[1..][..i - 1];
  }

  /** Inside, the body is everything up to the first end marker, which closes it. */
  lemma {:induction false} FirstEndCloses(up: Uploads, body: Bytes, count: nat, s: Bytes, i: nat)
    requires MarkerAt(END, s, i) && forall j: nat :: j < i ==> !MarkerAt(END, s, j)
    ensures Run(up, Inside(body, count), s)
      == After([Pasted(body + s[..i], up(count, body + s[..i]))], Run(up, Idle(count + 1), s[i + 6..]))
    decreases |s|
  {
    if i == 0 {
      assert s == END + s[6..] && body + s[..0] == body;
      FullMarker(up, 0, Inside(body, count), s[6..]);
    } else {
      NotAMarker(up, Inside(body, count), s);
      ShiftedMarker(END, s, i);
      FirstEndCloses(up, body + [s[0]], count, s[1..], i - 1);
      OneByteOn(body, s, i);
    }
  }

  // ---- chunk by chunk ---------------------------------------------------------------------

  function IndexEsc(p: Bytes, start: nat): (r: nat)
    requires start <= |p|
    ensures start <= r <= |p| && (r < |p| ==> p[r] == ESC)
    decreases |p| - start
  {
    if start == |p| || p[start] == ESC then start else IndexEsc(p, start + 1)
  }

  /** It is the first one. */
  lemma {:induction false} NoEscBefore(p: Bytes, start: nat)
    requires start <= |p|
    ensures ESC !in p[start..IndexEsc(p, start)]
    decreases |p| - start
  {
    if start < |p| && p[start] != ESC {
      NoEscBefore(p, start + 1);
      var r := IndexEsc(p, start);
      assert p[start..r] == [p[start]] + p[start + 1..r];
    }
  }

  datatype Match = NoMatch | Partial | Full

  /** matchPrefix: does `got` begin with the marker, or end before it can be told? */
  function MatchPrefix(got: Bytes, mark: Bytes): (r: Match)
    requires |mark| == 6 && got != []
    ensures r.Full? ==> |got| >= 6
    ensures r.Partial? ==> |got| < 6
  {
    var n := if |got| > 6 then 6 else |got|;
    if got[..n] != mark[..n] then NoMatch else if n == 6 then Full else Partial
  }

  lemma MatchPrefixTells(got: Bytes, mark: Bytes)
    requires |mark| == 6 && got != []
    ensures MatchPrefix(got, mark).Full? <==> |got| >= 6 && got[..6] == mark
    ensures MatchPrefix(got, mark).Partial? <==> |got| < 6 && got == mark[..|got|]
  {
    assert mark[..6] == mark && got[..|got|] == got;
  }

  lemma {:induction false} ShortDeviates(mark: Bytes, j: nat, r: Bytes)
    requires |mark| == 6 && j < 6 && |r| <= 6 - j && r != mark[j..j + |r|]
    ensures Deviates(mark, j, r)
    decreases |r|
  {
    if r[0] == mark[j] {
      assert r == [r[0]] + r[1..] && mark[j..j + |r|] == [mark[j]] + mark[j + 1..j + |r|];
      ShortDeviates(mark, j + 1, r[1..]);
    }
  }

  lemma NoMatchIsDeviation(mark: Bytes, got: Bytes)
    requires |mark| == 6 && got != [] && got[0] == mark[0] && MatchPrefix(got, mark).NoMatch?
    ensures Deviates(mark, 1, got[1..])
  {
    if |got| >= 6 {
      assert got[..6] == [got[0]] + got[1..][..5] && mark == [mark[0]] + mark[1..];
      NoMatchDeviates(mark, 1, got[1..]);
    } else {
      assert got == [got[0]] + got[1..] && mark[..|got|] == [mark[0]] + mark[1..|got|];
      ShortDeviates(mark, 1, got[1..]);
    }
  }

  lemma Associate(a: Bytes, body: Bytes, b: Bytes)
    ensures a + (BEGIN + body + b) == a + BEGIN + body + b
  {
  }

  lemma StreamStep(up: Uploads, cap: nat, chunks: seq<Bytes>, i: nat)
    requires i < |chunks| && Fits(up, cap, Idle(0), Flatten(chunks))
    ensures var so := Run(up, Idle(0), Flatten(chunks[..i]));
            && Run(up, Idle(0), Flatten(chunks[..i + 1])) == After(so.pieces, Run(up, so.mode, chunks[i]))
            && Fits(up, cap, so.mode, chunks[i])
  {
    assert chunks[..i + 1] == chunks[..i] + [chunks[i]];
    FlattenSnoc(chunks[..i], chunks[i]);
    FitsPrefix(up, cap, Idle(0), chunks, i + 1);
    RunConcat(up, Idle(0), Flatten(chunks[..i]), chunks[i]);
    FitsConcat(up, cap, Idle(0), Flatten(chunks[..i]), chunks[i]);
  }

  /** From `m`, with `ps` let out, the bytes `rest` lead to `goal`, and no paste outgrows the cap. */
  ghost predicate Leads(up: Uploads, cap: nat, m: Mode, ps: seq<Piece>, rest: Bytes, goal: Result) {
    Proper(m) && m.k == 0 && Fits(up, cap, m, rest) && goal == After(ps, Run(up, m, rest))
  }

  /** The mode after a whole marker, and what it lets out. */
  function Switched(m: Mode): Mode {
    if m.inside then Idle(m.count + 1) else Inside([], m.count)
  }

  function Closed(up: Uploads, m: Mode): seq<Piece> {
    if m.inside then [Pasted(m.body, up(m.count, m.body))] else []
  }

  lemma MarkerAhead(up: Uploads, cap: nat, m: Mode, ps: seq<Piece>, q: Bytes, i: nat, goal: Result)
    requires i + 6 <= |q| && q[i..][..6] == Marker(m.inside) && Leads(up, cap, m, ps, q[i..], goal)
    ensures Leads(up, cap, Switched(m), ps + Closed(up, m), q[i + 6..], goal)
  {
    assert q[i..] == Marker(m.inside) + q[i + 6..];
    FullMarker(up, cap, m, q[i + 6..]);
    if m.inside {
      AfterAfter(ps, Closed(up, m), Run(up, Idle(m.count + 1), q[i + 6..]));
    } else {
      assert ps + [] == ps;
    }
  }

  /** Bytes with no ESC among them add to the paste, or pass. */
  lemma PlainAhead(up: Uploads, cap: nat, m: Mode, ps: seq<Piece>, q: Bytes, i: nat, next: nat, goal: Result)
    requires i <= next <= |q| && ESC !in q[i..next] && Leads(up, cap, m, ps, q[i..], goal)
    ensures var plain := q[i..next];
            if m.inside then
              |m.body| + |plain| <= cap && Leads(up, cap, m.(body := m.body + plain), ps, q[next..], goal)
            else Leads(up, cap, m, ps + Raws(plain), q[next..], goal)
  {
    var plain := q[i..next];
    assert q[i..] == plain + q[next..];
    PlainRun(up, cap, m, plain, q[next..]);
    if !m.inside {
      AfterAfter(ps, Raws(plain), Run(up, m, q[next..]));
    }
  }

  lemma EscapeAndRest(ps: seq<Piece>, q: Bytes, i: nat, j: nat)
    requires i < j <= |q| && q[i] == ESC
    ensures ps + Raws([ESC]) + Raws(q[i + 1..j]) == ps + Raws(q[i..j])
  {
    assert q[i..j] == [ESC] + q[i + 1..j];
    RawsConcat([ESC], q[i + 1..j]);
  }

  /** An ESC that begins no marker is an ordinary byte. */
  lemma LoneEscAhead(up: Uploads, cap: nat, m: Mode, ps: seq<Piece>, q: Bytes, i: nat, goal: Result)
    requires i < |q| && q[i] == ESC && MatchPrefix(q[i..], Marker(m.inside)).NoMatch?
    requires Leads(up, cap, m, ps, q[i..], goal)
    ensures if m.inside then |m.body| + 1 <= cap && Leads(up, cap, m.(body := m.body + [ESC]), ps, q[i + 1..], goal)
            else Leads(up, cap, m, ps + Raws([ESC]), q[i + 1..], goal)
  {
    NoMatchIsDeviation(Marker(m.inside), q[i..]);
    assert q[i..][1..] == q[i + 1..];
    LoneEsc(up, cap, m, q[i..]);
    if !m.inside {
      AfterAfter(ps, Raws([ESC]), Run(up, m, q[i + 1..]));
    }
  }

  /** What was held back is read again before the next chunk. */
  lemma BoundaryAhead(up: Uploads, cap: nat, m: Mode, boundary: Bytes, ps: seq<Piece>, p: Bytes)
    requires Proper(m) && boundary <= Marker(m.inside) && m.k == |boundary| && Fits(up, cap, m, p)
    ensures Leads(up, cap, m.(k := 0), ps, boundary + p, After(ps, Run(up, m, p)))
  {
    assert Marker(m.inside)[0..m.k] + p == boundary + p;
    MarkerRun(up, cap, m.(k := 0), m.k, p);
  }

  /** What may be the start of a marker is held back. */
  lemma PartialAhead(up: Uploads, cap: nat, m: Mode, ps: seq<Piece>, got: Bytes, goal: Result)
    requires got != [] && MatchPrefix(got, Marker(m.inside)).Partial? && Leads(up, cap, m, ps, got, goal)
    ensures goal == Result(m.(k := |got|), ps)
  {
    assert Marker(m.inside)[0..|got|] + [] == got;
    MarkerRun(up, cap, m, |got|, []);
    assert ps + [] == ps;
  }

  lemma {:induction false} FitsPrefix(up: Uploads, cap: nat, m: Mode, chunks: seq<Bytes>, n: nat)
    requires Proper(m) && n <= |chunks| && Fits(up, cap, m, Flatten(chunks))
    ensures Fits(up, cap, m, Flatten(chunks[..n]))
    decreases |chunks|
  {
    if n < |chunks| {
      var last := |chunks| - 1;
      FitsConcat(up, cap, m, Flatten(chunks[..last]), chunks[last]);
      FitsPrefix(up, cap, m, chunks[..last], n);
      assert chunks[..last][..n] == chunks[..n];
    } else {
      assert chunks[..n] == chunks;
    }
  }

  lemma AfterAfter(a: seq<Piece>, b: seq<Piece>, r: Result)
    ensures After(a, After(b, r)) == After(a + b, r)
  {
    assert a + (b + r.pieces) == a + b + r.pieces;
  }

  // ---- what arrives -----------------------------------------------------------------------

  predicate BodiesFit(cap: nat, ps: seq<Piece>) {
    forall p :: p in ps && p.Pasted? ==> |p.body| <= cap
  }

  /** Bodies that fit when they are complete fitted all along. */
  lemma {:induction false} FitsIfBodiesFit(up: Uploads, cap: nat, m: Mode, input: Bytes)
    requires Proper(m)
    requires var r := Run(up, m, input); BodiesFit(cap, r.pieces) && |r.mode.body| <= cap
    ensures Fits(up, cap, m, input)
    decreases |input|
  {
    if input != [] {
      var first := Next(up, m, input[0]);
      var rest := Run(up, first.mode, input[1..]);
      assert forall p :: p in rest.pieces ==> p in first.pieces + rest.pieces;
      FitsIfBodiesFit(up, cap, first.mode, input[1..]);
      if m.inside && !first.mode.inside {
        assert first.pieces[0] in first.pieces + rest.pieces;
      }
    }
  }

  /** Something typed, and a paste behind it. */
  datatype Insert = Insert(typed: Bytes, body: Bytes)

  /** Nothing in either is mistaken for the marker that ends it. */
  predicate Plainly(i: Insert) {
    && (forall j :: 0 <= j < |i.typed| ==> !MarkerAt(BEGIN, i.typed + BEGIN, j))
    && (forall j :: 0 <= j < |i.body| ==> !MarkerAt(END, i.body + END, j))
  }

  function Sent(list: seq<Insert>): Bytes
    decreases |list|
  {
    if list == [] then [] else list[0].typed + BEGIN + list[0].body + END + Sent(list[1..])
  }

  /** The same with the path in place of every paste that was uploaded. */
  function Arriving(up: Uploads, count: nat, list: seq<Insert>): Bytes
    decreases |list|
  {
    if list == [] then []
    else
      var i := list[0];
      i.typed + BEGIN + (match up(count, i.body) case Some(path) => path case None => i.body) + END
      + Arriving(up, count + 1, list[1..])
  }

  function PiecesOf(up: Uploads, count: nat, list: seq<Insert>): seq<Piece>
    decreases |list|
  {
    if list == [] then []
    else Raws(list[0].typed) + [Pasted(list[0].body, up(count, list[0].body))] + PiecesOf(up, count + 1, list[1..])
  }

  lemma MarkerBehind(mark: Bytes, s: Bytes, t: Bytes)
    requires |mark| == 6 && forall j :: 0 <= j < |s| ==> !MarkerAt(mark, s + mark, j)
    ensures var all := s + mark + t;
            && MarkerAt(mark, all, |s|) && (forall j: nat :: j < |s| ==> !MarkerAt(mark, all, j))
            && all[..|s|] == s && all[|s| + 6..] == t
  {
    var all := s + mark + t;
    assert all[|s|..|s| + 6] == mark;
    forall j: nat | j < |s| ensures !MarkerAt(mark, all, j) {
      assert all[j..j + 6] == (s + mark)[j..j + 6];
      assert !MarkerAt(mark, s + mark, j);
    }
  }

  lemma OneInsertRuns(up: Uploads, count: nat, i: Insert, rest: Bytes)
    requires Plainly(i)
    ensures Run(up, Idle(count), i.typed + BEGIN + (i.body + END + rest)) ==
            After(Raws(i.typed) + [Pasted(i.body, up(count, i.body))], Run(up, Idle(count + 1), rest))
  {
    var inner := i.body + END + rest;
    MarkerBehind(BEGIN, i.typed, inner);
    FirstBeginOpens(up, count, i.typed + BEGIN + inner, |i.typed|);
    MarkerBehind(END, i.body, rest);
    FirstEndCloses(up, [], count, inner, |i.body|);
    assert [] + i.body == i.body;
    AfterAfter(Raws(i.typed), [Pasted(i.body, up(count, i.body))], Run(up, Idle(count + 1), rest));
  }

  lemma {:induction false} InsertsRun(up: Uploads, count: nat, list: seq<Insert>, tail: Bytes)
    requires (forall i :: i in list ==> Plainly(i)) && ESC !in tail
    ensures Run(up, Idle(count), Sent(list) + tail)
      == Result(Idle(count + |list|), PiecesOf(up, count, list) + Raws(tail))
    decreases |list|
  {
    if list == [] {
      PlainRun(up, 0, Idle(count), tail, []);
      assert tail + [] == tail && [] + tail == tail && Raws(tail) + [] == Raws(tail) && [] + Raws(tail) == Raws(tail);
    } else {
      var i, rest := list[0], Sent(list[1..]) + tail;
      assert i in list;
      SentFirst(i, Sent(list[1..]), tail);
      OneInsertRuns(up, count, i, rest);
      InsertsRun(up, count + 1, list[1..], tail);
      AfterAfter(Raws(i.typed) + [Pasted(i.body, up(count, i.body))], PiecesOf(up, count + 1, list[1..]),
                 Result(Idle(count + |list|), Raws(tail)));
    }
  }

  lemma SentFirst(i: Insert, more: Bytes, tail: Bytes)
    ensures i.typed + BEGIN + i.body + END + more + tail == i.typed + BEGIN + (i.body + END + (more + tail))
  {
  }

  lemma {:induction false} PiecesArrive(up: Uploads, count: nat, list: seq<Insert>)
    ensures ShownAll(PiecesOf(up, count, list)) == Arriving(up, count, list)
    decreases |list|
  {
    if list != [] {
      var i := list[0];
      ShownConcat(Raws(i.typed) + [Pasted(i.body, up(count, i.body))], PiecesOf(up, count + 1, list[1..]));
      OneInsertArrives(up, count, i);
      PiecesArrive(up, count + 1, list[1..]);
    }
  }

  lemma OneInsertArrives(up: Uploads, count: nat, i: Insert)
    ensures ShownAll(Raws(i.typed) + [Pasted(i.body, up(count, i.body))]) ==
            i.typed + BEGIN + (match up(count, i.body) case Some(path) => path case None => i.body) + END
  {
    var pasted := Pasted(i.body, up(count, i.body));
    ShownConcat(Raws(i.typed), [pasted]);
    ShownRaws(i.typed);
    ShownOne(pasted);
    Associate(i.typed, if pasted.uploaded.Some? then pasted.uploaded.value else i.body, END);
  }

  lemma {:induction false} PiecesFit(up: Uploads, cap: nat, count: nat, list: seq<Insert>)
    requires forall i :: i in list ==> |i.body| <= cap
    ensures BodiesFit(cap, PiecesOf(up, count, list))
    decreases |list|
  {
    if list != [] {
      PiecesFit(up, cap, count + 1, list[1..]);
    }
  }

  /** Typing and pastes within the cap, one after another: every paste that was uploaded arrives as its path,
      between the markers, and everything else as it was sent. */
  lemma InsertsArrive(up: Uploads, cap: nat, list: seq<Insert>, tail: Bytes)
    requires (forall i :: i in list ==> Plainly(i) && |i.body| <= cap) && ESC !in tail
    ensures Fits(up, cap, Idle(0), Sent(list) + tail)
    ensures ShownAll(Run(up, Idle(0), Sent(list) + tail).pieces) == Arriving(up, 0, list) + tail
  {
    InsertsRun(up, 0, list, tail);
    PiecesArrive(up, 0, list);
    PiecesFit(up, cap, 0, list);
    ShownConcat(PiecesOf(up, 0, list), Raws(tail));
    ShownRaws(tail);
    FitsIfBodiesFit(up, cap, Idle(0), Sent(list) + tail);
  }

  /** A paste alone changes what is shown, and only by its upload. */
  lemma {:induction false} ShownIsOriginal(ps: seq<Piece>)
    requires forall p :: p in ps && p.Pasted? ==> p.uploaded.None?
    ensures ShownAll(ps) == OriginalAll(ps)
  {
    if ps != [] {
      assert ps[0] in ps;
      ShownIsOriginal(ps[1..]);
    }
  }
}
