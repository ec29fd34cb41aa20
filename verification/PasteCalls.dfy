/** What one call of the bracketed-paste sniffer (internal/ptyinput/sniffer.go) makes of a chunk, whatever
    is in it; that it is what the byte-by-byte reference makes of it as long as no paste outgrows the cap;
    and exactly when no byte is lost or added beyond that. */
module PasteCalls {
  import opened Wrappers
  import opened ByteSeq
  import opened PasteParser

  // ---- one call ---------------------------------------------------------------------------

  /** The state between two bytes of a call. `buf` may hold bytes outside a paste too, which nothing
      reads any more. */
  datatype Live = Live(inside: bool, buf: Bytes, count: nat)

  datatype Fed = Fed(live: Live, boundary: Bytes, pieces: seq<Piece>)

  function Onto(ps: seq<Piece>, f: Fed): Fed {
    f.(pieces := ps + f.pieces)
  }

  /** accumulate: over the cap the paste is let go as it came, with its begin marker. */
  function Gather(cap: nat, m: Live, b: Bytes): Fed {
    if |m.buf| + |b| <= cap then Fed(m.(buf := m.buf + b), [], [])
    else Fed(m.(inside := false, buf := []), [], Raws(BEGIN + m.buf + b))
  }

  /** The bytes before an ESC. */
  function Plain(cap: nat, m: Live, b: Bytes): Fed {
    if m.inside then Gather(cap, m, b) else Fed(m, [], Raws(b))
  }

  datatype Turn = Stop(fed: Fed) | Go(fed: Fed, used: nat)

  /** What an ESC leads to. The marker looked for is the one of the state before the bytes that came
      before the ESC, even if those were too many and ended the paste. */
  function Turned(up: Uploads, cap: nat, wasInside: bool, m: Live, rest: Bytes): (t: Turn)
    requires rest != []
    ensures t.Go? ==> 0 < t.used <= |rest|
  {
    match MatchPrefix(rest, Marker(wasInside))
    case Partial => Stop(Fed(m, rest, []))
    case Full =>
      if wasInside then Go(Fed(Live(false, [], m.count + 1), [], [Pasted(m.buf, up(m.count, m.buf))]), 6)
      else Go(Fed(Live(true, [], m.count), [], []), 6)
    case NoMatch =>
      if wasInside then Go(Gather(cap, m, [ESC]), 1)
      else Go(Fed(m, [], Raws(rest[..IndexEsc(rest, 1)])), IndexEsc(rest, 1))
  }

  /** The bytes up to an ESC and that ESC; or all there is. */
  function Round(up: Uploads, cap: nat, m: Live, q: Bytes): (t: Turn)
    requires q != []
    ensures t.Go? ==> 0 < t.used <= |q|
  {
    var n := IndexEsc(q, 0);
    var a := Plain(cap, m, q[..n]);
    if n == |q| then Stop(a)
    else
      var t := Turned(up, cap, m.inside, a.live, q[n..]);
      if t.Stop? then Stop(Onto(a.pieces, t.fed)) else Go(Onto(a.pieces, t.fed), n + t.used)
  }

  /** A whole chunk, with what was held back put before it. */
  function Chunk(up: Uploads, cap: nat, m: Live, q: Bytes): Fed
    decreases |q|
  {
    if q == [] then Fed(m, [], [])
    else
      match Round(up, cap, m, q)
      case Stop(f) => f
      case Go(f, used) => Onto(f.pieces, Chunk(up, cap, f.live, q[used..]))
  }

  lemma OntoOnto(a: seq<Piece>, b: seq<Piece>, f: Fed)
    ensures Onto(a, Onto(b, f)) == Onto(a + b, f) && Onto([], f) == f
  {
    assert a + (b + f.pieces) == a + b + f.pieces;
    assert [] + f.pieces == f.pieces;
  }

  // ---- within the cap ---------------------------------------------------------------------

  function LiveOf(m: Mode): Live {
    Live(m.inside, m.body, m.count)
  }

  function ModeOf(f: Fed): Mode {
    Mode(f.live.inside, f.live.buf, |f.boundary|, f.live.count)
  }

  /** Between calls, as long as no paste outgrew the cap: what is held back begins the marker that is
      looked for. */
  predicate Regular(f: Fed) {
    f.boundary <= Marker(f.live.inside) && |f.boundary| < 6 && (!f.live.inside ==> f.live.buf == [])
  }

  /** Within the cap a call does what the reference does byte by byte, and loses nothing. */
  lemma {:induction false} ChunkIsRun(up: Uploads, cap: nat, m: Mode, q: Bytes)
    requires Proper(m) && m.k == 0 && Fits(up, cap, m, q)
    ensures var f := Chunk(up, cap, LiveOf(m), q);
            Regular(f) && Run(up, m, q) == Result(ModeOf(f), f.pieces)
    ensures !Anomalous(up, cap, LiveOf(m), q)
    decreases |q|
  {
    if q != [] {
      var t := Round(up, cap, LiveOf(m), q);
      RoundIsRun(up, cap, m, q, Run(up, m, q));
      if t.Go? {
        assert LiveOf(ModeOf(t.fed)) == t.fed.live;
        ChunkIsRun(up, cap, ModeOf(t.fed), q[t.used..]);
      }
    }
  }

  lemma RoundIsRun(up: Uploads, cap: nat, m: Mode, q: Bytes, goal: Result)
    requires Proper(m) && m.k == 0 && Fits(up, cap, m, q) && goal == Run(up, m, q) && q != []
    ensures !Overflowing(cap, LiveOf(m), q) && Reaches(up, cap, Round(up, cap, LiveOf(m), q), q, goal)
  {
    var n := IndexEsc(q, 0);
    NothingAfter(goal);
    PlainIsRun(up, cap, m, q, n, goal);
    WithinIsNotOverflowing(cap, LiveOf(m), q, n);
    if n < |q| {
      EscRoundIsRun(up, cap, m, q, n, goal);
    } else {
      RoundEnds(up, cap, LiveOf(m), q);
      var a := Plain(cap, LiveOf(m), q[..n]);
      EndIsRun(up, cap, ModeOf(a), a.pieces, q[n..], goal);
    }
  }

  /** A round that leads to `goal`, or to where the rest of the bytes leads there. */
  ghost predicate Reaches(up: Uploads, cap: nat, t: Turn, q: Bytes, goal: Result)
    requires t.Go? ==> t.used <= |q|
  {
    if t.Stop? then Regular(t.fed) && goal == Result(ModeOf(t.fed), t.fed.pieces)
    else t.fed.boundary == [] && Leads(up, cap, ModeOf(t.fed), t.fed.pieces, q[t.used..], goal)
  }

  lemma EscRoundIsRun(up: Uploads, cap: nat, m: Mode, q: Bytes, n: nat, goal: Result)
    requires q != [] && n == IndexEsc(q, 0) < |q|
    requires var a := Plain(cap, LiveOf(m), q[..n]);
             && a.boundary == [] && a.live.inside == m.inside && LiveOf(ModeOf(a)) == a.live
             && Leads(up, cap, ModeOf(a), a.pieces, q[n..], goal)
    ensures Reaches(up, cap, Round(up, cap, LiveOf(m), q), q, goal)
  {
    var a := Plain(cap, LiveOf(m), q[..n]);
    var t := Turned(up, cap, m.inside, a.live, q[n..]);
    RoundGiven(up, cap, LiveOf(m), q, n, a, t);
    TurnIsRun(up, cap, a, t, q, n, goal);
  }

  lemma RoundGiven(up: Uploads, cap: nat, m: Live, q: Bytes, n: nat, a: Fed, t: Turn)
    requires q != [] && n == IndexEsc(q, 0) < |q| && a == Plain(cap, m, q[..n])
    requires t == Turned(up, cap, m.inside, a.live, q[n..])
    ensures Round(up, cap, m, q) ==
      if t.Stop? then Stop(Onto(a.pieces, t.fed)) else Go(Onto(a.pieces, t.fed), n + t.used)
  {
  }

  lemma TurnIsRun(up: Uploads, cap: nat, a: Fed, t: Turn, q: Bytes, n: nat, goal: Result)
    requires n < |q| && q[n] == ESC && a.boundary == [] && Leads(up, cap, ModeOf(a), a.pieces, q[n..], goal)
    requires t == Turned(up, cap, a.live.inside, a.live, q[n..])
    ensures t.Stop? ==> Reaches(up, cap, Stop(Onto(a.pieces, t.fed)), q, goal)
    ensures t.Go? ==> Reaches(up, cap, Go(Onto(a.pieces, t.fed), n + t.used), q, goal)
  {
    assert LiveOf(ModeOf(a)) == a.live;
    EscIsRun(up, cap, ModeOf(a), a.pieces, q, n, goal);
  }

  lemma WithinIsNotOverflowing(cap: nat, m: Live, q: Bytes, n: nat)
    requires q != [] && n == IndexEsc(q, 0) && (m.inside ==> |m.buf| + n <= cap)
    ensures !Overflowing(cap, m, q)
  {
  }

  lemma RoundEnds(up: Uploads, cap: nat, m: Live, q: Bytes)
    requires q != [] && IndexEsc(q, 0) == |q|
    ensures Round(up, cap, m, q) == Stop(Plain(cap, m, q[..|q|]))
  {
  }

  lemma EndIsRun(up: Uploads, cap: nat, m: Mode, ps: seq<Piece>, rest: Bytes, goal: Result)
    requires rest == [] && Leads(up, cap, m, ps, rest, goal)
    ensures goal == Result(m, ps)
  {
    assert ps + [] == ps;
  }

  lemma PlainIsRun(up: Uploads, cap: nat, m: Mode, q: Bytes, n: nat, goal: Result)
    requires Proper(m) && m.k == 0 && Fits(up, cap, m, q) && goal == After([], Run(up, m, q))
    requires n == IndexEsc(q, 0)
    ensures var a := Plain(cap, LiveOf(m), q[..n]);
            && a.boundary == [] && a.live.inside == m.inside && LiveOf(ModeOf(a)) == a.live
            && Leads(up, cap, ModeOf(a), a.pieces, q[n..], goal) && Regular(a)
            && (m.inside ==> |m.body| + n <= cap)
  {
    assert q[0..] == q && q[0..n] == q[..n];
    NoEscBefore(q, 0);
    PlainAhead(up, cap, m, [], q, 0, n, goal);
    assert [] + Raws(q[..n]) == Raws(q[..n]);
  }

  lemma EscIsRun(up: Uploads, cap: nat, m: Mode, ps: seq<Piece>, q: Bytes, n: nat, goal: Result)
    requires n < |q| && q[n] == ESC && Leads(up, cap, m, ps, q[n..], goal)
    ensures var t := Turned(up, cap, m.inside, LiveOf(m), q[n..]);
            && (t.Stop? ==> Regular(Onto(ps, t.fed)) && goal == Result(ModeOf(t.fed), Onto(ps, t.fed).pieces))
            && (t.Go? ==> t.fed.boundary == [])
            && (t.Go? ==> Leads(up, cap, ModeOf(t.fed), ps + t.fed.pieces, q[n + t.used..], goal))
  {
    match MatchPrefix(q[n..], Marker(m.inside))
    case Partial =>
      PartialAhead(up, cap, m, ps, q[n..], goal);
      assert ps + [] == ps;
    case Full =>
      MarkerAhead(up, cap, m, ps, q, n, goal);
    case NoMatch =>
      LoneEscIsRun(up, cap, m, ps, q, n, goal);
  }

  lemma LoneEscIsRun(up: Uploads, cap: nat, m: Mode, ps: seq<Piece>, q: Bytes, n: nat, goal: Result)
    requires n < |q| && q[n] == ESC && Leads(up, cap, m, ps, q[n..], goal)
    requires MatchPrefix(q[n..], Marker(m.inside)).NoMatch?
    ensures var t := Turned(up, cap, m.inside, LiveOf(m), q[n..]);
            && t.Go? && t.fed.boundary == []
            && Leads(up, cap, ModeOf(t.fed), ps + t.fed.pieces, q[n + t.used..], goal)
  {
    LoneEscAhead(up, cap, m, ps, q, n, goal);
    if m.inside {
      assert ps + [] == ps;
    } else {
      EscapeIsRun(up, cap, m, ps, q, n, goal);
    }
  }

  lemma EscapeIsRun(up: Uploads, cap: nat, m: Mode, ps: seq<Piece>, q: Bytes, n: nat, goal: Result)
    requires n < |q| && q[n] == ESC && !m.inside && Leads(up, cap, m, ps + Raws([ESC]), q[n + 1..], goal)
    ensures var rest := q[n..];
            var j := IndexEsc(rest, 1);
            Leads(up, cap, m, ps + Raws(rest[..j]), q[n + j..], goal)
  {
    var rest := q[n..];
    var j := IndexEsc(rest, 1);
    NoEscBefore(rest, 1);
    assert q[n + 1..n + j] == rest[1..j] && q[n..n + j] == rest[..j];
    PlainAhead(up, cap, m, ps + Raws([ESC]), q, n + 1, n + j, goal);
    EscapeAndRest(ps, q, n, n + j);
  }

  // ---- beyond the cap ---------------------------------------------------------------------

  function HeldBy(m: Live): Bytes {
    if m.inside then BEGIN + m.buf else []
  }

  /** What went out, with uploaded pastes as they came, and what is held back. */
  function Total(f: Fed): Bytes {
    OriginalAll(f.pieces) + (HeldBy(f.live) + f.boundary)
  }

  /** The bytes up to an ESC overflow the paste, and that ESC begins an end marker or none at all. */
  predicate Overflowing(cap: nat, m: Live, q: Bytes)
    requires q != []
  {
    var n := IndexEsc(q, 0);
    n < |q| && m.inside && |m.buf| + n > cap && !MatchPrefix(q[n..], END).Partial?
  }

  /** That happens somewhere in the call. */
  predicate Anomalous(up: Uploads, cap: nat, m: Live, q: Bytes)
    decreases |q|
  {
    q != [] &&
    (Overflowing(cap, m, q)
     || (Round(up, cap, m, q).Go? && Anomalous(up, cap, Round(up, cap, m, q).fed.live, q[Round(up, cap, m, q).used..])))
  }

  lemma OntoTotal(ps: seq<Piece>, f: Fed)
    ensures Total(Onto(ps, f)) == OriginalAll(ps) + Total(f)
  {
    OriginalConcat(ps, f.pieces);
    Grouped(OriginalAll(ps), OriginalAll(f.pieces), HeldBy(f.live) + f.boundary);
  }

  /** A step that is not anomalous conserves. */
  lemma PlainConserves(cap: nat, m: Live, b: Bytes)
    ensures var a := Plain(cap, m, b); OriginalAll(a.pieces) + HeldBy(a.live) == HeldBy(m) + b
  {
    OriginalRaws(b);
    if m.inside {
      GatherConserves(cap, m, b);
    } else {
      assert b + [] == b && [] + b == b;
    }
  }

  lemma GatherConserves(cap: nat, m: Live, b: Bytes)
    requires m.inside
    ensures var a := Gather(cap, m, b); OriginalAll(a.pieces) + HeldBy(a.live) == HeldBy(m) + b
  {
    OriginalRaws(BEGIN + m.buf + b);
    Grouped(BEGIN, m.buf, b);
    assert [] + (BEGIN + (m.buf + b)) == BEGIN + (m.buf + b);
    assert BEGIN + m.buf + b + [] == BEGIN + m.buf + b;
  }

  lemma Grouped(a: Bytes, b: Bytes, c: Bytes)
    ensures a + b + c == a + (b + c)
  {
  }

  lemma TurnConserves(up: Uploads, cap: nat, m: Live, rest: Bytes)
    requires rest != [] && rest[0] == ESC
    ensures var t := Turned(up, cap, m.inside, m, rest);
            && (t.Stop? ==> Total(t.fed) == HeldBy(m) + rest)
            && (t.Go? ==> OriginalAll(t.fed.pieces) + HeldBy(t.fed.live) == HeldBy(m) + rest[..t.used])
  {
    match MatchPrefix(rest, Marker(m.inside))
    case Partial =>
      assert [] + (HeldBy(m) + rest) == HeldBy(m) + rest;
    case Full =>
      if m.inside {
        OriginalOne(Pasted(m.buf, up(m.count, m.buf)));
        assert BEGIN + m.buf + END + [] == BEGIN + m.buf + END;
      } else {
        assert [] + (BEGIN + []) == [] + BEGIN;
      }
    case NoMatch =>
      if m.inside {
        GatherConserves(cap, m, [ESC]);
        assert rest[..1] == [ESC];
      } else {
        OriginalRaws(rest[..IndexEsc(rest, 1)]);
        assert rest[..IndexEsc(rest, 1)] + [] == [] + rest[..IndexEsc(rest, 1)];
      }
  }

  /** A round that does not overflow so conserves. */
  lemma RoundConserves(up: Uploads, cap: nat, m: Live, q: Bytes)
    requires q != [] && !Overflowing(cap, m, q)
    ensures var t := Round(up, cap, m, q);
            && (t.Stop? ==> Total(t.fed) == HeldBy(m) + q)
            && (t.Go? ==> OriginalAll(t.fed.pieces) + HeldBy(t.fed.live) == HeldBy(m) + q[..t.used])
  {
    var n := IndexEsc(q, 0);
    if n == |q| {
      RoundEnds(up, cap, m, q);
      PlainTotal(cap, m, q);
    } else if m.inside && |m.buf| + n > cap {
      OverflowAtTail(up, cap, m, q, n);
      Halves(q, n);
    } else {
      EscRoundConserves(up, cap, m, q, n);
    }
  }

  lemma EscRoundConserves(up: Uploads, cap: nat, m: Live, q: Bytes, n: nat)
    requires q != [] && n == IndexEsc(q, 0) < |q| && !(m.inside && |m.buf| + n > cap)
    ensures var t := Round(up, cap, m, q);
            && (t.Stop? ==> Total(t.fed) == HeldBy(m) + q)
            && (t.Go? ==> OriginalAll(t.fed.pieces) + HeldBy(t.fed.live) == HeldBy(m) + q[..t.used])
  {
    var a := Plain(cap, m, q[..n]);
    var t := Turned(up, cap, m.inside, a.live, q[n..]);
    EscConserves(up, cap, m, q, n);
    if t.Stop? {
      RoundStops(up, cap, m, q, n);
    } else {
      RoundGoes(up, cap, m, q, n);
    }
    Rejoin(a.pieces, t, Round(up, cap, m, q), HeldBy(m), q, n);
  }

  lemma Rejoin(ps: seq<Piece>, t: Turn, r: Turn, before: Bytes, q: Bytes, n: nat)
    requires n <= |q| && (t.Go? ==> n + t.used <= |q|)
    requires r == if t.Stop? then Stop(Onto(ps, t.fed)) else Go(Onto(ps, t.fed), n + t.used)
    requires t.Stop? ==> Total(Onto(ps, t.fed)) == before + (q[..n] + q[n..])
    requires t.Go? ==> OriginalAll(ps + t.fed.pieces) + HeldBy(t.fed.live) == before + (q[..n] + q[n..][..t.used])
    ensures r.Stop? ==> Total(r.fed) == before + q
    ensures r.Go? ==> OriginalAll(r.fed.pieces) + HeldBy(r.fed.live) == before + q[..r.used]
  {
    Halves(q, n);
    if t.Go? {
      Thirds(q, n, t.used);
    }
  }

  lemma PlainTotal(cap: nat, m: Live, q: Bytes)
    ensures Total(Plain(cap, m, q[..|q|])) == HeldBy(m) + q
  {
    PlainConserves(cap, m, q);
    assert q[..|q|] == q;
    var a := Plain(cap, m, q);
    assert HeldBy(a.live) + [] == HeldBy(a.live);
  }

  lemma Halves(q: Bytes, n: nat)
    requires n <= |q|
    ensures q[..n] + q[n..] == q
  {
  }

  lemma Thirds(q: Bytes, n: nat, k: nat)
    requires n + k <= |q|
    ensures q[..n] + q[n..][..k] == q[..n + k]
  {
  }

  lemma OverflowAtTail(up: Uploads, cap: nat, m: Live, q: Bytes, n: nat)
    requires q != [] && n == IndexEsc(q, 0) < |q| && m.inside && |m.buf| + n > cap
    requires MatchPrefix(q[n..], END).Partial?
    ensures var t := Round(up, cap, m, q); t.Stop? && Total(t.fed) == HeldBy(m) + (q[..n] + q[n..])
  {
    var a := Plain(cap, m, q[..n]);
    var f := Fed(a.live, q[n..], []);
    PlainConserves(cap, m, q[..n]);
    JustHeld(f);
    StopTotal(a.pieces, f, HeldBy(a.live), HeldBy(m), q[..n], q[n..]);
  }

  lemma JustHeld(f: Fed)
    requires f.pieces == []
    ensures Total(f) == HeldBy(f.live) + f.boundary
  {
    assert [] + (HeldBy(f.live) + f.boundary) == HeldBy(f.live) + f.boundary;
  }

  lemma EscConserves(up: Uploads, cap: nat, m: Live, q: Bytes, n: nat)
    requires q != [] && n == IndexEsc(q, 0) < |q| && !(m.inside && |m.buf| + n > cap)
    ensures var a := Plain(cap, m, q[..n]);
            var t := Turned(up, cap, m.inside, a.live, q[n..]);
            && (t.Stop? ==> Total(Onto(a.pieces, t.fed)) == HeldBy(m) + (q[..n] + q[n..]))
            && (t.Go? ==>
                  OriginalAll(a.pieces + t.fed.pieces) + HeldBy(t.fed.live) == HeldBy(m) + (q[..n] + q[n..][..t.used]))
  {
    var a := Plain(cap, m, q[..n]);
    PlainConserves(cap, m, q[..n]);
    assert a.live.inside == m.inside;
    TurnConserves(up, cap, a.live, q[n..]);
    Combine(a, Turned(up, cap, m.inside, a.live, q[n..]), HeldBy(m), q[..n], q[n..]);
  }

  lemma RoundStops(up: Uploads, cap: nat, m: Live, q: Bytes, n: nat)
    requires q != [] && n == IndexEsc(q, 0) < |q|
    requires Turned(up, cap, m.inside, Plain(cap, m, q[..n]).live, q[n..]).Stop?
    ensures var a := Plain(cap, m, q[..n]);
            Round(up, cap, m, q) == Stop(Onto(a.pieces, Turned(up, cap, m.inside, a.live, q[n..]).fed))
  {
  }

  lemma RoundGoes(up: Uploads, cap: nat, m: Live, q: Bytes, n: nat)
    requires q != [] && n == IndexEsc(q, 0) < |q|
    requires Turned(up, cap, m.inside, Plain(cap, m, q[..n]).live, q[n..]).Go?
    ensures var a := Plain(cap, m, q[..n]);
            var t := Turned(up, cap, m.inside, a.live, q[n..]);
            Round(up, cap, m, q) == Go(Onto(a.pieces, t.fed), n + t.used)
  {
  }

  lemma Combine(a: Fed, t: Turn, before: Bytes, s: Bytes, rest: Bytes)
    requires OriginalAll(a.pieces) + HeldBy(a.live) == before + s
    requires t.Stop? ==> Total(t.fed) == HeldBy(a.live) + rest
    requires t.Go? ==> t.used <= |rest|
    requires t.Go? ==> OriginalAll(t.fed.pieces) + HeldBy(t.fed.live) == HeldBy(a.live) + rest[..t.used]
    ensures t.Stop? ==> Total(Onto(a.pieces, t.fed)) == before + (s + rest)
    ensures t.Go? ==> OriginalAll(a.pieces + t.fed.pieces) + HeldBy(t.fed.live) == before + (s + rest[..t.used])
  {
    if t.Stop? {
      StopTotal(a.pieces, t.fed, HeldBy(a.live), before, s, rest);
    } else {
      GoTotal(a.pieces, t.fed, HeldBy(a.live), before, s, rest[..t.used]);
    }
  }

  lemma StopTotal(ps: seq<Piece>, f: Fed, held: Bytes, before: Bytes, s: Bytes, rest: Bytes)
    requires OriginalAll(ps) + held == before + s && Total(f) == held + rest
    ensures Total(Onto(ps, f)) == before + (s + rest)
  {
    OntoTotal(ps, f);
    Shift(OriginalAll(ps), held, before, s, rest);
  }

  lemma GoTotal(ps: seq<Piece>, f: Fed, held: Bytes, before: Bytes, s: Bytes, rest: Bytes)
    requires OriginalAll(ps) + held == before + s && OriginalAll(f.pieces) + HeldBy(f.live) == held + rest
    ensures OriginalAll(ps + f.pieces) + HeldBy(f.live) == before + (s + rest)
  {
    OriginalConcat(ps, f.pieces);
    Grouped(OriginalAll(ps), OriginalAll(f.pieces), HeldBy(f.live));
    Shift(OriginalAll(ps), held, before, s, rest);
  }

  lemma Shift(out: Bytes, held: Bytes, before: Bytes, s: Bytes, rest: Bytes)
    requires out + held == before + s
    ensures out + (held + rest) == before + (s + rest)
  {
    Grouped(out, held, rest);
    Grouped(before, s, rest);
  }

  lemma Cancel(out: Bytes, total: Bytes, held: Bytes, before: Bytes, s: Bytes, rest: Bytes)
    requires out + held == before + s
    ensures out + total == before + (s + rest) <==> total == held + rest
    ensures |out + total| >= |before + (s + rest)| <==> |total| >= |held + rest|
  {
    Shift(out, held, before, s, rest);
    if out + total == out + (held + rest) {
      assert total == (out + total)[|out|..] && held + rest == (out + (held + rest))[|out|..];
    }
  }

  /** A call conserves its bytes exactly if it has no anomaly. */
  lemma {:induction false} VerbatimIffNotAnomalous(up: Uploads, cap: nat, m: Live, q: Bytes)
    ensures Total(Chunk(up, cap, m, q)) == HeldBy(m) + q <==> !Anomalous(up, cap, m, q)
    decreases |q|
  {
    if q == [] {
      assert OriginalAll([]) + (HeldBy(m) + []) == HeldBy(m) + [];
    } else if Overflowing(cap, m, q) {
      OverflowShows(up, cap, m, q);
    } else {
      RoundConserves(up, cap, m, q);
      var t := Round(up, cap, m, q);
      if t.Go? {
        VerbatimIffNotAnomalous(up, cap, t.fed.live, q[t.used..]);
        RestOfCall(up, cap, m, q);
      }
    }
  }

  /** The rest of a call decides. */
  lemma RestOfCall(up: Uploads, cap: nat, m: Live, q: Bytes)
    requires q != [] && !Overflowing(cap, m, q) && Round(up, cap, m, q).Go?
    ensures var t := Round(up, cap, m, q);
            var whole, part := Total(Chunk(up, cap, m, q)), Total(Chunk(up, cap, t.fed.live, q[t.used..]));
            && (whole == HeldBy(m) + q <==> part == HeldBy(t.fed.live) + q[t.used..])
            && (|whole| >= |HeldBy(m) + q| <==> |part| >= |HeldBy(t.fed.live) + q[t.used..]|)
  {
    var t := Round(up, cap, m, q);
    var f := Chunk(up, cap, t.fed.live, q[t.used..]);
    RoundConserves(up, cap, m, q);
    OntoTotal(t.fed.pieces, f);
    CancelAt(OriginalAll(t.fed.pieces), Total(f), HeldBy(t.fed.live), HeldBy(m), q, t.used);
  }

  lemma CancelAt(out: Bytes, total: Bytes, held: Bytes, before: Bytes, q: Bytes, n: nat)
    requires n <= |q| && out + held == before + q[..n]
    ensures out + total == before + q <==> total == held + q[n..]
    ensures |out + total| >= |before + q| <==> |total| >= |held + q[n..]|
  {
    Cancel(out, total, held, before, q[..n], q[n..]);
    Halves(q, n);
  }

  /** After an overflow right before an ESC that does not end the call. */
  lemma OverflowShows(up: Uploads, cap: nat, m: Live, q: Bytes)
    requires q != [] && Overflowing(cap, m, q)
    ensures Total(Chunk(up, cap, m, q)) != HeldBy(m) + q
  {
    var n := IndexEsc(q, 0);
    OverflowThen(up, cap, m, q, n);
    if MatchPrefix(q[n..], END).Full? {
      ExtraMarkerShows(up, cap, m.count, q[n..]);
    } else if cap == 0 {
      ExtraBeginShows(up, m.count, q[n..]);
    } else {
      LostEscShows(up, cap, m.count, q[n..]);
    }
  }

  /** What goes out after the overflow, given what comes in after it. */
  function AfterOverflow(up: Uploads, cap: nat, count: nat, rest: Bytes): Bytes
    requires rest != [] && !MatchPrefix(rest, END).Partial?
  {
    var t := Turned(up, cap, true, Live(false, [], count), rest);
    OriginalAll(t.fed.pieces) + Total(Chunk(up, cap, t.fed.live, rest[t.used..]))
  }

  /** What went out up to the overflow is what came in. */
  lemma OverflowThen(up: Uploads, cap: nat, m: Live, q: Bytes, n: nat)
    requires q != [] && n == IndexEsc(q, 0) && Overflowing(cap, m, q)
    ensures Total(Chunk(up, cap, m, q)) == HeldBy(m) + q <==> AfterOverflow(up, cap, m.count, q[n..]) == q[n..]
    ensures |Total(Chunk(up, cap, m, q))| >= |HeldBy(m) + q| <==> |AfterOverflow(up, cap, m.count, q[n..])| >= |q[n..]|
  {
    var a := Plain(cap, m, q[..n]);
    OverflowSplits(up, cap, m, q, n);
    OverflowTotal(up, cap, m.count, a.pieces, q[n..]);
    PlainConserves(cap, m, q[..n]);
    Nothing(q[n..]);
    Cancel(OriginalAll(a.pieces), AfterOverflow(up, cap, m.count, q[n..]), [], HeldBy(m), q[..n], q[n..]);
    Halves(q, n);
  }

  lemma Nothing(b: Bytes)
    ensures [] + b == b
  {
  }

  lemma OverflowSplits(up: Uploads, cap: nat, m: Live, q: Bytes, n: nat)
    requires q != [] && n == IndexEsc(q, 0) && Overflowing(cap, m, q)
    ensures var a := Plain(cap, m, q[..n]);
            var t := Turned(up, cap, true, a.live, q[n..]);
            && a.live == Live(false, [], m.count)
            && Chunk(up, cap, m, q) == Onto(a.pieces + t.fed.pieces, Chunk(up, cap, t.fed.live, q[n..][t.used..]))
  {
    var t := Turned(up, cap, true, Plain(cap, m, q[..n]).live, q[n..]);
    assert q[n..][t.used..] == q[n + t.used..];
  }

  lemma OverflowTotal(up: Uploads, cap: nat, count: nat, ps: seq<Piece>, rest: Bytes)
    requires rest != [] && !MatchPrefix(rest, END).Partial?
    ensures var t := Turned(up, cap, true, Live(false, [], count), rest);
            Total(Onto(ps + t.fed.pieces, Chunk(up, cap, t.fed.live, rest[t.used..])))
              == OriginalAll(ps) + AfterOverflow(up, cap, count, rest)
  {
    var t := Turned(up, cap, true, Live(false, [], count), rest);
    var f := Chunk(up, cap, t.fed.live, rest[t.used..]);
    OntoTotal(ps + t.fed.pieces, f);
    OriginalConcat(ps, t.fed.pieces);
    Grouped(OriginalAll(ps), OriginalAll(t.fed.pieces), Total(f));
  }

  /** An end marker right after an overflow: a begin marker that nobody sent goes out before it. */
  lemma ExtraMarkerShows(up: Uploads, cap: nat, count: nat, rest: Bytes)
    requires rest != [] && MatchPrefix(rest, END).Full?
    ensures AfterOverflow(up, cap, count, rest) != rest
  {
    OriginalOne(Pasted([], up(count, [])));
    assert AfterOverflow(up, cap, count, rest)[4] == BEGIN[4];
    assert rest[4] == rest[..6][4] == END[4];
  }

  /** A lone ESC right after an overflow, with no room at all: another begin marker goes out before it. */
  lemma ExtraBeginShows(up: Uploads, count: nat, rest: Bytes)
    requires rest != [] && MatchPrefix(rest, END).NoMatch?
    ensures |AfterOverflow(up, 0, count, rest)| > |rest|
  {
    NothingLostWithoutRoom(up, Live(false, [], count), rest[1..]);
    OriginalRaws(BEGIN + [] + [ESC]);
  }

  /** A lone ESC right after an overflow, with room for it: it is kept where nothing will read it. */
  lemma LostEscShows(up: Uploads, cap: nat, count: nat, rest: Bytes)
    requires cap > 0 && rest != [] && rest[0] == ESC && MatchPrefix(rest, END).NoMatch?
    ensures AfterOverflow(up, cap, count, rest) != rest
  {
    var f := Chunk(up, cap, Live(false, [ESC], count), rest[1..]);
    IdleAddsNoEsc(up, cap, Live(false, [ESC], count), rest[1..]);
    assert [] + [ESC] == [ESC] && rest == [ESC] + rest[1..];
    assert [] + Total(f) == Total(f);
  }

  lemma {:induction false} NothingLostWithoutRoom(up: Uploads, m: Live, q: Bytes)
    ensures |Total(Chunk(up, 0, m, q))| >= |HeldBy(m) + q|
    decreases |q|, 2
  {
    if q == [] {
      assert OriginalAll([]) + (HeldBy(m) + []) == HeldBy(m) + [];
    } else if Overflowing(0, m, q) {
      OverflowKeeps(up, m, q);
    } else {
      RoundConserves(up, 0, m, q);
      var t := Round(up, 0, m, q);
      if t.Go? {
        NothingLostWithoutRoom(up, t.fed.live, q[t.used..]);
        RestOfCall(up, 0, m, q);
      }
    }
  }

  lemma {:induction false} OverflowKeeps(up: Uploads, m: Live, q: Bytes)
    requires q != [] && Overflowing(0, m, q)
    ensures |Total(Chunk(up, 0, m, q))| >= |HeldBy(m) + q|
    decreases |q|, 1
  {
    var n := IndexEsc(q, 0);
    OverflowThen(up, 0, m, q, n);
    AfterOverflowKeeps(up, m.count, q[n..]);
  }

  lemma {:induction false} AfterOverflowKeeps(up: Uploads, count: nat, rest: Bytes)
    requires rest != [] && !MatchPrefix(rest, END).Partial?
    ensures |AfterOverflow(up, 0, count, rest)| >= |rest|
    decreases |rest|, 0
  {
    if MatchPrefix(rest, END).Full? {
      NothingLostWithoutRoom(up, Live(false, [], count + 1), rest[6..]);
      ExtraMarkerLength(up, count, rest);
    } else {
      NothingLostWithoutRoom(up, Live(false, [], count), rest[1..]);
      ExtraBeginLength(up, count, rest);
    }
  }

  lemma ExtraMarkerLength(up: Uploads, count: nat, rest: Bytes)
    requires rest != [] && MatchPrefix(rest, END).Full?
    ensures |AfterOverflow(up, 0, count, rest)| == 12 + |Total(Chunk(up, 0, Live(false, [], count + 1), rest[6..]))|
  {
    MarkersOnly(Pasted([], up(count, [])));
    AfterMarker(up, 0, count, rest);
  }

  lemma AfterMarker(up: Uploads, cap: nat, count: nat, rest: Bytes)
    requires rest != [] && MatchPrefix(rest, END).Full?
    ensures AfterOverflow(up, cap, count, rest) ==
            OriginalAll([Pasted([], up(count, []))]) + Total(Chunk(up, cap, Live(false, [], count + 1), rest[6..]))
  {
    var t := Turned(up, cap, true, Live(false, [], count), rest);
    assert t == Go(Fed(Live(false, [], count + 1), [], [Pasted([], up(count, []))]), 6);
  }

  lemma MarkersOnly(p: Piece)
    requires p.Pasted? && p.body == []
    ensures |OriginalAll([p])| == 12 && BEGIN <= OriginalAll([p])
  {
    OriginalOne(p);
  }

  lemma ExtraBeginLength(up: Uploads, count: nat, rest: Bytes)
    requires rest != [] && MatchPrefix(rest, END).NoMatch?
    ensures |AfterOverflow(up, 0, count, rest)| == 7 + |Total(Chunk(up, 0, Live(false, [], count), rest[1..]))|
  {
    OriginalRaws(BEGIN + [] + [ESC]);
  }

  /** Outside a paste no call makes up for a lost ESC. */
  lemma {:induction false} IdleAddsNoEsc(up: Uploads, cap: nat, m: Live, r: Bytes)
    requires !m.inside
    ensures Total(Chunk(up, cap, m, r)) != [ESC] + r
    decreases |r|
  {
    if r != [] {
      var n := IndexEsc(r, 0);
      if n > 0 {
        PlainComesFirst(up, cap, m, r, n);
      } else {
        IdleAtEsc(up, cap, m, r);
      }
    }
  }

  lemma PlainComesFirst(up: Uploads, cap: nat, m: Live, r: Bytes, n: nat)
    requires !m.inside && r != [] && n == IndexEsc(r, 0) > 0
    ensures Total(Chunk(up, cap, m, r)) != [] && Total(Chunk(up, cap, m, r))[0] == r[0]
  {
    var t := Round(up, cap, m, r);
    var f := if t.Stop? then Fed(t.fed.live, t.fed.boundary, []) else Chunk(up, cap, t.fed.live, r[t.used..]);
    assert t.fed.pieces + [] == t.fed.pieces;
    assert Chunk(up, cap, m, r) == Onto(t.fed.pieces, f);
    OntoTotal(t.fed.pieces, f);
    RoundBeginsPlain(up, cap, m, r, n);
  }

  lemma RoundBeginsPlain(up: Uploads, cap: nat, m: Live, r: Bytes, n: nat)
    requires !m.inside && r != [] && n == IndexEsc(r, 0) > 0
    ensures r[..n] <= OriginalAll(Round(up, cap, m, r).fed.pieces)
  {
    OriginalRaws(r[..n]);
    if n < |r| {
      OriginalConcat(Raws(r[..n]), Turned(up, cap, false, m, r[n..]).fed.pieces);
    }
  }

  lemma {:induction false} IdleAtEsc(up: Uploads, cap: nat, m: Live, r: Bytes)
    requires !m.inside && r != [] && r[0] == ESC
    ensures Total(Chunk(up, cap, m, r)) != [ESC] + r
    decreases |r|, 1
  {
    var t := Turned(up, cap, false, m, r);
    RoundAtEsc(up, cap, m, r);
    match MatchPrefix(r, BEGIN)
    case Partial =>
      assert |Total(t.fed)| == |r|;
    case Full =>
      var f := Chunk(up, cap, t.fed.live, r[6..]);
      InsideBegins(up, cap, t.fed.live, r[6..]);
      OntoTotal([], f);
      SecondByte(Total(Chunk(up, cap, m, r)), r);
    case NoMatch =>
      IdleAtEscape(up, cap, m, r);
  }

  lemma RoundAtEsc(up: Uploads, cap: nat, m: Live, r: Bytes)
    requires !m.inside && r != [] && r[0] == ESC
    ensures Round(up, cap, m, r) == Turned(up, cap, false, m, r)
  {
    assert IndexEsc(r, 0) == 0 && r[0..] == r && Raws(r[..0]) == [];
    var t := Turned(up, cap, false, m, r);
    assert [] + t.fed.pieces == t.fed.pieces;
  }

  lemma SecondByte(total: Bytes, r: Bytes)
    requires r != [] && r[0] == ESC && BEGIN <= total
    ensures total != [ESC] + r
  {
    assert total[1] == BEGIN[1];
    assert ([ESC] + r)[1] == ESC;
  }

  lemma {:induction false} IdleAtEscape(up: Uploads, cap: nat, m: Live, r: Bytes)
    requires !m.inside && r != [] && r[0] == ESC && MatchPrefix(r, BEGIN).NoMatch?
    ensures Total(Chunk(up, cap, m, r)) != [ESC] + r
    decreases |r|, 0
  {
    var j := IndexEsc(r, 1);
    var rest := Total(Chunk(up, cap, m, r[j..]));
    TotalAtEscape(up, cap, m, r, j);
    if j == 1 {
      IdleAddsNoEsc(up, cap, m, r[1..]);
      assert r == [ESC] + r[1..] && r[..1] == [ESC];
      SameTail(rest, r);
    } else {
      SecondDiffers(r, r[..j], rest);
    }
  }

  lemma TotalAtEscape(up: Uploads, cap: nat, m: Live, r: Bytes, j: nat)
    requires !m.inside && r != [] && r[0] == ESC && MatchPrefix(r, BEGIN).NoMatch? && j == IndexEsc(r, 1)
    ensures Total(Chunk(up, cap, m, r)) == r[..j] + Total(Chunk(up, cap, m, r[j..]))
  {
    RoundAtEsc(up, cap, m, r);
    OntoTotal(Raws(r[..j]), Chunk(up, cap, m, r[j..]));
    OriginalRaws(r[..j]);
  }

  lemma SecondDiffers(r: Bytes, head: Bytes, tail: Bytes)
    requires |r| >= 2 && r[0] == ESC != r[1] && 2 <= |head| <= |r| && head == r[..|head|]
    ensures head + tail != [ESC] + r
  {
    assert (head + tail)[1] == r[1] && ([ESC] + r)[1] == r[0];
  }

  lemma SameTail(a: Bytes, b: Bytes)
    ensures [ESC] + a == [ESC] + b <==> a == b
  {
    assert ([ESC] + a)[1..] == a && ([ESC] + b)[1..] == b;
  }

  /** Inside a paste, whatever becomes of it, its begin marker comes first. */
  lemma {:induction false} InsideBegins(up: Uploads, cap: nat, m: Live, q: Bytes)
    requires m.inside
    ensures BEGIN <= Total(Chunk(up, cap, m, q))
    decreases |q|
  {
    if q != [] {
      var t := Round(up, cap, m, q);
      RoundInsideBegins(up, cap, m, q);
      if t.Go? {
        var f := Chunk(up, cap, t.fed.live, q[t.used..]);
        OntoTotal(t.fed.pieces, f);
        if t.fed.pieces == [] {
          InsideBegins(up, cap, t.fed.live, q[t.used..]);
        }
      }
    }
  }

  lemma RoundInsideBegins(up: Uploads, cap: nat, m: Live, q: Bytes)
    requires m.inside && q != []
    ensures var t := Round(up, cap, m, q);
            && (t.Stop? ==> BEGIN <= Total(t.fed))
            && (t.Go? ==> if t.fed.pieces == [] then t.fed.live.inside else BEGIN <= OriginalAll(t.fed.pieces))
  {
    var n := IndexEsc(q, 0);
    var a := Plain(cap, m, q[..n]);
    GatherBegins(cap, m, q[..n]);
    if n < |q| {
      var t := Turned(up, cap, true, a.live, q[n..]);
      OriginalConcat(a.pieces, t.fed.pieces);
      OriginalOne(Pasted(a.live.buf, up(a.live.count, a.live.buf)));
      GatherBegins(cap, a.live, [ESC]);
      if t.Stop? {
        OntoTotal(a.pieces, t.fed);
      }
    }
  }

  lemma GatherBegins(cap: nat, m: Live, b: Bytes)
    ensures var a := Gather(cap, m, b);
            if a.pieces == [] then a.live.inside == m.inside else BEGIN <= OriginalAll(a.pieces)
  {
    OriginalRaws(BEGIN + m.buf + b);
  }

  // ---- call after call --------------------------------------------------------------------

  /** A stream in chunks. */
  function Stream(up: Uploads, cap: nat, chunks: seq<Bytes>): Fed {
    if chunks == [] then Fed(Live(false, [], 0), [], [])
    else
      var s := Stream(up, cap, chunks[..|chunks| - 1]);
      Onto(s.pieces, Chunk(up, cap, s.live, s.boundary + chunks[|chunks| - 1]))
  }

  /** No call has an anomaly. */
  predicate CleanStream(up: Uploads, cap: nat, chunks: seq<Bytes>) {
    chunks != [] ==>
      var s := Stream(up, cap, chunks[..|chunks| - 1]);
      CleanStream(up, cap, chunks[..|chunks| - 1]) && !Anomalous(up, cap, s.live, s.boundary + chunks[|chunks| - 1])
  }

  /** A clean stream loses, adds and reorders nothing, pastes beyond the cap included. */
  lemma {:induction false} CleanStreamConserves(up: Uploads, cap: nat, chunks: seq<Bytes>)
    requires CleanStream(up, cap, chunks)
    ensures Total(Stream(up, cap, chunks)) == Flatten(chunks)
    decreases |chunks|
  {
    if chunks != [] {
      var n := |chunks| - 1;
      var s := Stream(up, cap, chunks[..n]);
      CleanStreamConserves(up, cap, chunks[..n]);
      VerbatimIffNotAnomalous(up, cap, s.live, s.boundary + chunks[n]);
      OntoTotal(s.pieces, Chunk(up, cap, s.live, s.boundary + chunks[n]));
      Grouped(HeldBy(s.live), s.boundary, chunks[n]);
      Grouped(OriginalAll(s.pieces), HeldBy(s.live) + s.boundary, chunks[n]);
    }
  }

  /** A call on a regular state, within the cap, is the reference on the chunk. */
  lemma CallIsRun(up: Uploads, cap: nat, m: Mode, boundary: Bytes, p: Bytes)
    requires Proper(m) && boundary <= Marker(m.inside) && m.k == |boundary| && Fits(up, cap, m, p)
    ensures var f := Chunk(up, cap, LiveOf(m), boundary + p);
            && Regular(f) && Run(up, m, p) == Result(ModeOf(f), f.pieces)
            && !Anomalous(up, cap, LiveOf(m), boundary + p)
  {
    BoundaryAhead(up, cap, m, boundary, [], p);
    ChunkIsRun(up, cap, m.(k := 0), boundary + p);
    NothingAfter(Run(up, m, p));
    NothingAfter(Run(up, m.(k := 0), boundary + p));
  }

  /** Within the cap a stream is what the reference makes of the bytes in one piece, and clean. */
  lemma {:induction false} StreamIsRun(up: Uploads, cap: nat, chunks: seq<Bytes>)
    requires Fits(up, cap, Idle(0), Flatten(chunks))
    ensures var s := Stream(up, cap, chunks);
            && Regular(s) && Run(up, Idle(0), Flatten(chunks)) == Result(ModeOf(s), s.pieces)
            && CleanStream(up, cap, chunks)
    decreases |chunks|
  {
    if chunks != [] {
      var n := |chunks| - 1;
      assert chunks[..n + 1] == chunks;
      StreamStep(up, cap, chunks, n);
      FitsPrefix(up, cap, Idle(0), chunks, n);
      StreamIsRun(up, cap, chunks[..n]);
      var s := Stream(up, cap, chunks[..n]);
      CallIsRun(up, cap, ModeOf(s), s.boundary, chunks[n]);
    }
  }

  // ---- without uploads --------------------------------------------------------------------

  predicate AsItCame(ps: seq<Piece>) {
    forall p :: p in ps && p.Pasted? ==> p.uploaded.None?
  }

  lemma {:induction false} ChunkAsItCame(up: Uploads, cap: nat, m: Live, q: Bytes)
    requires forall n, b :: up(n, b) == None
    ensures AsItCame(Chunk(up, cap, m, q).pieces)
    decreases |q|
  {
    if q != [] {
      var t := Round(up, cap, m, q);
      RoundAsItCame(up, cap, m, q);
      if t.Go? {
        ChunkAsItCame(up, cap, t.fed.live, q[t.used..]);
        Together(t.fed.pieces, Chunk(up, cap, t.fed.live, q[t.used..]).pieces);
      }
    }
  }

  lemma Together(a: seq<Piece>, b: seq<Piece>)
    requires AsItCame(a) && AsItCame(b)
    ensures AsItCame(a + b)
  {
  }

  lemma RoundAsItCame(up: Uploads, cap: nat, m: Live, q: Bytes)
    requires q != [] && forall n, b :: up(n, b) == None
    ensures AsItCame(Round(up, cap, m, q).fed.pieces)
  {
    var n := IndexEsc(q, 0);
    var a := Plain(cap, m, q[..n]);
    if n < |q| {
      Together(a.pieces, Turned(up, cap, m.inside, a.live, q[n..]).fed.pieces);
    }
  }

  lemma {:induction false} StreamAsItCame(up: Uploads, cap: nat, chunks: seq<Bytes>)
    requires forall n, b :: up(n, b) == None
    ensures AsItCame(Stream(up, cap, chunks).pieces)
    decreases |chunks|
  {
    if chunks != [] {
      var n := |chunks| - 1;
      var s := Stream(up, cap, chunks[..n]);
      StreamAsItCame(up, cap, chunks[..n]);
      ChunkAsItCame(up, cap, s.live, s.boundary + chunks[n]);
      Together(s.pieces, Chunk(up, cap, s.live, s.boundary + chunks[n]).pieces);
    }
  }

  /** A clean stream in which nothing is uploaded is shown as it came. */
  lemma CleanStreamIsShown(up: Uploads, cap: nat, chunks: seq<Bytes>)
    requires CleanStream(up, cap, chunks) && forall n, b :: up(n, b) == None
    ensures var s := Stream(up, cap, chunks);
            ShownAll(s.pieces) + (HeldBy(s.live) + s.boundary) == Flatten(chunks)
  {
    StreamAsItCame(up, cap, chunks);
    ShownIsOriginal(Stream(up, cap, chunks).pieces);
    CleanStreamConserves(up, cap, chunks);
  }

  // ---- at the end of the input ------------------------------------------------------------

  /** What is forwarded of the bytes held back: the beginning of a marker first, and of an open paste
      only one that has a body. */
  function Flushed(f: Fed): Bytes {
    f.boundary + OpenBody(f.live)
  }

  function OpenBody(m: Live): Bytes {
    if m.inside && m.buf != [] then BEGIN + m.buf else []
  }

  /** Inside a paste only an end marker is waited for. */
  predicate AwaitsEnd(f: Fed) {
    f.live.inside ==> f.boundary <= END && |f.boundary| < 6
  }

  lemma {:induction false} ChunkAwaitsEnd(up: Uploads, cap: nat, m: Live, q: Bytes)
    ensures AwaitsEnd(Chunk(up, cap, m, q))
    decreases |q|
  {
    if q != [] {
      RoundAwaitsEnd(up, cap, m, q);
      var t := Round(up, cap, m, q);
      if t.Go? {
        ChunkAwaitsEnd(up, cap, t.fed.live, q[t.used..]);
      }
    }
  }

  lemma RoundAwaitsEnd(up: Uploads, cap: nat, m: Live, q: Bytes)
    requires q != []
    ensures Round(up, cap, m, q).Stop? ==> AwaitsEnd(Round(up, cap, m, q).fed)
  {
    var n := IndexEsc(q, 0);
    if n < |q| {
      MatchPrefixTells(q[n..], Marker(m.inside));
    }
  }

  /** What is left goes out as it came, exactly if no paste is open, or an open one has a body and no end
      marker has begun. */
  lemma FlushIsVerbatimIff(f: Fed)
    requires AwaitsEnd(f)
    ensures Flushed(f) == HeldBy(f.live) + f.boundary <==>
            !f.live.inside || (f.live.buf != [] && f.boundary == [])
  {
    var k := |f.boundary|;
    if f.live.inside && f.live.buf == [] {
      assert |HeldBy(f.live) + f.boundary| == 6 + k != |Flushed(f)|;
    } else if f.live.inside {
      var asItCame := HeldBy(f.live) + f.boundary;
      assert Flushed(f) == f.boundary + HeldBy(f.live);
      if k == 5 {
        assert Flushed(f)[4] == END[4] != BEGIN[4] == asItCame[4];
      } else if k > 0 {
        assert Flushed(f)[k] == BEGIN[0] != BEGIN[k] == asItCame[k];
      }
    }
  }

  lemma StreamAwaitsEnd(up: Uploads, cap: nat, chunks: seq<Bytes>)
    ensures AwaitsEnd(Stream(up, cap, chunks))
  {
    if chunks != [] {
      var s := Stream(up, cap, chunks[..|chunks| - 1]);
      ChunkAwaitsEnd(up, cap, s.live, s.boundary + chunks[|chunks| - 1]);
    }
  }

  /** A clean stream has gone out as it came, once its end is flushed, exactly under that condition. */
  lemma FlushedStreamIff(up: Uploads, cap: nat, chunks: seq<Bytes>)
    requires CleanStream(up, cap, chunks)
    ensures var s := Stream(up, cap, chunks);
            OriginalAll(s.pieces + Raws(s.boundary) + Raws(OpenBody(s.live))) == Flatten(chunks) <==>
            !s.live.inside || (s.live.buf != [] && s.boundary == [])
  {
    var s := Stream(up, cap, chunks);
    StreamAwaitsEnd(up, cap, chunks);
    FlushIsVerbatimIff(s);
    CleanStreamConserves(up, cap, chunks);
    RawsAdd(s.pieces, s.boundary);
    RawsAdd(s.pieces + Raws(s.boundary), OpenBody(s.live));
    Grouped(OriginalAll(s.pieces), s.boundary, OpenBody(s.live));
    SameTails(OriginalAll(s.pieces), Flushed(s), HeldBy(s.live) + s.boundary);
  }

  lemma RawsAdd(ps: seq<Piece>, b: Bytes)
    ensures OriginalAll(ps + Raws(b)) == OriginalAll(ps) + b
  {
    OriginalConcat(ps, Raws(b));
    OriginalRaws(b);
  }

  lemma SameTails(a: Bytes, b: Bytes, c: Bytes)
    ensures a + b == a + c <==> b == c
  {
    if a + b == a + c {
      assert b == (a + b)[|a|..] == (a + c)[|a|..] == c;
    }
  }

  /** A paste cut off behind an ESC: the ESC goes out first. */
  lemma EscGoesOutFirst(up: Uploads, cap: nat)
    requires cap > 0
    ensures var f := Chunk(up, cap, Live(false, [], 0), BEGIN + [97, ESC]);
            f.pieces == [] && Flushed(f) == [ESC] + BEGIN + [97]
  {
    var q := BEGIN + [97, ESC];
    var rest := [97, ESC];
    assert q[6..] == rest;
    OpensPaste(up, cap, q);
    assert IndexEsc(rest, 1) == 1 && rest[..1] == [97] && rest[1..] == [ESC];
    RoundStops(up, cap, Live(true, [], 0), rest, 1);
    assert [] + [97] == [97];
  }

  // ---- two inputs that go wrong -----------------------------------------------------------

  /** With room for one byte: a paste of two in one call gets a second begin marker. */
  lemma SecondBeginGoesOut(up: Uploads)
    requires up(0, []) == None
    ensures ShownAll(Chunk(up, 1, Live(false, [], 0), BEGIN + [97, 98] + END).pieces) == BEGIN + [97, 98] + BEGIN + END
  {
    var q := BEGIN + [97, 98] + END;
    assert q[6..] == [97, 98] + END;
    OpensPaste(up, 1, q);
    ClosesOverflowed(up, q[6..]);
    ShownOfTwo();
  }

  lemma ShownOfTwo()
    ensures ShownAll(Raws(BEGIN + [] + [97, 98]) + [Pasted([], None)]) == BEGIN + [97, 98] + BEGIN + END
  {
    ShownConcat(Raws(BEGIN + [] + [97, 98]), [Pasted([], None)]);
    ShownRaws(BEGIN + [] + [97, 98]);
    ShownOne(Pasted([], None));
    assert BEGIN + [] + [97, 98] + (BEGIN + [] + END) == BEGIN + [97, 98] + BEGIN + END;
  }

  lemma OpensPaste(up: Uploads, cap: nat, q: Bytes)
    requires BEGIN <= q
    ensures Chunk(up, cap, Live(false, [], 0), q) == Chunk(up, cap, Live(true, [], 0), q[6..])
  {
    assert q[0] == BEGIN[0] == ESC && q[..6] == BEGIN;
    RoundAtEsc(up, cap, Live(false, [], 0), q);
    OntoOnto([], [], Chunk(up, cap, Live(true, [], 0), q[6..]));
  }

  lemma EscAtTwo(rest: Bytes)
    requires |rest| > 2 && rest[0] == 97 && rest[1] == 98 && rest[2] == ESC
    ensures IndexEsc(rest, 0) == 2 && rest[..2] == [97, 98]
  {
    assert IndexEsc(rest, 1) == IndexEsc(rest, 2) == 2;
  }

  lemma ClosesOverflowed(up: Uploads, rest: Bytes)
    requires rest == [97, 98] + END && up(0, []) == None
    ensures Chunk(up, 1, Live(true, [], 0), rest).pieces == Raws(BEGIN + [] + [97, 98]) + [Pasted([], None)]
  {
    EscAtTwo(rest);
    assert rest[2..] == END && rest[8..] == [];
    RoundGoes(up, 1, Live(true, [], 0), rest, 2);
    var ps := Raws(BEGIN + [] + [97, 98]) + [Pasted([], None)];
    assert ps + [] == ps;
  }

  /** And an ESC after such a paste is lost. */
  lemma EscIsLost(up: Uploads)
    ensures Total(Chunk(up, 1, Live(false, [], 0), BEGIN + [97, 98, ESC, 99])) == BEGIN + [97, 98, 99]
  {
    var q := BEGIN + [97, 98, ESC, 99];
    assert q[6..] == [97, 98, ESC, 99];
    OpensPaste(up, 1, q);
    KeepsEsc(up, q[6..]);
    TotalOfLost();
  }

  lemma KeepsEsc(up: Uploads, rest: Bytes)
    requires rest == [97, 98, ESC, 99]
    ensures Chunk(up, 1, Live(true, [], 0), rest) ==
            Onto(Raws(BEGIN + [] + [97, 98]) + [], Fed(Live(false, [ESC], 0), [], Raws([99])))
  {
    EscAtTwo(rest);
    assert rest[2..] == [ESC, 99] && rest[3..] == [99];
    MatchPrefixTells([ESC, 99], END);
    assert END[..2][1] == END[1] != [ESC, 99][1];
    RoundGoes(up, 1, Live(true, [], 0), rest, 2);
    assert [] + [ESC] == [ESC];
    LastByte(up, Live(false, [ESC], 0));
  }

  lemma LastByte(up: Uploads, m: Live)
    requires !m.inside
    ensures Chunk(up, 1, m, [99]) == Fed(m, [], Raws([99]))
  {
    assert IndexEsc([99], 0) == 1 && [99][..1] == [99];
    RoundEnds(up, 1, m, [99]);
  }

  lemma TotalOfLost()
    ensures Total(Onto(Raws(BEGIN + [] + [97, 98]) + [], Fed(Live(false, [ESC], 0), [], Raws([99]))))
         == BEGIN + [97, 98, 99]
  {
    var before := Raws(BEGIN + [] + [97, 98]);
    assert before + [] == before;
    OntoTotal(before, Fed(Live(false, [ESC], 0), [], Raws([99])));
    OriginalRaws(BEGIN + [] + [97, 98]);
    OriginalRaws([99]);
    assert BEGIN + [] + [97, 98] + ([99] + ([] + [])) == BEGIN + [97, 98, 99];
  }

  // ---- round by round ---------------------------------------------------------------------

  /** Where a round gets to, given where the bytes before its ESC got and what the ESC led to. */
  lemma RoundReached(up: Uploads, cap: nat, m: Live, ps: seq<Piece>, rest: Bytes, n: nat, before: Fed, t: Turn)
    requires rest != [] && n == IndexEsc(rest, 0) < |rest| && before == Onto(ps, Plain(cap, m, rest[..n]))
    requires t == Turned(up, cap, m.inside, before.live, rest[n..])
    ensures var r := Round(up, cap, m, rest);
            Onto(before.pieces, t.fed) == Onto(ps, r.fed) && t.Stop? == r.Stop? && (t.Go? ==> r.used == n + t.used)
  {
    var a := Plain(cap, m, rest[..n]);
    OntoOnto(ps, a.pieces, t.fed);
    if t.Stop? {
      RoundStops(up, cap, m, rest, n);
    } else {
      RoundGoes(up, cap, m, rest, n);
    }
  }

  lemma RoundThenRest(up: Uploads, cap: nat, m: Live, ps: seq<Piece>, q: Bytes, i: nat, r: Turn)
    requires i < |q| && r == Round(up, cap, m, q[i..])
    ensures r.Stop? ==> Onto(ps, Chunk(up, cap, m, q[i..])) == Onto(ps, r.fed)
    ensures r.Go? ==>
      Onto(ps, Chunk(up, cap, m, q[i..])) == Onto(ps + r.fed.pieces, Chunk(up, cap, r.fed.live, q[i + r.used..]))
  {
    if r.Go? {
      assert q[i..][r.used..] == q[i + r.used..];
      OntoOnto(ps, r.fed.pieces, Chunk(up, cap, r.fed.live, q[i + r.used..]));
    }
  }

  lemma {:induction false} IndexEscOfRest(q: Bytes, i: nat, k: nat)
    requires i + k <= |q|
    ensures IndexEsc(q, i + k) == i + IndexEsc(q[i..], k)
    decreases |q| - k
  {
    if i + k < |q| && q[i + k] != ESC {
      IndexEscOfRest(q, i, k + 1);
    }
  }
}
