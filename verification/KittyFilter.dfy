/** The terminal escape filter (cmd/kari/kitty_filter.go): a byte transducer, proved to be
    "split into tokens, drop two kinds, print the rest" under every chunking. */
module KittyFilter {
  import opened ByteSeq

  const ESC: Byte := 0x1b
  const BEL: Byte := 0x07

  datatype State = Normal | AfterESC | AfterCSI | InKittyCSI
    | AfterOSC | InOSCNum | InOSCDrop | InOSCKeep | OSCEsc | OSCKeepEsc

  datatype Conf = Conf(state: State, buf: Bytes)

  datatype Result = Result(conf: Conf, out: Bytes)

  const START := Conf(Normal, [])

  predicate Digit(b: Byte) {
    '0' as int <= b <= '9' as int
  }

  predicate Introducer(b: Byte) {
    b in {'?' as int, '>' as int, '<' as int, '=' as int}
  }

  predicate KittyParam(b: Byte) {
    Digit(b) || b == ';' as int || b == ':' as int
  }

  /** What a signed 64-bit integer holds after wrapping around. */
  function Wrap64(n: int): int {
    (n + 0x8000_0000_0000_0000) % 0x1_0000_0000_0000_0000 - 0x8000_0000_0000_0000
  }

  /** parseLeadingNumber over digits, in the machine's integers. */
  function LeadingNumber(digits: Bytes): int {
    if digits == [] then 0
    else Wrap64(Wrap64(10 * LeadingNumber(digits[..|digits| - 1])) + digits[|digits| - 1] - '0' as int)
  }

  predicate ColourQuery(digits: Bytes) {
    var n := LeadingNumber(digits);
    n == 10 || n == 11
  }

  /** One byte: the next configuration and what is let through. */
  function Step(c: Conf, b: Byte): Result {
    match c.state
    case Normal =>
      if b == ESC then Result(Conf(AfterESC, [b]), []) else Result(c, [b])
    case AfterESC =>
      if b == '[' as int then Result(Conf(AfterCSI, c.buf + [b]), [])
      else if b == ']' as int then Result(Conf(AfterOSC, c.buf + [b]), [])
      else Result(START, c.buf + [b])
    case AfterCSI =>
      if Introducer(b) then Result(Conf(InKittyCSI, c.buf + [b]), []) else Result(START, c.buf + [b])
    case InKittyCSI =>
      if KittyParam(b) then Result(Conf(InKittyCSI, c.buf + [b]), [])
      else if b == 'u' as int then Result(START, [])
      else Result(START, c.buf + [b])
    case AfterOSC =>
      if Digit(b) then Result(Conf(InOSCNum, c.buf + [b]), []) else Result(START, c.buf + [b])
    case InOSCNum =>
      if Digit(b) then Result(Conf(InOSCNum, c.buf + [b]), [])
      else if b == ';' as int then
        if ColourQuery(if |c.buf| >= 2 then c.buf[2..] else []) then Result(Conf(InOSCDrop, c.buf + [b]), [])
        else Result(Conf(InOSCKeep, []), c.buf + [b])
      else Result(START, c.buf + [b])
    case InOSCDrop =>
      if b == BEL then Result(START, [])
      else if b == ESC then Result(Conf(OSCEsc, c.buf), [])
      else Result(c, [])
    case OSCEsc =>
      if b == '\\' as int then Result(START, [])
      else if b == '[' as int then Result(Conf(AfterCSI, [ESC, b]), [])
      else if b == ']' as int then Result(Conf(AfterOSC, [ESC, b]), [])
      else Result(START, [ESC, b])
    case InOSCKeep =>
      if b == BEL then Result(START, [b])
      else if b == ESC then Result(Conf(OSCKeepEsc, c.buf), [])
      else Result(c, [b])
    case OSCKeepEsc =>
      if b == '\\' as int then Result(START, [ESC, b])
      else if b == ESC then Result(Conf(AfterESC, [b]), [ESC])
      else Result(Conf(InOSCKeep, c.buf), [ESC, b])
  }

  function Scan(c: Conf, input: Bytes): Result
    decreases |input|
  {
    if input == [] then Result(c, [])
    else
      var first := Step(c, input[0]);
      var rest := Scan(first.conf, input[1..]);
      Result(rest.conf, first.out + rest.out)
  }

  lemma {:induction false} ScanConcat(c: Conf, p: Bytes, q: Bytes)
    ensures Scan(c, p + q) == Result(Scan(Scan(c, p).conf, q).conf, Scan(c, p).out + Scan(Scan(c, p).conf, q).out)
    decreases |p|
  {
    if p == [] {
      assert p + q == q;
      assert [] + Scan(c, q).out == Scan(c, q).out;
    } else {
      var first := Step(c, p[0]);
      assert (p + q)[0] == p[0] && (p + q)[1..] == p[1..] + q;
      ScanConcat(first.conf, p[1..], q);
      var r1 := Scan(first.conf, p[1..]);
      var r2 := Scan(r1.conf, q);
      assert first.out + (r1.out + r2.out) == (first.out + r1.out) + r2.out;
    }
  }

  class KittyKeyboardFilter {
    var state: State
    var buf: Bytes

    constructor ()
      ensures Current() == START
    {
      state, buf := Normal, [];
    }

    function Current(): Conf
      reads this
    {
      Conf(state, buf)
    }

    method Filter(input: Bytes) returns (out: Bytes)
      modifies this
      ensures Result(Current(), out) == Scan(old(Current()), input)
    {
      out := [];
      for i := 0 to |input|
        invariant Result(Current(), out) == Scan(old(Current()), input[..i])
      {
        assert input[..i + 1] == input[..i] + [input[i]];
        ScanConcat(old(Current()), input[..i], [input[i]]);
        ScanOne(Current(), input[i]);
        var r := Step(Conf(state, buf), input[i]);
        state, buf, out := r.conf.state, r.conf.buf, out + r.out;
      }
      assert input[..|input|] == input;
    }

    /** A whole stream in any number of pieces, cut anywhere, even inside an escape. */
    method FilterStream(chunks: seq<Bytes>, ghost tokens: seq<Token>) returns (out: Bytes)
      requires Current() == START
      requires Flatten(chunks) == PrintAll(tokens) && forall t :: t in tokens ==> WellFormed(t)
      modifies this
      ensures out == PrintAll(Kept(tokens))
      ensures Current() == START
    {
      out := [];
      for i := 0 to |chunks|
        invariant Result(Current(), out) == Scan(START, Flatten(chunks[..i]))
      {
        ScanChunk(chunks, i);
        var passed := Filter(chunks[i]);
        out := out + passed;
      }
      assert chunks[..|chunks|] == chunks;
      FilterPrintsKeptTokens(tokens);
    }
  }

  lemma ScanChunk(chunks: seq<Bytes>, i: nat)
    requires i < |chunks|
    ensures var before := Scan(START, Flatten(chunks[..i]));
            var r := Scan(before.conf, chunks[i]);
            Scan(START, Flatten(chunks[..i + 1])) == Result(r.conf, before.out + r.out)
  {
    assert chunks[..i + 1] == chunks[..i] + [chunks[i]];
    FlattenSnoc(chunks[..i], chunks[i]);
    ScanConcat(START, Flatten(chunks[..i]), chunks[i]);
  }

  lemma ScanOne(c: Conf, b: Byte)
    ensures Scan(c, [b]) == Step(c, b)
  {
    assert [b][1..] == [] && Scan(Step(c, b).conf, []) == Result(Step(c, b).conf, []);
    assert Step(c, b).out + [] == Step(c, b).out;
  }

  // ---- tokens -----------------------------------------------------------------------------

  /** A byte of text, a two-byte escape, a control sequence (ECMA-48 section 5.4) or an operating
      system command (a control string of section 5.6, ended by ESC \ or, as xterm allows, BEL).
      Other control strings are an escape, text and an escape. */
  datatype Token =
    | Text(b: Byte)
    | Escape(b: Byte)
    | Csi(params: Bytes, intermediates: Bytes, final: Byte)
    | Osc(payload: Bytes, bel: bool)

  predicate WellFormed(t: Token) {
    match t
    case Text(b) => b != ESC
    case Escape(b) => b !in {'[' as int, ']' as int}
    case Csi(params, intermediates, final) =>
      && (forall b :: b in params ==> 0x30 <= b <= 0x3f)
      && (forall b :: b in intermediates ==> 0x20 <= b <= 0x2f)
      && 0x40 <= final <= 0x7e
    case Osc(payload, _) => ESC !in payload && BEL !in payload
  }

  function Terminator(bel: bool): Bytes {
    if bel then [BEL] else [ESC, '\\' as int]
  }

  function Print(t: Token): Bytes {
    match t
    case Text(b) => [b]
    case Escape(b) => [ESC, b]
    case Csi(params, intermediates, final) => [ESC, '[' as int] + params + intermediates + [final]
    case Osc(payload, bel) => [ESC, ']' as int] + payload + Terminator(bel)
  }

  function PrintAll(tokens: seq<Token>): Bytes {
    if tokens == [] then [] else Print(tokens[0]) + PrintAll(tokens[1..])
  }

  /** The decimal number the digits spell. */
  function Value(digits: Bytes): int {
    if digits == [] then 0 else 10 * Value(digits[..|digits| - 1]) + digits[|digits| - 1] - '0' as int
  }

  function DigitsOf(payload: Bytes): Bytes {
    if payload != [] && Digit(payload[0]) then [payload[0]] + DigitsOf(payload[1..]) else []
  }

  predicate AllKittyParams(bs: Bytes) {
    forall b :: b in bs ==> KittyParam(b)
  }

  /** Kitty keyboard sequences, and colour queries: an OSC whose number, modulo two to the
      sixty-fourth, is 10 or 11. */
  predicate Dropped(t: Token) {
    match t
    case Csi(params, intermediates, final) =>
      params != [] && Introducer(params[0]) && AllKittyParams(params[1..]) && intermediates == [] && final == 'u' as int
    case Osc(payload, _) =>
      var digits := DigitsOf(payload);
      && digits != [] && |digits| < |payload| && payload[|digits|] == ';' as int
      && Value(digits) % 0x1_0000_0000_0000_0000 in {10, 11}
    case _ => false
  }

  function Kept(tokens: seq<Token>): seq<Token> {
    if tokens == [] then []
    else (if Dropped(tokens[0]) then [] else [tokens[0]]) + Kept(tokens[1..])
  }

  // ---- numbers ----------------------------------------------------------------------------

  lemma WrapsAgree(a: int, b: int)
    requires (a - b) % 0x1_0000_0000_0000_0000 == 0
    ensures Wrap64(a) == Wrap64(b)
  {
  }

  lemma WrapStep(n: int, v: int, d: int)
    requires n == Wrap64(v)
    ensures Wrap64(Wrap64(10 * n) + d) == Wrap64(10 * v + d)
  {
    assert (n - v) % 0x1_0000_0000_0000_0000 == 0;
    assert (10 * n - 10 * v) % 0x1_0000_0000_0000_0000 == 0;
    WrapsAgree(Wrap64(10 * n) + d, 10 * v + d);
  }

  lemma {:induction false} NumberIsValueWrapped(digits: Bytes)
    ensures LeadingNumber(digits) == Wrap64(Value(digits))
  {
    if digits != [] {
      var front, d := digits[..|digits| - 1], digits[|digits| - 1] - '0' as int;
      NumberIsValueWrapped(front);
      WrapStep(LeadingNumber(front), Value(front), d);
      assert Wrap64(10 * LeadingNumber(front)) + d ==
        Wrap64(10 * LeadingNumber(front)) + digits[|digits| - 1] - '0' as int;
    }
  }

  lemma WrappedTest(v: int)
    ensures Wrap64(v) == 10 || Wrap64(v) == 11 <==> v % 0x1_0000_0000_0000_0000 in {10, 11}
  {
  }

  /** The filter takes a number for 10 or 11 exactly when it is so modulo two to the sixty-fourth. */
  lemma NumberTestIsModular(digits: Bytes)
    ensures ColourQuery(digits) <==> Value(digits) % 0x1_0000_0000_0000_0000 in {10, 11}
  {
    NumberIsValueWrapped(digits);
    WrappedTest(Value(digits));
  }

  // ---- one token at a time ----------------------------------------------------------------

  lemma {:induction false} TextPasses(bs: Bytes)
    requires ESC !in bs
    ensures Scan(START, bs) == Result(START, bs)
  {
    if bs != [] {
      TextPasses(bs[1..]);
    }
  }

  /** From inside a private control sequence: the rest up to the final byte. */
  lemma {:induction false} PrivateTail(buf: Bytes, rest: Bytes)
    requires rest != [] && 0x40 <= rest[|rest| - 1] <= 0x7e
    requires forall i :: 0 <= i < |rest| - 1 ==> 0x20 <= rest[i] <= 0x3f
    ensures Scan(Conf(InKittyCSI, buf), rest) ==
      Result(START, if AllKittyParams(rest[..|rest| - 1]) && rest[|rest| - 1] == 'u' as int then [] else buf + rest)
    decreases |rest|
  {
    var b := rest[0];
    FirstOf(buf, rest);
    if |rest| == 1 {
      assert rest == [b];
    } else if KittyParam(b) {
      PrivateTail(buf + [b], rest[1..]);
      ParamsTail(rest);
    } else {
      assert b in rest[..|rest| - 1];
      TextPasses(rest[1..]);
    }
  }

  lemma FirstOf(buf: Bytes, rest: Bytes)
    requires rest != []
    ensures buf + [rest[0]] + rest[1..] == buf + rest
  {
    assert [rest[0]] + rest[1..] == rest;
  }

  lemma ParamsTail(rest: Bytes)
    requires |rest| >= 2 && KittyParam(rest[0])
    ensures AllKittyParams(rest[..|rest| - 1]) <==> AllKittyParams(rest[1..][..|rest| - 2])
    ensures rest[1..][|rest| - 2] == rest[|rest| - 1]
  {
    assert rest[..|rest| - 1] == [rest[0]] + rest[1..][..|rest| - 2];
  }

  lemma CsiBytes(params: Bytes, intermediates: Bytes, final: Byte)
    requires WellFormed(Csi(params, intermediates, final))
    ensures var body := params + intermediates + [final];
            && (forall i :: 0 <= i < |body| - 1 ==> 0x20 <= body[i] <= 0x3f)
            && body[|body| - 1] == final && ESC !in body
  {
    var body := params + intermediates + [final];
    forall i | 0 <= i < |body| - 1 ensures 0x20 <= body[i] <= 0x3f {
      if i < |params| {
        assert body[i] == params[i] && params[i] in params;
      } else {
        assert body[i] == intermediates[i - |params|] && intermediates[i - |params|] in intermediates;
      }
    }
  }

  lemma CsiToken(params: Bytes, intermediates: Bytes, final: Byte)
    requires WellFormed(Csi(params, intermediates, final))
    ensures var t := Csi(params, intermediates, final);
            Scan(START, Print(t)) == Result(START, if Dropped(t) then [] else Print(t))
  {
    var body := params + intermediates + [final];
    assert Print(Csi(params, intermediates, final)) == CSI_HEAD + body;
    OpensCsi();
    Prefixed(CSI_HEAD, Conf(AfterCSI, CSI_HEAD), body);
    CsiAfterHead(params, intermediates, final);
  }

  const CSI_HEAD: Bytes := [ESC, '[' as int]

  const OSC_HEAD: Bytes := [ESC, ']' as int]

  /** A head that is held back: what follows decides. */
  lemma Prefixed(head: Bytes, c: Conf, body: Bytes)
    requires Scan(START, head) == Result(c, [])
    ensures Scan(START, head + body) == Scan(c, body)
  {
    ScanConcat(START, head, body);
  }

  lemma ScanFirst(c: Conf, b: Byte, rest: Bytes, next: Conf, out: Bytes)
    requires Step(c, b) == Result(next, out)
    ensures Scan(c, [b] + rest) == Result(Scan(next, rest).conf, out + Scan(next, rest).out)
  {
    assert ([b] + rest)[1..] == rest;
  }

  lemma CsiAfterHead(params: Bytes, intermediates: Bytes, final: Byte)
    requires WellFormed(Csi(params, intermediates, final))
    ensures var body := params + intermediates + [final];
            Scan(Conf(AfterCSI, CSI_HEAD), body)
              == Result(START, if Dropped(Csi(params, intermediates, final)) then [] else CSI_HEAD + body)
  {
    var body := params + intermediates + [final];
    var b, rest := body[0], body[1..];
    CsiBytes(params, intermediates, final);
    assert [b] + rest == body && CSI_HEAD + [b] + rest == CSI_HEAD + body;
    if Introducer(b) {
      ScanFirst(Conf(AfterCSI, CSI_HEAD), b, rest, Conf(InKittyCSI, CSI_HEAD + [b]), []);
      CsiBody(params, intermediates, final);
    } else {
      ScanFirst(Conf(AfterCSI, CSI_HEAD), b, rest, START, CSI_HEAD + [b]);
      TextPasses(rest);
      assert params != [] ==> params[0] == b;
    }
  }

  lemma CsiBody(params: Bytes, intermediates: Bytes, final: Byte)
    requires WellFormed(Csi(params, intermediates, final))
    requires Introducer((params + intermediates + [final])[0])
    ensures var body := params + intermediates + [final];
            Scan(Conf(InKittyCSI, CSI_HEAD + [body[0]]), body[1..])
              == Result(START, if Dropped(Csi(params, intermediates, final)) then []
                                else CSI_HEAD + [body[0]] + body[1..])
  {
    var body := params + intermediates + [final];
    var rest := body[1..];
    CsiBytes(params, intermediates, final);
    assert params == [] ==> body == intermediates + [final];
    assert intermediates != [] ==> intermediates[0] in intermediates;
    assert params != [] && body[0] == params[0];
    assert rest == params[1..] + intermediates + [final];
    assert rest[..|rest| - 1] == params[1..] + intermediates;
    PrivateTail(CSI_HEAD + [body[0]], rest);
    if intermediates != [] {
      assert intermediates[0] in rest[..|rest| - 1] && intermediates[0] in intermediates;
    } else {
      assert rest[..|rest| - 1] == params[1..];
    }
  }

  lemma OpensCsi()
    ensures Scan(START, CSI_HEAD) == Result(Conf(AfterCSI, CSI_HEAD), [])
  {
    ScanConcat(START, [ESC], ['[' as int]);
    ScanOne(START, ESC);
    ScanOne(Conf(AfterESC, [ESC]), '[' as int);
    assert [ESC] + ['[' as int] == [ESC, '[' as int];
  }

  lemma OpensOsc()
    ensures Scan(START, OSC_HEAD) == Result(Conf(AfterOSC, OSC_HEAD), [])
  {
    ScanConcat(START, [ESC], [']' as int]);
    ScanOne(START, ESC);
    ScanOne(Conf(AfterESC, [ESC]), ']' as int);
    assert [ESC] + [']' as int] == [ESC, ']' as int];
  }

  lemma EscapeToken(b: Byte)
    requires WellFormed(Escape(b))
    ensures Scan(START, [ESC, b]) == Result(START, [ESC, b])
  {
    ScanConcat(START, [ESC], [b]);
    ScanOne(START, ESC);
    ScanOne(Conf(AfterESC, [ESC]), b);
    assert [ESC] + [b] == [ESC, b];
  }

  /** Text that is no part of a recognised sequence, up to and including a terminator. */
  lemma TailPasses(body: Bytes, bel: bool)
    requires ESC !in body
    ensures Scan(START, body + Terminator(bel)) == Result(START, body + Terminator(bel))
  {
    TextPasses(body);
    ScanConcat(START, body, Terminator(bel));
    if bel {
      ScanOne(START, BEL);
    } else {
      EscapeToken('\\' as int);
    }
  }

  lemma {:induction false} DropRuns(buf: Bytes, body: Bytes, bel: bool)
    requires ESC !in body && BEL !in body
    ensures Scan(Conf(InOSCDrop, buf), body + Terminator(bel)) == Result(START, [])
  {
    var c := Conf(InOSCDrop, buf);
    if body == [] {
      assert body + Terminator(bel) == Terminator(bel);
      if !bel {
        assert Terminator(bel) == [ESC] + ['\\' as int];
        ScanConcat(c, [ESC], ['\\' as int]);
        ScanOne(c, ESC);
        ScanOne(Conf(OSCEsc, buf), '\\' as int);
      } else {
        ScanOne(c, BEL);
      }
    } else {
      assert (body + Terminator(bel))[1..] == body[1..] + Terminator(bel);
      DropRuns(buf, body[1..], bel);
    }
  }

  lemma {:induction false} KeepRuns(body: Bytes, bel: bool)
    requires ESC !in body && BEL !in body
    ensures Scan(Conf(InOSCKeep, []), body + Terminator(bel)) == Result(START, body + Terminator(bel))
  {
    var c := Conf(InOSCKeep, []);
    if body == [] {
      assert body + Terminator(bel) == Terminator(bel);
      if !bel {
        assert Terminator(bel) == [ESC] + ['\\' as int];
        ScanConcat(c, [ESC], ['\\' as int]);
        ScanOne(c, ESC);
        ScanOne(Conf(OSCKeepEsc, []), '\\' as int);
      } else {
        ScanOne(c, BEL);
      }
    } else {
      assert (body + Terminator(bel))[1..] == body[1..] + Terminator(bel);
      KeepRuns(body[1..], bel);
      assert [body[0]] + (body[1..] + Terminator(bel)) == body + Terminator(bel);
    }
  }

  /** The number of an OSC has ended: `rest` starts with no digit. */
  lemma NumberEnds(seen: Bytes, rest: Bytes, bel: bool)
    requires ESC !in rest && BEL !in rest && (rest != [] ==> !Digit(rest[0]))
    ensures var dropped := rest != [] && rest[0] == ';' as int && ColourQuery(seen);
            Scan(Conf(InOSCNum, OSC_HEAD + seen), rest + Terminator(bel))
              == Result(START, if dropped then [] else OSC_HEAD + seen + (rest + Terminator(bel)))
  {
    var c := Conf(InOSCNum, OSC_HEAD + seen);
    assert c.buf[2..] == seen;
    if rest == [] {
      assert rest + Terminator(bel) == Terminator(bel);
      EndsAtOnce(c, bel);
    } else {
      var b, tail := rest[0], rest[1..] + Terminator(bel);
      assert rest + Terminator(bel) == [b] + tail && c.buf + [b] + tail == c.buf + ([b] + tail);
      if b != ';' as int {
        ScanFirst(c, b, tail, START, c.buf + [b]);
        TailPasses(rest[1..], bel);
      } else if ColourQuery(seen) {
        ScanFirst(c, b, tail, Conf(InOSCDrop, c.buf + [b]), []);
        DropRuns(c.buf + [b], rest[1..], bel);
      } else {
        ScanFirst(c, b, tail, Conf(InOSCKeep, []), c.buf + [b]);
        KeepRuns(rest[1..], bel);
      }
    }
  }

  /** A terminator where a number or its first digit was expected is let through with what it ends. */
  lemma EndsAtOnce(c: Conf, bel: bool)
    requires c.state == InOSCNum || c.state == AfterOSC
    ensures Scan(c, Terminator(bel)) == Result(START, c.buf + Terminator(bel))
  {
    if bel {
      ScanOne(c, BEL);
    } else {
      assert Terminator(bel) == [ESC] + ['\\' as int];
      ScanConcat(c, [ESC], ['\\' as int]);
      ScanOne(c, ESC);
      ScanOne(START, '\\' as int);
      assert c.buf + [ESC] + ['\\' as int] == c.buf + Terminator(bel);
    }
  }

  lemma {:induction false} DigitsSplit(payload: Bytes)
    ensures var n := |DigitsOf(payload)|;
            && n <= |payload| && DigitsOf(payload) == payload[..n] && (forall d :: d in payload[..n] ==> Digit(d))
            && (n < |payload| ==> !Digit(payload[n]))
  {
    if payload != [] && Digit(payload[0]) {
      DigitsSplit(payload[1..]);
      var n := |DigitsOf(payload[1..])|;
      assert payload[..n + 1] == [payload[0]] + payload[1..][..n];
    }
  }

  lemma {:induction false} DigitsRun(buf: Bytes, digits: Bytes)
    requires forall d :: d in digits ==> Digit(d)
    ensures Scan(Conf(InOSCNum, buf), digits) == Result(Conf(InOSCNum, buf + digits), [])
    decreases |digits|
  {
    if digits == [] {
      assert buf + digits == buf;
    } else {
      assert digits[0] in digits;
      DigitsRun(buf + [digits[0]], digits[1..]);
      assert buf + [digits[0]] + digits[1..] == buf + digits;
    }
  }

  lemma OscToken(payload: Bytes, bel: bool)
    requires WellFormed(Osc(payload, bel))
    ensures var t := Osc(payload, bel);
            Scan(START, Print(t)) == Result(START, if Dropped(t) then [] else Print(t))
  {
    var all := payload + Terminator(bel);
    assert Print(Osc(payload, bel)) == OSC_HEAD + all;
    OpensOsc();
    Prefixed(OSC_HEAD, Conf(AfterOSC, OSC_HEAD), all);
    OscBody(payload, bel);
  }

  lemma OscBody(payload: Bytes, bel: bool)
    requires WellFormed(Osc(payload, bel))
    ensures Scan(Conf(AfterOSC, OSC_HEAD), payload + Terminator(bel))
      == Result(START, if Dropped(Osc(payload, bel)) then [] else OSC_HEAD + (payload + Terminator(bel)))
  {
    var c := Conf(AfterOSC, OSC_HEAD);
    if payload == [] {
      assert payload + Terminator(bel) == Terminator(bel);
      EndsAtOnce(c, bel);
    } else if Digit(payload[0]) {
      NumberedBody(payload, bel);
    } else {
      var b, tail := payload[0], payload[1..] + Terminator(bel);
      assert payload + Terminator(bel) == [b] + tail && OSC_HEAD + [b] + tail == OSC_HEAD + ([b] + tail);
      ScanFirst(c, b, tail, START, OSC_HEAD + [b]);
      TailPasses(payload[1..], bel);
    }
  }

  /** A number of any length is held back as it arrives. */
  lemma NumberHeld(digits: Bytes, end: Bytes)
    requires digits != [] && forall d :: d in digits ==> Digit(d)
    ensures Scan(Conf(AfterOSC, OSC_HEAD), digits + end) == Scan(Conf(InOSCNum, OSC_HEAD + digits), end)
  {
    var b, ds := digits[0], digits[1..];
    assert b in digits;
    FirstDigitHeld(OSC_HEAD, b, ds, end);
    FirstOf(OSC_HEAD, digits);
    FirstThenRest(digits, end);
  }

  lemma FirstThenRest(digits: Bytes, end: Bytes)
    requires digits != []
    ensures digits + end == [digits[0]] + (digits[1..] + end)
  {
  }

  lemma FirstDigitHeld(head: Bytes, b: Byte, ds: Bytes, end: Bytes)
    requires Digit(b) && forall d :: d in ds ==> Digit(d)
    ensures Scan(Conf(AfterOSC, head), [b] + (ds + end)) == Scan(Conf(InOSCNum, head + [b] + ds), end)
  {
    ScanFirst(Conf(AfterOSC, head), b, ds + end, Conf(InOSCNum, head + [b]), []);
    HeldRun(head + [b], ds, end);
  }

  lemma HeldRun(buf: Bytes, digits: Bytes, end: Bytes)
    requires forall d :: d in digits ==> Digit(d)
    ensures Scan(Conf(InOSCNum, buf), digits + end) == Scan(Conf(InOSCNum, buf + digits), end)
  {
    DigitsRun(buf, digits);
    ScanConcat(Conf(InOSCNum, buf), digits, end);
  }

  lemma Regroup(a: Bytes, b: Bytes, c: Bytes)
    ensures a + b + c == a + (b + c)
  {
  }

  lemma NumberedBody(payload: Bytes, bel: bool)
    requires WellFormed(Osc(payload, bel)) && payload != [] && Digit(payload[0])
    ensures Scan(Conf(AfterOSC, OSC_HEAD), payload + Terminator(bel))
      == Result(START, if Dropped(Osc(payload, bel)) then [] else OSC_HEAD + (payload + Terminator(bel)))
  {
    var digits := DigitsOf(payload);
    DigitsSplit(payload);
    var rest := payload[|digits|..];
    DroppedByNumber(payload, digits, rest, bel);
    NumberThenRest(digits, rest, bel);
    Regroup(digits, rest, Terminator(bel));
    Regroup(OSC_HEAD, digits, rest + Terminator(bel));
  }

  lemma DroppedByNumber(payload: Bytes, digits: Bytes, rest: Bytes, bel: bool)
    requires digits == DigitsOf(payload) != [] && |digits| <= |payload| && rest == payload[|digits|..]
    requires digits == payload[..|digits|]
    ensures payload == digits + rest
    ensures Dropped(Osc(payload, bel)) <==> rest != [] && rest[0] == ';' as int && ColourQuery(digits)
  {
    NumberTestIsModular(digits);
  }

  lemma NumberThenRest(digits: Bytes, rest: Bytes, bel: bool)
    requires digits != [] && (forall d :: d in digits ==> Digit(d))
    requires ESC !in rest && BEL !in rest && (rest != [] ==> !Digit(rest[0]))
    ensures var dropped := rest != [] && rest[0] == ';' as int && ColourQuery(digits);
            Scan(Conf(AfterOSC, OSC_HEAD), digits + (rest + Terminator(bel)))
              == Result(START, if dropped then [] else OSC_HEAD + digits + (rest + Terminator(bel)))
  {
    NumberHeld(digits, rest + Terminator(bel));
    NumberEnds(digits, rest, bel);
  }

  lemma TokenScans(t: Token)
    requires WellFormed(t)
    ensures Scan(START, Print(t)) == Result(START, if Dropped(t) then [] else Print(t))
  {
    match t
    case Text(b) => ScanOne(START, b);
    case Escape(b) => EscapeToken(b);
    case Csi(params, intermediates, final) => CsiToken(params, intermediates, final);
    case Osc(payload, bel) => OscToken(payload, bel);
  }

  /** Over every list of well-formed tokens the filter prints exactly those that are not dropped,
      and is back where it started. */
  lemma {:induction false} FilterPrintsKeptTokens(tokens: seq<Token>)
    requires forall t :: t in tokens ==> WellFormed(t)
    ensures Scan(START, PrintAll(tokens)) == Result(START, PrintAll(Kept(tokens)))
  {
    if tokens != [] {
      TokenScans(tokens[0]);
      FilterPrintsKeptTokens(tokens[1..]);
      ScanConcat(START, Print(tokens[0]), PrintAll(tokens[1..]));
      var rest := Kept(tokens[1..]);
      if Dropped(tokens[0]) {
        assert Kept(tokens) == rest;
      } else {
        assert Kept(tokens) == [tokens[0]] + rest && ([tokens[0]] + rest)[1..] == rest;
      }
    }
  }

  // ---- commands that are cut short --------------------------------------------------------

  const KEEP := Conf(InOSCKeep, [])

  lemma {:induction false} DropHeld(buf: Bytes, body: Bytes)
    requires ESC !in body && BEL !in body
    ensures Scan(Conf(InOSCDrop, buf), body) == Result(Conf(InOSCDrop, buf), [])
  {
    if body != [] {
      DropHeld(buf, body[1..]);
    }
  }

  /** The head of a command with its number and the semicolon. */
  function Numbered(digits: Bytes): Bytes {
    OSC_HEAD + (digits + [';' as int])
  }

  lemma NumberedRuns(digits: Bytes)
    requires digits != [] && forall d :: d in digits ==> Digit(d)
    ensures Scan(START, Numbered(digits)) ==
      if ColourQuery(digits) then Result(Conf(InOSCDrop, Numbered(digits)), []) else Result(KEEP, Numbered(digits))
  {
    OpensOsc();
    Prefixed(OSC_HEAD, Conf(AfterOSC, OSC_HEAD), digits + [';' as int]);
    NumberHeld(digits, [';' as int]);
    var c := Conf(InOSCNum, OSC_HEAD + digits);
    assert c.buf[2..] == digits && c.buf + [';' as int] == Numbered(digits);
    ScanOne(c, ';' as int);
  }

  /** A colour query that an escape cuts short is dropped up to the escape, and from there on all is read as
      if it had not been there. */
  lemma CutQueryIsDropped(digits: Bytes, body: Bytes, b: Byte, rest: Bytes)
    requires digits != [] && (forall d :: d in digits ==> Digit(d))
    requires Value(digits) % 0x1_0000_0000_0000_0000 in {10, 11} && ESC !in body && BEL !in body && b != '\\' as int
    ensures Scan(START, Numbered(digits) + body + ([ESC, b] + rest)) == Scan(START, [ESC, b] + rest)
  {
    NumberTestIsModular(digits);
    NumberedRuns(digits);
    var c := Conf(InOSCDrop, Numbered(digits));
    ScanConcat(START, Numbered(digits), body);
    DropHeld(c.buf, body);
    Prefixed(Numbered(digits) + body, c, [ESC, b] + rest);
    EscapeAfresh(c.buf, b, rest);
  }

  lemma EscapeAfresh(buf: Bytes, b: Byte, rest: Bytes)
    requires b != '\\' as int
    ensures Scan(Conf(InOSCDrop, buf), [ESC, b] + rest) == Scan(START, [ESC, b] + rest)
  {
    TwoBytes(Conf(InOSCDrop, buf), ESC, b);
    TwoBytes(START, ESC, b);
    assert [ESC] + [b] == [ESC, b] && [] + [ESC, b] == [ESC, b];
    ScanConcat(Conf(InOSCDrop, buf), [ESC, b], rest);
    ScanConcat(START, [ESC, b], rest);
  }

  lemma TwoBytes(c: Conf, a: Byte, b: Byte)
    ensures Scan(c, [a, b]) == Result(Step(Step(c, a).conf, b).conf, Step(c, a).out + Step(Step(c, a).conf, b).out)
  {
    ScanConcat(c, [a], [b]);
    ScanOne(c, a);
    ScanOne(Step(c, a).conf, b);
    assert [a] + [b] == [a, b];
  }

  /** Any other command goes on over an escape, and only a second ESC begins a new one; either way nothing of
      it is lost. */
  lemma OtherCommandGoesOn(digits: Bytes, b: Byte, rest: Bytes)
    requires digits != [] && (forall d :: d in digits ==> Digit(d))
    requires Value(digits) % 0x1_0000_0000_0000_0000 !in {10, 11} && b != '\\' as int
    ensures Scan(START, Numbered(digits)) == Result(KEEP, Numbered(digits))
    ensures b != ESC ==> Scan(KEEP, [ESC, b] + rest) == Result(Scan(KEEP, rest).conf, [ESC, b] + Scan(KEEP, rest).out)
    ensures b == ESC ==>
      var after := Scan(START, [ESC] + rest);
      Scan(KEEP, [ESC, b] + rest) == Result(after.conf, [ESC] + after.out)
  {
    NumberTestIsModular(digits);
    NumberedRuns(digits);
    ScanConcat(KEEP, [ESC, b], rest);
    TwoBytes(KEEP, ESC, b);
    assert [] + [ESC, b] == [ESC, b] && [] + [ESC] == [ESC];
    ScanConcat(START, [ESC], rest);
    ScanOne(START, ESC);
    var after := Scan(Conf(AfterESC, [ESC]), rest);
    assert [] + after.out == after.out;
  }

  // ---- a number that is taken for another -------------------------------------------------

  function Decimal(n: nat): Bytes {
    if n < 10 then [n + '0' as int] else Decimal(n / 10) + [n % 10 + '0' as int]
  }

  lemma {:induction false} DecimalSpells(n: nat)
    ensures Value(Decimal(n)) == n && Decimal(n) != [] && forall b :: b in Decimal(n) ==> Digit(b)
  {
    if n < 10 {
      assert Decimal(n)[..0] == [];
    } else {
      DecimalSpells(n / 10);
      assert Decimal(n)[..|Decimal(n)| - 1] == Decimal(n / 10);
    }
  }

  lemma {:induction false} DigitsOfNumber(digits: Bytes, rest: Bytes)
    requires (forall b :: b in digits ==> Digit(b)) && rest != [] && !Digit(rest[0])
    ensures DigitsOf(digits + rest) == digits
  {
    if digits == [] {
      assert digits + rest == rest;
    } else {
      DigitsOfNumber(digits[1..], rest);
      assert (digits + rest)[1..] == digits[1..] + rest;
    }
  }

  lemma NumberIsDropped(n: nat, bel: bool)
    requires n % 0x1_0000_0000_0000_0000 in {10, 11}
    ensures var token := Osc(Decimal(n) + [';' as int, '?' as int], bel);
            WellFormed(token) && DigitsOf(token.payload) == Decimal(n) && Value(Decimal(n)) == n && Dropped(token)
  {
    var digits, rest := Decimal(n), [';' as int, '?' as int];
    DecimalSpells(n);
    DigitsOfNumber(digits, rest);
    assert forall b :: b in digits ==> b != ESC && b != BEL;
    assert (digits + rest)[|digits|] == rest[0];
  }

  /** Operating system command 18446744073709551626 is dropped with the colour queries. */
  lemma OtherCommandIsDropped(n: nat, bel: bool)
    requires n - 10 == 0x1_0000_0000_0000_0000
    ensures Dropped(Osc(Decimal(n) + [';' as int, '?' as int], bel)) && n !in {10, 11}
  {
    NumberIsDropped(n, bel);
  }
}
