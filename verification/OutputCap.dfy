/** The byte cap and rate limit on the output of one command (outputCap in internal/syncd/exec.go).
    Clock readings are nanoseconds. */
module OutputCap {
  const SECOND := 1_000_000_000

  datatype Cause = NotTruncated | MaxBytes | RateLimit

  datatype Cap = Cap(maxBytes: int, ratePerSec: int, used: int, windowStart: int, windowUsed: int, cause: Cause)

  /** One read of `want` bytes, made when the clock shows `now`. */
  datatype Call = Call(want: int, now: int)

  datatype Outcome = Outcome(cap: Cap, accepted: int)

  function Max(a: int, b: int): int { if a >= b then a else b }
  function Min(a: int, b: int): int { if a <= b then a else b }

  /** What is left of the byte cap. */
  function Room(c: Cap): int {
    Max(0, c.maxBytes - c.used)
  }

  function Roll(c: Cap, now: int): Cap {
    if now - c.windowStart >= SECOND then c.(windowStart := now, windowUsed := 0) else c
  }

  function Truncate(c: Cap, cause: Cause): Cap {
    if c.cause.NotTruncated? then c.(cause := cause) else c
  }

  /** A request the byte cap has no room for gets what room there is and no clock is read; any other
      gets what is left of its window. */
  function Step(c: Cap, call: Call): Outcome {
    var u := c.used + call.want;
    if call.want > Room(c) then Outcome(Truncate(c, MaxBytes).(used := u), Room(c))
    else
      var w := Roll(c, call.now);
      var accepted := Min(call.want, Max(0, w.ratePerSec - w.windowUsed));
      var t := if accepted < call.want then Truncate(w, RateLimit) else w;
      Outcome(t.(used := u, windowUsed := w.windowUsed + accepted), accepted)
  }

  class OutputCap {
    const maxBytes: int
    const ratePerSec: int
    var used: int
    var windowStart: int
    var windowUsed: int
    var truncatedFlag: bool
    var truncatedCause: Cause

    constructor (maxBytes: int, ratePerSec: int, now: int)
      ensures Valid() && View() == Fresh(maxBytes, ratePerSec, now)
    {
      this.maxBytes, this.ratePerSec := maxBytes, ratePerSec;
      used, windowStart, windowUsed, truncatedFlag, truncatedCause := 0, now, 0, false, NotTruncated;
    }

    /** The flag and the cause say the same. */
    predicate Valid()
      reads this
    {
      truncatedFlag <==> !truncatedCause.NotTruncated?
    }

    function View(): Cap
      reads this
    {
      Cap(maxBytes, ratePerSec, used, windowStart, windowUsed, truncatedCause)
    }

    method Truncate(cause: Cause)
      requires Valid() && !cause.NotTruncated?
      modifies this`truncatedFlag, this`truncatedCause
      ensures Valid() && truncatedCause == if old(truncatedFlag) then old(truncatedCause) else cause
    {
      if !truncatedFlag {
        truncatedFlag, truncatedCause := true, cause;
      }
    }

    method Accept(want: int, now: int) returns (accepted: int)
      requires Valid() && want > 0
      modifies this
      ensures Valid() && Outcome(View(), accepted) == Step(old(View()), Call(want, now))
      ensures want > maxBytes - old(used) ==> accepted == Max(0, maxBytes - old(used))
      ensures want <= maxBytes - old(used) ==>
        var left := ratePerSec - if now - old(windowStart) >= SECOND then 0 else old(windowUsed);
        accepted == if want <= left then want else Max(0, left)
    {
      var remainingTotal := maxBytes - used;
      if remainingTotal <= 0 {
        Truncate(MaxBytes);
        used := used + want;
        return 0;
      }
      if want > remainingTotal {
        Truncate(MaxBytes);
        used := used + want;
        return remainingTotal;
      }
      if now - windowStart >= SECOND {
        windowStart, windowUsed := now, 0;
      }
      var remainingWindow := ratePerSec - windowUsed;
      if remainingWindow <= 0 {
        Truncate(RateLimit);
        used := used + want;
        return 0;
      }
      if want > remainingWindow {
        Truncate(RateLimit);
        windowUsed, used := windowUsed + remainingWindow, used + want;
        return remainingWindow;
      }
      windowUsed, used := windowUsed + want, used + want;
      return want;
    }
  }

  // ---- runs -------------------------------------------------------------------------------

  function Fresh(maxBytes: int, ratePerSec: int, now: int): Cap {
    Cap(maxBytes, ratePerSec, 0, now, 0, NotTruncated)
  }

  function After(c: Cap, calls: seq<Call>): Cap
    decreases |calls|
  {
    if calls == [] then c else After(Step(c, calls[0]).cap, calls[1..])
  }

  function Wanted(calls: seq<Call>): int
    decreases |calls|
  {
    if calls == [] then 0 else calls[0].want + Wanted(calls[1..])
  }

  function Accepted(c: Cap, calls: seq<Call>): int
    decreases |calls|
  {
    if calls == [] then 0 else Step(c, calls[0]).accepted + Accepted(Step(c, calls[0]).cap, calls[1..])
  }

  predicate Positive(calls: seq<Call>) {
    forall k :: 0 <= k < |calls| ==> calls[k].want > 0
  }

  /** The window never holds more than the rate. */
  predicate Sane(c: Cap) {
    0 <= c.windowUsed <= c.ratePerSec && 0 <= c.used
  }

  lemma StepKeepsSane(c: Cap, call: Call)
    requires Sane(c) && call.want > 0
    ensures var o := Step(c, call);
            && Sane(o.cap) && 0 <= o.accepted <= call.want && o.accepted <= Room(c)
            && o.cap.used == c.used + call.want && o.cap.maxBytes == c.maxBytes && o.cap.ratePerSec == c.ratePerSec
            && (o.cap.cause.NotTruncated? <==> c.cause.NotTruncated? && o.accepted == call.want)
            && Room(o.cap) <= Room(c) - o.accepted
  {
  }

  /** Over any run of reads the count is the sum of what was read, what passed is within the byte cap
      and the room there was, and the run is flagged exactly if some byte was dropped. */
  lemma {:induction false} RunAccounts(c: Cap, calls: seq<Call>)
    requires Sane(c) && Positive(calls)
    ensures Sane(After(c, calls)) && After(c, calls).used == c.used + Wanted(calls)
    ensures After(c, calls).ratePerSec == c.ratePerSec && After(c, calls).maxBytes == c.maxBytes
    ensures 0 <= Accepted(c, calls) <= Wanted(calls) && Accepted(c, calls) <= Room(c)
    ensures After(c, calls).cause.NotTruncated? <==> c.cause.NotTruncated? && Accepted(c, calls) == Wanted(calls)
    decreases |calls|
  {
    if calls != [] {
      StepKeepsSane(c, calls[0]);
      RunAccounts(Step(c, calls[0]).cap, calls[1..]);
    }
  }

  lemma RunFromFresh(maxBytes: nat, ratePerSec: nat, start: int, calls: seq<Call>)
    requires Positive(calls)
    ensures var c := Fresh(maxBytes, ratePerSec, start);
            && After(c, calls).used == Wanted(calls)
            && Accepted(c, calls) <= maxBytes
            && 0 <= After(c, calls).windowUsed <= ratePerSec
            && (After(c, calls).cause.NotTruncated? <==> Accepted(c, calls) == Wanted(calls))
  {
    RunAccounts(Fresh(maxBytes, ratePerSec, start), calls);
  }

  // ---- what is within both limits ---------------------------------------------------------

  /** Reads that lie less than a second apart are together within the rate. */
  predicate Steady(calls: seq<Call>, rate: int) {
    forall i, j :: 0 <= i <= j < |calls| && calls[j].now - calls[i].now < SECOND ==> Wanted(calls[i..j + 1]) <= rate
  }

  predicate InTime(start: int, calls: seq<Call>) {
    (forall i :: 0 <= i < |calls| ==> start <= calls[i].now)
    && InOrder(calls)
  }

  lemma {:induction false} WantedConcat(a: seq<Call>, b: seq<Call>)
    ensures Wanted(a + b) == Wanted(a) + Wanted(b)
    decreases |a|
  {
    if a == [] {
      assert a + b == b;
    } else {
      assert (a + b)[1..] == a[1..] + b;
      WantedConcat(a[1..], b);
    }
  }

  /** Reads within both limits pass in full. */
  lemma SteadyPasses(maxBytes: nat, ratePerSec: nat, start: int, calls: seq<Call>)
    requires Positive(calls) && InTime(start, calls) && Steady(calls, ratePerSec) && Wanted(calls) <= maxBytes
    ensures var c := Fresh(maxBytes, ratePerSec, start);
            Accepted(c, calls) == Wanted(calls) && After(c, calls).cause == NotTruncated
  {
    var c := Fresh(maxBytes, ratePerSec, start);
    assert [] + calls == calls;
    WindowPasses(c, [], calls);
    RunAccounts(c, calls);
  }

  /** `past` is what the window has taken so far. */
  lemma {:induction false} WindowPasses(c: Cap, past: seq<Call>, calls: seq<Call>)
    requires Sane(c) && Positive(calls) && c.windowUsed == Wanted(past)
    requires InTime(c.windowStart, past + calls) && Steady(past + calls, c.ratePerSec)
    requires Wanted(calls) <= c.maxBytes - c.used
    ensures Accepted(c, calls) == Wanted(calls)
    decreases |calls|
  {
    if calls != [] {
      var d := Step(c, calls[0]).cap;
      WantedIsPositive(calls[1..]);
      StepKeepsSane(c, calls[0]);
      if calls[0].now - c.windowStart >= SECOND {
        FirstOfWindow(past, calls, c.ratePerSec);
        WindowPasses(d, [calls[0]], calls[1..]);
      } else {
        NextOfWindow(past, calls, c.ratePerSec, c.windowStart);
        WindowPasses(d, past + [calls[0]], calls[1..]);
      }
    }
  }

  lemma {:induction false} WantedIsPositive(calls: seq<Call>)
    requires Positive(calls)
    ensures Wanted(calls) >= 0
    decreases |calls|
  {
    if calls != [] {
      WantedIsPositive(calls[1..]);
    }
  }

  predicate InOrder(calls: seq<Call>) {
    forall i, j :: 0 <= i <= j < |calls| ==> calls[i].now <= calls[j].now
  }

  lemma FirstOfWindow(past: seq<Call>, calls: seq<Call>, rate: int)
    requires calls != [] && Steady(past + calls, rate) && InOrder(past + calls)
    ensures Wanted([calls[0]]) == calls[0].want <= rate
    ensures Steady([calls[0]] + calls[1..], rate) && InTime(calls[0].now, [calls[0]] + calls[1..])
  {
    LaterIsSteady(past, calls, rate);
    LaterIsInOrder(past, calls);
    assert [calls[0]] + calls[1..] == calls;
    assert calls[0].now - calls[0].now < SECOND && calls[0..0 + 1] == [calls[0]] && [calls[0]][1..] == [];
  }

  lemma LaterIsSteady(past: seq<Call>, calls: seq<Call>, rate: int)
    requires Steady(past + calls, rate)
    ensures Steady(calls, rate)
  {
    var all, n := past + calls, |past|;
    forall i, j | 0 <= i <= j < |calls| && calls[j].now - calls[i].now < SECOND
      ensures Wanted(calls[i..j + 1]) <= rate
    {
      assert all[n + i] == calls[i] && all[n + j] == calls[j] && all[n + i..n + j + 1] == calls[i..j + 1];
    }
  }

  lemma LaterIsInOrder(past: seq<Call>, calls: seq<Call>)
    requires InOrder(past + calls)
    ensures InOrder(calls)
  {
    var all, n := past + calls, |past|;
    forall i, j | 0 <= i <= j < |calls| ensures calls[i].now <= calls[j].now {
      assert all[n + i].now <= all[n + j].now;
    }
  }

  lemma NextOfWindow(past: seq<Call>, calls: seq<Call>, rate: int, start: int)
    requires calls != [] && Steady(past + calls, rate) && InTime(start, past + calls) && calls[0].now - start < SECOND
    ensures Wanted(past + [calls[0]]) == Wanted(past) + calls[0].want <= rate
    ensures Steady(past + [calls[0]] + calls[1..], rate) && InTime(start, past + [calls[0]] + calls[1..])
  {
    var all, n := past + calls, |past|;
    assert past + [calls[0]] + calls[1..] == all;
    assert all[0..n + 1] == past + [calls[0]];
    assert all[n].now == calls[0].now && start <= all[0].now && all[n].now - all[0].now < SECOND;
    WantedConcat(past, [calls[0]]);
    assert [calls[0]][1..] == [];
  }

  /** The cause kept is that of the first call that dropped a byte. */
  lemma {:induction false} FirstCauseStays(c: Cap, calls: seq<Call>)
    requires !c.cause.NotTruncated?
    ensures After(c, calls).cause == c.cause
    decreases |calls|
  {
    if calls != [] {
      FirstCauseStays(Step(c, calls[0]).cap, calls[1..]);
    }
  }

  // ---- the rate ---------------------------------------------------------------------------

  /** The call for which the byte cap has some room but not enough: what it passes is not charged to
      any window. */
  predicate Crossing(c: Cap, call: Call) {
    0 < Room(c) < call.want
  }

  /** It is the last call to pass anything, so there is at most one in a run. */
  lemma {:induction false} NothingPassesAfterCrossing(c: Cap, call: Call, rest: seq<Call>)
    requires Sane(c) && call.want > Room(c) && Positive(rest)
    ensures Accepted(Step(c, call).cap, rest) == 0
    ensures forall i :: 0 <= i < |rest| ==> !Crossing(After(Step(c, call).cap, rest[..i]), rest[i])
    decreases |rest|
  {
    var d := Step(c, call).cap;
    if rest != [] {
      StepKeepsSane(c, call);
      NothingPassesAfterCrossing(d, rest[0], rest[1..]);
      forall i | 0 <= i < |rest| ensures !Crossing(After(d, rest[..i]), rest[i]) {
        if i > 0 {
          assert rest[..i][0] == rest[0] && rest[..i][1..] == rest[1..][..i - 1];
          assert After(d, rest[..i]) == After(Step(d, rest[0]).cap, rest[1..][..i - 1]);
        }
      }
    }
  }

  /** Bytes passed and charged to a window. */
  function Charged(c: Cap, calls: seq<Call>): int
    decreases |calls|
  {
    if calls == [] then 0
    else (if calls[0].want > Room(c) then 0 else Step(c, calls[0]).accepted)
         + Charged(Step(c, calls[0]).cap, calls[1..])
  }

  /** None of the reads starts a new window. */
  predicate OneWindow(c: Cap, calls: seq<Call>)
    decreases |calls|
  {
    calls == [] || (Step(c, calls[0]).cap.windowStart == c.windowStart && OneWindow(Step(c, calls[0]).cap, calls[1..]))
  }

  /** What is charged between two starts of a window is what the window shows, so within the rate. */
  lemma {:induction false} ChargedInWindow(c: Cap, calls: seq<Call>)
    requires Sane(c) && Positive(calls) && OneWindow(c, calls)
    ensures Charged(c, calls) <= After(c, calls).windowUsed - c.windowUsed <= c.ratePerSec - c.windowUsed
    decreases |calls|
  {
    if calls != [] {
      StepKeepsSane(c, calls[0]);
      ChargedInWindow(Step(c, calls[0]).cap, calls[1..]);
    }
  }

  /** The read crosses the byte cap with more room left under the cap than in its window. */
  predicate Overruns(c: Cap, call: Call) {
    Crossing(c, call) && Room(c) > c.ratePerSec - c.windowUsed
  }

  predicate OverrunsAt(c: Cap, calls: seq<Call>, i: nat) {
    i < |calls| && Overruns(After(c, calls[..i]), calls[i])
  }

  lemma OverrunsLater(c: Cap, calls: seq<Call>, i: nat)
    requires calls != []
    ensures OverrunsAt(c, calls, i + 1) <==> OverrunsAt(Step(c, calls[0]).cap, calls[1..], i)
  {
    if i + 1 < |calls| {
      assert calls[..i + 1][0] == calls[0] && calls[..i + 1][1..] == calls[1..][..i];
    }
  }

  lemma OverrunsNow(c: Cap, calls: seq<Call>)
    requires calls != []
    ensures OverrunsAt(c, calls, 0) <==> Overruns(c, calls[0])
  {
    assert After(c, calls[..0]) == c;
  }

  /** As long as no new window starts, more passes than the window has left exactly if one of the reads
      crosses the byte cap with more room left than the window. */
  lemma {:induction false} WindowOverrunIff(c: Cap, calls: seq<Call>)
    requires Sane(c) && Positive(calls) && OneWindow(c, calls)
    ensures Accepted(c, calls) > c.ratePerSec - c.windowUsed <==> exists i :: OverrunsAt(c, calls, i)
    decreases |calls|
  {
    if calls != [] {
      var d := Step(c, calls[0]).cap;
      StepKeepsSane(c, calls[0]);
      OverrunsNow(c, calls);
      WindowOverrunIff(d, calls[1..]);
      if calls[0].want > Room(c) {
        NothingPassesAfterCrossing(c, calls[0], calls[1..]);
        NoneLater(c, calls);
      } else if i :| OverrunsAt(d, calls[1..], i) {
        OverrunsLater(c, calls, i);
      } else {
        NoneLater(c, calls);
      }
    }
  }

  lemma NoneLater(c: Cap, calls: seq<Call>)
    requires calls != [] && forall i: nat :: !OverrunsAt(Step(c, calls[0]).cap, calls[1..], i)
    ensures forall i: nat :: i > 0 ==> !OverrunsAt(c, calls, i)
  {
    forall i: nat | i > 0 ensures !OverrunsAt(c, calls, i) {
      OverrunsLater(c, calls, i - 1);
    }
  }

  /** The reads of one window, the one that starts it first: more than the rate passes exactly if one of
      them crosses the byte cap with more room left than the window, and then by no more than that room. */
  lemma AcceptedInWindowIff(c: Cap, first: Call, rest: seq<Call>)
    requires Sane(c) && first.want > 0 && Positive(rest) && first.want <= Room(c)
    requires first.now - c.windowStart >= SECOND && OneWindow(Step(c, first).cap, rest)
    ensures var d := Step(c, first).cap;
            var passed := Step(c, first).accepted + Accepted(d, rest);
            && (passed > c.ratePerSec <==> exists i :: OverrunsAt(d, rest, i))
            && passed <= c.ratePerSec + Room(d)
  {
    var d := Step(c, first).cap;
    StepKeepsSane(c, first);
    WindowOverrunIff(d, rest);
    RunAccounts(d, rest);
  }

  /** A cap of 100 bytes and a rate of 10: a read of 101 bytes passes 100 at once. */
  lemma CrossingExceedsRate()
    ensures var o := Step(Fresh(100, 10, 0), Call(101, 0));
            Overruns(Fresh(100, 10, 0), Call(101, 0)) && o.accepted == 100 && o.cap.windowUsed == 0
  {
  }

  predicate WithinSecond(calls: seq<Call>, t: int) {
    forall k :: 0 <= k < |calls| ==> t <= calls[k].now < t + SECOND
  }

  /** In any second at most one new window starts, so at most two windows' worth is charged. */
  lemma {:induction false} ChargedInSecond(c: Cap, calls: seq<Call>, t: int)
    requires Sane(c) && Positive(calls) && WithinSecond(calls, t)
    ensures Charged(c, calls) <= (if c.windowStart >= t then c.ratePerSec else 2 * c.ratePerSec) - c.windowUsed
    decreases |calls|
  {
    if calls != [] {
      StepKeepsSane(c, calls[0]);
      ChargedInSecond(Step(c, calls[0]).cap, calls[1..], t);
    }
  }

  lemma {:induction false} AcceptedIsChargedPlusCrossing(c: Cap, calls: seq<Call>) returns (crossing: int)
    requires Sane(c) && Positive(calls)
    ensures Accepted(c, calls) == Charged(c, calls) + crossing && 0 <= crossing <= Room(c)
    ensures crossing > 0 ==>
      exists i :: 0 <= i < |calls| && Crossing(After(c, calls[..i]), calls[i]) && Room(After(c, calls[..i])) == crossing
    decreases |calls|
  {
    crossing := 0;
    if calls != [] {
      StepKeepsSane(c, calls[0]);
      var d := Step(c, calls[0]).cap;
      crossing := AcceptedIsChargedPlusCrossing(d, calls[1..]);
      if calls[0].want > Room(c) {
        NothingPassesAfterCrossing(c, calls[0], calls[1..]);
        ChargedIsNotNegative(d, calls[1..]);
        crossing := Room(c);
        assert After(c, calls[..0]) == c;
      } else if crossing > 0 {
        var i :| 0 <= i < |calls| - 1 && Crossing(After(d, calls[1..][..i]), calls[1..][i]) &&
                 Room(After(d, calls[1..][..i])) == crossing;
        assert calls[..i + 1][0] == calls[0] && calls[..i + 1][1..] == calls[1..][..i];
        assert After(c, calls[..i + 1]) == After(d, calls[1..][..i]) && calls[i + 1] == calls[1..][i];
      }
    }
  }

  lemma {:induction false} ChargedIsNotNegative(c: Cap, calls: seq<Call>)
    requires Sane(c) && Positive(calls)
    ensures 0 <= Charged(c, calls)
    decreases |calls|
  {
    if calls != [] {
      StepKeepsSane(c, calls[0]);
      ChargedIsNotNegative(Step(c, calls[0]).cap, calls[1..]);
    }
  }

  /** In every second of every run at most twice the rate passes, plus what the one call that reaches
      the byte cap passes. */
  lemma AcceptedInSecond(maxBytes: nat, ratePerSec: nat, start: int, before: seq<Call>, calls: seq<Call>, t: int)
    returns (crossing: int)
    requires Positive(before) && Positive(calls) && WithinSecond(calls, t)
    ensures var c := After(Fresh(maxBytes, ratePerSec, start), before);
            && Accepted(c, calls) <= 2 * ratePerSec + crossing && 0 <= crossing <= Room(c)
            && (crossing > 0 ==> exists i :: 0 <= i < |calls| && Crossing(After(c, calls[..i]), calls[i]))
  {
    var c0 := Fresh(maxBytes, ratePerSec, start);
    RunAccounts(c0, before);
    var c := After(c0, before);
    ChargedInSecond(c, calls, t);
    crossing := AcceptedIsChargedPlusCrossing(c, calls);
  }
}
