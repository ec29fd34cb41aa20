/** The bracketed-paste sniffer (internal/ptyinput/sniffer.go), call by call. */
module Sniffer {
  import opened Wrappers
  import opened ByteSeq
  import opened PasteParser
  import opened PasteCalls

  class Sniffer {
    const cap: nat
    const attach: bool
    const uploads: Uploads
    var inside: bool
    var pasteBuf: Bytes
    var boundary: Bytes
    var handled: nat
    var forwarded: Bytes           // everything given to the remote PTY so far
    ghost var pieces: seq<Piece>   // what that was made of

    constructor (cap: nat, attach: bool, uploads: Uploads)
      ensures this.cap == cap && this.attach == attach && this.uploads == uploads
      ensures Valid() && State() == Stream(uploads, cap, []) && forwarded == []
    {
      this.cap, this.attach, this.uploads := cap, attach, uploads;
      inside, pasteBuf, boundary, handled, forwarded, pieces := false, [], [], 0, [], [];
    }

    /** What holds whatever comes in: nothing is held back without bound. */
    ghost predicate Valid()
      reads this
    {
      |boundary| < 6 && |pasteBuf| <= cap && forwarded == ShownAll(pieces)
    }

    function Now(): Live
      reads this
    {
      Live(inside, pasteBuf, handled)
    }

    ghost function State(): Fed
      reads this
    {
      Fed(Now(), boundary, pieces)
    }

    method Forward(b: Bytes, ghost ps: seq<Piece>)
      requires forwarded == ShownAll(pieces) && ShownAll(ps) == b
      modifies this`forwarded, this`pieces
      ensures forwarded == ShownAll(pieces) && forwarded == old(forwarded) + b && pieces == old(pieces) + ps
    {
      ShownConcat(pieces, ps);
      forwarded, pieces := forwarded + b, pieces + ps;
    }

    method PassRaw(b: Bytes)
      requires forwarded == ShownAll(pieces)
      modifies this`forwarded, this`pieces
      ensures forwarded == ShownAll(pieces) && forwarded == old(forwarded) + b && pieces == old(pieces) + Raws(b)
    {
      ShownRaws(b);
      Forward(b, Raws(b));
    }

    /** Adds to the paste body; over the cap the whole paste is let go as it came. */
    method Accumulate(b: Bytes)
      requires Valid()
      modifies this`inside, this`pasteBuf, this`forwarded, this`pieces
      ensures Valid() && State() == Onto(old(pieces), Gather(cap, old(Now()), b)).(boundary := boundary)
      ensures |old(pasteBuf)| + |b| <= cap ==>
        inside == old(inside) && pasteBuf == old(pasteBuf) + b && forwarded == old(forwarded)
      ensures |old(pasteBuf)| + |b| > cap ==>
        !inside && pasteBuf == [] && forwarded == old(forwarded) + (BEGIN + old(pasteBuf) + b)
    {
      if |pasteBuf| + |b| <= cap {
        pasteBuf := pasteBuf + b;
        assert pieces + [] == pieces;
        return;
      }
      var merged := BEGIN + pasteBuf + b;
      PassRaw(merged);
      inside, pasteBuf := false, [];
    }

    method HandlePaste(payload: Bytes)
      requires forwarded == ShownAll(pieces)
      modifies this`forwarded, this`pieces, this`handled
      ensures forwarded == ShownAll(pieces) && old(forwarded) <= forwarded && handled == old(handled) + 1
      ensures pieces == old(pieces) + [Pasted(payload, uploads(old(handled), payload))]
      ensures match uploads(old(handled), payload)
              case Some(path) => forwarded == old(forwarded) + (BEGIN + path + END)
              case None => forwarded == old(forwarded) + (BEGIN + payload + END)
    {
      var uploaded := uploads(handled, payload);
      var shown := BEGIN + (if uploaded.Some? then uploaded.value else payload) + END;
      ShownOne(Pasted(payload, uploaded));
      Forward(shown, [Pasted(payload, uploaded)]);
      handled := handled + 1;
    }

    /** What to do at an ESC: stash what may be the start of a marker, act on a whole marker, or let
        the ESC through, outside a paste together with all that follows it up to the next one.
        `wasInside` is the state before the bytes that led up to it, which may have been too many. */
    method AtEsc(q: Bytes, i: nat, wasInside: bool) returns (stop: bool, j: nat)
      requires Valid() && i < |q| && q[i] == ESC && boundary == []
      modifies this
      ensures Valid() && old(forwarded) <= forwarded
      ensures var t := Turned(uploads, cap, wasInside, old(Now()), q[i..]);
              && stop == t.Stop? && State() == Onto(old(pieces), t.fed) && (t.Go? ==> j == i + t.used && boundary == [])
    {
      var match_ := MatchPrefix(q[i..], Marker(wasInside));
      if match_.Partial? {
        boundary := q[i..];
        assert pieces + [] == pieces;
        return true, i;
      }
      stop := false;
      if match_.Full? {
        PassMarker(wasInside);
        j := i + 6;
      } else if wasInside {
        Accumulate([ESC]);
        j := i + 1;
      } else {
        j := PassEscape(q, i);
      }
    }

    /** A whole marker opens a paste or closes one. */
    method PassMarker(wasInside: bool)
      requires Valid() && boundary == []
      modifies this
      ensures Valid() && old(forwarded) <= forwarded && boundary == []
      ensures Now() == if wasInside then Live(false, [], old(handled) + 1) else Live(true, [], old(handled))
      ensures pieces == old(pieces) +
        if wasInside then [Pasted(old(pasteBuf), uploads(old(handled), old(pasteBuf)))] else []
    {
      if wasInside {
        var payload := pasteBuf;
        inside, pasteBuf := false, [];
        HandlePaste(payload);
      } else {
        inside, pasteBuf := true, [];
        assert pieces + [] == pieces;
      }
    }

    /** Outside a paste an escape that is no marker leaves in one piece with what follows it. */
    method PassEscape(q: Bytes, i: nat) returns (j: nat)
      requires Valid() && i < |q| && q[i] == ESC && boundary == []
      modifies this`forwarded, this`pieces
      ensures Valid() && old(forwarded) <= forwarded && i < j <= |q|
      ensures j == i + IndexEsc(q[i..], 1) && pieces == old(pieces) + Raws(q[i..][..j - i])
    {
      j := IndexEsc(q, i + 1);
      IndexEscOfRest(q, i, 1);
      assert q[i..j] == q[i..][..j - i];
      PassRaw(q[i..j]);
    }

    /** One chunk. What goes out and what is held back is a function of the state and the chunk, whatever
        is in it. What went out stays out, and no more than a paste of the cap's length and part of a
        marker is held. As long as no paste outgrows the cap the effect is that of the bytes one after
        another, so that only their sequence matters and not how it was cut. */
    method Feed(p: Bytes)
      requires Valid()
      modifies this
      ensures Valid() && old(forwarded) <= forwarded
      ensures !attach ==> forwarded == old(forwarded) + p && Now() == old(Now()) && boundary == old(boundary)
      ensures attach ==> State() == Onto(old(pieces), Chunk(uploads, cap, old(Now()), old(boundary) + p))
      ensures attach && Regular(old(State())) && Fits(uploads, cap, ModeOf(old(State())), p) ==>
        Regular(State()) && Result(ModeOf(State()), pieces) == After(old(pieces), Run(uploads, ModeOf(old(State())), p))
    {
      if !attach {
        PassRaw(p);
        return;
      }
      ghost var was := State();
      if Regular(was) && Fits(uploads, cap, ModeOf(was), p) {
        CallIsRun(uploads, cap, ModeOf(was), boundary, p);
      }
      var q := boundary + p;
      boundary := [];
      FeedAll(q);
    }

    /** A chunk with what was held back put before it. */
    method FeedAll(q: Bytes)
      requires Valid() && boundary == []
      modifies this
      ensures Valid() && old(forwarded) <= forwarded
      ensures State() == Onto(old(pieces), Chunk(uploads, cap, old(Now()), q))
    {
      ghost var goal := Onto(pieces, Chunk(uploads, cap, Now(), q));
      var i := 0;
      assert q[0..] == q;
      while i < |q|
        invariant i <= |q| && Valid() && old(forwarded) <= forwarded && boundary == []
        invariant goal == Onto(pieces, Chunk(uploads, cap, Now(), q[i..]))
      {
        var stop, j := Advance(q, i);
        if stop {
          return;
        }
        i := j;
      }
      assert q[|q|..] == [] && pieces + [] == pieces;
    }

    method Advance(q: Bytes, i: nat) returns (stop: bool, j: nat)
      requires Valid() && i < |q| && boundary == []
      modifies this
      ensures Valid() && old(forwarded) <= forwarded
      ensures stop ==> State() == Onto(old(pieces), Chunk(uploads, cap, old(Now()), q[i..]))
      ensures !stop ==> i < j <= |q| && boundary == []
      ensures !stop ==>
        Onto(pieces, Chunk(uploads, cap, Now(), q[j..])) == Onto(old(pieces), Chunk(uploads, cap, old(Now()), q[i..]))
    {
      ghost var r := Round(uploads, cap, Now(), q[i..]);
      RoundThenRest(uploads, cap, Now(), pieces, q, i, r);
      stop, j := OneRound(q, i);
      assert !stop ==> Now() == r.fed.live && j == i + r.used;
    }

    method OneRound(q: Bytes, i: nat) returns (stop: bool, j: nat)
      requires Valid() && i < |q| && boundary == []
      modifies this
      ensures Valid() && old(forwarded) <= forwarded
      ensures var r := Round(uploads, cap, old(Now()), q[i..]);
              && stop == r.Stop? && State() == Onto(old(pieces), r.fed) && (r.Go? ==> j == i + r.used && boundary == [])
    {
      ghost var m, ps := Now(), pieces;
      var wasInside := inside;
      var next := IndexEsc(q, i);
      IndexEscOfRest(q, i, 0);
      PassPlain(q, i, next);
      if next == |q| {
        RoundEnds(uploads, cap, m, q[i..]);
        return true, next;
      }
      stop, j := EscRound(q, i, next, wasInside, m, ps);
    }

    /** The ESC that ends the round. */
    method EscRound(q: Bytes, i: nat, next: nat, wasInside: bool, ghost m: Live, ghost ps: seq<Piece>)
      returns (stop: bool, j: nat)
      requires Valid() && boundary == [] && i <= next < |q| && q[next] == ESC && wasInside == m.inside
      requires next - i == IndexEsc(q[i..], 0)
      requires State() == Onto(ps, Plain(cap, m, q[i..][..next - i]))
      modifies this
      ensures Valid() && old(forwarded) <= forwarded
      ensures var r := Round(uploads, cap, m, q[i..]);
              && stop == r.Stop? && State() == Onto(ps, r.fed) && (r.Go? ==> j == i + r.used && boundary == [])
    {
      ghost var t := Turned(uploads, cap, wasInside, Now(), q[next..]);
      assert q[i..][next - i..] == q[next..];
      RoundReached(uploads, cap, m, ps, q[i..], next - i, State(), t);
      stop, j := AtEsc(q, next, wasInside);
    }

    /** The bytes before the next ESC. */
    method PassPlain(q: Bytes, i: nat, next: nat)
      requires Valid() && i <= next <= |q| && boundary == []
      modifies this`inside, this`pasteBuf, this`forwarded, this`pieces
      ensures Valid() && old(forwarded) <= forwarded
      ensures State() == Onto(old(pieces), Plain(cap, old(Now()), q[i..][..next - i]))
    {
      var plain := q[i..next];
      assert plain == q[i..][..next - i];
      if inside {
        Accumulate(plain);
      } else {
        PassRaw(plain);
      }
    }

    /** Any stream in any chunks. A clean one loses nothing, adds nothing and reorders nothing; one whose
        pastes fit the cap is clean, and is read as it would be in one piece. */
    method FeedStream(chunks: seq<Bytes>)
      requires Valid() && attach && State() == Stream(uploads, cap, [])
      modifies this
      ensures Valid() && State() == Stream(uploads, cap, chunks)
      ensures CleanStream(uploads, cap, chunks) ==>
        OriginalAll(pieces) + (HeldBy(Now()) + boundary) == Flatten(chunks)
      ensures CleanStream(uploads, cap, chunks) && (forall n, b :: uploads(n, b) == None) ==>
        forwarded + (HeldBy(Now()) + boundary) == Flatten(chunks)
      ensures Fits(uploads, cap, Idle(0), Flatten(chunks)) ==>
        && CleanStream(uploads, cap, chunks)
        && Result(ModeOf(State()), pieces) == Run(uploads, Idle(0), Flatten(chunks))
    {
      for i := 0 to |chunks|
        invariant Valid() && State() == Stream(uploads, cap, chunks[..i])
      {
        assert chunks[..i + 1][..i] == chunks[..i];
        Feed(chunks[i]);
      }
      assert chunks[..|chunks|] == chunks;
      if Fits(uploads, cap, Idle(0), Flatten(chunks)) {
        StreamIsRun(uploads, cap, chunks);
      }
      if CleanStream(uploads, cap, chunks) {
        CleanStreamConserves(uploads, cap, chunks);
        if forall n, b :: uploads(n, b) == None {
          CleanStreamIsShown(uploads, cap, chunks);
        }
      }
    }

    /** Typing and pastes within the cap, cut in any way: what the remote gets is the same with the path in
        place of every paste that was uploaded. */
    method FeedInserts(chunks: seq<Bytes>, ghost list: seq<Insert>, ghost tail: Bytes)
      requires Valid() && attach && State() == Stream(uploads, cap, [])
      requires Flatten(chunks) == Sent(list) + tail
      requires (forall i :: i in list ==> Plainly(i) && |i.body| <= cap) && ESC !in tail
      modifies this
      ensures Valid() && forwarded == Arriving(uploads, 0, list) + tail
    {
      InsertsArrive(uploads, cap, list, tail);
      FeedStream(chunks);
    }

    /** The end of the input: what is held back is let go. */
    method Flush()
      requires Valid()
      modifies this`inside, this`pasteBuf, this`boundary, this`forwarded, this`pieces
      ensures Valid() && boundary == []
      ensures forwarded == old(forwarded) + old(boundary) + OpenBody(old(Now()))
      ensures pieces == old(pieces) + Raws(old(boundary)) + Raws(OpenBody(old(Now())))
      ensures Now() ==
        if old(inside) && old(pasteBuf) != [] then Live(false, [], old(handled)) else old(Now())
    {
      PassRaw(boundary);
      boundary := [];
      if inside && pasteBuf != [] {
        var merged := BEGIN + pasteBuf;
        pasteBuf, inside := [], false;
        PassRaw(merged);
      } else {
        assert pieces + [] == pieces && forwarded + [] == forwarded;
      }
    }

    /** A stream and its end. A clean one has gone out as it came exactly if no paste is open at the end,
        or an open one has a body and no end marker has begun. */
    method FeedToEnd(chunks: seq<Bytes>)
      requires Valid() && attach && State() == Stream(uploads, cap, [])
      modifies this
      ensures Valid()
      ensures CleanStream(uploads, cap, chunks) ==>
        var s := Stream(uploads, cap, chunks);
        OriginalAll(pieces) == Flatten(chunks) <==> !s.live.inside || (s.live.buf != [] && s.boundary == [])
    {
      FeedStream(chunks);
      if CleanStream(uploads, cap, chunks) {
        FlushedStreamIff(uploads, cap, chunks);
      }
      Flush();
    }
  }
}
