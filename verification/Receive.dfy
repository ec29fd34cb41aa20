/** The streaming receive (internal/filesync/receive.go): a staging file that may keep what an earlier
    attempt left, a running digest over it, and the commit that installs the file. */
module Receive {
  import opened Wrappers
  import opened ByteSeq
  import opened FileModel
  import opened Replication
  import opened Rescan
  import opened Engine

  // ---- the staging file -------------------------------------------------------------------

  /** Whether opening keeps the first `offset` bytes of what an earlier attempt left: they have to be
      there, and reading them back has to work. */
  predicate Resumed(offset: nat, staging: Option<Bytes>, reread: bool) {
    offset > 0 && staging.Some? && |staging.value| >= offset && reread
  }

  function KeptPrefix(offset: nat, staging: Option<Bytes>, reread: bool): Bytes {
    if Resumed(offset, staging, reread) then staging.value[..offset] else []
  }

  /** The staging file once it is open. Cutting it at the offset may fail, and that is ignored. */
  function Opened(offset: nat, staging: Option<Bytes>, reread: bool, truncated: bool): Bytes {
    if Resumed(offset, staging, reread) && !truncated then staging.value else KeptPrefix(offset, staging, reread)
  }

  /** Writing `data` at `at`, over what is there. */
  function Overwritten(file: Bytes, at: nat, data: Bytes): Bytes
    requires at <= |file|
  {
    file[..at] + data + if at + |data| < |file| then file[at + |data|..] else []
  }

  /** What the digest has seen after `data` came in. */
  function Assembled(offset: nat, staging: Option<Bytes>, reread: bool, data: Bytes): Bytes {
    KeptPrefix(offset, staging, reread) + data
  }

  /** What the staging file then holds. */
  function Staged(offset: nat, staging: Option<Bytes>, reread: bool, truncated: bool, data: Bytes): Bytes {
    Overwritten(Opened(offset, staging, reread, truncated), |KeptPrefix(offset, staging, reread)|, data)
  }

  lemma OverwrittenTwice(file: Bytes, at: nat, a: Bytes, b: Bytes)
    requires at <= |file|
    ensures Overwritten(Overwritten(file, at, a), at + |a|, b) == Overwritten(file, at, a + b)
  {
    var once := Overwritten(file, at, a);
    assert once[..at + |a|] == file[..at] + a;
    if at + |a| + |b| < |file| {
      assert once[at + |a| + |b|..] == file[at + |a| + |b|..];
    }
    assert file[..at] + a + b == file[..at] + (a + b);
  }

  /** A staging file being filled. `fed` is what the running digest has seen. */
  class PendingWrite {
    const engine: Engine
    const rel: string
    const modTime: int
    var staged: Bytes
    var fed: Bytes
    var broken: bool

    ghost predicate Valid()
      reads this
    {
      !broken ==> |fed| <= |staged| && staged[..|fed|] == fed
    }

    constructor (engine: Engine, meta: Frame, staging: Option<Bytes>, reread: bool, truncated: bool)
      requires meta.FileMeta?
      ensures Valid() && !broken && this.engine == engine && rel == meta.path && modTime == meta.modTime
      ensures fed == KeptPrefix(meta.offset, staging, reread)
      ensures staged == Opened(meta.offset, staging, reread, truncated)
    {
      this.engine, rel, modTime, broken := engine, meta.path, meta.modTime, false;
      if meta.offset > 0 && staging.Some? && |staging.value| >= meta.offset && reread {
        fed := staging.value[..meta.offset];
        staged := if truncated then staging.value[..meta.offset] else staging.value;
      } else {
        fed, staged := [], [];
      }
    }

    /** `lands` says whether the disk takes the chunk. */
    method Write(data: Bytes, lands: bool) returns (ok: bool)
      requires Valid() && !broken
      modifies this`staged, this`fed, this`broken
      ensures Valid() && (ok <==> !broken) && (ok <==> lands)
      ensures ok ==> fed == old(fed) + data && staged == Overwritten(old(staged), |old(fed)|, data)
    {
      ok := lands;
      if !ok {
        broken := true;
        return;
      }
      var end := |fed| + |data|;
      staged := staged[..|fed|] + data + if end < |staged| then staged[end..] else [];
      fed := fed + data;
    }

    /** Installs the file if, and only if, the bytes that were fed have the promised digest, unless the
        copy on disk is strictly newer; that one is kept, and the staging file goes. */
    method Commit(finalHash: string, version: int, closes: bool, renames: bool, fileID: string) returns (ok: bool)
      requires Valid() && !broken
      modifies engine`disk, engine`index, engine`tombstones, engine`suppressedHash, engine`partials
      ensures ok <==> closes && engine.w.sha(fed) == finalHash && (IsNewer(old(engine.disk), rel, modTime) || renames)
      ensures !ok ==> engine.View() == old(engine.View()) && engine.index == old(engine.index)
      ensures !ok ==> engine.suppressedHash == old(engine.suppressedHash) && engine.partials == old(engine.partials)
      ensures ok ==> engine.View() == FileApplied(old(engine.View()), rel, File(staged, modTime, fileID))
      ensures ok && !IsNewer(old(engine.disk), rel, modTime) ==>
        && engine.disk == old(engine.disk)[rel := File(staged, modTime, fileID)]
        && engine.tombstones == old(engine.tombstones) - {rel}
      ensures ok && IsNewer(old(engine.disk), rel, modTime) ==>
        && engine.disk == old(engine.disk) && engine.tombstones == old(engine.tombstones)
        && Moved(engine.w, old(engine.disk), old(engine.index), Record(rel, 0), engine.disk, engine.index)
        && engine.suppressedHash == old(engine.suppressedHash) && engine.partials == old(engine.partials)
      ensures ok && !IsNewer(old(engine.disk), rel, modTime) ==>
        && Moved(engine.w, old(engine.disk), old(engine.index),
                 Install(rel, File(staged, modTime, fileID), fed, version),
                 engine.disk, engine.index)
        && engine.suppressedHash == old(engine.suppressedHash)[rel := finalHash]
        && engine.partials == old(engine.partials) - {rel}
    {
      if !closes || engine.w.sha(fed) != finalHash {
        return false;
      }
      if rel in engine.disk && engine.disk[rel].modTime > modTime {
        engine.index := engine.index[rel := InfoOf(engine.w, rel, engine.disk[rel])];
        return true;
      }
      if !renames {
        return false;
      }
      var f := File(staged, modTime, fileID);
      engine.disk := engine.disk[rel := f];
      var info := InfoOf(engine.w, rel, f).(size := |fed|, hash := finalHash, version := version);
      engine.index := engine.index[rel := info];
      engine.suppressedHash := engine.suppressedHash[rel := finalHash];
      engine.tombstones := engine.tombstones - {rel};
      engine.partials := engine.partials - {rel};
      ok := true;
    }
  }

  predicate IsNewer(disk: map<string, File>, rel: string, modTime: int) {
    rel in disk && disk[rel].modTime > modTime
  }

  // ---- a whole file -----------------------------------------------------------------------

  /** What the file system does to one incoming file; `written` chunks are taken before one fails. */
  datatype Luck = Luck(reread: bool, truncated: bool, written: nat, closes: bool, renames: bool, fileID: string)

  /** The bytes of the chunks among some frames, one block for each. */
  function Payloads(frames: seq<Frame>): seq<Bytes> {
    if frames == [] then []
    else
      var last := frames[|frames| - 1];
      Payloads(frames[..|frames| - 1]) + if last.FileChunk? then [last.data] else []
  }

  /** Everything that is promised of one incoming file whose writes went through. */
  ghost predicate Received(w: World, was: Replica, meta: Frame, staging: Option<Bytes>, data: Bytes, hash: string,
                           luck: Luck, now: Replica, ok: bool)
    requires meta.FileMeta?
  {
    var fed := Assembled(meta.offset, staging, luck.reread, data);
    var staged := Staged(meta.offset, staging, luck.reread, luck.truncated, data);
    && (ok <==> luck.closes && w.sha(fed) == hash && (IsNewer(was.disk, meta.path, meta.modTime) || luck.renames))
    && now == if ok then FileApplied(was, meta.path, File(staged, meta.modTime, luck.fileID)) else was
  }

  /** One file from its first frame to its last: the staging file is opened, every chunk written, the
      result committed. A write that fails ends it with nothing changed. */
  method ReceiveFile(engine: Engine, meta: Frame, blocks: seq<Bytes>, hash: string, version: int,
                     staging: Option<Bytes>, luck: Luck)
    returns (wrote: bool, ok: bool)
    requires meta.FileMeta?
    modifies engine`disk, engine`index, engine`tombstones, engine`suppressedHash, engine`partials
    ensures wrote <==> |blocks| <= luck.written
    ensures !wrote ==> !ok && engine.View() == old(engine.View()) && engine.index == old(engine.index)
    ensures wrote ==>
      Received(engine.w, old(engine.View()), meta, staging, Flatten(blocks), hash, luck, engine.View(), ok)
    ensures !ok ==>
      engine.index == old(engine.index) && engine.suppressedHash == old(engine.suppressedHash)
      && engine.partials == old(engine.partials)
    ensures ok && !IsNewer(old(engine.disk), meta.path, meta.modTime) ==>
      && engine.suppressedHash == old(engine.suppressedHash)[meta.path := hash]
      && engine.partials == old(engine.partials) - {meta.path}
  {
    var pw := new PendingWrite(engine, meta, staging, luck.reread, luck.truncated);
    ghost var kept, start := pw.fed, pw.staged;
    assert Overwritten(start, |kept|, []) == start;
    for i := 0 to |blocks|
      invariant pw.Valid() && !pw.broken && fresh(pw) && pw.engine == engine
      invariant pw.rel == meta.path && pw.modTime == meta.modTime
      invariant pw.fed == kept + Flatten(blocks[..i]) && pw.staged == Overwritten(start, |kept|, Flatten(blocks[..i]))
      invariant engine.View() == old(engine.View()) && engine.index == old(engine.index) && i <= luck.written
      invariant engine.suppressedHash == old(engine.suppressedHash) && engine.partials == old(engine.partials)
    {
      assert blocks[..i + 1] == blocks[..i] + [blocks[i]];
      FlattenSnoc(blocks[..i], blocks[i]);
      OverwrittenTwice(start, |kept|, Flatten(blocks[..i]), blocks[i]);
      wrote := pw.Write(blocks[i], i < luck.written);
      if !wrote {
        return wrote, false;
      }
    }
    assert blocks[..|blocks|] == blocks;
    wrote := true;
    ok := pw.Commit(hash, version, luck.closes, luck.renames, luck.fileID);
  }

  // ---- end to end -------------------------------------------------------------------------

  lemma {:induction false} PayloadsConcat(a: seq<Frame>, b: seq<Frame>)
    ensures Payloads(a + b) == Payloads(a) + Payloads(b)
    decreases |b|
  {
    if b == [] {
      assert a + b == a;
    } else {
      var n := |b| - 1;
      PayloadsConcat(a, b[..n]);
      assert (a + b)[..|a + b| - 1] == a + b[..n];
    }
  }

  /** The frames carry the blocks that were read, the empty ones aside. */
  lemma {:induction false} ChunksCarryBlocks(rel: string, blocks: seq<Bytes>)
    ensures Flatten(Payloads(Chunks(rel, blocks))) == Flatten(blocks)
    decreases |blocks|
  {
    if blocks != [] {
      var n := |blocks| - 1;
      ChunksCarryBlocks(rel, blocks[..n]);
      var before := Chunks(rel, blocks[..n]);
      if blocks[n] == [] {
        assert before + [] == before;
        assert Flatten(blocks[..n]) + [] == Flatten(blocks[..n]);
      } else {
        var c := FileChunk(rel, |before|, blocks[n]);
        assert (before + [c])[..|before|] == before;
        FlattenSnoc(Payloads(before), blocks[n]);
      }
    }
  }

  lemma {:induction false} OnePayloadEach(rel: string, blocks: seq<Bytes>)
    ensures |Payloads(Chunks(rel, blocks))| == |Chunks(rel, blocks)|
    decreases |blocks|
  {
    if blocks != [] {
      var n := |blocks| - 1;
      var before := Chunks(rel, blocks[..n]);
      OnePayloadEach(rel, blocks[..n]);
      if blocks[n] == [] {
        assert before + [] == before;
      } else {
        assert (before + [FileChunk(rel, |before|, blocks[n])])[..|before|] == before;
      }
    }
  }

  lemma TransmissionCarries(w: World, info: FileInfo, offset: nat, prefix: Bytes, blocks: seq<Bytes>)
    ensures var payloads := Payloads(Transmission(w, info, offset, prefix, blocks));
            Flatten(payloads) == Flatten(blocks) && |payloads| == |Chunks(info.path, blocks)|
  {
    var head := [FileMeta(info.path, info.size, info.modTime, info.hash, info.version, offset)];
    var tail := [FileDone(info.path, w.sha(prefix + Flatten(blocks)), info.version)];
    PayloadsConcat(head, Chunks(info.path, blocks));
    PayloadsConcat(head + Chunks(info.path, blocks), tail);
    assert Payloads(head) == [] && Payloads(tail) == [];
    assert [] + Payloads(Chunks(info.path, blocks)) + [] == Payloads(Chunks(info.path, blocks));
    ChunksCarryBlocks(info.path, blocks);
    OnePayloadEach(info.path, blocks);
  }

  /** Equal digests leave no room for different prefixes of the same data. */
  lemma DigestsMatchIffPrefixesDo(w: World, kept: Bytes, prefix: Bytes, data: Bytes)
    requires Injective(w)
    ensures w.sha(kept + data) == w.sha(prefix + data) <==> kept == prefix
  {
    if kept + data == prefix + data {
      assert |kept| == |prefix|;
      assert (kept + data)[..|kept|] == (prefix + data)[..|kept|];
      assert kept == prefix;
    }
  }

  /** The staging file holds exactly what the digest has seen, unless the file was not cut and what was
      left reaches beyond what came in. */
  lemma StagedIsAssembledIff(offset: nat, staging: Option<Bytes>, reread: bool, truncated: bool, data: Bytes)
    ensures Staged(offset, staging, reread, truncated, data) == Assembled(offset, staging, reread, data) <==>
            (truncated || !Resumed(offset, staging, reread) || |staging.value| <= offset + |data|)
  {
    var kept, start := KeptPrefix(offset, staging, reread), Opened(offset, staging, reread, truncated);
    assert start[..|kept|] == kept;
    if |kept| + |data| >= |start| {
      assert Staged(offset, staging, reread, truncated, data) == kept + data;
    } else {
      assert |Staged(offset, staging, reread, truncated, data)| == |start|;
    }
  }

  /** A file as the sender put it on the wire, whatever happened to the source meanwhile. The disk takes it
      or not; if it does, and the file closes and renames, it is accepted exactly if the prefix the
      receiver kept is the one the sender's digest covers; and the bytes installed are the verified ones
      exactly if nothing stale reaches beyond them. */
  method ReceiveTransmission(engine: Engine, info: FileInfo, offset: nat, prefix: Bytes, blocks: seq<Bytes>,
                             staging: Option<Bytes>, luck: Luck)
    returns (wrote: bool, ok: bool)
    requires Injective(engine.w)
    modifies engine`disk, engine`index, engine`tombstones, engine`suppressedHash, engine`partials
    ensures wrote <==> |Chunks(info.path, blocks)| <= luck.written
    ensures ok ==> wrote
    ensures wrote && luck.closes && luck.renames ==> (ok <==> KeptPrefix(offset, staging, luck.reread) == prefix)
    ensures ok ==> KeptPrefix(offset, staging, luck.reread) == prefix
    ensures ok ==>
      var staged := Staged(offset, staging, luck.reread, luck.truncated, Flatten(blocks));
      engine.View() == FileApplied(old(engine.View()), info.path, File(staged, info.modTime, luck.fileID))
    ensures !ok ==> engine.View() == old(engine.View())
    ensures ok ==>
      (Staged(offset, staging, luck.reread, luck.truncated, Flatten(blocks)) == prefix + Flatten(blocks) <==>
         luck.truncated || !Resumed(offset, staging, luck.reread) || |staging.value| <= offset + |Flatten(blocks)|)
  {
    var frames := Transmission(engine.w, info, offset, prefix, blocks);
    wrote, ok := ReceiveSent(engine, frames, info, offset, prefix, blocks, staging, luck);
    StagedIsAssembledIff(offset, staging, luck.reread, luck.truncated, Flatten(blocks));
  }

  /** The frames of a transmission, whoever put them together. */
  method ReceiveSent(engine: Engine, frames: seq<Frame>, ghost info: FileInfo, ghost offset: nat, ghost prefix: Bytes,
                     ghost blocks: seq<Bytes>, staging: Option<Bytes>, luck: Luck)
    returns (wrote: bool, ok: bool)
    requires Injective(engine.w) && frames == Transmission(engine.w, info, offset, prefix, blocks)
    modifies engine`disk, engine`index, engine`tombstones, engine`suppressedHash, engine`partials
    ensures wrote <==> |Chunks(info.path, blocks)| <= luck.written
    ensures ok ==> wrote
    ensures wrote && luck.closes && luck.renames ==> (ok <==> KeptPrefix(offset, staging, luck.reread) == prefix)
    ensures ok ==>
      var staged := Staged(offset, staging, luck.reread, luck.truncated, Flatten(blocks));
      && engine.View() == FileApplied(old(engine.View()), info.path, File(staged, info.modTime, luck.fileID))
      && KeptPrefix(offset, staging, luck.reread) == prefix
    ensures !ok ==> engine.View() == old(engine.View())
  {
    TransmissionCarries(engine.w, info, offset, prefix, blocks);
    DigestsMatchIffPrefixesDo(engine.w, KeptPrefix(offset, staging, luck.reread), prefix, Flatten(blocks));
    wrote, ok := ReceiveFrames(engine, frames, staging, luck);
  }

  /** The frames of one file, first to last. */
  method ReceiveFrames(engine: Engine, frames: seq<Frame>, staging: Option<Bytes>, luck: Luck)
    returns (wrote: bool, ok: bool)
    requires |frames| >= 2 && frames[0].FileMeta? && frames[|frames| - 1].FileDone?
    modifies engine`disk, engine`index, engine`tombstones, engine`suppressedHash, engine`partials
    ensures wrote <==> |Payloads(frames)| <= luck.written
    ensures !wrote ==> !ok && engine.View() == old(engine.View())
    ensures wrote ==>
      Received(engine.w, old(engine.View()), frames[0], staging, Flatten(Payloads(frames)), frames[|frames| - 1].hash,
               luck, engine.View(), ok)
  {
    var done := frames[|frames| - 1];
    wrote, ok := ReceiveFile(engine, frames[0], Payloads(frames), done.hash, done.version, staging, luck);
  }

  /** The prefix is the advertised one exactly if its digest is; a file sent from its start needs none. */
  lemma PrefixKeptIffEtagMatches(w: World, info: FileInfo, peerBytes: nat, peerEtag: string, prefixRead: Bytes,
                                 staging: Option<Bytes>, reread: bool)
    requires Injective(w)
    ensures var offset := ResumeOffset(w, info, peerBytes, peerEtag, prefixRead);
            KeptPrefix(offset, staging, reread) == (if offset > 0 then prefixRead else []) <==>
            (offset == 0 || (Resumed(offset, staging, reread) && w.sha(staging.value[..offset]) == peerEtag))
  {
    var offset := ResumeOffset(w, info, peerBytes, peerEtag, prefixRead);
    if offset > 0 && Resumed(offset, staging, reread) && w.sha(staging.value[..offset]) == peerEtag {
      assert staging.value[..offset] == prefixRead;
    }
  }

  /** From one engine over the wire to the other. A file that is due, on a healthy wire and with a source
      that can be read through, is sent; the frames put on the wire are the ones received; and whatever
      the peer claimed to have kept, a length and a digest, a receiver whose disk takes what comes accepts
      the file exactly if the kept bytes have that digest, or nothing was resumed. */
  method Transfer(a: Engine, wire: Sender, b: Engine, rel: string, force: bool, peerBytes: nat, peerEtag: string,
                  prefixRead: Bytes, blocks: seq<Bytes>, fault: SourceFault, now: int,
                  staging: Option<Bytes>, luck: Luck)
    returns (r: Outcome, ok: bool)
    requires a != b && a.w == b.w && Injective(b.w) && rel in a.disk
    modifies a`index, a`tombstones, a`suppressedHash, wire
    modifies b`disk, b`index, b`tombstones, b`suppressedHash, b`partials
    ensures r in {Sent, Swallowed, Unchanged, Failed}
    ensures var info := InfoOf(a.w, rel, old(a.disk)[rel]);
            var swallowed := Swallows(old(a.suppressedHash), info, rel);
            && (r == Swallowed <==> swallowed)
            && (r == Unchanged <==> !swallowed && !force && rel in old(a.index) && SameContent(old(a.index)[rel], info))
    ensures wire.healthy && !Breaks(a.w, InfoOf(a.w, rel, old(a.disk)[rel]), peerBytes, peerEtag, prefixRead, fault) ==>
      r != Failed
    ensures r != Sent ==> !ok
    ensures r == Sent ==>
      var info := InfoOf(a.w, rel, old(a.disk)[rel]).(version := old(a.disk)[rel].modTime);
      var offset := ResumeOffset(a.w, info, peerBytes, peerEtag, prefixRead);
      var prefix := if offset > 0 then prefixRead else [];
      old(wire.sent) + Transmission(a.w, info, offset, prefix, blocks) <= wire.sent
    ensures r == Sent && |Chunks(rel, blocks)| <= luck.written && luck.closes && luck.renames ==>
      var info := InfoOf(a.w, rel, old(a.disk)[rel]);
      var offset := ResumeOffset(a.w, info, peerBytes, peerEtag, prefixRead);
      (ok <==> offset == 0 || (Resumed(offset, staging, luck.reread) && b.w.sha(staging.value[..offset]) == peerEtag))
    ensures !ok ==> b.View() == old(b.View())
    ensures ok ==>
      var info := InfoOf(a.w, rel, old(a.disk)[rel]);
      var offset := ResumeOffset(a.w, info, peerBytes, peerEtag, prefixRead);
      var staged := Staged(offset, staging, luck.reread, luck.truncated, Flatten(blocks));
      b.View() == FileApplied(old(b.View()), rel, File(staged, old(a.disk)[rel].modTime, luck.fileID))
  {
    ghost var info := InfoOf(a.w, rel, a.disk[rel]).(version := a.disk[rel].modTime);
    ghost var offset := ResumeOffset(a.w, info, peerBytes, peerEtag, prefixRead);
    ghost var prefix := if offset > 0 then prefixRead else [];
    var before := |wire.sent|;
    r := a.SendFile(wire, rel, force, peerBytes, peerEtag, prefixRead, blocks, fault, now);
    ok := false;
    if r == Sent {
      var frames := FramesSince(wire, before, a.w, info, offset, prefix, blocks);
      PrefixKeptIffEtagMatches(a.w, info, peerBytes, peerEtag, prefixRead, staging, luck.reread);
      var wrote;
      wrote, ok := ReceiveSent(b, frames, info, offset, prefix, blocks, staging, luck);
    }
  }

  /** What a send added to the wire, up to its last frame. */
  method FramesSince(wire: Sender, before: nat, ghost w: World, ghost info: FileInfo, ghost offset: nat,
                     ghost prefix: Bytes, ghost blocks: seq<Bytes>)
    returns (frames: seq<Frame>)
    requires before <= |wire.sent|
    requires var out := Transmission(w, info, offset, prefix, blocks);
             wire.sent[before..] == out || wire.sent[before..] == out + [FileSynced(info.path)]
    ensures frames == Transmission(w, info, offset, prefix, blocks)
  {
    frames := wire.sent[before..];
    if frames[|frames| - 1].FileSynced? {
      frames := frames[..|frames| - 1];
    }
  }

  /** Where it goes wrong: three bytes left over, the cut fails, and one byte comes in for the two that
      were to be replaced. The digest matches, and a stale byte is installed behind it. */
  method StaleTailIsInstalled(engine: Engine, info: FileInfo, luck: Luck) returns (ok: bool)
    requires Injective(engine.w) && info.path !in engine.disk
    requires luck.reread && !luck.truncated && luck.closes && luck.renames && luck.written > 0
    modifies engine`disk, engine`index, engine`tombstones, engine`suppressedHash, engine`partials
    ensures ok && info.path in engine.disk && engine.disk[info.path].content == [1, 4, 3] != [1, 4]
  {
    assert Flatten([[4]]) == [4] by {
      FlattenSnoc([], [4]);
      assert [] + [[4]] == [[4]];
    }
    assert |Chunks(info.path, [[4]])| == 1 by {
      ChunksSnoc(info.path, [], [4]);
      assert [] + [[4]] == [[4]];
    }
    assert Staged(1, Some([1, 2, 3]), true, false, [4]) == [1, 4, 3];
    var wrote;
    wrote, ok := ReceiveTransmission(engine, info, 1, [1], [[4]], Some([1, 2, 3]), luck);
  }
}
