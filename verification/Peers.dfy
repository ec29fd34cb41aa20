/** The engine's operations are the steps of the exchange: comparing manifests, sending, and applying what
    comes in do to the two replicas what the exchange model says, so what is proved of every exchange
    holds of engines that carry it out. */
module Peers {
  import opened Wrappers
  import opened ByteSeq
  import opened FileModel
  import opened Replication
  import opened Rescan
  import opened Manifest
  import opened Engine
  import opened Receive

  // ---- comparing --------------------------------------------------------------------------

  /** The list says of every path what the map says, as far as a comparison can tell. */
  ghost predicate Shows(entries: seq<FileInfo>, m: map<string, FileInfo>) {
    forall p :: SameEntry(Lookup(entries, p), if p in m then Some(m[p]) else None)
  }

  ghost predicate Queues(toSend: seq<FileInfo>, toDelete: seq<FileInfo>, queue: map<string, Task>) {
    forall p ::
      && ((p in queue && queue[p].SendFile?) <==> Listed(toSend, p))
      && (forall v :: (p in queue && queue[p] == SendDeletion(v)) <==> ListedAt(toDelete, p, v))
  }

  predicate ListedAt(entries: seq<FileInfo>, p: string, v: int) {
    exists e :: e in entries && e.path == p && e.version == v
  }

  /** Two manifests that show two replicas queue what the exchange queues. */
  method CompareStep(ghost w: World, local: seq<FileInfo>, remote: seq<FileInfo>, ghost r: Replica,
                     ghost theirs: map<string, FileInfo>)
    returns (toSend: seq<FileInfo>, toDelete: seq<FileInfo>)
    requires Shows(local, ManifestOf(w, r)) && Shows(remote, theirs) && EachOnce(local)
    ensures Queues(toSend, toDelete, Queued(w, r, theirs))
  {
    toSend, toDelete := DiffManifests(local, remote);
    forall p
      ensures (p in Queued(w, r, theirs) && Queued(w, r, theirs)[p].SendFile?) <==> Listed(toSend, p)
      ensures forall v ::
        (p in Queued(w, r, theirs) && Queued(w, r, theirs)[p] == SendDeletion(v)) <==> ListedAt(toDelete, p, v)
    {
      OnePath(w, local, remote, r, theirs, p);
      if Lookup(local, p).Some? {
        LookupFinds(local, p);
        var l := Lookup(local, p).value;
        if Verdict(l, remote).Push? {
          assert PushEntry(p, Verdict(l, remote)) in toSend;
        }
      }
      forall e | e in toSend && e.path == p
        ensures Lookup(local, p).Some? && Verdict(Lookup(local, p).value, remote).Push? {
        var l :| l in local && Verdict(l, remote).Push? && e == PushEntry(l.path, Verdict(l, remote));
      }
      forall e | e in toDelete && e.path == p
        ensures Lookup(local, p) == Some(e) && Verdict(e, remote).PushDelete? {
      }
    }
  }

  /** What an engine without resume points sends after a rescan, at any point of any run, is such a list. */
  lemma ManifestIsShown(w: World, books: seq<Book>, moves: seq<Move>, hidden: set<string>, rootOK: bool, now: int,
                        tombs: map<string, int>, index': map<string, FileInfo>, tombs': map<string, int>,
                        entries: seq<FileInfo>)
    requires Injective(w) && Rescan.Run(w, books, moves) && StampsAreTelling(books)
    requires books[|moves|].disk - hidden != map[] || rootOK
    requires Rescanned(w, books[|moves|].disk - hidden, rootOK, now, books[|moves|].index, tombs, index', tombs')
    requires IsManifest(entries, index', tombs', map[])
    ensures Shows(entries, ManifestOf(w, Replica(books[|moves|].disk - hidden, tombs'))) && EachOnce(entries)
  {
    var r := Replica(books[|moves|].disk - hidden, tombs');
    forall p ensures SameEntry(Lookup(entries, p), EntryOf(w, p, At(r, p))) {
      ManifestShowsReplica(w, books, moves, hidden, rootOK, now, tombs, index', tombs', map[], p);
      ManifestShows(entries, index', tombs', map[], p);
    }
    NothingTwice(entries, index', tombs', map[]);
  }

  /** What is decided for one path, by the engine and by the model. */
  lemma OnePath(w: World, local: seq<FileInfo>, remote: seq<FileInfo>, r: Replica, theirs: map<string, FileInfo>,
                p: string)
    requires Shows(local, ManifestOf(w, r)) && Shows(remote, theirs)
    ensures Lookup(local, p).Some? <==> p in ManifestOf(w, r)
    ensures Lookup(local, p).Some? ==>
      var verdict := Decide(Lookup(local, p).value, Lookup(remote, p));
      && (p in Queued(w, r, theirs) <==> !verdict.Nothing?)
      && (!verdict.Nothing? ==> Queued(w, r, theirs)[p] == TaskFor(verdict))
      && (verdict.PushDelete? ==> verdict.version == Lookup(local, p).value.version)
  {
    var mine, theirs' := Lookup(local, p), if p in theirs then Some(theirs[p]) else None;
    var m := ManifestOf(w, r);
    assert SameEntry(mine, if p in m then Some(m[p]) else None);
    assert SameEntry(Lookup(remote, p), theirs');
    if mine.Some? {
      SameEntriesSameDecision(mine, Some(m[p]), Lookup(remote, p), theirs');
      QueuedAt(w, r, theirs, p, theirs');
      DeletesWhatItShows(mine.value, Lookup(remote, p));
    }
  }

  lemma QueuedAt(w: World, r: Replica, theirs: map<string, FileInfo>, p: string, theirs': Option<FileInfo>)
    requires p in ManifestOf(w, r) && theirs' == if p in theirs then Some(theirs[p]) else None
    ensures var verdict := Decide(ManifestOf(w, r)[p], theirs');
            && (p in Queued(w, r, theirs) <==> !verdict.Nothing?)
            && (!verdict.Nothing? ==> Queued(w, r, theirs)[p] == TaskFor(verdict))
  {
  }

  lemma DeletesWhatItShows(mine: FileInfo, theirs: Option<FileInfo>)
    ensures Decide(mine, theirs).PushDelete? ==> Decide(mine, theirs).version == mine.version
  {
  }

  // ---- sending ----------------------------------------------------------------------------

  /** The file that `path` names is due, and what is read of it is what is there. */
  ghost predicate Faithful(a: Engine, path: string, peerBytes: nat, peerEtag: string, prefixRead: Bytes,
                           blocks: seq<Bytes>)
    reads a
  {
    path in a.disk ==>
      var info := InfoOf(a.w, path, a.disk[path]);
      var offset := ResumeOffset(a.w, info, peerBytes, peerEtag, prefixRead);
      && !Swallows(a.suppressedHash, info, path)
      && (if offset > 0 then prefixRead else []) + Flatten(blocks) == a.disk[path].content
  }

  /** The frames a message travels in. */
  ghost predicate Carries(w: World, before: seq<Frame>, after: seq<Frame>, m: Message, info: FileInfo, offset: nat,
                          prefix: Bytes, blocks: seq<Bytes>)
  {
    match m
    case DeleteMessage(path, version) => after == before + [Delete(path, version)]
    case FileMessage(path, content, modTime) =>
      && info.path == path && info.modTime == modTime && prefix + Flatten(blocks) == content
      && before + Transmission(w, info, offset, prefix, blocks) <= after
  }

  /** Carrying out a queued task over a healthy wire is the exchange's transmission. */
  method TransmitStep(a: Engine, wire: Sender, path: string, task: Task, peerBytes: nat, peerEtag: string,
                      prefixRead: Bytes, blocks: seq<Bytes>, now: int,
                      ghost remote: map<string, FileInfo>, ghost me: Peer, ghost other: Peer)
    returns (ghost m: Message, ghost info: FileInfo, ghost offset: nat)
    requires wire.healthy && !a.suppressOutboundDeletes && Faithful(a, path, peerBytes, peerEtag, prefixRead, blocks)
    requires me.replica == a.View() && path in me.queue && me.queue[path] == task
    modifies a`index, a`tombstones, a`suppressedHash, wire
    ensures Stepped(a.w, remote, me, other, Transmit(path, now)) ==
            Exchange(me.(replica := a.View(), queue := me.queue - {path}), other.(inbox := other.inbox + {m}))
    ensures Carries(a.w, old(wire.sent), wire.sent, m, info, offset, if offset > 0 then prefixRead else [], blocks)
  {
    offset, info := 0, Tombstone(path, now);
    match task
    case SendDeletion(v) =>
      var sent := wire.Send(Delete(path, v));
      m := DeleteMessage(path, v);
    case SendFile =>
      var r := a.SendFile(wire, path, true, peerBytes, peerEtag, prefixRead, blocks, NoFault, now);
      if path in a.disk {
        info := InfoOf(a.w, path, a.disk[path]).(version := a.disk[path].modTime);
        offset := ResumeOffset(a.w, info, peerBytes, peerEtag, prefixRead);
        m := FileMessage(path, a.disk[path].content, a.disk[path].modTime);
      } else {
        m := DeleteMessage(path, now);
      }
  }

  // ---- applying ---------------------------------------------------------------------------

  /** A transmission at a receiver whose disk takes it, that kept the prefix it is asked to have kept and
      nothing stale beyond what comes, is the exchange's application of the message. */
  method ReceiveStep(b: Engine, info: FileInfo, offset: nat, prefix: Bytes, blocks: seq<Bytes>, staging: Option<Bytes>,
                     luck: Luck, now: int, ghost remote: map<string, FileInfo>, ghost me: Peer, ghost other: Peer)
    returns (ok: bool)
    requires Injective(b.w) && KeptPrefix(offset, staging, luck.reread) == prefix
    requires |Chunks(info.path, blocks)| <= luck.written && luck.closes && luck.renames
    requires luck.truncated || !Resumed(offset, staging, luck.reread) || |staging.value| <= offset + |Flatten(blocks)|
    requires me.replica == b.View() && FileMessage(info.path, prefix + Flatten(blocks), info.modTime) in me.inbox
    modifies b`disk, b`index, b`tombstones, b`suppressedHash, b`partials
    ensures ok
    ensures var m := FileMessage(info.path, prefix + Flatten(blocks), info.modTime);
            Stepped(b.w, remote, me, other, Apply(m, luck.fileID, now)) ==
            Exchange(me.(replica := b.View(), inbox := me.inbox - {m}), other)
  {
    var wrote;
    wrote, ok := ReceiveTransmission(b, info, offset, prefix, blocks, staging, luck);
  }

  /** Applying a delete is the exchange's application of that message. */
  method DeleteStep(b: Engine, path: string, version: int, fileID: string, now: int,
                    ghost remote: map<string, FileInfo>, ghost me: Peer, ghost other: Peer)
    requires path !in b.ignored && me.replica == b.View() && DeleteMessage(path, version) in me.inbox
    modifies b`disk, b`index, b`tombstones
    ensures var m := DeleteMessage(path, version);
            Stepped(b.w, remote, me, other, Apply(m, fileID, now)) ==
            Exchange(me.(replica := b.View(), inbox := me.inbox - {m}), other)
  {
    b.ApplyDelete(path, version, now);
  }

  // ---- from comparison to completion ------------------------------------------------------

  /** What the sender reads of a file that does not change: the beginning it is asked for, and then the
      rest, or all of it if the beginning is another. */
  predicate ReadsThrough(w: World, content: Bytes, part: Partial, t: Attempt) {
    && part.bytes < |content| && t.prefixRead == content[..part.bytes] && t.fault == NoFault
    && Flatten(t.blocks) == if w.sha(t.prefixRead) == part.etag then content[part.bytes..] else content
  }

  /** A file that was interrupted while it came in: the peer's manifest shows where it left off, the comparison
      sends the file from there, and the peer ends with all of it, whether what it had kept was the beginning
      of the file or not. */
  method InterruptedFileCompletes(a: Engine, wire: Sender, b: Engine, local: seq<FileInfo>, remote: seq<FileInfo>,
                                  l: FileInfo, part: Partial, kept: Bytes, t: Attempt, luck: Luck)
    returns (toSend: seq<FileInfo>, order: FileInfo, ok: bool)
    requires a != b && a.w == b.w && Injective(a.w) && wire.healthy
    requires l in local && !l.deleted && l.path in a.disk && !IsEcho(a.Standing(), l.path)
    requires Lookup(remote, l.path) == Some(ResumePoint(l.path, part))
    requires ReadsThrough(a.w, a.disk[l.path].content, part, t)
    requires 0 < part.bytes <= |kept| <= |a.disk[l.path].content| && part.etag == b.w.sha(kept[..part.bytes])
    requires luck.reread && |Chunks(l.path, t.blocks)| <= luck.written && luck.closes && luck.renames
    modifies a`index, a`tombstones, a`suppressedHash, wire
    modifies b`disk, b`index, b`tombstones, b`suppressedHash, b`partials
    ensures order in toSend && order.path == l.path
    ensures order.partialBytes == part.bytes && order.partialEtag == part.etag
    ensures ok
    ensures b.View() ==
      FileApplied(old(b.View()), l.path,
                  File(old(a.disk)[l.path].content, old(a.disk)[l.path].modTime, luck.fileID))
  {
    var toDelete;
    toSend, toDelete := DiffManifests(local, remote);
    order := ToSend(l.path, Lookup(remote, l.path));
    assert order in toSend;
    CompletesEitherWay(a.w, l.path, a.disk[l.path], part, kept, t, luck);
    var r;
    r, ok := Transfer(a, wire, b, l.path, true, order.partialBytes, order.partialEtag, t.prefixRead, t.blocks, t.fault,
                      t.now, Some(kept), luck);
  }

  lemma CompletesEitherWay(w: World, path: string, f: File, part: Partial, kept: Bytes, t: Attempt, luck: Luck)
    requires Injective(w) && ReadsThrough(w, f.content, part, t) && luck.reread
    requires 0 < part.bytes <= |kept| <= |f.content| && part.etag == w.sha(kept[..part.bytes])
    ensures var info := InfoOf(w, path, f);
            var offset := ResumeOffset(w, info, part.bytes, part.etag, t.prefixRead);
            && Staged(offset, Some(kept), luck.reread, luck.truncated, Flatten(t.blocks)) == f.content
            && (offset > 0 ==> offset == part.bytes)
  {
    var offset := ResumeOffset(w, InfoOf(w, path, f), part.bytes, part.etag, t.prefixRead);
    StagedIsAssembledIff(offset, Some(kept), luck.reread, luck.truncated, Flatten(t.blocks));
    if offset > 0 {
      ResumedWhole(f.content, kept, part.bytes, Flatten(t.blocks));
    } else {
      assert [] + f.content == f.content;
    }
  }

  lemma ResumedWhole(content: Bytes, kept: Bytes, n: nat, rest: Bytes)
    requires n <= |content| && n <= |kept| && kept[..n] == content[..n] && rest == content[n..]
    ensures kept[..n] + rest == content
  {
  }

  /** What has just come in is not sent back: the next send of the file is swallowed, once. */
  method EchoIsNotSentBack(b: Engine, meta: Frame, blocks: seq<Bytes>, hash: string, version: int,
                           staging: Option<Bytes>, luck: Luck, wire: Sender, t: Attempt)
    returns (ok: bool, r: Outcome)
    requires NeverEmpty(b.w) && meta.FileMeta? && meta.path !in b.ignored && !IsNewer(b.disk, meta.path, meta.modTime)
    requires luck.truncated || !Resumed(meta.offset, staging, luck.reread)
             || |staging.value| <= meta.offset + |Flatten(blocks)|
    modifies b`disk, b`index, b`tombstones, b`suppressedHash, b`partials, wire
    ensures ok ==> r == Swallowed && wire.sent == old(wire.sent)
  {
    var wrote;
    StagedIsAssembledIff(meta.offset, staging, luck.reread, luck.truncated, Flatten(blocks));
    wrote, ok := ReceiveFile(b, meta, blocks, hash, version, staging, luck);
    if ok {
      r := b.SendOrder(wire, Order(meta.path, false, 0, ""), t);
    } else {
      r := Failed;
    }
  }
}
