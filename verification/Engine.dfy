/** One side's file engine: rescans and manifests, sending with rollback (internal/filesync/send.go) and
    applying deletes (internal/filesync/receive.go). A directory is not a file, and the engine's own files
    are not among the files. */
module Engine {
  import opened Wrappers
  import opened ByteSeq
  import opened FileModel
  import opened Replication
  import opened Rescan
  import opened Manifest

  datatype Frame =
    | FileMeta(path: string, size: nat, modTime: int, hash: string, version: int, offset: nat)
    | FileChunk(path: string, index: nat, data: Bytes)
    | FileDone(path: string, hash: string, version: int)
    | FileSynced(path: string)
    | FileRefused(path: string)
    | Delete(path: string, version: int)
    | ManifestOut(entries: seq<FileInfo>)
    | Control

  /** The stream: a frame is on the wire or the send failed. On a healthy one no send fails. */
  class Sender {
    const healthy: bool
    var sent: seq<Frame>

    constructor (healthy: bool)
      ensures sent == [] && this.healthy == healthy
    {
      this.healthy, sent := healthy, [];
    }

    method Send(f: Frame) returns (ok: bool)
      modifies this
      ensures sent == old(sent) + if ok then [f] else []
      ensures healthy ==> ok
    {
      ok := *;
      ok := ok || healthy;
      if ok {
        sent := sent + [f];
      }
    }
  }

  const GITIGNORE := ".gitignore"
  const IGNORE_FILES: set<string> := {".gitignore", ".kariignore"}

  datatype Outcome = Sent | Swallowed | Unchanged | DeleteSent | DeleteSuppressed | Failed

  class Engine {
    const w: World
    var disk: map<string, File>
    var index: map<string, FileInfo>
    var tombstones: map<string, int>
    var suppressedHash: map<string, string>
    var partials: map<string, Partial>
    var suppressOutboundDeletes: bool
    var ignored: set<string>  // the paths the ignore rules of the moment exclude

    constructor (w: World, disk: map<string, File>)
      ensures this.w == w && this.disk == disk && index == map[] && tombstones == map[]
      ensures suppressedHash == map[] && partials == map[] && !suppressOutboundDeletes && ignored == {}
    {
      this.w, this.disk, index, tombstones := w, disk, map[], map[];
      suppressedHash, partials, suppressOutboundDeletes, ignored := map[], map[], false, {};
    }

    function View(): Replica
      reads this
    {
      Replica(disk, tombstones)
    }

    /** What the walk reports: it passes over what the ignore rules exclude. */
    function Visible(): map<string, File>
      reads this
    {
      disk - ignored
    }

    /** Rescans the tree. `readable` is false when the walk itself fails; `rootSeen` says whether
        the walk found the root, `rootOK` whether the stat that follows an empty scan did. */
    method Snapshot(now: int, readable: bool, rootSeen: bool, rootOK: bool) returns (ok: bool)
      modifies this`index, this`tombstones
      ensures ok <==> readable
      ensures readable ==>
        Rescanned(w, if rootSeen then Visible() else map[], rootOK, now, old(index), old(tombstones), index, tombstones)
      ensures !readable || (!rootSeen && !rootOK) ==> index == old(index) && tombstones == old(tombstones)
      ensures readable ==> Moved(w, disk, old(index), Scan(if rootSeen then Visible() else map[], rootOK), disk, index)
      ensures readable ==> VersionsFollowContent(if rootSeen then Visible() else map[], old(index), index)
    {
      if !readable {
        return false;
      }
      ghost var files, index0, tombs0 := if rootSeen then Visible() else map[], index, tombstones;
      Refresh(if rootSeen then Visible() else map[], rootOK, now);
      RescannedVersions(w, files, rootOK, now, index0, tombs0, index, tombstones);
      ok := true;
    }

    method Refresh(files: map<string, File>, rootOK: bool, now: int)
      modifies this`index, this`tombstones
      ensures Rescanned(w, files, rootOK, now, old(index), old(tombstones), index, tombstones)
    {
      MergeScan(files);
      if files != map[] || rootOK {
        DropMissing(files, now);
      }
    }

    method MergeScan(files: map<string, File>)
      modifies this`index
      ensures index.Keys == old(index).Keys + files.Keys
      ensures forall p :: p in index ==>
        index[p] == if p in files then Merged(old(index), ScanEntry(w, old(index), p, files[p])) else old(index)[p]
    {
      var was := index;
      var todo := files.Keys;
      while todo != {}
        invariant todo <= files.Keys && index.Keys == was.Keys + (files.Keys - todo)
        invariant forall p :: p in index ==>
          index[p] == if p in files && p !in todo then Merged(was, ScanEntry(w, was, p, files[p])) else was[p]
        decreases todo
      {
        var p :| p in todo;
        index := index[p := Merged(was, ScanEntry(w, was, p, files[p]))];
        todo := todo - {p};
      }
    }

    method DropMissing(files: map<string, File>, now: int)
      modifies this`index, this`tombstones
      ensures index == old(index) - (old(index).Keys - files.Keys)
      ensures tombstones.Keys == old(tombstones).Keys + (old(index).Keys - files.Keys)
      ensures forall p :: p in tombstones ==>
        tombstones[p] == if p in old(index).Keys - files.Keys then now else old(tombstones)[p]
    {
      var todo := index.Keys - files.Keys;
      while todo != {}
        invariant todo <= old(index).Keys - files.Keys
        invariant index == old(index) - (old(index).Keys - files.Keys - todo)
        invariant tombstones.Keys == old(tombstones).Keys + (old(index).Keys - files.Keys - todo)
        invariant forall p :: p in tombstones ==>
          tombstones[p] == if p in old(index).Keys - files.Keys - todo then now else old(tombstones)[p]
        decreases todo
      {
        var p :| p in todo;
        index := index - {p};
        tombstones := tombstones[p := now];
        todo := todo - {p};
      }
    }

    /** What goes to the peer: the live files, then the tombstones of paths that are not live, then
        the resume points of paths that are neither. */
    method Manifest(now: int, readable: bool, rootSeen: bool, rootOK: bool) returns (ok: bool, entries: seq<FileInfo>)
      modifies this`index, this`tombstones
      ensures ok <==> readable
      ensures !ok ==> index == old(index) && tombstones == old(tombstones)
      ensures ok ==>
        Rescanned(w, if rootSeen then Visible() else map[], rootOK, now, old(index), old(tombstones), index, tombstones)
      ensures ok ==> IsManifest(entries, index, tombstones, partials)
      ensures ok ==> forall p :: Lookup(entries, p) == Shown(index, tombstones, partials, p)
    {
      ok := Snapshot(now, readable, rootSeen, rootOK);
      entries := [];
      if !ok {
        return;
      }
      var live := EntriesInOrder(index);
      var dead := EntriesInOrder(DeadEntries(index, tombstones));
      var partial := EntriesInOrder(PartialEntries(index, tombstones, partials));
      entries := live + dead + partial;
      assert Parts(live, dead, partial, index, tombstones, partials);
      forall p ensures Lookup(entries, p) == Shown(index, tombstones, partials, p) {
        ManifestShows(entries, index, tombstones, partials, p);
      }
    }

    // ---- sending --------------------------------------------------------------------------

    /** The tombstone is kept locally even when the wire is closed to deletes. */
    method SendDelete(sender: Sender, rel: string, now: int) returns (r: Outcome)
      modifies this`index, this`tombstones, sender
      ensures index == old(index) - {rel} && tombstones == old(tombstones)[rel := now]
      ensures Moved(w, disk, old(index), Lose({}, {rel}), disk, index)
      ensures suppressOutboundDeletes ==> r == DeleteSuppressed && sender.sent == old(sender.sent)
      ensures !suppressOutboundDeletes ==> r in {DeleteSent, Failed}
      ensures r == DeleteSent ==> sender.sent == old(sender.sent) + [Delete(rel, now)]
      ensures r == Failed ==> sender.sent == old(sender.sent) && !sender.healthy
    {
      index, tombstones := index - {rel}, tombstones[rel := now];
      if suppressOutboundDeletes {
        return DeleteSuppressed;
      }
      var ok := sender.Send(Delete(rel, now));
      r := if ok then DeleteSent else Failed;
    }

    /** Puts one described file on the wire. `prefix` is what the digest already covers and `blocks`
        what the chunk reads returned; nothing relates them to the bytes the file had when it was
        described. */
    method Stream(sender: Sender, info: FileInfo, offset: nat, prefix: Bytes, blocks: seq<Bytes>, fault: SourceFault)
      returns (ok: bool)
      modifies sender
      ensures Extends(old(sender.sent), sender.sent)
      ensures ok ==> fault != ReadFails
      ensures ok ==> sender.sent == old(sender.sent) + Transmission(w, info, offset, prefix, blocks)
      ensures sender.healthy && fault != ReadFails ==> ok
    {
      ghost var before := sender.sent;
      var meta := FileMeta(info.path, info.size, info.modTime, info.hash, info.version, offset);
      ok := sender.Send(meta);
      if !ok {
        return;
      }
      ghost var start := sender.sent;
      assert Extends(before, before) && start == before + [meta];
      ExtendsSnoc(before, before, meta);
      var running;
      ok, running := StreamBlocks(sender, info.path, prefix, blocks);
      ExtendsFurther(before, start, sender.sent);
      if !ok || fault == ReadFails {
        return false;
      }
      var done := FileDone(info.path, w.sha(running), info.version);
      ExtendsSnoc(before, sender.sent, done);
      ok := sender.Send(done);
      ThreeParts(before, [meta], Chunks(info.path, blocks), [done]);
    }

    /** The numbered chunks, and the running digest's input. A read that returns nothing sends none. */
    method StreamBlocks(sender: Sender, rel: string, prefix: Bytes, blocks: seq<Bytes>)
      returns (ok: bool, running: Bytes)
      modifies sender
      ensures Extends(old(sender.sent), sender.sent)
      ensures ok ==> running == prefix + Flatten(blocks) && sender.sent == old(sender.sent) + Chunks(rel, blocks)
      ensures sender.healthy ==> ok
    {
      ok, running := true, prefix;
      var chunk := 0;
      for i := 0 to |blocks|
        invariant running == prefix + Flatten(blocks[..i]) && chunk == |Chunks(rel, blocks[..i])|
        invariant sender.sent == old(sender.sent) + Chunks(rel, blocks[..i]) && Extends(old(sender.sent), sender.sent)
      {
        assert blocks[..i + 1] == blocks[..i] + [blocks[i]];
        FlattenSnoc(blocks[..i], blocks[i]);
        ChunksSnoc(rel, blocks[..i], blocks[i]);
        if blocks[i] != [] {
          running := running + blocks[i];
          ExtendsSnoc(old(sender.sent), sender.sent, FileChunk(rel, chunk, blocks[i]));
          ok := sender.Send(FileChunk(rel, chunk, blocks[i]));
          if !ok {
            return;
          }
          chunk := chunk + 1;
        }
      }
      assert blocks[..|blocks|] == blocks;
    }

    /** Sends one file, updating the index before the bytes go out and undoing that if they do not.
        `prefixRead` is what reading the peer's claimed prefix returned. */
    method SendFile(sender: Sender, rel: string, force: bool, peerBytes: nat, peerEtag: string,
                    prefixRead: Bytes, blocks: seq<Bytes>, fault: SourceFault, now: int)
      returns (r: Outcome)
      modifies this`index, this`tombstones, this`suppressedHash, sender
      ensures rel in disk || suppressOutboundDeletes ==> Extends(old(sender.sent), sender.sent)
      ensures old(sender.sent) <= sender.sent
      ensures rel !in disk ==> index == old(index) - {rel} && tombstones == old(tombstones)[rel := now]
      ensures rel !in disk && !suppressOutboundDeletes ==>
                r in {DeleteSent, Failed}
                && (sender.healthy ==> r == DeleteSent)
                && sender.sent == old(sender.sent) + if r == DeleteSent then [Delete(rel, now)] else []
      ensures rel in disk && Swallows(old(suppressedHash), InfoOf(w, rel, disk[rel]), rel) ==>
                r == Swallowed && sender.sent == old(sender.sent) && rel !in suppressedHash
                && index == old(index)[rel := InfoOf(w, rel, disk[rel])] && tombstones == old(tombstones)
      ensures rel in disk && !Swallows(old(suppressedHash), InfoOf(w, rel, disk[rel]), rel) ==>
                suppressedHash == old(suppressedHash) && r in {Sent, Unchanged, Failed}
                && (r == Unchanged <==>
                      !force && rel in old(index) && SameContent(old(index)[rel], InfoOf(w, rel, disk[rel])))
      ensures rel in disk && !Swallows(old(suppressedHash), InfoOf(w, rel, disk[rel]), rel) ==>
        var broken := Breaks(w, InfoOf(w, rel, disk[rel]), peerBytes, peerEtag, prefixRead, fault);
        (r == Sent ==> !broken) && (sender.healthy && !broken ==> r != Failed)
      ensures rel in disk && r == Failed ==> index == old(index) && tombstones == old(tombstones)
      ensures rel in disk && r == Unchanged ==>
                index == old(index) && tombstones == old(tombstones) && sender.sent == old(sender.sent)
      ensures Moved(w, disk, old(index), SendMove(rel, r), disk, index)
      ensures rel in disk && r == Sent ==>
        var info := InfoOf(w, rel, disk[rel]).(version := disk[rel].modTime);
        var offset := ResumeOffset(w, info, peerBytes, peerEtag, prefixRead);
        var out := Transmission(w, info, offset, if offset > 0 then prefixRead else [], blocks);
        && index == old(index)[rel := info] && tombstones == old(tombstones) - {rel}
        && (sender.sent == old(sender.sent) + out || sender.sent == old(sender.sent) + out + [FileSynced(rel)])
      ensures rel in disk && r == Sent ==>
        Starts(w, rel, disk[rel], peerBytes, peerEtag, prefixRead, old(sender.sent), sender.sent)
      ensures rel !in disk && suppressOutboundDeletes ==> r == DeleteSuppressed && sender.sent == old(sender.sent)
      ensures forall p :: p != rel ==>
        Same(suppressedHash, old(suppressedHash), p) && Same(index, old(index), p)
    {
      if rel !in disk {
        r := SendDelete(sender, rel, now);
        return;
      }
      var info := InfoOf(w, rel, disk[rel]);
      if Swallows(suppressedHash, info, rel) {
        suppressedHash := suppressedHash - {rel};
        index := index[rel := info];
        return Swallowed;
      }
      if !force && rel in index && SameContent(index[rel], info) {
        return Unchanged;
      }
      var ok := Push(sender, info.(version := info.modTime), peerBytes, peerEtag, prefixRead, blocks, fault);
      r := if ok then Sent else Failed;
    }

    /** Records the file, streams it, and undoes the record if that fails. */
    method Push(sender: Sender, info: FileInfo, peerBytes: nat, peerEtag: string, prefixRead: Bytes, blocks: seq<Bytes>,
                fault: SourceFault)
      returns (ok: bool)
      modifies this`index, this`tombstones, sender
      ensures Extends(old(sender.sent), sender.sent)
      ensures !ok ==> index == old(index) && tombstones == old(tombstones)
      ensures ok ==> index == old(index)[info.path := info] && tombstones == old(tombstones) - {info.path}
      ensures ok ==>
        var offset := ResumeOffset(w, info, peerBytes, peerEtag, prefixRead);
        var out := Transmission(w, info, offset, if offset > 0 then prefixRead else [], blocks);
        sender.sent == old(sender.sent) + out || sender.sent == old(sender.sent) + out + [FileSynced(info.path)]
      ensures ok ==> !Breaks(w, info, peerBytes, peerEtag, prefixRead, fault)
      ensures sender.healthy && !Breaks(w, info, peerBytes, peerEtag, prefixRead, fault) ==> ok
    {
      var oldIndex, oldTombs := index, tombstones;
      index, tombstones := index[info.path := info], tombstones - {info.path};
      var offset := ResumeOffset(w, info, peerBytes, peerEtag, prefixRead);
      var resumeTried := 0 < peerBytes < info.size;
      ok := fault != OpenFails && !(fault == SeekFails && resumeTried && offset == 0);
      if ok {
        ok := Stream(sender, info, offset, if offset > 0 then prefixRead else [], blocks, fault);
      }
      if !ok {
        Rollback(info.path, oldIndex, oldTombs);
        return;
      }
      ExtendsSnoc(old(sender.sent), sender.sent, FileSynced(info.path));
      var _ := sender.Send(FileSynced(info.path));
    }

    /** Of a file that is there, what was sent or swallowed is recorded, and anything else leaves the
        index alone. */
    function SendMove(rel: string, r: Outcome): Move
      reads this
    {
      if rel !in disk then Lose({}, {rel})
      else if r == Sent then Record(rel, disk[rel].modTime)
      else if r == Swallowed then Record(rel, 0)
      else Lose({}, {})
    }

    /** Undoes the optimistic update of one path. */
    method Rollback(rel: string, oldIndex: map<string, FileInfo>, oldTombs: map<string, int>)
      requires (forall p :: p != rel ==> (p in index <==> p in oldIndex) && (p in index ==> index[p] == oldIndex[p]))
      requires tombstones == oldTombs - {rel}
      modifies this`index, this`tombstones
      ensures index == oldIndex && tombstones == oldTombs
    {
      if rel in oldIndex {
        index := index[rel := oldIndex[rel]];
      } else {
        index := index - {rel};
      }
      if rel in oldTombs {
        tombstones := tombstones[rel := oldTombs[rel]];
      }
    }

    /** sendFile as a whole: a path that is ignored by now is announced as deleted, and sending an
        ignore file is followed by the prune it calls for. */
    method SendOrPrune(sender: Sender, order: Order, t: Attempt) returns (r: Outcome)
      modifies this`disk, this`index, this`tombstones, this`suppressedHash, sender
      ensures suppressOutboundDeletes ==> Extends(old(sender.sent), sender.sent)
      ensures old(sender.sent) <= sender.sent
      ensures CarriedOut(old(Standing()), order, t, sender.healthy, old(sender.sent), sender.sent, r)
      ensures Spares(old(Standing()), Standing(), order.path)
      ensures r == Sent && order.path in IGNORE_FILES ==> PrunedAll(old(index).Keys, t.now, sender)
    {
      if order.path in ignored {
        r := SendDelete(sender, order.path, t.now);
        return;
      }
      r := SendOrder(sender, order, t);
      if r == Sent && order.path in IGNORE_FILES {
        ghost var between := index.Keys;
        forall p | p in old(index) && p in ignored ensures p in between {
          assert Same(index, old(index), p);
        }
        var ok := PruneTracked(sender, t);
        r := if ok then Sent else Failed;
      }
    }

    /** Of these paths nothing that is ignored is left, and the peer has been told. */
    ghost predicate PrunedAll(paths: set<string>, now: int, sender: Sender)
      reads this, sender
    {
      forall p :: p in paths && p in ignored && p != GITIGNORE ==>
        && p !in disk && p !in index && p in tombstones && tombstones[p] == now
        && (!suppressOutboundDeletes ==> Delete(p, now) in sender.sent)
    }

    method PruneTracked(sender: Sender, t: Attempt) returns (ok: bool)
      modifies this`disk, this`index, this`tombstones, sender
      ensures suppressOutboundDeletes ==> sender.sent == old(sender.sent)
      ensures old(sender.sent) <= sender.sent
      ensures forall p :: p !in ignored ==> Same(disk, old(disk), p) && Same(index, old(index), p)
      ensures ok ==> PrunedAll(old(index).Keys, t.now, sender)
      ensures sender.healthy && t.stuck == {} ==> ok
    {
      ghost var gone;
      ok, gone := Prune(sender, t.stuck, t.now);
    }

    method SendOrder(sender: Sender, order: Order, t: Attempt) returns (r: Outcome)
      requires order.path !in ignored
      modifies this`index, this`tombstones, this`suppressedHash, sender
      ensures suppressOutboundDeletes ==> Extends(old(sender.sent), sender.sent)
      ensures old(sender.sent) <= sender.sent
      ensures CarriedOut(old(Standing()), order, t.(stuck := {}), sender.healthy, old(sender.sent), sender.sent, r)
      ensures Spares(old(Standing()), Standing(), order.path)
      ensures r == Sent ==> IsDue(old(Standing()), order)
      ensures forall p :: p != order.path ==> Same(index, old(index), p)
    {
      r := SendFile(sender, order.path, order.force, order.peerBytes, order.peerEtag, t.prefixRead, t.blocks, t.fault,
                    t.now);
    }

    function Standing(): Outset
      reads this
    {
      Outset(w, disk, ignored, index, suppressedHash, suppressOutboundDeletes)
    }

    /** Drops what the ignore rules now exclude: from disk, from the index, and, unless deletes are
        suppressed, from the peer. */
    method Prune(sender: Sender, stuck: set<string>, now: int) returns (ok: bool, ghost gone: set<string>)
      modifies this`disk, this`index, this`tombstones, sender
      ensures suppressOutboundDeletes ==> sender.sent == old(sender.sent)
      ensures old(sender.sent) <= sender.sent
      ensures gone <= old(index).Keys * ignored - {GITIGNORE}
      ensures ok ==> gone == old(index).Keys * ignored - {GITIGNORE} && stuck * gone * old(disk).Keys == {}
      ensures sender.healthy && stuck == {} ==> ok
      ensures ok && !suppressOutboundDeletes ==> forall p :: p in gone ==> Delete(p, now) in sender.sent
      ensures Moved(w, old(disk), old(index), Lose(gone, gone), disk, index)
      ensures index == old(index) - gone && disk == old(disk) - gone
      ensures tombstones == old(tombstones) + map p | p in gone :: now
    {
      var todo := index.Keys * ignored - {GITIGNORE};
      ghost var all := todo;
      gone := {};
      while todo != {}
        invariant todo == all - gone && gone <= all
        invariant index == old(index) - gone && disk == old(disk) - gone
        invariant tombstones == old(tombstones) + map p | p in gone :: now
        invariant suppressOutboundDeletes ==> sender.sent == old(sender.sent)
        invariant old(sender.sent) <= sender.sent
        invariant !suppressOutboundDeletes ==> forall p :: p in gone ==> Delete(p, now) in sender.sent
        invariant stuck * gone * old(disk).Keys == {}
        decreases todo
      {
        var p :| p in todo;
        ghost var dropped;
        ok, dropped := PruneOne(sender, p, p in stuck, now);
        LosesMore(old(index), gone, dropped);
        LosesMore(old(disk), gone, dropped);
        StampsMore(old(tombstones), gone, dropped, now);
        gone := gone + dropped;
        if !ok {
          return;
        }
        todo := todo - {p};
      }
      assert gone == all;
      ok := true;
    }

    /** Drops one path; `stuck` says that removing the file does not work. */
    method PruneOne(sender: Sender, p: string, stuck: bool, now: int) returns (ok: bool, ghost gone: set<string>)
      modifies this`disk, this`index, this`tombstones, sender
      ensures suppressOutboundDeletes ==> sender.sent == old(sender.sent)
      ensures old(sender.sent) <= sender.sent
      ensures gone == if p in old(disk) && stuck then {} else {p}
      ensures (ok ==> gone == {p}) && (sender.healthy && gone == {p} ==> ok)
      ensures ok && !suppressOutboundDeletes ==> sender.sent == old(sender.sent) + [Delete(p, now)]
      ensures index == old(index) - gone && disk == old(disk) - gone
      ensures tombstones == old(tombstones) + map q | q in gone :: now
    {
      ok, gone := false, {};
      if p in disk && stuck {
        return;
      }
      gone := {p};
      disk, index, tombstones := disk - {p}, index - {p}, tombstones[p := now];
      ok := true;
      if !suppressOutboundDeletes {
        ok := sender.Send(Delete(p, now));
      }
    }

    // ---- receiving ------------------------------------------------------------------------

    method ApplyDelete(rel: string, version: int, now: int)
      modifies this`disk, this`index, this`tombstones
      ensures View() == if rel in ignored then old(View()) else DeleteApplied(old(View()), rel, version, now)
      ensures View() != old(View()) ==> index == old(index) - {rel}
      ensures Moved(w, old(disk), old(index),
                    if rel in ignored then Lose({}, {})
                    else DeleteMove(old(disk), rel, if version == 0 then now else version), disk, index)
    {
      if rel in ignored {
        return;
      }
      var v := if version == 0 then now else version;
      if rel in disk && disk[rel].modTime > v {
        return;
      }
      disk, index, tombstones := disk - {rel}, index - {rel}, tombstones[rel := v];
    }
  }

  lemma LosesMore<V>(m: map<string, V>, a: set<string>, b: set<string>)
    ensures m - a - b == m - (a + b)
  {
  }

  lemma StampsMore(m: map<string, int>, a: set<string>, b: set<string>, now: int)
    ensures m + (map p | p in a :: now) + (map p | p in b :: now) == m + map p | p in a + b :: now
  {
  }

  function DeleteMove(disk: map<string, File>, rel: string, version: int): Move {
    if rel in disk && disk[rel].modTime > version then Lose({}, {}) else Lose({rel}, {rel})
  }

  /** More of the same wire, with no delete among what was added. */
  ghost predicate Extends(before: seq<Frame>, after: seq<Frame>) {
    |before| <= |after| && after[..|before|] == before && forall f :: f in after[|before|..] ==> !f.Delete?
  }

  lemma ExtendsSnoc(before: seq<Frame>, after: seq<Frame>, f: Frame)
    requires Extends(before, after) && !f.Delete?
    ensures Extends(before, after + [f])
  {
    assert (after + [f])[|before|..] == after[|before|..] + [f];
  }

  lemma ExtendsFurther(a: seq<Frame>, b: seq<Frame>, c: seq<Frame>)
    requires Extends(a, b) && Extends(b, c)
    ensures Extends(a, c)
  {
    assert c[..|a|] == b[..|a|];
    forall f | f in c[|a|..] ensures !f.Delete? {
      var i :| |a| <= i < |c| && c[i] == f;
      if i < |b| {
        assert c[..|b|][i] == f && b[|a|..][i - |a|] == f;
      } else {
        assert c[|b|..][i - |b|] == f;
      }
    }
  }

  lemma ThreeParts(before: seq<Frame>, a: seq<Frame>, b: seq<Frame>, c: seq<Frame>)
    ensures before + a + b + c == before + (a + b + c)
  {
  }

  datatype SourceFault = NoFault | OpenFails | SeekFails | ReadFails

  /** The source cannot be read through: opening it, going back to its start after a resume that did not
      work out, or reading it fails. */
  predicate Breaks(w: World, info: FileInfo, peerBytes: nat, peerEtag: string, prefixRead: Bytes, fault: SourceFault) {
    fault == OpenFails || fault == ReadFails
    || (fault == SeekFails && 0 < peerBytes < info.size && ResumeOffset(w, info, peerBytes, peerEtag, prefixRead) == 0)
  }

  // ---- carrying out an order to send ------------------------------------------------------

  /** What there is to go by when a path is to be sent. */
  datatype Outset = Outset(w: World, disk: map<string, File>, ignored: set<string>, index: map<string, FileInfo>,
                           suppressed: map<string, string>, quiet: bool)

  datatype Order = Order(path: string, force: bool, peerBytes: nat, peerEtag: string)

  /** How it goes: the time, what reading the source gives, and what cannot be removed. */
  datatype Attempt = Attempt(now: int, prefixRead: Bytes, blocks: seq<Bytes>, fault: SourceFault, stuck: set<string>)

  /** The file is what was just received from the peer. */
  predicate IsEcho(o: Outset, path: string)
    requires path in o.disk
  {
    path in o.suppressed && o.suppressed[path] != "" && o.suppressed[path] == o.w.sha(o.disk[path].content)
  }

  /** The index has the content already. */
  predicate IsKnown(o: Outset, path: string)
    requires path in o.disk
  {
    path in o.index && SameContent(o.index[path], InfoOf(o.w, path, o.disk[path]))
  }

  predicate IsThere(o: Outset, path: string) {
    path in o.disk && path !in o.ignored
  }

  predicate IsDue(o: Outset, order: Order) {
    IsThere(o, order.path) && !IsEcho(o, order.path) && (order.force || !IsKnown(o, order.path))
  }

  /** What goes on the wire for a file that is due. */
  function DueFrames(o: Outset, order: Order, t: Attempt): seq<Frame>
    requires order.path in o.disk
  {
    var info := InfoOf(o.w, order.path, o.disk[order.path]).(version := o.disk[order.path].modTime);
    var offset := ResumeOffset(o.w, info, order.peerBytes, order.peerEtag, t.prefixRead);
    Transmission(o.w, info, offset, if offset > 0 then t.prefixRead else [], t.blocks)
  }

  predicate IsReadable(o: Outset, order: Order, t: Attempt)
    requires order.path in o.disk
  {
    !Breaks(o.w, InfoOf(o.w, order.path, o.disk[order.path]), order.peerBytes, order.peerEtag, t.prefixRead, t.fault)
  }

  /** A path that is not there is announced as deleted, a file that is due goes out whole, and anything
      else leaves the wire alone. */
  ghost predicate CarriedOut(o: Outset, order: Order, t: Attempt, healthy: bool, before: seq<Frame>, after: seq<Frame>,
                             r: Outcome) {
    if !IsThere(o, order.path) then
      if o.quiet then after == before && r == DeleteSuppressed
      else (healthy ==> r == DeleteSent)
           && after == before + if r == DeleteSent then [Delete(order.path, t.now)] else []
    else if IsEcho(o, order.path) then after == before && r == Swallowed
    else if !IsDue(o, order) then after == before && r == Unchanged
    else
      healthy && IsReadable(o, order, t) ==>
        && before + DueFrames(o, order, t) <= after
        && ((order.path in IGNORE_FILES ==> t.stuck == {}) ==> r == Sent)
  }

  /** Nothing about other paths changes but for those that are ignored. */
  ghost predicate Spares(o: Outset, o': Outset, path: string) {
    && o'.w == o.w && o'.ignored == o.ignored && o'.quiet == o.quiet
    && forall p :: p != path && p !in o.ignored ==>
         Same(o'.disk, o.disk, p) && Same(o'.index, o.index, p) && Same(o'.suppressed, o.suppressed, p)
  }

  predicate Same<V(==)>(a: map<string, V>, b: map<string, V>, p: string) {
    (p in a <==> p in b) && (p in a ==> a[p] == b[p])
  }

  /** The first frame says what is coming, and where it goes on: behind what the peer has, exactly if that
      is the beginning of the file. */
  predicate Starts(w: World, path: string, f: File, peerBytes: nat, peerEtag: string, prefixRead: Bytes,
                   before: seq<Frame>, after: seq<Frame>) {
    var resumes := 0 < peerBytes < |f.content| && |prefixRead| == peerBytes && w.sha(prefixRead) == peerEtag;
    |after| > |before| && after[|before|] ==
      FileMeta(path, |f.content|, f.modTime, w.sha(f.content), f.modTime, if resumes then peerBytes else 0)
  }

  predicate Swallows(suppressed: map<string, string>, info: FileInfo, rel: string) {
    rel in suppressed && suppressed[rel] != "" && suppressed[rel] == info.hash
  }

  /** The offset the sender resumes at: the peer's, if the prefix just read has the peer's digest. */
  function ResumeOffset(w: World, info: FileInfo, peerBytes: nat, peerEtag: string, prefixRead: Bytes): nat {
    if 0 < peerBytes < info.size && |prefixRead| == peerBytes && w.sha(prefixRead) == peerEtag then peerBytes else 0
  }

  function Chunks(rel: string, blocks: seq<Bytes>): seq<Frame> {
    if blocks == [] then []
    else
      var before := Chunks(rel, blocks[..|blocks| - 1]);
      var last := blocks[|blocks| - 1];
      before + if last == [] then [] else [FileChunk(rel, |before|, last)]
  }

  lemma ChunksSnoc(rel: string, blocks: seq<Bytes>, c: Bytes)
    ensures Chunks(rel, blocks + [c]) ==
      Chunks(rel, blocks) + if c == [] then [] else [FileChunk(rel, |Chunks(rel, blocks)|, c)]
  {
    assert (blocks + [c])[..|blocks|] == blocks;
  }

  /** A whole file on the wire. The digest at the end covers the resumed prefix and the bytes that
      were in fact sent, not the digest announced at the start. */
  function Transmission(w: World, info: FileInfo, offset: nat, prefix: Bytes, blocks: seq<Bytes>): seq<Frame> {
    [FileMeta(info.path, info.size, info.modTime, info.hash, info.version, offset)]
    + Chunks(info.path, blocks)
    + [FileDone(info.path, w.sha(prefix + Flatten(blocks)), info.version)]
  }

  // ---- deletions made while the engine was down -------------------------------------------

  /** A file removed while nobody watched: the next trusted rescan makes it a tombstone, a peer whose
      copy is older loses it in the exchange, and in no state of any such exchange is it back here. */
  lemma OfflineDeleteReachesPeer(w: World, disk: map<string, File>, rootOK: bool, now: int, index: map<string,
                                 FileInfo>,
                                 tombs: map<string, int>, index': map<string, FileInfo>, tombs': map<string, int>,
                                 peer: Replica, states: seq<Exchange>, path: string)
    requires disk != map[] || rootOK
    requires Rescanned(w, disk, rootOK, now, index, tombs, index', tombs')
    requires path in index && path !in disk
    requires path in peer.disk && peer.disk[path].modTime < now
    requires now > 0 && Stamped(Replica(disk, tombs)) && Stamped(peer)
    requires Replication.Run(w, Replica(disk, tombs'), peer, states)
    ensures var s := states[|states| - 1];
            path !in s.a.replica.disk && (Quiescent(s) ==> path !in s.b.replica.disk && path in s.b.replica.tombs)
  {
    NoResurrection(w, Replica(disk, tombs'), peer, states, path);
  }
}
