/** What a sync session lets out on the wire (internal/filesync/session.go,
    internal/filesync/outbound_queue.go), over every sequence of inbound messages and local events.
    A control-only session keeps the file plane shut; a delete-suppressed one never sends a delete. */
module Session {
  import opened Wrappers
  import opened ByteSeq
  import opened FileModel
  import opened Replication
  import opened Engine
  import opened Rescan
  import opened Manifest
  import opened Receive
  import opened Outbound

  /** How a rescan goes: the time, whether the walk gets through, and what it and the stat find of the root. */
  datatype Walk = Walk(now: int, readable: bool, rootSeen: bool, rootOK: bool)

  datatype Event =
    | PeerManifest(entries: seq<FileInfo>, repoMismatch: bool, walk: Walk)
    | PeerFileStatus(path: string, isError: bool)
    | PeerCancel
    | PeerResume
    | PeerDelete(path: string, version: int, now: int)
    | PeerFile(meta: Frame, staging: Option<Bytes>, blocks: seq<Bytes>, hash: string, version: int, luck: Luck)
    | LocalChange(path: string)
    | RulesChanged(ignored: set<string>, exempt: set<string>)
    | WorkspaceEdited(disk: map<string, File>)
    | Wake(attempts: string -> Attempt, patience: nat)
    | FallbackFires(walk: Walk, attempts: string -> Attempt)
    | LocalCancel
    | LocalResume(walk: Walk)
    | OtherTraffic

  predicate FromPeer(e: Event) {
    e.PeerManifest? || e.PeerFileStatus? || e.PeerCancel? || e.PeerResume? || e.PeerDelete? || e.PeerFile?
  }

  // ---- what each event does ---------------------------------------------------------------

  /** The engine under the session, and the session itself, as they stand between two events. */
  datatype Store = Store(disk: map<string, File>, index: map<string, FileInfo>, tombs: map<string, int>,
                         suppressed: map<string, string>, partials: map<string, Partial>, ignored: set<string>)

  datatype Sight = Sight(stopped: bool, armed: bool, paused: bool, exempt: set<string>, queue: map<string, OutTask>,
                         sent: seq<Frame>, store: Store)

  /** What does not change: its digests and text paths, and how the session was set up. */
  datatype Setup = Setup(w: World, controlOnly: bool, quiet: bool, healthy: bool)

  function OutsetOf(u: Setup, d: Store): Outset {
    Outset(u.w, d.disk, d.ignored, d.index, d.suppressed, u.quiet)
  }

  predicate QueueTakes(s: Sight, path: string) {
    (!s.paused || path in s.exempt) && path !in {"", "."}
  }

  ghost predicate RescannedStore(w: World, walk: Walk, d: Store, d': Store) {
    && d' == d.(index := d'.index, tombs := d'.tombs)
    && if walk.readable then
         Rescanned(w, if walk.rootSeen then d.disk - d.ignored else map[], walk.rootOK, walk.now, d.index, d.tombs,
                   d'.index, d'.tombs)
       else d' == d
  }

  /** The peer's manifest is compared with our own after a rescan, and the differences are queued. */
  ghost predicate ManifestTaken(u: Setup, e: Event, s: Sight, s': Sight)
    requires e.PeerManifest?
  {
    if u.controlOnly then s' == s
    else
      var r := s.(armed := false, paused := e.repoMismatch);
      if s.stopped || !e.walk.readable then s' == r
      else
        && s' == r.(queue := s'.queue, store := s'.store) && RescannedStore(u.w, e.walk, s.store, s'.store)
        && forall p :: QueuedFor(Shown(s'.store.index, s'.store.tombs, s'.store.partials, p), Lookup(e.entries, p),
                                 r.paused && p !in r.exempt, u.quiet, p, s.queue, s'.queue)
  }

  /** A file the peer could not take is marked so that the next rescan sends it again; a delete it could not
      apply is queued again. */
  ghost predicate Retried(u: Setup, path: string, s: Sight, s': Sight) {
    var d := s.store;
    if path == "" then s' == s
    else if path in d.index then
      s' == s.(store := d.(index := d.index[path := d.index[path].(hash := "", normHash := "")]))
    else if path in d.tombs && !u.quiet && QueueTakes(s, path) then
      s' == s.(queue := s.queue[path := ForcedDelete(d.tombs[path])])
    else s' == s
  }

  /** The peer's delete: a strictly newer file stays, and so does an ignored one. */
  ghost predicate DeleteTaken(e: Event, d: Store, d': Store)
    requires e.PeerDelete?
  {
    var v := if e.version == 0 then e.now else e.version;
    if e.path in d.ignored || (e.path in d.disk && d.disk[e.path].modTime > v) then d' == d
    else d' == d.(disk := d.disk - {e.path}, index := d.index - {e.path}, tombs := d.tombs[e.path := v])
  }

  /** What a peer's file does to the replica, and whether the peer is told that all is well: nothing of an
      ignored path is written, and it is acknowledged all the same. */
  ghost predicate FileTaken(w: World, ignored: set<string>, was: Replica, e: Event, now: Replica, fine: bool)
    requires e.PeerFile? && e.meta.FileMeta?
  {
    if e.meta.path in ignored then now == was && fine
    else if |e.blocks| > e.luck.written then now == was && !fine
    else Received(w, was, e.meta, e.staging, Flatten(e.blocks), e.hash, e.luck, now, fine)
  }

  ghost predicate FileHandled(u: Setup, e: Event, s: Sight, s': Sight, ok: bool, fine: bool)
    requires e.PeerFile? && e.meta.FileMeta?
  {
    var d, d' := s.store, s'.store;
    && FileTaken(u.w, d.ignored, Replica(d.disk, d.tombs), e, Replica(d'.disk, d'.tombs), fine)
    && (e.meta.path in d.ignored || !fine ==> d' == d) && d'.ignored == d.ignored
    && s'.sent == s.sent +
         (if !ok then [] else if fine then [FileSynced(e.meta.path)] else [FileRefused(e.meta.path)])
    && s' == s.(sent := s'.sent, store := d')
  }

  /** What is queued goes out, unless a cancel comes in before. */
  ghost predicate Drained(u: Setup, attempts: string -> Attempt, patience: nat, s: Sight, s': Sight, ok: bool) {
    if s.stopped then s' == s.(queue := map[]) && ok
    else
      && s' == s.(stopped := s'.stopped, queue := map[], sent := s'.sent, store := s'.store) && s.sent <= s'.sent
      && (u.healthy ==> ok && (s'.stopped <==> |s.queue| > patience))
      && (u.healthy && !s'.stopped ==>
            forall p :: p in s.queue ==> OnTheWire(OutsetOf(u, s.store), p, s.queue[p], attempts(p), s'.sent))
  }

  ghost predicate AllGoesWell(attempts: string -> Attempt) {
    forall p :: attempts(p).fault == NoFault && attempts(p).stuck == {}
  }

  /** The fallback sends every file that a rescan finds. */
  ghost predicate SnapshotSent(u: Setup, walk: Walk, attempts: string -> Attempt, s: Sight, s': Sight) {
    && s' == s.(sent := s'.sent, store := s'.store) && s.sent <= s'.sent
    && (!walk.readable ==> s' == s)
    && (u.healthy && walk.readable && walk.rootSeen && AllGoesWell(attempts) ==>
          forall p :: p in s.store.disk - s.store.ignored ==>
            OnTheWire(OutsetOf(u, s.store), p, ForcedSend(ToSend(p, None)), attempts(p), s'.sent))
  }

  ghost predicate Resumes(u: Setup, walk: Walk, s: Sight, s': Sight, ok: bool, entries: seq<FileInfo>) {
    && RescannedStore(u.w, walk, s.store, s'.store)
    && s.sent <= s'.sent <= s.sent + [Control, ManifestOut(entries)]
    && (u.healthy ==> ok)
    && if !walk.readable then s' == s && ok
       else
         && s' == s.(stopped := s.stopped && !ok, sent := s'.sent, store := s'.store)
         && (ok <==> s'.sent == s.sent + [Control, ManifestOut(entries)])
         && IsManifest(entries, s'.store.index, s'.store.tombs, s'.store.partials)
  }

  /** Everything an event does. `ok` is false when the session ends with it. */
  ghost predicate Handled(u: Setup, e: Event, s: Sight, s': Sight, ok: bool) {
    match e
    case PeerManifest(_, _, _) => ManifestTaken(u, e, s, s') && ok
    case PeerFileStatus(path, isError) => (if u.controlOnly || !isError then s' == s else Retried(u, path, s, s')) && ok
    case PeerCancel => s' == s.(stopped := true, queue := map[]) && ok
    case PeerResume => s' == (if u.controlOnly then s else s.(stopped := false)) && ok
    case PeerDelete(path, _, _) =>
      && DeleteTaken(e, s.store, s'.store) && (u.healthy ==> ok)
      && s' == s.(sent := s.sent + if ok then [FileSynced(path)] else [], store := s'.store)
    case PeerFile(meta, _, _, _, _, _) =>
      if !meta.FileMeta? then s' == s && ok
      else (exists fine :: FileHandled(u, e, s, s', ok, fine)) && (u.healthy ==> ok)
    case LocalChange(path) => s' == (if QueueTakes(s, path) then s.(queue := s.queue[path := SendPath]) else s) && ok
    case RulesChanged(ignored, exempt) => s' == s.(exempt := exempt, store := s.store.(ignored := ignored)) && ok
    case WorkspaceEdited(disk) => s' == s.(store := s.store.(disk := disk)) && ok
    case Wake(attempts, patience) => Drained(u, attempts, patience, s, s', ok)
    case FallbackFires(walk, attempts) =>
      (if s.armed && !s.stopped then SnapshotSent(u, walk, attempts, s, s') else s' == s) && ok
    case LocalResume(walk) => exists entries :: Resumes(u, walk, s, s', ok, entries)
    case LocalCancel => s' == s.(sent := s.sent + if ok then [Control] else []) && (u.healthy ==> ok)
    case OtherTraffic => s' == s.(sent := s.sent + if ok then [Control] else []) && (u.healthy ==> ok)
  }

  function Status(path: string, fine: bool): Frame {
    if fine then FileSynced(path) else FileRefused(path)
  }

  predicate FilePlane(f: Frame) {
    f.FileMeta? || f.FileChunk? || f.FileDone? || f.Delete? || f.ManifestOut?
  }

  ghost predicate NoFilePlane(sent: seq<Frame>) {
    forall f :: f in sent ==> !FilePlane(f)
  }

  ghost predicate NoDelete(sent: seq<Frame>) {
    forall f :: f in sent ==> !f.Delete?
  }

  lemma NoDeleteExtends(before: seq<Frame>, after: seq<Frame>)
    requires NoDelete(before) && Extends(before, after)
    ensures NoDelete(after)
  {
    forall f | f in after ensures !f.Delete? {
      var i :| 0 <= i < |after| && after[i] == f;
      if i < |before| {
        assert after[..|before|][i] == f;
      } else {
        assert after[|before|..][i - |before|] == f;
      }
    }
  }

  class Session {
    const engine: Engine
    const stream: Sender
    const controlOnly: bool
    const startPaused: bool
    const suppressDeletes: bool
    var stopped: bool        // outboundStopped: the sticky cancel
    var fallbackArmed: bool
    var paused: bool         // the queue's own kill switch
    var exempt: set<string>  // the paths that it does not stop: forced ones and uploads
    var queue: map<string, OutTask>
    ghost var resumed: bool  // a local resume request has been served

    constructor (engine: Engine, stream: Sender, controlOnly: bool, startPaused: bool, suppressDeletes: bool)
      requires engine.suppressOutboundDeletes == suppressDeletes
      ensures this.engine == engine && this.stream == stream && this.controlOnly == controlOnly
      ensures this.startPaused == startPaused && this.suppressDeletes == suppressDeletes
      ensures queue == map[] && !resumed && !fallbackArmed
    {
      this.engine, this.stream := engine, stream;
      this.controlOnly, this.startPaused, this.suppressDeletes := controlOnly, startPaused, suppressDeletes;
      stopped, fallbackArmed, paused, exempt, queue, resumed := false, false, false, {}, map[], false;
    }

    ghost predicate Shut()
      reads this
    {
      controlOnly && !resumed
    }

    ghost predicate Valid()
      reads this, engine, stream
    {
      && engine.suppressOutboundDeletes == suppressDeletes
      && (Shut() ==> stopped && !fallbackArmed && NoFilePlane(stream.sent))
      && (suppressDeletes ==> NoDelete(stream.sent))
    }

    ghost function Now(): Sight
      reads this, engine, stream
    {
      Sight(stopped, fallbackArmed, paused, exempt, queue, stream.sent,
            Store(engine.disk, engine.index, engine.tombstones, engine.suppressedHash, engine.partials, engine.ignored))
    }

    ghost function Set(): Setup
      reads stream
    {
      Setup(engine.w, controlOnly, suppressDeletes, stream.healthy)
    }

    /** The manifest of the engine as it now is. */
    ghost predicate IsOurs(entries: seq<FileInfo>)
      reads engine
    {
      IsManifest(entries, engine.index, engine.tombstones, engine.partials)
    }

    /** Session start: hello, then the manifest unless the session is control-only or paused. */
    method Start(walk: Walk) returns (ok: bool, ghost entries: seq<FileInfo>)
      requires stream.sent == [] && !resumed && !fallbackArmed && engine.suppressOutboundDeletes == suppressDeletes
      modifies this, engine, stream
      ensures Valid() && resumed == old(resumed) && queue == old(queue)
      ensures stopped == (startPaused || controlOnly) && (controlOnly ==> !fallbackArmed)
      ensures var greeting :=
                if controlOnly then [Control] else if startPaused then [Control, Control]
                else if walk.readable then [Control, ManifestOut(entries)] else [Control];
              stream.sent <= greeting && (ok ==> stream.sent == greeting)
      ensures !controlOnly && !startPaused && walk.readable && ok ==> IsOurs(entries)
      ensures stream.healthy ==> ok && (!controlOnly ==> fallbackArmed)
    {
      stopped, entries := startPaused || controlOnly, [];
      ok := stream.Send(Control);
      if !ok || controlOnly {
        return;
      }
      if startPaused {
        ok := stream.Send(Control);
      } else {
        ok, entries := SendManifest(walk);
      }
      fallbackArmed := true;
    }

    /** A rescan, and our own manifest after it. */
    method OwnManifest(walk: Walk) returns (built: bool, list: seq<FileInfo>)
      requires engine.suppressOutboundDeletes == suppressDeletes
      modifies engine`index, engine`tombstones
      ensures RescannedStore(engine.w, walk, old(Now()).store, Now().store) && built == walk.readable
      ensures Now() == old(Now()).(store := Now().store)
      ensures built ==>
        && IsOurs(list) && EachOnce(list)
        && forall p :: Lookup(list, p) == Shown(engine.index, engine.tombstones, engine.partials, p)
    {
      built, list := engine.Manifest(walk.now, walk.readable, walk.rootSeen, walk.rootOK);
      if built {
        NothingTwice(list, engine.index, engine.tombstones, engine.partials);
      }
    }

    method SendManifest(walk: Walk) returns (ok: bool, ghost entries: seq<FileInfo>)
      requires engine.suppressOutboundDeletes == suppressDeletes
      modifies engine`index, engine`tombstones, stream
      ensures RescannedStore(engine.w, walk, old(Now()).store, Now().store)
      ensures stream.sent == old(stream.sent) + if walk.readable && ok then [ManifestOut(entries)] else []
      ensures (walk.readable ==> IsOurs(entries)) && (stream.healthy || !walk.readable ==> ok)
    {
      ok := true;
      var built, list := OwnManifest(walk);
      entries := list;
      if built {
        ok := stream.Send(ManifestOut(list));
      }
    }

    /** A local resume: nothing happens if the manifest cannot be built, and outbound traffic flows again
        once both messages are out. */
    method ResumeDownload(walk: Walk) returns (ok: bool, ghost entries: seq<FileInfo>)
      requires engine.suppressOutboundDeletes == suppressDeletes
      modifies this`stopped, engine`index, engine`tombstones, stream
      ensures Resumes(Set(), walk, old(Now()), Now(), ok, entries)
    {
      ok := true;
      var built, list := OwnManifest(walk);
      entries := list;
      if built {
        ok := stream.Send(Control);
        if ok {
          ok := stream.Send(ManifestOut(list));
        }
        if ok {
          stopped := false;
        }
      }
    }

    method Enqueue(path: string, task: OutTask)
      modifies this`queue
      ensures queue == if (paused && path !in exempt) || path in {"", "."} then old(queue) else old(queue)[path := task]
    {
      if paused && path !in exempt {
        return;
      }
      if path == "" || path == "." {
        return;
      }
      queue := queue[path := task];
    }

    /** One inbound message or local event. `ok` is false when the session ends here. */
    method Handle(e: Event) returns (ok: bool)
      requires Valid()
      modifies this, engine, stream
      ensures Valid() && (resumed ==> old(resumed) || e.LocalResume?)
      ensures Handled(Set(), e, old(Now()), Now(), ok)
    {
      if FromPeer(e) {
        ok := HandlePeer(e);
      } else if e.Wake? {
        ok := DrainOutbound(e.attempts, e.patience);
      } else if e.FallbackFires? {
        ok := true;
        if fallbackArmed && !stopped {
          SendSnapshot(e.walk, e.attempts);
        }
      } else if e.LocalResume? {
        resumed := true;
        ghost var entries;
        ok, entries := ResumeDownload(e.walk);
        assert Resumes(Set(), e.walk, old(Now()), Now(), ok, entries);
      } else if e.LocalCancel? || e.OtherTraffic? {
        ok := SendControl();
      } else {
        ok := true;
        HandleEdit(e);
      }
    }

    method HandleEdit(e: Event)
      requires Valid() && (e.LocalChange? || e.RulesChanged? || e.WorkspaceEdited?)
      modifies this`queue, this`exempt, engine`ignored, engine`disk
      ensures Valid() && Handled(Set(), e, old(Now()), Now(), true)
    {
      if e.LocalChange? {
        Enqueue(e.path, SendPath);
      } else if e.RulesChanged? {
        engine.ignored, this.exempt := e.ignored, e.exempt;
      } else {
        engine.disk := e.disk;
      }
    }

    method SendControl() returns (ok: bool)
      requires Valid()
      modifies stream
      ensures Valid() && Now() == old(Now()).(sent := old(stream.sent) + if ok then [Control] else [])
      ensures stream.healthy ==> ok
    {
      ok := stream.Send(Control);
    }

    /** A message of the peer's that bears on the files. */
    method HandlePeer(e: Event) returns (ok: bool)
      requires Valid() && FromPeer(e)
      modifies this`fallbackArmed, this`paused, this`queue, this`stopped, engine, stream
      ensures Valid() && Handled(Set(), e, old(Now()), Now(), ok)
    {
      ok := true;
      match e
      case PeerManifest(_, _, _) =>
        TakeManifest(e);
      case PeerFileStatus(path, isError) =>
        if !controlOnly && isError {
          RetryAfterPeerError(path);
        }
      case PeerCancel =>
        stopped, queue := true, map[];
      case PeerResume =>
        if !controlOnly {
          stopped := false;
        }
      case PeerDelete(_, _, _) =>
        ok := TakeDelete(e);
      case PeerFile(meta, _, _, _, _, _) =>
        if meta.FileMeta? {
          ghost var fine;
          ok, fine := TakeFile(e);
          assert FileHandled(Set(), e, old(Now()), Now(), ok, fine);
        }
    }

    method TakeManifest(e: Event)
      requires Valid() && e.PeerManifest?
      modifies this`fallbackArmed, this`paused, this`queue, engine`index, engine`tombstones
      ensures Valid() && ManifestTaken(Set(), e, old(Now()), Now())
    {
      if !controlOnly {
        fallbackArmed, paused := false, e.repoMismatch;
        if !stopped {
          EnqueueDiff(e.entries, e.walk);
        }
      }
    }

    method TakeDelete(e: Event) returns (ok: bool)
      requires Valid() && e.PeerDelete?
      modifies engine`disk, engine`index, engine`tombstones, stream
      ensures Valid() && Handled(Set(), e, old(Now()), Now(), ok)
    {
      engine.ApplyDelete(e.path, e.version, e.now);
      ok := stream.Send(FileSynced(e.path));
    }

    method TakeFile(e: Event) returns (ok: bool, ghost fine: bool)
      requires Valid() && e.PeerFile? && e.meta.FileMeta?
      modifies engine`disk, engine`index, engine`tombstones, engine`suppressedHash, engine`partials, stream
      ensures Valid() && FileHandled(Set(), e, old(Now()), Now(), ok, fine) && (stream.healthy ==> ok)
    {
      var accepted := ReceiveOne(e);
      fine := accepted;
      ok := stream.Send(Status(e.meta.path, accepted));
    }

    /** Any number of files may be coming in at once; the bytes of one are taken together here. */
    method ReceiveOne(e: Event) returns (fine: bool)
      requires e.PeerFile? && e.meta.FileMeta? && Valid()
      modifies engine`disk, engine`index, engine`tombstones, engine`suppressedHash, engine`partials
      ensures Valid()
      ensures FileTaken(engine.w, engine.ignored, old(engine.View()), e, engine.View(), fine)
      ensures e.meta.path in engine.ignored || !fine ==> Now() == old(Now())
    {
      if e.meta.path in engine.ignored {
        return true;
      }
      var wrote;
      wrote, fine := ReceiveFile(engine, e.meta, e.blocks, e.hash, e.version, e.staging, e.luck);
    }

    /** Queues what the peer lacks, given its manifest and our own. */
    method EnqueueDiff(entries: seq<FileInfo>, walk: Walk)
      requires Valid()
      modifies this`queue, engine`index, engine`tombstones
      ensures Valid() && RescannedStore(engine.w, walk, old(Now()).store, Now().store)
      ensures !walk.readable ==> queue == old(queue)
      ensures walk.readable ==>
        forall p :: QueuedFor(Shown(engine.index, engine.tombstones, engine.partials, p), Lookup(entries, p),
                              paused && p !in exempt, suppressDeletes, p, old(queue), queue)
      ensures suppressDeletes ==>
        forall p :: p in queue && queue[p].ForcedDelete? ==> p in old(queue) && queue[p] == old(queue)[p]
    {
      var built, local := OwnManifest(walk);
      if built {
        QueueDiff(local, entries);
      }
    }

    method QueueDiff(local: seq<FileInfo>, entries: seq<FileInfo>)
      requires EachOnce(local)
      modifies this`queue
      ensures forall p :: QueuedFor(Lookup(local, p), Lookup(entries, p), paused && p !in exempt, suppressDeletes, p,
                                    old(queue), queue)
      ensures suppressDeletes ==>
        forall p :: p in queue && queue[p].ForcedDelete? ==> p in old(queue) && queue[p] == old(queue)[p]
    {
      var toSend, toDelete := DiffManifests(local, entries);
      QueueSends(entries, toSend);
      ghost var between := queue;
      if !suppressDeletes {
        QueueDeletes(local, toDelete);
      }
      forall p
        ensures QueuedFor(Lookup(local, p), Lookup(entries, p), paused && p !in exempt, suppressDeletes, p, old(queue),
                          queue)
      {
        DiffQueued(local, entries, toSend, toDelete, paused, exempt, suppressDeletes, p, old(queue), between, queue);
      }
    }

    method QueueSends(ghost entries: seq<FileInfo>, toSend: seq<FileInfo>)
      requires forall e :: e in toSend ==> e == ToSend(e.path, Lookup(entries, e.path))
      modifies this`queue
      ensures SendsQueued(paused, exempt, entries, toSend, old(queue), queue)
      ensures forall p :: p in queue && queue[p].ForcedDelete? ==> Same(queue, old(queue), p)
    {
      for i := 0 to |toSend|
        invariant SendsQueued(paused, exempt, entries, toSend[..i], old(queue), queue)
      {
        ghost var q := queue;
        Enqueue(toSend[i].path, ForcedSend(toSend[i]));
        assert toSend[i] in toSend && toSend[..i + 1] == toSend[..i] + [toSend[i]];
        OneMoreSend(paused, exempt, entries, toSend[..i], toSend[i], old(queue), q, queue);
      }
      assert toSend[..|toSend|] == toSend;
    }

    method QueueDeletes(ghost local: seq<FileInfo>, toDelete: seq<FileInfo>)
      requires forall l :: l in toDelete ==> Lookup(local, l.path) == Some(l)
      modifies this`queue
      ensures DeletesQueued(paused, exempt, local, toDelete, old(queue), queue)
    {
      for i := 0 to |toDelete|
        invariant DeletesQueued(paused, exempt, local, toDelete[..i], old(queue), queue)
      {
        ghost var q := queue;
        Enqueue(toDelete[i].path, ForcedDelete(toDelete[i].version));
        assert toDelete[i] in toDelete && toDelete[..i + 1] == toDelete[..i] + [toDelete[i]];
        OneMoreDelete(paused, exempt, local, toDelete[..i], toDelete[i], old(queue), q, queue);
      }
      assert toDelete[..|toDelete|] == toDelete;
    }

    /** A live file is marked as changed so that the next rescan sends it again; a tombstone is
        queued for sending again. */
    method RetryAfterPeerError(path: string)
      requires Valid()
      modifies this`queue, engine`index
      ensures Valid() && Retried(Set(), path, old(Now()), Now())
      ensures path != "" && path in old(engine.index) ==>
        Moved(engine.w, engine.disk, old(engine.index), Mark(path), engine.disk, engine.index)
    {
      if path == "" {
        return;
      }
      if path in engine.index {
        engine.index := engine.index[path := engine.index[path].(hash := "", normHash := "")];
      } else if path in engine.tombstones && !suppressDeletes {
        Enqueue(path, ForcedDelete(engine.tombstones[path]));
      }
    }

    /** Sends what is queued. A cancel comes in after `patience` tasks, and a task that fails ends
        the session only if the stream is gone. */
    method DrainOutbound(attempts: string -> Attempt, patience: nat) returns (ok: bool)
      requires Valid()
      modifies this`queue, this`stopped, engine, stream
      ensures Valid() && Drained(Set(), attempts, patience, old(Now()), Now(), ok)
    {
      ok := true;
      var batch := queue;
      queue := map[];
      if !stopped {
        ok := SendBatch(batch, attempts, patience);
      }
    }

    method SendBatch(batch: map<string, OutTask>, attempts: string -> Attempt, patience: nat) returns (ok: bool)
      requires Valid() && !stopped
      modifies this`stopped, engine`disk, engine`index, engine`tombstones, engine`suppressedHash, stream
      ensures Valid() && old(stream.sent) <= stream.sent
      ensures stream.healthy ==> ok && (stopped <==> |batch| > patience)
      ensures stream.healthy && !stopped ==>
        PartDrained(old(engine.Standing()), batch, {}, attempts, engine.Standing(), stream.sent)
    {
      ok := true;
      ghost var o := engine.Standing();
      NothingDrained(o, batch, attempts, stream.sent);
      var todo, left := batch.Keys, patience;
      while todo != {}
        invariant Valid() && todo <= batch.Keys && !Shut() && ok && !stopped
        invariant |todo| > left <==> |batch| > patience
        invariant old(stream.sent) <= stream.sent
        invariant stream.healthy ==> PartDrained(o, batch, todo, attempts, engine.Standing(), stream.sent)
        decreases todo
      {
        if left == 0 {
          stopped := true;
          return;
        }
        var p :| p in todo;
        var sent := SendNext(o, batch, todo, attempts, p);
        todo, left := todo - {p}, left - 1;
        if !sent {
          ok := *;
          ok := ok || stream.healthy;
          if !ok {
            return;
          }
        }
      }
    }

    method SendNext(ghost o: Outset, batch: map<string, OutTask>, ghost todo: set<string>, attempts: string -> Attempt,
                    p: string)
      returns (sent: bool)
      requires Valid() && !Shut() && p in todo && todo <= batch.Keys
      requires stream.healthy ==> PartDrained(o, batch, todo, attempts, engine.Standing(), stream.sent)
      modifies engine`disk, engine`index, engine`tombstones, engine`suppressedHash, stream
      ensures Valid() && old(stream.sent) <= stream.sent
      ensures stream.healthy ==> PartDrained(o, batch, todo - {p}, attempts, engine.Standing(), stream.sent)
      ensures stream.healthy && attempts(p).fault == NoFault && attempts(p).stuck == {} ==> sent
    {
      ghost var o1, before := engine.Standing(), stream.sent;
      ghost var r;
      sent, r := SendTask(p, batch[p], attempts(p));
      if stream.healthy {
        DrainsOne(o, batch, todo, attempts, p, o1, before, engine.Standing(), stream.sent, sent, r);
      }
    }

    method SendTask(path: string, task: OutTask, t: Attempt) returns (ok: bool, ghost r: Outcome)
      requires Valid() && !Shut()
      modifies engine`disk, engine`index, engine`tombstones, engine`suppressedHash, stream
      ensures Valid() && old(stream.sent) <= stream.sent
      ensures TaskDone(old(engine.Standing()), path, task, t, stream.healthy, old(stream.sent), stream.sent, ok, r)
      ensures Spares(old(engine.Standing()), engine.Standing(), path)
    {
      match task
      case SendPath =>
        if path !in engine.disk {
          if suppressDeletes {
            return true, DeleteSuppressed;
          }
          var sent := engine.SendDelete(stream, path, t.now);
          return sent != Failed, sent;
        }
        ok, r := SendOne(Order(path, false, 0, ""), t);
      case ForcedSend(info) =>
        ok, r := SendOne(Order(path, true, info.partialBytes, info.partialEtag), t);
      case ForcedDelete(version) =>
        r := Unchanged;
        if suppressDeletes {
          return true, r;
        }
        ok := stream.Send(Delete(path, version));
    }

    method SendOne(order: Order, t: Attempt) returns (ok: bool, ghost r: Outcome)
      requires Valid() && !Shut()
      modifies engine`disk, engine`index, engine`tombstones, engine`suppressedHash, stream
      ensures Valid() && old(stream.sent) <= stream.sent
      ensures CarriedOut(old(engine.Standing()), order, t, stream.healthy, old(stream.sent), stream.sent, r)
      ensures Spares(old(engine.Standing()), engine.Standing(), order.path) && ok == (r != Failed)
    {
      ghost var before := stream.sent;
      var outcome := engine.SendOrPrune(stream, order, t);
      if suppressDeletes {
        NoDeleteExtends(before, stream.sent);
      }
      ok, r := outcome != Failed, outcome;
    }

    /** The fallback for a peer that never sent a manifest: every file, unconditionally. */
    method SendSnapshot(walk: Walk, attempts: string -> Attempt)
      requires Valid() && !Shut()
      modifies engine`disk, engine`index, engine`tombstones, engine`suppressedHash, stream
      ensures Valid() && SnapshotSent(Set(), walk, attempts, old(Now()), Now())
    {
      var built := engine.Snapshot(walk.now, walk.readable, walk.rootSeen, walk.rootOK);
      if !built {
        return;
      }
      ghost var o := engine.Standing();
      var batch := map p | p in engine.index :: ForcedSend(ToSend(p, None));
      SendAll(batch, attempts);
      ghost var u, s := Set(), old(Now());
      if u.healthy && walk.rootSeen && AllGoesWell(attempts) {
        forall p | p in s.store.disk - s.store.ignored
          ensures OnTheWire(OutsetOf(u, s.store), p, ForcedSend(ToSend(p, None)), attempts(p), stream.sent)
        {
          assert p in batch;
          ForcedAsksNoIndex(OutsetOf(u, s.store), o, p, ToSend(p, None), attempts(p), stream.sent);
        }
      }
    }

    /** One after the other, up to the first that fails. */
    method SendAll(batch: map<string, OutTask>, attempts: string -> Attempt)
      requires Valid() && !Shut()
      modifies engine`disk, engine`index, engine`tombstones, engine`suppressedHash, stream
      ensures Valid() && old(stream.sent) <= stream.sent
      ensures stream.healthy && AllGoesWell(attempts) ==>
        PartDrained(old(engine.Standing()), batch, {}, attempts, engine.Standing(), stream.sent)
    {
      ghost var o := engine.Standing();
      NothingDrained(o, batch, attempts, stream.sent);
      var todo := batch.Keys;
      while todo != {}
        invariant Valid() && !Shut() && todo <= batch.Keys && old(stream.sent) <= stream.sent
        invariant stream.healthy ==> PartDrained(o, batch, todo, attempts, engine.Standing(), stream.sent)
        decreases todo
      {
        var p :| p in todo;
        var ok := SendNext(o, batch, todo, attempts, p);
        todo := todo - {p};
        if !ok {
          return;
        }
      }
    }

    /** Every run: the events are handled one after another until one ends the session. Whatever the peer
        sends and whatever happens locally, a control-only session that serves no local resume request puts
        no manifest, file data or delete on the wire, and a delete-suppressed session never puts a delete
        there. */
    method Run(walk: Walk, events: seq<Event>) returns (ok: bool, ghost sights: seq<Sight>)
      requires stream.sent == [] && !resumed && !fallbackArmed && engine.suppressOutboundDeletes == suppressDeletes
      modifies this, engine, stream
      ensures IsRun(Set(), events, sights, ok) && sights[|sights| - 1] == Now()
      ensures controlOnly && (forall e :: e in events ==> !e.LocalResume?) ==> NoFilePlane(stream.sent)
      ensures suppressDeletes ==> NoDelete(stream.sent)
    {
      ghost var entries;
      ok, entries := Start(walk);
      sights := [Now()];
      for i := 0 to |events|
        invariant Valid() && sights != [] && sights[|sights| - 1] == Now()
        invariant (ok ==> |sights| == i + 1) && IsRun(Set(), events[..i], sights, ok)
        invariant (forall e :: e in events ==> !e.LocalResume?) ==> !resumed
      {
        if !ok {
          RunEnded(Set(), events, i, sights);
          return;
        }
        assert events[i] in events;
        ok := Handle(events[i]);
        RunGoesOn(Set(), events, i, sights, Now(), ok);
        sights := sights + [Now()];
      }
      assert events[..|events|] == events;
    }
  }

  /** From each sight to the next one event is handled; all are, unless one, the last, ends the session. */
  ghost predicate IsRun(u: Setup, events: seq<Event>, sights: seq<Sight>, ok: bool) {
    && 0 < |sights| <= |events| + 1 && (ok ==> |sights| == |events| + 1)
    && forall i :: 0 <= i < |sights| - 1 ==> Handled(u, events[i], sights[i], sights[i + 1], ok || i < |sights| - 2)
  }

  lemma RunGoesOn(u: Setup, events: seq<Event>, i: nat, sights: seq<Sight>, s: Sight, ok: bool)
    requires i < |events| && IsRun(u, events[..i], sights, true)
    requires Handled(u, events[i], sights[|sights| - 1], s, ok)
    ensures IsRun(u, events[..i + 1], sights + [s], ok)
  {
    var all := sights + [s];
    forall k | 0 <= k < |all| - 1 ensures Handled(u, events[..i + 1][k], all[k], all[k + 1], ok || k < |all| - 2) {
      if k < i {
        assert events[..i][k] == events[k];
        assert Handled(u, events[..i][k], sights[k], sights[k + 1], true);
      }
    }
  }

  lemma RunEnded(u: Setup, events: seq<Event>, i: nat, sights: seq<Sight>)
    requires i <= |events| && IsRun(u, events[..i], sights, false)
    ensures IsRun(u, events, sights, false)
  {
    forall k | 0 <= k < |sights| - 1 ensures Handled(u, events[k], sights[k], sights[k + 1], k < |sights| - 2) {
      assert events[..i][k] == events[k];
      assert Handled(u, events[..i][k], sights[k], sights[k + 1], false || k < |sights| - 2);
    }
  }
}
