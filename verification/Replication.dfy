/** Last-writer-wins exchange between two peers (internal/filesync/manifest.go and the apply side
    of internal/filesync/receive.go): what each sends given the other's manifest, and what any
    interleaving of comparing, sending and applying leads to. */
module Replication {
  import opened Wrappers
  import opened ByteSeq
  import opened FileModel

  // ---- the manifest diff ------------------------------------------------------------------

  datatype Action = Nothing | Push(partialBytes: nat, partialEtag: string) | PushDelete(version: int)

  /** What to push for one local entry, given the peer's entry for the same path. */
  function Decide(l: FileInfo, peer: Option<FileInfo>): Action {
    if l.deleted then
      if peer.None? || peer.value.deleted then Nothing
      else if l.version > peer.value.modTime then PushDelete(l.version)
      else Nothing
    else if peer.None? then Push(0, "")
    else
      var r := peer.value;
      if r.deleted then (if l.modTime > r.version then Push(0, "") else Nothing)
      else if r.hash == "" && r.partialBytes > 0 then Push(r.partialBytes, r.partialEtag)
      else if !SameContent(l, r) && l.modTime > r.modTime then Push(r.partialBytes, r.partialEtag)
      else Nothing
  }

  /** The entry for a path in a received manifest; a later entry overrides an earlier one. */
  function Lookup(entries: seq<FileInfo>, path: string): Option<FileInfo> {
    if entries == [] then None
    else
      var last := entries[|entries| - 1];
      if last.path == path then Some(last) else Lookup(entries[..|entries| - 1], path)
  }

  lemma {:induction false} LookupFinds(entries: seq<FileInfo>, p: string)
    requires Lookup(entries, p).Some?
    ensures Lookup(entries, p).value in entries && Lookup(entries, p).value.path == p
  {
    var n := |entries| - 1;
    if entries[n].path != p {
      LookupFinds(entries[..n], p);
    }
  }

  predicate Listed(entries: seq<FileInfo>, p: string) {
    exists e :: e in entries && e.path == p
  }

  function PushEntry(path: string, a: Action): FileInfo
    requires a.Push?
  {
    FileInfo(path, 0, 0, "", "", "", 0, false, a.partialBytes, a.partialEtag)
  }

  function Verdict(l: FileInfo, remote: seq<FileInfo>): Action {
    Decide(l, Lookup(remote, l.path))
  }

  /** The peer holds the beginning of the file and nothing else of it. */
  predicate Interrupted(r: FileInfo) {
    !r.deleted && r.hash == "" && r.partialBytes > 0
  }

  /** The peer lacks this live file: it never heard of it, deleted it earlier, was interrupted while it
      came in, or has something older and different. */
  predicate Lacks(peer: Option<FileInfo>, l: FileInfo) {
    peer.None? || (peer.value.deleted && peer.value.version < l.modTime) || Interrupted(peer.value)
    || (!peer.value.deleted && peer.value.modTime < l.modTime && !SameContent(l, peer.value))
  }

  /** A file to send, with what the peer already has of it. */
  function ToSend(path: string, peer: Option<FileInfo>): FileInfo {
    var resumes := peer.Some? && !peer.value.deleted;
    FileInfo(path, 0, 0, "", "", "", 0, false,
             if resumes then peer.value.partialBytes else 0, if resumes then peer.value.partialEtag else "")
  }

  lemma DecideTells(l: FileInfo, peer: Option<FileInfo>)
    ensures Decide(l, peer).Push? <==> !l.deleted && Lacks(peer, l)
    ensures Decide(l, peer).Push? ==> PushEntry(l.path, Decide(l, peer)) == ToSend(l.path, peer)
    ensures Decide(l, peer).PushDelete? <==>
      l.deleted && peer.Some? && !peer.value.deleted && peer.value.modTime < l.version
    ensures Decide(l, peer).PushDelete? ==> Decide(l, peer).version == l.version
  {
  }

  /** What goes to a peer with that manifest: every live file it lacks, with its resume point, and every
      tombstone newer than a file it has. */
  method DiffManifests(local: seq<FileInfo>, remote: seq<FileInfo>)
    returns (toSend: seq<FileInfo>, toDelete: seq<FileInfo>)
    ensures forall l :: l in local && Verdict(l, remote).Push? ==>
              PushEntry(l.path, Verdict(l, remote)) in toSend
    ensures forall e :: e in toSend ==>
              exists l :: l in local && Verdict(l, remote).Push? && e == PushEntry(l.path, Verdict(l, remote))
    ensures forall l :: l in toDelete <==> l in local && Verdict(l, remote).PushDelete?
    ensures forall e :: e in toSend <==>
              exists l :: l in local && !l.deleted && Lacks(Lookup(remote, l.path), l)
                          && e == ToSend(l.path, Lookup(remote, l.path))
    ensures forall l :: l in toDelete <==>
              && l in local && l.deleted
              && var peer := Lookup(remote, l.path);
                 peer.Some? && !peer.value.deleted && peer.value.modTime < l.version
  {
    forall l ensures Verdict(l, remote).Push? <==> !l.deleted && Lacks(Lookup(remote, l.path), l)
             ensures Verdict(l, remote).Push? ==>
               PushEntry(l.path, Verdict(l, remote)) == ToSend(l.path, Lookup(remote, l.path))
             ensures Verdict(l, remote).PushDelete? <==>
               var peer := Lookup(remote, l.path);
               l.deleted && peer.Some? && !peer.value.deleted && peer.value.modTime < l.version
    {
      DecideTells(l, Lookup(remote, l.path));
    }
    var remoteByPath: map<string, FileInfo> := map[];
    for i := 0 to |remote|
      invariant forall p :: Lookup(remote[..i], p) == if p in remoteByPath then Some(remoteByPath[p]) else None
    {
      assert remote[..i + 1][..i] == remote[..i];
      remoteByPath := remoteByPath[remote[i].path := remote[i]];
    }
    assert remote[..|remote|] == remote;
    toSend, toDelete := [], [];
    for i := 0 to |local|
      invariant forall j :: 0 <= j < i && Verdict(local[j], remote).Push? ==>
                  PushEntry(local[j].path, Verdict(local[j], remote)) in toSend
      invariant forall e :: e in toSend ==>
                  exists l :: l in local && Verdict(l, remote).Push? && e == PushEntry(l.path, Verdict(l, remote))
      invariant forall l :: l in toDelete <==> l in local[..i] && Verdict(l, remote).PushDelete?
    {
      var l := local[i];
      assert local[..i + 1] == local[..i] + [l] && l in local;
      var peer := if l.path in remoteByPath then Some(remoteByPath[l.path]) else None;
      var a := Decide(l, peer);
      if a.Push? {
        toSend := toSend + [PushEntry(l.path, a)];
      } else if a.PushDelete? {
        toDelete := toDelete + [l];
      }
    }
    assert local[..|local|] == local;
  }

  // ---- replicas ---------------------------------------------------------------------------

  datatype Replica = Replica(disk: map<string, File>, tombs: map<string, int>)

  /** One path as a manifest shows it. */
  datatype Spot = Gone | Live(file: File) | Dead(version: int)

  function At(r: Replica, path: string): Spot {
    if path in r.disk then Live(r.disk[path])
    else if path in r.tombs then Dead(r.tombs[path])
    else Gone
  }

  function EntryOf(w: World, path: string, s: Spot): Option<FileInfo> {
    match s
    case Gone => None
    case Live(f) => Some(InfoOf(w, path, f))
    case Dead(v) => Some(FileInfo(path, 0, 0, "", "", "", v, true, 0, ""))
  }

  function ManifestOf(w: World, r: Replica): (m: map<string, FileInfo>)
    ensures forall p :: (if p in m then Some(m[p]) else None) == EntryOf(w, p, At(r, p))
  {
    map p | p in r.disk.Keys + r.tombs.Keys :: EntryOf(w, p, At(r, p)).value
  }

  function Act(w: World, path: string, mine: Spot, theirs: Spot): Action {
    if mine.Gone? then Nothing else Decide(EntryOf(w, path, mine).value, EntryOf(w, path, theirs))
  }

  lemma NotBothAct(w: World, path: string, x: Spot, y: Spot)
    ensures Act(w, path, x, y).Nothing? || Act(w, path, y, x).Nothing?
  {
  }

  datatype Message = FileMessage(path: string, content: Bytes, modTime: int) | DeleteMessage(path: string, version: int)

  /** A whole verified file lands: a strictly newer local copy is kept, otherwise the file replaces
      whatever was there and its tombstone goes. */
  function FileApplied(r: Replica, path: string, f: File): Replica {
    if path in r.disk && r.disk[path].modTime > f.modTime then r
    else Replica(r.disk[path := f], r.tombs - {path})
  }

  /** A delete lands, unless the local copy is strictly newer. Version 0 stands for "now". */
  function DeleteApplied(r: Replica, path: string, version: int, now: int): Replica {
    var v := if version == 0 then now else version;
    if path in r.disk && r.disk[path].modTime > v then r
    else Replica(r.disk - {path}, r.tombs[path := v])
  }

  // ---- the exchange -----------------------------------------------------------------------

  datatype Task = SendFile | SendDeletion(version: int)

  // The outbound queue holds one task per path.
  datatype Peer = Peer(replica: Replica, diffed: bool, queue: map<string, Task>, inbox: set<Message>)

  datatype Exchange = Exchange(a: Peer, b: Peer)

  datatype Step = Compare | Transmit(path: string, now: int) | Apply(m: Message, fileID: string, now: int)

  function TaskFor(a: Action): Task
    requires !a.Nothing?
  {
    match a
    case Push(_, _) => SendFile
    case PushDelete(v) => SendDeletion(v)
  }

  ghost function Queued(w: World, r: Replica, remote: map<string, FileInfo>): map<string, Task> {
    map p | p in ManifestOf(w, r) &&
        !Decide(ManifestOf(w, r)[p], if p in remote then Some(remote[p]) else None).Nothing?
      :: TaskFor(Decide(ManifestOf(w, r)[p], if p in remote then Some(remote[p]) else None))
  }

  ghost predicate Enabled(me: Peer, step: Step) {
    match step
    case Compare => !me.diffed
    case Transmit(path, _) => path in me.queue
    case Apply(m, _, _) => m in me.inbox
  }

  /** One step of `me`; `remote` is the manifest the other side sent when the exchange began. */
  ghost function Stepped(w: World, remote: map<string, FileInfo>, me: Peer, other: Peer, step: Step): Exchange
    requires Enabled(me, step)
  {
    match step
    case Compare =>
      Exchange(me.(diffed := true, queue := me.queue + Queued(w, me.replica, remote)), other)
    case Transmit(path, now) =>
      var me' := me.(queue := me.queue - {path});
      (match me.queue[path]
       case SendDeletion(v) => Exchange(me', other.(inbox := other.inbox + {DeleteMessage(path, v)}))
       case SendFile =>
         if path in me.replica.disk then
           var f := me.replica.disk[path];
           Exchange(me'.(replica := me.replica.(tombs := me.replica.tombs - {path})),
                    other.(inbox := other.inbox + {FileMessage(path, f.content, f.modTime)}))
         else
           Exchange(me'.(replica := me.replica.(tombs := me.replica.tombs[path := now])),
                    other.(inbox := other.inbox + {DeleteMessage(path, now)})))
    case Apply(m, fileID, now) =>
      var r := match m
        case FileMessage(path, content, modTime) => FileApplied(me.replica, path, File(content, modTime, fileID))
        case DeleteMessage(path, version) => DeleteApplied(me.replica, path, version, now);
      Exchange(me.(replica := r, inbox := me.inbox - {m}), other)
  }

  function Swap(s: Exchange): Exchange {
    Exchange(s.b, s.a)
  }

  /** A step of either peer. */
  ghost predicate Next(w: World, a0: Replica, b0: Replica, s: Exchange, s': Exchange) {
    || (exists step :: Enabled(s.a, step) && s' == Stepped(w, ManifestOf(w, b0), s.a, s.b, step))
    || (exists step :: Enabled(s.b, step) && Swap(s') == Stepped(w, ManifestOf(w, a0), s.b, s.a, step))
  }

  function Start(a0: Replica, b0: Replica): Exchange {
    Exchange(Peer(a0, false, map[], {}), Peer(b0, false, map[], {}))
  }

  ghost predicate Run(w: World, a0: Replica, b0: Replica, states: seq<Exchange>) {
    && states != [] && states[0] == Start(a0, b0)
    && forall i :: 0 <= i < |states| - 1 ==> Next(w, a0, b0, states[i], states[i + 1])
  }

  predicate Quiescent(s: Exchange) {
    s.a.diffed && s.b.diffed && s.a.queue == map[] && s.b.queue == map[] && s.a.inbox == {} && s.b.inbox == {}
  }

  // ---- the invariant, path by path --------------------------------------------------------

  predicate Silent(p: Peer, path: string) {
    forall m :: m in p.inbox ==> m.path != path
  }

  function MessageFor(path: string, x: Spot): Message
    requires !x.Gone?
  {
    match x
    case Live(f) => FileMessage(path, f.content, f.modTime)
    case Dead(v) => DeleteMessage(path, v)
  }

  /** `y` received what `x` sent. */
  predicate Landed(x: Spot, y: Spot) {
    match x
    case Live(f) => y.Live? && y.file.content == f.content && y.file.modTime == f.modTime
    case Dead(v) => y == Dead(v)
    case Gone => false
  }

  /** The side whose entry wins keeps it; the other side holds its own until the one message lands. */
  ghost predicate Winning(w: World, path: string, x: Spot, y: Spot, winner: Peer, loser: Peer)
    requires !Act(w, path, x, y).Nothing?
  {
    && At(winner.replica, path) == x && path !in loser.queue && Silent(winner, path)
    && (winner.diffed && path !in winner.queue ==>
         || (MessageFor(path, x) in loser.inbox && At(loser.replica, path) == y
             && forall m :: m in loser.inbox && m.path == path ==> m == MessageFor(path, x))
         || (Silent(loser, path) && Landed(x, At(loser.replica, path))))
    && (path in winner.queue ==>
         winner.diffed && winner.queue[path] == TaskFor(Act(w, path, x, y))
         && Silent(loser, path) && At(loser.replica, path) == y)
    && (!winner.diffed ==> Silent(loser, path) && At(loser.replica, path) == y)
  }

  ghost predicate Untouched(path: string, x: Spot, y: Spot, a: Peer, b: Peer) {
    && At(a.replica, path) == x && At(b.replica, path) == y
    && path !in a.queue && path !in b.queue && Silent(a, path) && Silent(b, path)
  }

  ghost predicate PathInv(w: World, path: string, x: Spot, y: Spot, a: Peer, b: Peer) {
    if !Act(w, path, x, y).Nothing? then Winning(w, path, x, y, a, b)
    else if !Act(w, path, y, x).Nothing? then Winning(w, path, y, x, b, a)
    else Untouched(path, x, y, a, b)
  }

  /** Tombstones carry clock readings. */
  ghost predicate Stamped(r: Replica) {
    forall p :: p in r.tombs ==> r.tombs[p] > 0
  }

  lemma WinnerSteps(w: World, path: string, x: Spot, y: Spot, winner: Peer, loser: Peer,
                    remote: map<string, FileInfo>, step: Step)
    requires !Act(w, path, x, y).Nothing? && Winning(w, path, x, y, winner, loser)
    requires Enabled(winner, step) && (if path in remote then Some(remote[path]) else None) == EntryOf(w, path, y)
    ensures var s := Stepped(w, remote, winner, loser, step); Winning(w, path, x, y, s.a, s.b)
  {
    match step
    case Compare => WinnerCompares(w, path, x, y, winner, loser, remote);
    case Transmit(_, _) => WinnerTransmits(w, path, x, y, winner, loser, remote, step);
    case Apply(_, _, _) =>
  }

  lemma WinnerCompares(w: World, path: string, x: Spot, y: Spot, winner: Peer, loser: Peer, remote: map<string,
                       FileInfo>)
    requires !Act(w, path, x, y).Nothing? && Winning(w, path, x, y, winner, loser) && !winner.diffed
    requires (if path in remote then Some(remote[path]) else None) == EntryOf(w, path, y)
    ensures var s := Stepped(w, remote, winner, loser, Compare); Winning(w, path, x, y, s.a, s.b)
  {
    var queued := Queued(w, winner.replica, remote);
    assert path in queued && queued[path] == TaskFor(Act(w, path, x, y));
  }

  lemma WinnerTransmits(w: World, path: string, x: Spot, y: Spot, winner: Peer, loser: Peer,
                        remote: map<string, FileInfo>, step: Step)
    requires !Act(w, path, x, y).Nothing? && Winning(w, path, x, y, winner, loser)
    requires step.Transmit? && step.path in winner.queue
    ensures var s := Stepped(w, remote, winner, loser, step); Winning(w, path, x, y, s.a, s.b)
  {
    if step.path == path {
      WinnerSends(w, path, x, y, winner, loser, remote, step);
    } else {
      var m := TransmitTakesOneSendsOne(w, remote, winner, loser, step);
    }
  }

  lemma WinnerSends(w: World, path: string, x: Spot, y: Spot, winner: Peer, loser: Peer,
                    remote: map<string, FileInfo>, step: Step)
    requires !Act(w, path, x, y).Nothing? && Winning(w, path, x, y, winner, loser)
    requires step.Transmit? && step.path == path && path in winner.queue
    ensures var s := Stepped(w, remote, winner, loser, step); Winning(w, path, x, y, s.a, s.b)
  {
    var s := Stepped(w, remote, winner, loser, step);
    assert s.b.inbox == loser.inbox + {MessageFor(path, x)};
    assert At(s.a.replica, path) == x && path !in s.a.queue;
  }

  /** The losing side finds nothing of its own to send, before or after the news reaches it. */
  lemma LoserHasNothingToSend(w: World, path: string, x: Spot, y: Spot, z: Spot)
    requires !Act(w, path, x, y).Nothing? && (z == y || Landed(x, z))
    ensures Act(w, path, z, x).Nothing?
  {
  }

  lemma LoserCompares(w: World, path: string, x: Spot, y: Spot, winner: Peer, loser: Peer, remote: map<string,
                      FileInfo>)
    requires !Act(w, path, x, y).Nothing? && Winning(w, path, x, y, winner, loser) && !loser.diffed
    requires (if path in remote then Some(remote[path]) else None) == EntryOf(w, path, x)
    ensures var s := Stepped(w, remote, loser, winner, Compare); Winning(w, path, x, y, s.b, s.a)
  {
    var z := At(loser.replica, path);
    LoserHasNothingToSend(w, path, x, y, z);
    assert path !in Queued(w, loser.replica, remote);
  }

  lemma LoserApplies(w: World, path: string, x: Spot, y: Spot, winner: Peer, loser: Peer, remote: map<string,
                     FileInfo>, step: Step)
    requires !Act(w, path, x, y).Nothing? && Winning(w, path, x, y, winner, loser) && (x.Dead? ==> x.version > 0)
    requires step.Apply? && step.m in loser.inbox
    ensures var s := Stepped(w, remote, loser, winner, step); Winning(w, path, x, y, s.b, s.a)
  {
    var s := Stepped(w, remote, loser, winner, step);
    if step.m.path == path {
      assert step.m == MessageFor(path, x);
      assert Landed(x, At(s.a.replica, path));
    } else {
      assert At(s.a.replica, path) == At(loser.replica, path);
    }
  }

  lemma LoserSteps(w: World, path: string, x: Spot, y: Spot, winner: Peer, loser: Peer, remote: map<string,
                   FileInfo>, step: Step)
    requires !Act(w, path, x, y).Nothing? && Winning(w, path, x, y, winner, loser) && (x.Dead? ==> x.version > 0)
    requires Enabled(loser, step) && (if path in remote then Some(remote[path]) else None) == EntryOf(w, path, x)
    ensures var s := Stepped(w, remote, loser, winner, step); Winning(w, path, x, y, s.b, s.a)
  {
    match step
    case Compare => LoserCompares(w, path, x, y, winner, loser, remote);
    case Transmit(p, _) => assert p != path;
    case Apply(_, _, _) => LoserApplies(w, path, x, y, winner, loser, remote, step);
  }

  lemma UntouchedSteps(w: World, path: string, x: Spot, y: Spot, a: Peer, b: Peer, remote: map<string, FileInfo>,
                       step: Step)
    requires Act(w, path, x, y).Nothing? && Untouched(path, x, y, a, b)
    requires Enabled(a, step) && (if path in remote then Some(remote[path]) else None) == EntryOf(w, path, y)
    ensures var s := Stepped(w, remote, a, b, step); Untouched(path, x, y, s.a, s.b)
  {
  }

  lemma StepKeepsPathInv(w: World, a0: Replica, b0: Replica, s: Exchange, s': Exchange, path: string)
    requires Stamped(a0) && Stamped(b0)
    requires Next(w, a0, b0, s, s') && PathInv(w, path, At(a0, path), At(b0, path), s.a, s.b)
    ensures PathInv(w, path, At(a0, path), At(b0, path), s'.a, s'.b)
  {
    var x, y := At(a0, path), At(b0, path);
    NotBothAct(w, path, x, y);
    if step :| Enabled(s.a, step) && s' == Stepped(w, ManifestOf(w, b0), s.a, s.b, step) {
      if !Act(w, path, x, y).Nothing? {
        WinnerSteps(w, path, x, y, s.a, s.b, ManifestOf(w, b0), step);
      } else if !Act(w, path, y, x).Nothing? {
        LoserSteps(w, path, y, x, s.b, s.a, ManifestOf(w, b0), step);
      } else {
        UntouchedSteps(w, path, x, y, s.a, s.b, ManifestOf(w, b0), step);
      }
    } else {
      var step :| Enabled(s.b, step) && Swap(s') == Stepped(w, ManifestOf(w, a0), s.b, s.a, step);
      if !Act(w, path, x, y).Nothing? {
        LoserSteps(w, path, x, y, s.a, s.b, ManifestOf(w, a0), step);
      } else if !Act(w, path, y, x).Nothing? {
        WinnerSteps(w, path, y, x, s.b, s.a, ManifestOf(w, a0), step);
      } else {
        UntouchedSteps(w, path, y, x, s.b, s.a, ManifestOf(w, a0), step);
      }
    }
  }

  lemma {:induction false} RunKeepsPathInv(w: World, a0: Replica, b0: Replica, states: seq<Exchange>, path: string)
    requires Stamped(a0) && Stamped(b0) && Run(w, a0, b0, states)
    ensures var s := states[|states| - 1]; PathInv(w, path, At(a0, path), At(b0, path), s.a, s.b)
  {
    var n := |states| - 1;
    if n > 0 {
      RunKeepsPathInv(w, a0, b0, states[..n], path);
      StepKeepsPathInv(w, a0, b0, states[n - 1], states[n], path);
    }
  }

  // ---- theorems ---------------------------------------------------------------------------

  /** Both hold an equivalent file, or neither holds one. */
  predicate Agree(w: World, path: string, x: Spot, y: Spot) {
    if x.Live? && y.Live? then Equivalent(w, path, x.file.content, y.file.content) else !x.Live? && !y.Live?
  }

  /** The two entries carry the same time stamp. */
  predicate Tie(x: Spot, y: Spot) {
    || (x.Live? && y.Live? && x.file.modTime == y.file.modTime)
    || (x.Live? && y.Dead? && x.file.modTime == y.version)
    || (x.Dead? && y.Live? && x.version == y.file.modTime)
  }

  lemma SettledUnlessTie(w: World, path: string, x: Spot, y: Spot)
    requires Injective(w) && NeverEmpty(w)
    ensures Act(w, path, x, y).Nothing? && Act(w, path, y, x).Nothing? ==> Agree(w, path, x, y) || Tie(x, y)
  {
    if x.Live? && y.Live? {
      SameContentIsEquivalence(w, path, x.file, y.file);
    }
  }

  lemma TiesAreSilent(w: World, path: string, x: Spot, y: Spot)
    requires Tie(x, y)
    ensures Act(w, path, x, y).Nothing? && Act(w, path, y, x).Nothing?
  {
  }

  /** However the steps interleave, a finished exchange leaves a path disagreed exactly if it was
      disagreed before with equal time stamps, and neither side has anything left to send. */
  lemma ExchangeConverges(w: World, a0: Replica, b0: Replica, states: seq<Exchange>, path: string)
    requires Injective(w) && NeverEmpty(w) && Stamped(a0) && Stamped(b0)
    requires Run(w, a0, b0, states) && Quiescent(states[|states| - 1])
    ensures var s := states[|states| - 1];
            var x, y := At(s.a.replica, path), At(s.b.replica, path);
            && (Agree(w, path, x, y) <==>
                  Agree(w, path, At(a0, path), At(b0, path)) || !Tie(At(a0, path), At(b0, path)))
            && Act(w, path, x, y).Nothing? && Act(w, path, y, x).Nothing?
  {
    var x, y := At(a0, path), At(b0, path);
    RunKeepsPathInv(w, a0, b0, states, path);
    SettledUnlessTie(w, path, x, y);
    if Tie(x, y) {
      TiesAreSilent(w, path, x, y);
    }
  }

  /** The newer entry is what both sides end with. */
  lemma LastWriterWins(w: World, a0: Replica, b0: Replica, states: seq<Exchange>, path: string)
    requires Stamped(a0) && Stamped(b0) && Run(w, a0, b0, states) && Quiescent(states[|states| - 1])
    ensures var s := states[|states| - 1];
            && (!Act(w, path, At(a0, path), At(b0, path)).Nothing? ==> Landed(At(a0, path), At(s.b.replica, path)))
            && (!Act(w, path, At(b0, path), At(a0, path)).Nothing? ==> Landed(At(b0, path), At(s.a.replica, path)))
  {
    NotBothAct(w, path, At(a0, path), At(b0, path));
    RunKeepsPathInv(w, a0, b0, states, path);
  }

  /** A deletion newer than the peer's copy is never undone: in no state of any run does the
      deleting side hold the file again, and when the exchange is over nobody does. */
  lemma NoResurrection(w: World, a0: Replica, b0: Replica, states: seq<Exchange>, path: string)
    requires Stamped(a0) && Stamped(b0) && Run(w, a0, b0, states)
    requires At(a0, path).Dead? && At(b0, path).Live? && At(b0, path).file.modTime < At(a0, path).version
    ensures var s := states[|states| - 1];
            && path !in s.a.replica.disk && path !in s.b.queue && Silent(s.a, path)
            && (Quiescent(s) ==> path !in s.b.replica.disk && path in s.b.replica.tombs)
  {
    RunKeepsPathInv(w, a0, b0, states, path);
  }

  // ---- an exchange ends -------------------------------------------------------------------

  function Undiffed(s: Exchange): nat {
    (if s.a.diffed then 0 else 1) + (if s.b.diffed then 0 else 1)
  }

  function Work(s: Exchange): nat {
    2 * |s.a.queue| + 2 * |s.b.queue| + |s.a.inbox| + |s.b.inbox|
  }

  lemma StepShrinks(w: World, remote: map<string, FileInfo>, me: Peer, other: Peer, step: Step)
    requires Enabled(me, step)
    ensures var s, s' := Exchange(me, other), Stepped(w, remote, me, other, step);
            Undiffed(s') < Undiffed(s) || (Undiffed(s') == Undiffed(s) && Work(s') < Work(s))
  {
    if step.Transmit? {
      TransmitShrinks(w, remote, me, other, step);
    }
  }

  lemma TransmitShrinks(w: World, remote: map<string, FileInfo>, me: Peer, other: Peer, step: Step)
    requires step.Transmit? && Enabled(me, step)
    ensures var s, s' := Exchange(me, other), Stepped(w, remote, me, other, step);
            Undiffed(s') == Undiffed(s) && Work(s') < Work(s)
  {
    var s' := Stepped(w, remote, me, other, step);
    var m := TransmitTakesOneSendsOne(w, remote, me, other, step);
    OneTaskLess(me.queue, step.path);
    assert |other.inbox + {m}| <= |other.inbox| + 1;
  }

  lemma TransmitTakesOneSendsOne(w: World, remote: map<string, FileInfo>, me: Peer, other: Peer, step: Step)
    returns (m: Message)
    requires step.Transmit? && Enabled(me, step)
    ensures var s' := Stepped(w, remote, me, other, step);
            && s'.a.queue == me.queue - {step.path} && s'.a.inbox == me.inbox && s'.a.diffed == me.diffed
            && m.path == step.path && s'.b.replica == other.replica
            && s'.b.queue == other.queue && s'.b.inbox == other.inbox + {m} && s'.b.diffed == other.diffed
  {
    var task := me.queue[step.path];
    if task.SendDeletion? {
      m := DeleteMessage(step.path, task.version);
    } else if step.path in me.replica.disk {
      var f := me.replica.disk[step.path];
      m := FileMessage(step.path, f.content, f.modTime);
    } else {
      m := DeleteMessage(step.path, step.now);
    }
  }

  lemma OneTaskLess(queue: map<string, Task>, path: string)
    requires path in queue
    ensures |queue - {path}| == |queue| - 1
  {
    assert (queue - {path}).Keys == queue.Keys - {path};
    assert |queue.Keys - {path}| == |queue.Keys| - 1;
  }

  lemma ExchangeShrinks(w: World, a0: Replica, b0: Replica, s: Exchange, s': Exchange)
    requires Next(w, a0, b0, s, s')
    ensures Undiffed(s') < Undiffed(s) || (Undiffed(s') == Undiffed(s) && Work(s') < Work(s))
  {
    if step :| Enabled(s.a, step) && s' == Stepped(w, ManifestOf(w, b0), s.a, s.b, step) {
      StepShrinks(w, ManifestOf(w, b0), s.a, s.b, step);
    } else {
      var step :| Enabled(s.b, step) && Swap(s') == Stepped(w, ManifestOf(w, a0), s.b, s.a, step);
      StepShrinks(w, ManifestOf(w, a0), s.b, s.a, step);
    }
  }

  /** Until it is quiescent some step is possible; with ExchangeShrinks, every exchange ends. */
  lemma NotStuck(w: World, a0: Replica, b0: Replica, s: Exchange)
    requires !Quiescent(s)
    ensures exists s' :: Next(w, a0, b0, s, s')
  {
    if p: Peer, step: Step :| (p == s.a || p == s.b) && Enabled(p, step) {
      var s' := if p == s.a then Stepped(w, ManifestOf(w, b0), s.a, s.b, step)
                else Swap(Stepped(w, ManifestOf(w, a0), s.b, s.a, step));
      assert Next(w, a0, b0, s, s');
    } else {
      IdleIsQuiescent(s.a);
      IdleIsQuiescent(s.b);
    }
  }

  lemma IdleIsQuiescent(p: Peer)
    requires forall step :: !Enabled(p, step)
    ensures p.diffed && p.queue == map[] && p.inbox == {}
  {
    assert !Enabled(p, Compare);
    if path :| path in p.queue {
      assert Enabled(p, Transmit(path, 0));
    }
    if m :| m in p.inbox {
      assert Enabled(p, Apply(m, "", 0));
    }
  }
}
