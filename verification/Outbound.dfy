/** What is queued to go out (internal/filesync/outbound_queue.go) and what has to be on the wire once it
    went. */
module Outbound {
  import opened Wrappers
  import opened FileModel
  import opened Replication
  import opened Engine

  datatype OutTask = SendPath | ForcedSend(info: FileInfo) | ForcedDelete(version: int)

  // ---- what a comparison queues -----------------------------------------------------------

  /** One path after a comparison: a live file the peer lacks is queued with its resume point, a tombstone
      newer than the peer's file as a delete, and nothing else is touched. */
  ghost predicate QueuedFor(mine: Option<FileInfo>, peer: Option<FileInfo>, shut: bool, quiet: bool, path: string,
                            before: map<string, OutTask>, after: map<string, OutTask>) {
    if mine.None? || shut || path in {"", "."} then Same(after, before, path)
    else if !mine.value.deleted && Lacks(peer, mine.value) then
      path in after && after[path] == ForcedSend(ToSend(path, peer))
    else if mine.value.deleted && !quiet && peer.Some? && !peer.value.deleted
            && peer.value.modTime < mine.value.version then
      path in after && after[path] == ForcedDelete(mine.value.version)
    else Same(after, before, path)
  }

  predicate Closed(paused: bool, exempt: set<string>, path: string) {
    (paused && path !in exempt) || path in {"", "."}
  }

  /** The files of the list are queued where the queue takes anything, and nothing else is touched. */
  ghost predicate SendsQueued(paused: bool, exempt: set<string>, entries: seq<FileInfo>, list: seq<FileInfo>,
                              before: map<string, OutTask>, after: map<string, OutTask>) {
    forall p ::
      if Closed(paused, exempt, p) || !Listed(list, p) then Same(after, before, p)
      else p in after && after[p] == ForcedSend(ToSend(p, Lookup(entries, p)))
  }

  ghost predicate DeletesQueued(paused: bool, exempt: set<string>, local: seq<FileInfo>, list: seq<FileInfo>,
                                before: map<string, OutTask>, after: map<string, OutTask>) {
    forall p ::
      if Closed(paused, exempt, p) || !Listed(list, p) then Same(after, before, p)
      else Lookup(local, p).Some? && p in after && after[p] == ForcedDelete(Lookup(local, p).value.version)
  }

  lemma ListedMore(list: seq<FileInfo>, e: FileInfo, p: string)
    ensures Listed(list + [e], p) <==> Listed(list, p) || p == e.path
  {
    assert e in list + [e];
    if Listed(list, p) {
      var x :| x in list && x.path == p;
      assert x in list + [e];
    }
  }

  lemma OneMoreSend(paused: bool, exempt: set<string>, entries: seq<FileInfo>, list: seq<FileInfo>, e: FileInfo,
                    before: map<string, OutTask>, q: map<string, OutTask>, q': map<string, OutTask>)
    requires SendsQueued(paused, exempt, entries, list, before, q) && e == ToSend(e.path, Lookup(entries, e.path))
    requires q' == if Closed(paused, exempt, e.path) then q else q[e.path := ForcedSend(e)]
    ensures SendsQueued(paused, exempt, entries, list + [e], before, q')
  {
    forall p
      ensures if Closed(paused, exempt, p) || !Listed(list + [e], p) then Same(q', before, p)
              else p in q' && q'[p] == ForcedSend(ToSend(p, Lookup(entries, p)))
    {
      ListedMore(list, e, p);
    }
  }

  lemma OneMoreDelete(paused: bool, exempt: set<string>, local: seq<FileInfo>, list: seq<FileInfo>, l: FileInfo,
                      before: map<string, OutTask>, q: map<string, OutTask>, q': map<string, OutTask>)
    requires DeletesQueued(paused, exempt, local, list, before, q) && Lookup(local, l.path) == Some(l)
    requires q' == if Closed(paused, exempt, l.path) then q else q[l.path := ForcedDelete(l.version)]
    ensures DeletesQueued(paused, exempt, local, list + [l], before, q')
  {
    forall p
      ensures if Closed(paused, exempt, p) || !Listed(list + [l], p) then Same(q', before, p)
              else Lookup(local, p).Some? && p in q' && q'[p] == ForcedDelete(Lookup(local, p).value.version)
    {
      ListedMore(list, l, p);
    }
  }

  /** A comparison that has been queued, path by path. */
  lemma DiffQueued(local: seq<FileInfo>, entries: seq<FileInfo>, toSend: seq<FileInfo>, toDelete: seq<FileInfo>,
                   paused: bool, exempt: set<string>, quiet: bool, p: string,
                   before: map<string, OutTask>, between: map<string, OutTask>, after: map<string, OutTask>)
    requires forall l :: l in local ==> Lookup(local, l.path) == Some(l)
    requires forall e :: e in toSend <==>
               exists l :: l in local && !l.deleted && Lacks(Lookup(entries, l.path), l)
                           && e == ToSend(l.path, Lookup(entries, l.path))
    requires forall l :: l in toDelete <==>
               && l in local && l.deleted
               && var peer := Lookup(entries, l.path);
                  peer.Some? && !peer.value.deleted && peer.value.modTime < l.version
    requires SendsQueued(paused, exempt, entries, toSend, before, between)
    requires if quiet then after == between else DeletesQueued(paused, exempt, local, toDelete, between, after)
    ensures QueuedFor(Lookup(local, p), Lookup(entries, p), paused && p !in exempt, quiet, p, before, after)
  {
    var mine, peer := Lookup(local, p), Lookup(entries, p);
    if mine.Some? {
      LookupFinds(local, p);
      var l := mine.value;
      if !l.deleted && Lacks(peer, l) {
        assert ToSend(p, peer) in toSend;
      }
      if l.deleted && peer.Some? && !peer.value.deleted && peer.value.modTime < l.version {
        assert l in toDelete;
      }
    }
    assert Listed(toSend, p) ==> mine.Some? && !mine.value.deleted && Lacks(peer, mine.value);
    assert Listed(toDelete, p) ==> mine.Some? && mine.value in toDelete;
  }

  // ---- what a task leaves on the wire -----------------------------------------------------

  function OrderOf(path: string, task: OutTask): Order
    requires !task.ForcedDelete?
  {
    match task
    case SendPath => Order(path, false, 0, "")
    case ForcedSend(info) => Order(path, true, info.partialBytes, info.partialEtag)
  }

  ghost predicate TaskDone(o: Outset, path: string, task: OutTask, t: Attempt, healthy: bool, before: seq<Frame>,
                           after: seq<Frame>, ok: bool, r: Outcome) {
    if !task.ForcedDelete? then CarriedOut(o, OrderOf(path, task), t, healthy, before, after, r) && ok == (r != Failed)
    else if o.quiet then after == before && ok
    else after == before + (if ok then [Delete(path, task.version)] else []) && (healthy ==> ok)
  }

  ghost predicate Within(part: seq<Frame>, whole: seq<Frame>) {
    exists i: nat :: OccursAt(part, whole, i)
  }

  predicate OccursAt(part: seq<Frame>, whole: seq<Frame>, i: nat) {
    i + |part| <= |whole| && whole[i..i + |part|] == part
  }

  /** The file that is due is on the wire, first frame to last, and so is the delete of one that is not
      there. */
  ghost predicate OnTheWire(o: Outset, path: string, task: OutTask, t: Attempt, sent: seq<Frame>) {
    if task.ForcedDelete? then !o.quiet ==> Delete(path, task.version) in sent
    else if !IsThere(o, path) then !o.quiet ==> Delete(path, t.now) in sent
    else
      var order := OrderOf(path, task);
      IsDue(o, order) && IsReadable(o, order, t) ==> Within(DueFrames(o, order, t), sent)
  }

  lemma LandsNow(o: Outset, path: string, task: OutTask, t: Attempt, before: seq<Frame>, after: seq<Frame>, ok: bool,
                 r: Outcome)
    requires TaskDone(o, path, task, t, true, before, after, ok, r)
    ensures OnTheWire(o, path, task, t, after)
  {
    if !task.ForcedDelete? && IsThere(o, path) {
      var order := OrderOf(path, task);
      if IsDue(o, order) && IsReadable(o, order, t) {
        var out := DueFrames(o, order, t);
        assert after[..|before + out|] == before + out;
        assert OccursAt(out, after, |before|);
      }
    }
  }

  lemma StaysOnTheWire(o: Outset, path: string, task: OutTask, t: Attempt, sent: seq<Frame>, later: seq<Frame>)
    requires OnTheWire(o, path, task, t, sent) && sent <= later
    ensures OnTheWire(o, path, task, t, later)
  {
    if !task.ForcedDelete? && IsThere(o, path) {
      var order := OrderOf(path, task);
      if IsDue(o, order) && IsReadable(o, order, t) {
        WithinStays(DueFrames(o, order, t), sent, later);
      }
    }
  }

  lemma WithinStays(part: seq<Frame>, sent: seq<Frame>, later: seq<Frame>)
    requires Within(part, sent) && sent <= later
    ensures Within(part, later)
  {
    var i: nat :| OccursAt(part, sent, i);
    assert later[..|sent|] == sent;
    assert later[i..i + |part|] == sent[i..i + |part|];
    assert OccursAt(part, later, i);
  }

  /** As far as a path is concerned, nothing has changed that bears on sending it. */
  ghost predicate StandsAsBefore(o: Outset, o': Outset, path: string) {
    && o'.w == o.w && o'.ignored == o.ignored && o'.quiet == o.quiet
    && (path !in o.ignored ==>
          Same(o'.disk, o.disk, path) && Same(o'.index, o.index, path) && Same(o'.suppressed, o.suppressed, path))
  }

  lemma OnTheWireAsBefore(o: Outset, o': Outset, path: string, task: OutTask, t: Attempt, sent: seq<Frame>)
    requires StandsAsBefore(o, o', path) && OnTheWire(o', path, task, t, sent)
    ensures OnTheWire(o, path, task, t, sent)
  {
    if !task.ForcedDelete? && IsThere(o, path) {
      var order := OrderOf(path, task);
      assert o'.disk[path] == o.disk[path];
      assert DueFrames(o, order, t) == DueFrames(o', order, t);
    }
  }

  /** A batch under way: what is not `todo` any more is on the wire, and what is stands as it stood. */
  ghost predicate PartDrained(o: Outset, batch: map<string, OutTask>, todo: set<string>, attempts: string -> Attempt,
                              o': Outset, sent: seq<Frame>) {
    && (forall p :: p in todo ==> StandsAsBefore(o, o', p))
    && (forall p :: p in batch && p !in todo ==> OnTheWire(o, p, batch[p], attempts(p), sent))
  }

  lemma NothingDrained(o: Outset, batch: map<string, OutTask>, attempts: string -> Attempt, sent: seq<Frame>)
    ensures PartDrained(o, batch, batch.Keys, attempts, o, sent)
  {
  }

  /** A forced send does not ask the index. */
  lemma ForcedAsksNoIndex(o: Outset, o': Outset, path: string, info: FileInfo, t: Attempt, sent: seq<Frame>)
    requires o' == o.(index := o'.index) && OnTheWire(o', path, ForcedSend(info), t, sent)
    ensures OnTheWire(o, path, ForcedSend(info), t, sent)
  {
    var order := OrderOf(path, ForcedSend(info));
    if IsThere(o, path) {
      assert IsDue(o', order) <==> IsDue(o, order);
      assert DueFrames(o', order, t) == DueFrames(o, order, t);
    }
  }

  lemma DrainsOne(o: Outset, batch: map<string, OutTask>, todo: set<string>, attempts: string -> Attempt, path: string,
                  o1: Outset, before: seq<Frame>, o2: Outset, after: seq<Frame>, ok: bool, r: Outcome)
    requires PartDrained(o, batch, todo, attempts, o1, before) && path in todo && path in batch && before <= after
    requires TaskDone(o1, path, batch[path], attempts(path), true, before, after, ok, r) && Spares(o1, o2, path)
    ensures PartDrained(o, batch, todo - {path}, attempts, o2, after)
  {
    LandsNow(o1, path, batch[path], attempts(path), before, after, ok, r);
    OnTheWireAsBefore(o, o1, path, batch[path], attempts(path), after);
    forall p | p in batch && p !in todo ensures OnTheWire(o, p, batch[p], attempts(p), after) {
      StaysOnTheWire(o, p, batch[p], attempts(p), before, after);
    }
    forall p | p in todo - {path} ensures StandsAsBefore(o, o2, p) {
      assert StandsAsBefore(o, o1, p);
    }
  }
}
