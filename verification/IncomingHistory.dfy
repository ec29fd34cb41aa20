/** The disk-backed cache of pre-images, the bytes a remote sync is about to overwrite
    (internal/syncd/incoming_history.go). */
module IncomingHistory {
  import opened Wrappers
  import opened Sequences
  import opened ByteSeq

  datatype Entry = Entry(rel: string, sha: string, ts: int, size: int)

  const MAX_BYTES_PER_ENTRY := 5 * 1024 * 1024
  const TOTAL_BUDGET := 100 * 1024 * 1024

  type Index = map<string, Entry>

  // ---- sums -------------------------------------------------------------------------------

  ghost function Total(m: Index): int
    decreases |m|
  {
    if m == map[] then 0 else
      var k :| k in m;
      m[k].size + Total(m - {k})
  }

  lemma {:induction false} TotalWithout(m: Index, k: string)
    requires k in m
    ensures Total(m) == m[k].size + Total(m - {k})
    decreases |m|
  {
    var j :| j in m && Total(m) == m[j].size + Total(m - {j});
    if j != k {
      TotalWithout(m - {j}, k);
      TotalWithout(m - {k}, j);
      assert m - {j} - {k} == m - {k} - {j};
    }
  }

  lemma TotalWith(m: Index, e: Entry)
    ensures Total(m[e.rel := e]) == Total(m) + e.size - if e.rel in m then m[e.rel].size else 0
  {
    TotalWithout(m[e.rel := e], e.rel);
    if e.rel in m {
      TotalWithout(m, e.rel);
      assert m[e.rel := e] - {e.rel} == m - {e.rel};
    } else {
      assert m[e.rel := e] - {e.rel} == m;
    }
  }

  // ---- eviction ---------------------------------------------------------------------------

  /** `kept` is `was` without some of its oldest entries, no more of them than the budget asks for. */
  ghost predicate Evicts(was: Index, kept: Index) {
    && kept.Keys <= was.Keys && (forall k :: k in kept ==> kept[k] == was[k])
    && Total(kept) <= TOTAL_BUDGET
    && (forall e, k :: e in was && e !in kept && k in kept ==> was[e].ts <= was[k].ts)
    && (kept != was ==> 
          exists e :: e in was && e !in kept && Total(kept) + was[e].size > TOTAL_BUDGET && OldestBut(was, kept, e))
  }

  /** `e` is the last of the evicted, no newer than what is kept and no older than what went before. */
  ghost predicate OldestBut(was: Index, kept: Index, e: string)
    requires e in was
  {
    forall d :: d in was && d !in kept ==> was[d].ts <= was[e].ts
  }

  /** A newest entry, if it fits the budget at all and nothing else is as new, is not evicted. */
  lemma NewestSurvives(was: Index, kept: Index, k: string)
    requires Evicts(was, kept) && k in was && was[k].size <= TOTAL_BUDGET
    requires forall j :: j in was && j != k ==> was[j].ts < was[k].ts
    ensures k in kept
  {
    EmptyTotal();
    assert k !in kept ==> kept == map[];
  }

  // ---- runs -------------------------------------------------------------------------------

  datatype State = State(entries: Index, blobs: map<string, Bytes>)

  datatype Event = Accepted(rel: string, content: Bytes, now: int)

  ghost predicate Injective(sha: string -> string) {
    forall a, b :: sha(a) == sha(b) ==> a == b
  }

  function NewEntry(e: Event, sha: string -> string): Entry {
    Entry(e.rel, sha(e.rel), e.now, |e.content|)
  }

  /** What a snapshot that is neither skipped nor failed does. Blobs of evicted entries may stay. */
  ghost predicate Next(s: State, e: Event, sha: string -> string, s': State) {
    var was := s.entries[e.rel := NewEntry(e, sha)];
    && Evicts(was, s'.entries)
    && (forall k :: k in s'.entries ==> Lookup(s', k) == if k == e.rel then Some(e.content) else Lookup(s, k))
  }

  ghost predicate Run(states: seq<State>, events: seq<Event>, sha: string -> string) {
    && |states| == |events| + 1 && states[0] == State(map[], map[])
    && (forall i :: 0 <= i < |events| ==> |events[i].content| <= MAX_BYTES_PER_ENTRY)
    && (forall i :: 0 <= i < |events| ==> Next(states[i], events[i], sha, states[i + 1]))
  }

  /** The last time `rel` was accepted, if ever. */
  function LastAccepted(events: seq<Event>, rel: string): Option<Event> {
    if events == [] then None
    else if events[|events| - 1].rel == rel then Some(events[|events| - 1])
    else LastAccepted(events[..|events| - 1], rel)
  }

  function Lookup(s: State, rel: string): Option<Bytes> {
    if rel in s.entries && s.entries[rel].sha in s.blobs then Some(s.blobs[s.entries[rel].sha]) else None
  }

  lemma StepLookup(s: State, e: Event, sha: string -> string, s': State, rel: string)
    requires Next(s, e, sha, s') && rel in s'.entries
    ensures rel == e.rel ==> s'.entries[rel] == NewEntry(e, sha) && Lookup(s', rel) == Some(e.content)
    ensures rel != e.rel ==> rel in s.entries && s'.entries[rel] == s.entries[rel] && Lookup(s', rel) == Lookup(s, rel)
  {
  }

  /** Every retained path is looked up to the bytes last accepted for it, whatever was evicted,
      replaced or accepted in between. */
  lemma {:induction false} LookupIsLastAccepted(states: seq<State>, events: seq<Event>, sha: string -> string,
                                                rel: string)
    requires Run(states, events, sha) && rel in states[|events|].entries
    ensures var last := LastAccepted(events, rel);
            && last.Some? && states[|events|].entries[rel] == NewEntry(last.value, sha)
            && Lookup(states[|events|], rel) == Some(last.value.content)
    decreases |events|
  {
    if events != [] {
      var n := |events| - 1;
      StepLookup(states[n], events[n], sha, states[n + 1], rel);
      if events[n].rel != rel {
        LookupIsLastAccepted(states[..n + 1], events[..n], sha, rel);
      }
    }
  }

  /** Clock readings go up from one snapshot to the next. */
  predicate Ticking(events: seq<Event>) {
    forall i, j :: 0 <= i < j < |events| ==> events[i].now < events[j].now
  }

  lemma {:induction false} LastAcceptedIsAnEvent(events: seq<Event>, rel: string)
    ensures var last := LastAccepted(events, rel); last.Some? ==> last.value in events && last.value.rel == rel
    decreases |events|
  {
    if events != [] {
      LastAcceptedIsAnEvent(events[..|events| - 1], rel);
    }
  }

  /** What is kept of a path is the record of its last acceptance. */
  ghost predicate Current(s: State, events: seq<Event>, sha: string -> string) {
    forall k :: k in s.entries ==>
      LastAccepted(events, k).Some? && s.entries[k] == NewEntry(LastAccepted(events, k).value, sha)
  }

  predicate NoOlder(ts: int, e: Option<Event>) {
    e.Some? && ts <= e.value.now
  }

  /** Whatever was accepted no earlier than something retained is itself retained. */
  ghost predicate MostRecent(s: State, events: seq<Event>) {
    forall a, b :: a in s.entries && NoOlder(s.entries[a].ts, LastAccepted(events, b)) ==> b in s.entries
  }

  lemma LastAcceptedSnoc(events: seq<Event>, e: Event)
    ensures forall k :: LastAccepted(events + [e], k) == if k == e.rel then Some(e) else LastAccepted(events, k)
  {
    assert (events + [e])[..|events|] == events;
  }

  lemma StepKeepsNewest(s: State, events: seq<Event>, e: Event, sha: string -> string, s': State)
    requires Next(s, e, sha, s') && Current(s, events, sha) && |e.content| <= MAX_BYTES_PER_ENTRY
    requires forall d :: d in events ==> d.now < e.now
    ensures e.rel in s'.entries && Current(s', events + [e], sha)
  {
    LastAcceptedSnoc(events, e);
    var was := s.entries[e.rel := NewEntry(e, sha)];
    forall j | j in was && j != e.rel ensures was[j].ts < e.now {
      LastAcceptedIsAnEvent(events, j);
    }
    NewestSurvives(was, s'.entries, e.rel);
  }

  lemma KeptUnlessOlder(s: State, e: Event, sha: string -> string, s': State, a: string, b: string)
    requires Next(s, e, sha, s') && a in s'.entries && b in s.entries && a != e.rel && b != e.rel && b !in s'.entries
    ensures a in s.entries && s'.entries[a] == s.entries[a] && s.entries[b].ts <= s.entries[a].ts
  {
  }

  lemma SameTimeSamePath(events: seq<Event>, a: string, b: string)
    requires Ticking(events) && LastAccepted(events, a).Some? && LastAccepted(events, b).Some?
    requires LastAccepted(events, a).value.now == LastAccepted(events, b).value.now
    ensures a == b
  {
    LastAcceptedIsAnEvent(events, a);
    LastAcceptedIsAnEvent(events, b);
  }

  lemma StepKeepsMostRecent(s: State, events: seq<Event>, e: Event, sha: string -> string, s': State)
    requires Next(s, e, sha, s') && Current(s, events, sha)
    requires MostRecent(s, events) && |e.content| <= MAX_BYTES_PER_ENTRY
    requires Ticking(events) && forall d :: d in events ==> d.now < e.now
    ensures MostRecent(s', events + [e])
  {
    LastAcceptedSnoc(events, e);
    StepKeepsNewest(s, events, e, sha, s');
    forall a, b | a in s'.entries && b !in s'.entries && LastAccepted(events + [e], b).Some?
      ensures s'.entries[a].ts > LastAccepted(events + [e], b).value.now
    {
      LastAcceptedIsAnEvent(events, b);
      if a != e.rel {
        StepLookup(s, e, sha, s', a);
        if b in s.entries {
          KeptUnlessOlder(s, e, sha, s', a, b);
          if s.entries[a].ts == s.entries[b].ts {
            SameTimeSamePath(events, a, b);
          }
        }
      }
    }
  }

  /** What is retained is always the most recent: whatever was accepted no earlier than a retained
      path is itself retained, so the newest snapshot always is. */
  lemma {:induction false} RetainedAreMostRecent(states: seq<State>, events: seq<Event>, sha: string -> string)
    requires Run(states, events, sha) && Ticking(events)
    ensures Current(states[|events|], events, sha) && MostRecent(states[|events|], events)
    ensures events != [] ==> events[|events| - 1].rel in states[|events|].entries
    decreases |events|
  {
    if events != [] {
      var n := |events| - 1;
      var es := events[..n];
      RetainedAreMostRecent(states[..n + 1], es, sha);
      assert events == es + [events[n]];
      StepKeepsNewest(states[n], es, events[n], sha, states[n + 1]);
      StepKeepsMostRecent(states[n], es, events[n], sha, states[n + 1]);
    }
  }

  // ---- the store --------------------------------------------------------------------------

  datatype WriteOutcome = Written | WriteFailed | RenameFailed

  /** Every entry is filed under its path and has a blob of the size it says. */
  ghost predicate Backed(sha: string -> string, s: State) {
    forall k :: k in s.entries ==> BackedEntry(sha, s, k)
  }

  ghost predicate BackedEntry(sha: string -> string, s: State, k: string)
    requires k in s.entries
  {
    var e := s.entries[k];
    e.rel == k && e.sha == sha(k) && e.sha in s.blobs && |s.blobs[e.sha]| == e.size
  }

  class Store {
    const sha: string -> string
    var entries: Index
    var total: int
    var blobs: map<string, Bytes>

    constructor (sha: string -> string)
      requires Injective(sha)
      ensures Valid() && View() == State(map[], map[]) && this.sha == sha
    {
      this.sha, entries, total, blobs := sha, map[], 0, map[];
    }

    ghost predicate Valid()
      reads this
    {
      Injective(sha) && Backed(sha, View()) && total == Total(entries) <= TOTAL_BUDGET
    }

    function View(): State
      reads this
    {
      State(entries, blobs)
    }

    method Snapshot(rel: string, content: Bytes, now: int, disk: WriteOutcome, stuck: set<string>) returns (ok: bool)
      requires Valid()
      modifies this
      ensures Valid()
      ensures ok <==> |content| > MAX_BYTES_PER_ENTRY || disk.Written?
      ensures if |content| <= MAX_BYTES_PER_ENTRY && disk.Written? then
                Next(old(View()), Accepted(rel, content, now), sha, View())
              else View() == old(View())
      ensures |content| <= MAX_BYTES_PER_ENTRY && disk.Written? ==>
        BlobsGo(old(entries)[rel := Entry(rel, sha(rel), now, |content|)], old(blobs)[sha(rel) := content], stuck,
                View())
    {
      if |content| > MAX_BYTES_PER_ENTRY {
        return true;
      }
      var oldSize := if rel in entries then entries[rel].size else 0;
      if !disk.Written? {
        return false;
      }
      ghost var s := View();
      blobs := blobs[sha(rel) := content];
      var e := Entry(rel, sha(rel), now, |content|);
      TotalWith(entries, e);
      entries := entries[rel := e];
      total := total + |content| - oldSize;
      StoreKeepsBacked(sha, s, Accepted(rel, content, now));
      Evict(stuck);
      return true;
    }

    method Get(rel: string) returns (r: Option<Bytes>)
      requires Valid()
      ensures r == Lookup(View(), rel) && (r.Some? <==> rel in entries)
    {
      if rel !in entries || entries[rel].sha !in blobs {
        return None;
      }
      return Some(blobs[entries[rel].sha]);
    }

    /** Drops the oldest entries until the total is within the budget. The blobs in `stuck` cannot be
        removed. */
    method Evict(stuck: set<string>)
      requires Injective(sha) && Backed(sha, View()) && total == Total(entries)
      modifies this
      ensures Valid() && Evicts(old(entries), entries)
      ensures forall k :: k in entries ==> Lookup(View(), k) == Lookup(old(View()), k)
      ensures BlobsGo(old(entries), old(blobs), stuck, View())
    {
      if total <= TOTAL_BUDGET {
        return;
      }
      var list := SortedByTime(entries);
      DropFirst(list, stuck);
      KeptAreBacked(sha, old(View()), View());
    }

    method DropOne(k: string, stuck: set<string>)
      requires k in entries && total == Total(entries)
      modifies this
      ensures total == Total(entries) == old(total) - old(entries)[k].size && entries == old(entries) - {k}
      ensures blobs == if old(entries)[k].sha in stuck then old(blobs) else old(blobs) - {old(entries)[k].sha}
    {
      TotalWithout(entries, k);
      if entries[k].sha !in stuck {
        blobs := blobs - {entries[k].sha};
      }
      total := total - entries[k].size;
      entries := entries - {k};
    }

    /** Drops entries from the front of the list until the total is within the budget. */
    method DropFirst(list: seq<string>, stuck: set<string>)
      requires Sorted(entries, list) && total == Total(entries)
      modifies this
      ensures Evicts(old(entries), entries) && total == Total(entries)
      ensures BlobsGo(old(entries), old(blobs), stuck, View())
    {
      ghost var was := View();
      var i := 0;
      WithoutNone(entries, list);
      while i < |list| && total > TOTAL_BUDGET
        invariant i <= |list| && entries == Without(was.entries, list[..i]) && total == Total(entries)
        invariant i > 0 ==> total + was.entries[list[i - 1]].size > TOTAL_BUDGET
        invariant BlobsGo(was.entries, was.blobs, stuck, View())
      {
        ghost var s := View();
        WithoutOneMore(was.entries, list, i);
        DropOne(list[i], stuck);
        OneBlobLess(was, s, list[i], stuck, View());
        i := i + 1;
      }
      DroppedEnough(was.entries, list, i, entries);
    }
  }

  /** The blobs of evicted entries go with them, but for those that cannot be removed, and no others. */
  ghost predicate BlobsGo(entries: Index, blobs: map<string, Bytes>, stuck: set<string>, s: State) {
    && (forall x :: x in s.blobs <==> x in blobs && (x in stuck || !Orphaned(entries, s.entries, x)))
    && (forall x :: x in s.blobs ==> s.blobs[x] == blobs[x])
  }

  ghost predicate Orphaned(was: Index, kept: Index, x: string) {
    exists k :: k in was && k !in kept && was[k].sha == x
  }

  lemma OneBlobLess(was: State, s: State, k: string, stuck: set<string>, s': State)
    requires BlobsGo(was.entries, was.blobs, stuck, s)
    requires k in s.entries && k in was.entries && s.entries[k] == was.entries[k]
    requires s.entries.Keys <= was.entries.Keys && s'.entries == s.entries - {k}
    requires s'.blobs == if s.entries[k].sha in stuck then s.blobs else s.blobs - {s.entries[k].sha}
    ensures BlobsGo(was.entries, was.blobs, stuck, s')
  {
    forall x
      ensures Orphaned(was.entries, s'.entries, x) <==> Orphaned(was.entries, s.entries, x) || x == was.entries[k].sha
    {
    }
  }

  lemma KeptAreBacked(sha: string -> string, was: State, s: State)
    requires Injective(sha) && Backed(sha, was) && Evicts(was.entries, s.entries)
    requires exists stuck :: BlobsGo(was.entries, was.blobs, stuck, s)
    ensures Backed(sha, s) && forall k :: k in s.entries ==> Lookup(s, k) == Lookup(was, k)
  {
    forall k | k in s.entries ensures BackedEntry(sha, s, k) && Lookup(s, k) == Lookup(was, k) {
      assert BackedEntry(sha, was, k);
      assert forall j :: j in was.entries && j != k ==> BackedEntry(sha, was, j) && sha(j) != sha(k);
    }
  }

  lemma WithoutNone(m: Index, list: seq<string>)
    ensures Without(m, list[..0]) == m
  {
    assert list[..0] == [];
    assert Without(m, []) == m;
  }

  lemma DroppedEnough(was: Index, list: seq<string>, i: nat, kept: Index)
    requires Sorted(was, list) && i <= |list| && kept == Without(was, list[..i])
    requires i > 0 ==> Total(kept) + was[list[i - 1]].size > TOTAL_BUDGET
    requires i == |list| || Total(kept) <= TOTAL_BUDGET
    ensures Evicts(was, kept)
  {
    if i == |list| {
      WithoutAll(was, list);
      EmptyTotal();
      assert list[..i] == list;
    }
    EvictedArePrefix(was, list, i, kept);
  }

  function Without(m: Index, gone: seq<string>): Index {
    map k | k in m && k !in gone :: m[k]
  }

  lemma WithoutOneMore(m: Index, list: seq<string>, i: nat)
    requires Sorted(m, list) && i < |list|
    ensures list[i] in Without(m, list[..i]) && Without(m, list[..i + 1]) == Without(m, list[..i]) - {list[i]}
    ensures Without(m, list[..i])[list[i]] == m[list[i]]
  {
    assert list[..i + 1] == list[..i] + [list[i]];
  }

  lemma WithoutAll(m: Index, list: seq<string>)
    requires Sorted(m, list)
    ensures Without(m, list) == map[]
  {
  }

  lemma StoreKeepsBacked(sha: string -> string, s: State, e: Event)
    requires Injective(sha) && Backed(sha, s)
    ensures var s' := State(s.entries[e.rel := NewEntry(e, sha)], s.blobs[sha(e.rel) := e.content]);
            && Backed(sha, s')
            && forall k :: k in s'.entries ==>
                 Lookup(s', k) == if k == e.rel then Some(e.content) else Lookup(s, k)
  {
    var s' := State(s.entries[e.rel := NewEntry(e, sha)], s.blobs[sha(e.rel) := e.content]);
    forall k | k in s'.entries
      ensures BackedEntry(sha, s', k)
      ensures Lookup(s', k) == if k == e.rel then Some(e.content) else Lookup(s, k)
    {
      assert k != e.rel ==> BackedEntry(sha, s, k) && sha(k) != sha(e.rel);
    }
  }

  lemma EmptyTotal()
    ensures Total(map[]) == 0
  {
  }

  ghost predicate Ordered(m: Index, list: seq<string>) {
    && (forall i :: 0 <= i < |list| ==> list[i] in m)
    && (forall i, j :: 0 <= i < j < |list| ==> list[i] != list[j] && m[list[i]].ts <= m[list[j]].ts)
  }

  ghost predicate Sorted(m: Index, list: seq<string>) {
    Ordered(m, list) && forall k :: k in m ==> k in list
  }

  /** The paths of the index, oldest first; entries of equal age in any order. */
  method SortedByTime(m: Index) returns (list: seq<string>)
    ensures Sorted(m, list)
  {
    list := [];
    var todo := m.Keys;
    while todo != {}
      invariant todo <= m.Keys && Ordered(m, list)
      invariant forall k :: k in list <==> k in m && k !in todo
      decreases todo
    {
      var k :| k in todo;
      var i := 0;
      while i < |list| && m[list[i]].ts <= m[k].ts
        invariant 0 <= i <= |list|
        invariant forall j :: 0 <= j < i ==> m[list[j]].ts <= m[k].ts
      {
        i := i + 1;
      }
      InsertKeepsOrdered(m, list, k, i);
      list := Inserted(list, k, i);
      todo := todo - {k};
    }
  }

  lemma InsertKeepsOrdered(m: Index, list: seq<string>, k: string, i: nat)
    requires Ordered(m, list) && i <= |list| && k in m && k !in list
    requires forall j :: 0 <= j < i ==> m[list[j]].ts <= m[k].ts
    requires i < |list| ==> m[k].ts < m[list[i]].ts
    ensures Ordered(m, Inserted(list, k, i))
    ensures forall j :: j in Inserted(list, k, i) <==> j in list || j == k
  {
    forall j | i <= j < |list| ensures m[k].ts <= m[list[j]].ts {
      assert i < j ==> m[list[i]].ts <= m[list[j]].ts;
    }
    InsertKeepsOrder(list, k, i, (a, b) => a in m && b in m && a != b && m[a].ts <= m[b].ts);
  }

  lemma EvictedArePrefix(was: Index, list: seq<string>, i: nat, kept: Index)
    requires Sorted(was, list) && i <= |list| && kept == Without(was, list[..i])
    requires Total(kept) <= TOTAL_BUDGET && (i > 0 ==> Total(kept) + was[list[i - 1]].size > TOTAL_BUDGET)
    ensures Evicts(was, kept)
  {
    forall e, k | e in was && e !in kept && k in kept ensures was[e].ts <= was[k].ts {
      var a :| 0 <= a < i && list[a] == e;
      var b :| 0 <= b < |list| && list[b] == k;
      assert b >= i;
    }
    if i > 0 {
      var e := list[i - 1];
      assert e in list[..i] && e !in kept;
      forall d | d in was && d !in kept ensures was[d].ts <= was[e].ts {
        var a :| 0 <= a < i && list[a] == d;
      }
      assert OldestBut(was, kept, e);
    } else {
      assert kept == was;
    }
  }
}
