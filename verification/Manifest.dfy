/** The order of a manifest's entries (internal/filesync/manifest.go): sorted by path, so that equal states
    give equal manifests whatever order the maps are walked in. */
module Manifest {
  import opened Wrappers
  import opened Sequences
  import opened FileModel
  import opened Replication
  import opened Rescan

  /** Lexicographic order of paths. */
  predicate Before(a: string, b: string) {
    b != "" && (a == "" || a[0] < b[0] || (a[0] == b[0] && Before(a[1..], b[1..])))
  }

  lemma {:induction false} BeforeIsTotal(a: string, b: string)
    ensures !(Before(a, b) && Before(b, a)) && (Before(a, b) || Before(b, a) || a == b) && !Before(a, a)
    decreases |a|
  {
    if a != "" && b != "" {
      BeforeIsTotal(a[1..], b[1..]);
      assert a == [a[0]] + a[1..] && b == [b[0]] + b[1..];
    }
    if a != "" {
      BeforeIsTotal(a[1..], a[1..]);
    }
  }

  lemma {:induction false} BeforeIsTransitive(a: string, b: string, c: string)
    requires Before(a, b) && Before(b, c)
    ensures Before(a, c)
  {
    if a != "" && a[0] == b[0] == c[0] {
      BeforeIsTransitive(a[1..], b[1..], c[1..]);
    }
  }

  predicate Sorted(paths: seq<string>) {
    forall i, j :: 0 <= i < j < |paths| ==> Before(paths[i], paths[j])
  }

  /** The given paths in order, however they are taken out of the set. */
  method SortedPaths(paths: set<string>) returns (list: seq<string>)
    ensures Sorted(list) && forall p :: p in list <==> p in paths
  {
    list := [];
    var todo := paths;
    while todo != {}
      invariant todo <= paths && Sorted(list) && forall p :: p in list <==> p in paths - todo
      decreases todo
    {
      var p :| p in todo;
      var i := 0;
      while i < |list| && Before(list[i], p)
        invariant i <= |list| && forall j :: 0 <= j < i ==> Before(list[j], p)
      {
        i := i + 1;
      }
      InsertKeepsSorted(list, p, i);
      list := Inserted(list, p, i);
      todo := todo - {p};
    }
  }

  lemma InsertKeepsSorted(list: seq<string>, p: string, i: nat)
    requires Sorted(list) && p !in list && i <= |list| && forall j :: 0 <= j < i ==> Before(list[j], p)
    requires i < |list| ==> !Before(list[i], p)
    ensures Sorted(Inserted(list, p, i))
    ensures forall q :: q in Inserted(list, p, i) <==> q in list || q == p
  {
    forall j | i <= j < |list| ensures Before(p, list[j]) {
      BeforeIsTotal(list[i], p);
      if i < j {
        BeforeIsTransitive(p, list[i], list[j]);
      }
    }
    InsertKeepsOrder(list, p, i, Before);
  }

  predicate SameMembers(a: seq<string>, b: seq<string>) {
    (forall i :: 0 <= i < |a| ==> a[i] in b) && (forall i :: 0 <= i < |b| ==> b[i] in a)
  }

  /** A sorted list is determined by its members. */
  lemma {:induction false} SortedIsUnique(a: seq<string>, b: seq<string>)
    requires Sorted(a) && Sorted(b) && SameMembers(a, b)
    ensures a == b
    decreases |a|
  {
    EmptyTogether(a, b);
    if a != [] {
      SameButLast(a, b);
      SortedIsUnique(a[..|a| - 1], b[..|b| - 1]);
      SameIfSameButLast(a, b);
    }
  }

  lemma SameIfSameButLast(a: seq<string>, b: seq<string>)
    requires a != [] && b != [] && a[..|a| - 1] == b[..|b| - 1] && a[|a| - 1] == b[|b| - 1]
    ensures a == b
  {
    assert a == a[..|a| - 1] + [a[|a| - 1]] && b == b[..|b| - 1] + [b[|b| - 1]];
  }

  lemma EmptyTogether(a: seq<string>, b: seq<string>)
    requires SameMembers(a, b)
    ensures a == [] <==> b == []
  {
    if a != [] {
      assert a[0] in b;
    }
    if b != [] {
      assert b[0] in a;
    }
  }

  lemma SameButLast(a: seq<string>, b: seq<string>)
    requires Sorted(a) && Sorted(b) && SameMembers(a, b) && a != [] && b != []
    ensures a[|a| - 1] == b[|b| - 1] && SameMembers(a[..|a| - 1], b[..|b| - 1])
  {
    LastIsLast(a, b);
    LastIsLast(b, a);
    BeforeIsTotal(a[|a| - 1], b[|b| - 1]);
    forall p
      ensures p in a[..|a| - 1] <==> p in a && p != a[|a| - 1]
      ensures p in b[..|b| - 1] <==> p in b && p != b[|b| - 1]
    {
      ButLast(a, p);
      ButLast(b, p);
    }
  }

  lemma LastIsLast(a: seq<string>, b: seq<string>)
    requires a != [] && b != [] && Sorted(b) && SameMembers(a, b)
    ensures !Before(b[|b| - 1], a[|a| - 1])
  {
    assert a[|a| - 1] in b;
    var j :| 0 <= j < |b| && b[j] == a[|a| - 1];
    BeforeIsTotal(b[j], b[|b| - 1]);
    BeforeIsTotal(b[j], b[j]);
  }

  lemma ButLast(a: seq<string>, p: string)
    requires a != [] && Sorted(a)
    ensures p in a[..|a| - 1] <==> p in a && p != a[|a| - 1]
  {
    var n := |a| - 1;
    assert a == a[..n] + [a[n]];
    if p in a[..n] {
      var j :| 0 <= j < n && a[j] == p;
      BeforeIsTotal(a[j], a[n]);
    }
  }

  // ---- entries ----------------------------------------------------------------------------

  /** The entries of `m` in the order of their paths. */
  ghost predicate Lists(entries: seq<FileInfo>, m: map<string, FileInfo>) {
    exists paths :: EntriesOf(entries, paths, m)
  }

  predicate EntriesOf(entries: seq<FileInfo>, paths: seq<string>, m: map<string, FileInfo>) {
    && Sorted(paths) && |entries| == |paths| && (forall p :: p in m ==> p in paths)
    && (forall i :: 0 <= i < |paths| ==> paths[i] in m && entries[i] == m[paths[i]].(path := paths[i]))
  }

  method EntriesInOrder(m: map<string, FileInfo>) returns (entries: seq<FileInfo>)
    ensures Lists(entries, m)
  {
    var paths := SortedPaths(m.Keys);
    entries := [];
    for i := 0 to |paths|
      invariant |entries| == i
      invariant forall j :: 0 <= j < i ==> paths[j] in m && entries[j] == m[paths[j]].(path := paths[j])
    {
      assert paths[i] in paths;
      entries := entries + [m[paths[i]].(path := paths[i])];
    }
    assert EntriesOf(entries, paths, m);
  }

  lemma ListIsUnique(m: map<string, FileInfo>, a: seq<FileInfo>, b: seq<FileInfo>)
    requires Lists(a, m) && Lists(b, m)
    ensures a == b
  {
    var ps :| EntriesOf(a, ps, m);
    var qs :| EntriesOf(b, qs, m);
    forall p ensures p in ps <==> p in qs {
      assert p in ps ==> p in m;
      assert p in qs ==> p in m;
    }
    SortedIsUnique(ps, qs);
  }

  /** Live files, then the tombstones of paths that are not live, then the resume points of paths that
      are neither; each part sorted by path. */
  ghost predicate IsManifest(entries: seq<FileInfo>, index: map<string, FileInfo>, tombs: map<string, int>,
                             partials: map<string, Partial>) {
    exists live, dead, partial ::
      entries == live + dead + partial && Parts(live, dead, partial, index, tombs, partials)
  }

  function DeadEntries(index: map<string, FileInfo>, tombs: map<string, int>): map<string, FileInfo> {
    map p | p in tombs.Keys - index.Keys :: Tombstone(p, tombs[p])
  }

  function PartialEntries(index: map<string, FileInfo>, tombs: map<string, int>, partials: map<string, Partial>)
    : map<string, FileInfo>
  {
    map p | p in partials.Keys - index.Keys - tombs.Keys :: ResumePoint(p, partials[p])
  }

  ghost predicate Parts(live: seq<FileInfo>, dead: seq<FileInfo>, partial: seq<FileInfo>, index: map<string, FileInfo>,
                        tombs: map<string, int>, partials: map<string, Partial>) {
    && Lists(live, index) && Lists(dead, DeadEntries(index, tombs))
    && Lists(partial, PartialEntries(index, tombs, partials))
  }

  /** Equal states give equal manifests. */
  lemma ManifestIsDetermined(a: seq<FileInfo>, b: seq<FileInfo>, index: map<string, FileInfo>, tombs: map<string, int>,
                             partials: map<string, Partial>)
    requires IsManifest(a, index, tombs, partials) && IsManifest(b, index, tombs, partials)
    ensures a == b
  {
    var l, d, p :| a == l + d + p && Parts(l, d, p, index, tombs, partials);
    var l', d', p' :| b == l' + d' + p' && Parts(l', d', p', index, tombs, partials);
    ListIsUnique(index, l, l');
    ListIsUnique(DeadEntries(index, tombs), d, d');
    ListIsUnique(PartialEntries(index, tombs, partials), p, p');
  }

  // ---- what the reader of a manifest finds ------------------------------------------------

  lemma {:induction false} LookupConcat(a: seq<FileInfo>, b: seq<FileInfo>, path: string)
    ensures Lookup(a + b, path) == if Lookup(b, path).Some? then Lookup(b, path) else Lookup(a, path)
    decreases |b|
  {
    if b == [] {
      assert a + b == a;
    } else {
      var n := |b| - 1;
      LookupConcat(a, b[..n], path);
      assert (a + b)[..|a + b| - 1] == a + b[..n];
    }
  }

  lemma {:induction false} LookupInList(entries: seq<FileInfo>, paths: seq<string>, m: map<string, FileInfo>,
                                        path: string)
    requires |entries| == |paths|
    requires forall i :: 0 <= i < |paths| ==> paths[i] in m && entries[i] == m[paths[i]].(path := paths[i])
    ensures Lookup(entries, path) == if path in paths then Some(m[path].(path := path)) else None
    decreases |paths|
  {
    if paths != [] {
      var n := |paths| - 1;
      LookupInList(entries[..n], paths[..n], m, path);
      assert paths == paths[..n] + [paths[n]];
    }
  }

  /** A path shows as live, else as tombstone, else as resume point, else not at all. */
  lemma ManifestShows(entries: seq<FileInfo>, index: map<string, FileInfo>, tombs: map<string, int>,
                      partials: map<string, Partial>, path: string)
    requires IsManifest(entries, index, tombs, partials)
    ensures Lookup(entries, path) == Shown(index, tombs, partials, path)
  {
    var l, d, p :| entries == l + d + p && Parts(l, d, p, index, tombs, partials);
    LookupConcat(l + d, p, path);
    LookupConcat(l, d, path);
    LookupLists(l, index, path);
    LookupLists(d, DeadEntries(index, tombs), path);
    LookupLists(p, PartialEntries(index, tombs, partials), path);
  }

  lemma LookupLists(entries: seq<FileInfo>, m: map<string, FileInfo>, path: string)
    requires Lists(entries, m)
    ensures Lookup(entries, path) == if path in m then Some(m[path].(path := path)) else None
  {
    var paths :| EntriesOf(entries, paths, m);
    LookupInList(entries, paths, m, path);
  }

  /** No path is listed twice. */
  ghost predicate EachOnce(entries: seq<FileInfo>) {
    forall l :: l in entries ==> Lookup(entries, l.path) == Some(l)
  }

  lemma NothingTwice(entries: seq<FileInfo>, index: map<string, FileInfo>, tombs: map<string, int>,
                     partials: map<string, Partial>)
    requires IsManifest(entries, index, tombs, partials)
    ensures EachOnce(entries)
  {
    var live, dead, partial :| entries == live + dead + partial && Parts(live, dead, partial, index, tombs, partials);
    forall l | l in entries ensures Lookup(entries, l.path) == Some(l) {
      ManifestShows(entries, index, tombs, partials, l.path);
      if l in live {
        ComesFrom(live, index, l);
      } else if l in dead {
        ComesFrom(dead, DeadEntries(index, tombs), l);
      } else {
        ComesFrom(partial, PartialEntries(index, tombs, partials), l);
      }
    }
  }

  lemma ComesFrom(entries: seq<FileInfo>, m: map<string, FileInfo>, l: FileInfo)
    requires Lists(entries, m) && l in entries
    ensures l.path in m && l == m[l.path].(path := l.path)
  {
    var paths :| EntriesOf(entries, paths, m);
    var i :| 0 <= i < |entries| && entries[i] == l;
  }
}
