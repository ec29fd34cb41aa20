/** Rescans (internal/filesync/watch.go): what a scan of the tree makes of the index, and when the fast
    scan, which trusts an entry whose time, size and identity are unmoved, sees what a full one would. */
module Rescan {
  import opened Wrappers
  import opened ByteSeq
  import opened FileModel
  import opened Replication

  datatype Partial = Partial(bytes: nat, etag: string)

  predicate SameFileID(a: string, b: string) {
    a == "" || b == "" || a == b
  }

  predicate CacheHit(cached: FileInfo, f: File) {
    cached.hash != "" && cached.modTime == f.modTime
    && cached.size == |f.content| && SameFileID(cached.fileID, f.fileID)
  }

  /** The fast rescan trusts the digests of an entry whose time, size and identity are unmoved. */
  function ScanEntry(w: World, index: map<string, FileInfo>, path: string, f: File): FileInfo {
    if path in index && CacheHit(index[path], f) then
      var cached := index[path];
      FileInfo(path, |f.content|, f.modTime, f.fileID, cached.hash, cached.normHash, cached.version, false, 0, "")
    else InfoOf(w, path, f)
  }

  /** The version of an entry moves only when its content does. */
  function Merged(index: map<string, FileInfo>, info: FileInfo): FileInfo {
    var kept := info.path in index && SameContent(index[info.path], info);
    info.(version := if kept then index[info.path].version else info.modTime)
  }

  /** The version of an entry stays exactly as long as its content does, line endings of a text file aside. */
  ghost predicate VersionsFollowContent(files: map<string, File>, index: map<string, FileInfo>,
                                        index': map<string, FileInfo>) {
    forall p :: p in files ==>
      && p in index'
      && index'[p].version == if p in index && SameContent(index[p], index'[p]) then index[p].version
                              else files[p].modTime
  }

  lemma RescannedVersions(w: World, files: map<string, File>, rootOK: bool, now: int,
                          index: map<string, FileInfo>, tombs: map<string, int>,
                          index': map<string, FileInfo>, tombs': map<string, int>)
    requires Rescanned(w, files, rootOK, now, index, tombs, index', tombs')
    ensures VersionsFollowContent(files, index, index')
  {
    forall p | p in files
      ensures p in index'
      ensures index'[p].version == if p in index && SameContent(index[p], index'[p]) then index[p].version
                                   else files[p].modTime
    {
      assert ScanEntry(w, index, p, files[p]).path == p && ScanEntry(w, index, p, files[p]).modTime == files[p].modTime;
    }
  }

  /** The indexed paths a rescan that found `files` gives up. An empty result over a root that does not
      answer drops nothing. */
  function Missing(files: map<string, File>, rootOK: bool, index: map<string, FileInfo>): set<string> {
    if files != map[] || rootOK then index.Keys - files.Keys else {}
  }

  ghost predicate IndexRescanned(w: World, files: map<string, File>, rootOK: bool,
                                 index: map<string, FileInfo>, index': map<string, FileInfo>) {
    && index'.Keys == index.Keys + files.Keys - Missing(files, rootOK, index)
    && (forall p :: p in index' ==>
          index'[p] == if p in files then Merged(index, ScanEntry(w, index, p, files[p])) else index[p])
  }

  /** What a rescan makes of the index and the tombstones. */
  ghost predicate Rescanned(w: World, files: map<string, File>, rootOK: bool, now: int,
                            index: map<string, FileInfo>, tombs: map<string, int>,
                            index': map<string, FileInfo>, tombs': map<string, int>) {
    var gone := Missing(files, rootOK, index);
    && IndexRescanned(w, files, rootOK, index, index')
    && tombs'.Keys == tombs.Keys + gone
    && (forall p :: p in tombs' ==> tombs'[p] == if p in gone then now else tombs[p])
  }

  // ---- one operation on the index ---------------------------------------------------------

  /** What the engine's operations do to the disk and the index. */
  datatype Move =
    | Scan(files: map<string, File>, rootOK: bool)
    | Record(path: string, version: int)
    | Install(path: string, file: File, fed: Bytes, version: int)
    | Lose(fromDisk: set<string>, fromIndex: set<string>)
    | Mark(path: string)
    | Edit(disk: map<string, File>)

  /** The files of `files` are on `disk` as they are. */
  ghost predicate PartOf(files: map<string, File>, disk: map<string, File>) {
    forall p :: p in files ==> p in disk && disk[p] == files[p]
  }

  ghost predicate Moved(w: World, disk: map<string, File>, index: map<string, FileInfo>, m: Move,
                        disk': map<string, File>, index': map<string, FileInfo>) {
    match m
    case Scan(files, rootOK) =>
      disk' == disk && PartOf(files, disk) && IndexRescanned(w, files, rootOK, index, index')
    case Record(p, version) =>
      disk' == disk && p in disk && index' == index[p := InfoOf(w, p, disk[p]).(version := version)]
    case Install(p, f, fed, version) =>
      && disk' == disk[p := f]
      && index' == index[p := InfoOf(w, p, f).(size := |fed|, hash := w.sha(fed), version := version)]
    case Lose(fromDisk, fromIndex) => disk' == disk - fromDisk && index' == index - fromIndex
    case Mark(p) => disk' == disk && p in index && index' == index[p := index[p].(hash := "", normHash := "")]
    case Edit(edited) => disk' == edited && index' == index
  }

  // ---- what the entries describe ----------------------------------------------------------

  /** Beside the disk and the index, the file that was last recorded for each path. */
  datatype Book = Book(disk: map<string, File>, index: map<string, FileInfo>, recorded: map<string, File>)

  /** A cache hit confirms the recorded file and takes over the identity; any other scanned, sent or
      installed file is recorded anew. */
  function Noted(b: Book, m: Move): map<string, File> {
    match m
    case Scan(files, _) => map p | p in b.recorded.Keys + files.Keys :: ScanNoted(b, files, p)
    case Record(p, _) => if p in b.disk then b.recorded[p := b.disk[p]] else b.recorded
    case Install(p, f, _, _) => b.recorded[p := f]
    case _ => b.recorded
  }

  function ScanNoted(b: Book, files: map<string, File>, p: string): File
    requires p in b.recorded.Keys + files.Keys
  {
    if p !in files then b.recorded[p]
    else if p in b.recorded && p in b.index && CacheHit(b.index[p], files[p]) then
      b.recorded[p].(fileID := files[p].fileID)
    else files[p]
  }

  /** An install with no stale bytes beyond the verified ones. */
  predicate Clean(m: Move) {
    m.Install? ==> m.fed == m.file.content
  }

  ghost predicate Next(w: World, b: Book, m: Move, b': Book) {
    Moved(w, b.disk, b.index, m, b'.disk, b'.index) && b'.recorded == Noted(b, m)
  }

  ghost predicate Described(w: World, b: Book, p: string)
    requires p in b.index
  {
    p in b.recorded && b.index[p] == InfoOf(w, p, b.recorded[p]).(version := b.index[p].version)
  }

  /** Every entry with a digest describes, version apart, the file recorded for its path. */
  ghost predicate AllDescribed(w: World, b: Book) {
    forall p :: p in b.index && b.index[p].hash != "" ==> Described(w, b, p)
  }

  lemma StepKeepsDescribed(w: World, b: Book, m: Move, b': Book)
    requires AllDescribed(w, b) && Next(w, b, m, b') && Clean(m)
    ensures AllDescribed(w, b')
  {
    forall p | p in b'.index && b'.index[p].hash != "" ensures Described(w, b', p) {
      assert p in b.index && b.index[p].hash != "" ==> Described(w, b, p);
      if m.Scan? {
        ScanDescribes(w, b, m, b', p);
      }
    }
  }

  lemma ScanDescribes(w: World, b: Book, m: Move, b': Book, p: string)
    requires m.Scan? && Next(w, b, m, b') && p in b'.index && b'.index[p].hash != ""
    requires p in b.index && b.index[p].hash != "" ==> Described(w, b, p)
    ensures Described(w, b', p)
  {
    if p in m.files {
      assert b'.recorded[p] == ScanNoted(b, m.files, p);
      assert b'.index[p] == Merged(b.index, ScanEntry(w, b.index, p, m.files[p]));
    } else {
      assert b'.index[p] == b.index[p] && b'.recorded[p] == ScanNoted(b, m.files, p);
    }
  }

  // ---- exactness of the fast scan ---------------------------------------------------------

  predicate SameStamp(f: File, g: File) {
    && f.modTime == g.modTime && |f.content| == |g.content|
    && (f.fileID == g.fileID || f.fileID == "" || g.fileID == "")
  }

  /** The file now on disk has the time, size and identity of the recorded one, but other bytes. */
  predicate Rewritten(b: Book, p: string) {
    && p in b.disk && p in b.index && b.index[p].hash != "" && p in b.recorded
    && SameStamp(b.recorded[p], b.disk[p]) && b.recorded[p].content != b.disk[p].content
  }

  ghost predicate ScanIsExact(w: World, b: Book) {
    forall p :: p in b.disk ==> ScanEntry(w, b.index, p, b.disk[p]).(version := 0) == InfoOf(w, p, b.disk[p])
  }

  /** The fast scan reports what a full one would, version apart, exactly if no file was rewritten
      since it was recorded without its time, size or identity showing it. */
  lemma FastScanIsExactIffNothingRewritten(w: World, b: Book)
    requires Injective(w) && AllDescribed(w, b)
    ensures ScanIsExact(w, b) <==> forall p :: !Rewritten(b, p)
  {
    forall p | p in b.disk
      ensures ScanEntry(w, b.index, p, b.disk[p]).(version := 0) == InfoOf(w, p, b.disk[p]) <==> !Rewritten(b, p)
    {
      assert p in b.index && b.index[p].hash != "" ==> Described(w, b, p);
      if Rewritten(b, p) {
        assert w.sha(b.recorded[p].content) != w.sha(b.disk[p].content);
      }
    }
  }

  // ---- over runs --------------------------------------------------------------------------

  ghost predicate Run(w: World, books: seq<Book>, moves: seq<Move>) {
    && |books| == |moves| + 1 && AllDescribed(w, books[0])
    && (forall i :: 0 <= i < |moves| ==> Clean(moves[i]) && Next(w, books[i], moves[i], books[i + 1]))
  }

  lemma {:induction false} RunKeepsDescribed(w: World, books: seq<Book>, moves: seq<Move>)
    requires Run(w, books, moves)
    ensures AllDescribed(w, books[|moves|])
    decreases |moves|
  {
    if moves != [] {
      var n := |moves| - 1;
      RunKeepsDescribed(w, books[..n + 1], moves[..n]);
      StepKeepsDescribed(w, books[n], moves[n], books[n + 1]);
    }
  }

  /** `f` was at `p` on disk in some state of the run, or was recorded there when it began. */
  ghost predicate Held(books: seq<Book>, p: string, f: File)
    requires books != []
  {
    || (p in books[0].recorded && books[0].recorded[p] == f)
    || (exists i :: 0 <= i < |books| && OnDisk(books[i], p, f))
  }

  predicate OnDisk(b: Book, p: string, f: File) {
    p in b.disk && b.disk[p] == f
  }

  /** No two files that a path ever held share time, size and identity, unless their bytes are equal.
      That the time moves from each edit to the next would not do: it could move back. */
  ghost predicate StampsAreTelling(books: seq<Book>)
    requires books != []
  {
    forall p, f, g :: Held(books, p, f) && Held(books, p, g) && SameStamp(f, g) ==> f.content == g.content
  }

  lemma HeldInPrefix(books: seq<Book>, n: nat, p: string, f: File)
    requires 0 < n <= |books| && Held(books[..n], p, f)
    ensures Held(books, p, f)
  {
    if !(p in books[0].recorded && books[0].recorded[p] == f) {
      var i :| 0 <= i < n && OnDisk(books[..n][i], p, f);
      assert OnDisk(books[i], p, f);
    }
  }

  lemma {:induction false} RecordedWasHeld(w: World, books: seq<Book>, moves: seq<Move>, p: string)
    requires Run(w, books, moves) && StampsAreTelling(books) && p in books[|moves|].recorded
    ensures Held(books, p, books[|moves|].recorded[p])
    decreases |moves|
  {
    if moves != [] {
      var n := |moves| - 1;
      var before := books[..n + 1];
      TellingInPrefix(books, n + 1);
      var b, b' := books[n], books[n + 1];
      assert Next(w, b, moves[n], b');
      if p in b.recorded {
        RecordedWasHeld(w, before, moves[..n], p);
        HeldInPrefix(books, n + 1, p, b.recorded[p]);
      }
      RunKeepsDescribed(w, before, moves[..n]);
      NotedWasHeld(w, books, b, moves[n], b', p);
    }
  }

  lemma TellingInPrefix(books: seq<Book>, n: nat)
    requires 0 < n <= |books| && StampsAreTelling(books)
    ensures StampsAreTelling(books[..n])
  {
    forall p, f, g | Held(books[..n], p, f) && Held(books[..n], p, g) && SameStamp(f, g)
      ensures f.content == g.content
    {
      HeldInPrefix(books, n, p, f);
      HeldInPrefix(books, n, p, g);
    }
  }

  lemma NotedWasHeld(w: World, books: seq<Book>, b: Book, m: Move, b': Book, p: string)
    requires |books| >= 2 && b == books[|books| - 2] && b' == books[|books| - 1]
    requires StampsAreTelling(books) && AllDescribed(w, b) && Next(w, b, m, b') && p in b'.recorded
    requires p in b.recorded ==> Held(books, p, b.recorded[p])
    ensures Held(books, p, b'.recorded[p])
  {
    assert p in b.disk ==> OnDisk(b, p, b.disk[p]) && Held(books, p, b.disk[p]);
    assert p in b'.disk ==> OnDisk(b', p, b'.disk[p]) && Held(books, p, b'.disk[p]);
    if m.Scan? && p in m.files {
      assert b'.recorded[p] == ScanNoted(b, m.files, p) && m.files[p] == b.disk[p];
      if p in b.recorded && p in b.index && CacheHit(b.index[p], b.disk[p]) {
        assert Described(w, b, p);
        assert SameStamp(b.recorded[p], b.disk[p]);
        assert b'.recorded[p] == b.disk[p];
      }
    }
  }

  /** As long as the stamps are telling, every fast scan of every run is exact. */
  lemma ScansStayExact(w: World, books: seq<Book>, moves: seq<Move>)
    requires Injective(w) && Run(w, books, moves) && StampsAreTelling(books)
    ensures ScanIsExact(w, books[|moves|]) && forall p :: !Rewritten(books[|moves|], p)
  {
    var b := books[|moves|];
    forall p ensures !Rewritten(b, p) {
      if Rewritten(b, p) {
        RecordedWasHeld(w, books, moves, p);
        assert OnDisk(books[|moves|], p, b.disk[p]);
      }
    }
    RunKeepsDescribed(w, books, moves);
    FastScanIsExactIffNothingRewritten(w, b);
  }

  // ---- edits that the scan misses ---------------------------------------------------------

  /** The scan that first sees a file, an edit that keeps its time, size and identity, and the next
      scan is wrong. */
  lemma RewriteBehindTheStampIsMissed(w: World, p: string, id: string) returns (books: seq<Book>, moves: seq<Move>)
    requires Injective(w) && NeverEmpty(w)
    ensures Run(w, books, moves) && |moves| == 3
    ensures moves[1] == Edit(map[p := File([1], 5, id)]) && books[1].disk == map[p := File([0], 5, id)]
    ensures !ScanIsExact(w, books[3])
  {
    var f, g := File([0], 5, id), File([1], 5, id);
    books, moves := EditedTwice(w, p, f, g, g);
    assert Rewritten(books[3], p);
    RunKeepsDescribed(w, books, moves);
    FastScanIsExactIffNothingRewritten(w, books[3]);
  }

  /** Two edits of which each moves the time, the second one back: missed all the same. */
  lemma MovingTheTimeBackIsMissed(w: World, p: string, id: string) returns (books: seq<Book>, moves: seq<Move>)
    requires Injective(w) && NeverEmpty(w)
    ensures Run(w, books, moves) && |moves| == 3
    ensures books[1].disk == map[p := File([0], 5, id)]
    ensures moves[1] == Edit(map[p := File([1], 6, id)]) && moves[2] == Edit(map[p := File([2], 5, id)])
    ensures !ScanIsExact(w, books[3])
  {
    books, moves := EditedTwice(w, p, File([0], 5, id), File([1], 6, id), File([2], 5, id));
    assert Rewritten(books[3], p);
    RunKeepsDescribed(w, books, moves);
    FastScanIsExactIffNothingRewritten(w, books[3]);
  }

  /** A first scan and two edits. */
  lemma EditedTwice(w: World, p: string, f: File, g: File, h: File) returns (books: seq<Book>, moves: seq<Move>)
    requires NeverEmpty(w)
    ensures Run(w, books, moves) && |moves| == 3 && books[1].disk == map[p := f]
    ensures moves[1] == Edit(map[p := g]) && moves[2] == Edit(map[p := h])
    ensures var b := books[3];
            b.disk == map[p := h] && b.recorded == map[p := f] && p in b.index && b.index[p].hash != ""
  {
    var disk := map[p := f];
    var info := InfoOf(w, p, f).(version := f.modTime);
    assert info.hash != "";
    var b0 := Book(disk, map[], map[]);
    var b1 := Book(disk, map[p := info], disk);
    var b2, b3 := b1.(disk := map[p := g]), b1.(disk := map[p := h]);
    moves := [Scan(disk, true), Edit(map[p := g]), Edit(map[p := h])];
    books := [b0, b1, b2, b3];
    assert Noted(b0, moves[0]) == disk;
    assert Next(w, b0, moves[0], b1) && Next(w, b1, moves[1], b2) && Next(w, b2, moves[2], b3);
  }

  // ---- the manifest -----------------------------------------------------------------------

  /** The manifest's entry for a path. */
  function Shown(index: map<string, FileInfo>, tombs: map<string, int>, partials: map<string, Partial>, p: string)
    : Option<FileInfo>
  {
    if p in index then Some(index[p].(path := p))
    else if p in tombs then Some(Tombstone(p, tombs[p]))
    else if p in partials then Some(ResumePoint(p, partials[p]))
    else None
  }

  function Tombstone(path: string, version: int): FileInfo {
    FileInfo(path, 0, 0, "", "", "", version, true, 0, "")
  }

  function ResumePoint(path: string, p: Partial): FileInfo {
    FileInfo(path, 0, 0, "", "", "", 0, false, p.bytes, p.etag)
  }

  /** Two entries that a comparison cannot tell apart: a live entry's version is never looked at. */
  predicate SameEntry(a: Option<FileInfo>, b: Option<FileInfo>) {
    if a.None? || b.None? then a == b
    else if b.value.deleted then a == b
    else a.value.(version := 0) == b.value.(version := 0)
  }

  /** So what an engine sends, given two manifests, is what the exchange model says it sends. */
  lemma SameEntriesSameDecision(mine: Option<FileInfo>, mine': Option<FileInfo>,
                                theirs: Option<FileInfo>, theirs': Option<FileInfo>)
    requires SameEntry(mine, mine') && SameEntry(theirs, theirs') && mine.Some?
    ensures Decide(mine.value, theirs) == Decide(mine'.value, theirs')
  {
    assert mine.value.deleted == mine'.value.deleted;
    assert theirs.Some? ==> theirs.value.deleted == theirs'.value.deleted;
    assert theirs.Some? ==> theirs.value.modTime == theirs'.value.modTime;
  }

  /** What a manifest shows of a path that is neither live nor dead: where a partial file left off. */
  function Seen(w: World, path: string, s: Spot, partials: map<string, Partial>): Option<FileInfo> {
    if s.Gone? && path in partials then Some(ResumePoint(path, partials[path])) else EntryOf(w, path, s)
  }

  /** At any point of any run, the manifest built by a rescan that reaches the tree shows, path by path,
      exactly the replica the exchange theorems speak of, without the files that are hidden from it, and
      the resume points beside. */
  lemma ManifestShowsReplica(w: World, books: seq<Book>, moves: seq<Move>, hidden: set<string>, rootOK: bool, now: int,
                             tombs: map<string, int>, index': map<string, FileInfo>, tombs': map<string, int>,
                             partials: map<string, Partial>, p: string)
    requires Injective(w) && Run(w, books, moves) && StampsAreTelling(books)
    requires books[|moves|].disk - hidden != map[] || rootOK
    requires Rescanned(w, books[|moves|].disk - hidden, rootOK, now, books[|moves|].index, tombs, index', tombs')
    ensures var replica := Replica(books[|moves|].disk - hidden, tombs');
            SameEntry(Shown(index', tombs', partials, p), Seen(w, p, At(replica, p), partials))
  {
    ScansStayExact(w, books, moves);
    var b := books[|moves|];
    RescanShows(w, b.disk - hidden, rootOK, now, b.index, tombs, index', tombs', partials, p);
  }

  lemma RescanShows(w: World, files: map<string, File>, rootOK: bool, now: int, index: map<string, FileInfo>,
                    tombs: map<string, int>, index': map<string, FileInfo>, tombs': map<string, int>,
                    partials: map<string, Partial>, p: string)
    requires Rescanned(w, files, rootOK, now, index, tombs, index', tombs') && (files != map[] || rootOK)
    requires p in files ==> ScanEntry(w, index, p, files[p]).(version := 0) == InfoOf(w, p, files[p])
    ensures SameEntry(Shown(index', tombs', partials, p), Seen(w, p, At(Replica(files, tombs'), p), partials))
  {
  }
}
