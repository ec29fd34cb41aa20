/** Whole ticks of the reconciler over the REST client: every put goes through the read, overlay and write
    back of a folder document, so an empty path or type never reaches the server. When such ticks still
    converge, and what happens otherwise. */
module RestTicks {
  import opened SyncthingConfig
  import opened Reconciler
  import opened RestClient

  /** The sidecar's folder documents and options. */
  datatype Sidecar = Sidecar(docs: map<string, Json>, options: ConfigOptions)

  /** The typed reader accepts every document, and what it reads is well formed. */
  ghost predicate Sound(s: Sidecar) {
    forall id :: id in s.docs ==> s.docs[id].JObject? && SoundDoc(s.docs[id].fields, id)
  }

  predicate SoundDoc(raw: Raw, id: string) {
    Decodable(raw) && FolderOf(raw).id == id && ValidFolder(FolderOf(raw))
  }

  function ReadDoc(s: Sidecar, id: string): Folder
    requires id in s.docs && s.docs[id].JObject? && SoundDoc(s.docs[id].fields, id)
  {
    FolderOf(s.docs[id].fields)
  }

  ghost function Reads(s: Sidecar): Config
    requires Sound(s)
  {
    Config(map id | id in s.docs :: ReadDoc(s, id), s.options)
  }

  // ---- one tick ---------------------------------------------------------------------------

  ghost function RepairedDoc(s: Sidecar, d: Want, id: string): Json
    requires Sound(s) && id in s.docs
  {
    var f := ReadDoc(s, id);
    if FolderNeedsRepair(f, d) then JObject(Overlaid(s.docs[id].fields, RepairedFolder(f, d))) else s.docs[id]
  }

  ghost function RepairedDocs(s: Sidecar, d: Want, ids: set<string>): map<string, Json>
    requires Sound(s)
  {
    map id | id in s.docs :: if id in ids then RepairedDoc(s, d, id) else s.docs[id]
  }

  ghost predicate Forwards(s: Sidecar, f: Folder)
    requires Sound(s)
  {
    f.id in s.docs ==> NeedsForward(ReadDoc(s, f.id), f)
  }

  ghost function ForwardedDoc(s: Sidecar, f: Folder): Json
    requires Sound(s)
  {
    if Forwards(s, f) then JObject(Overlaid(Body(s.docs, f.id), f)) else s.docs[f.id]
  }

  ghost function ForwardedDocs(s: Sidecar, d: Want, ids: set<string>): map<string, Json>
    requires Sound(s) && ValidWant(d) && ids <= d.folders.Keys
  {
    map id | id in s.docs.Keys + ids :: if id in ids then ForwardedDoc(s, d.folders[id]) else s.docs[id]
  }

  /** Where a tick that is not blocked and hears no error ends. */
  ghost function RestTick(s: Sidecar, d: Want): Sidecar
    requires Sound(s) && ValidWant(d)
  {
    if RepairNeeded(Reads(s), d) then Sidecar(RepairedDocs(s, d, s.docs.Keys), d.options)
    else s.(docs := ForwardedDocs(s, d, d.folders.Keys))
  }

  /** The documents change by one put after another, in any order. */
  lemma RepairIsAPut(s: Sidecar, d: Want, done: set<string>, id: string)
    requires Sound(s) && id in s.docs && id !in done
    ensures var f := ReadDoc(s, id);
            RepairedDocs(s, d, done + {id}) ==
            if FolderNeedsRepair(f, d) then Stored(RepairedDocs(s, d, done), RepairedFolder(f, d))
            else RepairedDocs(s, d, done)
  {
    var doc := RepairedDoc(s, d, id);
    RepairNarrows(ReadDoc(s, id), d);
    assert RepairedDocs(s, d, done + {id}) == RepairedDocs(s, d, done)[id := doc];
    assert RepairedDocs(s, d, done)[id := s.docs[id]] == RepairedDocs(s, d, done);
    assert Body(RepairedDocs(s, d, done), id) == s.docs[id].fields;
  }

  lemma ForwardIsAPut(s: Sidecar, d: Want, done: set<string>, id: string)
    requires Sound(s) && ValidWant(d) && done <= d.folders.Keys && id in d.folders && id !in done
    ensures var f := d.folders[id];
            ForwardedDocs(s, d, done + {id}) ==
            if Forwards(s, f) then Stored(ForwardedDocs(s, d, done), f) else ForwardedDocs(s, d, done)
  {
    ForwardedOneMore(s, d, done, id);
    var f, before := d.folders[id], ForwardedDocs(s, d, done);
    assert Body(before, id) == Body(s.docs, id);
    if !Forwards(s, f) {
      assert before[id := s.docs[id]] == before;
    }
  }

  lemma ForwardedOneMore(s: Sidecar, d: Want, done: set<string>, id: string)
    requires Sound(s) && ValidWant(d) && done <= d.folders.Keys && id in d.folders && id !in done
    ensures ForwardedDocs(s, d, done + {id}) == ForwardedDocs(s, d, done)[id := ForwardedDoc(s, d.folders[id])]
  {
  }

  // ---- one folder -------------------------------------------------------------------------

  /** What is read after `f` was put over `was`, as far as the reconciler looks. */
  predicate Through(was: Folder, f: Folder, g: Folder) {
    && g.id == f.id && g.paused == f.paused && DeviceIds(g.devices) == DeviceIds(f.devices)
    && g.kind == PutResult(was, f).kind && g.path == PutResult(was, f).path
  }

  lemma SameIds(a: seq<Device>, b: seq<Device>)
    requires |a| == |b| && forall i :: 0 <= i < |a| ==> a[i].deviceID == b[i].deviceID
    ensures DeviceIds(a) == DeviceIds(b) && (DistinctDevices(a) <==> DistinctDevices(b))
  {
    forall d | d in a ensures d.deviceID in DeviceIds(b) {
      var i :| 0 <= i < |a| && a[i] == d;
      assert b[i] in b;
    }
    forall d | d in b ensures d.deviceID in DeviceIds(a) {
      var i :| 0 <= i < |b| && b[i] == d;
      assert a[i] in a;
    }
  }

  lemma PutGoesThrough(raw: Raw, f: Folder)
    requires Decodable(raw) && FolderOf(raw).kind in FOLDER_TYPES && ValidFolder(f)
    ensures SoundDoc(Overlaid(raw, f), f.id) && Through(FolderOf(raw), f, FolderOf(Overlaid(raw, f)))
  {
    PutDecodes(raw, f);
    var g := FolderOf(Overlaid(raw, f));
    SameIds(g.devices, f.devices);
    forall e | e in g.devices ensures e.deviceID != "" {
      assert e.deviceID in DeviceIds(f.devices);
    }
  }

  /** What is desired of the folder can be said through this client: an empty type or path only where
      the server has none. */
  predicate SayableFor(f: Folder, d: Want) {
    f.id in d.folders ==>
      var want := d.folders[f.id];
      (want.kind != "" || f.kind == "") && (want.path != "" || f.path == "")
  }

  ghost predicate Sayable(c: Config, d: Want) {
    forall id :: id in c.folders ==> SayableFor(c.folders[id], d)
  }

  lemma RepairSettlesIffSayable(was: Folder, d: Want, g: Folder)
    requires ValidFolder(was) && ValidWant(d) && FolderNeedsRepair(was, d)
    requires Through(was, RepairedFolder(was, d), g)
    ensures !FolderNeedsRepair(g, d) <==> SayableFor(was, d)
    ensures SayableFor(g, d) <==> SayableFor(was, d)
    ensures g.id == was.id && (was.paused ==> g.paused) && DeviceIds(g.devices) <= DeviceIds(was.devices)
  {
    RepairNarrows(was, d);
    if was.id in d.folders {
      CleanupIsValid(was, d.folders[was.id]);
    }
  }

  lemma RepairedIsValid(f: Folder, d: Want)
    requires ValidFolder(f) && ValidWant(d)
    ensures ValidFolder(RepairedFolder(f, d)) && RepairedFolder(f, d).id == f.id
  {
    if f.id in d.folders {
      CleanupIsValid(f, d.folders[f.id]);
    }
  }

  // ---- all folders ------------------------------------------------------------------------

  lemma RepairTick(s: Sidecar, d: Want)
    requires Sound(s) && ValidWant(d) && RepairNeeded(Reads(s), d)
    ensures var s' := RestTick(s, d);
            && Sound(s') && s'.docs.Keys == s.docs.Keys && s'.options == d.options
            && forall id :: id in s.docs ==>
                 if FolderNeedsRepair(ReadDoc(s, id), d)
                 then Through(ReadDoc(s, id), RepairedFolder(ReadDoc(s, id), d), ReadDoc(s', id))
                 else ReadDoc(s', id) == ReadDoc(s, id)
  {
    forall id | id in s.docs && FolderNeedsRepair(ReadDoc(s, id), d)
      ensures var raw := Overlaid(s.docs[id].fields, RepairedFolder(ReadDoc(s, id), d));
              SoundDoc(raw, id) && Through(ReadDoc(s, id), RepairedFolder(ReadDoc(s, id), d), FolderOf(raw))
    {
      RepairedIsValid(ReadDoc(s, id), d);
      PutGoesThrough(s.docs[id].fields, RepairedFolder(ReadDoc(s, id), d));
    }
  }

  predicate SettlesOne(f: Folder, d: Want, g: Folder) {
    && (!FolderNeedsRepair(g, d) <==> SayableFor(f, d)) && (SayableFor(g, d) <==> SayableFor(f, d))
    && (f.paused ==> g.paused) && DeviceIds(g.devices) <= DeviceIds(f.devices)
  }

  /** What a tick does to what is read. */
  ghost predicate Moves(c: Config, d: Want, c': Config) {
    && Keyed(c')
    && if RepairNeeded(c, d) then
         && c'.folders.Keys == c.folders.Keys && c'.options == d.options
         && forall id :: id in c.folders ==> SettlesOne(c.folders[id], d, c'.folders[id])
       else Converged(c', d)
  }

  lemma RepairTickMoves(s: Sidecar, d: Want)
    requires Sound(s) && ValidWant(d) && RepairNeeded(Reads(s), d)
    ensures Sound(RestTick(s, d)) && Moves(Reads(s), d, Reads(RestTick(s, d)))
  {
    RepairTick(s, d);
    var s' := RestTick(s, d);
    forall id | id in s.docs ensures SettlesOne(ReadDoc(s, id), d, ReadDoc(s', id)) {
      if FolderNeedsRepair(ReadDoc(s, id), d) {
        RepairSettlesIffSayable(ReadDoc(s, id), d, ReadDoc(s', id));
      }
    }
  }

  /** Repairing leaves nothing to repair exactly if all that is desired can be said. */
  lemma SettlesIffSayable(c: Config, d: Want, c': Config)
    requires RepairNeeded(c, d) && Moves(c, d, c')
    ensures !RepairNeeded(c', d) <==> Sayable(c, d)
  {
    if !Sayable(c, d) {
      var id :| id in c.folders && !SayableFor(c.folders[id], d);
      assert SettlesOne(c.folders[id], d, c'.folders[id]) && FolderNeedsRepair(c'.folders[id], d);
    }
    if RepairNeeded(c', d) {
      var id :| id in c'.folders && FolderNeedsRepair(c'.folders[id], d);
      assert SettlesOne(c.folders[id], d, c'.folders[id]) && !SayableFor(c.folders[id], d);
    }
  }

  /** A folder that does not need repair, before and after it was put forward. */
  lemma ForwardOne(s: Sidecar, d: Want, id: string)
    requires Sound(s) && ValidWant(d) && id in d.folders && Forwards(s, d.folders[id])
    requires id in s.docs ==> !FolderNeedsRepair(ReadDoc(s, id), d)
    ensures var raw := Overlaid(Body(s.docs, id), d.folders[id]);
            SoundDoc(raw, id) && Matches(FolderOf(raw), d.folders[id])
  {
    PutGoesThrough(Body(s.docs, id), d.folders[id]);
  }

  /** A tick that finds nothing to repair converges. */
  lemma ForwardTickConverges(s: Sidecar, d: Want)
    requires Sound(s) && ValidWant(d) && !RepairNeeded(Reads(s), d)
    ensures Sound(RestTick(s, d)) && Converged(Reads(RestTick(s, d)), d)
  {
    var s' := RestTick(s, d);
    forall id | id in s.docs ensures !FolderNeedsRepair(ReadDoc(s, id), d) {
      assert Reads(s).folders[id] == ReadDoc(s, id);
    }
    forall id | id in s'.docs
      ensures s'.docs[id].JObject? && SoundDoc(s'.docs[id].fields, id)
      ensures if id in d.folders then Matches(ReadDoc(s', id), d.folders[id]) else ReadDoc(s', id).paused
    {
      if id in d.folders && Forwards(s, d.folders[id]) {
        ForwardOne(s, d, id);
      }
    }
  }

  // ---- many ticks -------------------------------------------------------------------------

  lemma TickMoves(s: Sidecar, d: Want)
    requires Sound(s) && ValidWant(d)
    ensures Sound(RestTick(s, d)) && Moves(Reads(s), d, Reads(RestTick(s, d)))
  {
    if RepairNeeded(Reads(s), d) {
      RepairTickMoves(s, d);
    } else {
      ForwardTickConverges(s, d);
    }
  }

  /** Error-free ticks, one after another, none of them blocked. */
  ghost predicate Ticks(states: seq<Sidecar>, d: Want)
    requires ValidWant(d)
  {
    && states != [] && Sound(states[0])
    && forall i :: 0 < i < |states| ==> TickAt(states, d, i)
  }

  ghost predicate TickAt(states: seq<Sidecar>, d: Want, i: nat)
    requires ValidWant(d) && 0 < i < |states|
  {
    Sound(states[i - 1]) && states[i] == RestTick(states[i - 1], d)
  }

  ghost predicate Walk(configs: seq<Config>, d: Want) {
    && configs != [] && Keyed(configs[0])
    && forall i :: 0 < i < |configs| ==> MovesAt(configs, d, i)
  }

  ghost predicate MovesAt(configs: seq<Config>, d: Want, i: nat)
    requires 0 < i < |configs|
  {
    Moves(configs[i - 1], d, configs[i])
  }

  lemma TicksAreSound(states: seq<Sidecar>, d: Want, i: nat)
    requires ValidWant(d) && Ticks(states, d) && i < |states|
    ensures Sound(states[i])
  {
    if i > 0 {
      assert TickAt(states, d, i);
      TickMoves(states[i - 1], d);
    }
  }

  /** What is read along the way. */
  lemma TicksAreAWalk(states: seq<Sidecar>, d: Want) returns (configs: seq<Config>)
    requires ValidWant(d) && Ticks(states, d)
    ensures Walk(configs, d) && |configs| == |states|
    ensures forall i :: 0 <= i < |states| ==> Sound(states[i]) && configs[i] == Reads(states[i])
  {
    forall i | 0 <= i < |states| ensures Sound(states[i]) {
      TicksAreSound(states, d, i);
    }
    configs := seq(|states|, i requires 0 <= i < |states| => Reads(states[i]));
    forall i | 0 < i < |configs| ensures MovesAt(configs, d, i) {
      assert TickAt(states, d, i);
      TickMoves(states[i - 1], d);
    }
  }

  lemma WalkUpTo(configs: seq<Config>, d: Want, n: nat)
    requires Walk(configs, d) && 0 < n <= |configs|
    ensures Walk(configs[..n], d)
  {
    forall i | 0 < i < n ensures MovesAt(configs[..n], d, i) {
      assert MovesAt(configs, d, i);
    }
  }

  lemma ConvergedOnce(c: Config, d: Want, c': Config)
    requires Keyed(c) && Converged(c, d) && Moves(c, d, c')
    ensures Converged(c', d)
  {
    forall id | id in c.folders ensures !FolderNeedsRepair(c.folders[id], d) {
      if id in d.folders {
        assert Matches(c.folders[id], d.folders[id]);
      }
    }
  }

  lemma {:induction false} ConvergedStays(configs: seq<Config>, d: Want, i: nat)
    requires Walk(configs, d) && i < |configs| && Keyed(configs[i]) && Converged(configs[i], d)
    ensures Converged(configs[|configs| - 1], d)
    decreases |configs| - i
  {
    if i + 1 < |configs| {
      assert MovesAt(configs, d, i + 1);
      ConvergedOnce(configs[i], d, configs[i + 1]);
      ConvergedStays(configs, d, i + 1);
    }
  }

  lemma {:induction false} WalkStarves(configs: seq<Config>, d: Want, id: string)
    requires Walk(configs, d) && id in configs[0].folders && !SayableFor(configs[0].folders[id], d)
    ensures var c := configs[|configs| - 1];
            id in c.folders && c.folders[id].id == id && !SayableFor(c.folders[id], d) && Narrows(configs[0], c)
  {
    var n := |configs| - 1;
    if n > 0 {
      WalkUpTo(configs, d, n);
      WalkStarves(configs[..n], d, id);
      assert MovesAt(configs, d, n);
      StarvesOnce(configs[0], configs[n - 1], d, configs[n], id);
    }
  }

  lemma StarvesOnce(first: Config, c: Config, d: Want, c': Config, id: string)
    requires Moves(c, d, c') && Narrows(first, c)
    requires id in c.folders && c.folders[id].id == id && !SayableFor(c.folders[id], d)
    ensures id in c'.folders && c'.folders[id].id == id && !SayableFor(c'.folders[id], d) && Narrows(first, c')
  {
    assert FolderNeedsRepair(c.folders[id], d);
    assert SettlesOne(c.folders[id], d, c'.folders[id]);
  }

  /** Ticks over the REST client converge if and only if all that is desired can be said, and then two are
      enough. */
  lemma RestTicksConvergeIff(states: seq<Sidecar>, d: Want)
    requires ValidWant(d) && Ticks(states, d) && |states| > 2
    ensures var s := states[|states| - 1];
            Sound(s) && (Converged(Reads(s), d) <==> Sayable(Reads(states[0]), d))
  {
    var configs := TicksAreAWalk(states, d);
    if Sayable(configs[0], d) {
      TwoTicksAreEnough(configs, d);
    } else {
      var id :| id in configs[0].folders && !SayableFor(configs[0].folders[id], d);
      WalkStarves(configs, d, id);
    }
  }

  lemma TwoTicksAreEnough(configs: seq<Config>, d: Want)
    requires Walk(configs, d) && |configs| > 2 && Sayable(configs[0], d)
    ensures Converged(configs[|configs| - 1], d)
  {
    assert MovesAt(configs, d, 1) && MovesAt(configs, d, 2);
    if RepairNeeded(configs[0], d) {
      SettlesIffSayable(configs[0], d, configs[1]);
      ConvergedStays(configs, d, 2);
    } else {
      ConvergedStays(configs, d, 1);
    }
  }

  /** One folder that cannot be brought to what is desired holds up all of them: every tick finds it in
      need of repair, so no tick ever gets to creating, unpausing or sharing any folder. */
  lemma UnsayableStarvesAll(states: seq<Sidecar>, d: Want)
    requires ValidWant(d) && Ticks(states, d) && !Sayable(Reads(states[0]), d)
    ensures var s := states[|states| - 1];
            Sound(s) && RepairNeeded(Reads(s), d) && Narrows(Reads(states[0]), Reads(s))
  {
    var configs := TicksAreAWalk(states, d);
    var id :| id in configs[0].folders && !SayableFor(configs[0].folders[id], d);
    WalkStarves(configs, d, id);
    assert FolderNeedsRepair(configs[|configs| - 1].folders[id], d);
  }
}
