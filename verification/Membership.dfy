/** Who holds the write token of a folder: generations (internal/syncthing/membership.go) and the
    leases of the sessions that hold them (internal/syncthing/lease.go). Clock readings are
    nanoseconds. */
module Membership {
  import opened Wrappers

  datatype Identity = Identity(
    workspaceID: string, workspaceName: string, clientID: string, clientInstanceID: string,
    clientSyncthingDeviceID: string, folderID: string, membershipGeneration: nat)

  datatype Member = Member(generation: nat, identity: Identity, grantedAt: int)

  /** The member is None in the tombstone of a revoked folder. */
  datatype Entry = Entry(generation: nat, active: bool, member: Option<Member>)

  datatype Verdict = Accepted | UnknownFolder | NoCurrentMembership | StaleMembership

  type Folders = map<string, Entry>

  function Generation(folders: Folders, f: string): nat {
    if f in folders then folders[f].generation else 0
  }

  /** Generations are 64-bit and wrap around. */
  function NextGeneration(g: nat): nat {
    (g + 1) % 0x1_0000_0000_0000_0000
  }

  function Granted(folders: Folders, f: string, who: Identity, now: int): Member {
    var g := NextGeneration(Generation(folders, f));
    Member(g, who.(folderID := f, membershipGeneration := g), now)
  }

  function Allocate(folders: Folders, f: string, who: Identity, now: int): Folders {
    if f == "" then folders
    else var m := Granted(folders, f, who, now); folders[f := Entry(m.generation, true, Some(m))]
  }

  /** The folder is held, at generation `g`. */
  predicate Holds(folders: Folders, f: string, g: nat) {
    f in folders && folders[f].active && folders[f].generation == g
  }

  function RevokeIn(folders: Folders, f: string): Folders {
    if f in folders && folders[f].active then folders[f := Entry(folders[f].generation, false, None)] else folders
  }

  function RevokeIfCurrentIn(folders: Folders, f: string, g: nat): Folders {
    if Holds(folders, f, g) then RevokeIn(folders, f) else folders
  }

  class MembershipStore {
    var folders: Folders

    constructor ()
      ensures folders == map[]
    {
      folders := map[];
    }

    /** A member is there exactly while the entry is active, and it names this folder and generation. */
    predicate Valid()
      reads this
    {
      forall f :: f in folders ==> WellFormed(f, folders[f])
    }

    method AllocateGeneration(f: string, who: Identity, now: int) returns (r: Option<Member>)
      requires Valid()
      modifies this
      ensures Valid() && folders == Allocate(old(folders), f, who, now)
      ensures r == if f == "" then None else Some(Granted(old(folders), f, who, now))
      ensures f == "" ==> folders == old(folders)
      ensures f != "" ==>
        var g := if f in old(folders) then (old(folders)[f].generation + 1) % 0x1_0000_0000_0000_0000 else 1;
        && r == Some(Member(g, who.(folderID := f, membershipGeneration := g), now))
        && folders == old(folders)[f := Entry(g, true, r)]
    {
      if f == "" {
        return None;
      }
      var nextGen := NextGeneration(if f in folders then folders[f].generation else 0);
      var m := Member(nextGen, who.(folderID := f, membershipGeneration := nextGen), now);
      folders := folders[f := Entry(nextGen, true, Some(m))];
      return Some(m);
    }

    method Current(f: string) returns (r: Option<Member>)
      requires Valid()
      ensures r.Some? <==> Holds(folders, f, Generation(folders, f))
      ensures r.Some? ==> r.value.generation == Generation(folders, f) && r.value.identity.folderID == f
    {
      if f !in folders || !folders[f].active {
        return None;
      }
      return folders[f].member;
    }

    method ValidateGeneration(f: string, g: nat) returns (v: Verdict)
      ensures v.Accepted? <==> Holds(folders, f, g)
      ensures v.UnknownFolder? <==> f !in folders
      ensures v.NoCurrentMembership? <==> f in folders && !folders[f].active
      ensures v.Accepted? <==> f in folders && folders[f].active && folders[f].generation == g
    {
      if f !in folders {
        return UnknownFolder;
      }
      if !folders[f].active {
        return NoCurrentMembership;
      }
      if g != folders[f].generation {
        return StaleMembership;
      }
      return Accepted;
    }

    method Revoke(f: string) returns (revoked: bool)
      requires Valid()
      modifies this
      ensures Valid() && folders == RevokeIn(old(folders), f)
      ensures revoked <==> f in old(folders) && old(folders)[f].active
      ensures folders ==
        if revoked then old(folders)[f := Entry(old(folders)[f].generation, false, None)] else old(folders)
    {
      if f !in folders || !folders[f].active {
        return false;
      }
      folders := folders[f := Entry(folders[f].generation, false, None)];
      return true;
    }

    method RevokeIfCurrent(f: string, g: nat) returns (revoked: bool)
      requires Valid()
      modifies this
      ensures Valid() && folders == RevokeIfCurrentIn(old(folders), f, g)
      ensures revoked <==> f in old(folders) && old(folders)[f].active && old(folders)[f].generation == g
      ensures folders == if revoked then old(folders)[f := Entry(g, false, None)] else old(folders)
    {
      if f !in folders || !folders[f].active {
        return false;
      }
      if folders[f].generation != g {
        return false;
      }
      folders := folders[f := Entry(folders[f].generation, false, None)];
      return true;
    }
  }

  predicate WellFormed(f: string, e: Entry) {
    && (e.active <==> e.member.Some?)
    && (e.active ==> e.member.value.generation == e.generation && e.member.value.identity.folderID == f)
    && (e.active ==> e.member.value.identity.membershipGeneration == e.generation)
  }

  // ---- one lease --------------------------------------------------------------------------

  datatype Phase = Active | Grace | Paused

  const DEFAULT_TIMEOUT := 105_000_000_000
  const DEFAULT_GRACE_OFFSET := 45_000_000_000
  const TIMED_OUT := "lease_timeout"

  class Lease {
    const identity: Identity
    const timeout: int
    const graceOffset: int
    var phase: Phase
    var lastAuthorizedAt: int
    /** The reasons the close hook was called with. */
    var fired: seq<string>

    constructor (identity: Identity, timeout: int, graceOffset: int, now: int)
      ensures Valid() && phase == Active && lastAuthorizedAt == now && this.identity == identity
      ensures this.timeout == (if timeout <= 0 then DEFAULT_TIMEOUT else timeout)
      ensures this.graceOffset == if graceOffset <= 0 then DEFAULT_GRACE_OFFSET else graceOffset
    {
      this.identity := identity;
      this.timeout := if timeout <= 0 then DEFAULT_TIMEOUT else timeout;
      this.graceOffset := if graceOffset <= 0 then DEFAULT_GRACE_OFFSET else graceOffset;
      phase, lastAuthorizedAt, fired := Active, now, [];
    }

    /** Seen between calls, the hook was called once if the lease is closed and never before. */
    predicate Valid()
      reads this
    {
      |fired| == if phase.Paused? then 1 else 0
    }

    method Touch(now: int)
      requires Valid()
      modifies this`phase, this`lastAuthorizedAt
      ensures Valid()
      ensures (phase, lastAuthorizedAt) == Touched(old(phase), old(lastAuthorizedAt), now)
      ensures if old(phase).Paused? then phase.Paused? && lastAuthorizedAt == old(lastAuthorizedAt)
              else phase.Active? && lastAuthorizedAt == now
    {
      if phase.Paused? {
        return;
      }
      phase, lastAuthorizedAt := Active, now;
    }

    method MarkStreamError(now: int)
      requires Valid()
      modifies this`phase, this`lastAuthorizedAt
      ensures Valid()
      ensures (phase, lastAuthorizedAt) == StreamErrored(old(phase), old(lastAuthorizedAt), graceOffset, now)
      ensures if old(phase).Paused? then phase.Paused? && lastAuthorizedAt == old(lastAuthorizedAt)
              else phase.Grace? && lastAuthorizedAt == now - graceOffset
    {
      if phase.Paused? {
        return;
      }
      phase, lastAuthorizedAt := Grace, now - graceOffset;
    }

    method ForceClose(reason: string)
      requires Valid()
      modifies this`phase, this`fired
      ensures Valid() && phase.Paused?
      ensures fired == if old(phase).Paused? then old(fired) else [reason]
    {
      if phase.Paused? {
        return;
      }
      phase := Paused;
      if fired == [] {
        fired := [reason];
      }
    }

    /** One tick of the timeout loop; the loop ends when the lease is closed. */
    method CheckTimeout(now: int) returns (done: bool)
      requires Valid()
      modifies this`phase, this`fired
      ensures Valid()
      ensures done <==> phase.Paused?
      ensures phase == if now - lastAuthorizedAt >= timeout then Paused else old(phase)
      ensures fired == if old(phase) == phase then old(fired) else [TIMED_OUT]
    {
      if phase.Paused? {
        return true;
      }
      var exceeded := now - lastAuthorizedAt >= timeout;
      if !exceeded {
        return false;
      }
      ForceClose(TIMED_OUT);
      return true;
    }
  }

  function Touched(phase: Phase, last: int, now: int): (Phase, int) {
    if phase.Paused? then (Paused, last) else (Active, now)
  }

  function StreamErrored(phase: Phase, last: int, graceOffset: int, now: int): (Phase, int) {
    if phase.Paused? then (Paused, last) else (Grace, now - graceOffset)
  }

  predicate Exceeded(phase: Phase, last: int, timeout: int, now: int) {
    !phase.Paused? && now - last >= timeout
  }

  /** A stream error leaves the lease timeout less grace offset to live, whatever came before; so it
      moves the deadline later exactly if the lease went unauthorized for longer than the offset. */
  lemma StreamErrorSetsDeadline(phase: Phase, last: int, graceOffset: int, timeout: int, now: int, check: int)
    requires !phase.Paused?
    ensures var (p, l) := StreamErrored(phase, last, graceOffset, now);
            Exceeded(p, l, timeout, check) <==> check >= now + (timeout - graceOffset)
    ensures var (p, l) := StreamErrored(phase, last, graceOffset, now);
            l > last <==> now - last > graceOffset
  {
  }

  // ---- any number of sessions, interleaved ------------------------------------------------

  /** `closing` holds the reasons of the closes that have paused the lease and have yet to call the
      hook; `expiring` says that a timeout check has seen the lease run out and has yet to close it. */
  datatype LeaseView = LeaseView(
    folder: string, generation: nat, phase: Phase, lastAuthorizedAt: int,
    expiring: bool, closing: seq<string>, fired: seq<string>)

  datatype World = World(folders: Folders, granted: set<(string, nat)>, leases: map<int, LeaseView>)

  /** The critical sections of the store and of the leases. The close hook of a lease revokes the
      membership of its own generation if that is still current. */
  datatype Event =
    | Allocated(folder: string, who: Identity, now: int)
    | Opened(id: int, folder: string, generation: nat, now: int)
    | TouchedLease(id: int, now: int)
    | StreamFailed(id: int, graceOffset: int, now: int)
    | TimeoutSeen(id: int, timeout: int, now: int)
    | CloseBegun(id: int, reason: string)
    | HookRun(id: int)
    | AdminRevoked(folder: string)

  function CloseBegin(l: LeaseView, reason: string): LeaseView {
    if l.phase.Paused? then l.(expiring := l.expiring && reason != TIMED_OUT)
    else l.(phase := Paused, expiring := l.expiring && reason != TIMED_OUT, closing := l.closing + [reason])
  }

  predicate Next(w: World, e: Event, w': World) {
    match e
    case Allocated(f, who, now) =>
      f != "" && w' == w.(folders := Allocate(w.folders, f, who, now),
                          granted := w.granted + {(f, NextGeneration(Generation(w.folders, f)))})
    case Opened(id, f, g, now) =>
      && (f, g) in w.granted && id !in w.leases
      && w' == w.(granted := w.granted - {(f, g)},
                  leases := w.leases[id := LeaseView(f, g, Active, now, false, [], [])])
    case TouchedLease(id, now) =>
      && id in w.leases
      && var l := w.leases[id];
         var (p, t) := Touched(l.phase, l.lastAuthorizedAt, now);
         w' == w.(leases := w.leases[id := l.(phase := p, lastAuthorizedAt := t)])
    case StreamFailed(id, graceOffset, now) =>
      && id in w.leases
      && var l := w.leases[id];
         var (p, t) := StreamErrored(l.phase, l.lastAuthorizedAt, graceOffset, now);
         w' == w.(leases := w.leases[id := l.(phase := p, lastAuthorizedAt := t)])
    case TimeoutSeen(id, timeout, now) =>
      && id in w.leases
      && var l := w.leases[id];
         Exceeded(l.phase, l.lastAuthorizedAt, timeout, now) && w' == w.(leases := w.leases[id := l.(expiring := true)])
    case CloseBegun(id, reason) =>
      && id in w.leases && (reason == TIMED_OUT ==> w.leases[id].expiring)
      && w' == w.(leases := w.leases[id := CloseBegin(w.leases[id], reason)])
    case HookRun(id) =>
      && id in w.leases && w.leases[id].closing != []
      && var l := w.leases[id];
         var waiting := l.(closing := l.closing[1..]);
         w' == if l.fired != [] then w.(leases := w.leases[id := waiting])
               else w.(folders := RevokeIfCurrentIn(w.folders, l.folder, l.generation),
                       leases := w.leases[id := waiting.(fired := [l.closing[0]])])
    case AdminRevoked(f) => w' == w.(folders := RevokeIn(w.folders, f))
  }

  ghost predicate Run(worlds: seq<World>, events: seq<Event>) {
    && |worlds| == |events| + 1 && worlds[0] == World(map[], {}, map[])
    && forall i :: 0 <= i < |events| ==> Next(worlds[i], events[i], worlds[i + 1])
  }

  /** Few enough events that no counter has wrapped around. */
  predicate NoWrap(events: seq<Event>) {
    |events| < 0x1_0000_0000_0000_0000
  }

  // ---- what every step keeps --------------------------------------------------------------

  ghost predicate LeaseInv(w: World, id: int)
    requires id in w.leases
  {
    var l := w.leases[id];
    && l.generation <= Generation(w.folders, l.folder)
    && (l.folder, l.generation) !in w.granted
    && |l.closing| + |l.fired| == (if l.phase.Paused? then 1 else 0)
    && (l.fired != [] ==> !Holds(w.folders, l.folder, l.generation))
  }

  /** `n` events in: no folder is past generation `n`, no two leases share a folder and a generation,
      a lease is paused exactly when one close is under way or its hook was called, and a lease
      whose hook was called holds nothing. */
  ghost predicate Inv(w: World, n: nat) {
    && (forall f :: Generation(w.folders, f) <= n)
    && (forall f, g :: (f, g) in w.granted ==> g <= Generation(w.folders, f))
    && (forall id :: id in w.leases ==> LeaseInv(w, id))
    && (forall i, j :: i in w.leases && j in w.leases && i != j ==>
          (w.leases[i].folder, w.leases[i].generation) != (w.leases[j].folder, w.leases[j].generation))
  }

  lemma NextKeepsInv(w: World, e: Event, w': World, n: nat)
    requires Inv(w, n) && Next(w, e, w') && n + 1 < 0x1_0000_0000_0000_0000
    ensures Inv(w', n + 1)
  {
    match e
    case Allocated(f, who, now) => AllocateKeepsInv(w, e, w', n);
    case Opened(_, _, _, _) => OpenKeepsInv(w, e, w', n);
    case HookRun(id) => HookKeepsInv(w, e, w', n);
    case AdminRevoked(_) => RevokeKeepsInv(w, e, w', n);
    case _ => LeaseStepKeepsInv(w, e, w', n);
  }

  lemma AllocateKeepsInv(w: World, e: Event, w': World, n: nat)
    requires Inv(w, n) && e.Allocated? && Next(w, e, w') && n + 1 < 0x1_0000_0000_0000_0000
    ensures Inv(w', n + 1)
  {
    assert Generation(w.folders, e.folder) <= n;
    assert Generation(w'.folders, e.folder) == Generation(w.folders, e.folder) + 1;
    assert forall f :: f != e.folder ==> Generation(w'.folders, f) == Generation(w.folders, f);
    forall id | id in w'.leases ensures LeaseInv(w', id) {
      assert LeaseInv(w, id);
    }
    forall f, g | (f, g) in w'.granted ensures g <= Generation(w'.folders, f) {
      assert (f, g) in w.granted || (f, g) == (e.folder, Generation(w'.folders, e.folder));
    }
  }

  lemma OpenKeepsInv(w: World, e: Event, w': World, n: nat)
    requires Inv(w, n) && e.Opened? && Next(w, e, w')
    ensures Inv(w', n + 1)
  {
    forall id | id in w'.leases ensures LeaseInv(w', id) {
      assert id in w.leases ==> LeaseInv(w, id);
    }
    forall j | j in w.leases
      ensures (w.leases[j].folder, w.leases[j].generation) != (e.folder, e.generation) {
      assert LeaseInv(w, j);
    }
  }

  lemma HookKeepsInv(w: World, e: Event, w': World, n: nat)
    requires Inv(w, n) && e.HookRun? && Next(w, e, w')
    ensures Inv(w', n + 1)
  {
    assert LeaseInv(w, e.id);
    assert forall f :: Generation(w'.folders, f) == Generation(w.folders, f);
    forall id | id in w'.leases ensures LeaseInv(w', id) {
      assert LeaseInv(w, id);
    }
    forall i, j | i in w'.leases && j in w'.leases && i != j
      ensures (w'.leases[i].folder, w'.leases[i].generation) != (w'.leases[j].folder, w'.leases[j].generation) {
      assert (w.leases[i].folder, w.leases[i].generation) != (w.leases[j].folder, w.leases[j].generation);
    }
  }

  lemma RevokeKeepsInv(w: World, e: Event, w': World, n: nat)
    requires Inv(w, n) && e.AdminRevoked? && Next(w, e, w')
    ensures Inv(w', n + 1)
  {
    assert forall f :: Generation(w'.folders, f) == Generation(w.folders, f);
    forall id | id in w'.leases ensures LeaseInv(w', id) {
      assert LeaseInv(w, id);
    }
  }

  lemma LeaseStepKeepsInv(w: World, e: Event, w': World, n: nat)
    requires Inv(w, n) && Next(w, e, w') && (e.TouchedLease? || e.StreamFailed? || e.TimeoutSeen? || e.CloseBegun?)
    ensures Inv(w', n + 1)
  {
    forall id | id in w'.leases ensures LeaseInv(w', id) {
      assert LeaseInv(w, id);
    }
  }

  lemma {:induction false} RunKeepsInv(worlds: seq<World>, events: seq<Event>)
    requires Run(worlds, events) && NoWrap(events)
    ensures Inv(worlds[|events|], |events|)
    decreases |events|
  {
    if events != [] {
      var n := |events| - 1;
      RunKeepsInv(worlds[..n + 1], events[..n]);
      NextKeepsInv(worlds[n], events[n], worlds[n + 1], n);
    }
  }

  // ---- generations over a run -------------------------------------------------------------

  lemma {:induction false} GenerationsNeverGoBack(worlds: seq<World>, events: seq<Event>, i: nat, f: string)
    requires Run(worlds, events) && NoWrap(events) && i <= |events|
    ensures Generation(worlds[i].folders, f) <= Generation(worlds[|events|].folders, f)
    decreases |events|
  {
    if i < |events| {
      var n := |events| - 1;
      GenerationsNeverGoBack(worlds[..n + 1], events[..n], i, f);
      RunKeepsInv(worlds[..n + 1], events[..n]);
      assert Next(worlds[n], events[n], worlds[n + 1]) && Generation(worlds[n].folders, f) <= n;
    }
  }

  /** Of two allocations for a folder the later one gets the greater generation, whatever was revoked
      in between. */
  lemma AllocationsStrictlyIncrease(worlds: seq<World>, events: seq<Event>, i: nat, j: nat)
    requires Run(worlds, events) && NoWrap(events) && i < j < |events|
    requires events[i].Allocated? && events[j].Allocated? && events[i].folder == events[j].folder
    ensures Generation(worlds[i + 1].folders, events[i].folder) < Generation(worlds[j + 1].folders, events[i].folder)
  {
    var f := events[i].folder;
    GenerationsNeverGoBack(worlds[..j + 1], events[..j], i + 1, f);
    RunKeepsInv(worlds[..j + 1], events[..j]);
    assert Next(worlds[j], events[j], worlds[j + 1]) && Generation(worlds[j].folders, f) <= j;
  }

  /** The event revokes generation `g` of `f`: an administrator revokes the folder, or the hook of
      the lease of that generation is called. */
  ghost predicate Revokes(w: World, e: Event, f: string, g: nat) {
    || (e.AdminRevoked? && e.folder == f)
    || (e.HookRun? && e.id in w.leases && w.leases[e.id].fired == []
        && w.leases[e.id].folder == f && w.leases[e.id].generation == g)
  }

  /** Event `i` allocated generation `g` of `f`, and nothing since allocated or revoked it. */
  ghost predicate LastAllocatedUnrevoked(worlds: seq<World>, events: seq<Event>, f: string, g: nat, i: nat)
    requires |worlds| == |events| + 1
  {
    && i < |events| && events[i].Allocated? && events[i].folder == f && Generation(worlds[i + 1].folders, f) == g
    && forall j :: i < j < |events| ==>
         !(events[j].Allocated? && events[j].folder == f) && !Revokes(worlds[j], events[j], f, g)
  }

  /** A generation is accepted exactly if it is the last one allocated for the folder and nothing
      revoked it since. */
  lemma {:induction false} AcceptedIffLastAllocatedUnrevoked(worlds: seq<World>, events: seq<Event>, f: string, g: nat)
    requires Run(worlds, events)
    ensures Holds(worlds[|events|].folders, f, g) <==> exists i :: LastAllocatedUnrevoked(worlds, events, f, g, i)
    decreases |events|
  {
    if events != [] {
      var n := |events| - 1;
      var ws, es := worlds[..n + 1], events[..n];
      AcceptedIffLastAllocatedUnrevoked(ws, es, f, g);
      StepHolds(worlds[n], events[n], worlds[n + 1], f, g);
      if events[n].Allocated? && events[n].folder == f {
        assert forall i :: LastAllocatedUnrevoked(worlds, events, f, g, i) ==> i == n;
        assert Holds(worlds[n + 1].folders, f, g) ==> LastAllocatedUnrevoked(worlds, events, f, g, n);
      } else {
        forall i: nat ensures LastAllocatedUnrevoked(worlds, events, f, g, i) <==>
            LastAllocatedUnrevoked(ws, es, f, g, i) && !Revokes(worlds[n], events[n], f, g) {
          ExtendUnrevoked(worlds, events, f, g, i);
        }
      }
    }
  }

  lemma StepHolds(w: World, e: Event, w': World, f: string, g: nat)
    requires Next(w, e, w')
    ensures Holds(w'.folders, f, g) <==>
            if e.Allocated? && e.folder == f then g == Generation(w'.folders, f)
            else Holds(w.folders, f, g) && !Revokes(w, e, f, g)
  {
  }

  lemma ExtendUnrevoked(worlds: seq<World>, events: seq<Event>, f: string, g: nat, i: nat)
    requires events != [] && |worlds| == |events| + 1
    requires !(events[|events| - 1].Allocated? && events[|events| - 1].folder == f)
    ensures var n := |events| - 1;
            LastAllocatedUnrevoked(worlds, events, f, g, i) <==>
              (LastAllocatedUnrevoked(worlds[..n + 1], events[..n], f, g, i) && !Revokes(worlds[n], events[n], f, g))
  {
    var n := |events| - 1;
    var ws, es := worlds[..n + 1], events[..n];
    assert i < n ==> ws[i + 1] == worlds[i + 1];
    if LastAllocatedUnrevoked(ws, es, f, g, i) && !Revokes(worlds[n], events[n], f, g) {
      forall j | i < j < |events|
      ensures !(events[j].Allocated? && events[j].folder == f) && !Revokes(worlds[j], events[j], f, g)
    {
        assert j < n ==> es[j] == events[j] && ws[j] == worlds[j];
      }
    }
  }

  // ---- leases over a run ------------------------------------------------------------------

  lemma StepKeepsClosed(w: World, e: Event, w': World, n: nat, id: int)
    requires Inv(w, n) && Next(w, e, w') && id in w.leases
    ensures id in w'.leases && w'.leases[id].folder == w.leases[id].folder
    ensures w'.leases[id].generation == w.leases[id].generation
    ensures w.leases[id].phase.Paused? ==> w'.leases[id].phase.Paused?
    ensures w.leases[id].fired != [] ==> w'.leases[id].fired == w.leases[id].fired
  {
    assert LeaseInv(w, id);
  }

  /** Once paused a lease stays paused, its hook is called at most once, and once it was called the
      generation of that lease is never accepted again. */
  lemma {:induction false} ClosedForGood(worlds: seq<World>, events: seq<Event>, i: nat, id: int)
    requires Run(worlds, events) && NoWrap(events) && i <= |events| && id in worlds[i].leases
    ensures var n := |events|;
            && id in worlds[n].leases
            && (worlds[i].leases[id].phase.Paused? ==> worlds[n].leases[id].phase.Paused?)
            && |worlds[n].leases[id].closing| + |worlds[n].leases[id].fired| ==
                 (if worlds[n].leases[id].phase.Paused? then 1 else 0)
            && (worlds[i].leases[id].fired != [] ==>
                  worlds[n].leases[id].fired == worlds[i].leases[id].fired
                  && !Holds(worlds[n].folders, worlds[i].leases[id].folder, worlds[i].leases[id].generation))
    ensures worlds[|events|].leases[id].folder == worlds[i].leases[id].folder
    ensures worlds[|events|].leases[id].generation == worlds[i].leases[id].generation
    decreases |events|
  {
    RunKeepsInv(worlds, events);
    if i < |events| {
      var n := |events| - 1;
      ClosedForGood(worlds[..n + 1], events[..n], i, id);
      RunKeepsInv(worlds[..n + 1], events[..n]);
      StepKeepsClosed(worlds[n], events[n], worlds[n + 1], n, id);
    }
    assert LeaseInv(worlds[|events|], id);
  }

  /** Whatever closes, the close of one lease never ends what another lease holds. */
  lemma CloseDisturbsNoOtherHolder(worlds: seq<World>, events: seq<Event>, id: int, other: int)
    requires Run(worlds, events) && NoWrap(events) && events != [] && events[|events| - 1] == HookRun(id)
    requires other in worlds[|events| - 1].leases && other != id
    ensures var n := |events| - 1;
            var l := worlds[n].leases[other];
            Holds(worlds[n].folders, l.folder, l.generation) ==> Holds(worlds[n + 1].folders, l.folder, l.generation)
  {
    var n := |events| - 1;
    RunKeepsInv(worlds[..n + 1], events[..n]);
    assert Next(worlds[n], events[n], worlds[n + 1]);
  }

  // ---- touches that come too late ---------------------------------------------------------

  /** The events that set a lease's deadline anew, and the authorization time they set. */
  predicate Reauthorizes(e: Event, id: int) {
    (e.TouchedLease? || e.StreamFailed?) && e.id == id
  }

  function AuthorizedAt(e: Event): int
    requires e.TouchedLease? || e.StreamFailed?
  {
    match e
    case TouchedLease(_, now) => now
    case StreamFailed(_, graceOffset, now) => now - graceOffset
  }

  /** After it the lease would not have been run out at the reading `seen`. */
  predicate Rescues(e: Event, id: int, timeout: int, seen: int) {
    Reauthorizes(e, id) && seen - AuthorizedAt(e) < timeout
  }

  /** Between `i` and `j` the lease was rescued, and nothing set the deadline back before the reading
      again. */
  ghost predicate RescuedBetween(events: seq<Event>, i: nat, j: nat, id: int, timeout: int, seen: int)
    requires j <= |events|
  {
    exists k :: RescueHolds(events, i, j, id, timeout, seen, k)
  }

  ghost predicate RescueHolds(events: seq<Event>, i: nat, j: nat, id: int, timeout: int, seen: int, k: nat)
    requires j <= |events|
  {
    && i < k < j && Rescues(events[k], id, timeout, seen)
    && forall m :: k < m < j && Reauthorizes(events[m], id) ==> Rescues(events[m], id, timeout, seen)
  }

  /** A timeout close hits a lease that is still run out at the reading that led to it exactly if the
      lease was not rescued between the reading and the close; a rescue in between is lost. */
  lemma {:induction false} TimeoutCloseIsDueIff(worlds: seq<World>, events: seq<Event>, i: nat, j: nat, id: int)
    requires Run(worlds, events) && i < j <= |events| && events[i].TimeoutSeen? && events[i].id == id
    requires id in worlds[j].leases && !worlds[j].leases[id].phase.Paused?
    ensures var l, e := worlds[j].leases[id], events[i];
            Exceeded(l.phase, l.lastAuthorizedAt, e.timeout, e.now) <==>
              !RescuedBetween(events, i, j, id, e.timeout, e.now)
    decreases j
  {
    var n := j - 1;
    var e := events[i];
    assert Next(worlds[n], events[n], worlds[j]);
    if i < n {
      assert id in worlds[n].leases && !worlds[n].leases[id].phase.Paused? by {
        LeaseStays(worlds, events, i, n, id);
      }
      TimeoutCloseIsDueIff(worlds, events, i, n, id);
      LaterRescue(events, i, n, id, e.timeout, e.now);
    }
  }

  /** A lease that was there is there for the rest of the run. */
  lemma {:induction false} LeaseStays(worlds: seq<World>, events: seq<Event>, i: nat, j: nat, id: int)
    requires Run(worlds, events) && i <= j <= |events|
    requires (id in worlds[i].leases || (i < j && events[i].TimeoutSeen? && events[i].id == id))
    ensures id in worlds[j].leases
    decreases j
  {
    if i < j {
      assert Next(worlds[i], events[i], worlds[i + 1]);
      if i + 1 < j {
        LeaseStays(worlds, events, i, j - 1, id);
      }
      assert Next(worlds[j - 1], events[j - 1], worlds[j]);
    }
  }

  lemma LaterRescue(events: seq<Event>, i: nat, n: nat, id: int, timeout: int, seen: int)
    requires i < n < |events|
    ensures RescuedBetween(events, i, n + 1, id, timeout, seen) <==>
            if Reauthorizes(events[n], id) then Rescues(events[n], id, timeout, seen)
            else RescuedBetween(events, i, n, id, timeout, seen)
  {
    if Reauthorizes(events[n], id) {
      if Rescues(events[n], id, timeout, seen) {
        assert RescueHolds(events, i, n + 1, id, timeout, seen, n);
      }
    } else {
      if k :| RescueHolds(events, i, n, id, timeout, seen, k) {
        assert RescueHolds(events, i, n + 1, id, timeout, seen, k);
      }
      var j := n + 1;
      if k :| RescueHolds(events, i, j, id, timeout, seen, k) {
        assert RescueHolds(events, i, n, id, timeout, seen, k);
      }
    }
  }

  /** If the clock does not run back and a grace offset is less than the timeout, that is: exactly if
      nothing at all reauthorized the lease in between. */
  lemma TimeoutCloseIsDueIffUntouched(worlds: seq<World>, events: seq<Event>, i: nat, j: nat, id: int)
    requires Run(worlds, events) && i < j <= |events| && events[i].TimeoutSeen? && events[i].id == id
    requires id in worlds[j].leases && !worlds[j].leases[id].phase.Paused? && events[i].timeout > 0
    requires forall k :: i < k < j && Reauthorizes(events[k], id) ==>
               events[k].now >= events[i].now && (events[k].StreamFailed? ==> events[k].graceOffset < events[i].timeout)
    ensures var l, e := worlds[j].leases[id], events[i];
            Exceeded(l.phase, l.lastAuthorizedAt, e.timeout, e.now) <==>
              forall k :: i < k < j ==> !Reauthorizes(events[k], id)
  {
    var e := events[i];
    TimeoutCloseIsDueIff(worlds, events, i, j, id);
    if k :| i < k < j && Reauthorizes(events[k], id) {
      assert RescueHolds(events, i, j, id, e.timeout, e.now, k);
    }
  }

  /** Every timeout close goes back to such a reading. */
  lemma TimeoutCloseWasSeen(worlds: seq<World>, events: seq<Event>, j: nat, id: int) returns (i: nat)
    requires Run(worlds, events) && j < |events| && events[j] == CloseBegun(id, TIMED_OUT)
    ensures i < j && events[i].TimeoutSeen? && events[i].id == id
  {
    assert Next(worlds[j], events[j], worlds[j + 1]);
    i := ExpiringWasSeen(worlds, events, j, id);
  }

  lemma {:induction false} ExpiringWasSeen(worlds: seq<World>, events: seq<Event>, j: nat, id: int) returns (i: nat)
    requires Run(worlds, events) && j <= |events| && id in worlds[j].leases && worlds[j].leases[id].expiring
    ensures i < j && events[i].TimeoutSeen? && events[i].id == id
    decreases j
  {
    var n := j - 1;
    assert Next(worlds[n], events[n], worlds[j]);
    if events[n].TimeoutSeen? && events[n].id == id {
      i := n;
    } else {
      i := ExpiringWasSeen(worlds, events, n, id);
    }
  }

  /** A lease opened at 0 and seen to have run out at 105 seconds is touched at 106 and closed all the
      same. */
  lemma TouchMayComeTooLate(who: Identity) returns (worlds: seq<World>, events: seq<Event>)
    ensures Run(worlds, events) && |events| == 5
    ensures events[2] == TimeoutSeen(1, DEFAULT_TIMEOUT, 105_000_000_000)
    ensures events[3] == TouchedLease(1, 106_000_000_000)
    ensures events[4] == CloseBegun(1, TIMED_OUT)
    ensures worlds[4].leases[1].phase.Active? && worlds[4].leases[1].lastAuthorizedAt == 106_000_000_000
    ensures worlds[5].leases[1].phase.Paused?
  {
    events := [
      Allocated("f", who, 0), Opened(1, "f", 1, 0), TimeoutSeen(1, DEFAULT_TIMEOUT, 105_000_000_000),
      TouchedLease(1, 106_000_000_000), CloseBegun(1, TIMED_OUT)];
    var open := LeaseView("f", 1, Active, 0, false, [], []);
    var seen := open.(expiring := true);
    var touched := seen.(lastAuthorizedAt := 106_000_000_000);
    var folders := Allocate(map[], "f", who, 0);
    worlds := [
      World(map[], {}, map[]), World(folders, {("f", 1)}, map[]), World(folders, {}, map[1 := open]),
      World(folders, {}, map[1 := seen]), World(folders, {}, map[1 := touched]),
      World(folders, {}, map[1 := CloseBegin(touched, TIMED_OUT)])];
    assert Next(worlds[0], events[0], worlds[1]) && Next(worlds[1], events[1], worlds[2]);
    assert Next(worlds[2], events[2], worlds[3]) && Next(worlds[3], events[3], worlds[4]);
    assert Next(worlds[4], events[4], worlds[5]);
  }

  /** After 50 seconds of silence a stream error moves the deadline from 105 seconds to 110. */
  lemma StreamErrorMayHelp()
    ensures Exceeded(Active, 0, DEFAULT_TIMEOUT, 106_000_000_000)
    ensures var (p, l) := StreamErrored(Active, 0, DEFAULT_GRACE_OFFSET, 50_000_000_000);
            !Exceeded(p, l, DEFAULT_TIMEOUT, 106_000_000_000) && Exceeded(p, l, DEFAULT_TIMEOUT, 110_000_000_000)
  {
  }
}
