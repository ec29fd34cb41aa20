/** The fail-closed reconciler (internal/syncthing/reconciler.go).
    What a tick may do is stated folder by folder, without reference to the order of its passes;
    the methods below are proved against that, and the theorems are about runs of it. */
module Reconciler {
  import opened Wrappers
  import opened SyncthingConfig

  // The desired state as the controller stores it, and as a tick reads it.
  datatype Desired = Desired(folders: seq<Folder>, options: ConfigOptions)
  datatype Want = Want(folders: map<string, Folder>, options: ConfigOptions)

  /** Folders by identifier; of two entries with one identifier the later wins. */
  function ById(folders: seq<Folder>): (m: map<string, Folder>)
    ensures forall id :: id in m ==> m[id].id == id
  {
    if folders == [] then map[]
    else
      var last := folders[|folders| - 1];
      ById(folders[..|folders| - 1])[last.id := last]
  }

  predicate DistinctIds(folders: seq<Folder>) {
    && (forall i :: 0 <= i < |folders| ==> folders[i].id != "")
    && forall i, j :: 0 <= i < j < |folders| ==> folders[i].id != folders[j].id
  }

  lemma {:induction false} ByIdKeys(folders: seq<Folder>)
    ensures ById(folders).Keys == Ids(folders)
  {
    if folders != [] {
      var n := |folders| - 1;
      ByIdKeys(folders[..n]);
      assert folders == folders[..n] + [folders[n]];
    }
  }

  ghost predicate ValidWant(d: Want) {
    forall id :: id in d.folders ==> d.folders[id].id == id && ValidFolder(d.folders[id])
  }

  lemma {:induction false} ByIdIsLookup(folders: seq<Folder>, i: nat)
    requires i < |folders| && DistinctIds(folders)
    ensures folders[i].id in ById(folders) && ById(folders)[folders[i].id] == folders[i]
  {
    if i < |folders| - 1 {
      ByIdIsLookup(folders[..|folders| - 1], i);
    }
  }

  // ---- one folder -------------------------------------------------------------------------

  /** Devices of `a` that `b` also names, in the order of `a`. */
  function IntersectDevices(a: seq<Device>, b: seq<Device>): (r: seq<Device>)
    ensures DeviceIds(r) == DeviceIds(a) * DeviceIds(b)
    ensures forall d :: d in r ==> d in a
    ensures DistinctDevices(a) ==> DistinctDevices(r)
    ensures DeviceIds(a) <= DeviceIds(b) ==> r == a
  {
    if a == [] then []
    else
      var rest := IntersectDevices(a[1..], b);
      DeviceIdsOfFirst(a);
      if a[0].deviceID in DeviceIds(b) then
        DeviceIdsOfCons(a[0], rest);
        [a[0]] + rest
      else rest
  }

  lemma DeviceIdsOfCons(d: Device, rest: seq<Device>)
    ensures DeviceIds([d] + rest) == {d.deviceID} + DeviceIds(rest)
    ensures forall e :: e in [d] + rest <==> e == d || e in rest
    ensures DistinctDevices([d] + rest) <==> DistinctDevices(rest) && d.deviceID !in DeviceIds(rest)
  {
    var all := [d] + rest;
    assert all[0] == d && forall i :: 0 < i < |all| ==> all[i] == rest[i - 1];
    if DistinctDevices(all) {
      forall i, j | 0 <= i < j < |rest| ensures rest[i].deviceID != rest[j].deviceID {
        assert all[i + 1].deviceID != all[j + 1].deviceID;
      }
      forall e | e in rest ensures e.deviceID != d.deviceID {
        var i :| 0 <= i < |rest| && rest[i] == e;
        assert all[0].deviceID != all[i + 1].deviceID;
      }
    }
  }

  lemma DeviceIdsOfFirst(a: seq<Device>)
    requires a != []
    ensures DeviceIds(a) == {a[0].deviceID} + DeviceIds(a[1..])
    ensures forall e :: e in a <==> e == a[0] || e in a[1..]
    ensures DistinctDevices(a) <==> DistinctDevices(a[1..]) && a[0].deviceID !in DeviceIds(a[1..])
    ensures a == [a[0]] + a[1..]
  {
    assert a == [a[0]] + a[1..];
    DeviceIdsOfCons(a[0], a[1..]);
  }

  predicate NeedsCleanup(actual: Folder, desired: Folder) {
    || !(DeviceIds(actual.devices) <= DeviceIds(desired.devices))
    || (desired.paused && !actual.paused)
    || actual.kind != desired.kind
    || actual.path != desired.path
  }

  predicate NeedsForward(actual: Folder, desired: Folder) {
    || !(DeviceIds(desired.devices) <= DeviceIds(actual.devices))
    || (actual.paused && !desired.paused)
  }

  /** Paused, type and path forced, stray devices gone, missing devices not added. */
  function BuildCleanupFolder(actual: Folder, desired: Folder): Folder {
    Folder(actual.id, desired.path, desired.kind, true,
           IntersectDevices(actual.devices, desired.devices), desired.labelText)
  }

  predicate Matches(actual: Folder, desired: Folder) {
    && actual.paused == desired.paused
    && actual.kind == desired.kind
    && actual.path == desired.path
    && DeviceIds(actual.devices) == DeviceIds(desired.devices)
  }

  // ---- what one tick aims at --------------------------------------------------------------

  predicate FolderNeedsRepair(f: Folder, d: Want) {
    if f.id in d.folders then NeedsCleanup(f, d.folders[f.id]) else !f.paused
  }

  function RepairedFolder(f: Folder, d: Want): Folder {
    if !FolderNeedsRepair(f, d) then f
    else if f.id in d.folders then BuildCleanupFolder(f, d.folders[f.id])
    else f.(paused := true)
  }

  ghost predicate RepairNeeded(c: Config, d: Want) {
    c.options != d.options || exists id :: id in c.folders && FolderNeedsRepair(c.folders[id], d)
  }

  ghost function RepairedOn(c: Config, d: Want, ids: set<string>): Config {
    Config(map id | id in c.folders :: if id in ids then RepairedFolder(c.folders[id], d) else c.folders[id], d.options)
  }

  predicate WantsForward(c: Config, id: string, desired: Folder) {
    id in c.folders ==> NeedsForward(c.folders[id], desired)
  }

  ghost function ForwardedOn(c: Config, d: Want, ids: set<string>): Config
    requires ids <= d.folders.Keys
  {
    c.(folders := map id | id in c.folders.Keys + ids ::
      if id in ids && WantsForward(c, id, d.folders[id]) then d.folders[id] else c.folders[id])
  }

  /** Where a tick that hears no error ends. */
  ghost function Goal(c: Config, d: Want, blocked: bool): Config {
    if RepairNeeded(c, d) then RepairedOn(c, d, c.folders.Keys)
    else if blocked then c
    else ForwardedOn(c, d, d.folders.Keys)
  }

  /** `c'` is `c` with some of the changes that lead to `goal`. */
  ghost predicate Partway(c: Config, c': Config, goal: Config) {
    && c'.options in {c.options, goal.options}
    && c.folders.Keys <= c'.folders.Keys <= goal.folders.Keys
    && forall id :: id in c'.folders ==>
         c'.folders[id] == goal.folders[id] || (id in c.folders && c'.folders[id] == c.folders[id])
  }

  ghost predicate TickEffect(c: Config, d: Want, blocked: bool, c': Config, ok: bool) {
    if ok then c' == Goal(c, d, blocked) else Partway(c, c', Goal(c, d, blocked))
  }

  // ---- what a tick does to each folder ----------------------------------------------------

  /** Paused, with everything but the devices as desired; of the devices all that are desired stay, as
      they were, and only they. */
  ghost predicate CleanedUp(f: Folder, want: Folder, g: Folder) {
    && g.id == f.id && g.paused && g.path == want.path && g.kind == want.kind && g.labelText == want.labelText
    && forall v :: v in g.devices <==> v in f.devices && v.deviceID in DeviceIds(want.devices)
  }

  /** A stray device, or one of the settings that a tick puts right before anything else. */
  predicate OutOfLine(f: Folder, want: Folder) {
    DeviceIds(f.devices) - DeviceIds(want.devices) != {} || (want.paused && !f.paused)
    || f.kind != want.kind || f.path != want.path
  }

  predicate Lacking(f: Folder, want: Folder) {
    DeviceIds(want.devices) - DeviceIds(f.devices) != {} || (f.paused && !want.paused)
  }

  ghost predicate SomethingOutOfLine(c: Config, d: Want) {
    || c.options != d.options
    || exists id :: id in c.folders &&
         if id in d.folders then OutOfLine(c.folders[id], d.folders[id]) else !c.folders[id].paused
  }

  /** One folder over a tick that hears no error. */
  ghost predicate Treated(c: Config, d: Want, blocked: bool, c': Config, id: string)
    requires id in c.folders && id in c'.folders
  {
    var f, g := c.folders[id], c'.folders[id];
    if id !in d.folders then g == f.(paused := true)
    else
      var want := d.folders[id];
      if SomethingOutOfLine(c, d) then (if OutOfLine(f, want) then CleanedUp(f, want, g) else g == f)
      else g == if !blocked && Lacking(f, want) then want else f
  }

  ghost predicate TickDone(c: Config, d: Want, blocked: bool, c': Config) {
    && c'.options == d.options && c.folders.Keys <= c'.folders.Keys
    && (forall id :: id in c.folders ==> Treated(c, d, blocked, c', id))
    && (forall id :: id in c'.folders && id !in c.folders ==> id in d.folders && c'.folders[id] == d.folders[id])
    && (!blocked && !SomethingOutOfLine(c, d) ==> c'.folders.Keys == c.folders.Keys + d.folders.Keys)
    && (blocked || SomethingOutOfLine(c, d) ==> c'.folders.Keys == c.folders.Keys)
  }

  lemma RepairMeansOutOfLine(f: Folder, d: Want)
    ensures FolderNeedsRepair(f, d) <==> if f.id in d.folders then OutOfLine(f, d.folders[f.id]) else !f.paused
  {
    if f.id in d.folders {
      var mine, theirs := DeviceIds(f.devices), DeviceIds(d.folders[f.id].devices);
      assert mine <= theirs ==> mine - theirs == {};
      assert !(mine <= theirs) ==> exists x :: x in mine && x in mine - theirs;
    }
  }

  /** The goal of a tick, said of every folder by itself. */
  lemma GoalIsTickDone(c: Config, d: Want, blocked: bool)
    requires Keyed(c)
    ensures TickDone(c, d, blocked, Goal(c, d, blocked))
  {
    forall id | id in c.folders
      ensures FolderNeedsRepair(c.folders[id], d) <==>
        if id in d.folders then OutOfLine(c.folders[id], d.folders[id]) else !c.folders[id].paused
    {
      RepairMeansOutOfLine(c.folders[id], d);
    }
    assert RepairNeeded(c, d) <==> SomethingOutOfLine(c, d);
    forall id | id in c.folders ensures Treated(c, d, blocked, Goal(c, d, blocked), id) {
      GoalTreats(c, d, blocked, id);
    }
  }

  lemma GoalTreats(c: Config, d: Want, blocked: bool, id: string)
    requires Keyed(c) && id in c.folders && (RepairNeeded(c, d) <==> SomethingOutOfLine(c, d))
    ensures Treated(c, d, blocked, Goal(c, d, blocked), id)
  {
    var f := c.folders[id];
    RepairMeansOutOfLine(f, d);
    if id in d.folders && RepairNeeded(c, d) {
      IntersectedMembers(f.devices, d.folders[id].devices);
    }
    if id !in d.folders && !RepairNeeded(c, d) {
      assert !FolderNeedsRepair(f, d);
    }
  }

  lemma {:induction false} IntersectedMembers(a: seq<Device>, b: seq<Device>)
    ensures forall v :: v in IntersectDevices(a, b) <==> v in a && v.deviceID in DeviceIds(b)
  {
    if a != [] {
      IntersectedMembers(a[1..], b);
      assert a == [a[0]] + a[1..];
    }
  }

  /** Whatever fails: a device that is both there and desired stays, and of an unknown folder only the
      pause may change. */
  ghost predicate OnlyStraysGo(c: Config, d: Want, c': Config) {
    forall id :: id in c.folders ==>
      && id in c'.folders
      && if id in d.folders
         then DeviceIds(c.folders[id].devices) * DeviceIds(d.folders[id].devices) <= DeviceIds(c'.folders[id].devices)
         else c'.folders[id] in {c.folders[id], c.folders[id].(paused := true)}
  }

  lemma TicksTakeOnlyStrays(c: Config, d: Want, blocked: bool, c': Config, ok: bool)
    requires Keyed(c) && TickEffect(c, d, blocked, c', ok)
    ensures OnlyStraysGo(c, d, c')
  {
    var goal := Goal(c, d, blocked);
    GoalIsTickDone(c, d, blocked);
    forall id | id in c.folders && id in d.folders
      ensures DeviceIds(c.folders[id].devices) * DeviceIds(d.folders[id].devices) <= DeviceIds(c'.folders[id].devices)
    {
      assert Treated(c, d, blocked, goal, id);
      TreatedKeepsDesired(c, d, blocked, goal, id);
    }
    forall id | id in c.folders && id !in d.folders
      ensures c'.folders[id] in {c.folders[id], c.folders[id].(paused := true)}
    {
      assert Treated(c, d, blocked, goal, id);
    }
  }

  lemma TreatedKeepsDesired(c: Config, d: Want, blocked: bool, c': Config, id: string)
    requires id in c.folders && id in d.folders && id in c'.folders && Treated(c, d, blocked, c', id)
    ensures DeviceIds(c.folders[id].devices) * DeviceIds(d.folders[id].devices) <= DeviceIds(c'.folders[id].devices)
  {
    var f, want, g := c.folders[id], d.folders[id], c'.folders[id];
    forall x | x in DeviceIds(f.devices) * DeviceIds(want.devices) ensures x in DeviceIds(g.devices) {
      var v :| v in f.devices && v.deviceID == x;
      assert v in f.devices && v.deviceID in DeviceIds(want.devices);
      if g != f && g != want {
        assert v in g.devices;
      }
    }
  }

  // ---- runs -------------------------------------------------------------------------------

  datatype State = State(config: Config, desired: Want, blocked: bool)

  datatype Event = Tick(ok: bool) | OperatorRetried(ok: bool) | DesiredChanged(desired: Want)

  ghost predicate Next(s: State, e: Event, s': State) {
    match e
    case Tick(ok) =>
      && s'.desired == s.desired
      && TickEffect(s.config, s.desired, s.blocked, s'.config, ok)
      && (s.blocked ==> s'.blocked)
      && (ok ==> s'.blocked == s.blocked)
    case OperatorRetried(ok) =>
      if !s.blocked then s' == s && !ok
      else
        && s'.desired == s.desired
        && TickEffect(s.config, s.desired, false, s'.config, ok)
        && s'.blocked == !ok
    case DesiredChanged(d) =>
      s' == s.(desired := d)
  }

  ghost predicate Run(states: seq<State>, events: seq<Event>) {
    && |states| == |events| + 1
    && forall i :: 0 <= i < |events| ==> Next(states[i], events[i], states[i + 1])
  }

  /** No folder appears, is unpaused, or gains a device. */
  ghost predicate Narrows(c: Config, c': Config) {
    forall id :: id in c'.folders ==>
      && id in c.folders
      && (c.folders[id].paused ==> c'.folders[id].paused)
      && DeviceIds(c'.folders[id].devices) <= DeviceIds(c.folders[id].devices)
  }

  lemma RepairNarrows(f: Folder, d: Want)
    ensures var r := RepairedFolder(f, d);
            r.id == f.id && (f.paused ==> r.paused) && DeviceIds(r.devices) <= DeviceIds(f.devices)
  {
  }

  /** Only a tick that begins unblocked, over a configuration in which nothing has to be repaired,
      can widen access, however many of its puts fail and in whatever way. */
  lemma WideningNeedsCleanUnblockedTick(c: Config, d: Want, blocked: bool, c': Config, ok: bool)
    requires TickEffect(c, d, blocked, c', ok)
    requires !Narrows(c, c')
    ensures !blocked && !RepairNeeded(c, d)
  {
    if RepairNeeded(c, d) {
      forall id | id in c'.folders
        ensures id in c.folders && (c.folders[id].paused ==> c'.folders[id].paused)
        ensures DeviceIds(c'.folders[id].devices) <= DeviceIds(c.folders[id].devices)
      {
        RepairNarrows(c.folders[id], d);
      }
    }
  }

  lemma {:induction false} WideningInRuns(states: seq<State>, events: seq<Event>, i: nat)
    requires Run(states, events) && i < |events|
    requires !Narrows(states[i].config, states[i + 1].config)
    ensures !events[i].DesiredChanged?
    ensures !RepairNeeded(states[i].config, states[i].desired)
    ensures events[i].Tick? ==> !states[i].blocked
  {
    var s, s' := states[i], states[i + 1];
    assert Next(s, events[i], s');
    match events[i]
    case Tick(ok) => WideningNeedsCleanUnblockedTick(s.config, s.desired, s.blocked, s'.config, ok);
    case OperatorRetried(ok) => WideningNeedsCleanUnblockedTick(s.config, s.desired, false, s'.config, ok);
    case DesiredChanged(_) =>
  }

  /** From the moment the latch closes until an operator retries, access only narrows, whatever
      fails and however the desired state is changed meanwhile. */
  lemma {:induction false} BlockedRunsOnlyNarrow(states: seq<State>, events: seq<Event>)
    requires Run(states, events) && states[0].blocked
    requires forall e :: e in events ==> !e.OperatorRetried?
    ensures states[|events|].blocked
    ensures Narrows(states[0].config, states[|events|].config)
  {
    if events != [] {
      var n := |events| - 1;
      BlockedRunsOnlyNarrow(states[..n + 1], events[..n]);
      assert Next(states[n], events[n], states[n + 1]);
      assert !events[n].OperatorRetried? by { assert events[n] in events; }
      if !Narrows(states[n].config, states[n + 1].config) {
        WideningInRuns(states, events, n);
      }
    }
  }

  /** The latch opens only through an operator retry whose own tick succeeded. */
  lemma {:induction false} LatchOpensOnlyByOperator(states: seq<State>, events: seq<Event>) returns (i: nat)
    requires Run(states, events) && states[0].blocked && !states[|events|].blocked
    ensures i < |events| && events[i] == OperatorRetried(true) && states[i].blocked
    ensures states[i + 1].config == Goal(states[i].config, states[i].desired, false)
  {
    var n := |events| - 1;
    assert Next(states[n], events[n], states[n + 1]);
    if states[n].blocked {
      i := n;
    } else {
      i := LatchOpensOnlyByOperator(states[..n + 1], events[..n]);
    }
  }

  /** Over any run of ticks and retries, whatever fails, blocked or not, a device of a folder that the
      desired state names is never taken off it. */
  lemma {:induction false} DesiredDevicesStay(states: seq<State>, events: seq<Event>, id: string)
    requires Run(states, events) && ValidConfig(states[0].config) && ValidWant(states[0].desired)
    requires forall e :: e in events ==> !e.DesiredChanged?
    requires id in states[0].config.folders && id in states[0].desired.folders
    ensures var now := states[|events|];
            && now.desired == states[0].desired && id in now.config.folders
            && DeviceIds(states[0].config.folders[id].devices) * DeviceIds(now.desired.folders[id].devices)
                 <= DeviceIds(now.config.folders[id].devices)
  {
    if events != [] {
      var n := |events| - 1;
      DesiredDevicesStay(states[..n + 1], events[..n], id);
      RunKeepsValid(states[..n + 1], events[..n]);
      var s, s' := states[n], states[n + 1];
      assert Next(s, events[n], s') && events[n] in events;
      match events[n]
      case Tick(ok) => TicksTakeOnlyStrays(s.config, s.desired, s.blocked, s'.config, ok);
      case OperatorRetried(ok) =>
        if s.blocked {
          TicksTakeOnlyStrays(s.config, s.desired, false, s'.config, ok);
        }
    }
  }

  // ---- convergence ------------------------------------------------------------------------

  ghost predicate Converged(c: Config, d: Want) {
    && c.options == d.options
    && (forall id :: id in d.folders ==> id in c.folders && Matches(c.folders[id], d.folders[id]))
    && (forall id :: id in c.folders && id !in d.folders ==> c.folders[id].paused)
  }

  /** No put is due: nothing to repair and nothing to move forward. */
  ghost predicate NothingToWrite(c: Config, d: Want) {
    !RepairNeeded(c, d) && forall id :: id in d.folders ==> !WantsForward(c, id, d.folders[id])
  }

  lemma ConvergedMeansNothingToWrite(c: Config, d: Want)
    requires ValidConfig(c)
    ensures Converged(c, d) <==> NothingToWrite(c, d)
  {
    var want := d.folders;
    if NothingToWrite(c, d) {
      forall id | id in want ensures id in c.folders && Matches(c.folders[id], want[id]) {
        assert !WantsForward(c, id, want[id]);
        assert !FolderNeedsRepair(c.folders[id], d);
      }
      forall id | id in c.folders && id !in want ensures c.folders[id].paused {
        assert !FolderNeedsRepair(c.folders[id], d);
      }
    }
  }

  lemma NothingToWriteIsFixed(c: Config, d: Want)
    requires NothingToWrite(c, d)
    ensures Goal(c, d, false) == c
  {
    var want := d.folders;
    assert forall id :: id in want ==> !WantsForward(c, id, want[id]);
    assert Goal(c, d, false).folders == c.folders;
  }

  lemma CleanupIsValid(actual: Folder, desired: Folder)
    requires ValidFolder(actual) && ValidFolder(desired)
    ensures ValidFolder(BuildCleanupFolder(actual, desired))
    ensures !NeedsCleanup(BuildCleanupFolder(actual, desired), desired)
    ensures BuildCleanupFolder(actual, desired).labelText == desired.labelText
  {
  }

  lemma GoalIsValid(c: Config, d: Want, blocked: bool)
    requires ValidConfig(c) && ValidWant(d)
    ensures ValidConfig(Goal(c, d, blocked))
  {
    forall id | id in c.folders ensures ValidFolder(RepairedFolder(c.folders[id], d)) {
      if id in d.folders {
        CleanupIsValid(c.folders[id], d.folders[id]);
      }
    }
  }

  lemma RepairedNeedsNoRepair(c: Config, d: Want)
    requires ValidConfig(c) && ValidWant(d)
    ensures !RepairNeeded(RepairedOn(c, d, c.folders.Keys), d)
  {
    forall id | id in c.folders ensures !FolderNeedsRepair(RepairedFolder(c.folders[id], d), d) {
      if id in d.folders {
        CleanupIsValid(c.folders[id], d.folders[id]);
      }
    }
  }

  /** Two error-free unblocked ticks bring any valid configuration to the desired one; one is
      enough when the first finds nothing to repair. After that no put is due. */
  lemma TwoTicksConverge(c: Config, d: Want)
    requires ValidConfig(c) && ValidWant(d)
    ensures var c1 := Goal(c, d, false);
            var c2 := Goal(c1, d, false);
            && (!RepairNeeded(c, d) ==> Converged(c1, d))
            && Converged(c2, d) && NothingToWrite(c2, d) && Goal(c2, d, false) == c2
  {
    var c1 := Goal(c, d, false);
    GoalIsValid(c, d, false);
    if RepairNeeded(c, d) {
      RepairedNeedsNoRepair(c, d);
      ForwardConverges(c1, d);
    } else {
      ForwardConverges(c, d);
      ConvergedMeansNothingToWrite(c1, d);
      NothingToWriteIsFixed(c1, d);
    }
    GoalIsValid(c1, d, false);
    var c2 := Goal(c1, d, false);
    ConvergedMeansNothingToWrite(c2, d);
    NothingToWriteIsFixed(c2, d);
  }

  lemma ForwardConverges(c: Config, d: Want)
    requires ValidConfig(c) && ValidWant(d) && !RepairNeeded(c, d)
    ensures Converged(Goal(c, d, false), d)
  {
    var c' := Goal(c, d, false);
    forall id | id in d.folders
      ensures id in c'.folders && Matches(c'.folders[id], d.folders[id])
    {
      if id in c.folders {
        assert !FolderNeedsRepair(c.folders[id], d);
      }
    }
    forall id | id in c'.folders && id !in d.folders ensures c'.folders[id].paused {
      assert !FolderNeedsRepair(c.folders[id], d);
    }
  }

  lemma TickKeepsValid(c: Config, d: Want, blocked: bool, c': Config, ok: bool)
    requires ValidConfig(c) && ValidWant(d) && TickEffect(c, d, blocked, c', ok)
    ensures ValidConfig(c')
  {
    GoalIsValid(c, d, blocked);
  }

  ghost predicate ValidWants(events: seq<Event>) {
    forall i :: 0 <= i < |events| && events[i].DesiredChanged? ==> ValidWant(events[i].desired)
  }

  lemma {:induction false} RunKeepsValid(states: seq<State>, events: seq<Event>)
    requires Run(states, events) && ValidWants(events)
    requires ValidConfig(states[0].config) && ValidWant(states[0].desired)
    ensures ValidConfig(states[|events|].config) && ValidWant(states[|events|].desired)
  {
    if events != [] {
      var n := |events| - 1;
      RunKeepsValid(states[..n + 1], events[..n]);
      var s, s' := states[n], states[n + 1];
      assert Next(s, events[n], s');
      match events[n]
      case Tick(ok) => TickKeepsValid(s.config, s.desired, s.blocked, s'.config, ok);
      case OperatorRetried(ok) =>
        if s.blocked {
          TickKeepsValid(s.config, s.desired, false, s'.config, ok);
        }
      case DesiredChanged(_) =>
    }
  }

  /** Whatever failed before and wherever that left the configuration: two error-free ticks, the
      first of them an operator retry if the latch is closed, reach the desired one. */
  lemma {:induction false} EveryRunCanConverge(states: seq<State>, events: seq<Event>)
    requires Run(states, events) && ValidWants(events) && |events| >= 2
    requires ValidConfig(states[0].config) && ValidWant(states[0].desired)
    requires var n := |events|;
             (events[n - 2] == OperatorRetried(true) || (events[n - 2] == Tick(true) && !states[n - 2].blocked))
             && events[n - 1] == Tick(true)
    ensures var s := states[|events|];
            !s.blocked && Converged(s.config, s.desired) && NothingToWrite(s.config, s.desired)
  {
    var n := |events|;
    RunKeepsValid(states[..n - 1], events[..n - 2]);
    assert Next(states[n - 2], events[n - 2], states[n - 1]) && Next(states[n - 1], events[n - 1], states[n]);
    TwoTicksConverge(states[n - 2].config, states[n - 2].desired);
  }

  // ---- desired-state edits ----------------------------------------------------------------

  /** MarkDesiredCleanup is fail-closed: one error-free tick after it, blocked or not, the folder
      is paused and shared with nobody but the server itself. */
  lemma CleanupMarkClosesFolder(c: Config, d: Want, blocked: bool, id: string, self: string)
    requires ValidConfig(c) && id in d.folders
    requires d.folders[id].paused && DeviceIds(d.folders[id].devices) == {self}
    ensures var after := Goal(c, d, blocked).folders;
            id in after ==> after[id].paused && DeviceIds(after[id].devices) <= {self}
  {
    if id in c.folders && !RepairNeeded(c, d) {
      assert !FolderNeedsRepair(c.folders[id], d);
    }
  }

  lemma {:induction false} ReplaceInById(folders: seq<Folder>, i: nat, f: Folder)
    requires i < |folders| && DistinctIds(folders) && f.id == folders[i].id
    ensures folders[i].id in ById(folders) && ById(folders)[f.id] == folders[i]
    ensures ById(folders[i := f]) == ById(folders)[f.id := f]
  {
    ByIdIsLookup(folders, i);
    var n := |folders| - 1;
    if i < n {
      ReplaceInById(folders[..n], i, f);
      assert folders[i := f][..n] == folders[..n][i := f];
    } else {
      assert folders[i := f][..n] == folders[..n];
    }
  }

  lemma ReplaceKeepsDistinct(folders: seq<Folder>, i: nat, f: Folder)
    requires i < |folders| && DistinctIds(folders) && f.id == folders[i].id
    ensures DistinctIds(folders[i := f])
  {
  }

  // ---- one put after another --------------------------------------------------------------

  ghost predicate Keyed(c: Config) {
    forall id :: id in c.folders ==> c.folders[id].id == id
  }

  lemma RepairStep(c: Config, d: Want, done: set<string>, id: string)
    requires Keyed(c)
    ensures !(id in c.folders && FolderNeedsRepair(c.folders[id], d)) ==>
      RepairedOn(c, d, done + {id}) == RepairedOn(c, d, done)
    ensures id in c.folders ==>
              RepairedOn(c, d, done + {id}) ==
                Applied(RepairedOn(c, d, done), PutFolder(RepairedFolder(c.folders[id], d)))
  {
    if id in c.folders {
      RepairNarrows(c.folders[id], d);
      assert RepairedOn(c, d, done + {id}).folders
          == Applied(RepairedOn(c, d, done), PutFolder(RepairedFolder(c.folders[id], d))).folders;
    }
    if !(id in c.folders && FolderNeedsRepair(c.folders[id], d)) {
      assert RepairedOn(c, d, done + {id}).folders == RepairedOn(c, d, done).folders;
    }
  }

  lemma ForwardStep(c: Config, d: Want, done: set<string>, id: string)
    requires Keyed(c) && done <= d.folders.Keys && id in d.folders && d.folders[id].id == id && !RepairNeeded(c, d)
    ensures var f := d.folders[id];
            ForwardedOn(c, d, done + {id}) ==
              if WantsForward(c, id, f) then Applied(ForwardedOn(c, d, done), PutFolder(f)) else ForwardedOn(c, d, done)
    ensures Partway(c, ForwardedOn(c, d, done), Goal(c, d, false))
    ensures Partway(c, ForwardedOn(c, d, done + {id}), Goal(c, d, false))
  {
    var f := d.folders[id];
    if WantsForward(c, id, f) {
      assert ForwardedOn(c, d, done + {id}).folders == Applied(ForwardedOn(c, d, done), PutFolder(f)).folders;
    } else {
      assert ForwardedOn(c, d, done + {id}).folders == ForwardedOn(c, d, done).folders;
    }
  }

  /** Some folder among `ids` has to be repaired. */
  ghost predicate RepairIn(c: Config, d: Want, ids: set<string>) {
    exists id :: id in ids && id in c.folders && FolderNeedsRepair(c.folders[id], d)
  }

  /** A tick given up on after any number of repair puts is partway to its goal. */
  lemma RepairsArePartway(c: Config, d: Want, done: set<string>, id: string, blocked: bool)
    ensures id in c.folders && FolderNeedsRepair(c.folders[id], d) ==>
      && Partway(c, RepairedOn(c, d, done), Goal(c, d, blocked))
      && Partway(c, RepairedOn(c, d, done + {id}), Goal(c, d, blocked))
  {
  }

  lemma RepairedOnAll(c: Config, d: Want, ids: set<string>)
    requires c.folders.Keys <= ids
    ensures RepairedOn(c, d, ids) == RepairedOn(c, d, c.folders.Keys)
  {
    assert RepairedOn(c, d, ids).folders == RepairedOn(c, d, c.folders.Keys).folders;
  }

  lemma NoRepairIsIdentity(c: Config, d: Want)
    requires !RepairIn(c, d, d.folders.Keys) && !RepairIn(c, d, c.folders.Keys - d.folders.Keys)
    requires c.options == d.options
    ensures !RepairNeeded(c, d) && RepairedOn(c, d, c.folders.Keys) == c
  {
    forall id | id in c.folders ensures !FolderNeedsRepair(c.folders[id], d) {
      assert id in d.folders || id in c.folders.Keys - d.folders.Keys;
    }
    assert RepairedOn(c, d, c.folders.Keys).folders == c.folders;
  }

  lemma RepairInStep(c: Config, d: Want, ids: set<string>, id: string)
    ensures RepairIn(c, d, ids + {id}) <==>
      RepairIn(c, d, ids) || (id in c.folders && FolderNeedsRepair(c.folders[id], d))
  {
  }

  function Ids(folders: seq<Folder>): set<string> {
    set f | f in folders :: f.id
  }

  lemma IdsStep(folders: seq<Folder>, i: nat)
    requires i < |folders| && DistinctIds(folders)
    ensures Ids(folders[..i + 1]) == Ids(folders[..i]) + {folders[i].id}
    ensures folders[i].id in ById(folders) && ById(folders)[folders[i].id] == folders[i]
  {
    assert folders[..i + 1] == folders[..i] + [folders[i]];
    ByIdIsLookup(folders, i);
  }

  lemma AllIds(folders: seq<Folder>)
    ensures Ids(folders[..|folders|]) == ById(folders).Keys
  {
    assert folders[..|folders|] == folders;
    ByIdKeys(folders);
  }

  // ---- the controller ---------------------------------------------------------------------

  datatype Fault = ConfigUnreadable | Cancelled | GaveUp(on: Write) | NotBlocked

  const DEFAULT_BACKOFFS: seq<nat> := [0, 1, 2, 4, 8]

  /** What a failing put, and nothing else, does to the latch. */
  ghost predicate PassEffect(was: (bool, Option<Write>, nat), err: Option<Fault>, now: (bool, Option<Write>, nat)) {
    match err
    case Some(GaveUp(w)) => now == (true, Some(w), was.2 + if was.0 then 0 else 1)
    case Some(NotBlocked) => false
    case _ => now == was
  }

  class Reconciler {
    const client: Client
    const steady: bool  // nobody cancels a tick
    var desired: Desired
    var blocked: bool
    var blockReason: Option<Write>
    var coldSafetyFailed: nat
    var backoffs: seq<nat>

    constructor (client: Client, steady: bool)
      ensures this.client == client && this.steady == steady && !blocked && blockReason == None && coldSafetyFailed == 0
      ensures desired.folders == [] && Valid()
    {
      this.client, this.steady, blocked, blockReason, coldSafetyFailed := client, steady, false, None, 0;
      desired, backoffs := Desired([], ConfigOptions(false, false, false, false)), DEFAULT_BACKOFFS;
    }

    ghost predicate Valid()
      reads this
    {
      DistinctIds(desired.folders) && backoffs != []
    }

    ghost function Wanted(): Want
      reads this
    {
      Want(ById(desired.folders), desired.options)
    }

    ghost function View(): State
      reads this, client
    {
      State(client.config, Wanted(), blocked)
    }

    ghost function Latch(): (bool, Option<Write>, nat)
      reads this
    {
      (blocked, blockReason, coldSafetyFailed)
    }

    method SetBackoffs(b: seq<nat>)
      requires Valid()
      modifies this`backoffs
      ensures Valid() && backoffs == if b == [] then DEFAULT_BACKOFFS else b
    {
      backoffs := if b == [] then DEFAULT_BACKOFFS else b;
    }

    /** Rejects, leaving the old state, exactly the lists with an empty or repeated identifier. */
    method SetDesired(d: Desired) returns (ok: bool)
      requires Valid()
      modifies this`desired
      ensures Valid()
      ensures ok <==> DistinctIds(d.folders)
      ensures desired == if ok then d else old(desired)
    {
      var seen: set<string> := {};
      for i := 0 to |d.folders|
        invariant seen == set f | f in d.folders[..i] :: f.id
        invariant DistinctIds(d.folders[..i])
        invariant desired == old(desired)
      {
        var id := d.folders[i].id;
        assert d.folders[i] in d.folders;
        if id == "" {
          return false;
        }
        if id in seen {
          var j :| 0 <= j < i && d.folders[j].id == id;
          return false;
        }
        seen := seen + {id};
        assert d.folders[..i + 1] == d.folders[..i] + [d.folders[i]];
      }
      assert d.folders[..|d.folders|] == d.folders;
      desired := d;
      ok := true;
    }

    /** An upsert of one entry that leaves every other alone. */
    method UpdateDesiredFolder(f: Folder) returns (ok: bool)
      requires Valid()
      modifies this`desired
      ensures Valid() && (ok <==> f.id != "")
      ensures !ok ==> desired == old(desired)
      ensures ok ==>
        desired.options == old(desired.options) && ById(desired.folders) == ById(old(desired.folders))[f.id := f]
    {
      if f.id == "" {
        return false;
      }
      ok := true;
      for i := 0 to |desired.folders|
        invariant desired == old(desired)
        invariant forall j :: 0 <= j < i ==> desired.folders[j].id != f.id
      {
        if desired.folders[i].id == f.id {
          ReplaceInById(desired.folders, i, f);
          ReplaceKeepsDistinct(desired.folders, i, f);
          desired := desired.(folders := desired.folders[i := f]);
          return;
        }
      }
      assert (desired.folders + [f])[..|desired.folders|] == desired.folders;
      desired := desired.(folders := desired.folders + [f]);
    }

    /** Pauses one desired folder and leaves only the server on it; path, type and label stay. */
    method MarkDesiredCleanup(id: string, self: string) returns (ok: bool)
      requires Valid()
      modifies this`desired
      ensures Valid()
      ensures ok <==> id != "" && self != "" && id in ById(old(desired.folders))
      ensures !ok ==> desired == old(desired)
      ensures ok ==>
        var was := ById(old(desired.folders))[id];
        && desired.options == old(desired.options)
        && ById(desired.folders) ==
             ById(old(desired.folders))[id := was.(paused := true, devices := [Device(self, "")])]
    {
      if id == "" || self == "" {
        return false;
      }
      for i := 0 to |desired.folders|
        invariant desired == old(desired)
        invariant forall j :: 0 <= j < i ==> desired.folders[j].id != id
      {
        if desired.folders[i].id == id {
          var f := desired.folders[i].(paused := true, devices := [Device(self, "")]);
          ByIdIsLookup(desired.folders, i);
          ReplaceInById(desired.folders, i, f);
          ReplaceKeepsDistinct(desired.folders, i, f);
          desired := desired.(folders := desired.folders[i := f]);
          return true;
        }
      }
      ok := false;
      ByIdKeys(desired.folders);
    }

    /** Sets the latch; only the step from open to closed is counted. */
    method EnterBlocked(reason: Write)
      modifies this`blocked, this`blockReason, this`coldSafetyFailed
      ensures blocked && blockReason == Some(reason)
      ensures coldSafetyFailed == old(coldSafetyFailed) + if old(blocked) then 0 else 1
    {
      if !blocked {
        coldSafetyFailed := coldSafetyFailed + 1;
      }
      blocked, blockReason := true, Some(reason);
    }

    method PutWithRetry(w: Write) returns (err: Option<Fault>)
      requires Valid()
      modifies client, this`blocked, this`blockReason, this`coldSafetyFailed
      ensures err.None? ==> client.config == Applied(old(client.config), w)
      ensures err.Some? ==> client.config == old(client.config) || client.config == Applied(old(client.config), w)
      ensures !Acceptable(w) ==> err.Some? && client.config == old(client.config)
      ensures err in {None, Some(Cancelled), Some(GaveUp(w))}
      ensures PassEffect(old(Latch()), err, Latch())
      ensures client.healthy && Acceptable(w) ==> err.None?
      ensures client.attempts <= old(client.attempts) + |backoffs|
      ensures steady ==> err != Some(Cancelled)
      ensures err == Some(GaveUp(w)) && Acceptable(w) ==> client.attempts == old(client.attempts) + |backoffs|
    {
      for i := 0 to |backoffs|
        invariant Latch() == old(Latch())
        invariant client.config == old(client.config)
               || (Acceptable(w) && client.config == Applied(old(client.config), w))
        invariant client.healthy && Acceptable(w) ==> i == 0
        invariant client.attempts == old(client.attempts) + if Acceptable(w) then i else 0
      {
        if backoffs[i] > 0 {
          var contextDone := *;
          if contextDone && !client.healthy && !steady {
            return Some(Cancelled);
          }
        }
        var ok := client.Put(w);
        if ok {
          return None;
        }
      }
      EnterBlocked(w);
      err := Some(GaveUp(w));
    }

    /** One repair put of pass 2 or 3. */
    method PutRepair(cfg: Config, d: Want, ghost done: set<string>, f: Folder) returns (err: Option<Fault>)
      requires Valid() && Keyed(cfg) && client.config == RepairedOn(cfg, d, done)
      requires f.id in cfg.folders && FolderNeedsRepair(cfg.folders[f.id], d)
      requires f == RepairedFolder(cfg.folders[f.id], d)
      modifies client, this`blocked, this`blockReason, this`coldSafetyFailed
      ensures PassEffect(old(Latch()), err, Latch())
      ensures err.None? ==> client.config == RepairedOn(cfg, d, done + {f.id})
      ensures err.Some? ==> Partway(cfg, client.config, Goal(cfg, d, old(blocked)))
      ensures RepairNeeded(cfg, d)
      ensures client.healthy && ValidConfig(cfg) && ValidWant(d) ==> err.None?
    {
      RepairStep(cfg, d, done, f.id);
      RepairsArePartway(cfg, d, done, f.id, blocked);
      if f.id in d.folders && ValidConfig(cfg) && ValidWant(d) {
        CleanupIsValid(cfg.folders[f.id], d.folders[f.id]);
      }
      err := PutWithRetry(PutFolder(f));
    }

    /** Pass 1: the options. */
    method OptionsPass(cfg: Config, d: Want) returns (err: Option<Fault>, repaired: bool)
      requires Valid() && Keyed(cfg) && client.config == cfg
      modifies client, this`blocked, this`blockReason, this`coldSafetyFailed
      ensures PassEffect(old(Latch()), err, Latch())
      ensures err.None? ==> client.config == RepairedOn(cfg, d, {}) && (repaired <==> cfg.options != d.options)
      ensures err.Some? ==> RepairNeeded(cfg, d) && Partway(cfg, client.config, Goal(cfg, d, old(blocked)))
      ensures err.None? && !repaired ==> client.attempts == old(client.attempts)
      ensures client.healthy ==> err.None?
    {
      err, repaired := None, cfg.options != d.options;
      assert RepairedOn(cfg, d, {}).folders == cfg.folders;
      if repaired {
        err := PutWithRetry(PutOptions(d.options));
      }
    }

    /** Pass 2: folders nobody asked for are paused, never deleted. Any order of them will do. */
    method QuarantineUnknown(cfg: Config, d: Want) returns (err: Option<Fault>, anyRepair: bool)
      requires Valid() && Keyed(cfg) && client.config == RepairedOn(cfg, d, {})
      modifies client, this`blocked, this`blockReason, this`coldSafetyFailed
      ensures PassEffect(old(Latch()), err, Latch())
      ensures err.None? ==> client.config == RepairedOn(cfg, d, cfg.folders.Keys - d.folders.Keys)
      ensures err.None? ==> (anyRepair <==> RepairIn(cfg, d, cfg.folders.Keys - d.folders.Keys))
      ensures err.Some? ==> RepairNeeded(cfg, d) && Partway(cfg, client.config, Goal(cfg, d, old(blocked)))
      ensures err.None? && !anyRepair ==> client.attempts == old(client.attempts)
      ensures client.healthy && ValidConfig(cfg) && ValidWant(d) ==> err.None?
    {
      err, anyRepair := None, false;
      var unknown := cfg.folders.Keys - d.folders.Keys;
      ghost var done: set<string> := {};
      while unknown != {}
        invariant unknown + done == cfg.folders.Keys - d.folders.Keys && unknown !! done
        invariant client.config == RepairedOn(cfg, d, done) && Latch() == old(Latch()) && err.None?
        invariant anyRepair <==> RepairIn(cfg, d, done)
        invariant !anyRepair ==> client.attempts == old(client.attempts)
        decreases unknown
      {
        var id :| id in unknown;
        RepairStep(cfg, d, done, id);
        RepairInStep(cfg, d, done, id);
        if !cfg.folders[id].paused {
          err := PutRepair(cfg, d, done, cfg.folders[id].(paused := true));
          if err.Some? {
            return;
          }
          anyRepair := true;
        }
        unknown, done := unknown - {id}, done + {id};
      }
    }

    /** Pass 3: cleanup puts, not gated by the latch. */
    method CleanupPass(cfg: Config, d: Want) returns (err: Option<Fault>, anyRepair: bool)
      requires Valid() && Keyed(cfg) && d == Wanted()
      requires client.config == RepairedOn(cfg, d, cfg.folders.Keys - d.folders.Keys)
      modifies client, this`blocked, this`blockReason, this`coldSafetyFailed
      ensures PassEffect(old(Latch()), err, Latch())
      ensures err.None? ==> client.config == RepairedOn(cfg, d, cfg.folders.Keys)
      ensures err.None? ==> (anyRepair <==> RepairIn(cfg, d, d.folders.Keys))
      ensures err.Some? ==> RepairNeeded(cfg, d) && Partway(cfg, client.config, Goal(cfg, d, old(blocked)))
      ensures err.None? && !anyRepair ==> client.attempts == old(client.attempts)
      ensures client.healthy && ValidConfig(cfg) && ValidWant(d) ==> err.None?
    {
      err, anyRepair := None, false;
      ghost var done, seen: set<string> := cfg.folders.Keys - d.folders.Keys, {};
      for i := 0 to |desired.folders|
        invariant seen == Ids(desired.folders[..i]) && cfg.folders.Keys - d.folders.Keys <= done && seen <= done
        invariant client.config == RepairedOn(cfg, d, done) && Latch() == old(Latch()) && err.None?
        invariant anyRepair <==> RepairIn(cfg, d, seen)
        invariant !anyRepair ==> client.attempts == old(client.attempts)
      {
        var f := desired.folders[i];
        IdsStep(desired.folders, i);
        RepairStep(cfg, d, done, f.id);
        RepairInStep(cfg, d, seen, f.id);
        if f.id in cfg.folders && NeedsCleanup(cfg.folders[f.id], f) {
          err := PutRepair(cfg, d, done, BuildCleanupFolder(cfg.folders[f.id], f));
          if err.Some? {
            return;
          }
          anyRepair := true;
        }
        done, seen := done + {f.id}, seen + {f.id};
      }
      AllIds(desired.folders);
      RepairedOnAll(cfg, d, done);
    }

    /** Pass 4: creating, unpausing and adding devices. */
    method ForwardPass(cfg: Config, d: Want) returns (err: Option<Fault>)
      requires Valid() && Keyed(cfg) && d == Wanted() && client.config == cfg && !RepairNeeded(cfg, d)
      modifies client, this`blocked, this`blockReason, this`coldSafetyFailed
      ensures PassEffect(old(Latch()), err, Latch())
      ensures err.None? ==> client.config == ForwardedOn(cfg, d, d.folders.Keys)
      ensures err.Some? ==> Partway(cfg, client.config, Goal(cfg, d, false))
      ensures NothingToWrite(cfg, d) ==> client.attempts == old(client.attempts)
      ensures client.healthy && ValidWant(d) ==> err.None?
    {
      err := None;
      ghost var done: set<string> := {};
      assert ForwardedOn(cfg, d, {}).folders == cfg.folders;
      for i := 0 to |desired.folders|
        invariant done == Ids(desired.folders[..i]) && done <= d.folders.Keys
        invariant client.config == ForwardedOn(cfg, d, done) && Latch() == old(Latch()) && err.None?
        invariant NothingToWrite(cfg, d) ==> client.attempts == old(client.attempts)
      {
        var f := desired.folders[i];
        IdsStep(desired.folders, i);
        ForwardStep(cfg, d, done, f.id);
        if f.id !in cfg.folders || NeedsForward(cfg.folders[f.id], f) {
          err := PutWithRetry(PutFolder(f));
          if err.Some? {
            return;
          }
        }
        done := done + {f.id};
      }
      AllIds(desired.folders);
    }

    /** One tick: what it does to each folder if it hears no error, and what it spares if it does. */
    method ReconcileLocked() returns (err: Option<Fault>)
      requires Valid() && Keyed(client.config)
      modifies client, this`blocked, this`blockReason, this`coldSafetyFailed
      ensures Valid()
      ensures Next(old(View()), Tick(err.None?), View())
      ensures err.None? ==> TickDone(old(client.config), Wanted(), old(blocked), client.config)
      ensures OnlyStraysGo(old(client.config), Wanted(), client.config)
      ensures PassEffect(old(Latch()), err, Latch())
      ensures client.healthy && ValidConfig(old(client.config)) && ValidWant(Wanted()) ==> err.None?
      ensures NothingToWrite(old(client.config), Wanted()) ==> client.attempts == old(client.attempts)
    {
      ghost var c, d, wasBlocked := client.config, Wanted(), blocked;
      err := RunPasses();
      GoalIsTickDone(c, d, wasBlocked);
      TicksTakeOnlyStrays(c, d, wasBlocked, client.config, err.None?);
    }

    method RunPasses() returns (err: Option<Fault>)
      requires Valid() && Keyed(client.config)
      modifies client, this`blocked, this`blockReason, this`coldSafetyFailed
      ensures Valid()
      ensures Next(old(View()), Tick(err.None?), View())
      ensures PassEffect(old(Latch()), err, Latch())
      ensures client.healthy && ValidConfig(old(client.config)) && ValidWant(Wanted()) ==> err.None?
      ensures NothingToWrite(old(client.config), Wanted()) ==> client.attempts == old(client.attempts)
    {
      var wasBlocked := blocked;
      var readable, cfg := client.GetConfig();
      if !readable {
        return Some(ConfigUnreadable);
      }
      var d := Want(ById(desired.folders), desired.options);
      var optionsRepaired, quarantined, cleaned;
      err, optionsRepaired := OptionsPass(cfg, d);
      if err.Some? {
        return;
      }
      err, quarantined := QuarantineUnknown(cfg, d);
      if err.Some? {
        return;
      }
      err, cleaned := CleanupPass(cfg, d);
      if err.Some? {
        return;
      }
      if optionsRepaired || quarantined || cleaned {
        assert RepairNeeded(cfg, d);
        return;
      }
      NoRepairIsIdentity(cfg, d);
      if !wasBlocked {
        err := ForwardPass(cfg, d);
      }
    }

    /** Clears the latch for one tick; if that tick fails in any way the latch is closed again. */
    method OperatorRetry() returns (err: Option<Fault>)
      requires Valid() && Keyed(client.config)
      modifies client, this`blocked, this`blockReason, this`coldSafetyFailed
      ensures Valid()
      ensures Next(old(View()), OperatorRetried(err.None?), View())
      ensures err.None? ==> TickDone(old(client.config), Wanted(), false, client.config)
      ensures OnlyStraysGo(old(client.config), Wanted(), client.config)
      ensures err == Some(NotBlocked) <==> !old(blocked)
      ensures !old(blocked) ==> coldSafetyFailed == old(coldSafetyFailed)
      ensures old(blocked) && client.healthy && ValidConfig(old(client.config)) && ValidWant(Wanted()) ==> err.None?
      ensures err.None? ==> coldSafetyFailed == 0 && blockReason == None
      ensures old(blocked) && err.Some? ==>
        if err.value.GaveUp? then blockReason == Some(err.value.on) && coldSafetyFailed == old(coldSafetyFailed) + 1
        else blockReason == old(blockReason) && coldSafetyFailed == old(coldSafetyFailed)
    {
      if !blocked {
        assert OnlyStraysGo(client.config, Wanted(), client.config);
        return Some(NotBlocked);
      }
      var priorReason := blockReason;
      blocked, blockReason := false, None;
      err := ReconcileLocked();
      if err.Some? {
        if !blocked {
          blocked, blockReason := true, priorReason;
        }
        return;
      }
      coldSafetyFailed := 0;
    }
  }
}
