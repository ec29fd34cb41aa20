/** User-initiated sync tasks (internal/syncd/sync_task.go) and the barrier snapshot that drives
    them (internal/syncd/sync_task_service.go). Times are clock readings in nanoseconds; 0 is the
    zero time. */
module SyncTask {
  import opened Wrappers

  datatype TaskState = Pending | Running | Succeeded | Failed | Cancelled

  datatype Direction = Upload | Download | Both | Unknown

  datatype Task = Task(
    id: string, workspaceID: string, workspaceName: string, direction: Direction, state: TaskState,
    bytesDone: int, bytesTotal: int, error: string,
    startedAt: int, finishedAt: int, initiator: string, lastProgressAt: int)

  datatype Snapshot = Snapshot(
    now: int, boundWorkspaceID: string, connected: bool, manifestAt: int, lastActivityAt: int,
    pendingOutbound: int, peerManifestKnown: bool, peerManifestFiles: int,
    activeTransfers: nat, hasTransferError: bool, transferError: string,
    aggregateDone: int, aggregateTotal: int, downloadDone: int, downloadTotal: int)

  const QUIET_WINDOW := 1_000_000_000
  const TERMINAL_RETENTION := 30_000_000_000
  const DOWNLOAD_STALL := 300_000_000_000
  const SETTLE_WINDOW := 30_000_000_000

  predicate Terminal(t: Task) {
    t.state.Succeeded? || t.state.Failed? || t.state.Cancelled?
  }

  predicate DirectionsOverlap(a: Direction, b: Direction) {
    a == b || a.Both? || b.Both?
  }

  // ---- the barrier snapshot ---------------------------------------------------------------

  datatype Row = Row(down: bool, bytesDone: int, bytesTotal: int, error: string, completed: bool)

  predicate InFlight(r: Row) {
    r.error == "" && !r.completed && !(r.bytesTotal > 0 && r.bytesDone >= r.bytesTotal)
  }

  function Sum(rows: seq<Row>, f: Row -> int): int {
    if rows == [] then 0 else Sum(rows[..|rows| - 1], f) + f(rows[|rows| - 1])
  }

  predicate Space(c: char) {
    c in " \t\n\r\U{000B}\U{000C}\U{0085}\U{00A0}\U{1680}\U{2028}\U{2029}\U{202F}\U{205F}\U{3000}" ||
    '\U{2000}' <= c <= '\U{200A}'
  }

  /** Blanks, tabs and line ends are white space, and nothing that shows is. */
  lemma SpaceTells(c: char)
    ensures c in " \t\n\r" ==> Space(c)
    ensures '!' <= c <= '~' ==> !Space(c)
  {
  }

  function TrimSpace(s: string): string {
    Trimmed(s, Space)
  }

  function Trimmed(s: string, blank: char -> bool): string {
    if s == "" then ""
    else if blank(s[0]) then Trimmed(s[1..], blank)
    else if blank(s[|s| - 1]) then Trimmed(s[..|s| - 1], blank)
    else s
  }

  predicate AllOf(s: string, blank: char -> bool) {
    forall c :: c in s ==> blank(c)
  }

  /** Only white space goes, and none is left at either end. */
  lemma TrimSpaceTells(s: string) returns (before: string, after: string)
    ensures var t := TrimSpace(s);
            && s == before + t + after && AllOf(before, Space) && AllOf(after, Space)
            && (t != "" ==> !Space(t[0]) && !Space(t[|t| - 1]))
  {
    before, after := TrimmedTells(s, Space);
  }

  lemma {:induction false} TrimmedTells(s: string, blank: char -> bool) returns (before: string, after: string)
    ensures var t := Trimmed(s, blank);
            && s == before + t + after && AllOf(before, blank) && AllOf(after, blank)
            && (t != "" ==> !blank(t[0]) && !blank(t[|t| - 1]))
  {
    before, after := "", "";
    if s != "" {
      var n := |s| - 1;
      if blank(s[0]) {
        before, after := TrimmedTells(s[1..], blank);
        WiderInFront(s, before, Trimmed(s, blank), after, blank);
        before := [s[0]] + before;
      } else if blank(s[n]) {
        before, after := TrimmedTells(s[..n], blank);
        WiderBehind(s, before, Trimmed(s, blank), after, blank);
        after := after + [s[n]];
      }
    }
  }

  lemma WiderInFront(s: string, before: string, t: string, after: string, blank: char -> bool)
    requires s != "" && blank(s[0]) && AllOf(before, blank) && s[1..] == before + t + after
    ensures AllOf([s[0]] + before, blank) && s == [s[0]] + before + t + after
  {
    assert s == [s[0]] + s[1..];
  }

  lemma WiderBehind(s: string, before: string, t: string, after: string, blank: char -> bool)
    requires s != "" && blank(s[|s| - 1]) && AllOf(after, blank) && s[..|s| - 1] == before + t + after
    ensures AllOf(after + [s[|s| - 1]], blank) && s == before + t + (after + [s[|s| - 1]])
  {
    assert s == s[..|s| - 1] + [s[|s| - 1]];
  }

  predicate AnyError(rows: seq<Row>) {
    exists r :: r in rows && r.error != ""
  }

  function FirstError(rows: seq<Row>): string {
    if rows == [] then ""
    else
      var earlier := FirstError(rows[..|rows| - 1]);
      if earlier != "" then earlier else TrimSpace(rows[|rows| - 1].error)
  }

  function DoneOf(r: Row): int { r.bytesDone }
  function TotalOf(r: Row): int { r.bytesTotal }
  function DownDoneOf(r: Row): int { if r.down then r.bytesDone else 0 }
  function DownTotalOf(r: Row): int { if r.down then r.bytesTotal else 0 }
  function ActiveOf(r: Row): int { if InFlight(r) then 1 else 0 }

  method BuildBarrierSnapshot(now: int, bound: string, connected: bool, manifestAt: int, lastActivity: int,
                              pendingOutbound: int, peerFiles: int, rows: seq<Row>) returns (s: Snapshot)
    ensures s.now == now && s.boundWorkspaceID == bound && s.connected == connected && s.manifestAt == manifestAt
    ensures s.lastActivityAt == lastActivity && s.pendingOutbound == pendingOutbound && s.peerManifestFiles == peerFiles
    ensures s.peerManifestKnown <==> manifestAt != 0
    ensures s.aggregateDone == Sum(rows, DoneOf) && s.aggregateTotal == Sum(rows, TotalOf)
    ensures s.downloadDone == Sum(rows, DownDoneOf)
    ensures s.downloadTotal == Sum(rows, DownTotalOf)
    ensures s.activeTransfers == Sum(rows, ActiveOf)
    ensures s.hasTransferError == AnyError(rows)
    ensures s.transferError == FirstError(rows)
  {
    var done, total, downDone, downTotal, active := 0, 0, 0, 0, 0;
    var failed, error := false, "";
    for i := 0 to |rows|
      invariant done == Sum(rows[..i], DoneOf) && total == Sum(rows[..i], TotalOf)
      invariant downDone == Sum(rows[..i], DownDoneOf) && downTotal == Sum(rows[..i], DownTotalOf)
      invariant active == Sum(rows[..i], ActiveOf) && active >= 0
      invariant failed == AnyError(rows[..i]) && error == FirstError(rows[..i])
    {
      var row := rows[i];
      Prefix(rows, i);
      done, total := done + row.bytesDone, total + row.bytesTotal;
      if row.down {
        downDone, downTotal := downDone + row.bytesDone, downTotal + row.bytesTotal;
      }
      if row.error != "" {
        failed := true;
        if error == "" {
          error := TrimSpace(row.error);
        }
      } else if !row.completed && !(row.bytesTotal > 0 && row.bytesDone >= row.bytesTotal) {
        active := active + 1;
      }
    }
    assert rows[..|rows|] == rows;
    s := Snapshot(now, bound, connected, manifestAt, lastActivity, pendingOutbound, manifestAt != 0, peerFiles,
                  active, failed, error, done, total, downDone, downTotal);
  }

  lemma Prefix(rows: seq<Row>, i: nat)
    requires i < |rows|
    ensures forall f: Row -> int :: Sum(rows[..i + 1], f) == Sum(rows[..i], f) + f(rows[i])
    ensures AnyError(rows[..i + 1]) == (AnyError(rows[..i]) || rows[i].error != "")
    ensures FirstError(rows[..i + 1]) ==
      if FirstError(rows[..i]) != "" then FirstError(rows[..i]) else TrimSpace(rows[i].error)
  {
    assert rows[..i + 1] == rows[..i] + [rows[i]] && rows[..i + 1][..i] == rows[..i];
  }

  lemma {:induction false} SumMonotone(rows: seq<Row>, f: Row -> int, g: Row -> int)
    requires forall r :: r in rows ==> f(r) <= g(r)
    ensures Sum(rows, f) <= Sum(rows, g)
  {
    if rows != [] {
      var n := |rows| - 1;
      assert rows[n] in rows;
      SumMonotone(rows[..n], f, g);
    }
  }

  /** No more done than there is to do. */
  predicate Sane(s: Snapshot) {
    s.aggregateDone <= s.aggregateTotal && s.downloadDone <= s.downloadTotal
  }

  lemma SaneRowsMakeSaneSnapshot(rows: seq<Row>)
    requires forall r :: r in rows ==> r.bytesDone <= r.bytesTotal
    ensures Sum(rows, DoneOf) <= Sum(rows, TotalOf)
    ensures Sum(rows, DownDoneOf) <= Sum(rows, DownTotalOf)
  {
    SumMonotone(rows, DoneOf, TotalOf);
    SumMonotone(rows, DownDoneOf, DownTotalOf);
  }

  // ---- one task, one tick -----------------------------------------------------------------

  function Finished(t: Task, state: TaskState, now: int, error: string): Task {
    t.(state := state, finishedAt := now, error := error)
  }

  /** High-water marks for the bytes: what is shown never goes back. */
  function Progressed(t: Task, s: Snapshot): Task {
    var done := if t.direction.Download? then s.downloadDone else s.aggregateDone;
    var total := if t.direction.Download? then s.downloadTotal else s.aggregateTotal;
    var t1 := if done > t.bytesDone then t.(bytesDone := done, lastProgressAt := s.now) else t;
    if total > t1.bytesTotal then t1.(bytesTotal := total) else t1
  }

  function AdvancePending(t: Task, s: Snapshot): Task {
    if s.connected && t.workspaceID == s.boundWorkspaceID then t.(state := Running, startedAt := s.now) else t
  }

  function AdvanceRunning(t: Task, s: Snapshot): Task {
    if t.workspaceID != s.boundWorkspaceID then Finished(t, Cancelled, s.now, "workspace_unbound")
    else if !s.connected then t
    else
      var p := Progressed(t, s);
      var activity := s.lastActivityAt > p.startedAt;
      if p.direction.Download? && s.peerManifestKnown && s.peerManifestFiles == 0 && s.activeTransfers == 0 then
        Finished(p, Succeeded, s.now, p.error)
      else if s.manifestAt == 0 then p
      else if p.direction.Download? && s.downloadDone > 0 && p.lastProgressAt != 0 && activity
               && s.now - p.lastProgressAt > SETTLE_WINDOW then
        Finished(p, Succeeded, s.now, p.error)
      else if s.pendingOutbound > 0 || s.activeTransfers > 0 then p
      else if p.direction.Download? && s.peerManifestFiles > 0 && !activity then
        if s.now - p.startedAt > DOWNLOAD_STALL then Finished(p, Failed, s.now, "download_stall_no_inbound") else p
      else if s.lastActivityAt > s.now - QUIET_WINDOW then p
      else if s.hasTransferError then
        Finished(p, Failed, s.now, if s.transferError == "" then "transfer_error" else s.transferError)
      else Finished(p.(bytesDone := if p.bytesTotal > 0 then p.bytesTotal else p.bytesDone), Succeeded, s.now, p.error)
  }

  function Advance(t: Task, s: Snapshot): Task {
    match t.state
    case Pending => AdvancePending(t, s)
    case Running => AdvanceRunning(t, s)
    case _ => t
  }

  predicate Expired(t: Task, now: int) {
    Terminal(t) && now - t.finishedAt > TERMINAL_RETENTION
  }

  /** It ended more than half a minute ago. */
  predicate LongOver(t: Task, now: int) {
    t.state in {Succeeded, Failed, Cancelled} && now - t.finishedAt > 30_000_000_000
  }

  /** What the task's design promises of success: for every direction the session is there, the peer's
      manifest has been seen, and then either everything is quiet with nothing in flight, queued or
      in error, or, for a download, the peer is empty or progress has settled. */
  predicate Quiet(s: Snapshot) {
    s.pendingOutbound <= 0 && s.activeTransfers == 0 && s.now - s.lastActivityAt >= QUIET_WINDOW && !s.hasTransferError
  }

  predicate Settled(t: Task, s: Snapshot) {
    var progressAt := if DoneFor(t, s) > t.bytesDone then s.now else t.lastProgressAt;
    s.downloadDone > 0 && progressAt != 0 && s.now - progressAt > SETTLE_WINDOW && s.lastActivityAt > t.startedAt
  }

  /** The bytes that count for a task: a download looks at downloads alone. */
  function DoneFor(t: Task, s: Snapshot): int {
    if t.direction.Download? then s.downloadDone else s.aggregateDone
  }

  function TotalFor(t: Task, s: Snapshot): int {
    if t.direction.Download? then s.downloadTotal else s.aggregateTotal
  }

  predicate IsLarger(n: int, a: int, b: int) {
    n >= a && n >= b && n in {a, b}
  }

  /** Success with everything quiet, not for an empty peer or because progress has settled. */
  predicate ClosesFull(t: Task, s: Snapshot, t': Task) {
    t'.state.Succeeded?
    && !(t.direction.Download?
         && (Settled(t, s) || (s.peerManifestKnown && s.peerManifestFiles == 0 && s.activeTransfers == 0)))
  }

  /** What is shown follows the bytes that count upwards, and the clock notes when it last did; only
      closing in full makes it jump to the total. */
  ghost predicate ShowsProgress(t: Task, s: Snapshot, t': Task) {
    && IsLarger(t'.bytesTotal, t.bytesTotal, TotalFor(t, s))
    && t'.lastProgressAt == (if DoneFor(t, s) > t.bytesDone then s.now else t.lastProgressAt)
    && if ClosesFull(t, s, t') && t'.bytesTotal > 0 then t'.bytesDone == t'.bytesTotal
       else IsLarger(t'.bytesDone, t.bytesDone, DoneFor(t, s))
  }

  /** A pending task starts exactly when its workspace is bound and connected, and its clock with it. */
  ghost predicate Starts(t: Task, s: Snapshot, t': Task) {
    if s.connected && s.boundWorkspaceID == t.workspaceID then t' == t.(state := Running, startedAt := s.now)
    else t' == t
  }

  lemma PendingStarts(t: Task, s: Snapshot)
    requires t.state.Pending?
    ensures Starts(t, s, Advance(t, s))
  {
  }

  /** A running task waits for its connection as it is, and otherwise shows how far it got. */
  lemma RunningShowsProgress(t: Task, s: Snapshot)
    requires t.state.Running? && t.workspaceID == s.boundWorkspaceID
    ensures if s.connected then ShowsProgress(t, s, Advance(t, s)) else Advance(t, s) == t
  {
  }

  lemma UploadSucceedsIff(t: Task, s: Snapshot)
    requires t.state.Running? && !t.direction.Download?
    ensures Advance(t, s).state.Succeeded? <==>
      t.workspaceID == s.boundWorkspaceID && s.connected && s.manifestAt != 0 && Quiet(s)
  {
  }

  lemma DownloadSucceedsIff(t: Task, s: Snapshot)
    requires t.state.Running? && t.direction.Download?
    requires (s.peerManifestKnown <==> s.manifestAt != 0) && s.peerManifestFiles >= 0
    ensures Advance(t, s).state.Succeeded? <==>
      && t.workspaceID == s.boundWorkspaceID && s.connected && s.manifestAt != 0
      && (|| (s.peerManifestFiles == 0 && s.activeTransfers == 0)
          || Settled(t, s)
          || (Quiet(s) && s.lastActivityAt > t.startedAt))
  {
  }

  predicate Stalled(t: Task, s: Snapshot) {
    t.direction.Download? && s.lastActivityAt <= t.startedAt && s.now - t.startedAt > DOWNLOAD_STALL
  }

  /** A running task fails in two ways only: nothing came in for too long, or all is quiet and a
      transfer is still in error. Both wait until nothing is queued or in flight. */
  lemma FailsIff(t: Task, s: Snapshot)
    requires t.state.Running? && (s.peerManifestKnown <==> s.manifestAt != 0) && s.peerManifestFiles >= 0
    ensures Advance(t, s).state.Failed? <==>
      && t.workspaceID == s.boundWorkspaceID && s.connected && s.manifestAt != 0
      && s.pendingOutbound <= 0 && s.activeTransfers == 0
      && (t.direction.Download? ==> s.peerManifestFiles > 0 && !Settled(t, s))
      && (|| Stalled(t, s)
          || (s.hasTransferError && s.now - s.lastActivityAt >= QUIET_WINDOW
              && (t.direction.Download? ==> s.lastActivityAt > t.startedAt)))
    ensures Advance(t, s).state.Failed? ==>
      Advance(t, s).error == if Stalled(t, s) then "download_stall_no_inbound"
                             else if s.transferError == "" then "transfer_error" else s.transferError
    ensures Advance(t, s).state.Cancelled? <==> t.workspaceID != s.boundWorkspaceID
  {
  }

  /** What goes up never counts for what comes down. */
  lemma DownloadIgnoresUploads(t: Task, s: Snapshot, done: int, total: int)
    requires t.direction.Download?
    ensures Advance(t, s.(aggregateDone := done, aggregateTotal := total)) == Advance(t, s)
  {
  }

  /** What a tick does to a task that has not ended. */
  ghost predicate Ticks(t: Task, s: Snapshot, t': Task) {
    if t.state.Pending? then Starts(t, s, t')
    else if t.workspaceID != s.boundWorkspaceID then
      t' == t.(state := Cancelled, finishedAt := s.now, error := "workspace_unbound")
    else if !s.connected then t' == t
    else ShowsProgress(t, s, t') && Closes(t, s, t')
  }

  /** A task that ends notes when; only a failure leaves an error. */
  ghost predicate Closes(t: Task, s: Snapshot, t': Task) {
    && SameIdentity(t, t') && t'.startedAt == t.startedAt
    && t'.state in {Running, Succeeded, Failed}
    && t'.finishedAt == (if t'.state.Running? then t.finishedAt else s.now)
    && (!t'.state.Failed? ==> t'.error == t.error)
  }

  lemma TickDoes(t: Task, s: Snapshot)
    requires !Terminal(t)
    ensures Ticks(t, s, Advance(t, s))
  {
    if t.state.Pending? {
      PendingStarts(t, s);
    } else if t.workspaceID == s.boundWorkspaceID {
      RunningShowsProgress(t, s);
      RunningKeepsIdentity(t, s);
    }
  }

  // ---- the manager's state ----------------------------------------------------------------

  datatype State = State(tasks: map<string, Task>, last: map<string, Task>)

  /** The most recent terminal task of each name is remembered beyond eviction. */
  function Remember(last: map<string, Task>, t: Task): map<string, Task> {
    if t.workspaceName == "" then last
    else if t.workspaceName in last && last[t.workspaceName].finishedAt > t.finishedAt then last
    else last[t.workspaceName := t]
  }

  predicate Conflicts(t: Task, ws: string, name: string, d: Direction) {
    t.workspaceID == ws && t.workspaceName == name && !Terminal(t) && DirectionsOverlap(t.direction, d)
  }

  /** A task for the same workspace and name that has not ended and moves bytes in the same direction. */
  predicate UnderWay(t: Task, ws: string, name: string, d: Direction) {
    && t.workspaceID == ws && t.workspaceName == name && t.state in {Pending, Running}
    && (t.direction == d || t.direction == Both || d == Both)
  }

  datatype Event =
    | Created(id: string, workspaceID: string, workspaceName: string, direction: Direction, initiator: string, now: int)
    | CancelledTask(id: string, reason: string, now: int)
    | Ticked(s: Snapshot)

  function Fresh(e: Event): Task
    requires e.Created?
  {
    Task(e.id, e.workspaceID, e.workspaceName, e.direction, Pending, 0, 0, "", e.now, 0, e.initiator, 0)
  }

  function CancelledForm(t: Task, reason: string, now: int): Task {
    Finished(t, Cancelled, now, if reason != "" then reason else t.error)
  }

  /** `last'` is `last` brought up to date with the tasks that ended. */
  ghost predicate Remembered(last: map<string, Task>, last': map<string, Task>, ended: set<Task>) {
    && (forall n :: n in last' <==> n in last || (n != "" && exists t :: t in ended && t.workspaceName == n))
    && (forall n :: n in last' ==>
          (n in last && last'[n] == last[n]) || (last'[n] in ended && last'[n].workspaceName == n))
    && (forall n :: n in last ==> last'[n].finishedAt >= last[n].finishedAt)
    && (forall t :: t in ended && t.workspaceName != "" ==> last'[t.workspaceName].finishedAt >= t.finishedAt)
  }

  ghost predicate Next(m: State, e: Event, m': State) {
    match e
    case Created(id, ws, name, d, _, _) =>
      if ws == "" || d.Unknown? || exists i :: i in m.tasks && Conflicts(m.tasks[i], ws, name, d) then m' == m
      else id !in m.tasks && m' == m.(tasks := m.tasks[id := Fresh(e)])
    case CancelledTask(id, reason, now) =>
      if id !in m.tasks || Terminal(m.tasks[id]) then m' == m
      else
        var t := CancelledForm(m.tasks[id], reason, now);
        m' == State(m.tasks[id := t], Remember(m.last, t))
    case Ticked(s) =>
      && m'.tasks == (map id | id in m.tasks && !Expired(Advance(m.tasks[id], s), s.now) :: Advance(m.tasks[id], s))
      && Remembered(m.last, m'.last, Ending(m.tasks, m.tasks.Keys, s))
  }

  /** The tasks among `ids` that this snapshot ends, in their ended form. */
  ghost function Ending(tasks: map<string, Task>, ids: set<string>, s: Snapshot): set<Task>
    requires ids <= tasks.Keys
  {
    set id | id in ids && !Terminal(tasks[id]) && Terminal(Advance(tasks[id], s)) :: Advance(tasks[id], s)
  }

  lemma EndingGrows(tasks: map<string, Task>, ids: set<string>, s: Snapshot, id: string)
    requires ids <= tasks.Keys && id in tasks
    ensures var t := Advance(tasks[id], s);
            Ending(tasks, ids + {id}, s) ==
              Ending(tasks, ids, s) + if !Terminal(tasks[id]) && Terminal(t) then {t} else {}
  {
  }

  /** A tick under way: the tasks outside `todo` have been advanced and, if they ended, remembered. */
  ghost predicate PartTicked(was: State, todo: set<string>, s: Snapshot, m: State)
    requires todo <= was.tasks.Keys
  {
    && m.tasks.Keys == was.tasks.Keys
    && (forall id :: id in was.tasks ==> m.tasks[id] == if id in todo then was.tasks[id] else Advance(was.tasks[id], s))
    && Remembered(was.last, m.last, Ending(was.tasks, was.tasks.Keys - todo, s))
  }

  lemma PartTickedStart(was: State, s: Snapshot)
    ensures PartTicked(was, was.tasks.Keys, s, was)
  {
    assert was.tasks.Keys - was.tasks.Keys == {};
  }

  lemma PartTickedStep(was: State, todo: set<string>, s: Snapshot, m: State, id: string)
    requires todo <= was.tasks.Keys && PartTicked(was, todo, s, m) && id in todo
    ensures var t := Advance(m.tasks[id], s);
            PartTicked(was, todo - {id}, s,
                       State(m.tasks[id := t],
                             if !Terminal(m.tasks[id]) && Terminal(t) then Remember(m.last, t) else m.last))
  {
    var t := Advance(m.tasks[id], s);
    var before := was.tasks.Keys - todo;
    assert was.tasks.Keys - (todo - {id}) == before + {id};
    EndingGrows(was.tasks, before, s, id);
    if !Terminal(m.tasks[id]) && Terminal(t) {
      RememberOne(was.last, m.last, Ending(was.tasks, before, s), t);
    } else {
      assert Ending(was.tasks, before + {id}, s) == Ending(was.tasks, before, s);
    }
  }

  lemma PartTickedEnd(was: State, s: Snapshot, m: State, m': State)
    requires PartTicked(was, {}, s, m) && m'.last == m.last
    requires m'.tasks == map id | id in m.tasks && !Expired(m.tasks[id], s.now) :: m.tasks[id]
    ensures Next(was, Ticked(s), m')
  {
    assert was.tasks.Keys - {} == was.tasks.Keys;
  }

  /** A tick, task by task: one that has ended goes when it is long over and otherwise stays as it is. */
  ghost predicate TasksTicked(tasks: map<string, Task>, s: Snapshot, tasks': map<string, Task>) {
    && tasks'.Keys <= tasks.Keys
    && forall id :: id in tasks ==>
         if !Terminal(tasks[id]) then id in tasks' && Ticks(tasks[id], s, tasks'[id])
         else if LongOver(tasks[id], s.now) then id !in tasks'
         else id in tasks' && tasks'[id] == tasks[id]
  }

  lemma TickTells(m: State, s: Snapshot, m': State)
    requires Next(m, Ticked(s), m')
    ensures TasksTicked(m.tasks, s, m'.tasks)
  {
    forall id | id in m.tasks && !Terminal(m.tasks[id])
      ensures Ticks(m.tasks[id], s, Advance(m.tasks[id], s)) && !Expired(Advance(m.tasks[id], s), s.now)
    {
      TickDoes(m.tasks[id], s);
      AdvanceKeepsIdentity(m.tasks[id], s);
    }
  }

  // ---- what every step keeps --------------------------------------------------------------

  ghost predicate Inv(m: State) {
    && (forall i, j :: i in m.tasks && j in m.tasks && i != j && !Terminal(m.tasks[i]) ==>
          !Conflicts(m.tasks[j], m.tasks[i].workspaceID, m.tasks[i].workspaceName, m.tasks[i].direction))
    && (forall i :: i in m.tasks && Terminal(m.tasks[i]) && m.tasks[i].workspaceName != "" ==>
          m.tasks[i].workspaceName in m.last)
  }

  /** Who a task is for, and where it came from. */
  predicate SameIdentity(a: Task, b: Task) {
    && a.id == b.id && a.workspaceID == b.workspaceID && a.workspaceName == b.workspaceName
    && a.direction == b.direction && a.initiator == b.initiator
  }

  lemma AdvanceKeepsIdentity(t: Task, s: Snapshot)
    ensures var t' := Advance(t, s);
            && SameIdentity(t, t') && (Terminal(t) ==> t' == t)
            && (Terminal(t') && !Terminal(t) ==> t'.finishedAt == s.now)
  {
    if t.state.Running? {
      RunningKeepsIdentity(t, s);
    }
  }

  lemma RunningKeepsIdentity(t: Task, s: Snapshot)
    requires t.state.Running?
    ensures var t' := AdvanceRunning(t, s); SameIdentity(t, t') && (Terminal(t') ==> t'.finishedAt == s.now)
  {
    assert SameIdentity(t, Progressed(t, s)) && Progressed(t, s).state.Running?;
  }

  lemma NextKeepsInv(m: State, e: Event, m': State)
    requires Inv(m) && Next(m, e, m')
    ensures Inv(m')
  {
    match e
    case Created(_, _, _, _, _, _) =>
    case CancelledTask(_, _, _) =>
    case Ticked(s) => TickKeepsInv(m, s, m');
  }

  lemma TickKeepsInv(m: State, s: Snapshot, m': State)
    requires Inv(m) && Next(m, Ticked(s), m')
    ensures Inv(m')
  {
    forall i, j | i in m'.tasks && j in m'.tasks && i != j && !Terminal(m'.tasks[i])
      ensures !Conflicts(m'.tasks[j], m'.tasks[i].workspaceID, m'.tasks[i].workspaceName, m'.tasks[i].direction)
    {
      AdvanceKeepsIdentity(m.tasks[i], s);
      AdvanceKeepsIdentity(m.tasks[j], s);
      assert !Conflicts(m.tasks[j], m.tasks[i].workspaceID, m.tasks[i].workspaceName, m.tasks[i].direction);
    }
    forall i | i in m'.tasks && Terminal(m'.tasks[i]) && m'.tasks[i].workspaceName != ""
      ensures m'.tasks[i].workspaceName in m'.last
    {
      AdvanceKeepsIdentity(m.tasks[i], s);
    }
  }

  function Rank(state: TaskState): nat {
    match state
    case Pending => 0
    case Running => 1
    case _ => 2
  }

  lemma AdvanceMovesForward(t: Task, s: Snapshot)
    ensures Rank(t.state) <= Rank(Advance(t, s).state) && (Terminal(t) ==> Advance(t, s) == t)
    ensures Terminal(Advance(t, s)) && !Terminal(t) ==> Advance(t, s).finishedAt == s.now
  {
    AdvanceKeepsIdentity(t, s);
  }

  /** Of what is under way nothing is so twice. */
  lemma InvMeansOneEach(m: State, i: string, j: string)
    requires Inv(m) && i in m.tasks && j in m.tasks && i != j && m.tasks[i].state in {Pending, Running}
    ensures !UnderWay(m.tasks[j], m.tasks[i].workspaceID, m.tasks[i].workspaceName, m.tasks[i].direction)
  {
    assert !Conflicts(m.tasks[j], m.tasks[i].workspaceID, m.tasks[i].workspaceName, m.tasks[i].direction);
  }

  /** One step moves a task forward or leaves it; a terminal one stays as it is until it is evicted,
      which only a tick later than its retention time does; others are never evicted. */
  lemma TaskMovesForward(m: State, e: Event, m': State, id: string)
    requires Next(m, e, m') && id in m.tasks
    ensures id in m'.tasks ==> Rank(m.tasks[id].state) <= Rank(m'.tasks[id].state)
    ensures id in m'.tasks && Terminal(m.tasks[id]) ==> m'.tasks[id] == m.tasks[id]
    ensures id !in m'.tasks ==>
      Terminal(m.tasks[id]) && e.Ticked? && e.s.now - m.tasks[id].finishedAt > TERMINAL_RETENTION
    ensures m.last.Keys <= m'.last.Keys
  {
    if e.Ticked? {
      AdvanceMovesForward(m.tasks[id], e.s);
    }
  }

  // ---- runs -------------------------------------------------------------------------------

  ghost predicate Run(states: seq<State>, events: seq<Event>) {
    && |states| == |events| + 1 && states[0] == State(map[], map[])
    && forall i :: 0 <= i < |events| ==> Next(states[i], events[i], states[i + 1])
  }

  lemma {:induction false} RunKeepsInv(states: seq<State>, events: seq<Event>)
    requires Run(states, events)
    ensures Inv(states[|events|])
  {
    if events != [] {
      var n := |events| - 1;
      RunKeepsInv(states[..n + 1], events[..n]);
      NextKeepsInv(states[n], events[n], states[n + 1]);
    }
  }

  /** As long as it is kept, a task that has ended shows exactly what it ended with. */
  lemma {:induction false} EndedTaskStays(states: seq<State>, events: seq<Event>, i: nat, id: string)
    requires Run(states, events) && i <= |events| && forall j :: i <= j <= |events| ==> id in states[j].tasks
    requires Terminal(states[i].tasks[id])
    ensures states[|events|].tasks[id] == states[i].tasks[id]
  {
    if i < |events| {
      var n := |events| - 1;
      var sub := states[..n + 1];
      assert forall j :: i <= j <= n ==> id in sub[j].tasks;
      EndedTaskStays(sub, events[..n], i, id);
      TaskMovesForward(states[n], events[n], states[n + 1], id);
    }
  }

  lemma {:induction false} LastIsNeverForgotten(states: seq<State>, events: seq<Event>, i: nat, name: string)
    requires Run(states, events) && i <= |events| && name in states[i].last
    ensures name in states[|events|].last
  {
    if i < |events| {
      var n := |events| - 1;
      LastIsNeverForgotten(states[..n + 1], events[..n], i, name);
      assert Next(states[n], events[n], states[n + 1]);
    }
  }

  /** Once a task of a named workspace has ended, asking for the current task of that name always
      has an answer, evicted or not. */
  lemma CurrentAnswersOnceEnded(states: seq<State>, events: seq<Event>, i: nat, id: string)
    requires Run(states, events) && i <= |events|
    requires id in states[i].tasks && Terminal(states[i].tasks[id]) && states[i].tasks[id].workspaceName != ""
    ensures states[i].tasks[id].workspaceName in states[|events|].last
  {
    RunKeepsInv(states[..i + 1], events[..i]);
    LastIsNeverForgotten(states, events, i, states[i].tasks[id].workspaceName);
  }

  lemma {:induction false} IdentityStays(states: seq<State>, events: seq<Event>, i: nat, id: string)
    requires Run(states, events) && i <= |events| && forall j :: i <= j <= |events| ==> id in states[j].tasks
    ensures SameIdentity(states[i].tasks[id], states[|events|].tasks[id])
    ensures Rank(states[i].tasks[id].state) <= Rank(states[|events|].tasks[id].state)
  {
    if i < |events| {
      var n := |events| - 1;
      var sub := states[..n + 1];
      assert forall j :: i <= j <= n ==> id in sub[j].tasks;
      IdentityStays(sub, events[..n], i, id);
      NextKeepsTask(states[n], events[n], states[n + 1], id);
    }
  }

  lemma NextKeepsTask(m: State, e: Event, m': State, id: string)
    requires Next(m, e, m') && id in m.tasks && id in m'.tasks
    ensures SameIdentity(m.tasks[id], m'.tasks[id]) && Rank(m.tasks[id].state) <= Rank(m'.tasks[id].state)
  {
    TaskMovesForward(m, e, m', id);
    if e.Ticked? {
      AdvanceKeepsIdentity(m.tasks[id], e.s);
    }
  }

  /** A task that waits is started by the first tick that finds its workspace bound and connected, and
      never waits again. */
  lemma {:induction false} WaitsNoLonger(states: seq<State>, events: seq<Event>, i: nat, j: nat, id: string)
    requires Run(states, events) && i <= j < |events| && forall k :: i <= k <= |events| ==> id in states[k].tasks
    requires events[j].Ticked? && events[j].s.connected
    requires events[j].s.boundWorkspaceID == states[i].tasks[id].workspaceID
    ensures !states[|events|].tasks[id].state.Pending?
    ensures states[j].tasks[id].state.Pending? ==>
      states[j + 1].tasks[id] == states[j].tasks[id].(state := Running, startedAt := events[j].s.now)
  {
    var before, after := states[j], states[j + 1];
    assert Next(before, events[j], after);
    IdentityStays(states[..j + 1], events[..j], i, id);
    if before.tasks[id].state.Pending? {
      PendingStarts(before.tasks[id], events[j].s);
    }
    NextKeepsTask(before, events[j], after, id);
    IdentityStays(states, events, j + 1, id);
  }

  ghost predicate BytesSane(m: State) {
    forall id :: id in m.tasks ==> m.tasks[id].bytesDone <= m.tasks[id].bytesTotal
  }

  lemma AdvanceKeepsBytes(t: Task, s: Snapshot)
    requires Sane(s) && t.bytesDone <= t.bytesTotal
    ensures var t' := Advance(t, s);
            t.bytesDone <= t'.bytesDone <= t'.bytesTotal && t.bytesTotal <= t'.bytesTotal
  {
  }

  /** Over any run fed with sane snapshots no task ever shows more done than its total, and the
      bytes it shows never go back, even at the jump on closing. */
  lemma {:induction false} BytesNeverRegress(states: seq<State>, events: seq<Event>, i: nat, id: string)
    requires Run(states, events) && i <= |events| && forall e :: e in events ==> e.Ticked? ==> Sane(e.s)
    ensures BytesSane(states[|events|])
    ensures (forall j :: i <= j <= |events| ==> id in states[j].tasks) ==>
              states[i].tasks[id].bytesDone <= states[|events|].tasks[id].bytesDone
  {
    if events != [] {
      var n := |events| - 1;
      var m, e, m' := states[n], events[n], states[n + 1];
      assert e in events && Next(m, e, m');
      BytesNeverRegress(states[..n + 1], events[..n], if i <= n then i else n, id);
      if e.Ticked? {
        forall j | j in m'.tasks ensures m.tasks[j].bytesDone <= m'.tasks[j].bytesDone <= m'.tasks[j].bytesTotal {
          AdvanceKeepsBytes(m.tasks[j], e.s);
        }
      }
      if i <= n && forall j :: i <= j <= |events| ==> id in states[j].tasks {
        var sub := states[..n + 1];
        assert forall j :: i <= j <= n ==> id in sub[j].tasks;
      }
    }
  }

  /** Every count that a running, connected task was ever shown is reached, and stays reached. */
  lemma CountsAreReached(states: seq<State>, events: seq<Event>, i: nat, id: string)
    requires Run(states, events) && i < |events| && forall j :: i <= j <= |events| ==> id in states[j].tasks
    requires events[i].Ticked? && events[i].s.connected && forall e :: e in events ==> e.Ticked? ==> Sane(e.s)
    requires var t := states[i].tasks[id];
             t.state.Running? && t.workspaceID == events[i].s.boundWorkspaceID
    ensures states[|events|].tasks[id].bytesDone >= DoneFor(states[i].tasks[id], events[i].s)
  {
    var t, s := states[i].tasks[id], events[i].s;
    assert Next(states[i], events[i], states[i + 1]) && events[i] in events;
    RunningShowsProgress(t, s);
    BytesNeverRegress(states, events, i + 1, id);
  }

  /** A download from a peer that has files succeeds only after something was committed to disk since
      the task started running. */
  lemma DownloadNeedsInbound(m: State, e: Event, m': State, id: string)
    requires Next(m, e, m') && id in m.tasks && id in m'.tasks && m.tasks[id].direction.Download?
    requires !m.tasks[id].state.Succeeded? && m'.tasks[id].state.Succeeded?
    ensures e.Ticked? && m.tasks[id].state.Running?
    ensures e.s.peerManifestFiles > 0 ==> e.s.lastActivityAt > m.tasks[id].startedAt
  {
  }

  // ---- the manager ------------------------------------------------------------------------

  predicate Preferred(a: Task, b: Task) {
    if Terminal(a) != Terminal(b) then !Terminal(a) else a.startedAt > b.startedAt
  }

  class SyncTaskManager {
    var tasks: map<string, Task>
    var last: map<string, Task>

    constructor ()
      ensures View() == State(map[], map[])
    {
      tasks, last := map[], map[];
    }

    function View(): State
      reads this
    {
      State(tasks, last)
    }

    method Create(ws: string, name: string, d: Direction, initiator: string, newID: string, now: int)
      returns (task: Option<Task>, created: bool)
      requires newID !in tasks
      modifies this
      ensures Next(old(View()), Created(newID, ws, name, d, initiator, now), View())
      ensures task.None? <==> ws == "" || d.Unknown?
      ensures created <==>
        ws != "" && !d.Unknown? && forall id :: id in old(tasks) ==> !UnderWay(old(tasks)[id], ws, name, d)
      ensures created ==>
        && View() != old(View()) && newID in tasks && task == Some(tasks[newID])
        && tasks[newID] == Task(newID, ws, name, d, Pending, 0, 0, "", now, 0, initiator, 0)
      ensures !created && task.Some? ==>
        View() == old(View()) &&
        (exists id :: id in tasks && tasks[id] == task.value && Conflicts(task.value, ws, name, d))
    {
      if ws == "" || d.Unknown? {
        return None, false;
      }
      var todo := tasks.Keys;
      while todo != {}
        invariant todo <= tasks.Keys && View() == old(View())
        invariant forall id :: id in tasks && id !in todo ==> !Conflicts(tasks[id], ws, name, d)
        decreases todo
      {
        var id :| id in todo;
        todo := todo - {id};
        if Conflicts(tasks[id], ws, name, d) {
          return Some(tasks[id]), false;
        }
      }
      var t := Task(newID, ws, name, d, Pending, 0, 0, "", now, 0, initiator, 0);
      tasks := tasks[newID := t];
      return Some(t), true;
    }

    method Cancel(id: string, reason: string, now: int) returns (r: Option<Task>)
      modifies this
      ensures Next(old(View()), CancelledTask(id, reason, now), View())
      ensures r == if id in tasks then Some(tasks[id]) else None
      ensures id in old(tasks) ==>
        var t := old(tasks)[id];
        id in tasks && tasks[id] == if Terminal(t) then t
                                    else t.(state := Cancelled, finishedAt := now,
                                            error := if reason != "" then reason else t.error)
    {
      if id !in tasks {
        return None;
      }
      if !Terminal(tasks[id]) {
        var t := CancelledForm(tasks[id], reason, now);
        tasks, last := tasks[id := t], Remember(last, t);
      }
      r := Some(tasks[id]);
    }

    /** Advances every task, remembers those that end, and evicts those that ended long ago. */
    method Tick(s: Snapshot)
      modifies this
      ensures Next(old(View()), Ticked(s), View())
      ensures TasksTicked(old(tasks), s, tasks)
    {
      ghost var was := View();
      var todo := tasks.Keys;
      PartTickedStart(was, s);
      while todo != {}
        invariant todo <= was.tasks.Keys && PartTicked(was, todo, s, View())
        decreases todo
      {
        var id :| id in todo;
        var t := Advance(tasks[id], s);
        PartTickedStep(was, todo, s, View(), id);
        todo := todo - {id};
        if !Terminal(tasks[id]) && Terminal(t) {
          last := Remember(last, t);
        }
        tasks := tasks[id := t];
      }
      ghost var advanced := View();
      EvictExpired(s.now);
      PartTickedEnd(was, s, advanced, View());
      TickTells(was, s, View());
    }

    method EvictExpired(now: int)
      modifies this`tasks
      ensures tasks == map id | id in old(tasks) && !Expired(old(tasks)[id], now) :: old(tasks)[id]
      ensures forall id :: id in tasks <==> id in old(tasks) && !LongOver(old(tasks)[id], now)
    {
      ghost var was := tasks;
      var todo := tasks.Keys;
      while todo != {}
        invariant todo <= was.Keys
        invariant tasks == map id | id in was && (id in todo || !Expired(was[id], now)) :: was[id]
        decreases todo
      {
        var id :| id in todo;
        todo := todo - {id};
        if Expired(tasks[id], now) {
          tasks := tasks - {id};
        }
      }
    }

    /** An active task of that name if there is one, otherwise a terminal one, the latest started
        first; otherwise what is remembered. */
    method Current(name: string) returns (r: Option<Task>)
      ensures r.Some? <==> name != "" && (name in last || exists id :: id in tasks && tasks[id].workspaceName == name)
      ensures forall id :: name != "" && id in tasks && tasks[id].workspaceName == name ==>
        && r.Some? && r.value in tasks.Values && r.value.workspaceName == name
        && (tasks[id].state in {Pending, Running} ==> r.value.state in {Pending, Running})
        && (Terminal(tasks[id]) == Terminal(r.value) ==> tasks[id].startedAt <= r.value.startedAt)
      ensures r.Some? && (forall id :: id in tasks ==> tasks[id].workspaceName != name) ==> r.value == last[name]
    {
      r := None;
      if name == "" {
        return;
      }
      var todo := tasks.Keys;
      while todo != {}
        invariant todo <= tasks.Keys
        invariant r.Some? <==> exists id :: id in tasks && id !in todo && tasks[id].workspaceName == name
        invariant r.Some? ==> r.value in tasks.Values && r.value.workspaceName == name
        invariant r.Some? ==>
          forall id :: id in tasks && id !in todo && tasks[id].workspaceName == name ==> !Preferred(tasks[id], r.value)
        decreases todo
      {
        var id :| id in todo;
        todo := todo - {id};
        if tasks[id].workspaceName == name && (r.None? || Preferred(tasks[id], r.value)) {
          r := Some(tasks[id]);
        }
      }
      if r.None? && name in last {
        r := Some(last[name]);
      }
    }
  }

  lemma RememberOne(was: map<string, Task>, last: map<string, Task>, ended: set<Task>, t: Task)
    requires Remembered(was, last, ended)
    ensures Remembered(was, Remember(last, t), ended + {t})
  {
  }
}
