// components/ws_server/ws_server.cpp: the WebSocket client table and the serialised
// sender.  Any number of tasks broadcast, reply, register and drop clients; both
// mutexes and the in-broadcast marker are explicit, and a frame is written as two
// separate parts.
module WsServer {
  import opened Common

  const MAX_CLIENTS: nat := 3

  type Fd = nat
  type TaskId = nat

  datatype Client = Client(fd: Fd, authed: bool)

  // ── The table, as functions ──────────────────────────────────────────────

  function IndexOf(tab: seq<Client>, fd: Fd): (r: Option<nat>)
    ensures r.Some? ==> r.value < |tab| && tab[r.value].fd == fd
    ensures r.Some? ==> forall i :: 0 <= i < r.value ==> tab[i].fd != fd
    ensures r.None? ==> forall i :: 0 <= i < |tab| ==> tab[i].fd != fd
  {
    if tab == [] then None
    else
      var r := IndexOf(tab[..|tab| - 1], fd);
      if r.Some? then r
      else if tab[|tab| - 1].fd == fd then Some(|tab| - 1) else None
  }

  predicate Present(tab: seq<Client>, fd: Fd) {
    IndexOf(tab, fd).Some?
  }

  // add_fd: a repeat call overwrites the sign-in state; a full table refuses.
  function TabAdd(tab: seq<Client>, fd: Fd, authed: bool): seq<Client> {
    match IndexOf(tab, fd)
    case Some(i) => tab[i := Client(fd, authed)]
    case None => if |tab| < MAX_CLIENTS then tab + [Client(fd, authed)] else tab
  }

  // remove_fd_quiet: the last entry takes the freed place.
  function TabRemove(tab: seq<Client>, fd: Fd): seq<Client> {
    match IndexOf(tab, fd)
    case Some(i) => tab[i := tab[|tab| - 1]][..|tab| - 1]
    case None => tab
  }

  // fd_may_receive: registered, and signed in when sign-in is on.
  function MayReceive(tab: seq<Client>, fd: Fd, authOn: bool): bool {
    match IndexOf(tab, fd)
    case Some(i) => !authOn || tab[i].authed
    case None => false
  }

  function TabSetAuthed(tab: seq<Client>, fd: Fd): seq<Client> {
    match IndexOf(tab, fd)
    case Some(i) => tab[i := Client(fd, true)]
    case None => tab
  }

  function TabDeauthAll(tab: seq<Client>): (r: seq<Client>)
    ensures |r| == |tab| && forall i :: 0 <= i < |r| ==> r[i] == Client(tab[i].fd, false)
  {
    seq(|tab|, i requires 0 <= i < |tab| => Client(tab[i].fd, false))
  }

  ghost predicate TabOk(tab: seq<Client>) {
    |tab| <= MAX_CLIENTS && forall i, j :: 0 <= i < j < |tab| ==> tab[i].fd != tab[j].fd
  }

  // ── The system ───────────────────────────────────────────────────────────

  datatype TableOp =
    | Add(fd: Fd, authed: bool)      // adopt_client
    | Ensure(fd: Fd, authed: bool)   // ensure_fd
    | Remove(fd: Fd)                 // remove_fd, from the close callback or a failed receive
    | SetAuthed(fd: Fd)
    | DeauthAll

  // What one call of send_locked has to do.  `recheck` is set for broadcasts.
  datatype Job = Job(fds: seq<Fd>, recheck: bool)

  // One failed fd: was it this call that removed it, and by which event of the log.
  datatype Failure = Failure(fd: Fd, removal: Option<nat>)

  datatype Pc =
    | Idle
    | TabWant(op: TableOp)
    | TabIn(op: TableOp)
    | AdoptClosing(fd: Fd)
    // ws_server_broadcast before send_locked
    | SnapWant(authReq: bool)
    | SnapIn(authReq: bool)
    | Filtering(authReq: bool, todo: seq<Client>, fds: seq<Fd>)
    | FilterWant(authReq: bool, todo: seq<Client>, fds: seq<Fd>)
    | FilterIn(authReq: bool, todo: seq<Client>, fds: seq<Fd>)
    // send_locked
    | TxWant(job: Job)
    | TxTaken(job: Job)
    | Loop(job: Job, i: nat, failed: seq<Failure>)
    | CheckWant(job: Job, i: nat, failed: seq<Failure>)
    | CheckIn(job: Job, i: nat, failed: seq<Failure>)
    | Sending(job: Job, i: nat, failed: seq<Failure>, id: nat, headerDone: bool)
    | EvictWant(job: Job, i: nat, failed: seq<Failure>)
    | EvictIn(job: Job, i: nat, failed: seq<Failure>)
    | TxEnding(failed: seq<Failure>)
    | Closing(failed: seq<Failure>)
    | Stuck   // a task that would wait for a mutex it already holds

  // The two send() calls of one frame.
  datatype Part = Header(id: nat) | Body(id: nat)

  datatype Event =
    | Added(fd: Fd)
    | Removed(fd: Fd, sender: Option<TaskId>)   // sender: the send_locked call that evicted it, if one did
    | Checked(t: TaskId, fd: Fd)
    | Sent(t: TaskId, fd: Fd, broadcast: bool, ok: bool)
    | TxGiven(t: TaskId)
    | CloseRequested(t: TaskId, fd: Fd, removal: nat)   // by send_locked, of task t

  datatype State = State(
    mtx: Option<TaskId>,
    tx: Option<TaskId>,
    marker: Option<TaskId>,       // s_broadcast_task
    table: seq<Client>,
    authOn: bool,
    pcs: map<TaskId, Pc>,
    wire: map<Fd, seq<Part>>,
    nextId: nat,
    log: seq<Event>)

  function PcOf(s: State, t: TaskId): Pc {
    if t in s.pcs then s.pcs[t] else Idle
  }

  function WireOf(s: State, fd: Fd): seq<Part> {
    if fd in s.wire then s.wire[fd] else []
  }

  function Init(): State {
    State(None, None, None, [], false, map[], map[], 0, [])
  }

  datatype Label =
    | StartTable(t: TaskId, op: TableOp)
    | StartBroadcast(t: TaskId)
    | StartReply(t: TaskId, fd: Fd)
    | SetToken(on: bool)
    | LogInSend(t: TaskId)              // a line logged from inside the send path
    | Lock(t: TaskId)                   // take s_mutex
    | Table(t: TaskId)                  // the critical section of s_mutex
    | AdoptClose(t: TaskId)
    | Filter(t: TaskId, live: bool)
    | LockTx(t: TaskId)
    | Mark(t: TaskId)
    | LoopHead(t: TaskId)
    | Write(t: TaskId, ok: bool)
    | GiveTx(t: TaskId)
    | Close(t: TaskId)

  predicate WantsM(pc: Pc) {
    pc.TabWant? || pc.SnapWant? || pc.FilterWant? || pc.CheckWant? || pc.EvictWant?
  }

  predicate HoldsM(pc: Pc) {
    pc.TabIn? || pc.SnapIn? || pc.FilterIn? || pc.CheckIn? || pc.EvictIn?
  }

  // Between the two marker stores.
  predicate Marked(pc: Pc) {
    pc.Loop? || pc.CheckWant? || pc.CheckIn? || pc.Sending? || pc.EvictWant? || pc.EvictIn?
  }

  predicate HoldsTx(pc: Pc) {
    pc.TxTaken? || pc.TxEnding? || Marked(pc)
  }

  predicate Enabled(s: State, l: Label) {
    match l
    case StartTable(t, _) => PcOf(s, t).Idle?
    case StartBroadcast(t) => PcOf(s, t).Idle?
    case StartReply(t, _) => PcOf(s, t).Idle?
    case SetToken(_) => true
    case LogInSend(t) => PcOf(s, t).Sending?
    case Lock(t) => WantsM(PcOf(s, t)) && s.mtx.None?
    case Table(t) => HoldsM(PcOf(s, t))
    case AdoptClose(t) => PcOf(s, t).AdoptClosing?
    case Filter(t, _) => PcOf(s, t).Filtering?
    case LockTx(t) => PcOf(s, t).TxWant? && s.tx.None?
    case Mark(t) => PcOf(s, t).TxTaken?
    case LoopHead(t) => PcOf(s, t).Loop?
    case Write(t, _) => PcOf(s, t).Sending?
    case GiveTx(t) => PcOf(s, t).TxEnding?
    case Close(t) => PcOf(s, t).Closing?
  }

  function Go(s: State, t: TaskId, pc: Pc): State {
    s.(pcs := s.pcs[t := pc])
  }

  function Locked(pc: Pc): Pc
    requires WantsM(pc)
  {
    match pc
    case TabWant(op) => TabIn(op)
    case SnapWant(a) => SnapIn(a)
    case FilterWant(a, todo, fds) => FilterIn(a, todo, fds)
    case CheckWant(job, i, failed) => CheckIn(job, i, failed)
    case EvictWant(job, i, failed) => EvictIn(job, i, failed)
  }

  // The fd the send loop is at.
  function Cur(job: Job, i: nat): Fd {
    if i < |job.fds| then job.fds[i] else 0
  }

  // Take an fd out of the table; a removal is an event.
  function RemoveFd(s: State, fd: Fd, sender: Option<TaskId>): State {
    s.(table := TabRemove(s.table, fd), log := if Present(s.table, fd) then s.log + [Removed(fd, sender)] else s.log)
  }

  // The table operations, each one critical section of s_mutex.
  function DoTabOp(s: State, t: TaskId): State
    requires PcOf(s, t).TabIn?
  {
    var u := s.(mtx := None);
    match PcOf(s, t).op
    case Add(fd, authed) =>
      var full := !Present(s.table, fd) && |s.table| >= MAX_CLIENTS;
      Go(u, t, if full then AdoptClosing(fd) else Idle).(
        table := TabAdd(s.table, fd, authed),
        log := if !Present(s.table, fd) && !full then s.log + [Added(fd)] else s.log)
    case Ensure(fd, authed) =>
      Go(u, t, if Present(s.table, fd) then Idle else TabWant(Add(fd, authed)))
    case Remove(fd) => Go(RemoveFd(u, fd, None), t, Idle)
    case SetAuthed(fd) => Go(u, t, Idle).(table := TabSetAuthed(s.table, fd))
    case DeauthAll => Go(u, t, Idle).(table := TabDeauthAll(s.table))
  }

  function DoFilterRemove(s: State, t: TaskId): State
    requires PcOf(s, t).FilterIn?
  {
    var pc, u := PcOf(s, t), s.(mtx := None);
    if pc.todo == [] then Go(u, t, Filtering(pc.authReq, pc.todo, pc.fds))
    else Go(RemoveFd(u, pc.todo[0].fd, None), t, Filtering(pc.authReq, pc.todo[1..], pc.fds))
  }

  // The re-check of a broadcast, inside the TX section.
  function DoCheck(s: State, t: TaskId): State
    requires PcOf(s, t).CheckIn?
  {
    var pc, u := PcOf(s, t), s.(mtx := None);
    if MayReceive(s.table, Cur(pc.job, pc.i), s.authOn)
    then Go(u, t, Sending(pc.job, pc.i, pc.failed, s.nextId, false)).(
           nextId := s.nextId + 1, log := s.log + [Checked(t, Cur(pc.job, pc.i))])
    else Go(u, t, Loop(pc.job, pc.i + 1, pc.failed))
  }

  // The eviction of a failed fd, inside the TX section.
  function DoEvict(s: State, t: TaskId): State
    requires PcOf(s, t).EvictIn?
  {
    var pc, u := PcOf(s, t), s.(mtx := None);
    var fd := Cur(pc.job, pc.i);
    var mine := if Present(s.table, fd) then Some(|s.log|) else None;
    Go(RemoveFd(u, fd, Some(t)), t, Loop(pc.job, pc.i + 1, pc.failed + [Failure(fd, mine)]))
  }

  function DoTable(s: State, t: TaskId): State
    requires HoldsM(PcOf(s, t))
  {
    match PcOf(s, t)
    case TabIn(_) => DoTabOp(s, t)
    case SnapIn(a) => Go(s, t, Filtering(a, s.table, [])).(mtx := None)
    case FilterIn(_, _, _) => DoFilterRemove(s, t)
    case CheckIn(_, _, _) => DoCheck(s, t)
    case EvictIn(_, _, _) => DoEvict(s, t)
  }

  // One entry of the snapshot: a dead session is removed, a client that has not
  // signed in is skipped.
  function DoFilter(s: State, t: TaskId, live: bool): State
    requires PcOf(s, t).Filtering?
  {
    var pc := PcOf(s, t);
    if pc.todo == [] then Go(s, t, if pc.fds == [] then Idle else TxWant(Job(pc.fds, true)))
    else if !live then Go(s, t, FilterWant(pc.authReq, pc.todo, pc.fds))
    else if pc.authReq && !pc.todo[0].authed then Go(s, t, Filtering(pc.authReq, pc.todo[1..], pc.fds))
    else Go(s, t, Filtering(pc.authReq, pc.todo[1..], pc.fds + [pc.todo[0].fd]))
  }

  function DoLoopHead(s: State, t: TaskId): State
    requires PcOf(s, t).Loop?
  {
    var pc := PcOf(s, t);
    if pc.i >= |pc.job.fds| then Go(s, t, TxEnding(pc.failed)).(marker := None)
    else if pc.job.recheck then Go(s, t, CheckWant(pc.job, pc.i, pc.failed))
    else Go(s, t, Sending(pc.job, pc.i, pc.failed, s.nextId, false)).(nextId := s.nextId + 1)
  }

  // httpd_ws_send_frame_async: header, then payload; either send() may fail.
  function DoWrite(s: State, t: TaskId, ok: bool): State
    requires PcOf(s, t).Sending?
  {
    var pc := PcOf(s, t);
    var fd := Cur(pc.job, pc.i);
    if !ok then
      Go(s, t, EvictWant(pc.job, pc.i, pc.failed)).(log := s.log + [Sent(t, fd, pc.job.recheck, false)])
    else if !pc.headerDone then
      Go(s, t, pc.(headerDone := true)).(wire := s.wire[fd := WireOf(s, fd) + [Header(pc.id)]])
    else
      Go(s, t, Loop(pc.job, pc.i + 1, pc.failed)).(
        wire := s.wire[fd := WireOf(s, fd) + [Body(pc.id)]],
        log := s.log + [Sent(t, fd, pc.job.recheck, true)])
  }

  function DoClose(s: State, t: TaskId): State
    requires PcOf(s, t).Closing?
  {
    var f := PcOf(s, t).failed;
    if f == [] then Go(s, t, Idle)
    else Go(s, t, Closing(f[1..])).(
      log := if f[0].removal.Some? then s.log + [CloseRequested(t, f[0].fd, f[0].removal.value)] else s.log)
  }

  function Apply(s: State, l: Label): State
    requires Enabled(s, l)
  {
    match l
    case StartTable(t, op) => Go(s, t, TabWant(op))
    case StartBroadcast(t) => if s.marker == Some(t) then s else Go(s, t, SnapWant(s.authOn))
    case StartReply(t, fd) => Go(s, t, TxWant(Job([fd], false)))
    case SetToken(on) => s.(authOn := on)
    // the log sink broadcasts: with the marker set the call returns at once, without
    // it the task would wait for the TX mutex it holds
    case LogInSend(t) => if s.marker == Some(t) then s else Go(s, t, Stuck)
    case Lock(t) => Go(s, t, Locked(PcOf(s, t))).(mtx := Some(t))
    case Table(t) => DoTable(s, t)
    case AdoptClose(t) => Go(s, t, Idle)
    case Filter(t, live) => DoFilter(s, t, live)
    case LockTx(t) => Go(s, t, TxTaken(PcOf(s, t).job)).(tx := Some(t))
    case Mark(t) => Go(s, t, Loop(PcOf(s, t).job, 0, [])).(marker := Some(t))
    case LoopHead(t) => DoLoopHead(s, t)
    case Write(t, ok) => DoWrite(s, t, ok)
    case GiveTx(t) => Go(s, t, Closing(PcOf(s, t).failed)).(tx := None, log := s.log + [TxGiven(t)])
    case Close(t) => DoClose(s, t)
  }

  ghost function Exec(ls: seq<Label>): Option<State> {
    if ls == [] then Some(Init())
    else
      match Exec(ls[..|ls| - 1])
      case None => None
      case Some(s) => if Enabled(s, ls[|ls| - 1]) then Some(Apply(s, ls[|ls| - 1])) else None
  }

  // ── Invariants: locks ────────────────────────────────────────────────────

  ghost predicate TaskLocks(s: State, t: TaskId) {
    && (HoldsM(PcOf(s, t)) <==> s.mtx == Some(t))
    && (HoldsTx(PcOf(s, t)) <==> s.tx == Some(t))
    && (Marked(PcOf(s, t)) <==> s.marker == Some(t))
    && !PcOf(s, t).Stuck?
  }

  ghost predicate LockInv(s: State) {
    forall t: TaskId :: TaskLocks(s, t)
  }

  // ── Invariants: what a task is working on ────────────────────────────────

  ghost predicate JobOk(job: Job) {
    |job.fds| <= MAX_CLIENTS && Distinct(job.fds)
  }

  ghost predicate TodoOk(todo: seq<Client>, fds: seq<Fd>) {
    && |todo| + |fds| <= MAX_CLIENTS && Distinct(fds)
    && (forall i, j :: 0 <= i < j < |todo| ==> todo[i].fd != todo[j].fd)
    && (forall i, j :: 0 <= i < |todo| && 0 <= j < |fds| ==> todo[i].fd != fds[j])
  }

  predicate InLoop(pc: Pc) {
    pc.CheckWant? || pc.CheckIn? || pc.Sending? || pc.EvictWant? || pc.EvictIn?
  }

  ghost predicate ShapeOk(pc: Pc) {
    && (pc.Filtering? || pc.FilterWant? || pc.FilterIn? ==> TodoOk(pc.todo, pc.fds))
    && (pc.FilterWant? || pc.FilterIn? ==> pc.todo != [])
    && (pc.TxWant? || pc.TxTaken? || pc.Loop? || InLoop(pc) ==> JobOk(pc.job))
    && (pc.Loop? ==> pc.i <= |pc.job.fds| && |pc.failed| <= pc.i)
    && (InLoop(pc) ==> pc.i < |pc.job.fds| && |pc.failed| <= pc.i)
    && (pc.CheckWant? || pc.CheckIn? ==> pc.job.recheck)
  }

  ghost predicate ShapeInv(s: State) {
    TabOk(s.table) && forall t: TaskId :: ShapeOk(PcOf(s, t))
  }

  // ── Invariants: the wire ─────────────────────────────────────────────────

  // A payload part directly follows the header of its own frame.
  ghost predicate Paired(w: seq<Part>) {
    forall k :: 0 <= k < |w| && w[k].Body? ==> k > 0 && w[k - 1] == Header(w[k].id)
  }

  // A task between header and payload finds its header last on the wire.
  ghost predicate TaskWire(s: State, t: TaskId) {
    var pc := PcOf(s, t);
    pc.Sending? && pc.headerDone ==>
      var w := WireOf(s, Cur(pc.job, pc.i));
      w != [] && w[|w| - 1] == Header(pc.id)
  }

  ghost predicate WireInv(s: State) {
    && (forall fd: Fd :: Paired(WireOf(s, fd)))
    && (forall t: TaskId :: TaskWire(s, t))
  }

  // ── Invariants: the event log ────────────────────────────────────────────

  // Is fd in the table, according to the log?
  ghost function Registered(log: seq<Event>, fd: Fd): bool {
    if log == [] then false
    else
      match log[|log| - 1]
      case Added(f) => f == fd || Registered(log[..|log| - 1], fd)
      case Removed(f, _) => f != fd && Registered(log[..|log| - 1], fd)
      case _ => Registered(log[..|log| - 1], fd)
  }

  // No send to fd has failed since fd was last added.
  ghost function Clean(log: seq<Event>, fd: Fd): bool {
    if log == [] then true
    else
      match log[|log| - 1]
      case Added(f) => f == fd || Clean(log[..|log| - 1], fd)
      case Sent(_, f, _, ok) => !(f == fd && !ok) && Clean(log[..|log| - 1], fd)
      case _ => Clean(log[..|log| - 1], fd)
  }

  // Task t has found fd registered and signed in since it took the TX mutex.
  ghost function CheckedInSection(log: seq<Event>, t: TaskId, fd: Fd): bool {
    if log == [] then false
    else
      match log[|log| - 1]
      case Checked(u, f) => (u == t && f == fd) || CheckedInSection(log[..|log| - 1], t, fd)
      case TxGiven(u) => u != t && CheckedInSection(log[..|log| - 1], t, fd)
      case _ => CheckedInSection(log[..|log| - 1], t, fd)
  }

  // No close has been requested for the removal at index r.
  ghost predicate NotClosed(log: seq<Event>, r: nat) {
    forall k :: 0 <= k < |log| && log[k].CloseRequested? ==> log[k].removal != r
  }

  // Event e may come after log.
  ghost predicate MayFollow(log: seq<Event>, e: Event) {
    match e
    case Added(fd) => !Registered(log, fd)
    case Removed(fd, _) => Registered(log, fd)
    case Checked(_, fd) => Registered(log, fd)
    case Sent(t, fd, broadcast, _) => broadcast ==> Clean(log, fd) && CheckedInSection(log, t, fd)
    case CloseRequested(t, fd, r) =>
      r < |log| && log[r] == Removed(fd, Some(t)) && NotClosed(log, r)
    case _ => true
  }

  ghost predicate AllOk(log: seq<Event>) {
    forall k {:trigger MayFollow(log[..k], log[k])} :: 0 <= k < |log| ==> MayFollow(log[..k], log[k])
  }

  ghost predicate TableLog(s: State) {
    && (forall fd: Fd :: Registered(s.log, fd) <==> Present(s.table, fd))
    && (forall fd: Fd :: Present(s.table, fd) && !Clean(s.log, fd) ==> Evicting(s, fd))
  }

  // The holder of the TX mutex is about to take fd out of the table.
  ghost predicate Evicting(s: State, fd: Fd) {
    s.tx.Some? && var pc := PcOf(s, s.tx.value); (pc.EvictWant? || pc.EvictIn?) && Cur(pc.job, pc.i) == fd
  }

  function FailedOf(pc: Pc): seq<Failure> {
    if pc.Loop? || InLoop(pc) || pc.TxEnding? || pc.Closing? then pc.failed else []
  }

  // Each own removal in the list is an event of this task, in order, not closed yet.
  ghost predicate FailedOk(log: seq<Event>, t: TaskId, fs: seq<Failure>) {
    && (forall j :: 0 <= j < |fs| && fs[j].removal.Some? ==>
          var r := fs[j].removal.value;
          r < |log| && log[r] == Removed(fs[j].fd, Some(t)) && NotClosed(log, r))
    && (forall i, j :: 0 <= i < j < |fs| && fs[i].removal.Some? && fs[j].removal.Some? ==>
          fs[i].removal.value < fs[j].removal.value)
  }

  // The list still holds the removal at index r.
  ghost predicate Awaits(fs: seq<Failure>, r: nat) {
    exists j :: 0 <= j < |fs| && fs[j].removal == Some(r)
  }

  // No removal by this task is forgotten: it is closed, or in the list to be closed.
  ghost predicate NoneForgotten(log: seq<Event>, t: TaskId, fs: seq<Failure>) {
    forall r: nat :: r < |log| && log[r].Removed? && log[r].sender == Some(t) && NotClosed(log, r) ==> Awaits(fs, r)
  }

  ghost predicate TaskLog(s: State, t: TaskId) {
    var pc := PcOf(s, t);
    && FailedOk(s.log, t, FailedOf(pc))
    && NoneForgotten(s.log, t, FailedOf(pc))
    && (pc.Sending? && pc.job.recheck ==>
          Clean(s.log, Cur(pc.job, pc.i)) && CheckedInSection(s.log, t, Cur(pc.job, pc.i)))
  }

  ghost predicate LogInv(s: State) {
    AllOk(s.log) && TableLog(s) && forall t: TaskId :: TaskLog(s, t)
  }

  ghost predicate Inv(s: State) {
    LockInv(s) && ShapeInv(s) && WireInv(s) && LogInv(s)
  }
}
