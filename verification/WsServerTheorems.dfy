// What holds of every run of the WebSocket server: no deadlock, no torn frame, one
// close per registration, nothing sent to a client that failed or may not receive.
module WsServerTheorems {
  import opened Common
  import opened WsServer
  import opened WsServerSafety

  // ── No deadlock ──────────────────────────────────────────────────────────

  // l is a step by which task t gets on with the call it is in.
  predicate Advances(l: Label, t: TaskId) {
    match l
    case Lock(u) => u == t
    case Table(u) => u == t
    case AdoptClose(u) => u == t
    case Filter(u, _) => u == t
    case LockTx(u) => u == t
    case Mark(u) => u == t
    case LoopHead(u) => u == t
    case Write(u, _) => u == t
    case GiveTx(u) => u == t
    case Close(u) => u == t
    case _ => false
  }

  // The step a task takes next, when no mutex is in its way.
  function NextStep(pc: Pc, t: TaskId): Label
    requires !pc.Idle? && !pc.Stuck?
    ensures Advances(NextStep(pc, t), t)
  {
    if WantsM(pc) then Lock(t)
    else if HoldsM(pc) then Table(t)
    else match pc
      case AdoptClosing(_) => AdoptClose(t)
      case Filtering(_, _, _) => Filter(t, true)
      case TxWant(_) => LockTx(t)
      case TxTaken(_) => Mark(t)
      case Loop(_, _, _) => LoopHead(t)
      case Sending(_, _, _, _, _) => Write(t, true)
      case TxEnding(_) => GiveTx(t)
      case Closing(_) => Close(t)
  }

  // Follow the chain of waits: s_mutex first, because its holder waits for nothing;
  // then the TX mutex, whose holder can only wait for s_mutex.
  function Unblocked(s: State, t: TaskId): TaskId {
    if s.mtx.Some? then s.mtx.value else if s.tx.Some? then s.tx.value else t
  }

  lemma NoDeadlock(s: State, t: TaskId)
    requires LockInv(s) && !PcOf(s, t).Idle?
    ensures var u := Unblocked(s, t);
            !PcOf(s, u).Idle? && !PcOf(s, u).Stuck? && Enabled(s, NextStep(PcOf(s, u), u))
  {
    var u := Unblocked(s, t);
    assert TaskLocks(s, t) && TaskLocks(s, u);
  }

  // An upper bound on the steps a task still needs to finish its call.
  function Work(pc: Pc): nat {
    match pc
    case Idle => 0
    case Stuck => 0
    case TabWant(op) => if op.Ensure? then 5 else 3
    case TabIn(op) => if op.Ensure? then 4 else 2
    case AdoptClosing(_) => 1
    case SnapWant(_) => 45
    case SnapIn(_) => 44
    case Filtering(_, todo, fds) => 12 * |todo| + 9 * |fds| + 7
    case FilterWant(_, todo, fds) => 12 * |todo| + 9 * |fds| + 6
    case FilterIn(_, todo, fds) => 12 * |todo| + 9 * |fds| + 5
    case TxWant(job) => 9 * |job.fds| + 6
    case TxTaken(job) => 9 * |job.fds| + 5
    case Loop(job, i, failed) => 9 * Left(job, i) + |failed| + 4
    case CheckWant(job, i, failed) => 9 * Left(job, i) + |failed| + 3
    case CheckIn(job, i, failed) => 9 * Left(job, i) + |failed| + 2
    case Sending(job, i, failed, _, done) => 9 * Left(job, i) + |failed| + if done then 0 else 1
    case EvictWant(job, i, failed) => 9 * Left(job, i) + |failed| - if Left(job, i) > 0 then 1 else 0
    case EvictIn(job, i, failed) => 9 * Left(job, i) + |failed| - if Left(job, i) > 0 then 2 else 0
    case TxEnding(failed) => |failed| + 3
    case Closing(failed) => |failed| + 1
  }

  function Left(job: Job, i: nat): nat {
    if i < |job.fds| then |job.fds| - i else 0
  }

  // The step moves task t, and only it, closer to the end of its call.
  ghost predicate Closer(s: State, s': State, t: TaskId) {
    s'.pcs == s.pcs[t := PcOf(s', t)] && Work(PcOf(s', t)) < Work(PcOf(s, t))
  }

  lemma TabOpCloser(s: State, t: TaskId)
    requires PcOf(s, t).TabIn?
    ensures Closer(s, DoTabOp(s, t), t)
  {
  }

  lemma TableCloser(s: State, t: TaskId)
    requires HoldsM(PcOf(s, t)) && ShapeOk(PcOf(s, t)) && TabOk(s.table)
    ensures Closer(s, DoTable(s, t), t)
  {
    if PcOf(s, t).TabIn? { TabOpCloser(s, t); }
  }

  lemma FilterCloser(s: State, t: TaskId, live: bool)
    requires PcOf(s, t).Filtering?
    ensures Closer(s, DoFilter(s, t, live), t)
  {
  }

  lemma WriteCloser(s: State, t: TaskId, ok: bool)
    requires PcOf(s, t).Sending? && ShapeOk(PcOf(s, t))
    ensures Closer(s, DoWrite(s, t, ok), t)
  {
  }

  lemma LoopCloser(s: State, t: TaskId)
    requires PcOf(s, t).Loop? && ShapeOk(PcOf(s, t))
    ensures Closer(s, DoLoopHead(s, t), t)
  {
  }

  lemma LockCloser(s: State, t: TaskId)
    requires WantsM(PcOf(s, t)) && ShapeOk(PcOf(s, t))
    ensures Closer(s, Go(s, t, Locked(PcOf(s, t))).(mtx := Some(t)), t)
  {
  }

  lemma StepCloser(s: State, l: Label, t: TaskId)
    requires Inv(s) && Enabled(s, l) && Advances(l, t)
    ensures Closer(s, Apply(s, l), t)
  {
    assert ShapeOk(PcOf(s, t));
    match l
    case Table(_) => TableCloser(s, t);
    case Filter(_, live) => FilterCloser(s, t, live);
    case Write(_, ok) => WriteCloser(s, t, ok);
    case LoopHead(_) => LoopCloser(s, t);
    case Lock(_) => LockCloser(s, t);
    case AdoptClose(_) =>
    case LockTx(_) =>
    case Mark(_) =>
    case GiveTx(_) =>
    case Close(_) =>
  }

  // The work of all tasks together.
  ghost function Total(pcs: map<TaskId, Pc>): nat
    decreases |pcs|
  {
    if pcs == map[] then 0
    else
      var t :| t in pcs;
      Work(pcs[t]) + Total(pcs - {t})
  }

  lemma {:induction false} TotalSplit(pcs: map<TaskId, Pc>, t: TaskId)
    requires t in pcs
    ensures Total(pcs) == Work(pcs[t]) + Total(pcs - {t})
    decreases |pcs|
  {
    var u :| u in pcs && Total(pcs) == Work(pcs[u]) + Total(pcs - {u});
    if u != t {
      TotalSplit(pcs - {u}, t);
      TotalSplit(pcs - {t}, u);
      assert pcs - {u} - {t} == pcs - {t} - {u};
    }
  }

  // Every schedule in which calls only advance ends: it is no longer than the work
  // there was at its start, and where it cannot be extended every task is idle.
  ghost predicate Schedule(s: State, ls: seq<Label>, ts: seq<TaskId>, end: State)
    decreases |ls|
  {
    if ls == [] then ts == [] && end == s
    else
      ts != [] && Advances(ls[0], ts[0]) && Enabled(s, ls[0]) && Schedule(Apply(s, ls[0]), ls[1..], ts[1..], end)
  }

  lemma TotalShrinks(s: State, l: Label, t: TaskId)
    requires Inv(s) && Enabled(s, l) && Advances(l, t)
    ensures Total(Apply(s, l).pcs) < Total(s.pcs)
  {
    var s' := Apply(s, l);
    StepCloser(s, l, t);
    TotalSplit(s.pcs, t);
    TotalSplit(s'.pcs, t);
    assert s'.pcs - {t} == s.pcs - {t};
  }

  lemma {:induction false} CallsTerminate(s: State, ls: seq<Label>, ts: seq<TaskId>, end: State)
    requires Inv(s) && Schedule(s, ls, ts, end)
    ensures |ls| + Total(end.pcs) <= Total(s.pcs)
    ensures (forall l, t :: Advances(l, t) ==> !Enabled(end, l)) ==> forall t: TaskId :: PcOf(end, t).Idle?
    decreases |ls|
  {
    if ls == [] {
      forall t: TaskId | !PcOf(end, t).Idle? ensures exists l, u :: Advances(l, u) && Enabled(end, l) {
        NoDeadlock(end, t);
        var u := Unblocked(end, t);
        assert Advances(NextStep(PcOf(end, u), u), u);
      }
    } else {
      StepInv(s, ls[0]);
      TotalShrinks(s, ls[0], ts[0]);
      CallsTerminate(Apply(s, ls[0]), ls[1..], ts[1..], end);
    }
  }

  // The log line inside a send finds the marker set by its own task and returns; no
  // task ever waits for a mutex it holds.
  lemma ReentryTakesNoLock(ls: seq<Label>, t: TaskId)
    requires Exec(ls).Some? && Enabled(Exec(ls).value, LogInSend(t))
    ensures var s := Exec(ls).value; s.marker == Some(t) && Apply(s, LogInSend(t)) == s
  {
    RunInv(ls);
    assert TaskLocks(Exec(ls).value, t);
  }

  // s_mutex is a leaf: its holder's next step is to leave the critical section, and a
  // task asks for the TX mutex only while it holds neither.
  lemma LockOrder(ls: seq<Label>, t: TaskId)
    requires Exec(ls).Some?
    ensures var s := Exec(ls).value;
            && (s.mtx == Some(t) ==> Enabled(s, Table(t)) && Apply(s, Table(t)).mtx.None?)
            && (PcOf(s, t).TxWant? ==> s.mtx != Some(t) && s.tx != Some(t))
            && (WantsM(PcOf(s, t)) ==> s.mtx != Some(t))
  {
    RunInv(ls);
    assert TaskLocks(Exec(ls).value, t);
  }

  // ── No torn frame ────────────────────────────────────────────────────────

  // Whatever runs at the same time, on every socket a payload directly follows the
  // header of its own frame.
  lemma NeverInterleaved(ls: seq<Label>, fd: Fd, k: nat)
    requires Exec(ls).Some? && k < |WireOf(Exec(ls).value, fd)|
    ensures var w := WireOf(Exec(ls).value, fd);
            w[k].Body? ==> k > 0 && w[k - 1] == Header(w[k].id)
  {
    RunInv(ls);
    assert Paired(WireOf(Exec(ls).value, fd));
  }

  // ── Sends ────────────────────────────────────────────────────────────────

  // Found registered and signed in at index m, TX mutex kept ever since.
  ghost predicate CheckedAt(log: seq<Event>, t: TaskId, fd: Fd, m: nat) {
    m < |log| && log[m] == Checked(t, fd) && forall k :: m < k < |log| ==> log[k] != TxGiven(t)
  }

  lemma {:induction false} CheckFound(log: seq<Event>, t: TaskId, fd: Fd)
    requires CheckedInSection(log, t, fd)
    ensures exists m: nat :: CheckedAt(log, t, fd, m)
  {
    var n := |log| - 1;
    if log[n] == Checked(t, fd) {
      assert CheckedAt(log, t, fd, n);
    } else {
      CheckFound(log[..n], t, fd);
      var m: nat :| CheckedAt(log[..n], t, fd, m);
      assert CheckedAt(log, t, fd, m);
    }
  }

  lemma {:induction false} AddedSince(log: seq<Event>, fd: Fd, j: nat)
    requires j < |log| && log[j].Sent? && log[j].fd == fd && !log[j].ok && Clean(log, fd)
    ensures exists m :: j < m < |log| && log[m] == Added(fd)
  {
    var n := |log| - 1;
    if log[n] != Added(fd) {
      AddedSince(log[..n], fd, j);
      var m :| j < m < n && log[..n][m] == Added(fd);
      assert log[m] == Added(fd);
    }
  }

  // While a broadcast is putting a frame on a socket, header or payload, it holds the
  // TX mutex and has, since taking it, found the client registered and signed in; and
  // every earlier failed send to that socket was followed by a new registration.
  lemma BroadcastWritesAreChecked(ls: seq<Label>, t: TaskId)
    requires Exec(ls).Some? && PcOf(Exec(ls).value, t).Sending? && PcOf(Exec(ls).value, t).job.recheck
    ensures var s := Exec(ls).value;
            var fd := Cur(PcOf(s, t).job, PcOf(s, t).i);
            && s.tx == Some(t)
            && (exists m: nat :: CheckedAt(s.log, t, fd, m))
            && forall j :: 0 <= j < |s.log| && s.log[j].Sent? && s.log[j].fd == fd && !s.log[j].ok ==>
                 exists m :: j < m < |s.log| && s.log[m] == Added(fd)
  {
    RunInv(ls);
    var s := Exec(ls).value;
    var fd := Cur(PcOf(s, t).job, PcOf(s, t).i);
    assert TaskLocks(s, t) && TaskLog(s, t);
    CheckFound(s.log, t, fd);
    forall j | 0 <= j < |s.log| && s.log[j].Sent? && s.log[j].fd == fd && !s.log[j].ok
      ensures exists m :: j < m < |s.log| && s.log[m] == Added(fd)
    {
      AddedSince(s.log, fd, j);
    }
  }

  // The same, for every send that is over.
  lemma BroadcastSendsAreChecked(ls: seq<Label>, k: nat)
    requires Exec(ls).Some? && k < |Exec(ls).value.log|
    requires Exec(ls).value.log[k].Sent? && Exec(ls).value.log[k].broadcast
    ensures var log := Exec(ls).value.log;
            && (exists m: nat :: CheckedAt(log[..k], log[k].t, log[k].fd, m))
            && forall j :: 0 <= j < k && log[j].Sent? && log[j].fd == log[k].fd && !log[j].ok ==>
                 exists m :: j < m < k && log[m] == Added(log[k].fd)
  {
    RunInv(ls);
    var log := Exec(ls).value.log;
    assert MayFollow(log[..k], log[k]);
    CheckFound(log[..k], log[k].t, log[k].fd);
    forall j | 0 <= j < k && log[j].Sent? && log[j].fd == log[k].fd && !log[j].ok
      ensures exists m :: j < m < k && log[m] == Added(log[k].fd)
    {
      assert log[..k][j] == log[j];
      AddedSince(log[..k], log[k].fd, j);
      var m :| j < m < k && log[..k][m] == Added(log[k].fd);
      assert log[m] == Added(log[k].fd);
    }
  }

  // A check is logged exactly when the table then lets the client receive.
  lemma CheckMeansMayReceive(s: State, t: TaskId)
    requires PcOf(s, t).CheckIn?
    ensures var fd := Cur(PcOf(s, t).job, PcOf(s, t).i);
            var s' := Apply(s, Table(t));
            && (s'.log == s.log + [Checked(t, fd)] <==> MayReceive(s.table, fd, s.authOn))
            && (PcOf(s', t).Sending? <==> MayReceive(s.table, fd, s.authOn))
            && (!MayReceive(s.table, fd, s.authOn) ==> PcOf(s', t).Loop? && PcOf(s', t).i == PcOf(s, t).i + 1)
  {
    assert |s.log + [Checked(t, Cur(PcOf(s, t).job, PcOf(s, t).i))]| != |s.log|;
  }

  // ── How often the send path logs ─────────────────────────────────────────

  predicate IsAdd(e: Event) {
    e.Added?
  }

  predicate IsRemoval(e: Event) {
    e.Removed?
  }

  // A broadcast's send that failed.
  predicate FailedBroadcast(e: Event) {
    e.Sent? && e.broadcast && !e.ok
  }

  function Count(log: seq<Event>, p: Event -> bool): nat {
    if log == [] then 0 else Count(log[..|log| - 1], p) + if p(log[|log| - 1]) then 1 else 0
  }

  // The fds that were added and have not failed a send since.
  ghost function Unfailed(log: seq<Event>): set<Fd> {
    set k: nat | k < |log| && log[k].Added? && Clean(log, log[k].fd) :: log[k].fd
  }

  lemma {:induction false} CheckedWasAdded(log: seq<Event>, t: TaskId, fd: Fd)
    requires AllOk(log) && CheckedInSection(log, t, fd)
    ensures exists k: nat :: k < |log| && log[k] == Added(fd)
  {
    CheckFound(log, t, fd);
    var m: nat :| CheckedAt(log, t, fd, m);
    assert MayFollow(log[..m], log[m]);
    RegisteredWasAdded(log[..m], fd);
    var k: nat :| k < m && log[..m][k] == Added(fd);
    assert log[k] == Added(fd);
  }

  lemma {:induction false} RegisteredWasAdded(log: seq<Event>, fd: Fd)
    requires Registered(log, fd)
    ensures exists k: nat :: k < |log| && log[k] == Added(fd)
  {
    var n := |log| - 1;
    if log[n] != Added(fd) {
      RegisteredWasAdded(log[..n], fd);
      var k: nat :| k < n && log[..n][k] == Added(fd);
      assert log[k] == Added(fd);
    }
  }

  // A broadcast sends only to such fds.
  lemma UnfailedIs(log: seq<Event>, t: TaskId, fd: Fd)
    requires AllOk(log) && CheckedInSection(log, t, fd) && Clean(log, fd)
    ensures fd in Unfailed(log)
  {
    CheckedWasAdded(log, t, fd);
    var k: nat :| k < |log| && log[k] == Added(fd);
    assert log[k].fd == fd;
  }

  lemma UnfailedNext(log: seq<Event>, e: Event)
    ensures Unfailed(log + [e]) ==
            if e.Added? then Unfailed(log) + {e.fd} else if e.Sent? && !e.ok then Unfailed(log) - {e.fd} else Unfailed(log)
  {
    Appended(log, e);
    var log' := log + [e];
    forall f ensures f in Unfailed(log') <==> (e == Added(f)) || (f in Unfailed(log) && !(e.Sent? && !e.ok && e.fd == f)) {
      if f in Unfailed(log) && !(e.Sent? && !e.ok && e.fd == f) {
        var k: nat :| k < |log| && log[k].Added? && Clean(log, log[k].fd) && log[k].fd == f;
        assert log'[k] == log[k] && Clean(log', f);
      }
      if e == Added(f) { assert log'[|log|] == Added(f) && Clean(log', f); }
    }
  }

  lemma NoneYet()
    ensures Unfailed([]) == {} && Live([]) == {}
  {
  }

  lemma {:induction false} FailuresBounded(log: seq<Event>)
    requires AllOk(log)
    ensures Count(log, FailedBroadcast) + |Unfailed(log)| <= Count(log, IsAdd)
  {
    hide Unfailed;
    if log == [] {
      NoneYet();
    } else {
      var n := |log| - 1;
      var front, e := log[..n], log[n];
      assert front + [e] == log;
      assert MayFollow(front, e);
      AllOkPrefix(log, n);
      FailuresBounded(front);
      UnfailedNext(front, e);
      if FailedBroadcast(e) {
        UnfailedIs(front, e.t, e.fd);
      }
    }
  }

  // The fds in the table.
  ghost function Live(log: seq<Event>): set<Fd> {
    set k: nat | k < |log| && log[k].Added? && Registered(log, log[k].fd) :: log[k].fd
  }

  lemma LiveIs(log: seq<Event>, fd: Fd)
    ensures fd in Live(log) <==> Registered(log, fd)
  {
    if Registered(log, fd) {
      RegisteredWasAdded(log, fd);
      var k: nat :| k < |log| && log[k] == Added(fd);
    }
  }

  lemma LiveNext(log: seq<Event>, e: Event)
    requires MayFollow(log, e)
    ensures Live(log + [e]) == if e.Added? then Live(log) + {e.fd} else if e.Removed? then Live(log) - {e.fd} else Live(log)
    ensures e.Removed? ==> e.fd in Live(log)
  {
    Appended(log, e);
    forall f ensures (f in Live(log) <==> Registered(log, f)) && (f in Live(log + [e]) <==> Registered(log + [e], f)) {
      LiveIs(log, f);
      LiveIs(log + [e], f);
    }
  }

  lemma {:induction false} RemovalsBounded(log: seq<Event>)
    requires AllOk(log)
    ensures Count(log, IsRemoval) + |Live(log)| <= Count(log, IsAdd)
  {
    hide Live;
    if log == [] {
      NoneYet();
    } else {
      var n := |log| - 1;
      var front, e := log[..n], log[n];
      assert front + [e] == log;
      assert MayFollow(front, e);
      AllOkPrefix(log, n);
      RemovalsBounded(front);
      LiveNext(front, e);
    }
  }

  // A broadcast logs for each send that fails, and for each client it takes out.  Over
  // any run both together are at most twice the registrations, so the lines it logs
  // outside the mutexes, and with them the broadcasts those lines start, die out
  // unless clients keep registering.
  lemma BroadcastLinesBounded(ls: seq<Label>)
    requires Exec(ls).Some?
    ensures var log := Exec(ls).value.log;
            Count(log, FailedBroadcast) <= Count(log, IsAdd) && Count(log, IsRemoval) <= Count(log, IsAdd)
  {
    RunInv(ls);
    FailuresBounded(Exec(ls).value.log);
    RemovalsBounded(Exec(ls).value.log);
  }

  // ── Closes ───────────────────────────────────────────────────────────────

  ghost function AddsOf(log: seq<Event>, fd: Fd): set<nat> {
    set k: nat | k < |log| && log[k] == Added(fd)
  }

  ghost function RemovalsOf(log: seq<Event>, fd: Fd): set<nat> {
    set k: nat | k < |log| && log[k].Removed? && log[k].fd == fd
  }

  ghost function ClosesOf(log: seq<Event>, fd: Fd): set<nat> {
    set k: nat | k < |log| && log[k].CloseRequested? && log[k].fd == fd
  }

  lemma AllOkPrefix(log: seq<Event>, n: nat)
    requires AllOk(log) && n <= |log|
    ensures AllOk(log[..n])
  {
    forall k | 0 <= k < n ensures MayFollow(log[..n][..k], log[..n][k]) {
      assert log[..n][..k] == log[..k];
      assert MayFollow(log[..k], log[k]);
    }
  }

  lemma AddsLast(log: seq<Event>, fd: Fd)
    requires log != []
    ensures var n: nat := |log| - 1; |AddsOf(log, fd)| == |AddsOf(log[..n], fd)| + (if log[n] == Added(fd) then 1 else 0)
  {
    var n: nat := |log| - 1;
    assert AddsOf(log, fd) == AddsOf(log[..n], fd) + if log[n] == Added(fd) then {n} else {};
  }

  lemma CountLast(log: seq<Event>, fd: Fd)
    requires log != []
    ensures var n: nat, e := |log| - 1, log[|log| - 1];
            && |AddsOf(log, fd)| == |AddsOf(log[..n], fd)| + (if e == Added(fd) then 1 else 0)
            && |RemovalsOf(log, fd)| == |RemovalsOf(log[..n], fd)| + (if e.Removed? && e.fd == fd then 1 else 0)
  {
    AddsLast(log, fd);
    var n: nat := |log| - 1;
    hide AddsOf;
    assert RemovalsOf(log, fd) == RemovalsOf(log[..n], fd) + if log[n].Removed? && log[n].fd == fd then {n} else {};
  }

  lemma {:induction false} AddsAreRemovalsPlusPresent(log: seq<Event>, fd: Fd)
    requires AllOk(log)
    ensures |AddsOf(log, fd)| == |RemovalsOf(log, fd)| + if Registered(log, fd) then 1 else 0
  {
    if log == [] {
      assert AddsOf(log, fd) == {} && RemovalsOf(log, fd) == {};
    } else {
      var n := |log| - 1;
      assert MayFollow(log[..n], log[n]);
      AllOkPrefix(log, n);
      AddsAreRemovalsPlusPresent(log[..n], fd);
      CountLast(log, fd);
    }
  }

  // Different closes belong to different removals, so there are no more closes.
  lemma {:induction false} ClosesAreRemovals(log: seq<Event>, fd: Fd, closes: set<nat>, removals: set<nat>)
    requires AllOk(log) && closes <= ClosesOf(log, fd)
    requires removals == set k | k in closes :: log[k].removal
    ensures |closes| == |removals|
  {
    if closes != {} {
      var k :| k in closes;
      var rest := closes - {k};
      ClosesAreRemovals(log, fd, rest, set j | j in rest :: log[j].removal);
      forall j | j in rest ensures log[j].removal != log[k].removal {
        assert MayFollow(log[..k], log[k]) && MayFollow(log[..j], log[j]);
        if j < k { assert log[..k][j] == log[j]; } else { assert log[..j][k] == log[k]; }
      }
      assert removals - {log[k].removal} == set j | j in rest :: log[j].removal;
    }
  }

  // Removals of fd by a send_locked call whose send to it failed; all others, those of
  // the filter before a broadcast included, are by remove_fd.
  ghost function EvictionsOf(log: seq<Event>, fd: Fd): set<nat> {
    set k: nat | k < |log| && log[k].Removed? && log[k].fd == fd && log[k].sender.Some?
  }

  // Those whose sender has not come to its closes yet.
  ghost function PendingOf(s: State, fd: Fd): set<nat> {
    set r | r in EvictionsOf(s.log, fd) && Awaits(FailedOf(PcOf(s, s.log[r].sender.value)), r)
  }

  // The same three for one task.
  ghost function OwnRemovals(log: seq<Event>, t: TaskId, fd: Fd): set<nat> {
    set k: nat | k < |log| && log[k] == Removed(fd, Some(t))
  }

  ghost function OwnCloses(log: seq<Event>, t: TaskId, fd: Fd): set<nat> {
    set k: nat | k < |log| && log[k].CloseRequested? && log[k].t == t && log[k].fd == fd
  }

  ghost function OwnPending(s: State, t: TaskId, fd: Fd): set<nat> {
    set r | r in OwnRemovals(s.log, t, fd) && Awaits(FailedOf(PcOf(s, t)), r)
  }

  // A removal by a failed send is closed or waits in its sender's list, one of the two;
  // a removal by remove_fd is never closed by a sender.
  lemma RemovalIsClosedOrPending(s: State, r: nat)
    requires Inv(s) && r < |s.log| && s.log[r].Removed?
    ensures match s.log[r].sender
            case Some(t) => NotClosed(s.log, r) <==> Awaits(FailedOf(PcOf(s, t)), r)
            case None => NotClosed(s.log, r)
  {
    match s.log[r].sender
    case Some(t) => assert TaskLog(s, t);
    case None =>
      forall k | 0 <= k < |s.log| && s.log[k].CloseRequested? ensures s.log[k].removal != r {
        assert MayFollow(s.log[..k], s.log[k]);
      }
  }

  // A close is for an earlier removal by the closing task itself, of the same fd, and
  // is the only one for it.
  lemma CloseIsOfRemoval(log: seq<Event>, k: nat)
    requires AllOk(log) && k < |log| && log[k].CloseRequested?
    ensures log[k].removal < k && log[log[k].removal] == Removed(log[k].fd, Some(log[k].t))
    ensures forall j :: 0 <= j < |log| && log[j].CloseRequested? && log[j].removal == log[k].removal ==> j == k
  {
    assert MayFollow(log[..k], log[k]);
    forall j | 0 <= j < |log| && log[j].CloseRequested? && log[j].removal == log[k].removal ensures j == k {
      assert MayFollow(log[..j], log[j]);
    }
  }

  // The removals that `closes` are for.
  ghost function Closed(log: seq<Event>, closes: set<nat>): set<nat>
    requires forall k :: k in closes ==> k < |log| && log[k].CloseRequested?
  {
    set k | k in closes :: log[k].removal
  }

  lemma ClosedIff(s: State, fd: Fd, r: nat)
    requires Inv(s) && r in EvictionsOf(s.log, fd)
    ensures r !in PendingOf(s, fd) <==> exists k :: k in ClosesOf(s.log, fd) && s.log[k].removal == r
  {
    RemovalIsClosedOrPending(s, r);
    if r !in PendingOf(s, fd) {
      var k :| 0 <= k < |s.log| && s.log[k].CloseRequested? && s.log[k].removal == r;
      CloseIsOfRemoval(s.log, k);
      assert k in ClosesOf(s.log, fd);
    }
  }

  // Of any set of evictions: those closed and those pending make up the set.
  lemma ClosedOrPending(s: State, fd: Fd, removals: set<nat>, closes: set<nat>, pending: set<nat>)
    requires Inv(s) && removals <= EvictionsOf(s.log, fd) && pending == removals * PendingOf(s, fd)
    requires closes == set k | k in ClosesOf(s.log, fd) && s.log[k].removal in removals
    ensures Closed(s.log, closes) == removals - pending && |closes| + |pending| == |removals|
  {
    var closed := Closed(s.log, closes);
    forall r | r in removals ensures r in closed <==> r !in pending {
      ClosedIff(s, fd, r);
      if r !in pending {
        var k :| k in ClosesOf(s.log, fd) && s.log[k].removal == r;
        assert k in closes;
      }
    }
    ClosesAreRemovals(s.log, fd, closes, closed);
    hide Inv, ClosesOf, PendingOf, EvictionsOf;
    assert closed == removals - pending;
    assert removals == closed + pending;
  }

  // A task's closes and pending closes are its own removals, each once.
  lemma OwnRemovalsAreClosed(s: State, t: TaskId, fd: Fd)
    requires Inv(s)
    ensures Closed(s.log, OwnCloses(s.log, t, fd)) == OwnRemovals(s.log, t, fd) - OwnPending(s, t, fd)
    ensures |OwnCloses(s.log, t, fd)| + |OwnPending(s, t, fd)| == |OwnRemovals(s.log, t, fd)|
  {
    var closes, removals := OwnCloses(s.log, t, fd), OwnRemovals(s.log, t, fd);
    forall k ensures k in closes <==> k in ClosesOf(s.log, fd) && s.log[k].removal in removals {
      if k in ClosesOf(s.log, fd) { CloseIsOfRemoval(s.log, k); }
    }
    ClosedOrPending(s, fd, removals, closes, OwnPending(s, t, fd));
  }

  // All tasks together: the closes and the pending ones are the evictions, each once.
  lemma EvictionsAreClosed(s: State, fd: Fd)
    requires Inv(s)
    ensures Closed(s.log, ClosesOf(s.log, fd)) == EvictionsOf(s.log, fd) - PendingOf(s, fd)
    ensures |ClosesOf(s.log, fd)| + |PendingOf(s, fd)| == |EvictionsOf(s.log, fd)|
  {
    forall k | k in ClosesOf(s.log, fd) ensures s.log[k].removal in EvictionsOf(s.log, fd) {
      CloseIsOfRemoval(s.log, k);
    }
    ClosedOrPending(s, fd, EvictionsOf(s.log, fd), ClosesOf(s.log, fd), PendingOf(s, fd));
  }

  // In every run: an fd is in the table as often as it was added and not removed
  // since; the closes requested and still to be requested are exactly the evictions,
  // each of which ended one registration.
  lemma OneClosePerAdd(ls: seq<Label>, fd: Fd)
    requires Exec(ls).Some?
    ensures var s := Exec(ls).value;
            && |AddsOf(s.log, fd)| == |RemovalsOf(s.log, fd)| + (if Present(s.table, fd) then 1 else 0)
            && |ClosesOf(s.log, fd)| + |PendingOf(s, fd)| == |EvictionsOf(s.log, fd)| <= |RemovalsOf(s.log, fd)|
            && ((forall t: TaskId :: PcOf(s, t).Idle?) ==> |ClosesOf(s.log, fd)| == |EvictionsOf(s.log, fd)|)
  {
    RunInv(ls);
    var s := Exec(ls).value;
    AddsAreRemovalsPlusPresent(s.log, fd);
    EvictionsAreClosed(s, fd);
    SubsetCard(EvictionsOf(s.log, fd), RemovalsOf(s.log, fd));
    if forall t: TaskId :: PcOf(s, t).Idle? { assert PendingOf(s, fd) == {}; }
  }

  // In every run, each task's own removals are its closes and the ones it still has in
  // hand; out of a call, its closes.
  lemma ClosesAreOwnRemovals(ls: seq<Label>, t: TaskId, fd: Fd)
    requires Exec(ls).Some?
    ensures var s := Exec(ls).value;
            && |OwnRemovals(s.log, t, fd)| == |OwnCloses(s.log, t, fd)| + |OwnPending(s, t, fd)|
            && (PcOf(s, t).Idle? ==> Closed(s.log, OwnCloses(s.log, t, fd)) == OwnRemovals(s.log, t, fd))
            && (PcOf(s, t).Idle? ==> |OwnRemovals(s.log, t, fd)| == |OwnCloses(s.log, t, fd)|)
  {
    RunInv(ls);
    var s := Exec(ls).value;
    OwnRemovalsAreClosed(s, t, fd);
    if PcOf(s, t).Idle? { assert OwnPending(s, t, fd) == {}; }
  }

  // Event k closes the removal at index r.
  ghost predicate CloseOf(log: seq<Event>, k: int, r: nat) {
    0 <= k < |log| && log[k].CloseRequested? && log[k].removal == r
  }

  // In every run, each single removal: one by a failed send is closed once and only by
  // its sender, unless that sender still has the close in hand; one by remove_fd, from
  // httpd or the filter before a broadcast, is closed by no sender.
  lemma EachRemovalClosedOnce(ls: seq<Label>, r: nat)
    requires Exec(ls).Some? && r < |Exec(ls).value.log| && Exec(ls).value.log[r].Removed?
    ensures var s := Exec(ls).value;
            match s.log[r].sender
            case None => NotClosed(s.log, r)
            case Some(t) =>
              && (NotClosed(s.log, r) <==> Awaits(FailedOf(PcOf(s, t)), r))
              && (forall k :: CloseOf(s.log, k, r) ==> r < k && s.log[k] == CloseRequested(t, s.log[r].fd, r))
              && (forall j, k :: CloseOf(s.log, j, r) && CloseOf(s.log, k, r) ==> j == k)
  {
    RunInv(ls);
    var log := Exec(ls).value.log;
    RemovalIsClosedOrPending(Exec(ls).value, r);
    forall k | CloseOf(log, k, r)
      ensures r < k && log[r].sender.Some? && log[k] == CloseRequested(log[r].sender.value, log[r].fd, r)
      ensures forall j :: CloseOf(log, j, r) ==> j == k
    {
      CloseIsOfRemoval(log, k);
    }
  }

  // What the next close step of a task does: it closes the removal at the head of its
  // list if that was its own, and nothing otherwise.
  lemma CloseIsForOwnRemoval(ls: seq<Label>, t: TaskId)
    requires Exec(ls).Some? && PcOf(Exec(ls).value, t).Closing? && PcOf(Exec(ls).value, t).failed != []
    ensures var s := Exec(ls).value;
            var f, log' := PcOf(s, t).failed[0], Apply(s, Close(t)).log;
            && (f.removal.None? ==> log' == s.log)
            && (f.removal.Some? ==>
                  && log' == s.log + [CloseRequested(t, f.fd, f.removal.value)]
                  && f.removal.value < |s.log| && s.log[f.removal.value] == Removed(f.fd, Some(t))
                  && NotClosed(s.log, f.removal.value))
  {
    RunInv(ls);
    assert TaskLog(Exec(ls).value, t);
  }

  lemma {:induction false} ScheduleInv(s: State, ls: seq<Label>, ts: seq<TaskId>, end: State)
    requires Inv(s) && Schedule(s, ls, ts, end)
    ensures Inv(end)
    decreases |ls|
  {
    if ls != [] {
      StepInv(s, ls[0]);
      ScheduleInv(Apply(s, ls[0]), ls[1..], ts[1..], end);
    }
  }

  // No close is forgotten for good: where the calls of a run have all advanced as far
  // as they can, every eviction has been closed.
  lemma EvictionsGetClosed(ls: seq<Label>, more: seq<Label>, ts: seq<TaskId>, end: State, fd: Fd)
    requires Exec(ls).Some? && Schedule(Exec(ls).value, more, ts, end)
    requires forall l, t :: Advances(l, t) ==> !Enabled(end, l)
    ensures Closed(end.log, ClosesOf(end.log, fd)) == EvictionsOf(end.log, fd)
    ensures |ClosesOf(end.log, fd)| == |EvictionsOf(end.log, fd)|
  {
    RunInv(ls);
    ScheduleInv(Exec(ls).value, more, ts, end);
    CallsTerminate(Exec(ls).value, more, ts, end);
    EvictionsAreClosed(end, fd);
    assert PendingOf(end, fd) == {};
  }

  // A broadcast takes a client out whose session is dead, and has no close to request
  // for it: what its sends will fail on is still to be seen.
  lemma FilterRemoves(ls: seq<Label>, t: TaskId)
    requires Exec(ls).Some? && PcOf(Exec(ls).value, t).FilterIn?
    ensures var s := Exec(ls).value;
            && PcOf(s, t).todo != []
            && var fd, s' := PcOf(s, t).todo[0].fd, Apply(s, Table(t));
            && (forall f: Fd :: Present(s'.table, f) <==> Present(s.table, f) && f != fd)
            && s'.log == (if Present(s.table, fd) then s.log + [Removed(fd, None)] else s.log)
            && PcOf(s', t) == Filtering(PcOf(s, t).authReq, PcOf(s, t).todo[1..], PcOf(s, t).fds)
            && FailedOf(PcOf(s', t)) == []
  {
    RunInv(ls);
    assert ShapeOk(PcOf(Exec(ls).value, t));
    RemoveOk(Exec(ls).value.table, PcOf(Exec(ls).value, t).todo[0].fd);
  }
}
