// What every interleaving of the WebSocket server's tasks keeps.
module WsServerSafety {
  import opened Common
  import opened WsServer

  // ── The table ────────────────────────────────────────────────────────────

  lemma RemoveOk(tab: seq<Client>, fd: Fd)
    requires TabOk(tab)
    ensures TabOk(TabRemove(tab, fd))
    ensures forall f :: Present(TabRemove(tab, fd), f) <==> Present(tab, f) && f != fd
  {
    var r, tab' := IndexOf(tab, fd), TabRemove(tab, fd);
    forall f ensures Present(tab', f) <==> Present(tab, f) && f != fd {
      if r.Some? {
        var last := |tab| - 1;
        if Present(tab', f) {
          var i := IndexOf(tab', f).value;
          assert tab'[i] == if i == r.value then tab[last] else tab[i];
        }
        if Present(tab, f) && f != fd {
          var i := IndexOf(tab, f).value;
          assert tab'[if i == last then r.value else i].fd == f;
        }
      }
    }
  }

  lemma AddOk(tab: seq<Client>, fd: Fd, authed: bool)
    requires TabOk(tab)
    ensures TabOk(TabAdd(tab, fd, authed))
    ensures forall f :: Present(TabAdd(tab, fd, authed), f) <==>
                        Present(tab, f) || (f == fd && |tab| < MAX_CLIENTS)
  {
    var tab' := TabAdd(tab, fd, authed);
    forall f ensures Present(tab', f) <==> Present(tab, f) || (f == fd && |tab| < MAX_CLIENTS) {
      if Present(tab, f) { assert tab'[IndexOf(tab, f).value].fd == f; }
      if Present(tab', f) && IndexOf(tab', f).value < |tab| { assert tab[IndexOf(tab', f).value].fd == f; }
      if f == fd && tab' != tab && !Present(tab, fd) { assert tab'[|tab|].fd == fd; }
    }
  }

  lemma AuthOk(tab: seq<Client>, tab': seq<Client>)
    requires TabOk(tab) && |tab'| == |tab| && forall i :: 0 <= i < |tab| ==> tab'[i].fd == tab[i].fd
    ensures TabOk(tab')
    ensures forall f :: Present(tab', f) <==> Present(tab, f)
  {
    forall f ensures Present(tab', f) <==> Present(tab, f) {
      if Present(tab, f) { assert tab'[IndexOf(tab, f).value].fd == f; }
      if Present(tab', f) { assert tab[IndexOf(tab', f).value].fd == f; }
    }
  }

  // ── A step of one task leaves the others alone ───────────────────────────

  // A step moves one task, and changes a lock only to or from that task.
  ghost predicate OneTask(s: State, s': State, a: TaskId) {
    && (forall t: TaskId :: t != a ==> PcOf(s', t) == PcOf(s, t))
    && (s'.mtx == s.mtx || (s.mtx.None? && s'.mtx == Some(a)) || (s.mtx == Some(a) && s'.mtx.None?))
    && (s'.tx == s.tx || (s.tx.None? && s'.tx == Some(a)) || (s.tx == Some(a) && s'.tx.None?))
    && (s'.marker == s.marker || (s.marker.None? && s'.marker == Some(a)) || (s.marker == Some(a) && s'.marker.None?))
  }

  lemma LocksFrame(s: State, s': State, a: TaskId)
    requires LockInv(s) && OneTask(s, s', a) && TaskLocks(s', a)
    ensures LockInv(s')
  {
    forall t: TaskId ensures TaskLocks(s', t) {
      assert TaskLocks(s, t);
    }
  }

  lemma ShapeFrame(s: State, s': State, a: TaskId)
    requires ShapeInv(s) && OneTask(s, s', a) && TabOk(s'.table) && ShapeOk(PcOf(s', a))
    ensures ShapeInv(s')
  {
    forall t: TaskId ensures ShapeOk(PcOf(s', t)) {
      assert ShapeOk(PcOf(s, t));
    }
  }

  lemma WireFrame(s: State, s': State, a: TaskId)
    requires WireInv(s) && OneTask(s, s', a) && s'.wire == s.wire && TaskWire(s', a)
    ensures WireInv(s')
  {
    forall fd: Fd ensures Paired(WireOf(s', fd)) {
      assert Paired(WireOf(s, fd));
    }
    forall t: TaskId ensures TaskWire(s', t) {
      assert TaskWire(s, t);
    }
  }

  // ── Appending an event ───────────────────────────────────────────────────

  lemma Appended(log: seq<Event>, e: Event)
    ensures (log + [e])[..|log|] == log && (log + [e])[|log|] == e
    ensures forall fd :: Registered(log + [e], fd) ==
              (if e == Added(fd) then true else if e.Removed? && e.fd == fd then false else Registered(log, fd))
    ensures forall fd :: Clean(log + [e], fd) ==
              (if e == Added(fd) then true else if e.Sent? && e.fd == fd && !e.ok then false else Clean(log, fd))
    ensures forall t, fd :: CheckedInSection(log + [e], t, fd) ==
              (if e == Checked(t, fd) then true else if e == TxGiven(t) then false else CheckedInSection(log, t, fd))
  {
    assert (log + [e])[..|log|] == log;
  }

  lemma AllOkAppend(log: seq<Event>, e: Event)
    requires AllOk(log) && MayFollow(log, e)
    ensures AllOk(log + [e])
  {
    var log' := log + [e];
    forall k | 0 <= k < |log'| ensures MayFollow(log'[..k], log'[k]) {
      assert log'[..k] == log[..k];
      if k < |log| { assert MayFollow(log[..k], log[k]); } else { assert log[..k] == log; }
    }
  }

  // What is closed stays closed.
  lemma NotClosedBefore(log: seq<Event>, e: Event, r: nat)
    requires NotClosed(log + [e], r)
    ensures NotClosed(log, r)
  {
    forall k | 0 <= k < |log| && log[k].CloseRequested? ensures log[k].removal != r {
      assert (log + [e])[k] == log[k];
    }
  }

  // An event that is no removal by the task leaves none of its removals forgotten.
  lemma ForgottenFrame(log: seq<Event>, e: Event, t: TaskId, fs: seq<Failure>)
    requires NoneForgotten(log, t, fs) && !(e.Removed? && e.sender == Some(t))
    ensures NoneForgotten(log + [e], t, fs)
  {
    var log' := log + [e];
    forall r: nat | r < |log'| && log'[r].Removed? && log'[r].sender == Some(t) && NotClosed(log', r) ensures Awaits(fs, r) {
      NotClosedBefore(log, e, r);
      assert log[r] == log'[r];
    }
  }

  // An event keeps another task's pending work: only the TX holder sends, and a
  // close is requested only for a removal of the closing task.
  lemma TaskLogFrame(s: State, s': State, e: Event, t: TaskId)
    requires TaskLog(s, t) && PcOf(s', t) == PcOf(s, t) && s'.log == s.log + [e]
    requires e.Sent? ==> !PcOf(s, t).Sending?
    requires e != TxGiven(t)
    requires e.Removed? ==> e.sender != Some(t)
    requires e.CloseRequested? ==> e.removal < |s.log| && s.log[e.removal].Removed? && s.log[e.removal].sender != Some(t)
    ensures TaskLog(s', t)
  {
    Appended(s.log, e);
    ForgottenFrame(s.log, e, t, FailedOf(PcOf(s, t)));
  }

  // A step that logs e.
  lemma LogFrame(s: State, s': State, e: Event, a: TaskId)
    requires LockInv(s) && LogInv(s) && OneTask(s, s', a) && s'.log == s.log + [e]
    requires MayFollow(s.log, e) && TableLog(s') && TaskLog(s', a)
    requires e.Sent? ==> PcOf(s, a).Sending?
    requires e.TxGiven? ==> e.t == a
    requires e.Removed? ==> e.sender == None || e.sender == Some(a)
    requires e.CloseRequested? ==> e.t == a
    ensures LogInv(s')
  {
    AllOkAppend(s.log, e);
    assert TaskLocks(s, a);
    forall t: TaskId ensures TaskLog(s', t) {
      if t != a {
        assert TaskLog(s, t) && TaskLocks(s, t);
        TaskLogFrame(s, s', e, t);
      }
    }
  }

  // A step that logs nothing.
  lemma QuietFrame(s: State, s': State, a: TaskId)
    requires LogInv(s) && OneTask(s, s', a) && s'.log == s.log && TableLog(s') && TaskLog(s', a)
    ensures LogInv(s')
  {
    forall t: TaskId ensures TaskLog(s', t) {
      assert TaskLog(s, t);
    }
  }

  // A step of a task that is not evicting leaves the table and the log in agreement,
  // when the event it logs, if any, is about neither.
  lemma TableFrame(s: State, s': State, a: TaskId)
    requires LockInv(s) && TableLog(s) && OneTask(s, s', a) && s'.table == s.table && s'.tx == s.tx
    requires !PcOf(s, a).EvictWant? && !PcOf(s, a).EvictIn?
    requires s'.log == s.log || (exists e :: s'.log == s.log + [e] && (e.Checked? || e.TxGiven? || e.CloseRequested?))
    ensures TableLog(s')
  {
    if s.tx.Some? && s.tx.value != a { assert PcOf(s', s.tx.value) == PcOf(s, s.tx.value); }
    if s'.log != s.log {
      var e :| s'.log == s.log + [e] && (e.Checked? || e.TxGiven? || e.CloseRequested?);
      Appended(s.log, e);
    }
  }

  // ── Each step keeps the invariant ────────────────────────────────────────

  // Moving on without touching anything shared.
  lemma InvGo(s: State, t: TaskId, pc: Pc)
    requires Inv(s) && ShapeOk(pc) && !pc.Stuck? && !pc.Sending?
    requires HoldsM(pc) == HoldsM(PcOf(s, t)) && HoldsTx(pc) == HoldsTx(PcOf(s, t)) && Marked(pc) == Marked(PcOf(s, t))
    requires FailedOf(pc) == FailedOf(PcOf(s, t))
    requires !PcOf(s, t).EvictWant? && !PcOf(s, t).EvictIn?
    ensures Inv(Go(s, t, pc))
  {
    var s' := Go(s, t, pc);
    assert TaskLocks(s, t) && TaskLog(s, t);
    LocksFrame(s, s', t);
    ShapeFrame(s, s', t);
    WireFrame(s, s', t);
    if s.tx.Some? && s.tx.value != t { assert PcOf(s', s.tx.value) == PcOf(s, s.tx.value); }
    QuietFrame(s, s', t);
  }

  lemma InvLock(s: State, t: TaskId)
    requires Inv(s) && WantsM(PcOf(s, t)) && s.mtx.None?
    ensures Inv(Go(s, t, Locked(PcOf(s, t))).(mtx := Some(t)))
  {
    var s' := Go(s, t, Locked(PcOf(s, t))).(mtx := Some(t));
    assert TaskLocks(s, t) && TaskLog(s, t) && ShapeOk(PcOf(s, t));
    LocksFrame(s, s', t);
    ShapeFrame(s, s', t);
    WireFrame(s, s', t);
    QuietFrame(s, s', t);
  }

  // Removing fd, by any path, with its event.
  lemma RemoveLog(s: State, s': State, fd: Fd, who: Option<TaskId>)
    requires TabOk(s.table) && LogInv(s)
    requires s'.table == TabRemove(s.table, fd)
    requires s'.log == if Present(s.table, fd) then s.log + [Removed(fd, who)] else s.log
    requires forall f: Fd :: f != fd && Evicting(s, f) ==> Evicting(s', f)
    ensures TableLog(s') && TabOk(s'.table)
    ensures Present(s.table, fd) ==> MayFollow(s.log, Removed(fd, who))
  {
    RemoveOk(s.table, fd);
    Appended(s.log, Removed(fd, who));
  }

  // A removal by remove_fd leaves every task's list as it is.
  lemma QuietRemoval(s: State, s': State, fd: Fd, a: TaskId)
    requires LockInv(s) && LogInv(s) && OneTask(s, s', a) && TableLog(s')
    requires s'.log == if Present(s.table, fd) then s.log + [Removed(fd, None)] else s.log
    requires Present(s.table, fd) ==> MayFollow(s.log, Removed(fd, None))
    requires FailedOf(PcOf(s, a)) == FailedOf(PcOf(s', a)) == [] && !PcOf(s', a).Sending?
    ensures LogInv(s')
  {
    hide MayFollow, TableLog;
    assert TaskLog(s, a);
    ForgottenFrame(s.log, Removed(fd, None), a, []);
    if s'.log == s.log { QuietFrame(s, s', a); } else { LogFrame(s, s', Removed(fd, None), a); }
  }

  // Putting fd in the table, or only overwriting its sign-in state.
  lemma AddTable(s: State, s': State, fd: Fd, authed: bool)
    requires TabOk(s.table) && TableLog(s) && s'.table == TabAdd(s.table, fd, authed)
    requires s'.log == if !Present(s.table, fd) && |s.table| < MAX_CLIENTS then s.log + [Added(fd)] else s.log
    requires forall f: Fd :: Evicting(s, f) ==> Evicting(s', f)
    ensures TableLog(s') && TabOk(s'.table)
    ensures !Present(s.table, fd) ==> MayFollow(s.log, Added(fd))
  {
    AddOk(s.table, fd, authed);
    Appended(s.log, Added(fd));
  }

  lemma AddLog(s: State, t: TaskId)
    requires Inv(s) && PcOf(s, t).TabIn? && PcOf(s, t).op.Add?
    requires OneTask(s, DoTabOp(s, t), t)
    ensures LogInv(DoTabOp(s, t)) && TabOk(DoTabOp(s, t).table)
  {
    var op, s' := PcOf(s, t).op, DoTabOp(s, t);
    assert TaskLocks(s, t) && TaskLog(s, t);
    ForgottenFrame(s.log, Added(op.fd), t, []);
    if s.tx.Some? && s.tx.value != t { assert PcOf(s', s.tx.value) == PcOf(s, s.tx.value); }
    AddTable(s, s', op.fd, op.authed);
    if s'.log == s.log { QuietFrame(s, s', t); } else { LogFrame(s, s', Added(op.fd), t); }
  }

  lemma InvAdd(s: State, t: TaskId)
    requires Inv(s) && PcOf(s, t).TabIn? && PcOf(s, t).op.Add?
    ensures Inv(DoTabOp(s, t))
  {
    var s' := DoTabOp(s, t);
    assert TaskLocks(s, t);
    LocksFrame(s, s', t);
    AddLog(s, t);
    ShapeFrame(s, s', t);
    WireFrame(s, s', t);
  }

  lemma InvRemove(s: State, t: TaskId)
    requires Inv(s) && PcOf(s, t).TabIn? && PcOf(s, t).op.Remove?
    ensures Inv(DoTabOp(s, t))
  {
    var fd, s' := PcOf(s, t).op.fd, DoTabOp(s, t);
    assert TaskLocks(s, t) && TaskLog(s, t);
    if s.tx.Some? && s.tx.value != t { assert PcOf(s', s.tx.value) == PcOf(s, s.tx.value); }
    RemoveLog(s, s', fd, None);
    LocksFrame(s, s', t);
    ShapeFrame(s, s', t);
    WireFrame(s, s', t);
    QuietRemoval(s, s', fd, t);
  }

  // A change of sign-in state, or none.
  lemma SignInOnly(s: State, t: TaskId)
    requires PcOf(s, t).TabIn? && !PcOf(s, t).op.Add? && !PcOf(s, t).op.Remove?
    ensures var s' := DoTabOp(s, t);
            s'.log == s.log && s'.tx == s.tx && |s'.table| == |s.table| &&
            (PcOf(s', t).Idle? || PcOf(s', t).TabWant?) &&
            forall i :: 0 <= i < |s.table| ==> s'.table[i].fd == s.table[i].fd
  {
  }

  lemma SameFds(s: State, s': State)
    requires TabOk(s.table) && TableLog(s) && s'.log == s.log
    requires |s'.table| == |s.table| && forall i :: 0 <= i < |s.table| ==> s'.table[i].fd == s.table[i].fd
    requires forall f: Fd :: Evicting(s, f) ==> Evicting(s', f)
    ensures TableLog(s') && TabOk(s'.table)
  {
    AuthOk(s.table, s'.table);
  }

  lemma TabRestLog(s: State, t: TaskId)
    requires Inv(s) && PcOf(s, t).TabIn? && !PcOf(s, t).op.Add? && !PcOf(s, t).op.Remove?
    requires OneTask(s, DoTabOp(s, t), t)
    ensures LogInv(DoTabOp(s, t)) && TabOk(DoTabOp(s, t).table)
  {
    var s' := DoTabOp(s, t);
    assert TaskLocks(s, t) && TaskLog(s, t);
    SignInOnly(s, t);
    if s.tx.Some? && s.tx.value != t { assert PcOf(s', s.tx.value) == PcOf(s, s.tx.value); }
    SameFds(s, s');
    QuietFrame(s, s', t);
  }

  lemma TabRestMoves(s: State, t: TaskId)
    requires LockInv(s) && PcOf(s, t).TabIn? && !PcOf(s, t).op.Add? && !PcOf(s, t).op.Remove?
    ensures var s' := DoTabOp(s, t);
            && OneTask(s, s', t) && TaskLocks(s', t) && s'.wire == s.wire && TaskWire(s', t) && ShapeOk(PcOf(s', t))
  {
    assert TaskLocks(s, t);
  }

  lemma InvTabRest(s: State, t: TaskId)
    requires Inv(s) && PcOf(s, t).TabIn? && !PcOf(s, t).op.Add? && !PcOf(s, t).op.Remove?
    ensures Inv(DoTabOp(s, t))
  {
    var s' := DoTabOp(s, t);
    TabRestMoves(s, t);
    hide DoTabOp;
    LocksFrame(s, s', t);
    TabRestLog(s, t);
    ShapeFrame(s, s', t);
    WireFrame(s, s', t);
  }

  lemma InvSnap(s: State, t: TaskId)
    requires Inv(s) && PcOf(s, t).SnapIn?
    ensures Inv(DoTable(s, t))
  {
    var s' := DoTable(s, t);
    assert TaskLocks(s, t) && TaskLog(s, t);
    LocksFrame(s, s', t);
    ShapeFrame(s, s', t);
    WireFrame(s, s', t);
    if s.tx.Some? && s.tx.value != t { assert PcOf(s', s.tx.value) == PcOf(s, s.tx.value); }
    QuietFrame(s, s', t);
  }

  lemma InvFilterRemove(s: State, t: TaskId)
    requires Inv(s) && PcOf(s, t).FilterIn?
    ensures Inv(DoFilterRemove(s, t))
  {
    var s' := DoFilterRemove(s, t);
    assert TaskLocks(s, t) && TaskLog(s, t) && ShapeOk(PcOf(s, t));
    var fd := PcOf(s, t).todo[0].fd;
    if s.tx.Some? && s.tx.value != t { assert PcOf(s', s.tx.value) == PcOf(s, s.tx.value); }
    RemoveLog(s, s', fd, None);
    LocksFrame(s, s', t);
    ShapeFrame(s, s', t);
    WireFrame(s, s', t);
    QuietRemoval(s, s', fd, t);
  }

  lemma CheckLog(s: State, t: TaskId)
    requires Inv(s) && PcOf(s, t).CheckIn? && OneTask(s, DoCheck(s, t), t)
    ensures LogInv(DoCheck(s, t))
  {
    var pc, s' := PcOf(s, t), DoCheck(s, t);
    assert TaskLocks(s, t) && TaskLog(s, t);
    var fd := Cur(pc.job, pc.i);
    if s'.log == s.log {
      QuietFrame(s, s', t);
    } else {
      Appended(s.log, Checked(t, fd));
      assert Present(s.table, fd) && Clean(s.log, fd);
      LogFrame(s, s', Checked(t, fd), t);
    }
  }

  lemma InvCheck(s: State, t: TaskId)
    requires Inv(s) && PcOf(s, t).CheckIn?
    ensures Inv(DoCheck(s, t))
  {
    var s' := DoCheck(s, t);
    assert TaskLocks(s, t) && ShapeOk(PcOf(s, t));
    LocksFrame(s, s', t);
    CheckLog(s, t);
    ShapeFrame(s, s', t);
    WireFrame(s, s', t);
  }

  // An eviction puts its own event in the list.
  lemma EvictForgets(log: seq<Event>, t: TaskId, fs: seq<Failure>, fd: Fd, mine: Option<nat>)
    requires NoneForgotten(log, t, fs) && (mine.Some? ==> mine.value == |log|)
    ensures NoneForgotten(if mine.Some? then log + [Removed(fd, Some(t))] else log, t, fs + [Failure(fd, mine)])
  {
    var e, fs' := Removed(fd, Some(t)), fs + [Failure(fd, mine)];
    var log' := if mine.Some? then log + [e] else log;
    forall r: nat | r < |log'| && log'[r].Removed? && log'[r].sender == Some(t) && NotClosed(log', r) ensures Awaits(fs', r) {
      if r == |log| {
        assert fs'[|fs|].removal == Some(r);
      } else {
        if mine.Some? { NotClosedBefore(log, e, r); }
        assert log[r] == log'[r];
        var j :| 0 <= j < |fs| && fs[j].removal == Some(r);
        assert fs'[j] == fs[j];
      }
    }
  }

  lemma EvictList(log: seq<Event>, t: TaskId, fs: seq<Failure>, fd: Fd, mine: Option<nat>)
    requires AllOk(log) && FailedOk(log, t, fs) && (mine.Some? ==> mine.value == |log|)
    ensures FailedOk(if mine.Some? then log + [Removed(fd, Some(t))] else log, t, fs + [Failure(fd, mine)])
  {
    NoFutureClose(log);
  }

  lemma EvictLog(s: State, t: TaskId)
    requires Inv(s) && PcOf(s, t).EvictIn? && OneTask(s, DoEvict(s, t), t)
    ensures LogInv(DoEvict(s, t)) && TabOk(DoEvict(s, t).table)
  {
    var pc, s' := PcOf(s, t), DoEvict(s, t);
    var fd := Cur(pc.job, pc.i);
    var mine := if Present(s.table, fd) then Some(|s.log|) else None;
    assert TaskLocks(s, t) && TaskLog(s, t);
    RemoveLog(s, s', fd, Some(t));
    EvictList(s.log, t, pc.failed, fd, mine);
    EvictForgets(s.log, t, pc.failed, fd, mine);
    hide FailedOk, NoneForgotten, RemoveFd, MayFollow, TableLog;
    if s'.log == s.log { QuietFrame(s, s', t); } else { LogFrame(s, s', Removed(fd, Some(t)), t); }
  }

  lemma InvEvict(s: State, t: TaskId)
    requires Inv(s) && PcOf(s, t).EvictIn?
    ensures Inv(DoEvict(s, t))
  {
    var s' := DoEvict(s, t);
    assert TaskLocks(s, t) && ShapeOk(PcOf(s, t));
    LocksFrame(s, s', t);
    EvictLog(s, t);
    ShapeFrame(s, s', t);
    WireFrame(s, s', t);
  }

  // Closes refer to earlier events, so the next event is not closed yet.
  lemma NoFutureClose(log: seq<Event>)
    requires AllOk(log)
    ensures NotClosed(log, |log|)
  {
    forall k | 0 <= k < |log| && log[k].CloseRequested? ensures log[k].removal != |log| {
      assert MayFollow(log[..k], log[k]);
    }
  }

  lemma InvLockTx(s: State, t: TaskId)
    requires Inv(s) && PcOf(s, t).TxWant? && s.tx.None?
    ensures Inv(Apply(s, LockTx(t)))
  {
    var s' := Apply(s, LockTx(t));
    assert TaskLocks(s, t) && TaskLog(s, t) && ShapeOk(PcOf(s, t));
    LocksFrame(s, s', t);
    ShapeFrame(s, s', t);
    WireFrame(s, s', t);
    QuietFrame(s, s', t);
  }

  lemma InvMark(s: State, t: TaskId)
    requires Inv(s) && PcOf(s, t).TxTaken?
    ensures Inv(Apply(s, Mark(t)))
  {
    var s' := Apply(s, Mark(t));
    assert TaskLocks(s, t) && TaskLog(s, t) && ShapeOk(PcOf(s, t));
    // only the task that holds the TX mutex ever sets the marker
    forall u: TaskId ensures s.marker != Some(u) { assert TaskLocks(s, u); }
    LocksFrame(s, s', t);
    ShapeFrame(s, s', t);
    WireFrame(s, s', t);
    QuietFrame(s, s', t);
  }

  lemma InvLoopHead(s: State, t: TaskId)
    requires Inv(s) && PcOf(s, t).Loop?
    ensures Inv(DoLoopHead(s, t))
  {
    var s' := DoLoopHead(s, t);
    assert TaskLocks(s, t) && TaskLog(s, t) && ShapeOk(PcOf(s, t));
    LocksFrame(s, s', t);
    ShapeFrame(s, s', t);
    WireFrame(s, s', t);
    QuietFrame(s, s', t);
  }

  lemma WriteLog(s: State, t: TaskId, ok: bool)
    requires Inv(s) && PcOf(s, t).Sending? && OneTask(s, DoWrite(s, t, ok), t)
    ensures LogInv(DoWrite(s, t, ok))
  {
    var pc, s' := PcOf(s, t), DoWrite(s, t, ok);
    assert TaskLocks(s, t) && TaskLog(s, t);
    if s'.log == s.log {
      QuietFrame(s, s', t);
    } else {
      var e := Sent(t, Cur(pc.job, pc.i), pc.job.recheck, ok);
      Appended(s.log, e);
      LogFrame(s, s', e, t);
    }
  }

  lemma InvWrite(s: State, t: TaskId, ok: bool)
    requires Inv(s) && PcOf(s, t).Sending?
    ensures Inv(DoWrite(s, t, ok))
  {
    var s' := DoWrite(s, t, ok);
    assert TaskLocks(s, t) && ShapeOk(PcOf(s, t));
    LocksFrame(s, s', t);
    WriteLog(s, t, ok);
    ShapeFrame(s, s', t);
    WriteWire(s, t, ok);
  }

  lemma WriteWire(s: State, t: TaskId, ok: bool)
    requires LockInv(s) && WireInv(s) && PcOf(s, t).Sending?
    ensures WireInv(DoWrite(s, t, ok))
  {
    var s' := DoWrite(s, t, ok);
    assert TaskLocks(s, t) && TaskWire(s, t);
    forall u: TaskId ensures TaskWire(s', u) {
      assert TaskLocks(s, u);
    }
    forall fd: Fd ensures Paired(WireOf(s', fd)) {
      assert Paired(WireOf(s, fd));
    }
  }

  lemma InvGiveTx(s: State, t: TaskId)
    requires Inv(s) && PcOf(s, t).TxEnding?
    ensures Inv(Apply(s, GiveTx(t)))
  {
    var s' := Apply(s, GiveTx(t));
    assert TaskLocks(s, t) && TaskLog(s, t);
    LocksFrame(s, s', t);
    ShapeFrame(s, s', t);
    WireFrame(s, s', t);
    Appended(s.log, TxGiven(t));
    LogFrame(s, s', TxGiven(t), t);
  }

  // The head of the failed list is closed, or was not ours to close.
  lemma CloseHead(log: seq<Event>, t: TaskId, fs: seq<Failure>)
    requires FailedOk(log, t, fs) && fs != []
    ensures FailedOk(log, t, fs[1..])
    ensures fs[0].removal.Some? ==>
              var e := CloseRequested(t, fs[0].fd, fs[0].removal.value);
              MayFollow(log, e) && FailedOk(log + [e], t, fs[1..])
  {
  }

  // The rest of the list still holds every removal that is not closed.
  lemma CloseHeadForgets(log: seq<Event>, t: TaskId, fs: seq<Failure>)
    requires NoneForgotten(log, t, fs) && fs != []
    ensures fs[0].removal.None? ==> NoneForgotten(log, t, fs[1..])
    ensures fs[0].removal.Some? ==> NoneForgotten(log + [CloseRequested(t, fs[0].fd, fs[0].removal.value)], t, fs[1..])
  {
    var log' := if fs[0].removal.Some? then log + [CloseRequested(t, fs[0].fd, fs[0].removal.value)] else log;
    forall r: nat | r < |log'| && log'[r].Removed? && log'[r].sender == Some(t) && NotClosed(log', r)
      ensures Awaits(fs[1..], r)
    {
      assert fs[0].removal.Some? ==> log'[|log|].CloseRequested?;
      assert NotClosed(log, r) by {
        if fs[0].removal.Some? { NotClosedBefore(log, log'[|log|], r); }
      }
      assert log[r] == log'[r];
      var j :| 0 <= j < |fs| && fs[j].removal == Some(r);
      assert fs[1..][j - 1] == fs[j];
    }
  }

  lemma CloseLog(s: State, t: TaskId)
    requires Inv(s) && PcOf(s, t).Closing? && OneTask(s, DoClose(s, t), t)
    ensures LogInv(DoClose(s, t))
  {
    var f, s' := PcOf(s, t).failed, DoClose(s, t);
    assert TaskLog(s, t);
    if f == [] {
      TableFrame(s, s', t);
      QuietFrame(s, s', t);
    } else {
      CloseHead(s.log, t, f);
      CloseHeadForgets(s.log, t, f);
      TableFrame(s, s', t);
      if f[0].removal.None? { QuietFrame(s, s', t); } else {
        LogFrame(s, s', CloseRequested(t, f[0].fd, f[0].removal.value), t);
      }
    }
  }

  lemma InvClose(s: State, t: TaskId)
    requires Inv(s) && PcOf(s, t).Closing?
    ensures Inv(DoClose(s, t))
  {
    var s' := DoClose(s, t);
    assert TaskLocks(s, t);
    LocksFrame(s, s', t);
    CloseLog(s, t);
    ShapeFrame(s, s', t);
    WireFrame(s, s', t);
  }

  lemma InvToken(s: State, on: bool)
    requires Inv(s)
    ensures Inv(s.(authOn := on))
  {
    var s' := s.(authOn := on);
    forall t: TaskId ensures TaskLocks(s', t) && ShapeOk(PcOf(s', t)) && TaskWire(s', t) && TaskLog(s', t) {
      assert TaskLocks(s, t) && ShapeOk(PcOf(s, t)) && TaskWire(s, t) && TaskLog(s, t);
    }
    forall fd: Fd ensures Paired(WireOf(s', fd)) { assert Paired(WireOf(s, fd)); }
  }

  lemma FilterShape(s: State, t: TaskId, live: bool)
    requires PcOf(s, t).Filtering? && ShapeOk(PcOf(s, t))
    ensures var pc := PcOf(DoFilter(s, t, live), t);
            ShapeOk(pc) && DoFilter(s, t, live) == Go(s, t, pc) &&
            (pc.Filtering? || pc.FilterWant? || pc.TxWant? || pc.Idle?)
  {
  }

  lemma InvFilter(s: State, t: TaskId, live: bool)
    requires Inv(s) && PcOf(s, t).Filtering?
    ensures Inv(DoFilter(s, t, live))
  {
    assert ShapeOk(PcOf(s, t));
    FilterShape(s, t, live);
    InvGo(s, t, PcOf(DoFilter(s, t, live), t));
  }

  lemma InvTable(s: State, t: TaskId)
    requires Inv(s) && HoldsM(PcOf(s, t))
    ensures Inv(DoTable(s, t))
  {
    match PcOf(s, t)
    case TabIn(op) =>
      if op.Add? { InvAdd(s, t); } else if op.Remove? { InvRemove(s, t); } else { InvTabRest(s, t); }
    case SnapIn(_) => InvSnap(s, t);
    case FilterIn(_, _, _) => InvFilterRemove(s, t);
    case CheckIn(_, _, _) => InvCheck(s, t);
    case EvictIn(_, _, _) => InvEvict(s, t);
  }

  lemma StepInv(s: State, l: Label)
    requires Inv(s) && Enabled(s, l)
    ensures Inv(Apply(s, l))
  {
    match l
    case StartTable(t, op) => InvGo(s, t, TabWant(op));
    case StartBroadcast(t) => if s.marker != Some(t) { InvGo(s, t, SnapWant(s.authOn)); }
    case StartReply(t, fd) => InvGo(s, t, TxWant(Job([fd], false)));
    case SetToken(on) => InvToken(s, on);
    case LogInSend(t) => assert TaskLocks(s, t);
    case Lock(t) => InvLock(s, t);
    case Table(t) => InvTable(s, t);
    case AdoptClose(t) => InvGo(s, t, Idle);
    case Filter(t, live) => InvFilter(s, t, live);
    case LockTx(t) => InvLockTx(s, t);
    case Mark(t) => InvMark(s, t);
    case LoopHead(t) => InvLoopHead(s, t);
    case Write(t, ok) => InvWrite(s, t, ok);
    case GiveTx(t) => InvGiveTx(s, t);
    case Close(t) => InvClose(s, t);
  }

  lemma {:induction false} RunInv(ls: seq<Label>)
    ensures Exec(ls).Some? ==> Inv(Exec(ls).value)
  {
    if ls != [] {
      var before := ls[..|ls| - 1];
      RunInv(before);
      if Exec(ls).Some? { StepInv(Exec(before).value, ls[|ls| - 1]); }
    }
  }
}
