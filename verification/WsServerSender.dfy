// send_locked of ws_server.cpp among the other tasks: between any two of its steps they
// do whatever they can, and what it does is a run of the step system.
module WsServerSender {
  import opened Common
  import opened WsServer
  import opened WsServerSafety
  import opened WsServerTheorems
  import opened WsServerCode

  // ── Runs from a state ────────────────────────────────────────────────────

  ghost predicate Steps(s: State, ls: seq<Label>, end: State)
    decreases |ls|
  {
    if ls == [] then end == s else Enabled(s, ls[0]) && Steps(Apply(s, ls[0]), ls[1..], end)
  }

  ghost predicate Reaches(s: State, end: State) {
    exists ls :: Steps(s, ls, end)
  }

  lemma {:induction false} StepsThen(s: State, ls: seq<Label>, end: State, l: Label)
    requires Steps(s, ls, end) && Enabled(end, l)
    ensures Steps(s, ls + [l], Apply(end, l))
    decreases |ls|
  {
    if ls == [] {
      assert [] + [l] == [l] && [l][1..] == [];
    } else {
      StepsThen(Apply(s, ls[0]), ls[1..], end, l);
      assert (ls + [l])[1..] == ls[1..] + [l];
    }
  }

  lemma ReachesThen(s: State, end: State, l: Label)
    requires Reaches(s, end) && Enabled(end, l)
    ensures Reaches(s, Apply(end, l))
  {
    var ls :| Steps(s, ls, end);
    StepsThen(s, ls, end, l);
  }

  // The closes task t has requested, in order.
  ghost function ClosedBy(log: seq<Event>, t: TaskId): seq<Fd> {
    if log == [] then []
    else
      var e := log[|log| - 1];
      ClosedBy(log[..|log| - 1], t) + if e.CloseRequested? && e.t == t then [e.fd] else []
  }

  lemma ClosedNext(log: seq<Event>, e: Event, t: TaskId)
    ensures ClosedBy(log + [e], t) == ClosedBy(log, t) + if e.CloseRequested? && e.t == t then [e.fd] else []
  {
    assert (log + [e])[..|log|] == log;
  }

  // What the next step of task t closes.
  function ClosesNow(s: State, l: Label): seq<Fd>
    requires Enabled(s, l)
  {
    if l.Close? && PcOf(s, l.t).failed != [] && PcOf(s, l.t).failed[0].removal.Some? then [PcOf(s, l.t).failed[0].fd] else []
  }

  function Owner(l: Label): Option<TaskId> {
    if l.SetToken? then None else Some(l.t)
  }

  lemma TableLogs(s: State, t: TaskId)
    requires HoldsM(PcOf(s, t))
    ensures var log := DoTable(s, t).log;
            log == s.log || (exists e: Event :: log == s.log + [e] && !e.CloseRequested?)
  {
  }

  lemma WriteLogs(s: State, t: TaskId, ok: bool)
    requires PcOf(s, t).Sending?
    ensures var log := DoWrite(s, t, ok).log;
            log == s.log || (exists e: Event :: log == s.log + [e] && !e.CloseRequested?)
  {
  }

  // A step logs at most one event, and only a close step logs a close.
  lemma StepLogs(s: State, l: Label)
    requires Enabled(s, l) && !l.Close?
    ensures var log := Apply(s, l).log;
            log == s.log || (exists e: Event :: log == s.log + [e] && !e.CloseRequested?)
  {
    if l.Table? {
      TableLogs(s, l.t);
    } else if l.Write? {
      WriteLogs(s, l.t, l.ok);
    } else if l.GiveTx? {
      assert Apply(s, l).log == s.log + [TxGiven(l.t)];
    }
  }

  lemma CloseLogs(s: State, t: TaskId)
    requires PcOf(s, t).Closing?
    ensures var now := ClosesNow(s, Close(t));
            && (now == [] ==> DoClose(s, t).log == s.log)
            && (now != [] ==> |now| == 1 && exists e: Event :: DoClose(s, t).log == s.log + [e] && e.CloseRequested? && e.t == t && e.fd == now[0])
  {
    if ClosesNow(s, Close(t)) != [] {
      var f := PcOf(s, t).failed[0];
      assert DoClose(s, t).log == s.log + [CloseRequested(t, f.fd, f.removal.value)];
    }
  }

  lemma StepCloses(s: State, l: Label, t: TaskId)
    requires Enabled(s, l)
    ensures ClosedBy(Apply(s, l).log, t) == ClosedBy(s.log, t) + if Owner(l) == Some(t) then ClosesNow(s, l) else []
  {
    hide DoClose, DoTable, DoWrite, ClosedBy;
    var log := Apply(s, l).log;
    assert ClosedBy(s.log, t) + [] == ClosedBy(s.log, t);
    if l.Close? {
      CloseLogs(s, l.t);
      var now := ClosesNow(s, l);
      if now != [] {
        var e: Event :| log == s.log + [e] && e.CloseRequested? && e.t == l.t && e.fd == now[0];
        ClosedNext(s.log, e, t);
        assert now == [e.fd];
      }
    } else {
      StepLogs(s, l);
      if log != s.log {
        var e: Event :| log == s.log + [e] && !e.CloseRequested?;
        ClosedNext(s.log, e, t);
      }
    }
  }

  lemma TableMoves(s: State, t: TaskId)
    requires HoldsM(PcOf(s, t))
    ensures DoTable(s, t).pcs == s.pcs[t := PcOf(DoTable(s, t), t)]
  {
    if PcOf(s, t).TabIn? {
      TabOpCloser(s, t);
      hide DoTabOp;
    }
  }

  lemma OtherKeepsPc(s: State, l: Label, t: TaskId)
    requires Enabled(s, l) && Owner(l) != Some(t)
    ensures PcOf(Apply(s, l), t) == PcOf(s, t)
  {
    if l.Table? {
      TableMoves(s, l.t);
      hide DoTable;
    }
  }

  // From s0 to s, with these closes requested by task t on the way.
  ghost predicate Run(s0: State, s: State, t: TaskId, closes: seq<Fd>) {
    Inv(s) && Reaches(s0, s) && ClosedBy(s.log, t) == ClosedBy(s0.log, t) + closes
  }

  lemma RunStarts(s: State, t: TaskId)
    requires Inv(s)
    ensures Run(s, s, t, [])
  {
    assert Steps(s, [], s);
    assert ClosedBy(s.log, t) + [] == ClosedBy(s.log, t);
  }

  lemma RunNext(s0: State, s: State, t: TaskId, closes: seq<Fd>, l: Label)
    requires Run(s0, s, t, closes) && Enabled(s, l)
    ensures Run(s0, Apply(s, l), t, closes + if Owner(l) == Some(t) then ClosesNow(s, l) else [])
  {
    hide Inv, Enabled, Apply, ClosesNow;
    StepInv(s, l);
    ReachesThen(s0, s, l);
    StepCloses(s, l, t);
  }

  lemma RunOther(s0: State, s: State, t: TaskId, closes: seq<Fd>, l: Label)
    requires Run(s0, s, t, closes) && Enabled(s, l) && Owner(l) != Some(t)
    ensures Run(s0, Apply(s, l), t, closes) && PcOf(Apply(s, l), t) == PcOf(s, t)
  {
    hide Run;
    RunNext(s0, s, t, closes, l);
    OtherKeepsPc(s, l, t);
    assert closes + [] == closes;
  }

  // Every removal by task t is closed, once, and t has closed nothing else.
  ghost predicate AllClosed(s: State, t: TaskId) {
    forall fd: Fd :: Closed(s.log, OwnCloses(s.log, t, fd)) == OwnRemovals(s.log, t, fd) &&
                     |OwnCloses(s.log, t, fd)| == |OwnRemovals(s.log, t, fd)|
  }

  lemma ClosedAtEnd(s0: State, s: State, t: TaskId, closes: seq<Fd>)
    requires Run(s0, s, t, closes) && PcOf(s, t).Idle?
    ensures AllClosed(s, t)
  {
    forall fd: Fd
      ensures Closed(s.log, OwnCloses(s.log, t, fd)) == OwnRemovals(s.log, t, fd)
      ensures |OwnCloses(s.log, t, fd)| == |OwnRemovals(s.log, t, fd)|
    {
      OwnRemovalsAreClosed(s, t, fd);
      assert OwnPending(s, t, fd) == {};
    }
  }

  // ── The local arrays of send_locked ──────────────────────────────────────

  function Errors(err: seq<bool>): nat {
    if err == [] then 0 else Errors(err[..|err| - 1]) + if err[|err| - 1] then 1 else 0
  }

  // err and left say what the list of failed fds says.
  ghost predicate Match(fds: seq<Fd>, err: seq<bool>, left: seq<int>, failed: seq<Failure>) {
    && |err| == |left| <= |fds| && |failed| == Errors(err)
    && forall i :: 0 <= i < |err| && err[i] ==>
         Errors(err[..i]) < |failed| && var f := failed[Errors(err[..i])];
         f.fd == fds[i] && (f.removal.Some? <==> left[i] >= 0)
  }

  lemma NothingYet(fds: seq<Fd>, err: seq<bool>, left: seq<int>)
    requires err == [] && left == []
    ensures Match(fds, err, left, [])
  {
  }

  lemma MatchNext(fds: seq<Fd>, err: seq<bool>, left: seq<int>, failed: seq<Failure>, e: bool, l: int, f: Failure)
    requires Match(fds, err, left, failed) && |err| < |fds|
    requires e ==> f.fd == fds[|err|] && (f.removal.Some? <==> l >= 0)
    ensures Match(fds, err + [e], left + [l], if e then failed + [f] else failed)
  {
    var more := err + [e];
    assert more[..|err|] == err;
    forall i | 0 <= i < |err| ensures more[..i] == err[..i] {}
  }

  lemma {:induction false} ErrorsUpTo(err: seq<bool>, i: nat)
    requires i < |err|
    ensures Errors(err[..i + 1]) == Errors(err[..i]) + if err[i] then 1 else 0
    ensures Errors(err[..i + 1]) <= Errors(err)
    decreases |err| - i
  {
    assert err[..i + 1][..i] == err[..i];
    if i + 1 < |err| { ErrorsUpTo(err, i + 1); } else { assert err[..i + 1] == err; }
  }

  // ── The code ─────────────────────────────────────────────────────────────

  class Server {
    const table: ClientTable
    var s: State      // the mutexes, the marker and where every task is

    ghost predicate Valid()
      reads this, table, table.fds, table.auth
    {
      table.Valid() && table.Table() == s.table
    }

    constructor ()
      ensures Valid() && s == Init() && fresh(table) && fresh(table.fds) && fresh(table.auth)
    {
      table := new ClientTable();
      s := Init();
    }

    // The arrays as the other tasks have left them.
    method Refresh()
      requires table.Valid() && |s.table| <= MAX_CLIENTS
      modifies table`count, table.fds, table.auth
      ensures Valid()
    {
      var i := 0;
      while i < |s.table|
        invariant i <= |s.table| && table.Valid()
        invariant forall k :: 0 <= k < i ==> table.fds[k] == s.table[k].fd && table.auth[k] == s.table[k].authed
      {
        table.fds[i], table.auth[i] := s.table[i].fd, s.table[i].authed;
        i := i + 1;
      }
      table.count := |s.table|;
    }

    // Any number of steps of other tasks.
    method Others(t: TaskId, ghost s0: State, ghost closes: seq<Fd>)
      requires Valid() && Run(s0, s, t, closes)
      modifies this`s, table`count, table.fds, table.auth
      ensures Valid() && Run(s0, s, t, closes) && PcOf(s, t) == old(PcOf(s, t))
    {
      hide Run;
      var ls: seq<Label> := *;
      var i := 0;
      while i < |ls|
        invariant Run(s0, s, t, closes) && PcOf(s, t) == old(PcOf(s, t)) && table.Valid()
      {
        if Owner(ls[i]) != Some(t) && Enabled(s, ls[i]) {
          RunOther(s0, s, t, closes, ls[i]);
          s := Apply(s, ls[i]);
        }
        i := i + 1;
      }
      RunTable(s0, s, t, closes);
      Refresh();
    }

    // Waiting for s_mutex: its holder leaves it with its next step.
    method WaitM(t: TaskId, ghost s0: State, ghost closes: seq<Fd>)
      requires Valid() && Run(s0, s, t, closes) && WantsM(PcOf(s, t))
      modifies this`s, table`count, table.fds, table.auth
      ensures Valid() && Run(s0, s, t, closes) && PcOf(s, t) == old(PcOf(s, t)) && s.mtx.None?
    {
      Others(t, s0, closes);
      if s.mtx.Some? {
        var h := s.mtx.value;
        HolderLeaves(s, t, h);
        hide Run;
        RunOther(s0, s, t, closes, Table(h));
        s := Apply(s, Table(h));
        RunTable(s0, s, t, closes);
        Refresh();
      }
    }

    // Waiting for the TX mutex: the others get on with their calls until it is free.
    method WaitTx(t: TaskId, ghost s0: State, ghost closes: seq<Fd>)
      requires Valid() && Run(s0, s, t, closes) && PcOf(s, t).TxWant?
      modifies this`s, table`count, table.fds, table.auth
      ensures Valid() && Run(s0, s, t, closes) && PcOf(s, t) == old(PcOf(s, t)) && s.tx.None?
    {
      Others(t, s0, closes);
      while s.tx.Some?
        invariant Run(s0, s, t, closes) && PcOf(s, t) == old(PcOf(s, t))
        invariant table.Valid()
        decreases Total(s.pcs)
      {
        var u := Unblocked(s, t);
        OthersAdvance(s, t);
        var l := NextStep(PcOf(s, u), u);
        hide Run;
        RunOther(s0, s, t, closes, l);
        s := Apply(s, l);
      }
      RunTable(s0, s, t, closes);
      Refresh();
    }

    // A step of this task outside s_mutex.
    method Do(t: TaskId, l: Label, ghost s0: State, ghost closes: seq<Fd>)
      requires Valid() && Run(s0, s, t, closes) && Enabled(s, l) && Owner(l) == Some(t) && !l.Table?
      modifies this`s
      ensures Valid() && s == old(Apply(s, l)) && Run(s0, s, t, closes + old(ClosesNow(s, l)))
    {
      RunNext(s0, s, t, closes, l);
      s := Apply(s, l);
    }

    // ── The steps of send_locked, each with the others in front of it ──

    method TakeTx(t: TaskId, job: Job, ghost s0: State)
      requires Valid() && Run(s0, s, t, []) && PcOf(s, t) == TxWant(job)
      modifies this`s, table`count, table.fds, table.auth
      ensures Valid() && Run(s0, s, t, []) && PcOf(s, t) == TxTaken(job)
    {
      hide Run;
      WaitTx(t, s0, []);
      Do(t, LockTx(t), s0, []);
    }

    method SetMarker(t: TaskId, job: Job, ghost s0: State)
      requires Valid() && Run(s0, s, t, []) && PcOf(s, t) == TxTaken(job)
      modifies this`s, table`count, table.fds, table.auth
      ensures Valid() && Run(s0, s, t, []) && PcOf(s, t) == Loop(job, 0, [])
    {
      hide Run;
      Others(t, s0, []);
      Do(t, Mark(t), s0, []);
    }

    // The head of the loop: on to the next client, or out of it and clear the marker.
    method Head(t: TaskId, job: Job, i: nat, ghost failed: seq<Failure>, ghost s0: State)
      requires Valid() && Run(s0, s, t, []) && PcOf(s, t) == Loop(job, i, failed)
      modifies this`s, table`count, table.fds, table.auth
      ensures Valid() && Run(s0, s, t, [])
      ensures if i >= |job.fds| then PcOf(s, t) == TxEnding(failed)
              else if job.recheck then PcOf(s, t) == CheckWant(job, i, failed)
              else PcOf(s, t).Sending? && PcOf(s, t) == Sending(job, i, failed, PcOf(s, t).id, false)
    {
      hide Run;
      Others(t, s0, []);
      Do(t, LoopHead(t), s0, []);
    }

    // One send(); what it answers is up to the socket.
    method PutPart(t: TaskId, job: Job, i: nat, ghost failed: seq<Failure>, ghost s0: State) returns (ok: bool)
      requires Valid() && Run(s0, s, t, []) && PcOf(s, t).Sending?
      requires PcOf(s, t).job == job && PcOf(s, t).i == i && PcOf(s, t).failed == failed
      modifies this`s, table`count, table.fds, table.auth
      ensures Valid() && Run(s0, s, t, [])
      ensures !ok ==> PcOf(s, t) == EvictWant(job, i, failed)
      ensures ok && old(PcOf(s, t).headerDone) ==> PcOf(s, t) == Loop(job, i + 1, failed)
      ensures ok && !old(PcOf(s, t).headerDone) ==> PcOf(s, t) == old(PcOf(s, t)).(headerDone := true)
    {
      hide Run;
      Others(t, s0, []);
      ok := *;
      Do(t, Write(t, ok), s0, []);
    }

    method GiveUpTx(t: TaskId, ghost failed: seq<Failure>, ghost s0: State)
      requires Valid() && Run(s0, s, t, []) && PcOf(s, t) == TxEnding(failed)
      modifies this`s, table`count, table.fds, table.auth
      ensures Valid() && Run(s0, s, t, []) && PcOf(s, t) == Closing(failed)
    {
      hide Run;
      Others(t, s0, []);
      Do(t, GiveTx(t), s0, []);
    }

    // httpd_sess_trigger_close for the head of the list, if this call removed it.
    method CloseOne(t: TaskId, ghost failed: seq<Failure>, ghost s0: State, ghost closes: seq<Fd>)
      requires Valid() && Run(s0, s, t, closes) && PcOf(s, t) == Closing(failed)
      modifies this`s, table`count, table.fds, table.auth
      ensures Valid() && PcOf(s, t) == if failed == [] then Idle else Closing(failed[1..])
      ensures Run(s0, s, t, if failed != [] && failed[0].removal.Some? then closes + [failed[0].fd] else closes)
    {
      hide Run;
      Others(t, s0, closes);
      assert closes + [] == closes;
      Do(t, Close(t), s0, closes);
    }

    // fd_may_receive
    method Recheck(t: TaskId, job: Job, i: nat, ghost failed: seq<Failure>, ghost s0: State) returns (may: bool)
      requires Valid() && Run(s0, s, t, []) && i < |job.fds| && PcOf(s, t) == CheckWant(job, i, failed)
      modifies this`s, table`count, table.fds, table.auth
      ensures Valid() && Run(s0, s, t, [])
      ensures if may then PcOf(s, t).Sending? && PcOf(s, t) == Sending(job, i, failed, PcOf(s, t).id, false)
              else PcOf(s, t) == Loop(job, i + 1, failed)
    {
      hide Run;
      WaitM(t, s0, []);
      Enter(t, s0);
      ghost var s1;
      may, s1 := table.CheckSection(job.fds[i], s.authOn, s, t);
      CheckFresh(s, t);
      Leave(t, s1, s0);
    }

    // remove_fd_quiet after a failed send
    method Evict(t: TaskId, job: Job, i: nat, ghost failed: seq<Failure>, ghost s0: State) returns (left: int, ghost f: Failure)
      requires Valid() && Run(s0, s, t, []) && i < |job.fds| && PcOf(s, t) == EvictWant(job, i, failed)
      modifies this`s, table`count, table.fds, table.auth
      ensures Valid() && Run(s0, s, t, []) && PcOf(s, t) == Loop(job, i + 1, failed + [f])
      ensures f.fd == job.fds[i] && (f.removal.Some? <==> left >= 0)
    {
      hide Run;
      WaitM(t, s0, []);
      Enter(t, s0);
      ghost var s1;
      left, s1 := table.EvictSection(job.fds[i], s, t);
      f := Failure(job.fds[i], if left >= 0 then Some(|s.log|) else None);
      Leave(t, s1, s0);
    }

    // Into the critical section of s_mutex.
    method Enter(t: TaskId, ghost s0: State)
      requires Valid() && Run(s0, s, t, []) && WantsM(PcOf(s, t)) && s.mtx.None?
      modifies this`s, table`count, table.fds, table.auth
      ensures Valid() && Run(s0, s, t, []) && PcOf(s, t) == Locked(old(PcOf(s, t)))
    {
      hide Run;
      Do(t, Lock(t), s0, []);
      Others(t, s0, []);
    }

    // The state after it; the arrays are there already.
    method Leave(t: TaskId, ghost s1: State, ghost s0: State)
      requires table.Valid() && Run(s0, s, t, []) && HoldsM(PcOf(s, t)) && s1 == DoTable(s, t) && table.Table() == s1.table
      modifies this`s
      ensures Valid() && s == s1 && Run(s0, s, t, [])
    {
      hide Run;
      RunNext(s0, s, t, [], Table(t));
      ghost var none: seq<Fd> := [];
      assert none + [] == none;
      s := DoTable(s, t);
    }

    method Begin(t: TaskId, job: Job, ghost s0: State)
      requires Valid() && Run(s0, s, t, []) && PcOf(s, t) == TxWant(job)
      modifies this`s, table`count, table.fds, table.auth
      ensures Valid() && Run(s0, s, t, []) && PcOf(s, t) == Loop(job, 0, [])
    {
      hide Run;
      TakeTx(t, job, s0);
      SetMarker(t, job, s0);
    }

    method End(t: TaskId, job: Job, ghost failed: seq<Failure>, ghost s0: State)
      requires Valid() && Run(s0, s, t, []) && PcOf(s, t) == Loop(job, |job.fds|, failed)
      modifies this`s, table`count, table.fds, table.auth
      ensures Valid() && Run(s0, s, t, []) && PcOf(s, t) == Closing(failed)
    {
      hide Run;
      Head(t, job, |job.fds|, failed, s0);
      GiveUpTx(t, failed, s0);
    }

    // send_locked: whatever the others do meanwhile, a run of the system, with exactly
    // these closes; and after it every removal the task has made is closed.
    method SendLocked(t: TaskId, targets: seq<Fd>, recheck: bool) returns (closes: seq<Fd>)
      requires Valid() && Inv(s) && PcOf(s, t) == TxWant(Job(targets, recheck))
      modifies this`s, table`count, table.fds, table.auth
      ensures Valid() && PcOf(s, t).Idle? && Run(old(s), s, t, closes)
      ensures AllClosed(s, t)
    {
      hide Inv, Run, Match;
      ghost var s0 := s;
      RunStarts(s, t);
      Begin(t, Job(targets, recheck), s0);
      var err, left := new bool[|targets|], new int[|targets|];
      ghost var failed := SendAll(t, targets, recheck, err, left, s0);
      End(t, Job(targets, recheck), failed, s0);
      closes := CloseAll(t, targets, err, left, failed, s0);
      ClosedAtEnd(s0, s, t, closes);
    }

    // The loop under the TX mutex.
    method SendAll(t: TaskId, targets: seq<Fd>, recheck: bool, err: array<bool>, left: array<int>, ghost s0: State) returns (ghost failed: seq<Failure>)
      requires Valid() && Run(s0, s, t, []) && PcOf(s, t) == Loop(Job(targets, recheck), 0, [])
      requires err.Length == left.Length == |targets| && err != table.auth
      modifies this`s, table`count, table.fds, table.auth, err, left
      ensures Valid() && Run(s0, s, t, []) && PcOf(s, t) == Loop(Job(targets, recheck), |targets|, failed)
      ensures Match(targets, err[..], left[..], failed)
    {
      hide Run, Errors;
      var i := 0;
      failed := [];
      NothingYet(targets, err[..0], left[..0]);
      while i < |targets|
        invariant i <= |targets| && Valid() && Run(s0, s, t, [])
        invariant PcOf(s, t) == Loop(Job(targets, recheck), i, failed) && Match(targets, err[..i], left[..i], failed)
      {
        ghost var errs, lefts := err[..i], left[..i];
        var e, l;
        ghost var f;
        e, l, f := SendOne(t, Job(targets, recheck), i, failed, s0);
        err[i], left[i] := e, l;
        assert err[..i + 1] == errs + [e] && left[..i + 1] == lefts + [l];
        MatchNext(targets, errs, lefts, failed, e, l, f);
        failed := if e then failed + [f] else failed;
        i := i + 1;
      }
      assert err[..i] == err[..] && left[..i] == left[..];
    }

    // One turn of it: look the client up again, write the two parts, take it out if a
    // part fails.
    method SendOne(t: TaskId, job: Job, i: nat, ghost failed: seq<Failure>, ghost s0: State) returns (e: bool, l: int, ghost f: Failure)
      requires Valid() && Run(s0, s, t, []) && i < |job.fds| && PcOf(s, t) == Loop(job, i, failed)
      modifies this`s, table`count, table.fds, table.auth
      ensures Valid() && Run(s0, s, t, [])
      ensures PcOf(s, t) == Loop(job, i + 1, if e then failed + [f] else failed)
      ensures e ==> f.fd == job.fds[i] && (f.removal.Some? <==> l >= 0)
    {
      hide Run;
      e, l, f := false, -1, Failure(0, None);
      Head(t, job, i, failed, s0);
      if job.recheck {
        var may := Recheck(t, job, i, failed, s0);
        if !may { return; }
      }
      var ok := PutPart(t, job, i, failed, s0);
      if ok { ok := PutPart(t, job, i, failed, s0); }
      if !ok {
        e := true;
        l, f := Evict(t, job, i, failed, s0);
      }
    }

    // The closes, after both mutexes are given back.
    method CloseAll(t: TaskId, targets: seq<Fd>, err: array<bool>, left: array<int>, ghost failed: seq<Failure>, ghost s0: State) returns (closes: seq<Fd>)
      requires Valid() && Run(s0, s, t, []) && PcOf(s, t) == Closing(failed)
      requires err.Length == left.Length == |targets| && err != table.auth && Match(targets, err[..], left[..], failed)
      modifies this`s, table`count, table.fds, table.auth
      ensures Valid() && PcOf(s, t).Idle? && Run(s0, s, t, closes)
    {
      hide Run;
      closes := [];
      ghost var errs, lefts := err[..], left[..];
      var i := 0;
      assert errs[..0] == [];
      while i < |targets|
        invariant i <= |targets| && Valid() && Run(s0, s, t, closes) && err[..] == errs && left[..] == lefts
        invariant Errors(errs[..i]) <= |failed| && PcOf(s, t) == Closing(failed[Errors(errs[..i])..])
      {
        ErrorsUpTo(errs, i);
        if err[i] {
          CloseOne(t, failed[Errors(errs[..i])..], s0, closes);
          if left[i] >= 0 { closes := closes + [targets[i]]; }
        }
        i := i + 1;
      }
      assert errs[..i] == errs;
      CloseOne(t, [], s0, closes);
    }
  }

  lemma RunTable(s0: State, s: State, t: TaskId, closes: seq<Fd>)
    requires Run(s0, s, t, closes)
    ensures |s.table| <= MAX_CLIENTS
  {
  }

  lemma CheckFresh(s: State, t: TaskId)
    requires PcOf(s, t).CheckIn?
    ensures var pc, after := PcOf(s, t), PcOf(DoTable(s, t), t);
            after.Sending? ==> after == Sending(pc.job, pc.i, pc.failed, after.id, false)
  {
  }

  lemma HolderLeaves(s: State, t: TaskId, h: TaskId)
    requires Inv(s) && s.mtx == Some(h) && WantsM(PcOf(s, t))
    ensures h != t && Enabled(s, Table(h)) && Apply(s, Table(h)).mtx.None?
  {
    assert TaskLocks(s, h) && TaskLocks(s, t);
  }

  lemma OthersAdvance(s: State, t: TaskId)
    requires Inv(s) && PcOf(s, t).TxWant? && s.tx.Some?
    ensures var u := Unblocked(s, t);
            && u != t && !PcOf(s, u).Idle? && !PcOf(s, u).Stuck?
            && var l := NextStep(PcOf(s, u), u);
            Enabled(s, l) && Owner(l) == Some(u) && Total(Apply(s, l).pcs) < Total(s.pcs)
  {
    var u := Unblocked(s, t);
    assert TaskLocks(s, t) && TaskLocks(s, u);
    NoDeadlock(s, t);
    TotalShrinks(s, NextStep(PcOf(s, u), u), u);
  }
}
