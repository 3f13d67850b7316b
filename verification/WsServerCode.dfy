// The client table of ws_server.cpp as code over its two arrays; each method is the
// body of one critical section of s_mutex and is proved equal to the table function
// the step system uses.
module WsServerCode {
  import opened Common
  import opened WsServer
  import opened WsServerSafety

  lemma IndexOfPrefix(tab: seq<Client>, n: nat, fd: Fd)
    requires n <= |tab| && IndexOf(tab[..n], fd).Some?
    ensures IndexOf(tab, fd) == IndexOf(tab[..n], fd)
    decreases |tab| - n
  {
    if n < |tab| {
      assert tab[..n + 1][..n] == tab[..n];
      IndexOfPrefix(tab, n + 1, fd);
    } else {
      assert tab[..n] == tab;
    }
  }

  // ── One sweep of send_locked, undisturbed ────────────────────────────────

  // What the send loop leaves behind: the table, which sends failed, and which of
  // those removed their fd.
  datatype Sweep = Sweep(tab: seq<Client>, failed: seq<bool>, mine: seq<bool>)

  // `sent` says whether the send to each fd succeeds, if it is tried.
  function SweepAll(tab: seq<Client>, fds: seq<Fd>, recheck: bool, authOn: bool, sent: seq<bool>): (r: Sweep)
    requires |sent| == |fds|
    ensures |r.failed| == |r.mine| == |fds|
  {
    if fds == [] then Sweep(tab, [], [])
    else
      var n := |fds| - 1;
      SweepOne(SweepAll(tab, fds[..n], recheck, authOn, sent[..n]), fds[n], recheck, authOn, sent[n])
  }

  function SweepOne(w: Sweep, fd: Fd, recheck: bool, authOn: bool, sent: bool): Sweep {
    if (recheck && !MayReceive(w.tab, fd, authOn)) || sent then Sweep(w.tab, w.failed + [false], w.mine + [false])
    else Sweep(TabRemove(w.tab, fd), w.failed + [true], w.mine + [Present(w.tab, fd)])
  }

  // The fds whose session is closed, in order.
  function Closes(fds: seq<Fd>, mine: seq<bool>): seq<Fd>
    requires |fds| == |mine|
  {
    if fds == [] then []
    else
      var n := |fds| - 1;
      Closes(fds[..n], mine[..n]) + if mine[n] then [fds[n]] else []
  }

  // f was removed by this sweep.
  ghost predicate Dropped(fds: seq<Fd>, mine: seq<bool>, f: Fd)
    requires |fds| == |mine|
  {
    exists i :: 0 <= i < |fds| && fds[i] == f && mine[i]
  }

  lemma {:induction false} ClosesAreDropped(fds: seq<Fd>, mine: seq<bool>, f: Fd)
    requires |fds| == |mine|
    ensures f in Closes(fds, mine) <==> Dropped(fds, mine, f)
  {
    if fds != [] {
      var n := |fds| - 1;
      ClosesAreDropped(fds[..n], mine[..n], f);
      DroppedLast(fds, mine, f);
    }
  }

  lemma DroppedLast(fds: seq<Fd>, mine: seq<bool>, f: Fd)
    requires |fds| == |mine| > 0
    ensures var n := |fds| - 1;
            Dropped(fds, mine, f) <==> Dropped(fds[..n], mine[..n], f) || (fds[n] == f && mine[n])
  {
    var n := |fds| - 1;
    if Dropped(fds[..n], mine[..n], f) {
      var i :| 0 <= i < n && fds[..n][i] == f && mine[..n][i];
      assert fds[i] == f && mine[i];
    }
    if Dropped(fds, mine, f) {
      var i :| 0 <= i < |fds| && fds[i] == f && mine[i];
      if i < n { assert fds[..n][i] == f && mine[..n][i]; }
    }
  }

  // A send fails if it was tried and did not succeed; the broadcast tries only clients
  // that may receive.  A failed client leaves the table if it was there; everybody
  // else is as before.
  ghost predicate SweepOk(tab: seq<Client>, fds: seq<Fd>, recheck: bool, authOn: bool, sent: seq<bool>, w: Sweep)
    requires |fds| == |sent| == |w.failed| == |w.mine|
  {
    && TabOk(w.tab)
    && (forall i :: 0 <= i < |fds| ==> (w.failed[i] <==> !sent[i] && (recheck ==> MayReceive(tab, fds[i], authOn))))
    && (forall i :: 0 <= i < |fds| ==> (w.mine[i] <==> w.failed[i] && Present(tab, fds[i])))
    && (forall f: Fd :: Present(w.tab, f) <==> Present(tab, f) && !Dropped(fds, w.mine, f))
    && (forall f: Fd :: Present(w.tab, f) ==> MayReceive(w.tab, f, authOn) == MayReceive(tab, f, authOn))
  }

  // The local arrays of send_locked hold the sweep's outcome.
  ghost predicate Recorded(w: Sweep, tab: seq<Client>, err: seq<bool>, left: seq<int>) {
    && tab == w.tab && err == w.failed && |left| == |err| == |w.mine|
    && forall k :: 0 <= k < |err| ==> (err[k] && left[k] >= 0 <==> w.mine[k])
  }

  lemma SweepNext(tab: seq<Client>, fds: seq<Fd>, recheck: bool, authOn: bool, sent: seq<bool>, i: nat)
    requires i < |fds| == |sent|
    ensures SweepAll(tab, fds[..i + 1], recheck, authOn, sent[..i + 1]) ==
            SweepOne(SweepAll(tab, fds[..i], recheck, authOn, sent[..i]), fds[i], recheck, authOn, sent[i])
  {
    assert fds[..i + 1][..i] == fds[..i] && sent[..i + 1][..i] == sent[..i];
  }

  lemma SweepStarts(tab: seq<Client>, fds: seq<Fd>, recheck: bool, authOn: bool, sent: seq<bool>)
    requires |fds| == |sent|
    ensures Recorded(SweepAll(tab, fds[..0], recheck, authOn, sent[..0]), tab, [], [])
  {
  }

  lemma RecordedNext(w: Sweep, err: seq<bool>, left: seq<int>, fd: Fd, recheck: bool, authOn: bool, sent: bool, e: bool, l: int)
    requires Recorded(w, w.tab, err, left)
    requires e == (!(recheck && !MayReceive(w.tab, fd, authOn)) && !sent) && (l >= 0 <==> e && Present(w.tab, fd))
    ensures Recorded(SweepOne(w, fd, recheck, authOn, sent), if e then TabRemove(w.tab, fd) else w.tab, err + [e], left + [l])
  {
  }

  lemma RemoveKeepsAuth(tab: seq<Client>, fd: Fd, f: Fd, authOn: bool)
    requires TabOk(tab) && f != fd
    ensures MayReceive(TabRemove(tab, fd), f, authOn) == MayReceive(tab, f, authOn)
  {
    RemoveOk(tab, fd);
    var r, tab' := IndexOf(tab, fd), TabRemove(tab, fd);
    if r.Some? && Present(tab, f) {
      var i, j, last := IndexOf(tab, f).value, IndexOf(tab', f).value, |tab| - 1;
      assert tab'[j] == if j == r.value then tab[last] else tab[j];
      assert tab[if j == r.value then last else j].fd == tab[i].fd;
    }
  }

  // The table after one more fd.
  lemma SweepTable(tab: seq<Client>, v: Sweep, fd: Fd, authOn: bool)
    requires TabOk(v.tab)
    requires forall f: Fd :: Present(v.tab, f) ==> MayReceive(v.tab, f, authOn) == MayReceive(tab, f, authOn)
    ensures var t := TabRemove(v.tab, fd);
            && TabOk(t)
            && (forall f: Fd :: Present(t, f) <==> Present(v.tab, f) && f != fd)
            && (forall f: Fd :: Present(t, f) ==> MayReceive(t, f, authOn) == MayReceive(tab, f, authOn))
  {
    RemoveOk(v.tab, fd);
    forall f: Fd | f != fd ensures MayReceive(TabRemove(v.tab, fd), f, authOn) == MayReceive(v.tab, f, authOn) {
      RemoveKeepsAuth(v.tab, fd, f, authOn);
    }
  }

  lemma SweepGrows(tab: seq<Client>, fds: seq<Fd>, fd: Fd, recheck: bool, authOn: bool, sent: seq<bool>, ok: bool, v: Sweep)
    requires fd !in fds && |fds| == |sent| == |v.failed| == |v.mine| && SweepOk(tab, fds, recheck, authOn, sent, v)
    ensures SweepOk(tab, fds + [fd], recheck, authOn, sent + [ok], SweepOne(v, fd, recheck, authOn, ok))
  {
    var w, fds' := SweepOne(v, fd, recheck, authOn, ok), fds + [fd];
    assert !Dropped(fds, v.mine, fd);
    assert Present(v.tab, fd) <==> Present(tab, fd);
    assert MayReceive(v.tab, fd, authOn) == MayReceive(tab, fd, authOn);
    SweepTable(tab, v, fd, authOn);
    assert fds'[..|fds|] == fds && w.mine[..|fds|] == v.mine;
    forall f: Fd ensures Dropped(fds', w.mine, f) <==> Dropped(fds, v.mine, f) || (fd == f && w.mine[|fds|]) {
      DroppedLast(fds', w.mine, f);
    }
  }

  lemma {:induction false} SweepEffect(tab: seq<Client>, fds: seq<Fd>, recheck: bool, authOn: bool, sent: seq<bool>)
    requires TabOk(tab) && Distinct(fds) && |sent| == |fds|
    ensures SweepOk(tab, fds, recheck, authOn, sent, SweepAll(tab, fds, recheck, authOn, sent))
  {
    if fds != [] {
      var n := |fds| - 1;
      SweepEffect(tab, fds[..n], recheck, authOn, sent[..n]);
      SweepGrows(tab, fds[..n], fds[n], recheck, authOn, sent[..n], sent[n], SweepAll(tab, fds[..n], recheck, authOn, sent[..n]));
      assert fds[..n] + [fds[n]] == fds && sent[..n] + [sent[n]] == sent;
    }
  }

  class ClientTable {
    const fds: array<Fd>
    const auth: array<bool>
    var count: nat

    ghost predicate Valid()
      reads this
    {
      fds.Length == MAX_CLIENTS && auth.Length == MAX_CLIENTS && count <= MAX_CLIENTS
    }

    ghost function Table(): (r: seq<Client>)
      requires Valid()
      reads this, fds, auth
      ensures |r| == count && forall i :: 0 <= i < count ==> r[i] == Client(fds[i], auth[i])
    {
      seq(count, i requires 0 <= i < count reads this, fds, auth requires Valid() => Client(fds[i], auth[i]))
    }

    constructor ()
      ensures Valid() && Table() == [] && fresh(fds) && fresh(auth)
    {
      fds, auth, count := new Fd[MAX_CLIENTS](_ => 0), new bool[MAX_CLIENTS](_ => false), 0;
    }

    // The scan every operation starts with.
    method Find(fd: Fd) returns (r: Option<nat>)
      requires Valid()
      ensures r == IndexOf(Table(), fd)
    {
      var i := 0;
      while i < count
        invariant i <= count
        invariant IndexOf(Table()[..i], fd) == None
      {
        assert Table()[..i + 1][..i] == Table()[..i];
        if fds[i] == fd {
          IndexOfPrefix(Table(), i + 1, fd);
          return Some(i);
        }
        i := i + 1;
      }
      assert Table()[..i] == Table();
      return None;
    }

    // add_fd
    method AddFd(fd: Fd, authed: bool) returns (ok: bool)
      requires Valid()
      modifies this`count, fds, auth
      ensures Valid() && Table() == TabAdd(old(Table()), fd, authed)
      ensures ok <==> Present(old(Table()), fd) || old(count) < MAX_CLIENTS
    {
      var r := Find(fd);
      if r.Some? {
        auth[r.value] := authed;
        assert Table() == old(Table())[r.value := Client(fd, authed)];
        return true;
      }
      if count < MAX_CLIENTS {
        fds[count], auth[count] := fd, authed;
        count := count + 1;
        assert Table() == old(Table()) + [Client(fd, authed)];
        return true;
      }
      return false;
    }

    // remove_fd_quiet: the table size afterwards, or -1 if fd was not there.
    method RemoveFdQuiet(fd: Fd) returns (left: int)
      requires Valid()
      modifies this`count, fds, auth
      ensures Valid() && Table() == TabRemove(old(Table()), fd)
      ensures left == if Present(old(Table()), fd) then count else -1
    {
      var r := Find(fd);
      if r.None? { return -1; }
      count := count - 1;
      fds[r.value] := fds[count];
      auth[r.value] := auth[count];
      var was := old(Table());
      assert Table() == was[r.value := was[|was| - 1]][..|was| - 1];
      return count;
    }

    // fd_may_receive
    method FdMayReceive(fd: Fd, authOn: bool) returns (ok: bool)
      requires Valid()
      ensures ok == MayReceive(Table(), fd, authOn)
    {
      var r := Find(fd);
      return r.Some? && (!authOn || auth[r.value]);
    }

    // ws_server_fd_set_authed
    method SetAuthed(fd: Fd)
      requires Valid()
      modifies auth
      ensures Valid() && Table() == TabSetAuthed(old(Table()), fd)
    {
      var r := Find(fd);
      if r.Some? {
        auth[r.value] := true;
        assert Table() == old(Table())[r.value := Client(fd, true)];
      }
    }

    // ws_server_fd_deauth_all
    method DeauthAll()
      requires Valid()
      modifies auth
      ensures Valid() && Table() == TabDeauthAll(old(Table()))
    {
      var i := 0;
      while i < count
        invariant i <= count
        invariant forall k :: 0 <= k < i ==> !auth[k]
      {
        auth[i] := false;
        i := i + 1;
      }
      assert Table() == TabDeauthAll(old(Table()));
    }

    // ── Each critical section of s_mutex performs the step of the system, in whatever
    //    state the other tasks have left it ──

    // adopt_client, ensure_fd, remove_fd and the two sign-in operations: `full` means
    // the new connection must be closed, `absent` that ensure_fd goes on to adopt.
    method TableSection(op: TableOp, ghost s: State, ghost t: TaskId) returns (full: bool, absent: bool, ghost s': State)
      requires Valid() && Table() == s.table && PcOf(s, t) == TabIn(op)
      modifies this`count, fds, auth
      ensures Valid() && s' == DoTable(s, t) && Table() == s'.table
      ensures full <==> op.Add? && PcOf(s', t) == AdoptClosing(op.fd)
      ensures absent <==> op.Ensure? && PcOf(s', t) == TabWant(Add(op.fd, op.authed))
      ensures !full && !absent ==> PcOf(s', t).Idle?
    {
      full, absent, s' := false, false, DoTable(s, t);
      match op
      case Add(fd, authed) =>
        var ok := AddFd(fd, authed);
        full := !ok;
      case Ensure(fd, authed) =>
        var r := Find(fd);
        absent := r.None?;
      case Remove(fd) =>
        var left := RemoveFdQuiet(fd);
      case SetAuthed(fd) =>
        SetAuthed(fd);
      case DeauthAll =>
        DeauthAll();
    }

    // The snapshot at the start of a broadcast.
    method SnapSection(ghost s: State, ghost t: TaskId) returns (snap: seq<Client>, ghost s': State)
      requires Valid() && Table() == s.table && PcOf(s, t).SnapIn?
      ensures s' == DoTable(s, t) && Table() == s'.table
      ensures PcOf(s', t) == Filtering(PcOf(s, t).authReq, snap, [])
    {
      snap, s' := [], DoTable(s, t);
      var i := 0;
      while i < count
        invariant i <= count && snap == Table()[..i]
      {
        snap := snap + [Client(fds[i], auth[i])];
        i := i + 1;
      }
    }

    // The removal of a dead session before a broadcast.
    method FilterSection(fd: Fd, ghost s: State, ghost t: TaskId) returns (ghost s': State)
      requires Valid() && Table() == s.table && PcOf(s, t).FilterIn? && PcOf(s, t).todo != [] && PcOf(s, t).todo[0].fd == fd
      modifies this`count, fds, auth
      ensures Valid() && s' == DoTable(s, t) && Table() == s'.table
    {
      s' := DoTable(s, t);
      var left := RemoveFdQuiet(fd);
    }

    // The re-check under the TX mutex: the send goes ahead exactly if it says so.
    method CheckSection(fd: Fd, authOn: bool, ghost s: State, ghost t: TaskId) returns (may: bool, ghost s': State)
      requires Valid() && Table() == s.table && authOn == s.authOn
      requires PcOf(s, t).CheckIn? && fd == Cur(PcOf(s, t).job, PcOf(s, t).i)
      ensures s' == DoTable(s, t) && Table() == s'.table
      ensures if may then PcOf(s', t).Sending? else PcOf(s', t) == Loop(PcOf(s, t).job, PcOf(s, t).i + 1, PcOf(s, t).failed)
    {
      s' := DoTable(s, t);
      may := FdMayReceive(fd, authOn);
    }

    // The eviction after a failed send: a close is due exactly if left >= 0, and then
    // for the event this section logs.
    method EvictSection(fd: Fd, ghost s: State, ghost t: TaskId) returns (left: int, ghost s': State)
      requires Valid() && Table() == s.table && PcOf(s, t).EvictIn? && fd == Cur(PcOf(s, t).job, PcOf(s, t).i)
      modifies this`count, fds, auth
      ensures Valid() && s' == DoTable(s, t) && Table() == s'.table
      ensures PcOf(s', t) == Loop(PcOf(s, t).job, PcOf(s, t).i + 1,
                                  PcOf(s, t).failed + [Failure(fd, if left >= 0 then Some(|s.log|) else None)])
      ensures left >= 0 ==> s'.log == s.log + [Removed(fd, Some(t))]
    {
      s' := DoTable(s, t);
      left := RemoveFdQuiet(fd);
    }

    // One turn of the loop of send_locked, recorded in the local arrays.
    method SendStep(targets: seq<Fd>, i: nat, recheck: bool, authOn: bool, sent: seq<bool>, err: array<bool>, left: array<int>, ghost tab: seq<Client>)
      requires Valid() && i < |targets| == |sent| == err.Length == left.Length && err != auth
      requires Recorded(SweepAll(tab, targets[..i], recheck, authOn, sent[..i]), Table(), err[..i], left[..i])
      modifies this`count, fds, auth, err, left
      ensures Valid()
      ensures Recorded(SweepAll(tab, targets[..i + 1], recheck, authOn, sent[..i + 1]), Table(), err[..i + 1], left[..i + 1])
    {
      hide SweepAll, SweepOne, MayReceive, TabRemove;
      ghost var w := SweepAll(tab, targets[..i], recheck, authOn, sent[..i]);
      ghost var errs, lefts := err[..i], left[..i];
      var e, l := SendOne(targets[i], recheck, authOn, sent[i]);
      err[i], left[i] := e, l;
      assert err[..i + 1] == errs + [e] && left[..i + 1] == lefts + [l];
      SweepNext(tab, targets, recheck, authOn, sent, i);
      RecordedNext(w, errs, lefts, targets[i], recheck, authOn, sent[i], e, l);
    }

    // The loop of send_locked under the TX mutex: `left` is the table size after the
    // removal, or -1.
    method SendLoop(targets: seq<Fd>, recheck: bool, authOn: bool, sent: seq<bool>, err: array<bool>, left: array<int>)
      requires Valid() && |sent| == |targets| == err.Length == left.Length && err != auth
      modifies this`count, fds, auth, err, left
      ensures Valid()
      ensures Recorded(SweepAll(old(Table()), targets, recheck, authOn, sent), Table(), err[..], left[..])
    {
      ghost var tab := Table();
      var i := 0;
      SweepStarts(tab, targets, recheck, authOn, sent);
      hide SweepAll, Recorded;
      while i < |targets|
        invariant i <= |targets| && Valid()
        invariant Recorded(SweepAll(tab, targets[..i], recheck, authOn, sent[..i]), Table(), err[..i], left[..i])
      {
        SendStep(targets, i, recheck, authOn, sent, err, left, tab);
        i := i + 1;
      }
      assert targets[..i] == targets && sent[..i] == sent && err[..i] == err[..] && left[..i] == left[..];
    }

    method SendOne(fd: Fd, recheck: bool, authOn: bool, sent: bool) returns (failed: bool, left: int)
      requires Valid()
      modifies this`count, fds, auth
      ensures Valid() && failed == (!(recheck && !MayReceive(old(Table()), fd, authOn)) && !sent)
      ensures Table() == if failed then TabRemove(old(Table()), fd) else old(Table())
      ensures left >= 0 <==> failed && Present(old(Table()), fd)
    {
      if recheck {
        var may := FdMayReceive(fd, authOn);
        if !may { return false, -1; }
      }
      if sent { return false, -1; }
      left := RemoveFdQuiet(fd);
      return true, left;
    }
  }

  // The closes, after both mutexes are given back.
  method CloseFailed(targets: seq<Fd>, err: array<bool>, left: array<int>, ghost mine: seq<bool>) returns (closes: seq<Fd>)
    requires |targets| == |mine| == err.Length == left.Length
    requires forall k :: 0 <= k < |mine| ==> (err[k] && left[k] >= 0 <==> mine[k])
    ensures closes == Closes(targets, mine)
  {
    closes := [];
    var i := 0;
    while i < |targets|
      invariant i <= |targets| && closes == Closes(targets[..i], mine[..i])
    {
      assert targets[..i + 1][..i] == targets[..i] && mine[..i + 1][..i] == mine[..i];
      if err[i] && left[i] >= 0 { closes := closes + [targets[i]]; }
      i := i + 1;
    }
    assert targets[..i] == targets && mine[..i] == mine;
  }

  // send_locked with nothing in between.
  method SendLocked(table: ClientTable, targets: seq<Fd>, recheck: bool, authOn: bool, sent: seq<bool>) returns (closes: seq<Fd>)
    requires table.Valid() && TabOk(table.Table()) && Distinct(targets) && |sent| == |targets|
    modifies table`count, table.fds, table.auth
    ensures table.Valid()
    ensures var w := SweepAll(old(table.Table()), targets, recheck, authOn, sent);
            table.Table() == w.tab && closes == Closes(targets, w.mine)
  {
    var err, left := new bool[|targets|], new int[|targets|];
    ghost var w := SweepAll(table.Table(), targets, recheck, authOn, sent);
    table.SendLoop(targets, recheck, authOn, sent, err, left);
    closes := CloseFailed(targets, err, left, w.mine);
  }
}
