// The throttle bookkeeping against the full history of reports and app writes.
module RmkBridgeReports {
  import opened Common
  import opened RmkTypemap
  import opened RmkBridge
  import opened RmkBridgeSafety

  // The most recent report or recorded write of `h`.
  ghost function LastFor(log: seq<Entry>, h: Handle): (r: Option<Entry>)
    ensures r.Some? ==> r.value.handle == h
  {
    if log == [] then None
    else if log[|log| - 1].handle == h then Some(log[|log| - 1])
    else LastFor(log[..|log| - 1], h)
  }

  lemma {:induction false} LastForFound(log: seq<Entry>, h: Handle)
    ensures match LastFor(log, h)
            case Some(e) => exists k :: 0 <= k < |log| && log[k] == e
            case None => forall k :: 0 <= k < |log| ==> log[k].handle != h
  {
    if log != [] && log[|log| - 1].handle != h {
      LastForFound(log[..|log| - 1], h);
    }
  }

  ghost predicate ParamLog(log: seq<Entry>, p: Param) {
    p.handle.Some? ==>
      match LastFor(log, p.handle.value)
      case None => !p.hasLast
      case Some(e) => p.hasLast && p.lastReported == e.raw && p.lastReportUs == e.time
  }

  // An unforced report differs from what came last for its parameter and, unless
  // boolean, comes at least an interval after it.
  ghost predicate EntryOk(interval: nat, log: seq<Entry>, k: nat)
    requires k < |log|
  {
    var e, last := log[k], LastFor(log[..k], log[k].handle);
    e.sent && !e.forced && last.Some? ==>
      e.raw != last.value.raw && (!e.boolean ==> e.time - last.value.time >= interval)
  }

  ghost predicate AllOk(interval: nat, log: seq<Entry>) {
    forall k {:trigger EntryOk(interval, log, k)} :: 0 <= k < |log| ==> EntryOk(interval, log, k)
  }

  ghost predicate RegLog(s: State) {
    forall i, j :: 0 <= i < |s.reg| && 0 <= j < |s.reg[i].params| ==> ParamLog(s.log, s.reg[i].params[j])
  }

  ghost predicate LogInv(s: State) {
    && RegLog(s)
    && (forall k :: 0 <= k < |s.log| ==> s.log[k].handle.dev in s.committed)
    && AllOk(s.interval, s.log)
  }

  lemma EntriesAppend(interval: nat, log: seq<Entry>, e: Entry)
    requires AllOk(interval, log)
    requires EntryOk(interval, log + [e], |log|)
    ensures AllOk(interval, log + [e])
  {
    forall k | 0 <= k < |log| ensures EntryOk(interval, log + [e], k) {
      assert (log + [e])[..k] == log[..k];
      assert EntryOk(interval, log, k);
    }
  }

  // Stamping one parameter and logging the same event keeps every parameter in step
  // with the log, because no two registry parameters share a handle.
  lemma StampLog(s: State, s': State, slot: nat, j: nat, e: Entry)
    requires Inv(s) && RegLog(s) && slot < |s.reg| && j < |s.reg[slot].params|
    requires s.reg[slot].params[j].handle == Some(e.handle)
    requires s'.reg == StampAt(s.reg, slot, j, e.raw, e.time) && s'.log == s.log + [e]
    ensures RegLog(s')
  {
    assert s'.log[..|s.log|] == s.log;
    forall a, b | 0 <= a < |s'.reg| && 0 <= b < |s'.reg[a].params|
      ensures ParamLog(s'.log, s'.reg[a].params[b])
    {
      assert SlotInv(s, a) && SlotInv(s, slot);
      assert ParamLog(s.log, s.reg[a].params[b]);
    }
  }

  lemma StepLog(s: State, l: Label)
    requires Inv(s) && LogInv(s) && Enabled(s, l)
    ensures LogInv(Apply(s, l))
  {
    match l
    case Commit(t) => LogCommit(s, t);
    case Send(t, room) => LogSend(s, t, room);
    case RecordWrite(t) => LogRecord(s, t);
    case Reserve(t) => LogReserve(s, t);
    case ReleaseReservation(t) => LogRelease(s, t);
    case Clear(t) => LogClear(s, t);
    case _ =>
      StepQuiet(s, l);
      SameLog(s, Apply(s, l));
  }

  lemma StepQuiet(s: State, l: Label)
    requires Enabled(s, l)
    requires !l.Commit? && !l.Send? && !l.RecordWrite? && !l.Reserve? && !l.ReleaseReservation? && !l.Clear?
    ensures var s' := Apply(s, l);
            s'.reg == s.reg && s'.log == s.log && s'.committed == s.committed && s'.interval == s.interval
  {
  }

  lemma SameLog(s: State, s': State)
    requires LogInv(s) && s'.reg == s.reg && s'.log == s.log && s'.committed == s.committed && s'.interval == s.interval
    ensures LogInv(s')
  {
  }

  lemma LogReserve(s: State, t: TaskId)
    requires LogInv(s) && PcOf(s, t).ReserveLocked?
    ensures LogInv(DoReserve(s, t))
  {
  }

  lemma LogRelease(s: State, t: TaskId)
    requires LogInv(s) && PcOf(s, t).ReleaseLocked?
    ensures LogInv(DoRelease(s, t))
  {
  }

  lemma LogClear(s: State, t: TaskId)
    requires LogInv(s) && PcOf(s, t).ClearLocked?
    ensures LogInv(DoClear(s, t))
  {
  }

  lemma LogCommit(s: State, t: TaskId)
    requires Inv(s) && LogInv(s) && PcOf(s, t).CommitLocked?
    ensures LogInv(DoCommit(s, t))
  {
    var s', pc := DoCommit(s, t), PcOf(s, t);
    assert PcInv(s, t, pc);
    forall a, b | 0 <= a < |s'.reg| && 0 <= b < |s'.reg[a].params|
      ensures ParamLog(s'.log, s'.reg[a].params[b])
    {
      // a device that was never committed has no entry
      if s'.reg[a] != s.reg[a] { LastForFound(s.log, Handle(pc.dev, b)); }
    }
  }

  lemma LogSend(s: State, t: TaskId, room: bool)
    requires Inv(s) && LogInv(s) && PcOf(s, t).SendLocked?
    ensures LogInv(DoSend(s, t, room))
  {
    var s', pc := DoSend(s, t, room), PcOf(s, t);
    assert PcInv(s, t, pc) && SlotInv(s, pc.slot);
    if s'.log != s.log {
      var p := s.reg[pc.slot].params[pc.idx];
      var e := s'.log[|s.log|];
      assert ParamLog(s.log, p);
      assert (s.log + [e])[..|s.log|] == s.log;
      EntriesAppend(s.interval, s.log, e);
      StampLog(s, s', pc.slot, pc.idx, e);
      assert e.handle.dev in s.committed;
    }
  }

  lemma LogRecord(s: State, t: TaskId)
    requires Inv(s) && LogInv(s) && PcOf(s, t).WriteLocked?
    ensures LogInv(DoRecord(s, t))
  {
    var s', pc := DoRecord(s, t), PcOf(s, t);
    if s'.log != s.log {
      assert SlotInv(s, pc.slot);
      var e := s'.log[|s.log|];
      EntriesAppend(s.interval, s.log, e);
      StampLog(s, s', pc.slot, FindHandle(s.reg[pc.slot].params, pc.handle).value, e);
      assert e.handle.dev in s.committed;
    }
  }

  lemma {:induction false} RunLog(interval: nat, ls: seq<Label>)
    ensures Exec(interval, ls).Some? ==> LogInv(Exec(interval, ls).value)
    ensures Exec(interval, ls).Some? ==> Exec(interval, ls).value.interval == interval
  {
    if ls != [] {
      var before := ls[..|ls| - 1];
      RunLog(interval, before);
      RunInv(interval, before);
      if Exec(interval, ls).Some? {
        var s := Exec(interval, before).value;
        StepLog(s, ls[|ls| - 1]);
        StepKeepsInterval(s, ls[|ls| - 1]);
      }
    }
  }

  lemma StepKeepsInterval(s: State, l: Label)
    requires Enabled(s, l)
    ensures Apply(s, l).interval == s.interval
  {
  }

  // In every reachable state each registry parameter remembers exactly the last
  // report queued or write recorded for it since its device was created.
  lemma LastReportedIsLast(interval: nat, ls: seq<Label>, i: nat, j: nat)
    requires Exec(interval, ls).Some?
    requires i < |Exec(interval, ls).value.reg| && j < |Exec(interval, ls).value.reg[i].params|
    ensures ParamLog(Exec(interval, ls).value.log, Exec(interval, ls).value.reg[i].params[j])
  {
    RunLog(interval, ls);
  }

  // The update carries the value of the app write that is the last event of its
  // parameter in slot i.
  ghost predicate Echo(s: State, i: nat, u: Update)
    requires i < |s.reg|
  {
    var j := FindKey(s.reg[i].params, u.key);
    j.Some? && var p := s.reg[i].params[j.value];
    p.handle.Some? && var e := LastFor(s.log, p.handle.value);
    e.Some? && !e.value.sent && e.value.raw == u.val
  }

  // The echo of a recorded app write: when the last event of a parameter is a write
  // of `val`, an unforced update carrying the same value selects nothing.
  lemma EchoSuppressed(interval: nat, ls: seq<Label>, i: nat, u: Update)
    requires Exec(interval, ls).Some? && !u.force
    requires i < |Exec(interval, ls).value.reg| && Echo(Exec(interval, ls).value, i, u)
    ensures ScanTarget(Exec(interval, ls).value.reg[i].params, u, interval) == None
  {
    var s := Exec(interval, ls).value;
    LastReportedIsLast(interval, ls, i, FindKey(s.reg[i].params, u.key).value);
  }

  function TaskOf(l: Label): Option<TaskId> {
    if l.Take? || l.Finish? then None else Some(l.t)
  }

  // What the holder of the registry lock relies on while others run.
  ghost predicate Undisturbed(s: State, s': State, t: TaskId) {
    s'.lock == Some(t) && PcOf(s', t) == PcOf(s, t) && s'.reg == s.reg && s'.log == s.log && s'.interval == s.interval
  }

  lemma HolderUndisturbed(s: State, l: Label, t: TaskId)
    requires Inv(s) && s.lock == Some(t) && Enabled(s, l) && TaskOf(l) != Some(t)
    ensures Undisturbed(s, Apply(s, l), t)
  {
    if !l.Take? && !l.Finish? { assert !HoldsLock(PcOf(s, l.t)); }
    match l
    case Create(_, _) =>
    case Discard(_) =>
    case EnqueueTeardown(_, _) =>
    case Take =>
    case Finish =>
  }

  lemma ExecSnoc(interval: nat, ls: seq<Label>, l: Label)
    requires Exec(interval, ls + [l]).Some?
    ensures Exec(interval, ls).Some? && Enabled(Exec(interval, ls).value, l)
    ensures Exec(interval, ls + [l]).value == Apply(Exec(interval, ls).value, l)
  {
    assert (ls + [l])[..|ls|] == ls;
  }

  lemma {:induction false} OthersRun(interval: nat, ls: seq<Label>, more: seq<Label>, t: TaskId)
    requires Exec(interval, ls + more).Some? && forall k :: 0 <= k < |more| ==> TaskOf(more[k]) != Some(t)
    requires Exec(interval, ls).Some? ==> Exec(interval, ls).value.lock == Some(t)
    ensures Exec(interval, ls).Some? && Undisturbed(Exec(interval, ls).value, Exec(interval, ls + more).value, t)
    decreases |more|
  {
    if more == [] {
      assert ls + more == ls;
    } else {
      var n := |more| - 1;
      assert ls + more == (ls + more[..n]) + [more[n]];
      ExecSnoc(interval, ls + more[..n], more[n]);
      OthersRun(interval, ls, more[..n], t);
      RunInv(interval, ls + more[..n]);
      HolderUndisturbed(Exec(interval, ls + more[..n]).value, more[n], t);
    }
  }

  // Over a run: whatever other tasks and the consumer do between its start and its
  // scan, an unforced echo ends at the scan, with nothing queued and nothing logged.
  lemma EchoNeverReported(interval: nat, ls: seq<Label>, more: seq<Label>, t: TaskId, u: Update)
    requires !u.force && forall k :: 0 <= k < |more| ==> TaskOf(more[k]) != Some(t)
    requires Exec(interval, ls + [StartUpdate(t, u)] + more + [Scan(t)]).Some?
    requires Exec(interval, ls).Some? ==>
               var s := Exec(interval, ls).value;
               FindDev(s.reg, u.ieee).Some? && Echo(s, FindDev(s.reg, u.ieee).value, u)
    ensures Exec(interval, ls).Some? && Exec(interval, ls + [StartUpdate(t, u)] + more).Some?
    ensures var s := Exec(interval, ls).value;
            var scan := Exec(interval, ls + [StartUpdate(t, u)] + more).value;
            var end := Exec(interval, ls + [StartUpdate(t, u)] + more + [Scan(t)]).value;
            && end.log == s.log && end.reg == s.reg
            && end.queue == scan.queue && PcOf(end, t).Idle? && end.lock.None?
  {
    var started := ls + [StartUpdate(t, u)];
    ExecSnoc(interval, started + more, Scan(t));
    ExecPrefix(interval, started, more);
    ExecSnoc(interval, ls, StartUpdate(t, u));
    OthersRun(interval, started, more, t);
    var s := Exec(interval, ls).value;
    RunLog(interval, ls);
    EchoSuppressed(interval, ls, FindDev(s.reg, u.ieee).value, u);
  }

  lemma {:induction false} ExecPrefix(interval: nat, ls: seq<Label>, more: seq<Label>)
    requires Exec(interval, ls + more).Some?
    ensures Exec(interval, ls).Some?
    decreases |more|
  {
    if more == [] {
      assert ls + more == ls;
    } else {
      assert ls + more == (ls + more[..|more| - 1]) + [more[|more| - 1]];
      ExecSnoc(interval, ls + more[..|more| - 1], more[|more| - 1]);
      ExecPrefix(interval, ls, more[..|more| - 1]);
    }
  }

  // Unforced reports of non-boolean parameter `h` with a time in [from, from + len].
  ghost predicate Counted(e: Entry, h: Handle, from: int, len: nat) {
    e.handle == h && e.sent && !e.forced && !e.boolean && from <= e.time <= from + len
  }

  ghost function Count(log: seq<Entry>, h: Handle, from: int, len: nat): nat {
    if log == [] then 0
    else Count(log[..|log| - 1], h, from, len) + if Counted(log[|log| - 1], h, from, len) then 1 else 0
  }

  // The times of h's entries do not go back.
  ghost predicate Monotone(log: seq<Entry>, h: Handle) {
    forall i, j :: 0 <= i < j < |log| && log[i].handle == h && log[j].handle == h ==> log[i].time <= log[j].time
  }

  // The time n intervals take.
  ghost function Span(n: nat, interval: nat): nat {
    if n == 0 then 0 else Span(n - 1, interval) + interval
  }

  lemma {:induction false} SpanIsProduct(n: nat, interval: nat)
    ensures Span(n, interval) == n * interval
  {
    if n > 0 {
      SpanIsProduct(n - 1, interval);
      assert n * interval == (n - 1) * interval + interval;
    }
  }

  lemma LastIsEarlier(front: seq<Entry>, e: Entry, h: Handle)
    requires Monotone(front + [e], h) && LastFor(front, h).Some? && e.handle == h
    ensures LastFor(front, h).value.time <= e.time
  {
    LastForFound(front, h);
    var m :| 0 <= m < |front| && front[m] == LastFor(front, h).value;
    assert (front + [e])[m].time <= (front + [e])[|front|].time;
  }

  // n counted reports take at least n - 1 intervals after the start of the window.
  lemma {:induction false} CountSpread(interval: nat, log: seq<Entry>, h: Handle, from: int, len: nat)
    requires Monotone(log, h)
    requires AllOk(interval, log)
    ensures Count(log, h, from, len) > 0 ==>
              var last := LastFor(log, h);
              last.Some? && Span(Count(log, h, from, len) - 1, interval) <= Min(last.value.time - from, len)
  {
    if log != [] {
      var n := |log| - 1;
      var front, e := log[..n], log[n];
      assert log == front + [e];
      EntriesPrefix(interval, log, n);
      CountSpread(interval, front, h, from, len);
      CountStep(interval, log, h, from, len);
    }
  }

  lemma CountStep(interval: nat, log: seq<Entry>, h: Handle, from: int, len: nat)
    requires log != [] && Monotone(log, h) && EntryOk(interval, log, |log| - 1)
    requires var front := log[..|log| - 1];
             Count(front, h, from, len) > 0 ==>
               LastFor(front, h).Some?
               && Span(Count(front, h, from, len) - 1, interval) <= Min(LastFor(front, h).value.time - from, len)
    ensures Count(log, h, from, len) > 0 ==>
              LastFor(log, h).Some?
              && Span(Count(log, h, from, len) - 1, interval) <= Min(LastFor(log, h).value.time - from, len)
  {
    var n := |log| - 1;
    var front, e := log[..n], log[n];
    var c, last := Count(front, h, from, len), LastFor(front, h);
    assert log == front + [e];
    assert LastFor(log, h) == if e.handle == h then Some(e) else last;
    assert Count(log, h, from, len) == c + if Counted(e, h, from, len) then 1 else 0;
    if c > 0 && e.handle == h {
      LastIsEarlier(front, e, h);
      if Counted(e, h, from, len) {
        assert e.time - last.value.time >= interval;
        assert Span(c, interval) == Span(c - 1, interval) + interval;
      }
    }
  }

  lemma EntriesPrefix(interval: nat, log: seq<Entry>, n: nat)
    requires n <= |log| && AllOk(interval, log)
    ensures AllOk(interval, log[..n])
  {
    forall k | 0 <= k < n ensures EntryOk(interval, log[..n], k) {
      assert EntryOk(interval, log, k);
      assert log[..n][..k] == log[..k];
    }
  }

  lemma RateLimitedLog(interval: nat, log: seq<Entry>, h: Handle, from: int, len: nat)
    requires interval > 0 && Monotone(log, h)
    requires AllOk(interval, log)
    ensures Count(log, h, from, len) <= len / interval + 1
  {
    CountSpread(interval, log, h, from, len);
    var c := Count(log, h, from, len);
    if c > 0 {
      SpanIsProduct(c - 1, interval);
      QuotientBound(c - 1, interval, len);
    }
  }

  // With times of the parameter that do not go back, no window of length `len` holds more than
  // len / interval + 1 unforced reports of a non-boolean parameter.
  lemma RateLimited(interval: nat, ls: seq<Label>, h: Handle, from: int, len: nat)
    requires interval > 0 && Exec(interval, ls).Some?
    requires Monotone(Exec(interval, ls).value.log, h)
    ensures Count(Exec(interval, ls).value.log, h, from, len) <= len / interval + 1
  {
    RunLog(interval, ls);
    RateLimitedLog(interval, Exec(interval, ls).value.log, h, from, len);
  }

  lemma QuotientBound(q: int, d: int, n: int)
    requires d > 0 && q * d <= n
    ensures q <= n / d
  {
    if q > n / d {
      MulLe(n / d + 1, q, d);
    }
  }
}
