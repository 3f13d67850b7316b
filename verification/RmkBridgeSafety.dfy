// No queued report ever runs on a deleted device, in any interleaving.
module RmkBridgeSafety {
  import opened RmkTypemap
  import opened RmkBridge

  // Slots whose device stays put keep their invariant.
  lemma RegFrame(s: State, s': State)
    requires RegInv(s) && |s'.reg| == |s.reg|
    requires forall i :: 0 <= i < |s.reg| && s'.reg[i] != s.reg[i] ==> SlotInv(s', i)
    requires forall d: DevId ::
               (d in s.place && s.place[d].Registered? && s.place[d].slot < |s.reg|
                && s'.reg[s.place[d].slot] == s.reg[s.place[d].slot])
               ==> d in s'.place && s'.place[d] == s.place[d]
    ensures RegInv(s')
  {
    forall i | 0 <= i < |s'.reg| ensures SlotInv(s', i) {
      assert SlotInv(s, i);
    }
  }

  lemma InvAcquire(s: State, t: TaskId, pc: Pc)
    requires Inv(s) && s.lock.None? && HoldsLock(pc) && PcInv(s, t, pc)
    ensures Inv(Acquire(s, t, pc))
  {
    RegFrame(s, Acquire(s, t, pc));
    assert Pending(Acquire(s, t, pc)) == Pending(s);
  }

  lemma InvReserve(s: State, t: TaskId)
    requires Inv(s) && PcOf(s, t).ReserveLocked?
    ensures Inv(DoReserve(s, t))
  {
    RegFrame(s, DoReserve(s, t));
    assert Pending(DoReserve(s, t)) == Pending(s);
  }

  lemma InvRelease(s: State, t: TaskId)
    requires Inv(s) && PcOf(s, t).ReleaseLocked?
    ensures Inv(DoRelease(s, t))
  {
    RegFrame(s, DoRelease(s, t));
    assert Pending(DoRelease(s, t)) == Pending(s);
  }

  lemma InvCreate(s: State, t: TaskId, plans: seq<Plan>)
    requires Inv(s) && PcOf(s, t).Building?
    ensures Inv(DoCreate(s, t, plans))
  {
    assert forall i :: 0 <= i < |s.reg| ==> SlotInv(s, i);
    RegFrame(s, DoCreate(s, t, plans));
    assert Pending(DoCreate(s, t, plans)) == Pending(s);
  }

  lemma InvCommit(s: State, t: TaskId)
    requires Inv(s) && PcOf(s, t).CommitLocked?
    ensures Inv(DoCommit(s, t))
  {
    assert SlotInv(s, PcOf(s, t).slot);
    forall i | 0 <= i < |s.reg| ensures SlotInv(s, i) {}
    RegFrame(s, DoCommit(s, t));
    assert Pending(DoCommit(s, t)) == Pending(s);
  }

  lemma InvDiscard(s: State, t: TaskId)
    requires Inv(s) && PcOf(s, t).Discarding?
    ensures Inv(Delete(Go(s, t, Idle), PcOf(s, t).dev))
  {
    var s' := Delete(Go(s, t, Idle), PcOf(s, t).dev);
    RegFrame(s, s');
    assert Pending(s') == Pending(s);
  }

  lemma InvClear(s: State, t: TaskId)
    requires Inv(s) && PcOf(s, t).ClearLocked?
    ensures Inv(DoClear(s, t))
  {
    var r := FindDev(s.reg, PcOf(s, t).ieee);
    if r.Some? { assert SlotInv(s, r.value); }
    RegFrame(s, DoClear(s, t));
    assert Pending(DoClear(s, t)) == Pending(s);
  }

  lemma InvEnqueue(s: State, t: TaskId, room: bool)
    requires Inv(s) && PcOf(s, t).TearingDown?
    ensures Inv(DoEnqueue(s, t, room))
  {
    var s' := DoEnqueue(s, t, room);
    RegFrame(s, s');
    assert Pending(s') == Pending(s) + if room then [Teardown(PcOf(s, t).dev)] else [];
  }

  lemma InvScan(s: State, t: TaskId)
    requires Inv(s) && PcOf(s, t).ScanLocked?
    ensures Inv(DoScan(s, t))
  {
    RegFrame(s, DoScan(s, t));
    assert Pending(DoScan(s, t)) == Pending(s);
  }

  lemma InvSend(s: State, t: TaskId, room: bool)
    requires Inv(s) && PcOf(s, t).SendLocked?
    ensures Inv(DoSend(s, t, room))
  {
    var pc, s' := PcOf(s, t), DoSend(s, t, room);
    assert PcInv(s, t, pc);
    assert SlotInv(s, pc.slot);
    RegFrame(s, s');
    if (pc.u.force || pc.u.budget) && room {
      var p := s.reg[pc.slot].params[pc.idx];
      assert Pending(s') == Pending(s) + [Report(p.handle.value, ToRm(p.plan.row, pc.u.val))];
    }
  }

  lemma InvRecord(s: State, t: TaskId)
    requires Inv(s) && PcOf(s, t).WriteLocked?
    ensures Inv(DoRecord(s, t))
  {
    if PcOf(s, t).slot < |s.reg| { assert SlotInv(s, PcOf(s, t).slot); }
    RegFrame(s, DoRecord(s, t));
    assert Pending(DoRecord(s, t)) == Pending(s);
  }

  lemma InvTake(s: State)
    requires Inv(s) && s.running.None? && s.queue != []
    ensures Inv(DoTake(s))
  {
    assert Pending(DoTake(s)) == Pending(s);
    RegFrame(s, DoTake(s));
  }

  lemma FinishReg(s: State)
    requires Inv(s) && s.running.Some?
    ensures RegInv(DoFinish(s))
  {
    assert WorkInv(s, Pending(s)[0]) && Pending(s)[0] == s.running.value;
    RegFrame(s, DoFinish(s));
  }

  lemma FinishPending(s: State)
    requires s.running.Some?
    ensures Pending(DoFinish(s)) == s.queue && Pending(s) == [s.running.value] + s.queue
  {
    assert [] + s.queue == s.queue;
  }

  // What is left of the queue refers to none of the device just deleted.
  lemma FinishWork(s: State, i: nat)
    requires Inv(s) && s.running.Some? && i < |s.queue|
    ensures WorkInv(DoFinish(s), s.queue[i])
  {
    FinishPending(s);
    var p := Pending(s);
    assert p[i + 1] == s.queue[i] && WorkInv(s, p[i + 1]);
    assert p[0].Teardown? ==> WorkDev(p[i + 1]) != p[0].dev;
  }

  lemma OrderedTail(w: Work, ws: seq<Work>)
    requires Ordered([w] + ws)
    ensures Ordered(ws)
  {
    forall i, j | 0 <= i < j < |ws| && ws[i].Teardown? ensures WorkDev(ws[j]) != ws[i].dev {
      assert ([w] + ws)[i + 1] == ws[i] && ([w] + ws)[j + 1] == ws[j];
    }
  }

  lemma FinishQueue(s: State)
    requires Inv(s) && s.running.Some?
    ensures QueueInv(DoFinish(s))
  {
    FinishPending(s);
    OrderedTail(s.running.value, s.queue);
    forall i | 0 <= i < |s.queue| ensures WorkInv(DoFinish(s), s.queue[i]) {
      FinishWork(s, i);
    }
  }

  lemma InvFinish(s: State)
    requires Inv(s) && s.running.Some?
    ensures Inv(DoFinish(s))
  {
    FinishReg(s);
    FinishQueue(s);
    FinishRest(s);
  }

  lemma FinishRest(s: State)
    requires Inv(s) && s.running.Some?
    ensures LockInv(DoFinish(s)) && PcsInv(DoFinish(s)) && PlaceInv(DoFinish(s))
  {
    assert Pending(s)[0] == s.running.value;
  }

  lemma StepInv(s: State, l: Label)
    requires Inv(s) && Enabled(s, l)
    ensures Inv(Apply(s, l))
  {
    match l
    case StartExpose(t, ieee) => InvAcquire(s, t, ReserveLocked(ieee));
    case Reserve(t) => InvReserve(s, t);
    case CreateFails(t) => InvAcquire(s, t, ReleaseLocked(PcOf(s, t).slot, PcOf(s, t).ieee));
    case ReleaseReservation(t) => InvRelease(s, t);
    case Create(t, plans) => InvCreate(s, t, plans);
    case StartCommit(t) =>
      var pc := PcOf(s, t);
      InvAcquire(s, t, CommitLocked(pc.slot, pc.ieee, pc.dev, pc.plans));
    case Commit(t) => InvCommit(s, t);
    case Discard(t) => InvDiscard(s, t);
    case StartUnexpose(t, ieee) => InvAcquire(s, t, ClearLocked(ieee));
    case Clear(t) => InvClear(s, t);
    case EnqueueTeardown(t, room) => InvEnqueue(s, t, room);
    case StartUpdate(t, u) => InvAcquire(s, t, ScanLocked(u));
    case Scan(t) => InvScan(s, t);
    case Send(t, room) => InvSend(s, t, room);
    case StartWrite(t, slot, handle, ieee, val, now) => InvAcquire(s, t, WriteLocked(slot, handle, ieee, val, now));
    case RecordWrite(t) => InvRecord(s, t);
    case Take => InvTake(s);
    case Finish => InvFinish(s);
  }

  lemma {:induction false} RunInv(interval: nat, ls: seq<Label>)
    ensures Exec(interval, ls).Some? ==> Inv(Exec(interval, ls).value)
  {
    if ls == [] {
      InitInv(interval);
    } else {
      var before := ls[..|ls| - 1];
      RunInv(interval, before);
      if Exec(interval, ls).Some? {
        StepInv(Exec(interval, before).value, ls[|ls| - 1]);
      }
    }
  }

  // The work the consumer is executing and everything queued behind it refer only
  // to devices that still exist; so does every slot of the registry, which is what
  // rmk_bridge_list dereferences under the lock.
  ghost predicate NoDangling(s: State) {
    && (forall i :: 0 <= i < |Pending(s)| ==> !Deleted(s, WorkDev(Pending(s)[i])))
    && (forall i :: 0 <= i < |s.reg| && s.reg[i].device.Some? ==> !Deleted(s, s.reg[i].device.value))
  }

  lemma InvNoDangling(s: State)
    requires Inv(s)
    ensures NoDangling(s)
  {
    forall i | 0 <= i < |Pending(s)| ensures !Deleted(s, WorkDev(Pending(s)[i])) {
      assert WorkInv(s, Pending(s)[i]);
    }
    forall i | 0 <= i < |s.reg| && s.reg[i].device.Some? ensures !Deleted(s, s.reg[i].device.value) {
      assert SlotInv(s, i);
    }
  }

  lemma NoUseAfterFree(interval: nat, ls: seq<Label>)
    ensures Exec(interval, ls).Some? ==> NoDangling(Exec(interval, ls).value)
  {
    RunInv(interval, ls);
    if Exec(interval, ls).Some? { InvNoDangling(Exec(interval, ls).value); }
  }

  // Every report about a device is ahead of that device's teardown, and a device is
  // torn down at most once.
  lemma ReportsAheadOfTeardown(interval: nat, ls: seq<Label>)
    requires Exec(interval, ls).Some?
    ensures Ordered(Pending(Exec(interval, ls).value))
  {
    RunInv(interval, ls);
  }

  // From the moment an unexpose has taken a device out of the registry, no report
  // about it is enqueued any more, whether or not its teardown is queued yet.
  ghost predicate Unlinking(s: State, d: DevId) {
    (exists t: TaskId :: PcOf(s, t) == TearingDown(d)) || Teardown(d) in Pending(s) || Deleted(s, d)
  }

  lemma SendTargetLinked(s: State, t: TaskId)
    requires Inv(s) && PcOf(s, t).SendLocked?
    ensures PcInv(s, t, PcOf(s, t))
    ensures !Unlinking(s, s.reg[PcOf(s, t).slot].params[PcOf(s, t).idx].handle.value.dev)
  {
    var pc := PcOf(s, t);
    assert PcInv(s, t, pc) && SlotInv(s, pc.slot);
    var d := s.reg[pc.slot].params[pc.idx].handle.value.dev;
    assert s.place[d] == Registered(pc.slot);
    forall x: TaskId ensures PcOf(s, x) != TearingDown(d) {
      assert PcInv(s, x, PcOf(s, x));
    }
    forall i | 0 <= i < |Pending(s)| ensures Pending(s)[i] != Teardown(d) {
      assert WorkInv(s, Pending(s)[i]);
    }
  }

  lemma NoReportAfterUnlink(interval: nat, ls: seq<Label>, t: TaskId, room: bool)
    requires Exec(interval, ls + [Send(t, room)]).Some?
    ensures Exec(interval, ls).Some?
    ensures var s, s' := Exec(interval, ls).value, Exec(interval, ls + [Send(t, room)]).value;
            s'.queue == s.queue
            || (exists h, v :: s'.queue == s.queue + [Report(h, v)] && !Unlinking(s, h.dev))
  {
    assert (ls + [Send(t, room)])[..|ls|] == ls;
    RunInv(interval, ls);
    var s, s' := Exec(interval, ls).value, Exec(interval, ls + [Send(t, room)]).value;
    SendTargetLinked(s, t);
    var pc := PcOf(s, t);
    if s'.queue != s.queue {
      var p := s.reg[pc.slot].params[pc.idx];
      assert s'.queue == s.queue + [Report(p.handle.value, ToRm(p.plan.row, pc.u.val))];
    }
  }

  // A device deleted inline by a losing expose had never been in the registry, and
  // nothing queued refers to it.
  lemma InlineDeleteWasPrivate(interval: nat, ls: seq<Label>, t: TaskId)
    requires Exec(interval, ls + [Discard(t)]).Some?
    ensures var s := Exec(interval, ls).value;
            var dev := PcOf(s, t).dev;
            && Exec(interval, ls).Some? && PcOf(s, t).Discarding?
            && dev in s.place && !Deleted(s, dev) && dev !in s.committed
            && (forall i :: 0 <= i < |Pending(s)| ==> WorkDev(Pending(s)[i]) != dev)
  {
    assert (ls + [Discard(t)])[..|ls|] == ls;
    RunInv(interval, ls);
    var s := Exec(interval, ls).value;
    assert PcInv(s, t, PcOf(s, t));
    forall i | 0 <= i < |Pending(s)| ensures WorkDev(Pending(s)[i]) != PcOf(s, t).dev {
      assert WorkInv(s, Pending(s)[i]);
    }
  }

  // A deleted device stays deleted, so the facts above are about real lifetimes.
  lemma DeletedStays(interval: nat, ls: seq<Label>, l: Label, d: DevId)
    requires Exec(interval, ls + [l]).Some?
    ensures Exec(interval, ls).Some?
    ensures Deleted(Exec(interval, ls).value, d) ==> Deleted(Exec(interval, ls + [l]).value, d)
  {
    assert (ls + [l])[..|ls|] == ls;
    RunInv(interval, ls);
    if Deleted(Exec(interval, ls).value, d) { StepKeepsDeleted(Exec(interval, ls).value, l, d); }
  }

  lemma StepKeepsDeleted(s: State, l: Label, d: DevId)
    requires Inv(s) && Enabled(s, l) && Deleted(s, d)
    ensures Deleted(Apply(s, l), d)
  {
    match l
    case Create(t, _) =>
    case Commit(t) =>
      assert PcInv(s, t, PcOf(s, t));
      assert SlotInv(s, PcOf(s, t).slot);
    case Discard(t) =>
    case Clear(t) =>
      var r := FindDev(s.reg, PcOf(s, t).ieee);
      if r.Some? { assert SlotInv(s, r.value); }
    case EnqueueTeardown(t, _) => assert PcInv(s, t, PcOf(s, t));
    case Finish => assert WorkInv(s, Pending(s)[0]);
    case _ => assert Apply(s, l).place == s.place;
  }
}
