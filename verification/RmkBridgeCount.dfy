// s_reg_count against the number of committed devices: when the two agree, and the
// exact steps that part them.
module RmkBridgeCount {
  import opened Common
  import opened RmkBridge

  // Slots that hold a device.
  function CommittedCount(reg: seq<Slot>): nat {
    if reg == [] then 0
    else CommittedCount(reg[..|reg| - 1]) + if reg[|reg| - 1].device.Some? then 1 else 0
  }

  function One(r: Slot): nat {
    if r.device.Some? then 1 else 0
  }

  lemma {:induction false} CountUpdate(reg: seq<Slot>, i: nat, r: Slot)
    requires i < |reg|
    ensures CommittedCount(reg[i := r]) + One(reg[i]) == CommittedCount(reg) + One(r)
  {
    var n := |reg| - 1;
    if i < n {
      CountUpdate(reg[..n], i, r);
      assert reg[i := r][..n] == reg[..n][i := r];
    } else {
      assert reg[i := r][..n] == reg[..n];
    }
  }

  // The step unexposes a device that is reserved but not committed yet, while some
  // other device is counted.
  predicate ClearsReservation(s: State, l: Label) {
    l.Clear? && PcOf(s, l.t).ClearLocked? && s.regCount > 0 &&
    var r := FindDev(s.reg, PcOf(s, l.t).ieee);
    r.Some? && s.reg[r.value].device.None?
  }

  // The step commits over a device that is committed already: two exposes of the same
  // address, the first one's reservation cleared and taken again by the second.
  predicate CommitsTwice(s: State, l: Label) {
    l.Commit? && PcOf(s, l.t).CommitLocked? &&
    var pc := PcOf(s, l.t);
    pc.slot < |s.reg| && s.reg[pc.slot].inUse && s.reg[pc.slot].ieee == pc.ieee && s.reg[pc.slot].device.Some?
  }

  // From agreement, a step keeps the count equal to the committed devices exactly if it
  // is neither of these two.
  lemma CountStaysIff(s: State, l: Label)
    requires Inv(s) && Enabled(s, l) && s.regCount == CommittedCount(s.reg)
    ensures Apply(s, l).regCount == CommittedCount(Apply(s, l).reg) <==>
            !ClearsReservation(s, l) && !CommitsTwice(s, l)
  {
    match l
    case Reserve(t) => CountReserve(s, t);
    case ReleaseReservation(t) => CountRelease(s, t);
    case Commit(t) => CountCommit(s, t);
    case Clear(t) => CountClear(s, t);
    case Send(t, room) => CountSend(s, t, room);
    case RecordWrite(t) => CountRecord(s, t);
    case _ => assert Apply(s, l).reg == s.reg && Apply(s, l).regCount == s.regCount;
  }

  lemma CountReserve(s: State, t: TaskId)
    requires Inv(s) && PcOf(s, t).ReserveLocked?
    ensures CommittedCount(DoReserve(s, t).reg) == CommittedCount(s.reg) && DoReserve(s, t).regCount == s.regCount
  {
    var i := FindFree(s.reg);
    if i.Some? {
      assert SlotInv(s, i.value);
      CountUpdate(s.reg, i.value, Slot(true, PcOf(s, t).ieee, None, []));
    }
  }

  lemma CountRelease(s: State, t: TaskId)
    requires PcOf(s, t).ReleaseLocked?
    ensures CommittedCount(DoRelease(s, t).reg) == CommittedCount(s.reg) && DoRelease(s, t).regCount == s.regCount
  {
    if PcOf(s, t).slot < |s.reg| { CountUpdate(s.reg, PcOf(s, t).slot, FREE); }
  }

  lemma CountCommit(s: State, t: TaskId)
    requires PcOf(s, t).CommitLocked? && s.regCount == CommittedCount(s.reg)
    ensures DoCommit(s, t).regCount == CommittedCount(DoCommit(s, t).reg) <==> !CommitsTwice(s, Commit(t))
  {
    var pc := PcOf(s, t);
    if pc.slot < |s.reg| {
      CountUpdate(s.reg, pc.slot, s.reg[pc.slot].(device := Some(pc.dev), params := BuiltParams(pc.dev, pc.plans)));
    }
  }

  lemma CountClear(s: State, t: TaskId)
    requires PcOf(s, t).ClearLocked? && s.regCount == CommittedCount(s.reg)
    ensures DoClear(s, t).regCount == CommittedCount(DoClear(s, t).reg) <==> !ClearsReservation(s, Clear(t))
  {
    var r := FindDev(s.reg, PcOf(s, t).ieee);
    if r.Some? { CountUpdate(s.reg, r.value, FREE); }
  }

  lemma CountStamp(reg: seq<Slot>, slot: nat, j: nat, val: int, now: int)
    requires slot < |reg| && j < |reg[slot].params|
    ensures CommittedCount(StampAt(reg, slot, j, val, now)) == CommittedCount(reg)
  {
    var ps := reg[slot].params;
    CountUpdate(reg, slot, reg[slot].(params := ps[j := Stamp(ps[j], val, now)]));
  }

  lemma CountSend(s: State, t: TaskId, room: bool)
    requires PcOf(s, t).SendLocked?
    ensures CommittedCount(DoSend(s, t, room).reg) == CommittedCount(s.reg) && DoSend(s, t, room).regCount == s.regCount
  {
    var pc := PcOf(s, t);
    if pc.slot < |s.reg| && pc.idx < |s.reg[pc.slot].params| { CountStamp(s.reg, pc.slot, pc.idx, pc.u.val, pc.u.now); }
  }

  lemma CountRecord(s: State, t: TaskId)
    requires PcOf(s, t).WriteLocked?
    ensures CommittedCount(DoRecord(s, t).reg) == CommittedCount(s.reg) && DoRecord(s, t).regCount == s.regCount
  {
    var pc := PcOf(s, t);
    if pc.slot < |s.reg| && FindHandle(s.reg[pc.slot].params, pc.handle).Some? {
      CountStamp(s.reg, pc.slot, FindHandle(s.reg[pc.slot].params, pc.handle).value, pc.val, pc.now);
    }
  }

  lemma FirstFree(reg: seq<Slot>, k: nat)
    requires k < |reg| && !reg[k].inUse && forall i :: 0 <= i < k ==> reg[i].inUse
    ensures FindFree(reg) == Some(k)
  {
  }

  lemma OnlyDev(reg: seq<Slot>, k: nat, ieee: nat)
    requires k < |reg| && reg[k].inUse && reg[k].ieee == ieee
    requires forall i :: 0 <= i < k ==> reg[i].ieee != ieee
    ensures FindDev(reg, ieee) == Some(k)
  {
  }

  // Task 0 exposes device 1 from an empty registry.
  lemma ExposeOne(interval: nat) returns (ls: seq<Label>, s: State)
    ensures Exec(interval, ls) == Some(s) && s.lock.None? && PcOf(s, 0).Idle? && PcOf(s, 1).Idle?
    ensures |s.reg| == MAX_DEVS && s.regCount == 1 && s.reg[0].inUse && s.reg[0].ieee == 1 && s.reg[0].device == Some(0)
    ensures forall i :: 1 <= i < MAX_DEVS ==> s.reg[i] == FREE
  {
    ls, s := [], Init(interval);
    ls, s := Then(interval, ls, StartExpose(0, 1));
    FirstFree(s.reg, 0);
    ls, s := Then(interval, ls, Reserve(0));
    ls, s := Then(interval, ls, Create(0, []));
    ls, s := Then(interval, ls, StartCommit(0));
    ls, s := Then(interval, ls, Commit(0));
  }

  lemma ReserveGoes(s: State, t: TaskId, i: nat)
    requires PcOf(s, t).ReserveLocked? && FindFree(s.reg) == Some(i) && FindDev(s.reg, PcOf(s, t).ieee).None?
    ensures var s' := DoReserve(s, t);
            && s'.reg == s.reg[i := Slot(true, PcOf(s, t).ieee, None, [])] && s'.lock.None? && s'.regCount == s.regCount
            && forall u: TaskId :: u != t ==> PcOf(s', u) == PcOf(s, u)
  {
  }

  // Then task 0 starts exposing device 2,
  lemma StartTwo(interval: nat) returns (ls: seq<Label>, s: State)
    ensures Exec(interval, ls) == Some(s) && PcOf(s, 0) == ReserveLocked(2) && PcOf(s, 1).Idle?
    ensures |s.reg| == MAX_DEVS && s.regCount == 1 && s.reg[0].ieee == 1 && s.reg[0].device == Some(0)
    ensures FindFree(s.reg) == Some(1) && FindDev(s.reg, 2).None?
  {
    var before, s5 := ExposeOne(interval);
    FirstFree(s5.reg, 1);
    NoDev(s5.reg, 2);
    ls, s := Then(interval, before, StartExpose(0, 2));
    StartGoes(s5, 0, 2);
  }

  lemma NoDev(reg: seq<Slot>, ieee: nat)
    requires forall i :: 0 <= i < |reg| ==> !reg[i].inUse || reg[i].ieee != ieee
    ensures FindDev(reg, ieee).None?
  {
  }

  lemma StartGoes(s: State, t: TaskId, ieee: nat)
    requires Enabled(s, StartExpose(t, ieee))
    ensures var s' := Apply(s, StartExpose(t, ieee));
            && s'.reg == s.reg && s'.regCount == s.regCount && PcOf(s', t) == ReserveLocked(ieee)
            && forall u: TaskId :: u != t ==> PcOf(s', u) == PcOf(s, u)
  {
  }

  // and reserves a slot for it.
  lemma ReserveTwo(interval: nat) returns (ls: seq<Label>, s: State)
    ensures Exec(interval, ls) == Some(s) && s.lock.None? && PcOf(s, 1).Idle?
    ensures |s.reg| == MAX_DEVS && s.regCount == 1 && s.reg[0].ieee == 1 && s.reg[0].device == Some(0)
    ensures s.reg[1] == Slot(true, 2, None, [])
  {
    var mid, s6 := StartTwo(interval);
    ReserveGoes(s6, 0, 1);
    ls, s := Then(interval, mid, Reserve(0));
  }

  lemma ClearGoes(s: State, t: TaskId, i: nat)
    requires PcOf(s, t).ClearLocked? && FindDev(s.reg, PcOf(s, t).ieee) == Some(i) && s.regCount == 1
    ensures DoClear(s, t).reg == s.reg[i := FREE] && DoClear(s, t).regCount == 0
  {
  }

  // Task 1 starts unexposing device 2,
  lemma UnexposeTwo(interval: nat) returns (ls: seq<Label>, s: State)
    ensures Exec(interval, ls) == Some(s) && PcOf(s, 1) == ClearLocked(2)
    ensures |s.reg| == MAX_DEVS && s.regCount == 1 && s.reg[0].device == Some(0) && FindDev(s.reg, 2) == Some(1)
  {
    var before, s7 := ReserveTwo(interval);
    OnlyDev(s7.reg, 1, 2);
    ls, s := Then(interval, before, StartUnexpose(1, 2));
  }

  // and parts the two: one device is committed and the counter is 0.
  lemma CountDrifts(interval: nat)
    ensures exists ls :: Exec(interval, ls).Some? &&
                         Exec(interval, ls).value.regCount == 0 && CommittedCount(Exec(interval, ls).value.reg) > 0
  {
    var before, s8 := UnexposeTwo(interval);
    ClearGoes(s8, 1, 1);
    var ls, s := Then(interval, before, Clear(1));
    CountPositive(s.reg, 0);
  }

  // The other step.  Task 0 reserves a slot for device 1; task 1 unexposes device 1,
  lemma LoseReservation(interval: nat) returns (ls: seq<Label>, s: State)
    ensures Exec(interval, ls) == Some(s) && s.lock.None? && PcOf(s, 0) == Building(0, 1) && PcOf(s, 1).Idle?
    ensures |s.reg| == MAX_DEVS && s.regCount == 0 && forall i :: 0 <= i < MAX_DEVS ==> s.reg[i] == FREE
  {
    ls, s := [], Init(interval);
    ls, s := Then(interval, ls, StartExpose(0, 1));
    FirstFree(s.reg, 0);
    ls, s := Then(interval, ls, Reserve(0));
    OnlyDev(s.reg, 0, 1);
    ls, s := Then(interval, ls, StartUnexpose(1, 1));
    ls, s := Then(interval, ls, Clear(1));
  }

  // exposes it again, into the same slot,
  lemma ReserveAgain(interval: nat) returns (ls: seq<Label>, s: State)
    ensures Exec(interval, ls) == Some(s) && s.lock.None? && PcOf(s, 0) == PcOf(s, 1) == Building(0, 1)
    ensures |s.reg| == MAX_DEVS && s.regCount == 0 && s.reg[0] == Slot(true, 1, None, [])
    ensures forall i :: 1 <= i < MAX_DEVS ==> s.reg[i] == FREE
  {
    ls, s := LoseReservation(interval);
    NoDev(s.reg, 1);
    FirstFree(s.reg, 0);
    ls, s := Then(interval, ls, StartExpose(1, 1));
    ls, s := Then(interval, ls, Reserve(1));
  }

  lemma CommitOne(interval: nat, before: seq<Label>, s0: State, t: TaskId) returns (ls: seq<Label>, s: State)
    requires Exec(interval, before) == Some(s0) && s0.lock.None? && PcOf(s0, t) == Building(0, 1)
    requires |s0.reg| == MAX_DEVS && s0.reg[0].inUse && s0.reg[0].ieee == 1
    ensures Exec(interval, ls) == Some(s) && s.lock.None? && s.regCount == s0.regCount + 1
    ensures |s.reg| == MAX_DEVS && s.reg[0].inUse && s.reg[0].ieee == 1 && s.reg[0].device.Some? && s.reg[1..] == s0.reg[1..]
    ensures forall u: TaskId :: u != t ==> PcOf(s, u) == PcOf(s0, u)
  {
    ls, s := Then(interval, before, Create(t, []));
    ls, s := Then(interval, ls, StartCommit(t));
    ls, s := Then(interval, ls, Commit(t));
  }

  // and both commit: the counter is 2, one device is committed, and the other has
  // fallen out of the registry.
  lemma CountOverruns(interval: nat)
    ensures exists ls, l :: Exec(interval, ls).Some? && Enabled(Exec(interval, ls).value, l) && CommitsTwice(Exec(interval, ls).value, l)
    ensures exists ls :: Exec(interval, ls).Some? &&
                         Exec(interval, ls).value.regCount == 2 && CommittedCount(Exec(interval, ls).value.reg) == 1
  {
    var ls0, s0 := ReserveAgain(interval);
    var ls1, s1 := CommitOne(interval, ls0, s0, 0);
    var ls2, s2 := Then(interval, ls1, Create(1, []));
    var ls3, s3 := Then(interval, ls2, StartCommit(1));
    assert CommitsTwice(s3, Commit(1));
    var ls4, s4 := CommitOne(interval, ls1, s1, 1);
    forall i | 1 <= i < MAX_DEVS ensures s4.reg[i] == FREE {
      assert s4.reg[1..][i - 1] == s0.reg[1..][i - 1];
    }
    OnlyFirst(s4.reg);
  }

  lemma {:induction false} OnlyFirst(reg: seq<Slot>)
    requires reg != [] && reg[0].device.Some? && forall i :: 1 <= i < |reg| ==> reg[i].device.None?
    ensures CommittedCount(reg) == 1
  {
    if |reg| > 1 { OnlyFirst(reg[..|reg| - 1]); }
  }

  lemma Then(interval: nat, ls: seq<Label>, l: Label) returns (more: seq<Label>, s: State)
    requires Exec(interval, ls).Some? && Enabled(Exec(interval, ls).value, l)
    ensures Exec(interval, more) == Some(s) && s == Apply(Exec(interval, ls).value, l)
  {
    more, s := ls + [l], Apply(Exec(interval, ls).value, l);
    assert more[..|more| - 1] == ls;
  }

  lemma {:induction false} CountPositive(reg: seq<Slot>, i: nat)
    requires i < |reg| && reg[i].device.Some?
    ensures CommittedCount(reg) > 0
  {
    if i < |reg| - 1 { CountPositive(reg[..|reg| - 1], i); }
  }
}
