// The critical sections of rmk_bridge.c as code over the slot array, each proved to
// perform the corresponding steps of the RmkBridge system.
module RmkBridgeCode {
  import opened Common
  import opened RmkTypemap
  import opened RmkBridge

  // Scan and send run inside one critical section.
  function AfterUpdate(s: State, t: TaskId, room: bool): State
    requires PcOf(s, t).ScanLocked?
  {
    var m := DoScan(s, t);
    if PcOf(m, t).SendLocked? then DoSend(m, t, room) else m
  }

  class Bridge {
    const interval: nat
    const slots: array<Slot>
    var count: nat
    var queue: seq<Work>

    // The fields agree with a state of the system.
    ghost predicate Shows(s: State)
      reads this, slots
    {
      slots.Length == MAX_DEVS && slots[..] == s.reg && count == s.regCount && queue == s.queue && interval == s.interval
    }

    constructor (interval: nat)
      ensures Shows(Init(interval)) && fresh(slots)
    {
      this.interval := interval;
      slots := new Slot[MAX_DEVS](i => FREE);
      count, queue := 0, [];
      new;
      assert slots[..] == seq(MAX_DEVS, i => FREE);
    }

    // dev_by_ieee_locked
    method DevByIeee(ieee: nat) returns (r: Option<nat>)
      ensures r == FindDev(slots[..], ieee)
    {
      var i := 0;
      while i < slots.Length
        invariant i <= slots.Length
        invariant FindDev(slots[..i], ieee) == None
      {
        assert slots[..i + 1][..i] == slots[..i];
        if slots[i].inUse && slots[i].ieee == ieee {
          FindDevPrefix(slots[..], i + 1, ieee);
          return Some(i);
        }
        i := i + 1;
      }
      assert slots[..i] == slots[..];
      return None;
    }

    // free_slot_locked
    method FreeSlot() returns (r: Option<nat>)
      ensures r == FindFree(slots[..])
    {
      var i := 0;
      while i < slots.Length
        invariant i <= slots.Length
        invariant FindFree(slots[..i]) == None
      {
        assert slots[..i + 1][..i] == slots[..i];
        if !slots[i].inUse {
          FindFreePrefix(slots[..], i + 1);
          return Some(i);
        }
        i := i + 1;
      }
      assert slots[..i] == slots[..];
      return None;
    }

    // rmk_bridge_expose_device, first critical section
    method Reserve(ghost s: State, ghost t: TaskId, ieee: nat) returns (r: Option<nat>)
      requires Shows(s) && PcOf(s, t) == ReserveLocked(ieee)
      modifies slots
      ensures Shows(DoReserve(s, t))
      ensures PcOf(DoReserve(s, t), t) == match r case None => Idle case Some(i) => Building(i, ieee)
    {
      var d := DevByIeee(ieee);
      if d.Some? { return None; }
      r := FreeSlot();
      if r.Some? {
        slots[r.value] := Slot(true, ieee, None, []);
      }
    }

    // rmk_bridge_expose_device, when the SDK could not create the device
    method ReleaseReservation(ghost s: State, ghost t: TaskId, slot: nat, ieee: nat)
      requires Shows(s) && PcOf(s, t) == ReleaseLocked(slot, ieee) && slot < slots.Length
      modifies slots
      ensures Shows(DoRelease(s, t))
    {
      if slots[slot].inUse && slots[slot].ieee == ieee && slots[slot].device.None? {
        slots[slot] := FREE;
      }
    }

    // rmk_bridge_expose_device, second critical section; false means the caller
    // must discard the device it built
    method Commit(ghost s: State, ghost t: TaskId, slot: nat, ieee: nat, dev: DevId, plans: seq<Plan>) returns (ok: bool)
      requires Shows(s) && PcOf(s, t) == CommitLocked(slot, ieee, dev, plans) && slot < slots.Length
      modifies this`count, slots
      ensures Shows(DoCommit(s, t))
      ensures PcOf(DoCommit(s, t), t) == if ok then Idle else Discarding(dev)
    {
      if !slots[slot].inUse || slots[slot].ieee != ieee { return false; }
      slots[slot] := slots[slot].(device := Some(dev), params := BuiltParams(dev, plans));
      count := count + 1;
      return true;
    }

    // rmk_bridge_unexpose_device, the critical section
    method Clear(ghost s: State, ghost t: TaskId, ieee: nat) returns (found: bool, dev: Option<DevId>)
      requires Shows(s) && PcOf(s, t) == ClearLocked(ieee)
      modifies this`count, slots
      ensures Shows(DoClear(s, t))
      ensures found == FindDev(s.reg, ieee).Some?
      ensures PcOf(DoClear(s, t), t) == match dev case None => Idle case Some(d) => TearingDown(d)
    {
      var d := DevByIeee(ieee);
      if d.None? { return false, None; }
      dev := slots[d.value].device;
      slots[d.value] := FREE;
      if count > 0 { count := count - 1; }
      found := true;
    }

    // rmk_bridge_on_attr_update, scan through bookkeeping under one lock
    method OnAttrUpdate(ghost s: State, ghost t: TaskId, u: Update, room: bool)
      requires Shows(s) && PcOf(s, t) == ScanLocked(u)
      modifies this`queue, slots
      ensures Shows(AfterUpdate(s, t, room))
    {
      var d := DevByIeee(u.ieee);
      if d.None? { return; }
      var slot := slots[d.value];
      var target: Option<nat> := None;
      var i := 0;
      while i < |slot.params|
        invariant i <= |slot.params|
        invariant target.None? && FindKey(slot.params[..i], u.key).None?
      {
        var p := slot.params[i];
        assert slot.params[..i + 1][..i] == slot.params[..i];
        if p.plan.row.key != u.key { i := i + 1; continue; }
        FindKeyPrefix(slot.params, i + 1, u.key);
        if p.handle.None? { break; }
        if !u.force && p.hasLast && p.lastReported == u.val { break; }
        if !u.force && p.plan.row.dataType != 'b' && p.hasLast && u.now - p.lastReportUs < interval { break; }
        target := Some(i);
        break;
      }
      assert i == |slot.params| ==> slot.params[..i] == slot.params;
      assert target == ScanTarget(slot.params, u, interval);
      if target.Some? && (u.force || u.budget) && room {
        var p := slot.params[target.value];
        queue := queue + [Report(p.handle.value, ToRm(p.plan.row, u.val))];
        slots[d.value] := slot.(params := slot.params[target.value := Stamp(p, u.val, u.now)]);
      }
    }

    // rmk_bridge_write_cb, bookkeeping after a successful device write
    method RecordWrite(ghost s: State, ghost t: TaskId, slot: nat, h: Handle, ieee: nat, val: int, now: int)
      requires Shows(s) && PcOf(s, t) == WriteLocked(slot, h, ieee, val, now) && slot < slots.Length
      modifies slots
      ensures Shows(DoRecord(s, t))
    {
      if !slots[slot].inUse { return; }
      var ps := slots[slot].params;
      var i := 0;
      while i < |ps| && ps[i].handle != Some(h)
        invariant i <= |ps|
        invariant FindHandle(ps[..i], h).None?
      {
        assert ps[..i + 1][..i] == ps[..i];
        i := i + 1;
      }
      if i == |ps| {
        assert ps[..i] == ps;
        return;
      }
      assert ps[..i + 1][..i] == ps[..i];
      FindHandlePrefix(ps, i + 1, h);
      if slots[slot].ieee == ieee {
        slots[slot] := slots[slot].(params := ps[i := Stamp(ps[i], val, now)]);
      }
    }
  }

  // A first match in a prefix is the first match overall.
  lemma FindDevPrefix(reg: seq<Slot>, n: nat, ieee: nat)
    requires n <= |reg| && FindDev(reg[..n], ieee).Some?
    ensures FindDev(reg, ieee) == FindDev(reg[..n], ieee)
  {
    var a, b := FindDev(reg, ieee), FindDev(reg[..n], ieee);
    assert reg[b.value] == reg[..n][b.value];
    assert a.value <= b.value;
    assert reg[a.value] == reg[..n][a.value];
  }

  lemma FindFreePrefix(reg: seq<Slot>, n: nat)
    requires n <= |reg| && FindFree(reg[..n]).Some?
    ensures FindFree(reg) == FindFree(reg[..n])
  {
    var a, b := FindFree(reg), FindFree(reg[..n]);
    assert reg[b.value] == reg[..n][b.value];
    assert a.value <= b.value;
    assert reg[a.value] == reg[..n][a.value];
  }

  lemma FindKeyPrefix(ps: seq<Param>, n: nat, key: string)
    requires n <= |ps| && FindKey(ps[..n], key).Some?
    ensures FindKey(ps, key) == FindKey(ps[..n], key)
  {
    var a, b := FindKey(ps, key), FindKey(ps[..n], key);
    assert ps[b.value] == ps[..n][b.value];
    assert a.value <= b.value;
    assert ps[a.value] == ps[..n][a.value];
  }

  lemma FindHandlePrefix(ps: seq<Param>, n: nat, h: Handle)
    requires n <= |ps| && FindHandle(ps[..n], h).Some?
    ensures FindHandle(ps, h) == FindHandle(ps[..n], h)
  {
    var a, b := FindHandle(ps, h), FindHandle(ps[..n], h);
    assert ps[b.value] == ps[..n][b.value];
    assert a.value <= b.value;
    assert ps[a.value] == ps[..n][a.value];
  }
}
