// components/rainmaker_gw/rmk_bridge.c: the registry of devices exposed to the
// RainMaker app, the FIFO work queue of the RainMaker SDK, and the tasks that use
// both.  Every task is a small program-counter machine; the registry lock is
// explicit, so a task that holds it between two steps can be interrupted by every
// task that does not need it.
module RmkBridge {
  import opened Common
  import opened RmkTypemap

  const MAX_DEVS: nat := 10

  type DevId = nat    // an SDK device object, numbered in order of creation
  type TaskId = nat

  // An SDK parameter object: the idx-th parameter of a device object.
  datatype Handle = Handle(dev: DevId, idx: nat)

  datatype Param = Param(plan: Plan, handle: Option<Handle>,
                         lastReported: int, hasLast: bool, lastReportUs: int)

  datatype Slot = Slot(inUse: bool, ieee: nat, device: Option<DevId>, params: seq<Param>)

  const FREE: Slot := Slot(false, 0, None, [])

  // What the work queue carries.
  datatype Work = Report(handle: Handle, val: RmVal) | Teardown(dev: DevId)

  // ── Registry operations, as functions on the slot array ──────────────────

  // dev_by_ieee_locked: the first slot in use for `ieee`.
  function FindDev(reg: seq<Slot>, ieee: nat): (r: Option<nat>)
    ensures r.Some? ==> r.value < |reg| && reg[r.value].inUse && reg[r.value].ieee == ieee
    ensures r.Some? ==> forall i :: 0 <= i < r.value ==> !(reg[i].inUse && reg[i].ieee == ieee)
    ensures r.None? ==> forall i :: 0 <= i < |reg| ==> !(reg[i].inUse && reg[i].ieee == ieee)
  {
    if reg == [] then None
    else
      var r := FindDev(reg[..|reg| - 1], ieee);
      if r.Some? then r
      else if reg[|reg| - 1].inUse && reg[|reg| - 1].ieee == ieee then Some(|reg| - 1) else None
  }

  // free_slot_locked: the first slot not in use.
  function FindFree(reg: seq<Slot>): (r: Option<nat>)
    ensures r.Some? ==> r.value < |reg| && !reg[r.value].inUse
    ensures r.Some? ==> forall i :: 0 <= i < r.value ==> reg[i].inUse
    ensures r.None? ==> forall i :: 0 <= i < |reg| ==> reg[i].inUse
  {
    if reg == [] then None
    else
      var r := FindFree(reg[..|reg| - 1]);
      if r.Some? then r
      else if !reg[|reg| - 1].inUse then Some(|reg| - 1) else None
  }

  // The first parameter with this device-side key.
  function FindKey(ps: seq<Param>, key: string): (r: Option<nat>)
    ensures r.Some? ==> r.value < |ps| && ps[r.value].plan.row.key == key
    ensures r.Some? ==> forall i :: 0 <= i < r.value ==> ps[i].plan.row.key != key
    ensures r.None? ==> forall i :: 0 <= i < |ps| ==> ps[i].plan.row.key != key
  {
    if ps == [] then None
    else
      var r := FindKey(ps[..|ps| - 1], key);
      if r.Some? then r
      else if ps[|ps| - 1].plan.row.key == key then Some(|ps| - 1) else None
  }

  // plan_by_handle: the first parameter with this SDK handle.
  function FindHandle(ps: seq<Param>, h: Handle): (r: Option<nat>)
    ensures r.Some? ==> r.value < |ps| && ps[r.value].handle == Some(h)
    ensures r.Some? ==> forall i :: 0 <= i < r.value ==> ps[i].handle != Some(h)
    ensures r.None? ==> forall i :: 0 <= i < |ps| ==> ps[i].handle != Some(h)
  {
    if ps == [] then None
    else
      var r := FindHandle(ps[..|ps| - 1], h);
      if r.Some? then r
      else if ps[|ps| - 1].handle == Some(h) then Some(|ps| - 1) else None
  }

  // An attribute update as it arrives from the radio side.
  datatype Update = Update(ieee: nat, key: string, val: int, force: bool, now: int, budget: bool)

  // The throttle: an unforced report is suppressed when the raw value has not
  // changed, or when a non-boolean parameter reported less than an interval ago.
  predicate Throttled(p: Param, u: Update, interval: nat) {
    && !u.force
    && p.hasLast
    && (p.lastReported == u.val
        || (p.plan.row.dataType != 'b' && u.now - p.lastReportUs < interval))
  }

  // The scan loop of rmk_bridge_on_attr_update: which parameter to report.
  function ScanTarget(ps: seq<Param>, u: Update, interval: nat): (r: Option<nat>)
    ensures r.Some? ==> r.value < |ps| && ps[r.value].handle.Some?
  {
    match FindKey(ps, u.key)
    case None => None
    case Some(i) => if ps[i].handle.None? || Throttled(ps[i], u, interval) then None else Some(i)
  }

  // The bookkeeping of a report or of a recorded app write.
  function Stamp(p: Param, val: int, now: int): Param {
    p.(lastReported := val, hasLast := true, lastReportUs := now)
  }

  function StampAt(reg: seq<Slot>, slot: nat, j: nat, val: int, now: int): seq<Slot>
    requires slot < |reg| && j < |reg[slot].params|
  {
    var ps := reg[slot].params;
    reg[slot := reg[slot].(params := ps[j := Stamp(ps[j], val, now)])]
  }

  // What expose_device built for each planned parameter whose SDK object exists.
  function BuiltParams(dev: DevId, plans: seq<Plan>): (ps: seq<Param>)
    ensures |ps| == |plans|
    ensures forall j :: 0 <= j < |ps| ==> ps[j] == Param(plans[j], Some(Handle(dev, j)), 0, false, 0)
  {
    seq(|plans|, j requires 0 <= j < |plans| => Param(plans[j], Some(Handle(dev, j)), 0, false, 0))
  }

  // ── The system ───────────────────────────────────────────────────────────

  datatype Pc =
    | Idle
    // rmk_bridge_expose_device
    | ReserveLocked(ieee: nat)
    | Building(slot: nat, ieee: nat)
    | ReleaseLocked(slot: nat, ieee: nat)
    | Built(slot: nat, ieee: nat, dev: DevId, plans: seq<Plan>)
    | CommitLocked(slot: nat, ieee: nat, dev: DevId, plans: seq<Plan>)
    | Discarding(dev: DevId)
    // rmk_bridge_unexpose_device
    | ClearLocked(ieee: nat)
    | TearingDown(dev: DevId)
    // rmk_bridge_on_attr_update
    | ScanLocked(u: Update)
    | SendLocked(slot: nat, idx: nat, u: Update)
    // rmk_bridge_write_cb, after a successful device write
    | WriteLocked(slot: nat, handle: Handle, ieee: nat, val: int, now: int)

  predicate HoldsLock(pc: Pc) {
    pc.ReserveLocked? || pc.ReleaseLocked? || pc.CommitLocked? || pc.ClearLocked?
    || pc.ScanLocked? || pc.SendLocked? || pc.WriteLocked?
  }

  // Where an SDK device object is in its life.  This is history for the proof; no
  // step reads it.
  datatype Place =
    | Private(t: TaskId)        // being built by an expose, known to nobody else
    | Registered(slot: nat)     // stored in the registry
    | Unlinked(t: TaskId)       // taken out by an unexpose, teardown not queued yet
    | Queued                    // teardown queued or running
    | Leaked                    // queue was full, or the slot was overwritten
    | Dead(everCommitted: bool) // deleted

  // One report put on the queue, or one app write recorded.
  datatype Entry = Entry(handle: Handle, raw: int, time: int, sent: bool, forced: bool, boolean: bool)

  datatype State = State(
    interval: nat,              // minimum report interval, microseconds
    lock: Option<TaskId>,
    reg: seq<Slot>,
    regCount: nat,
    queue: seq<Work>,
    running: Option<Work>,      // the item the single consumer is executing
    pcs: map<TaskId, Pc>,
    nextDev: DevId,             // SDK device objects created so far: 0 .. nextDev
    place: map<DevId, Place>,   // one entry per object ever created
    committed: set<DevId>,      // objects that have ever been in the registry
    log: seq<Entry>)

  function PcOf(s: State, t: TaskId): Pc {
    if t in s.pcs then s.pcs[t] else Idle
  }

  function Init(interval: nat): State {
    State(interval, None, seq(MAX_DEVS, i => FREE), 0, [], None, map[], 0, map[], {}, [])
  }

  datatype Label =
    | StartExpose(t: TaskId, ieee: nat)
    | Reserve(t: TaskId)
    | CreateFails(t: TaskId)
    | ReleaseReservation(t: TaskId)
    | Create(t: TaskId, plans: seq<Plan>)
    | StartCommit(t: TaskId)
    | Commit(t: TaskId)
    | Discard(t: TaskId)
    | StartUnexpose(t: TaskId, ieee: nat)
    | Clear(t: TaskId)
    | EnqueueTeardown(t: TaskId, room: bool)
    | StartUpdate(t: TaskId, u: Update)
    | Scan(t: TaskId)
    | Send(t: TaskId, room: bool)
    | StartWrite(t: TaskId, slot: nat, handle: Handle, ieee: nat, val: int, now: int)
    | RecordWrite(t: TaskId)
    | Take
    | Finish

  predicate Enabled(s: State, l: Label) {
    match l
    case StartExpose(t, _) => PcOf(s, t).Idle? && s.lock.None?
    case Reserve(t) => PcOf(s, t).ReserveLocked?
    case CreateFails(t) => PcOf(s, t).Building? && s.lock.None?
    case ReleaseReservation(t) => PcOf(s, t).ReleaseLocked?
    case Create(t, _) => PcOf(s, t).Building?
    case StartCommit(t) => PcOf(s, t).Built? && s.lock.None?
    case Commit(t) => PcOf(s, t).CommitLocked?
    case Discard(t) => PcOf(s, t).Discarding?
    case StartUnexpose(t, _) => PcOf(s, t).Idle? && s.lock.None?
    case Clear(t) => PcOf(s, t).ClearLocked?
    case EnqueueTeardown(t, _) => PcOf(s, t).TearingDown?
    case StartUpdate(t, _) => PcOf(s, t).Idle? && s.lock.None?
    case Scan(t) => PcOf(s, t).ScanLocked?
    case Send(t, _) => PcOf(s, t).SendLocked?
    case StartWrite(t, slot, _, _, _, _) => PcOf(s, t).Idle? && s.lock.None? && slot < |s.reg|
    case RecordWrite(t) => PcOf(s, t).WriteLocked?
    case Take => s.running.None? && s.queue != []
    case Finish => s.running.Some?
  }

  function Go(s: State, t: TaskId, pc: Pc): State {
    s.(pcs := s.pcs[t := pc])
  }

  function Acquire(s: State, t: TaskId, pc: Pc): State {
    Go(s, t, pc).(lock := Some(t))
  }

  function Release(s: State, t: TaskId, pc: Pc): State {
    Go(s, t, pc).(lock := None)
  }

  // First critical section of expose: reserve a slot, or give up.
  function DoReserve(s: State, t: TaskId): State
    requires PcOf(s, t).ReserveLocked?
  {
    var ieee := PcOf(s, t).ieee;
    if FindDev(s.reg, ieee).Some? then Release(s, t, Idle)
    else match FindFree(s.reg)
      case None => Release(s, t, Idle)
      case Some(i) =>
        Release(s, t, Building(i, ieee)).(reg := s.reg[i := Slot(true, ieee, None, [])])
  }

  // esp_rmaker_device_create failed: release the reservation if it is still ours.
  function DoRelease(s: State, t: TaskId): State
    requires PcOf(s, t).ReleaseLocked?
  {
    var pc := PcOf(s, t);
    if pc.slot < |s.reg| && s.reg[pc.slot].inUse && s.reg[pc.slot].ieee == pc.ieee && s.reg[pc.slot].device.None?
    then Release(s, t, Idle).(reg := s.reg[pc.slot := FREE])
    else Release(s, t, Idle)
  }

  // The SDK objects are created, outside the lock.
  function DoCreate(s: State, t: TaskId, plans: seq<Plan>): State
    requires PcOf(s, t).Building?
  {
    var pc := PcOf(s, t);
    var dev := s.nextDev;
    Go(s, t, Built(pc.slot, pc.ieee, dev, plans)).(nextDev := dev + 1, place := s.place[dev := Private(t)])
  }

  // Second critical section of expose: commit if the reservation is still there.
  function DoCommit(s: State, t: TaskId): State
    requires PcOf(s, t).CommitLocked?
  {
    var pc := PcOf(s, t);
    if pc.slot >= |s.reg| || !s.reg[pc.slot].inUse || s.reg[pc.slot].ieee != pc.ieee
    then Release(s, t, Discarding(pc.dev))
    else
      var prior := s.reg[pc.slot].device;
      var place := if prior.Some? then s.place[prior.value := Leaked] else s.place;
      Release(s, t, Idle).(
        reg := s.reg[pc.slot := s.reg[pc.slot].(device := Some(pc.dev), params := BuiltParams(pc.dev, pc.plans))],
        regCount := s.regCount + 1,
        place := place[pc.dev := Registered(pc.slot)],
        committed := s.committed + {pc.dev})
  }

  function Delete(s: State, dev: DevId): State {
    s.(place := s.place[dev := Dead(dev in s.committed)])
  }

  // Critical section of unexpose: clear the slot, remember the device.
  function DoClear(s: State, t: TaskId): State
    requires PcOf(s, t).ClearLocked?
  {
    match FindDev(s.reg, PcOf(s, t).ieee)
    case None => Release(s, t, Idle)
    case Some(i) =>
      var s' := s.(reg := s.reg[i := FREE], regCount := if s.regCount > 0 then s.regCount - 1 else 0);
      match s.reg[i].device
      case None => Release(s', t, Idle)
      case Some(dev) => Release(s', t, TearingDown(dev)).(place := s.place[dev := Unlinked(t)])
  }

  // The teardown is queued outside the lock; a full queue leaks the objects.
  function DoEnqueue(s: State, t: TaskId, room: bool): State
    requires PcOf(s, t).TearingDown?
  {
    var dev := PcOf(s, t).dev;
    if room then Go(s, t, Idle).(queue := s.queue + [Teardown(dev)], place := s.place[dev := Queued])
    else Go(s, t, Idle).(place := s.place[dev := Leaked])
  }

  function DoScan(s: State, t: TaskId): State
    requires PcOf(s, t).ScanLocked?
  {
    var u := PcOf(s, t).u;
    match FindDev(s.reg, u.ieee)
    case None => Release(s, t, Idle)
    case Some(i) =>
      match ScanTarget(s.reg[i].params, u, s.interval)
      case None => Release(s, t, Idle)
      case Some(j) => Go(s, t, SendLocked(i, j, u))
  }

  // Still under the lock taken before the scan: queue the report, do the books.
  function DoSend(s: State, t: TaskId, room: bool): State
    requires PcOf(s, t).SendLocked?
  {
    var pc := PcOf(s, t);
    if (pc.u.force || pc.u.budget) && room && pc.slot < |s.reg| && pc.idx < |s.reg[pc.slot].params|
       && s.reg[pc.slot].params[pc.idx].handle.Some?
    then
      var p := s.reg[pc.slot].params[pc.idx];
      Release(s, t, Idle).(
        queue := s.queue + [Report(p.handle.value, ToRm(p.plan.row, pc.u.val))],
        reg := StampAt(s.reg, pc.slot, pc.idx, pc.u.val, pc.u.now),
        log := s.log + [Entry(p.handle.value, pc.u.val, pc.u.now, true, pc.u.force, p.plan.row.dataType == 'b')])
    else Release(s, t, Idle)
  }

  function DoRecord(s: State, t: TaskId): State
    requires PcOf(s, t).WriteLocked?
  {
    var pc := PcOf(s, t);
    if pc.slot < |s.reg| && s.reg[pc.slot].inUse && s.reg[pc.slot].ieee == pc.ieee
       && FindHandle(s.reg[pc.slot].params, pc.handle).Some?
    then
      var j := FindHandle(s.reg[pc.slot].params, pc.handle).value;
      Release(s, t, Idle).(
        reg := StampAt(s.reg, pc.slot, j, pc.val, pc.now),
        log := s.log + [Entry(pc.handle, pc.val, pc.now, false, false,
                              s.reg[pc.slot].params[j].plan.row.dataType == 'b')])
    else Release(s, t, Idle)
  }

  function DoTake(s: State): State
    requires s.running.None? && s.queue != []
  {
    s.(running := Some(s.queue[0]), queue := s.queue[1..])
  }

  function DoFinish(s: State): State
    requires s.running.Some?
  {
    match s.running.value
    case Report(_, _) => s.(running := None)
    case Teardown(dev) => Delete(s.(running := None), dev)
  }

  function Apply(s: State, l: Label): State
    requires Enabled(s, l)
  {
    match l
    case StartExpose(t, ieee) => Acquire(s, t, ReserveLocked(ieee))
    case Reserve(t) => DoReserve(s, t)
    case CreateFails(t) => Acquire(s, t, ReleaseLocked(PcOf(s, t).slot, PcOf(s, t).ieee))
    case ReleaseReservation(t) => DoRelease(s, t)
    case Create(t, plans) => DoCreate(s, t, plans)
    case StartCommit(t) =>
      var pc := PcOf(s, t);
      Acquire(s, t, CommitLocked(pc.slot, pc.ieee, pc.dev, pc.plans))
    case Commit(t) => DoCommit(s, t)
    case Discard(t) => Delete(Go(s, t, Idle), PcOf(s, t).dev)
    case StartUnexpose(t, ieee) => Acquire(s, t, ClearLocked(ieee))
    case Clear(t) => DoClear(s, t)
    case EnqueueTeardown(t, room) => DoEnqueue(s, t, room)
    case StartUpdate(t, u) => Acquire(s, t, ScanLocked(u))
    case Scan(t) => DoScan(s, t)
    case Send(t, room) => DoSend(s, t, room)
    case StartWrite(t, slot, handle, ieee, val, now) => Acquire(s, t, WriteLocked(slot, handle, ieee, val, now))
    case RecordWrite(t) => DoRecord(s, t)
    case Take => DoTake(s)
    case Finish => DoFinish(s)
  }

  // The state after a run from Init, or None if some step was not enabled.
  ghost function Exec(interval: nat, ls: seq<Label>): Option<State> {
    if ls == [] then Some(Init(interval))
    else
      match Exec(interval, ls[..|ls| - 1])
      case None => None
      case Some(s) => if Enabled(s, ls[|ls| - 1]) then Some(Apply(s, ls[|ls| - 1])) else None
  }

  // What the consumer still has to get through, the running item first.
  function Pending(s: State): seq<Work> {
    (if s.running.Some? then [s.running.value] else []) + s.queue
  }

  predicate Deleted(s: State, dev: DevId) {
    dev in s.place && s.place[dev].Dead?
  }

  // ── Invariants ───────────────────────────────────────────────────────────

  ghost predicate LockInv(s: State) {
    forall t: TaskId :: HoldsLock(PcOf(s, t)) <==> s.lock == Some(t)
  }

  ghost predicate SlotInv(s: State, i: nat)
    requires i < |s.reg|
  {
    var r := s.reg[i];
    && (!r.inUse ==> r == FREE)
    && (r.device.None? ==> r.params == [])
    && (r.device.Some? ==>
          && r.device.value in s.place && s.place[r.device.value] == Registered(i)
          && (forall j :: 0 <= j < |r.params| ==> r.params[j].handle == Some(Handle(r.device.value, j))))
  }

  ghost predicate RegInv(s: State) {
    |s.reg| == MAX_DEVS && forall i :: 0 <= i < |s.reg| ==> SlotInv(s, i)
  }

  ghost predicate PcInv(s: State, t: TaskId, pc: Pc) {
    match pc
    case Built(slot, _, dev, _) => slot < MAX_DEVS && dev in s.place && s.place[dev] == Private(t)
    case CommitLocked(slot, _, dev, _) => slot < MAX_DEVS && dev in s.place && s.place[dev] == Private(t)
    case Discarding(dev) => dev in s.place && s.place[dev] == Private(t)
    case TearingDown(dev) => dev in s.place && s.place[dev] == Unlinked(t)
    case Building(slot, _) => slot < MAX_DEVS
    case ReleaseLocked(slot, _) => slot < MAX_DEVS
    case WriteLocked(slot, _, _, _, _) => slot < MAX_DEVS
    case SendLocked(slot, idx, u) =>
      && slot < |s.reg| && idx < |s.reg[slot].params|
      && ScanTarget(s.reg[slot].params, u, s.interval) == Some(idx)
      && FindDev(s.reg, u.ieee) == Some(slot)
    case _ => true
  }

  ghost predicate PcsInv(s: State) {
    forall t: TaskId :: PcInv(s, t, PcOf(s, t))
  }

  // A report's device may be anywhere a device goes after its commit, except dead.
  ghost predicate Reportable(s: State, dev: DevId) {
    dev in s.place && !s.place[dev].Private? && !s.place[dev].Dead?
  }

  ghost predicate WorkInv(s: State, w: Work) {
    match w
    case Report(h, _) => Reportable(s, h.dev)
    case Teardown(dev) => dev in s.place && s.place[dev] == Queued
  }

  // The FIFO argument: nothing about a device is queued behind its teardown.
  ghost predicate Ordered(ws: seq<Work>) {
    forall i, j :: 0 <= i < j < |ws| && ws[i].Teardown? ==> WorkDev(ws[j]) != ws[i].dev
  }

  function WorkDev(w: Work): DevId {
    match w
    case Report(h, _) => h.dev
    case Teardown(dev) => dev
  }

  ghost predicate QueueInv(s: State) {
    && (forall i :: 0 <= i < |Pending(s)| ==> WorkInv(s, Pending(s)[i]))
    && Ordered(Pending(s))
  }

  ghost predicate PlaceInv(s: State) {
    && (forall d: DevId :: d in s.place <==> d < s.nextDev)
    && (forall d: DevId :: d in s.place ==>
          match s.place[d]
          case Private(_) => d !in s.committed
          case Dead(c) => c == (d in s.committed)
          case _ => d in s.committed)
    && (forall d: DevId :: d in s.committed ==> d in s.place)
  }

  ghost predicate Inv(s: State) {
    LockInv(s) && RegInv(s) && PcsInv(s) && QueueInv(s) && PlaceInv(s)
  }

  lemma InitInv(interval: nat)
    ensures Inv(Init(interval))
  {
  }
}
