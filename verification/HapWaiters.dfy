// main/hap_bridge.cpp: matching responses to requests over the inter-chip link.
// Callers of hap_roundtrip_v2 claim one of eight waiter slots; the receiving task
// delivers each response frame into the slot whose sequence number it acknowledges.
// The table mutex is explicit, so callers and receiver interleave between any two
// steps of either that do not both need it.
module HapWaiters {
  import opened Common

  const SLOTS: nat := 8
  const CLAIM_TRIES: nat := 8

  type CallId = nat   // one per call of hap_roundtrip_v2, never reused

  // One entry of s_waiters.  `token` is the slot's binary semaphore; `owner` stands
  // for the response buffer and length pointers the caller stored.
  datatype Slot = Slot(seqNo: nat, rspType: nat, owner: CallId, cap: nat, ok: bool, token: bool)

  // A caller's response buffer and the length it is told.
  datatype Buf = Buf(data: seq<Byte>, len: nat)

  datatype Frame = Frame(ack: nat, typ: nat, payload: seq<Byte>)

  datatype Pc =
    | NotStarted
    | WantPermit(rspType: nat, cap: nat)
    | Holding(rspType: nat, cap: nat)              // has a permit
    | Claiming(rspType: nat, cap: nat)             // holds the mutex in waiter_claim
    | GivingBack                                   // claim failed
    | Claimed(slot: nat, seqNo: nat)               // about to send the request
    | Waiting(slot: nat, seqNo: nat)               // blocked on the slot's semaphore
    | Woken(slot: nat, seqNo: nat)                 // about to read the slot's ok flag
    | Releasing(slot: nat, seqNo: nat, result: bool)
    | Unlinking(slot: nat, seqNo: nat, result: bool) // holds the mutex in waiter_release
    | Freed(result: bool)                          // slot free, permit not yet given
    | Returned(result: bool)

  datatype RxPc =
    | RxIdle
    | RxLocked(f: Frame)             // holds the mutex, about to search
    | RxFound(f: Frame, slot: nat)   // match of the right type, about to copy
    | RxCopied(f: Frame, slot: nat)  // copied, about to publish length and ok
    | RxGiving(f: Frame, slot: nat)  // about to give the semaphore

  datatype Agent = Caller(c: CallId) | Receiver

  datatype State = State(
    mutex: Option<Agent>,
    slots: seq<Slot>,
    permits: nat,
    pcs: map<CallId, Pc>,
    rx: RxPc,
    bufs: map<CallId, Buf>,
    // history, read by no step
    drawn: map<CallId, (nat, nat)>,  // sequence number and response type of each claim
    done: map<CallId, Frame>,        // last frame published to a call
    woke: map<CallId, Frame>)        // last frame that signalled a call

  function PcOf(s: State, c: CallId): Pc {
    if c in s.pcs then s.pcs[c] else NotStarted
  }

  const FREE: Slot := Slot(0, 0, 0, 0, false, false)

  function Init(): State {
    State(None, seq(SLOTS, i => FREE), SLOTS, map[], RxIdle, map[], map[], map[], map[])
  }

  // The first slot with sequence number q (q == 0: the first free slot).
  function FindSeq(slots: seq<Slot>, q: nat): (r: Option<nat>)
    ensures r.Some? ==> r.value < |slots| && slots[r.value].seqNo == q
    ensures r.Some? ==> forall i :: 0 <= i < r.value ==> slots[i].seqNo != q
    ensures r.None? ==> forall i :: 0 <= i < |slots| ==> slots[i].seqNo != q
  {
    if slots == [] then None
    else
      var r := FindSeq(slots[..|slots| - 1], q);
      if r.Some? then r
      else if slots[|slots| - 1].seqNo == q then Some(|slots| - 1) else None
  }

  // The first candidate that is nonzero and not held by a live slot.
  function PickSeq(slots: seq<Slot>, draws: seq<nat>): (r: Option<nat>)
    ensures r.Some? ==> r.value in draws && r.value != 0 && FindSeq(slots, r.value).None?
    ensures r.None? ==> forall i :: 0 <= i < |draws| ==> draws[i] == 0 || FindSeq(slots, draws[i]).Some?
  {
    if draws == [] then None
    else if draws[0] != 0 && FindSeq(slots, draws[0]).None? then Some(draws[0])
    else PickSeq(slots, draws[1..])
  }

  datatype Label =
    | Start(c: CallId, rspType: nat, data: seq<Byte>)
    | NoPermit(c: CallId)
    | TakePermit(c: CallId)
    | LockClaim(c: CallId)
    | Claim(c: CallId, draws: seq<nat>)
    | GiveBack(c: CallId)
    | SendOk(c: CallId)
    | SendFails(c: CallId)
    | Wake(c: CallId)
    | TimeOut(c: CallId)
    | ReadOk(c: CallId)
    | LockRelease(c: CallId)
    | Unlink(c: CallId)
    | GivePermit(c: CallId)
    | Receive(f: Frame)
    | Search
    | Copy
    | Publish
    | Give

  predicate Enabled(s: State, l: Label) {
    match l
    case Start(c, _, _) => PcOf(s, c).NotStarted?
    case NoPermit(c) => PcOf(s, c).WantPermit?
    case TakePermit(c) => PcOf(s, c).WantPermit? && s.permits > 0
    case LockClaim(c) => PcOf(s, c).Holding? && s.mutex.None?
    case Claim(c, draws) => PcOf(s, c).Claiming? && |draws| == CLAIM_TRIES
    case GiveBack(c) => PcOf(s, c).GivingBack?
    case SendOk(c) => PcOf(s, c).Claimed?
    case SendFails(c) => PcOf(s, c).Claimed?
    case Wake(c) => PcOf(s, c).Waiting? && PcOf(s, c).slot < |s.slots| && s.slots[PcOf(s, c).slot].token
    case TimeOut(c) => PcOf(s, c).Waiting?
    case ReadOk(c) => PcOf(s, c).Woken? && PcOf(s, c).slot < |s.slots|
    case LockRelease(c) => PcOf(s, c).Releasing? && s.mutex.None?
    case Unlink(c) => PcOf(s, c).Unlinking? && PcOf(s, c).slot < |s.slots|
    case GivePermit(c) => PcOf(s, c).Freed?
    case Receive(f) => s.rx.RxIdle? && s.mutex.None?
    case Search => s.rx.RxLocked?
    case Copy => s.rx.RxFound? && s.rx.slot < |s.slots| && s.slots[s.rx.slot].owner in s.bufs
    case Publish => s.rx.RxCopied? && s.rx.slot < |s.slots| && s.slots[s.rx.slot].owner in s.bufs
    case Give => s.rx.RxGiving? && s.rx.slot < |s.slots|
  }

  function Go(s: State, c: CallId, pc: Pc): State {
    s.(pcs := s.pcs[c := pc])
  }

  // Argument checks and the initial `*rsp_len_out = 0`.  A zero response type is a
  // request that has no response.
  function DoStart(s: State, c: CallId, rspType: nat, data: seq<Byte>): State {
    var pc := if |data| == 0 || rspType == 0 then Returned(false) else WantPermit(rspType, |data|);
    Go(s, c, pc).(bufs := s.bufs[c := Buf(data, 0)])
  }

  function DoClaim(s: State, c: CallId, draws: seq<nat>): State
    requires PcOf(s, c).Claiming?
  {
    var pc := PcOf(s, c);
    var k, q := FindSeq(s.slots, 0), PickSeq(s.slots, draws);
    if k.None? || q.None? then Go(s, c, GivingBack).(mutex := None)
    else
      // the token is drained by the zero-timeout take
      Go(s, c, Claimed(k.value, q.value)).(
        mutex := None,
        slots := s.slots[k.value := Slot(q.value, pc.rspType, c, pc.cap, false, false)],
        drawn := s.drawn[c := (q.value, pc.rspType)])
  }

  function SetSlot(s: State, k: nat, x: Slot): State
    requires k < |s.slots|
  {
    s.(slots := s.slots[k := x])
  }

  function DoWake(s: State, c: CallId): State
    requires Enabled(s, Wake(c))
  {
    var pc := PcOf(s, c);
    SetSlot(Go(s, c, Woken(pc.slot, pc.seqNo)), pc.slot, s.slots[pc.slot].(token := false))
  }

  function DoUnlink(s: State, c: CallId): State
    requires Enabled(s, Unlink(c))
  {
    var pc := PcOf(s, c);
    SetSlot(Go(s, c, Freed(pc.result)), pc.slot, s.slots[pc.slot].(seqNo := 0)).(mutex := None)
  }

  // An acknowledged sequence number of 0 is never delivered.
  function DoReceive(s: State, f: Frame): State {
    if f.ack == 0 then s else s.(rx := RxLocked(f), mutex := Some(Receiver))
  }

  // A match of the wrong type is signalled without being copied.
  function DoSearch(s: State): State
    requires s.rx.RxLocked?
  {
    var f := s.rx.f;
    match FindSeq(s.slots, f.ack)
    case None => s.(rx := RxIdle, mutex := None)
    case Some(k) => s.(rx := if f.typ == s.slots[k].rspType then RxFound(f, k) else RxGiving(f, k))
  }

  // What fits of the payload goes over the front of the buffer.
  function Overlay(data: seq<Byte>, payload: seq<Byte>, n: nat): (r: seq<Byte>)
    requires n <= |payload| && n <= |data|
    ensures |r| == |data| && r[..n] == payload[..n] && r[n..] == data[n..]
  {
    payload[..n] + data[n..]
  }

  function DoCopy(s: State): State
    requires Enabled(s, Copy)
  {
    var f, x := s.rx.f, s.slots[s.rx.slot];
    var b := s.bufs[x.owner];
    var n := Min(|f.payload|, Min(x.cap, |b.data|));
    s.(rx := RxCopied(f, s.rx.slot), bufs := s.bufs[x.owner := b.(data := Overlay(b.data, f.payload, n))])
  }

  function DoPublish(s: State): State
    requires Enabled(s, Publish)
  {
    var f, k, x := s.rx.f, s.rx.slot, s.slots[s.rx.slot];
    SetSlot(s, k, x.(ok := true)).(
      rx := RxGiving(f, k),
      bufs := s.bufs[x.owner := s.bufs[x.owner].(len := Min(|f.payload|, x.cap))],
      done := s.done[x.owner := f])
  }

  function DoGive(s: State): State
    requires Enabled(s, Give)
  {
    var f, k, x := s.rx.f, s.rx.slot, s.slots[s.rx.slot];
    SetSlot(s, k, x.(token := true)).(rx := RxIdle, mutex := None, woke := s.woke[x.owner := f])
  }

  function Apply(s: State, l: Label): State
    requires Enabled(s, l)
  {
    match l
    case Start(c, rspType, data) => DoStart(s, c, rspType, data)
    case NoPermit(c) => Go(s, c, Returned(false))
    case TakePermit(c) => Go(s, c, Holding(PcOf(s, c).rspType, PcOf(s, c).cap)).(permits := s.permits - 1)
    case LockClaim(c) => Go(s, c, Claiming(PcOf(s, c).rspType, PcOf(s, c).cap)).(mutex := Some(Caller(c)))
    case Claim(c, draws) => DoClaim(s, c, draws)
    case GiveBack(c) => Go(s, c, Returned(false)).(permits := s.permits + 1)
    case SendOk(c) => Go(s, c, Waiting(PcOf(s, c).slot, PcOf(s, c).seqNo))
    case SendFails(c) => Go(s, c, Releasing(PcOf(s, c).slot, PcOf(s, c).seqNo, false))
    case Wake(c) => DoWake(s, c)
    case TimeOut(c) => Go(s, c, Releasing(PcOf(s, c).slot, PcOf(s, c).seqNo, false))
    case ReadOk(c) => Go(s, c, Releasing(PcOf(s, c).slot, PcOf(s, c).seqNo, s.slots[PcOf(s, c).slot].ok))
    case LockRelease(c) =>
      var pc := PcOf(s, c);
      Go(s, c, Unlinking(pc.slot, pc.seqNo, pc.result)).(mutex := Some(Caller(c)))
    case Unlink(c) => DoUnlink(s, c)
    case GivePermit(c) => Go(s, c, Returned(PcOf(s, c).result)).(permits := s.permits + 1)
    case Receive(f) => DoReceive(s, f)
    case Search => DoSearch(s)
    case Copy => DoCopy(s)
    case Publish => DoPublish(s)
    case Give => DoGive(s)
  }

  ghost function Exec(ls: seq<Label>): Option<State> {
    if ls == [] then Some(Init())
    else
      match Exec(ls[..|ls| - 1])
      case None => None
      case Some(s) => if Enabled(s, ls[|ls| - 1]) then Some(Apply(s, ls[|ls| - 1])) else None
  }

  // ── Invariants ───────────────────────────────────────────────────────────

  // The call owns a slot.
  predicate Live(pc: Pc) {
    pc.Claimed? || pc.Waiting? || pc.Woken? || pc.Releasing? || pc.Unlinking?
  }

  predicate HasPermit(pc: Pc) {
    pc.Holding? || pc.Claiming? || pc.GivingBack? || Live(pc) || pc.Freed?
  }

  function Holders(s: State): set<CallId> {
    set c | c in s.pcs && HasPermit(s.pcs[c])
  }

  ghost predicate MutexInv(s: State) {
    && (forall c: CallId :: (PcOf(s, c).Claiming? || PcOf(s, c).Unlinking?) <==> s.mutex == Some(Caller(c)))
    && (!s.rx.RxIdle? <==> s.mutex == Some(Receiver))
  }

  // Slots and live callers point at each other.
  ghost predicate SlotInv(s: State, k: nat)
    requires k < |s.slots|
  {
    var x := s.slots[k];
    x.seqNo != 0 ==>
      && Live(PcOf(s, x.owner)) && PcOf(s, x.owner).slot == k && PcOf(s, x.owner).seqNo == x.seqNo
      && x.owner in s.bufs && |s.bufs[x.owner].data| == x.cap
      && x.owner in s.drawn && s.drawn[x.owner] == (x.seqNo, x.rspType)
      && (x.token ==> x.owner in s.woke && s.woke[x.owner].ack == x.seqNo)
      && (x.ok ==> x.owner in s.done)
  }

  ghost predicate CallInv(s: State, c: CallId) {
    var pc := PcOf(s, c);
    && (!pc.NotStarted? ==> c in s.bufs)
    && (pc.NotStarted? ==> c !in s.drawn && c !in s.done && c !in s.woke)
    && ((pc.WantPermit? || pc.Holding? || pc.Claiming?) ==> |s.bufs[c].data| == pc.cap && c !in s.done && c !in s.woke)
    && (Live(pc) ==> pc.slot < |s.slots| && pc.seqNo != 0
                     && s.slots[pc.slot].owner == c && s.slots[pc.slot].seqNo == pc.seqNo)
    && (c in s.woke ==> c in s.drawn && s.woke[c].ack == s.drawn[c].0)
    && (pc.Woken? ==> c in s.woke)
    && ((pc.Releasing? || pc.Unlinking? || pc.Freed? || pc.Returned?) && pc.result ==> c in s.done)
    && (c in s.done ==> c in s.drawn && s.done[c].ack == s.drawn[c].0 && s.done[c].typ == s.drawn[c].1)
  }

  ghost predicate RxInv(s: State) {
    (!s.rx.RxIdle? ==> s.rx.f.ack != 0) &&
    ((s.rx.RxFound? || s.rx.RxCopied? || s.rx.RxGiving?) ==>
      && s.rx.slot < |s.slots|
      && s.slots[s.rx.slot].seqNo == s.rx.f.ack
      && (!s.rx.RxGiving? ==> s.rx.f.typ == s.slots[s.rx.slot].rspType))
  }

  // The length-bounded prefix of `f` is what the caller's buffer holds.
  predicate Holds(b: Buf, f: Frame) {
    b.len == Min(|f.payload|, |b.data|) && b.data[..b.len] == f.payload[..b.len]
  }

  // The receiver is between overwriting c's buffer and publishing the new length.
  predicate MidDelivery(s: State, c: CallId) {
    s.rx.RxCopied? && s.rx.slot < |s.slots| && s.slots[s.rx.slot].owner == c
  }

  ghost predicate DataInv(s: State) {
    && (forall c: CallId :: c in s.done && c in s.bufs && !MidDelivery(s, c) ==> Holds(s.bufs[c], s.done[c]))
    && (s.rx.RxCopied? && s.rx.slot < |s.slots| && s.slots[s.rx.slot].owner in s.bufs ==>
          var b := s.bufs[s.slots[s.rx.slot].owner];
          var n := Min(|s.rx.f.payload|, |b.data|);
          b.data[..n] == s.rx.f.payload[..n])
  }

  // Live sequence numbers are pairwise different.
  ghost predicate SeqInv(s: State) {
    && |s.slots| == SLOTS
    && (forall i, j :: 0 <= i < j < |s.slots| && s.slots[i].seqNo != 0 ==> s.slots[i].seqNo != s.slots[j].seqNo)
  }

  ghost predicate PermitInv(s: State) {
    s.permits + |Holders(s)| == SLOTS
  }

  ghost predicate SlotsInv(s: State) {
    forall k :: 0 <= k < |s.slots| ==> SlotInv(s, k)
  }

  ghost predicate CallsInv(s: State) {
    forall c: CallId :: CallInv(s, c)
  }

  ghost predicate Inv(s: State) {
    MutexInv(s) && SeqInv(s) && SlotsInv(s) && CallsInv(s) && RxInv(s) && DataInv(s) && PermitInv(s)
  }
}
