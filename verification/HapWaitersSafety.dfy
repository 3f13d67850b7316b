// Responses reach the call that asked, and only while it is still waiting.
module HapWaitersSafety {
  import opened Common
  import opened HapWaiters

  lemma InitInv()
    ensures Inv(Init())
  {
    assert Holders(Init()) == {};
  }

  // Everything but the permit count, which is handled separately below.
  ghost predicate Core(s: State) {
    MutexInv(s) && SeqInv(s) && SlotsInv(s) && CallsInv(s) && RxInv(s) && DataInv(s)
  }

  // A slot keeps its invariant while its owner keeps its place and its buffer's size.
  lemma SlotFrame(s: State, s': State, k: nat)
    requires k < |s.slots| && k < |s'.slots| && s'.slots[k] == s.slots[k] && SlotInv(s, k)
    requires var c := s.slots[k].owner;
             s.slots[k].seqNo != 0 ==>
               && (PcOf(s', c) == PcOf(s, c)
                   || (Live(PcOf(s', c)) && PcOf(s', c).slot == k && PcOf(s', c).seqNo == s.slots[k].seqNo))
               && (c in s.bufs ==> c in s'.bufs && |s'.bufs[c].data| == |s.bufs[c].data|)
               && (c in s.drawn ==> c in s'.drawn && s'.drawn[c] == s.drawn[c])
               && (c in s.woke ==> c in s'.woke && s'.woke[c].ack == s.woke[c].ack)
               && (c in s.done ==> c in s'.done)
    ensures SlotInv(s', k)
  {
  }

  // A call moves on without touching slots, buffers or history.
  lemma InvMove(s: State, s': State, c: CallId, pc: Pc)
    requires Core(s) && MutexInv(s') && CallInv(s', c)
    requires s' == Go(s, c, pc).(mutex := s'.mutex, permits := s'.permits)
    requires Live(PcOf(s, c)) ==> Live(pc) && pc.slot == PcOf(s, c).slot && pc.seqNo == PcOf(s, c).seqNo
    ensures Core(s')
  {
    forall k | 0 <= k < |s.slots| ensures SlotInv(s', k) {
      assert SlotInv(s, k);
      SlotFrame(s, s', k);
    }
    forall d: CallId ensures CallInv(s', d) {
      assert CallInv(s, d);
    }
  }

  lemma MutexMove(s: State, s': State, c: CallId)
    requires MutexInv(s) && s'.rx == s.rx && forall d: CallId :: d != c ==> PcOf(s', d) == PcOf(s, d)
    requires (PcOf(s', c).Claiming? || PcOf(s', c).Unlinking?) <==> s'.mutex == Some(Caller(c))
    requires s'.mutex == s.mutex || (s.mutex.None? && s'.mutex == Some(Caller(c))) || (s'.mutex.None? && s.mutex == Some(Caller(c)))
    ensures MutexInv(s')
  {
    forall d: CallId ensures (PcOf(s', d).Claiming? || PcOf(s', d).Unlinking?) <==> s'.mutex == Some(Caller(d)) {
      assert (PcOf(s, d).Claiming? || PcOf(s, d).Unlinking?) <==> s.mutex == Some(Caller(d));
    }
  }

  lemma CoreCaller(s: State, l: Label)
    requires Core(s) && Enabled(s, l)
    requires l.NoPermit? || l.TakePermit? || l.LockClaim? || l.GiveBack? || l.SendOk? || l.SendFails?
             || l.TimeOut? || l.ReadOk? || l.LockRelease? || l.GivePermit?
    ensures Core(Apply(s, l))
  {
    var c, s' := l.c, Apply(s, l);
    assert CallInv(s, c);
    assert (PcOf(s, c).Claiming? || PcOf(s, c).Unlinking?) <==> s.mutex == Some(Caller(c));
    if l.ReadOk? { assert SlotInv(s, PcOf(s, c).slot); }
    MutexMove(s, s', c);
    assert CallInv(s', c);
    InvMove(s, s', c, PcOf(s', c));
  }

  lemma CoreStart(s: State, c: CallId, rspType: nat, data: seq<Byte>)
    requires Core(s) && PcOf(s, c).NotStarted?
    ensures Core(DoStart(s, c, rspType, data))
  {
    var s' := DoStart(s, c, rspType, data);
    assert CallInv(s, c);
    assert (PcOf(s, c).Claiming? || PcOf(s, c).Unlinking?) <==> s.mutex == Some(Caller(c));
    MutexMove(s, s', c);
    forall k | 0 <= k < |s.slots| ensures SlotInv(s', k) {
      assert SlotInv(s, k);
      SlotFrame(s, s', k);
    }
    forall d: CallId ensures CallInv(s', d) {
      assert CallInv(s, d);
    }
    if s.rx.RxCopied? { assert SlotInv(s, s.rx.slot); }
  }

  lemma CoreClaim(s: State, c: CallId, draws: seq<nat>)
    requires Core(s) && PcOf(s, c).Claiming?
    ensures Core(DoClaim(s, c, draws))
  {
    var s' := DoClaim(s, c, draws);
    assert CallInv(s, c);
    assert s.mutex == Some(Caller(c));
    MutexMove(s, s', c);
    if PcOf(s', c).GivingBack? {
      InvMove(s, s', c, GivingBack);
    } else {
      CoreClaimed(s, c, draws);
    }
  }

  lemma CoreClaimed(s: State, c: CallId, draws: seq<nat>)
    requires Core(s) && PcOf(s, c).Claiming? && FindSeq(s.slots, 0).Some? && PickSeq(s.slots, draws).Some?
    ensures var s' := DoClaim(s, c, draws);
            SeqInv(s') && SlotsInv(s') && CallsInv(s') && RxInv(s') && DataInv(s')
  {
    var s' := DoClaim(s, c, draws);
    assert CallInv(s, c);
    assert s.mutex == Some(Caller(c));
    forall k | 0 <= k < |s.slots| ensures SlotInv(s', k) {
      assert SlotInv(s, k);
      if s'.slots[k] == s.slots[k] { SlotFrame(s, s', k); }
    }
    forall d: CallId ensures CallInv(s', d) {
      assert CallInv(s, d);
    }
  }

  lemma CoreWake(s: State, c: CallId)
    requires Core(s) && Enabled(s, Wake(c))
    ensures Core(DoWake(s, c))
  {
    var s' := DoWake(s, c);
    assert CallInv(s, c);
    assert SlotInv(s, PcOf(s, c).slot);
    assert s.mutex != Some(Caller(c));
    MutexMove(s, s', c);
    forall k | 0 <= k < |s.slots| ensures SlotInv(s', k) {
      assert SlotInv(s, k);
      if k != PcOf(s, c).slot { SlotFrame(s, s', k); }
    }
    forall d: CallId ensures CallInv(s', d) {
      assert CallInv(s, d);
    }
  }

  lemma CoreUnlink(s: State, c: CallId)
    requires Core(s) && Enabled(s, Unlink(c))
    ensures Core(DoUnlink(s, c))
  {
    var s' := DoUnlink(s, c);
    assert CallInv(s, c);
    assert s.mutex == Some(Caller(c));
    MutexMove(s, s', c);
    forall k | 0 <= k < |s.slots| ensures SlotInv(s', k) {
      assert SlotInv(s, k);
      if k != PcOf(s, c).slot { SlotFrame(s, s', k); }
    }
    forall d: CallId ensures CallInv(s', d) {
      assert CallInv(s, d);
    }
  }

  // A receiver step: no call moves.
  lemma RxMove(s: State, s': State)
    requires Core(s) && s'.pcs == s.pcs && s'.permits == s.permits && |s'.slots| == |s.slots|
    requires s'.mutex == if s'.rx.RxIdle? then None else Some(Receiver)
    requires s.mutex == if s.rx.RxIdle? then None else Some(Receiver)
    requires s'.drawn == s.drawn && s'.bufs.Keys == s.bufs.Keys
    requires forall c: CallId :: c in s.bufs ==> |s'.bufs[c].data| == |s.bufs[c].data|
    requires forall c: CallId :: c in s.done ==> c in s'.done
    requires forall c: CallId :: c in s.woke ==> c in s'.woke
    requires forall c: CallId :: c in s'.done && (c !in s.done || s'.done[c] != s.done[c]) ==>
               Live(PcOf(s, c)) && c in s.drawn && (s'.done[c].ack, s'.done[c].typ) == s.drawn[c]
    requires forall c: CallId :: c in s'.woke && (c !in s.woke || s'.woke[c] != s.woke[c]) ==>
               Live(PcOf(s, c)) && c in s.drawn && s'.woke[c].ack == s.drawn[c].0
    requires forall k :: 0 <= k < |s.slots| ==>
               && s'.slots[k] == s.slots[k].(ok := s'.slots[k].ok, token := s'.slots[k].token)
               && (s'.slots[k].ok && !s.slots[k].ok ==> s.slots[k].owner in s'.done)
               && (s'.slots[k].token && !s.slots[k].token ==> s.slots[k].owner in s'.woke)
    ensures MutexInv(s') && SeqInv(s') && SlotsInv(s') && CallsInv(s')
  {
    assert PcsSame(s, s');
    forall c: CallId ensures CallInv(s', c) {
      assert CallInv(s, c);
    }
    forall k | 0 <= k < |s.slots| ensures SlotInv(s', k) {
      assert SlotInv(s, k);
      assert CallInv(s', s.slots[k].owner);
    }
  }

  ghost predicate PcsSame(s: State, s': State) {
    forall c: CallId :: PcOf(s', c) == PcOf(s, c)
  }

  lemma CoreReceive(s: State, f: Frame)
    requires Core(s) && Enabled(s, Receive(f))
    ensures Core(DoReceive(s, f))
  {
    if f.ack != 0 { RxMove(s, DoReceive(s, f)); }
  }

  lemma CoreSearch(s: State)
    requires Core(s) && s.rx.RxLocked?
    ensures Core(DoSearch(s))
  {
    RxMove(s, DoSearch(s));
  }

  lemma CoreCopy(s: State)
    requires Core(s) && Enabled(s, Copy)
    ensures Core(DoCopy(s))
  {
    assert SlotInv(s, s.rx.slot);
    RxMove(s, DoCopy(s));
  }

  lemma CorePublish(s: State)
    requires Core(s) && Enabled(s, Publish)
    ensures Core(DoPublish(s))
  {
    assert SlotInv(s, s.rx.slot);
    RxMove(s, DoPublish(s));
  }

  lemma CoreGive(s: State)
    requires Core(s) && Enabled(s, Give)
    ensures Core(DoGive(s))
  {
    assert SlotInv(s, s.rx.slot);
    RxMove(s, DoGive(s));
  }

  lemma StepCore(s: State, l: Label)
    requires Core(s) && Enabled(s, l)
    ensures Core(Apply(s, l))
  {
    match l
    case Start(c, rspType, data) => CoreStart(s, c, rspType, data);
    case Claim(c, draws) => CoreClaim(s, c, draws);
    case Wake(c) => CoreWake(s, c);
    case Unlink(c) => CoreUnlink(s, c);
    case Receive(f) => CoreReceive(s, f);
    case Search => CoreSearch(s);
    case Copy => CoreCopy(s);
    case Publish => CorePublish(s);
    case Give => CoreGive(s);
    case _ => CoreCaller(s, l);
  }

  // ── Permits ──────────────────────────────────────────────────────────────

  lemma HoldersMove(s: State, s': State, c: CallId)
    requires s'.pcs == s.pcs[c := PcOf(s', c)]
    ensures Holders(s') == if HasPermit(PcOf(s', c)) then Holders(s) + {c} else Holders(s) - {c}
    ensures c in Holders(s) <==> HasPermit(PcOf(s, c))
  {
  }

  // One call moves; permits change by what it takes or gives.
  ghost predicate PermitStep(s: State, s': State, c: CallId) {
    && s'.pcs == s.pcs[c := PcOf(s', c)]
    && s'.permits + (if HasPermit(PcOf(s', c)) then 1 else 0) == s.permits + (if HasPermit(PcOf(s, c)) then 1 else 0)
  }

  lemma CallerPermitStep(s: State, l: Label)
    requires Enabled(s, l) && !l.Receive? && !l.Search? && !l.Copy? && !l.Publish? && !l.Give?
    ensures PermitStep(s, Apply(s, l), l.c)
  {
    match l
    case Start(_, _, _) =>
    case NoPermit(_) =>
    case TakePermit(_) =>
    case LockClaim(_) =>
    case Claim(_, _) =>
    case GiveBack(_) =>
    case SendOk(_) =>
    case SendFails(_) =>
    case Wake(_) =>
    case TimeOut(_) =>
    case ReadOk(_) =>
    case LockRelease(_) =>
    case Unlink(_) =>
    case GivePermit(_) =>
  }

  lemma PermitStepInv(s: State, s': State, c: CallId)
    requires PermitInv(s) && PermitStep(s, s', c)
    ensures PermitInv(s')
  {
    HoldersMove(s, s', c);
  }

  lemma StepPermits(s: State, l: Label)
    requires PermitInv(s) && Enabled(s, l)
    ensures PermitInv(Apply(s, l))
  {
    if l.Receive? || l.Search? || l.Copy? || l.Publish? || l.Give? {
      assert Holders(Apply(s, l)) == Holders(s);
    } else {
      CallerPermitStep(s, l);
      PermitStepInv(s, Apply(s, l), l.c);
    }
  }

  lemma {:induction false} RunInv(ls: seq<Label>)
    ensures Exec(ls).Some? ==> Inv(Exec(ls).value)
  {
    if ls == [] {
      InitInv();
    } else {
      var before := ls[..|ls| - 1];
      RunInv(before);
      if Exec(ls).Some? {
        StepCore(Exec(before).value, ls[|ls| - 1]);
        StepPermits(Exec(before).value, ls[|ls| - 1]);
      }
    }
  }

  // Permits and the calls between take and give always total eight.
  lemma PermitsConserved(ls: seq<Label>)
    ensures Exec(ls).Some? ==> Exec(ls).value.permits + |Holders(Exec(ls).value)| == SLOTS
  {
    RunInv(ls);
  }

  function Owners(slots: seq<Slot>): (r: seq<CallId>)
    ensures |r| == |slots|
    ensures forall i :: 0 <= i < |r| ==> r[i] == slots[i].owner
  {
    seq(|slots|, i requires 0 <= i < |slots| => slots[i].owner)
  }

  // A caller that holds a permit and is about to claim finds a free slot: eight
  // taken slots would have eight different owners besides it, all holding permits.
  lemma FreeSlotExists(s: State, c: CallId)
    requires Inv(s) && (PcOf(s, c).Holding? || PcOf(s, c).Claiming?)
    ensures FindSeq(s.slots, 0).Some?
  {
    if FindSeq(s.slots, 0).None? {
      var owners := Owners(s.slots);
      forall i, j | 0 <= i < j < |owners| ensures owners[i] != owners[j] {
        assert SlotInv(s, i) && SlotInv(s, j);
      }
      DistinctCard(owners);
      forall o | o in Elements(owners) ensures o in Holders(s) - {c} {
        var i :| 0 <= i < |owners| && owners[i] == o;
        assert SlotInv(s, i);
      }
      SubsetCard(Elements(owners), Holders(s) - {c});
      HoldersMove(s, s.(pcs := s.pcs[c := PcOf(s, c)]), c);
      assert false;
    }
  }

  // The sequence numbers held by live slots, at most seven when one slot is free.
  function LiveSeqs(slots: seq<Slot>): set<nat> {
    if slots == [] then {}
    else LiveSeqs(slots[..|slots| - 1]) + if slots[|slots| - 1].seqNo == 0 then {} else {slots[|slots| - 1].seqNo}
  }

  lemma {:induction false} LiveSeqsIs(slots: seq<Slot>)
    ensures forall q :: q in LiveSeqs(slots) <==> q != 0 && FindSeq(slots, q).Some?
    ensures |LiveSeqs(slots)| <= |slots|
    ensures FindSeq(slots, 0).Some? ==> |LiveSeqs(slots)| < |slots|
  {
    if slots != [] {
      LiveSeqsIs(slots[..|slots| - 1]);
    }
  }

  // Eight different nonzero candidates cannot all collide with seven live slots.
  lemma SearchSucceeds(slots: seq<Slot>, draws: seq<nat>)
    requires |slots| == SLOTS && FindSeq(slots, 0).Some?
    requires |draws| == CLAIM_TRIES && Distinct(draws) && 0 !in draws
    ensures PickSeq(slots, draws).Some?
  {
    LiveSeqsIs(slots);
    DistinctCard(draws);
    Pigeonhole(Elements(draws), LiveSeqs(slots));
    var q :| q in Elements(draws) && q !in LiveSeqs(slots);
    var i :| 0 <= i < |draws| && draws[i] == q;
  }

  // Both failure exits of waiter_claim are unreachable when the eight candidates
  // drawn are different and nonzero.
  lemma ClaimNeverFails(ls: seq<Label>, c: CallId, draws: seq<nat>)
    requires Exec(ls + [Claim(c, draws)]).Some?
    requires Distinct(draws) && 0 !in draws
    ensures PcOf(Exec(ls + [Claim(c, draws)]).value, c).Claimed?
  {
    assert (ls + [Claim(c, draws)])[..|ls|] == ls;
    RunInv(ls);
    FreeSlotExists(Exec(ls).value, c);
    SearchSucceeds(Exec(ls).value.slots, draws);
  }

  // ── Correlation ──────────────────────────────────────────────────────────

  // Live waiters hold pairwise different nonzero sequence numbers.
  lemma LiveSeqsDiffer(ls: seq<Label>, a: CallId, b: CallId)
    requires Exec(ls).Some? && a != b
    requires Live(PcOf(Exec(ls).value, a)) && Live(PcOf(Exec(ls).value, b))
    ensures PcOf(Exec(ls).value, a).seqNo != 0
    ensures PcOf(Exec(ls).value, a).seqNo != PcOf(Exec(ls).value, b).seqNo
  {
    RunInv(ls);
    var s := Exec(ls).value;
    assert CallInv(s, a) && CallInv(s, b);
  }

  // A call that returned true holds the capacity-bounded prefix of the last frame
  // published to it; that frame acknowledges the sequence number the call drew and
  // has the type the call expects.
  lemma ReturnedTrueHolds(ls: seq<Label>, c: CallId)
    requires Exec(ls).Some? && PcOf(Exec(ls).value, c) == Returned(true)
    ensures var s := Exec(ls).value;
            && c in s.done && c in s.bufs && c in s.drawn
            && s.done[c].ack == s.drawn[c].0 && s.done[c].typ == s.drawn[c].1
            && Holds(s.bufs[c], s.done[c])
  {
    RunInv(ls);
    var s := Exec(ls).value;
    assert CallInv(s, c);
    if s.rx.RxCopied? { assert SlotInv(s, s.rx.slot); }
  }

  // Frames in the history were really received, so the frame above is not invented.
  ghost predicate WasReceived(ls: seq<Label>, f: Frame) {
    exists i :: 0 <= i < |ls| && ls[i] == Receive(f)
  }

  ghost predicate HistoryReceived(ls: seq<Label>, s: State) {
    && (!s.rx.RxIdle? ==> WasReceived(ls, s.rx.f))
    && (forall c: CallId :: c in s.done ==> WasReceived(ls, s.done[c]))
    && (forall c: CallId :: c in s.woke ==> WasReceived(ls, s.woke[c]))
  }

  lemma StepHistory(s: State, l: Label)
    requires Enabled(s, l)
    ensures var s' := Apply(s, l);
            && (!s'.rx.RxIdle? ==> (!s.rx.RxIdle? && s'.rx.f == s.rx.f) || l == Receive(s'.rx.f))
            && (forall c: CallId :: c in s'.done ==>
                  (c in s.done && s'.done[c] == s.done[c]) || (!s.rx.RxIdle? && s'.done[c] == s.rx.f))
            && (forall c: CallId :: c in s'.woke ==>
                  (c in s.woke && s'.woke[c] == s.woke[c]) || (!s.rx.RxIdle? && s'.woke[c] == s.rx.f))
  {
    match l
    case Receive(_) =>
    case Search =>
    case Copy =>
    case Publish =>
    case Give =>
    case _ =>
  }

  lemma {:induction false} DoneWasReceived(ls: seq<Label>)
    ensures Exec(ls).Some? ==> HistoryReceived(ls, Exec(ls).value)
  {
    if ls != [] {
      var before := ls[..|ls| - 1];
      DoneWasReceived(before);
      ReceivedEarlier(before, ls);
      if Exec(ls).Some? {
        StepHistory(Exec(before).value, ls[|ls| - 1]);
        assert ls[|ls| - 1].Receive? ==> WasReceived(ls, ls[|ls| - 1].f);
      }
    }
  }

  lemma ReceivedEarlier(before: seq<Label>, ls: seq<Label>)
    requires before <= ls
    ensures forall f :: WasReceived(before, f) ==> WasReceived(ls, f)
  {
    forall f | WasReceived(before, f) ensures WasReceived(ls, f) {
      var i :| 0 <= i < |before| && before[i] == Receive(f);
      assert ls[i] == Receive(f);
    }
  }

  // No step changes the buffer or length of a call that has given its slot back:
  // the receiver writes only through slots whose owner is still there.
  lemma NoLateDelivery(ls: seq<Label>, l: Label, c: CallId)
    requires Exec(ls + [l]).Some?
    ensures Exec(ls).Some?
    ensures (PcOf(Exec(ls).value, c).Freed? || PcOf(Exec(ls).value, c).Returned?) && c in Exec(ls).value.bufs ==>
              c in Exec(ls + [l]).value.bufs && Exec(ls + [l]).value.bufs[c] == Exec(ls).value.bufs[c]
  {
    assert (ls + [l])[..|ls|] == ls;
    RunInv(ls);
    var s := Exec(ls).value;
    if l.Copy? || l.Publish? { assert SlotInv(s, s.rx.slot); }
  }

  // A call that wakes was signalled by a frame acknowledging the number it drew for
  // this claim, so a token left over from an earlier use of the slot wakes nobody.
  lemma WakeIsForThisClaim(ls: seq<Label>, c: CallId)
    requires Exec(ls + [Wake(c)]).Some?
    ensures Exec(ls).Some?
    ensures var s := Exec(ls).value;
            c in s.woke && c in s.drawn && s.woke[c].ack == s.drawn[c].0 == PcOf(s, c).seqNo
  {
    assert (ls + [Wake(c)])[..|ls|] == ls;
    RunInv(ls);
    var s := Exec(ls).value;
    assert CallInv(s, c);
    assert SlotInv(s, PcOf(s, c).slot);
  }
}
