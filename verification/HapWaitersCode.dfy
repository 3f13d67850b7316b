// The three table operations of main/hap_bridge.cpp as code over the slot array,
// each proved to perform the corresponding steps of the HapWaiters system.
module HapWaitersCode {
  import opened Common
  import opened HapWaiters

  // waiter_deliver runs its steps inside one hold of the mutex.
  function AfterDeliver(s: State, f: Frame): State
    requires s.rx.RxIdle? && s.mutex.None?
    requires forall k :: 0 <= k < |s.slots| && s.slots[k].seqNo != 0 ==> s.slots[k].owner in s.bufs
  {
    var m := DoReceive(s, f);
    if m.rx.RxIdle? then m
    else
      var found := DoSearch(m);
      match found.rx
      case RxFound(_, _) => DoGive(DoPublish(DoCopy(found)))
      case RxGiving(_, _) => DoGive(found)
      case _ => found
  }

  lemma AfterDeliverIs(s: State, f: Frame)
    requires s.rx.RxIdle? && s.mutex.None?
    requires forall k :: 0 <= k < |s.slots| && s.slots[k].seqNo != 0 ==> s.slots[k].owner in s.bufs
    ensures var s', k := AfterDeliver(s, f), FindSeq(s.slots, f.ack);
            && s'.rx.RxIdle? && s'.mutex.None? && s'.permits == s.permits
            && (f.ack == 0 || k.None? ==> s'.slots == s.slots && s'.bufs == s.bufs)
            && (f.ack != 0 && k.Some? ==>
                  var x := s.slots[k.value];
                  var b := s.bufs[x.owner];
                  if f.typ == x.rspType then
                    && s'.slots == s.slots[k.value := x.(ok := true, token := true)]
                    && s'.bufs == s.bufs[x.owner :=
                         Buf(Overlay(b.data, f.payload, Min(|f.payload|, Min(x.cap, |b.data|))), Min(|f.payload|, x.cap))]
                  else
                    s'.slots == s.slots[k.value := x.(token := true)] && s'.bufs == s.bufs)
  {
    if f.ack != 0 && FindSeq(s.slots, f.ack).Some? {
      var k := FindSeq(s.slots, f.ack).value;
      var found := DoSearch(DoReceive(s, f));
      if f.typ == s.slots[k].rspType {
        CopiedAndPublished(found, f, k);
        assert AfterDeliver(s, f) == DoGive(DoPublish(DoCopy(found)));
      } else {
        assert AfterDeliver(s, f) == DoGive(found);
      }
    }
  }

  lemma CopiedAndPublished(s: State, f: Frame, k: nat)
    requires s.rx == RxFound(f, k) && k < |s.slots| && s.slots[k].owner in s.bufs
    ensures Enabled(s, Copy) && Enabled(DoCopy(s), Publish)
    ensures var x := s.slots[k];
            var b := s.bufs[x.owner];
            DoPublish(DoCopy(s)) == s.(
              rx := RxGiving(f, k),
              slots := s.slots[k := x.(ok := true)],
              bufs := s.bufs[x.owner :=
                Buf(Overlay(b.data, f.payload, Min(|f.payload|, Min(x.cap, |b.data|))), Min(|f.payload|, x.cap))],
              done := s.done[x.owner := f])
  {
    var x := s.slots[k];
    var m := DoCopy(s);
    assert m.bufs[x.owner := Buf(m.bufs[x.owner].data, Min(|f.payload|, x.cap))] ==
           s.bufs[x.owner := Buf(m.bufs[x.owner].data, Min(|f.payload|, x.cap))];
  }

  class WaiterTable {
    const slots: array<Slot>
    var permits: nat
    var bufs: map<CallId, Buf>

    ghost predicate Shows(s: State)
      reads this, slots
    {
      slots.Length == SLOTS && slots[..] == s.slots && permits == s.permits && bufs == s.bufs
    }

    constructor ()
      ensures Shows(Init()) && fresh(slots)
    {
      slots := new Slot[SLOTS](i => FREE);
      permits, bufs := SLOTS, map[];
      new;
      assert slots[..] == seq(SLOTS, i => FREE);
    }

    // The search loops: the first slot with sequence number q.
    method Find(q: nat) returns (r: Option<nat>)
      ensures r == FindSeq(slots[..], q)
    {
      var i := 0;
      while i < slots.Length
        invariant i <= slots.Length
        invariant FindSeq(slots[..i], q) == None
      {
        assert slots[..i + 1][..i] == slots[..i];
        if slots[i].seqNo == q {
          FindSeqPrefix(slots[..], i + 1, q);
          return Some(i);
        }
        i := i + 1;
      }
      assert slots[..i] == slots[..];
      return None;
    }

    // waiter_claim; `draws` are the values hap_session_next_seq would return
    method Claim(ghost s: State, ghost c: CallId, rspType: nat, cap: nat, owner: CallId, draws: seq<nat>)
      returns (r: Option<(nat, nat)>)
      requires Shows(s) && PcOf(s, c) == Claiming(rspType, cap) && owner == c && |draws| == CLAIM_TRIES
      modifies slots
      ensures Shows(DoClaim(s, c, draws))
      ensures PcOf(DoClaim(s, c, draws), c) == match r case None => GivingBack case Some(w) => Claimed(w.0, w.1)
    {
      var k := Find(0);
      if k.None? { return None; }
      var attempt := 0;
      while attempt < CLAIM_TRIES
        invariant attempt <= CLAIM_TRIES
        invariant slots[..] == s.slots
        invariant PickSeq(s.slots, draws) == PickSeq(s.slots, draws[attempt..])
      {
        var cand := draws[attempt];
        assert draws[attempt..][0] == cand && draws[attempt..][1..] == draws[attempt + 1..];
        if cand != 0 {
          var clash := Find(cand);
          if clash.None? {
            slots[k.value] := Slot(cand, rspType, owner, cap, false, false);
            return Some((k.value, cand));
          }
        }
        attempt := attempt + 1;
      }
      return None;
    }

    // waiter_deliver
    method Deliver(ghost s: State, f: Frame) returns (delivered: bool)
      requires Shows(s) && s.rx.RxIdle? && s.mutex.None?
      requires forall k :: 0 <= k < |s.slots| && s.slots[k].seqNo != 0 ==> s.slots[k].owner in s.bufs
      modifies this`bufs, slots
      ensures Shows(AfterDeliver(s, f))
      ensures AfterDeliver(s, f).rx.RxIdle? && AfterDeliver(s, f).mutex.None?
      ensures delivered <==> f.ack != 0 && exists k :: 0 <= k < |s.slots| && s.slots[k].seqNo == f.ack
    {
      AfterDeliverIs(s, f);
      if f.ack == 0 { return false; }
      var k := Find(f.ack);
      if k.None? { return false; }
      var w := slots[k.value];
      if f.typ == w.rspType {
        var b := bufs[w.owner];
        var n := Min(|f.payload|, Min(w.cap, |b.data|));
        bufs := bufs[w.owner := Buf(Overlay(b.data, f.payload, n), Min(|f.payload|, w.cap))];
        w := w.(ok := true);
      }
      slots[k.value] := w.(token := true);
      return true;
    }

    // waiter_release
    method ReleaseSlot(ghost s: State, ghost c: CallId, slot: nat)
      requires Shows(s) && Enabled(s, Unlink(c)) && PcOf(s, c).slot == slot
      modifies this`permits, slots
      ensures Shows(Apply(DoUnlink(s, c), GivePermit(c)))
    {
      slots[slot] := slots[slot].(seqNo := 0);
      permits := permits + 1;
    }
  }

  lemma FindSeqPrefix(slots: seq<Slot>, n: nat, q: nat)
    requires n <= |slots| && FindSeq(slots[..n], q).Some?
    ensures FindSeq(slots, q) == FindSeq(slots[..n], q)
  {
    var a, b := FindSeq(slots, q), FindSeq(slots[..n], q);
    assert slots[b.value] == slots[..n][b.value];
    assert a.value <= b.value;
    assert slots[a.value] == slots[..n][a.value];
  }
}
