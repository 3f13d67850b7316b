// main/hap_bridge.cpp: attribute updates from the radio chip are gathered into one
// array per time window before they are broadcast.
module BulkCoalescer {
  import opened Common

  type Payload = seq<Byte>

  const CAP: nat := 4096          // BULK_COALESCE_CAP
  const EVENT_CAP: nat := CAP + 128

  const OPEN: Byte := 91          // [
  const CLOSE: Byte := 93         // ]
  const COMMA: Byte := 44         // ,

  // What ws_event_broadcast is handed: a gathered array, or one oversize payload.
  datatype Frame = Batch(items: seq<Payload>) | Direct(item: Payload)

  function Bytes(f: Frame): seq<Byte> {
    match f
    case Batch(items) => [OPEN] + Join(COMMA, items) + [CLOSE]
    case Direct(item) => item
  }

  function Items(f: Frame): seq<Payload> {
    match f
    case Batch(items) => items
    case Direct(item) => [item]
  }

  function AllItems(fs: seq<Frame>): seq<Payload> {
    if fs == [] then [] else AllItems(fs[..|fs| - 1]) + Items(fs[|fs| - 1])
  }

  // The buffer contents for payloads that are waiting: an array not yet closed.
  function Pending(items: seq<Payload>): seq<Byte> {
    if items == [] then [] else [OPEN] + Join(COMMA, items)
  }

  lemma PendingAppend(items: seq<Payload>, p: Payload)
    ensures Pending(items + [p]) == Pending(items) + [if items == [] then OPEN else COMMA] + p
  {
    JoinAppend(COMMA, items, p);
    if items != [] {
      assert [OPEN] + (Join(COMMA, items) + [COMMA] + p) == [OPEN] + Join(COMMA, items) + [COMMA] + p;
    }
  }

  lemma {:induction false} PendingCount(items: seq<Payload>)
    requires forall i :: 0 <= i < |items| ==> items[i] != []
    ensures |Pending(items)| >= 2 * |items|
  {
    if items != [] {
      var front, p := items[..|items| - 1], items[|items| - 1];
      PendingCount(front);
      PendingAppend(front, p);
      assert front + [p] == items;
    }
  }

  // ── What the coalescer promises, as a function of payloads received ───────

  datatype Bulk = Bulk(waiting: seq<Payload>, sent: seq<Frame>)

  function Flushed(b: Bulk): Bulk {
    if b.waiting == [] then b else Bulk([], b.sent + [Batch(b.waiting)])
  }

  predicate Fits(waiting: seq<Payload>, p: Payload) {
    |Pending(waiting)| + 1 + |p| + 1 <= CAP
  }

  function Received(b: Bulk, p: Payload): Bulk {
    if |p| + 2 > CAP then Flushed(b).(sent := Flushed(b).sent + [Direct(p)])
    else if p == [] then b
    else if Fits(b.waiting, p) then b.(waiting := b.waiting + [p])
    else Flushed(b).(waiting := [p])
  }

  // A run: payloads arriving (Some) and window timers firing (None).
  function Run(inputs: seq<Option<Payload>>): Bulk {
    if inputs == [] then Bulk([], [])
    else
      var b := Run(inputs[..|inputs| - 1]);
      match inputs[|inputs| - 1]
      case None => Flushed(b)
      case Some(p) => Received(b, p)
  }

  // The payloads that carry something, in order of arrival.
  function NonEmpty(inputs: seq<Option<Payload>>): seq<Payload> {
    if inputs == [] then []
    else NonEmpty(inputs[..|inputs| - 1]) +
         match inputs[|inputs| - 1] case None => [] case Some(p) => if p == [] then [] else [p]
  }

  lemma AllItemsAppend(fs: seq<Frame>, f: Frame)
    ensures AllItems(fs + [f]) == AllItems(fs) + Items(f)
  {
    assert (fs + [f])[..|fs|] == fs;
  }

  // Everything handed over or waiting, in order.
  function Carried(b: Bulk): seq<Payload> {
    AllItems(b.sent) + b.waiting
  }

  lemma FlushedKeepsItems(b: Bulk)
    ensures Carried(Flushed(b)) == Carried(b) && Flushed(b).waiting == []
    ensures AllItems(Flushed(b).sent) == Carried(b)
  {
    if b.waiting != [] { AllItemsAppend(b.sent, Batch(b.waiting)); }
  }

  lemma ReceivedCarries(b: Bulk, p: Payload)
    ensures Carried(Received(b, p)) == Carried(b) + if p == [] then [] else [p]
  {
    FlushedKeepsItems(b);
    var fl := Flushed(b);
    if |p| + 2 > CAP {
      AllItemsAppend(fl.sent, Direct(p));
    } else if p == [] {
      assert Carried(b) + [] == Carried(b);
    } else if Fits(b.waiting, p) {
      assert AllItems(b.sent) + (b.waiting + [p]) == Carried(b) + [p];
    }
  }

  // Nothing is lost, duplicated or reordered, whatever the timing of the flushes.
  lemma {:induction false} NothingLost(inputs: seq<Option<Payload>>)
    ensures AllItems(Run(inputs).sent) + Run(inputs).waiting == NonEmpty(inputs)
  {
    if inputs != [] {
      var before, last := inputs[..|inputs| - 1], inputs[|inputs| - 1];
      NothingLost(before);
      var b := Run(before);
      assert Carried(b) == NonEmpty(before);
      match last
      case None =>
        FlushedKeepsItems(b);
        assert NonEmpty(before) + [] == NonEmpty(before);
      case Some(p) =>
        ReceivedCarries(b, p);
    }
  }

  // Every gathered frame is a nonempty array of nonempty payloads that fits the cap.
  ghost predicate GoodFrame(f: Frame) {
    match f
    case Batch(items) => items != [] && |Bytes(f)| <= CAP && forall i :: 0 <= i < |items| ==> items[i] != []
    case Direct(item) => |item| + 2 > CAP
  }

  ghost predicate GoodBulk(b: Bulk) {
    && |Pending(b.waiting)| + 1 <= CAP
    && (forall i :: 0 <= i < |b.waiting| ==> b.waiting[i] != [])
    && (forall i :: 0 <= i < |b.sent| ==> GoodFrame(b.sent[i]))
  }

  lemma GoodReceived(b: Bulk, p: Payload)
    requires GoodBulk(b)
    ensures GoodBulk(Flushed(b)) && GoodBulk(Received(b, p))
  {
    PendingAppend(b.waiting, p);
    assert |p| + 2 <= CAP && p != [] ==> |Pending([p])| == |p| + 1;
    assert b.waiting != [] ==> GoodFrame(Batch(b.waiting));
  }

  lemma GoodAppend(b: Bulk, p: Payload)
    requires GoodBulk(b) && p != [] && Fits(b.waiting, p)
    ensures GoodBulk(b.(waiting := b.waiting + [p]))
    ensures Pending(b.waiting + [p]) == Pending(b.waiting) + [if b.waiting == [] then OPEN else COMMA] + p
    ensures |b.waiting + [p]| < 0x1_0000
  {
    PendingAppend(b.waiting, p);
    PendingCount(b.waiting + [p]);
  }

  lemma {:induction false} FramesFit(inputs: seq<Option<Payload>>)
    ensures GoodBulk(Run(inputs))
  {
    if inputs != [] {
      FramesFit(inputs[..|inputs| - 1]);
      GoodReceived(Run(inputs[..|inputs| - 1]), match inputs[|inputs| - 1] case None => [] case Some(p) => p);
    }
  }

  // ── The envelope around a frame (remote_client.h, ws_event_envelope_build) ──

  // `%.*s` copies up to the first NUL.
  function UpToNul(s: seq<Byte>): (r: seq<Byte>)
    ensures r <= s
    ensures 0 !in r && (r == s || s[|r|] == 0)
  {
    if s == [] || s[0] == 0 then [] else [s[0]] + UpToNul(s[1..])
  }

  function Head(name: string): seq<Byte> {
    Ascii("{\"event\":\"") + Ascii(name) + Ascii("\",\"data\":")
  }

  // None when not even the degraded frame fits; snprintf needs room for a NUL.
  function Envelope(cap: nat, name: string, payload: seq<Byte>): Option<seq<Byte>> {
    var full := if payload != [] then Head(name) + UpToNul(payload) + Ascii("}") else Head(name) + Ascii("null}");
    var degraded := Head(name) + Ascii("null,\"trunc\":true}");
    if |full| < cap then Some(full) else if |degraded| < cap then Some(degraded) else None
  }

  lemma HeadLength()
    ensures |Head("attr.bulk")| == 28 && |Ascii("}")| == 1 && |Ascii("null,\"trunc\":true}")| == 18
  {
    assert |"{\"event\":\""| == 10 && |"attr.bulk"| == 9 && |"\",\"data\":"| == 9 && |"null,\"trunc\":true}"| == 18;
  }

  // No gathered frame of any run is degraded: the envelope carries it, as far as the
  // copy reads it.
  lemma BatchNeverDegraded(inputs: seq<Option<Payload>>, i: nat)
    requires i < |Run(inputs).sent| && Run(inputs).sent[i].Batch?
    ensures var f := Run(inputs).sent[i];
            Envelope(EVENT_CAP, "attr.bulk", Bytes(f)) == Some(Head("attr.bulk") + UpToNul(Bytes(f)) + Ascii("}"))
  {
    FramesFit(inputs);
    assert GoodFrame(Run(inputs).sent[i]);
    HeadLength();
  }

  // It is carried whole exactly if none of its payloads holds a NUL.
  lemma BatchWholeIff(inputs: seq<Option<Payload>>, i: nat)
    requires i < |Run(inputs).sent| && Run(inputs).sent[i].Batch?
    ensures var f := Run(inputs).sent[i];
            Envelope(EVENT_CAP, "attr.bulk", Bytes(f)) == Some(Head("attr.bulk") + Bytes(f) + Ascii("}")) <==>
            forall j :: 0 <= j < |f.items| ==> 0 !in f.items[j]
  {
    var f := Run(inputs).sent[i];
    BatchNeverDegraded(inputs, i);
    JoinNul(f.items);
    assert 0 in Bytes(f) <==> 0 in Join(COMMA, f.items);
    assert UpToNul(Bytes(f)) == Bytes(f) <==> 0 !in Bytes(f);
    SplicedSame(Head("attr.bulk"), UpToNul(Bytes(f)), Bytes(f), Ascii("}"));
  }

  lemma SplicedSame(h: seq<Byte>, a: seq<Byte>, b: seq<Byte>, t: seq<Byte>)
    requires |t| == 1
    ensures h + a + t == h + b + t <==> a == b
  {
    if h + a + t == h + b + t {
      assert a == (h + a + t)[|h|..|h| + |a|] == b;
    }
  }

  lemma {:induction false} JoinNul(items: seq<Payload>)
    ensures 0 in Join(COMMA, items) <==> exists j :: 0 <= j < |items| && 0 in items[j]
  {
    if |items| > 1 {
      JoinNul(items[1..]);
      if 0 in items[0] { assert 0 in Join(COMMA, items); }
      if 0 in Join(COMMA, items[1..]) {
        var j :| 0 <= j < |items[1..]| && 0 in items[1..][j];
        assert 0 in items[j + 1];
      }
      if exists j :: 0 <= j < |items| && 0 in items[j] {
        var j :| 0 <= j < |items| && 0 in items[j];
        if j > 0 { assert 0 in items[1..][j - 1]; }
      }
    }
  }

  lemma {:induction false} CutAt(s: seq<Byte>, k: nat)
    requires k < |s| && s[k] == 0 && forall i :: 0 <= i < k ==> s[i] != 0
    ensures UpToNul(s) == s[..k]
  {
    if k > 0 {
      CutAt(s[1..], k - 1);
      assert s[..k] == [s[0]] + s[1..][..k - 1];
    }
  }

  // A run whose one frame is cut: a digit, a NUL and a digit, then the window timer.
  lemma NulCutsTheFrame()
    ensures var inputs: seq<Option<Payload>> := [Some([49, 0, 50]), None];
            && Run(inputs).sent == [Batch([[49, 0, 50]])]
            && Envelope(EVENT_CAP, "attr.bulk", Bytes(Run(inputs).sent[0])) == Some(Head("attr.bulk") + [OPEN, 49] + Ascii("}"))
  {
    var p: Payload := [49, 0, 50];
    var inputs: seq<Option<Payload>> := [Some(p), None];
    assert inputs[..1] == [Some(p)] && inputs[..1][..0] == [];
    assert Run(inputs[..1]) == Bulk([] + [p], []);
    assert [] + [p] == [p] && [] + [Batch([p])] == [Batch([p])];
    BatchNeverDegraded(inputs, 0);
    var w := Bytes(Batch([p]));
    assert w == [OPEN, 49, 0, 50, CLOSE];
    CutAt(w, 2);
    assert w[..2] == [OPEN, 49];
  }

  // An oversize payload, handed over by itself, is degraded exactly from 4195 bytes on,
  // counted up to its first NUL; some frame always goes out.
  lemma DirectDegradedIff(inputs: seq<Option<Payload>>, i: nat)
    requires i < |Run(inputs).sent| && Run(inputs).sent[i].Direct?
    ensures var item := Run(inputs).sent[i].item;
            Envelope(EVENT_CAP, "attr.bulk", item) ==
            Some(Head("attr.bulk") + if |UpToNul(item)| <= 4194 then UpToNul(item) + Ascii("}") else Ascii("null,\"trunc\":true}"))
  {
    FramesFit(inputs);
    assert GoodFrame(Run(inputs).sent[i]);
    HeadLength();
    var h, item := Head("attr.bulk"), Run(inputs).sent[i].item;
    assert h + (UpToNul(item) + Ascii("}")) == h + UpToNul(item) + Ascii("}");
  }

  // ── The code ─────────────────────────────────────────────────────────────

  class Coalescer {
    const buf: array<Byte>       // s_bulk_buf
    var len: nat                 // s_bulk_len
    var count: nat               // s_bulk_count, a uint16_t
    var sent: seq<seq<Byte>>     // what has been handed to ws_event_broadcast
    ghost var model: Bulk

    ghost predicate Valid()
      reads this, buf
    {
      && buf.Length == CAP && len < CAP
      && GoodBulk(model)
      && buf[..len] == Pending(model.waiting)
      && count == |model.waiting|
      && |sent| == |model.sent| && forall i :: 0 <= i < |sent| ==> sent[i] == Bytes(model.sent[i])
    }

    constructor ()
      ensures Valid() && model == Bulk([], []) && fresh(buf)
    {
      buf := new Byte[CAP];
      len, count, sent := 0, 0, [];
      model := Bulk([], []);
    }

    // memcpy(s_bulk_buf + at, p, |p|)
    method CopyIn(at: nat, p: Payload)
      requires at + |p| <= buf.Length
      modifies buf
      ensures buf[..at] == old(buf[..at]) && buf[at..at + |p|] == p
    {
      var i := 0;
      while i < |p|
        invariant i <= |p|
        invariant buf[..at] == old(buf[..at]) && buf[at..at + i] == p[..i]
      {
        buf[at + i] := p[i];
        i := i + 1;
      }
    }

    // bulk_append
    method Append(p: Payload) returns (ok: bool)
      requires Valid()
      modifies this, buf
      ensures Valid() && sent == old(sent)
      ensures ok <==> p == [] || Fits(old(model).waiting, p)
      ensures model == if ok && p != [] then old(model).(waiting := old(model).waiting + [p]) else old(model)
      ensures count < 0x1_0000
    {
      PendingCount(model.waiting);
      if |p| == 0 { return true; }
      var need := 1 + |p| + 1;
      if len + need > CAP { return false; }
      ghost var more := model.(waiting := model.waiting + [p]);
      GoodAppend(model, p);
      buf[len] := if count == 0 then OPEN else COMMA;
      len := len + 1;
      assert buf[..len] == Pending(model.waiting) + [if model.waiting == [] then OPEN else COMMA];
      CopyIn(len, p);
      assert buf[..len + |p|] == buf[..len] + buf[len..len + |p|];
      len := len + |p|;
      count := count + 1;
      model := more;
      return true;
    }

    // bulk_flush, on the window timer and before an oversize or non-fitting payload
    method Flush()
      requires Valid()
      modifies this, buf
      ensures Valid() && model == Flushed(old(model))
    {
      if count == 0 { return; }
      buf[len] := CLOSE;
      len := len + 1;
      assert buf[..len] == Bytes(Batch(model.waiting));
      assert GoodFrame(Batch(model.waiting));
      sent := sent + [buf[..len]];
      model := Flushed(model);
      len, count := 0, 0;
    }

    // the BULK_STATE_UPDATE branch; `dropped` is its error log line
    method OnBulk(p: Payload) returns (dropped: bool)
      requires Valid()
      modifies this, buf
      ensures Valid() && model == Received(old(model), p)
      ensures !dropped
    {
      dropped := false;
      if |p| + 2 > CAP {
        Flush();
        sent := sent + [p];
        model := model.(sent := model.sent + [Direct(p)]);
        assert GoodFrame(Direct(p));
      } else {
        var ok := Append(p);
        if !ok {
          Flush();
          ok := Append(p);
          dropped := !ok;
        }
      }
    }
  }
}
