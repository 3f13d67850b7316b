// main/improv_proto.h: Improv serial framing.  A byte-at-a-time receiver against the
// packets that were framed, and the RPC bodies inside them.
module Improv {
  import opened Common

  const HEADER: seq<Byte> := [0x49, 0x4D, 0x50, 0x52, 0x4F, 0x56]   // IMPROV
  const NEWLINE: Byte := 0x0A
  const VERSION: Byte := 1
  const BUF_SIZE: nat := 265

  // 8-bit sum
  function Sum(s: seq<Byte>): Byte {
    if s == [] then 0 else (Sum(s[..|s| - 1]) as int + s[|s| - 1] as int) % 256
  }

  // A packet without the newlines around it.
  function Packet(kind: Byte, data: seq<Byte>): seq<Byte>
    requires |data| < 256
  {
    var body := HEADER + [VERSION, kind, |data|] + data;
    body + [Sum(body)]
  }

  function Framed(kind: Byte, data: seq<Byte>): seq<Byte>
    requires |data| < 256
  {
    [NEWLINE] + Packet(kind, data) + [NEWLINE]
  }

  // ── The receiver ─────────────────────────────────────────────────────────

  datatype Event = Quiet | Received(kind: Byte, data: seq<Byte>) | BadChecksum

  // One byte: the new contents of the buffer, and what it completed.
  function Feed(p: seq<Byte>, b: Byte): (seq<Byte>, Event) {
    var q := p + [b];
    if |p| < 6 then
      if b == HEADER[|p|] then (q, Quiet)
      else if b == HEADER[0] then ([b], Quiet)
      else ([], Quiet)
    else if |q| == 7 && b != VERSION then ([], Quiet)
    else if |q| < 9 || |q| < 10 + q[8] as int then (q, Quiet)
    else if Sum(q[..|q| - 1]) != q[|q| - 1] then ([], BadChecksum)
    else ([], Received(q[7], q[9..|q| - 1]))
  }

  function Event1(e: Event): seq<Event> {
    if e.Quiet? then [] else [e]
  }

  // A stretch of input: the buffer after it, and everything it completed.
  function FeedAll(p: seq<Byte>, input: seq<Byte>): (seq<Byte>, seq<Event>)
    decreases |input|
  {
    if input == [] then (p, [])
    else
      var (q, e) := Feed(p, input[0]);
      var (r, es) := FeedAll(q, input[1..]);
      (r, Event1(e) + es)
  }

  lemma {:induction false} FeedSplit(p: seq<Byte>, a: seq<Byte>, b: seq<Byte>)
    ensures FeedAll(p, a + b) ==
            (FeedAll(FeedAll(p, a).0, b).0, FeedAll(p, a).1 + FeedAll(FeedAll(p, a).0, b).1)
    decreases |a|
  {
    hide Feed;
    if a == [] {
      assert a + b == b;
      assert [] + FeedAll(p, b).1 == FeedAll(p, b).1;
    } else {
      var (q, e) := Feed(p, a[0]);
      FeedSplit(q, a[1..], b);
      assert (a + b)[1..] == a[1..] + b;
      var rest := FeedAll(FeedAll(q, a[1..]).0, b).1;
      assert Event1(e) + (FeedAll(q, a[1..]).1 + rest) == (Event1(e) + FeedAll(q, a[1..]).1) + rest;
    }
  }

  lemma FeedOne(p: seq<Byte>, b: Byte)
    ensures FeedAll(p, [b]) == (Feed(p, b).0, Event1(Feed(p, b).1))
  {
    var e := Event1(Feed(p, b).1);
    assert [b][1..] == [] && e + [] == e;
  }

  // The buffer holds the start of a packet, and there is room for one more byte.
  predicate Started(p: seq<Byte>) {
    && (|p| < 6 ==> p == HEADER[..|p|])
    && (|p| >= 6 ==> p[..6] == HEADER)
    && (|p| >= 7 ==> p[6] == VERSION)
    && (|p| >= 9 ==> |p| < 10 + p[8] as int)
  }

  predicate Searching(p: seq<Byte>) {
    |p| < 6 && Started(p)
  }

  lemma StartedBound(p: seq<Byte>)
    requires Started(p)
    ensures |p| < BUF_SIZE
  {
  }

  lemma FeedKeepsStarted(p: seq<Byte>, b: Byte)
    requires Started(p)
    ensures Started(Feed(p, b).0)
  {
  }

  predicate EndsWith(s: seq<Byte>, t: seq<Byte>) {
    |t| <= |s| && s[|s| - |t|..] == t
  }

  lemma FeedSnoc(p: seq<Byte>, input: seq<Byte>)
    requires input != []
    ensures var q := FeedAll(p, input[..|input| - 1]);
            var r := Feed(q.0, input[|input| - 1]);
            FeedAll(p, input) == (r.0, q.1 + Event1(r.1))
  {
    var n := |input| - 1;
    FeedSplit(p, input[..n], [input[n]]);
    FeedOne(FeedAll(p, input[..n]).0, input[n]);
    assert input[..n] + [input[n]] == input;
  }

  lemma TailStep(before: seq<Byte>, p: seq<Byte>, b: Byte)
    requires EndsWith(before, p)
    ensures EndsWith(before + [b], Feed(p, b).0)
  {
    assert (before + [b])[|before| - |p|..] == p + [b];
  }

  lemma EmptyStarted()
    ensures Started([])
  {
  }

  // Whatever the input, the buffer is the end of it.
  lemma {:induction false} BufferIsTail(input: seq<Byte>)
    ensures var p := FeedAll([], input).0; Started(p) && EndsWith(input, p)
    decreases |input|
  {
    hide Feed, Started;
    if input == [] {
      EmptyStarted();
    } else {
      var n := |input| - 1;
      BufferIsTail(input[..n]);
      var p := FeedAll([], input[..n]).0;
      FeedSnoc([], input);
      FeedKeepsStarted(p, input[n]);
      TailStep(input[..n], p, input[n]);
      assert input[..n] + [input[n]] == input;
    }
  }

  // A packet is reported only when the input ends with exactly that packet.
  lemma ReportsOnlyPackets(input: seq<Byte>)
    requires input != []
    ensures var n := |input| - 1;
            match Feed(FeedAll([], input[..n]).0, input[n]).1
            case Received(kind, data) => |data| < 256 && EndsWith(input, Packet(kind, data))
            case _ => true
  {
    var n := |input| - 1;
    var p := FeedAll([], input[..n]).0;
    BufferIsTail(input[..n]);
    if Feed(p, input[n]).1.Received? {
      ReceivedIsPacket(p, input[n]);
      assert input[|input| - |p + [input[n]]|..] == p + [input[n]];
    }
  }

  lemma ReceivedIsPacket(p: seq<Byte>, b: Byte)
    requires Started(p) && Feed(p, b).1.Received?
    ensures var e := Feed(p, b).1; |e.data| < 256 && Packet(e.kind, e.data) == p + [b]
  {
    var q, e := p + [b], Feed(p, b).1;
    var body := HEADER + [VERSION, e.kind, |e.data|] + e.data;
    assert q[..|q| - 1] == p;
    assert p == body;
  }

  // ── Noise ────────────────────────────────────────────────────────────────

  // How much of the header the text ends with, short of all of it.
  function Matched(s: seq<Byte>): (k: nat)
    ensures k < 6 && EndsWith(s, HEADER[..k])
    ensures forall j :: k < j < 6 ==> !EndsWith(s, HEADER[..j])
  {
    if EndsWith(s, HEADER[..5]) then 5
    else if EndsWith(s, HEADER[..4]) then 4
    else if EndsWith(s, HEADER[..3]) then 3
    else if EndsWith(s, HEADER[..2]) then 2
    else if EndsWith(s, HEADER[..1]) then 1
    else 0
  }

  predicate NoHeader(s: seq<Byte>) {
    forall i {:trigger s[..i]} :: 0 <= i <= |s| ==> !EndsWith(s[..i], HEADER)
  }

  lemma SameLast(t: seq<Byte>, b: Byte, h: seq<Byte>, c: Byte)
    ensures EndsWith(t + [b], h + [c]) <==> b == c && EndsWith(t, h)
  {
    if |h| <= |t| {
      var tail := t[|t| - |h|..];
      assert (t + [b])[|t| - |h|..] == tail + [b];
      assert (tail + [b])[..|h|] == tail && (h + [c])[..|h|] == h;
      assert (tail + [b])[|h|] == b && (h + [c])[|h|] == c;
    }
  }

  lemma SnocEnds(t: seq<Byte>, b: Byte, j: nat)
    requires 0 < j <= 6
    ensures EndsWith(t + [b], HEADER[..j]) <==> b == HEADER[j - 1] && EndsWith(t, HEADER[..j - 1])
  {
    SameLast(t, b, HEADER[..j - 1], HEADER[j - 1]);
    assert HEADER[..j] == HEADER[..j - 1] + [HEADER[j - 1]];
  }

  // The letters of the header differ, so a match of length k is none of length j.
  lemma EndsOnce(t: seq<Byte>, j: nat, k: nat)
    requires j <= 6 && k <= 6 && EndsWith(t, HEADER[..j]) && EndsWith(t, HEADER[..k])
    ensures j == 0 || k == 0 || j == k
  {
    if j > 0 && k > 0 {
      assert t[|t| - 1] == HEADER[..j][j - 1] == HEADER[..k][k - 1];
    }
  }

  lemma MatchedIs(t: seq<Byte>, k: nat)
    requires 0 < k < 6 && EndsWith(t, HEADER[..k])
    ensures Matched(t) == k
  {
    EndsOnce(t, k, Matched(t));
  }

  // In search, the buffer stays the longest part of the header the input ends with.
  lemma SearchStep(t: seq<Byte>, b: Byte)
    requires !EndsWith(t + [b], HEADER)
    ensures Feed(HEADER[..Matched(t)], b) == (HEADER[..Matched(t + [b])], Quiet)
  {
    var k, m := Matched(t), Matched(t + [b]);
    assert HEADER[..6] == HEADER;
    SnocEnds(t, b, k + 1);
    if b == HEADER[k] {
      MatchedIs(t + [b], k + 1);
      assert HEADER[..k] + [b] == HEADER[..k + 1];
    } else {
      if m > 0 {
        SnocEnds(t, b, m);
        EndsOnce(t, m - 1, k);
      }
      if b == HEADER[0] {
        SnocEnds(t, b, 1);
        MatchedIs(t + [b], 1);
      }
    }
  }

  lemma NoHeaderPrefix(t: seq<Byte>, b: Byte)
    requires NoHeader(t + [b])
    ensures NoHeader(t) && !EndsWith(t + [b], HEADER)
  {
    var s := t + [b];
    assert s[..|s|] == s;
    forall i | 0 <= i <= |t| ensures !EndsWith(t[..i], HEADER) { assert t[..i] == s[..i]; }
  }

  // From any search state, input in which the header does not come about is skipped
  // without a report.
  lemma {:induction false} NoiseIsSkipped(p: seq<Byte>, noise: seq<Byte>)
    requires Searching(p) && NoHeader(p + noise)
    ensures FeedAll(p, noise) == (HEADER[..Matched(p + noise)], [])
    decreases |noise|
  {
    if noise == [] {
      assert p + noise == p;
      if p != [] {
        assert p[|p| - |p|..] == p;
        MatchedIs(p, |p|);
      } else {
        assert Matched(p) == 0;
      }
    } else {
      var n := |noise| - 1;
      var t, b := p + noise[..n], noise[n];
      assert p + noise == t + [b];
      NoHeaderPrefix(t, b);
      NoiseIsSkipped(p, noise[..n]);
      SearchStep(t, b);
      FeedSnoc(p, noise);
      var q := FeedAll(p, noise[..n]);
      assert q.0 == HEADER[..Matched(t)] && q.1 == [];
      assert q.1 + Event1(Quiet) == [];
    }
  }

  // ── Packets ──────────────────────────────────────────────────────────────

  // The buffer after k bytes of a packet, from an empty buffer, is those bytes.
  lemma {:induction false} PacketFills(kind: Byte, data: seq<Byte>, k: nat)
    requires |data| < 256 && k < |Packet(kind, data)|
    ensures FeedAll([], Packet(kind, data)[..k]) == (Packet(kind, data)[..k], [])
  {
    var w := Packet(kind, data);
    if k > 0 {
      PacketFills(kind, data, k - 1);
      assert w[..k][..k - 1] == w[..k - 1] && w[..k] == w[..k - 1] + [w[k - 1]];
      FeedSnoc([], w[..k]);
      PacketByte(kind, data, k - 1);
      assert [] + Event1(Quiet) == [];
    }
  }

  lemma PacketByte(kind: Byte, data: seq<Byte>, k: nat)
    requires |data| < 256 && k < |Packet(kind, data)| - 1
    ensures Feed(Packet(kind, data)[..k], Packet(kind, data)[k]) == (Packet(kind, data)[..k + 1], Quiet)
  {
    var w := Packet(kind, data);
    assert w[..k] + [w[k]] == w[..k + 1];
    assert w[8] as int == |data| && |w| == 10 + |data|;
  }

  lemma PacketEnds(kind: Byte, data: seq<Byte>)
    requires |data| < 256
    ensures var w := Packet(kind, data);
            Feed(w[..|w| - 1], w[|w| - 1]) == ([], Received(kind, data))
  {
    var w := Packet(kind, data);
    var n := |w| - 1;
    var body := HEADER + [VERSION, kind, |data|] + data;
    assert w[..n] + [w[n]] == w && w[..n] == body;
    assert w[9..n] == data;
  }

  lemma PacketIsReceived(kind: Byte, data: seq<Byte>)
    requires |data| < 256
    ensures FeedAll([], Packet(kind, data)) == ([], [Received(kind, data)])
  {
    var w := Packet(kind, data);
    PacketFills(kind, data, |w| - 1);
    FeedSnoc([], w);
    PacketEnds(kind, data);
    assert [] + Event1(Received(kind, data)) == [Received(kind, data)];
  }

  lemma FeedJoin(p: seq<Byte>, a: seq<Byte>, q: seq<Byte>, b: seq<Byte>)
    requires FeedAll(p, a) == (q, [])
    ensures FeedAll(p, a + b) == FeedAll(q, b)
  {
    FeedSplit(p, a, b);
    assert [] + FeedAll(q, b).1 == FeedAll(q, b).1;
  }

  lemma NewlineClears(p: seq<Byte>)
    requires Searching(p)
    ensures FeedAll(p, [NEWLINE]) == ([], [])
  {
    FeedOne(p, NEWLINE);
  }

  // From any search state, one framed packet is reported, whatever its data, and the
  // receiver is searching again.
  lemma FramedIsReceived(p: seq<Byte>, kind: Byte, data: seq<Byte>)
    requires Searching(p) && |data| < 256
    ensures FeedAll(p, Framed(kind, data)) == ([], [Received(kind, data)])
  {
    var w := Packet(kind, data);
    NewlineClears(p);
    PacketIsReceived(kind, data);
    hide FeedAll, Packet;
    FeedJoin(p, [NEWLINE], [], w);
    NewlineClears([]);
    FeedSplit(p, [NEWLINE] + w, [NEWLINE]);
    assert [Received(kind, data)] + [] == [Received(kind, data)];
  }

  // Noise, then a packet.
  datatype Item = Item(noise: seq<Byte>, kind: Byte, data: seq<Byte>)

  function Stream(items: seq<Item>): seq<Byte>
    requires forall i :: 0 <= i < |items| ==> |items[i].data| < 256
  {
    if items == [] then []
    else items[0].noise + Framed(items[0].kind, items[0].data) + Stream(items[1..])
  }

  function Reports(items: seq<Item>): seq<Event> {
    if items == [] then [] else [Received(items[0].kind, items[0].data)] + Reports(items[1..])
  }

  // From any search state, a stream of packets with header-free noise before each is
  // reported packet by packet, in order, and nothing else is.
  lemma {:induction false} StreamIsReceived(p: seq<Byte>, items: seq<Item>)
    requires Searching(p) && forall i :: 0 <= i < |items| ==> |items[i].data| < 256
    requires items != [] ==> NoHeader(p + items[0].noise)
    requires forall i :: 1 <= i < |items| ==> NoHeader(items[i].noise)
    ensures FeedAll(p, Stream(items)).1 == Reports(items)
    ensures Searching(FeedAll(p, Stream(items)).0)
    decreases |items|
  {
    if items != [] {
      var it, rest := items[0], Stream(items[1..]);
      var w := Framed(it.kind, it.data);
      NoiseIsSkipped(p, it.noise);
      var q := FeedAll(p, it.noise).0;
      FramedIsReceived(q, it.kind, it.data);
      FeedJoin(p, it.noise, q, w);
      FeedSplit(p, it.noise + w, rest);
      assert forall i :: 0 <= i < |items[1..]| ==> items[1..][i] == items[i + 1];
      if |items| > 1 { assert [] + items[1..][0].noise == items[1].noise; }
      StreamIsReceived([], items[1..]);
    }
  }

  // ── RPC bodies ───────────────────────────────────────────────────────────

  // Each string behind its length.
  function Packed(strs: seq<seq<Byte>>): seq<Byte>
    requires forall i :: 0 <= i < |strs| ==> |strs[i]| < 256
  {
    if strs == [] then [] else Packed(strs[..|strs| - 1]) + [|strs[|strs| - 1]|] + strs[|strs| - 1]
  }

  function Size(strs: seq<seq<Byte>>): nat {
    if strs == [] then 0 else Size(strs[..|strs| - 1]) + 1 + |strs[|strs| - 1]|
  }

  // result: command, length, then the strings; None when they do not fit one packet.
  function ResultBody(cmd: Byte, strs: seq<seq<Byte>>): Option<seq<Byte>> {
    if 2 + Size(strs) > 255 then None
    else
      SizeBounds(strs);
      Some([cmd, Size(strs)] + Packed(strs))
  }

  lemma {:induction false} SizeBounds(strs: seq<seq<Byte>>)
    ensures forall i :: 0 <= i < |strs| ==> |strs[i]| < Size(strs)
    ensures Size(strs) < 256 ==> |Packed(strs)| == Size(strs)
  {
    if strs != [] { SizeBounds(strs[..|strs| - 1]); }
  }

  // rpc_arg: the command and its argument, when the stated length is right.
  function RpcArg(d: seq<Byte>): Option<(Byte, seq<Byte>)> {
    if |d| < 2 || d[1] as int != |d| - 2 then None else Some((d[0], d[2..]))
  }

  // Reading length-prefixed strings back.
  function Unpacked(s: seq<Byte>): Option<seq<seq<Byte>>> {
    if s == [] then Some([])
    else if s[0] as int + 1 > |s| then None
    else
      match Unpacked(s[s[0] as int + 1..])
      case None => None
      case Some(rest) => Some([s[1..s[0] as int + 1]] + rest)
  }

  lemma {:induction false} PackedCons(a: seq<Byte>, rest: seq<seq<Byte>>)
    requires |a| < 256 && forall i :: 0 <= i < |rest| ==> |rest[i]| < 256
    ensures Packed([a] + rest) == [|a|] + a + Packed(rest)
    decreases |rest|
  {
    var all := [a] + rest;
    if rest == [] {
      assert all[..0] == [];
    } else {
      var n := |rest| - 1;
      assert all[..|all| - 1] == [a] + rest[..n];
      PackedCons(a, rest[..n]);
    }
  }

  lemma {:induction false} PackedReadsBack(strs: seq<seq<Byte>>)
    requires forall i :: 0 <= i < |strs| ==> |strs[i]| < 256
    ensures Unpacked(Packed(strs)) == Some(strs)
  {
    if strs != [] {
      var a, rest := strs[0], strs[1..];
      assert strs == [a] + rest;
      PackedCons(a, rest);
      PackedReadsBack(rest);
      var s := Packed(strs);
      assert s[0] as int == |a| && s[1..|a| + 1] == a && s[|a| + 1..] == Packed(rest);
    }
  }

  // A result body reads back as its command and its strings.
  lemma ResultReadsBack(cmd: Byte, strs: seq<seq<Byte>>)
    requires ResultBody(cmd, strs).Some?
    ensures var r := RpcArg(ResultBody(cmd, strs).value);
            r.Some? && r.value.0 == cmd && Unpacked(r.value.1) == Some(strs)
  {
    SizeBounds(strs);
    PackedReadsBack(strs);
    assert ([cmd, Size(strs)] + Packed(strs))[2..] == Packed(strs);
  }

  // Over the wire: the strings of a result arrive, from any search state.
  lemma ResultOverTheWire(p: seq<Byte>, kind: Byte, cmd: Byte, strs: seq<seq<Byte>>)
    requires Searching(p) && ResultBody(cmd, strs).Some?
    ensures |ResultBody(cmd, strs).value| < 256
    ensures var es := FeedAll(p, Framed(kind, ResultBody(cmd, strs).value)).1;
            && |es| == 1 && es[0].Received? && es[0].kind == kind
            && RpcArg(es[0].data).Some? && RpcArg(es[0].data).value.0 == cmd
            && Unpacked(RpcArg(es[0].data).value.1) == Some(strs)
  {
    SizeBounds(strs);
    ResultReadsBack(cmd, strs);
    FramedIsReceived(p, kind, ResultBody(cmd, strs).value);
  }

  // ── Wi-Fi settings ───────────────────────────────────────────────────────

  predicate Settings(ssid: seq<Byte>, pass: seq<Byte>) {
    1 <= |ssid| <= 32 && |pass| <= 64
  }

  function SettingsBytes(ssid: seq<Byte>, pass: seq<Byte>): seq<Byte>
    requires Settings(ssid, pass)
  {
    [|ssid|] + ssid + [|pass|] + pass
  }

  // parse_wifi_settings
  function ParseSettings(p: seq<Byte>): Option<(seq<Byte>, seq<Byte>)> {
    if |p| < 2 then None
    else
      var sl: int := p[0];
      if sl == 0 || sl > 32 || sl + 2 > |p| then None
      else
        var pl: int := p[1 + sl];
        if pl > 64 || sl + 2 + pl != |p| then None else Some((p[1..1 + sl], p[2 + sl..]))
  }

  lemma SettingsReadBack(ssid: seq<Byte>, pass: seq<Byte>)
    requires Settings(ssid, pass)
    ensures ParseSettings(SettingsBytes(ssid, pass)) == Some((ssid, pass))
  {
    var p := SettingsBytes(ssid, pass);
    assert p[0] as int == |ssid| && p[1 + |ssid|] as int == |pass|;
    assert p[1..1 + |ssid|] == ssid;
    assert p[2 + |ssid|..] == pass;
  }

  lemma SettingsSplit(p: seq<Byte>)
    requires ParseSettings(p).Some?
    ensures var (ssid, pass) := ParseSettings(p).value;
            Settings(ssid, pass) && p == SettingsBytes(ssid, pass)
  {
    var sl: int := p[0];
    assert p == [p[0]] + p[1..1 + sl] + [p[1 + sl]] + p[2 + sl..];
  }

  // Exactly the encodings of settings Wi-Fi allows are accepted, as what they encode.
  lemma SettingsExactly(p: seq<Byte>, ssid: seq<Byte>, pass: seq<Byte>)
    ensures ParseSettings(p) == Some((ssid, pass)) <==> Settings(ssid, pass) && p == SettingsBytes(ssid, pass)
  {
    if Settings(ssid, pass) { SettingsReadBack(ssid, pass); }
    if ParseSettings(p).Some? { SettingsSplit(p); }
  }

  // ── What is received, from the input alone ───────────────────────────────

  // Where the first header of s ends.
  function HeaderEnd(s: seq<Byte>): (r: Option<nat>)
    ensures r.Some? ==> 6 <= r.value <= |s|
  {
    if s == [] then None
    else
      var r := HeaderEnd(s[..|s| - 1]);
      if r.Some? then r else if EndsWith(s, HEADER) then Some(|s|) else None
  }

  ghost predicate FirstHeader(s: seq<Byte>, r: Option<nat>) {
    match r
    case Some(i) => 6 <= i <= |s| && EndsWith(s[..i], HEADER) && NoHeader(s[..i - 1])
    case None => NoHeader(s)
  }

  lemma FirstHeaderSnoc(t: seq<Byte>, b: Byte, r: Option<nat>)
    requires FirstHeader(t, r)
    ensures FirstHeader(t + [b], if r.Some? then r else if EndsWith(t + [b], HEADER) then Some(|t| + 1) else None)
  {
    hide NoHeader, EndsWith;
    var s := t + [b];
    if r.Some? {
      assert t[..r.value] == s[..r.value] && t[..r.value - 1] == s[..r.value - 1];
    } else if EndsWith(s, HEADER) {
      HeaderFits(s);
      assert s[..|s|] == s && s[..|s| - 1] == t;
    } else {
      NoHeaderSnoc(t, b);
    }
  }

  lemma HeaderFits(s: seq<Byte>)
    requires EndsWith(s, HEADER)
    ensures |s| >= 6
  {
  }

  lemma NoHeaderEmpty()
    ensures NoHeader([])
  {
  }

  lemma {:induction false} HeaderEndsThere(s: seq<Byte>)
    ensures FirstHeader(s, HeaderEnd(s))
  {
    hide FirstHeader, NoHeader, EndsWith;
    if s == [] {
      NoHeaderIsFirst();
    } else {
      HeaderEndsThere(s[..|s| - 1]);
      FirstHeaderSnoc(s[..|s| - 1], s[|s| - 1], HeaderEnd(s[..|s| - 1]));
      assert s[..|s| - 1] + [s[|s| - 1]] == s;
    }
  }

  lemma NoHeaderIsFirst()
    ensures FirstHeader([], HeaderEnd([]))
  {
    NoHeaderEmpty();
  }

  lemma NoHeaderSnoc(t: seq<Byte>, b: Byte)
    requires NoHeader(t) && !EndsWith(t + [b], HEADER)
    ensures NoHeader(t + [b])
  {
    var s := t + [b];
    forall i {:trigger s[..i]} | 0 <= i <= |s| ensures !EndsWith(s[..i], HEADER) {
      assert s[..i] == if i <= |t| then t[..i] else s;
    }
  }

  // How long the frame at the start of w is, once it is all there: a header and a byte
  // that is no version, or a packet with any checksum.
  function FrameLength(w: seq<Byte>): (r: Option<nat>)
    ensures r.Some? ==> 7 <= r.value <= |w| && r.value <= BUF_SIZE
  {
    if |w| < 7 then None
    else if w[6] != VERSION then Some(7)
    else if |w| < 9 || |w| < 10 + w[8] as int then None
    else Some(10 + w[8] as int)
  }

  // Where the first frame of s ends.
  function FrameEnd(s: seq<Byte>): (r: Option<nat>)
    ensures r.Some? ==> HeaderEnd(s).Some? && HeaderEnd(s).value < r.value <= |s|
  {
    match HeaderEnd(s)
    case None => None
    case Some(i) =>
      match FrameLength(s[i - 6..])
      case None => None
      case Some(n) => Some(i - 6 + n)
  }

  function FrameEvent(w: seq<Byte>): Event
    requires FrameLength(w) == Some(|w|)
  {
    if |w| == 7 then Quiet
    else if Sum(w[..|w| - 1]) != w[|w| - 1] then BadChecksum
    else Received(w[7], w[9..|w| - 1])
  }

  // The first frame of s, header to end.
  function FirstFrame(s: seq<Byte>): (w: seq<Byte>)
    requires FrameEnd(s).Some?
    ensures FrameLength(w) == Some(|w|) && EndsWith(s[..FrameEnd(s).value], w)
  {
    var i, k := HeaderEnd(s).value, FrameEnd(s).value;
    assert s[i - 6..k][..3] == s[i - 6..][..3];
    assert s[..k][i - 6..] == s[i - 6..k];
    s[i - 6..k]
  }

  // What the frames of s report, and the input since the last of them.
  function Segments(s: seq<Byte>): (r: (seq<Event>, seq<Byte>))
    decreases |s|
  {
    if FrameEnd(s).None? then ([], s)
    else
      var rest := Segments(s[FrameEnd(s).value..]);
      (Event1(FrameEvent(FirstFrame(s))) + rest.0, rest.1)
  }

  function Since(s: seq<Byte>): seq<Byte> {
    Segments(s).1
  }

  // What the buffer holds of input without a whole frame: a frame begun, or the longest
  // header part at its end.
  function Begun(t: seq<Byte>): seq<Byte> {
    match HeaderEnd(t)
    case None => HEADER[..Matched(t)]
    case Some(i) => t[i - 6..]
  }

  lemma LastLetter(t: seq<Byte>, b: Byte)
    requires EndsWith(t + [b], HEADER)
    ensures Matched(t) == 5 && Feed(HEADER[..5], b) == (HEADER, Quiet)
  {
    assert HEADER[..6] == HEADER;
    SnocEnds(t, b, 6);
    MatchedIs(t, 5);
    assert HEADER[..5] + [HEADER[5]] == HEADER;
  }

  lemma HeaderFound(s: seq<Byte>)
    requires HeaderEnd(s).Some?
    ensures FeedAll([], s[..HeaderEnd(s).value]) == (HEADER, [])
  {
    hide FeedAll, Feed, Matched, NoHeader, EndsWith, HeaderEnd;
    var i := HeaderEnd(s).value;
    var t, b := s[..i - 1], s[i - 1];
    HeaderEndsThere(s);
    assert s[..i] == t + [b] && [] + t == t;
    NoiseIsSkipped([], t);
    LastLetter(t, b);
    FeedSnoc([], s[..i]);
    assert s[..i][..i - 1] == t && [] + Event1(Quiet) == [];
  }

  lemma ShorterFrame(w: seq<Byte>, k: nat)
    requires 6 < k <= |w| && FrameLength(w[..k]).None?
    ensures FrameLength(w[..k - 1]).None?
    ensures w[..6] == HEADER ==> Feed(w[..k - 1], w[k - 1]) == (w[..k], Quiet)
  {
    assert w[..k - 1] + [w[k - 1]] == w[..k];
  }

  lemma {:induction false} FrameFills(w: seq<Byte>, k: nat)
    requires 6 <= k <= |w| && w[..6] == HEADER && FrameLength(w[..k]).None?
    ensures FeedAll(HEADER, w[6..k]) == (w[..k], [])
    decreases k
  {
    if k == 6 {
      assert w[6..6] == [];
    } else {
      ShorterFrame(w, k);
      FrameFills(w, k - 1);
      assert w[6..k][..|w[6..k]| - 1] == w[6..k - 1];
      FeedSnoc(HEADER, w[6..k]);
      assert [] + Event1(Quiet) == [];
    }
  }

  lemma LastByte(w: seq<Byte>)
    requires |w| >= 7 && w[..6] == HEADER && FrameLength(w) == Some(|w|)
    ensures FrameLength(w[..|w| - 1]).None?
    ensures Feed(w[..|w| - 1], w[|w| - 1]) == ([], FrameEvent(w))
  {
    assert w[..|w| - 1] + [w[|w| - 1]] == w;
  }

  lemma FrameIsTaken(w: seq<Byte>)
    requires |w| >= 7 && w[..6] == HEADER && FrameLength(w) == Some(|w|)
    ensures FeedAll(HEADER, w[6..]) == ([], Event1(FrameEvent(w)))
  {
    var n := |w| - 1;
    LastByte(w);
    FrameFills(w, n);
    assert w[6..][..|w[6..]| - 1] == w[6..n];
    FeedSnoc(HEADER, w[6..]);
    assert [] + Event1(FrameEvent(w)) == Event1(FrameEvent(w));
  }

  // The header in front of what is left of the input.
  lemma HeaderFirst(s: seq<Byte>, k: nat)
    requires HeaderEnd(s).Some? && HeaderEnd(s).value <= k <= |s|
    ensures var i := HeaderEnd(s).value;
            s[i - 6..k][..6] == HEADER && FeedAll([], s[..k]) == FeedAll(HEADER, s[i - 6..k][6..])
  {
    hide FeedAll, NoHeader, HeaderEnd;
    var i := HeaderEnd(s).value;
    HeaderEndsThere(s);
    HeaderFound(s);
    SlicesAt(s, i, k);
    FeedJoin([], s[..i], HEADER, s[i..k]);
  }

  lemma SlicesAt(s: seq<Byte>, i: nat, k: nat)
    requires 6 <= i <= k <= |s|
    ensures s[..k] == s[..i] + s[i..k] && s[i - 6..k][6..] == s[i..k] && s[i - 6..k][..6] == s[..i][i - 6..]
  {
  }

  lemma FirstFrameIsTaken(s: seq<Byte>)
    requires FrameEnd(s).Some?
    ensures FeedAll([], s[..FrameEnd(s).value]) == ([], Event1(FrameEvent(FirstFrame(s))))
  {
    HeaderFirst(s, FrameEnd(s).value);
    FrameIsTaken(FirstFrame(s));
  }

  lemma NoFrameYet(s: seq<Byte>)
    requires FrameEnd(s).None?
    ensures FeedAll([], s) == (Begun(s), [])
  {
    hide FeedAll, Feed, Matched, NoHeader, EndsWith, HeaderEnd;
    HeaderEndsThere(s);
    if HeaderEnd(s).None? {
      assert [] + s == s;
      NoiseIsSkipped([], s);
    } else {
      var w := s[HeaderEnd(s).value - 6..];
      HeaderFirst(s, |s|);
      assert s[..|s|] == s && w[..|w|] == w;
      FrameFills(w, |w|);
    }
  }

  // For every input: what is reported is what its frames say, in order, and the buffer
  // holds what the rest has begun.
  lemma {:induction false} SegmentsAreReceived(input: seq<Byte>)
    ensures FeedAll([], input) == (Begun(Since(input)), Segments(input).0)
    decreases |input|
  {
    hide FeedAll, Begun, FrameEvent;
    if FrameEnd(input).None? {
      NoFrameYet(input);
    } else {
      var k := FrameEnd(input).value;
      FirstFrameIsTaken(input);
      SegmentsAreReceived(input[k..]);
      assert input == input[..k] + input[k..];
      FeedSplit([], input[..k], input[k..]);
    }
  }

  // s ends with a whole frame.
  ghost predicate EndsFrame(s: seq<Byte>) {
    exists w :: FrameLength(w) == Some(|w|) && w[..6] == HEADER && EndsWith(s, w)
  }

  // What came before the rest is empty or ends where a frame ends.
  ghost predicate AfterFrame(input: seq<Byte>) {
    && EndsWith(input, Since(input))
    && var before := input[..|input| - |Since(input)|]; before == [] || EndsFrame(before)
  }

  lemma FirstEndsFrame(s: seq<Byte>)
    requires FrameEnd(s).Some?
    ensures EndsFrame(s[..FrameEnd(s).value])
  {
    HeaderFirst(s, FrameEnd(s).value);
    assert FirstFrame(s)[..6] == HEADER;
  }

  lemma EndsFrameAfter(a: seq<Byte>, b: seq<Byte>)
    requires EndsFrame(b)
    ensures EndsFrame(a + b)
  {
    var w :| FrameLength(w) == Some(|w|) && w[..6] == HEADER && EndsWith(b, w);
    assert (a + b)[|a + b| - |w|..] == b[|b| - |w|..];
  }

  lemma {:induction false} SinceFollows(input: seq<Byte>)
    ensures AfterFrame(input) && FrameEnd(Since(input)).None?
    decreases |input|
  {
    hide Since, FrameEnd, EndsFrame, HeaderEnd;
    if FrameEnd(input).None? {
      SinceAll(input);
    } else {
      var k := FrameEnd(input).value;
      FirstEndsFrame(input);
      SinceFollows(input[k..]);
      SinceRest(input);
      FollowsAfter(input, k, Since(input[k..]));
    }
  }

  lemma SinceAll(s: seq<Byte>)
    requires FrameEnd(s).None?
    ensures Since(s) == s && AfterFrame(s)
  {
    assert s[0..] == s && s[..0] == [];
  }

  lemma SinceRest(s: seq<Byte>)
    requires FrameEnd(s).Some?
    ensures Since(s) == Since(s[FrameEnd(s).value..])
  {
  }

  lemma FollowsAfter(s: seq<Byte>, k: nat, since: seq<Byte>)
    requires k <= |s| && EndsFrame(s[..k]) && EndsWith(s[k..], since)
    requires var before := s[k..][..|s[k..]| - |since|]; before == [] || EndsFrame(before)
    ensures EndsWith(s, since) && EndsFrame(s[..|s| - |since|])
  {
    hide EndsFrame;
    var a, before := s[..k], s[k..][..|s[k..]| - |since|];
    SplitAt(s, k, |since|);
    if before == [] { assert a + before == a; } else { EndsFrameAfter(a, before); }
  }

  lemma SplitAt(s: seq<Byte>, k: nat, n: nat)
    requires k <= |s| && n <= |s| - k
    ensures s[..|s| - n] == s[..k] + s[k..][..|s[k..]| - n] && s[|s| - n..] == s[k..][|s[k..]| - n..]
  {
  }

  // In search, no header has come about since the last frame, and the state is the
  // longest header part this stretch ends with.
  ghost predicate StateOk(p: seq<Byte>, since: seq<Byte>) {
    Searching(p) ==> p == HEADER[..Matched(since)] && NoHeader(since)
  }

  lemma SinceLastFrame(input: seq<Byte>)
    ensures AfterFrame(input)
    ensures StateOk(FeedAll([], input).0, Since(input))
  {
    SinceFollows(input);
    SegmentsAreReceived(input);
    HeaderEndsThere(Since(input));
    hide FeedAll, Matched, NoHeader;
  }

  // Part of a header ends the input and began before the last frame ended.
  ghost predicate Straddles(input: seq<Byte>) {
    exists k :: |Since(input)| < k < 6 && EndsWith(input, HEADER[..k])
  }

  // In search, the state is the longest header part the whole input ends with exactly
  // if no header part straddles the end of the last frame.
  lemma SearchStateIff(input: seq<Byte>)
    requires Searching(FeedAll([], input).0)
    ensures FeedAll([], input).0 == HEADER[..Matched(input)] <==> !Straddles(input)
  {
    SinceLastFrame(input);
    hide FeedAll, Since, Matched, NoHeader, EndsFrame;
    var since, m := Since(input), Matched(input);
    var k := Matched(since);
    assert EndsWith(since, HEADER[..k]);
    assert FeedAll([], input).0 == HEADER[..k] && |HEADER[..k]| == k && |HEADER[..m]| == m;
    if !Straddles(input) && m > 0 {
      assert m <= |since|;
      assert since[|since| - m..] == input[|input| - m..];
      MatchedIs(since, m);
    }
    if !Straddles(input) && k > 0 {
      assert since[|since| - k..] == input[|input| - k..];
      MatchedIs(input, k);
    }
  }

  // Where a frame has just ended, that is: exactly if the input ends with no header part.
  lemma AfterFrameIff(input: seq<Byte>)
    requires Since(input) == []
    ensures FeedAll([], input).0 == []
    ensures Straddles(input) <==> Matched(input) > 0
  {
    SegmentsAreReceived(input);
    NothingBegun();
    hide FeedAll, Since, EndsWith, Matched;
    var m := Matched(input);
    if m > 0 { assert |Since(input)| < m < 6 && EndsWith(input, HEADER[..m]); }
    if Straddles(input) {
      var k :| |Since(input)| < k < 6 && EndsWith(input, HEADER[..k]);
      MatchedIs(input, k);
    }
  }

  lemma NothingBegun()
    ensures Begun([]) == []
  {
    assert Matched([]) == 0;
  }

  // ── Finding back ─────────────────────────────────────────────────────────

  // After noise from any state: the receiver has taken every byte of it into a frame
  // it was in, or has been searching since some point of it.
  ghost predicate Found(p: seq<Byte>, noise: seq<Byte>, q: seq<Byte>) {
    |q| == |p| + |noise| || SearchingSince(noise, q)
  }

  ghost predicate SearchingSince(noise: seq<Byte>, q: seq<Byte>) {
    exists m :: 0 <= m <= |noise| && q == HEADER[..Matched(noise[m..])]
  }

  lemma SinceHere(noise: seq<Byte>, q: seq<Byte>, m: nat)
    requires m <= |noise| && q == HEADER[..Matched(noise[m..])]
    ensures SearchingSince(noise, q)
  {
  }

  // The first byte that is not taken as it comes.
  lemma LosesStep(noise: seq<Byte>, b: Byte, q: seq<Byte>)
    requires Feed(q, b).0 != q + [b]
    ensures SearchingSince(noise + [b], Feed(q, b).0)
  {
    var r, more := Feed(q, b).0, noise + [b];
    if r == [] {
      assert Matched([]) == 0 && more[|more|..] == [];
      SinceHere(more, r, |more|);
    } else {
      assert r == [b] == HEADER[..1] && more[|noise|..] == [b] && [b][0..] == [b];
      MatchedIs([b], 1);
      SinceHere(more, r, |noise|);
    }
  }

  lemma SearchingStep(noise: seq<Byte>, b: Byte, q: seq<Byte>)
    requires SearchingSince(noise, q) && NoHeader(noise + [b])
    ensures SearchingSince(noise + [b], Feed(q, b).0)
  {
    var more := noise + [b];
    var m :| 0 <= m <= |noise| && q == HEADER[..Matched(noise[m..])];
    assert more[m..] == noise[m..] + [b];
    NoHeaderTail(more, m);
    hide NoHeader, Feed, Matched;
    SearchStep(noise[m..], b);
    SinceHere(more, Feed(q, b).0, m);
  }

  lemma NoHeaderTail(s: seq<Byte>, m: nat)
    requires m <= |s| && NoHeader(s)
    ensures !EndsWith(s[m..], HEADER)
  {
    assert s[..|s|] == s;
    assert |s[m..]| >= 6 ==> s[m..][|s| - m - 6..] == s[|s| - 6..];
  }

  lemma FoundStep(p: seq<Byte>, noise: seq<Byte>, b: Byte, q: seq<Byte>)
    requires Found(p, noise, q) && NoHeader(noise + [b])
    ensures Found(p, noise + [b], Feed(q, b).0)
  {
    hide SearchingSince, NoHeader, Feed;
    if SearchingSince(noise, q) {
      SearchingStep(noise, b, q);
    } else if Feed(q, b).0 != q + [b] {
      LosesStep(noise, b, q);
    }
  }

  lemma {:induction false} NoiseIsLeft(p: seq<Byte>, noise: seq<Byte>)
    requires Started(p) && NoHeader(noise)
    ensures Started(FeedAll(p, noise).0) && Found(p, noise, FeedAll(p, noise).0)
    decreases |noise|
  {
    if noise != [] {
      var n := |noise| - 1;
      assert noise == noise[..n] + [noise[n]];
      NoHeaderPrefix(noise[..n], noise[n]);
      NoiseIsLeft(p, noise[..n]);
      FeedSnoc(p, noise);
      hide FeedAll, Feed, NoHeader, Started, Found;
      FeedKeepsStarted(FeedAll(p, noise[..n]).0, noise[n]);
      FoundStep(p, noise[..n], noise[n], FeedAll(p, noise[..n]).0);
    }
  }

  // Whatever the receiver is in the middle of, a false header or a corrupt length
  // included, 265 bytes in which no header comes about bring it back: the next framed
  // packet is reported.
  lemma FindsBack(p: seq<Byte>, noise: seq<Byte>, kind: Byte, data: seq<Byte>)
    requires Started(p) && NoHeader(noise) && |p| + |noise| >= BUF_SIZE && |data| < 256
    ensures Searching(FeedAll(p, noise).0)
    ensures FeedAll(p, noise + Framed(kind, data)) == ([], FeedAll(p, noise).1 + [Received(kind, data)])
  {
    var q := FeedAll(p, noise).0;
    NoiseIsLeft(p, noise);
    StartedBound(q);
    FramedIsReceived(q, kind, data);
    FeedSplit(p, noise, Framed(kind, data));
  }

  lemma NoLetter(s: seq<Byte>)
    requires HEADER[0] !in s
    ensures NoHeader(s)
  {
    forall i {:trigger s[..i]} | 0 <= i <= |s| ensures !EndsWith(s[..i], HEADER) {
      if i >= 6 { assert s[..i][i - 6..][0] == s[i - 6]; }
    }
  }

  // 263 may not do: a header and the greatest length, and the packet behind them loses
  // its first letter to the false one.
  lemma NotSooner()
    ensures var p := Packet(2, seq(255, _ => 0))[..263];
            Started(p) && |p| == 263 && Received(1, []) !in FeedAll(p, Framed(1, [])).1
  {
    var data: seq<Byte> := seq(255, _ => 0);
    var p := Packet(2, data)[..263];
    PacketFills(2, data, 263);
    BufferIsTail(p);
    FramedEmpty();
    NoLetter(AFTER_I);
    hide FeedAll, Feed, Started;
    LosesFirst(p, AFTER_I);
  }

  // A packet of type 1 without data, behind its first letter.
  const AFTER_I: seq<Byte> := [0x4D, 0x50, 0x52, 0x4F, 0x56, VERSION, 1, 0, 223, NEWLINE]

  lemma FramedEmpty()
    ensures Framed(1, []) == [NEWLINE] + ([HEADER[0]] + AFTER_I)
  {
    SumOfHead(1);
    hide Sum;
    assert HEADER + [VERSION, 1, 0] + [] == HEADER + [VERSION, 1, 0];
  }

  lemma LosesFirst(p: seq<Byte>, rest: seq<Byte>)
    requires |p| == 263 && p[8] == 255 && p[6] == VERSION && p[7] == 2 && NoHeader(rest)
    ensures Received(1, []) !in FeedAll(p, [NEWLINE] + ([HEADER[0]] + rest)).1
  {
    TwoMore(p);
    assert [] + rest == rest;
    NoiseIsSkipped([], rest);
    hide FeedAll, Feed;
    FeedOne(p, NEWLINE);
    FeedJoin(p, [NEWLINE], p + [NEWLINE], [HEADER[0]] + rest);
    FeedOne(p + [NEWLINE], HEADER[0]);
    FeedSplit(p + [NEWLINE], [HEADER[0]], rest);
  }

  // The last two places of a packet of the greatest length.
  lemma TwoMore(p: seq<Byte>)
    requires |p| == 263 && p[8] == 255 && p[6] == VERSION && p[7] == 2
    ensures Feed(p, NEWLINE) == (p + [NEWLINE], Quiet)
    ensures var (q, e) := Feed(p + [NEWLINE], HEADER[0]); q == [] && e != Received(1, [])
  {
  }

  // The byte in the version's place is consumed: the search state is the longest
  // header part only if that byte does not itself start a header.
  lemma VersionByteIsConsumed(b: Byte)
    requires b != VERSION
    ensures Feed(HEADER, b).0 == HEADER[..Matched(HEADER + [b])] <==> b != HEADER[0]
  {
    var m := Matched(HEADER + [b]);
    if m > 0 {
      SnocEnds(HEADER, b, m);
      assert HEADER[|HEADER| - 6..] == HEADER[..6] == HEADER;
      if m > 1 { EndsOnce(HEADER, m - 1, 6); }
    }
    if b == HEADER[0] {
      SnocEnds(HEADER, b, 1);
      MatchedIs(HEADER + [b], 1);
    }
  }

  // A packet with any byte in the checksum's place.
  lemma AnyChecksum(kind: Byte, data: seq<Byte>, sum: Byte)
    requires |data| < 256
    ensures var body := HEADER + [VERSION, kind, |data|] + data;
            FeedAll([], body + [sum]) == ([], [if Sum(body) == sum then Received(kind, data) else BadChecksum])
  {
    var w := Packet(kind, data);
    var n := |w| - 1;
    var body := HEADER + [VERSION, kind, |data|] + data;
    assert w[..n] == body && (body + [sum])[..n] == body;
    PacketFills(kind, data, n);
    FeedSnoc([], body + [sum]);
    FullPacket(kind, data, sum);
  }

  lemma FullPacket(kind: Byte, data: seq<Byte>, sum: Byte)
    requires |data| < 256
    ensures var body := HEADER + [VERSION, kind, |data|] + data;
            var e := Feed(body, sum);
            e == ([], if Sum(body) == sum then Received(kind, data) else BadChecksum) && [] + Event1(e.1) == [e.1]
  {
    var body := HEADER + [VERSION, kind, |data|] + data;
    assert (body + [sum])[..|body|] == body && (body + [sum])[9..|body|] == data && (body + [sum])[8] as int == |data|;
  }

  // The byte in the checksum's place is consumed too, right or wrong: if it starts a
  // header, the search state does not say so.
  lemma ChecksumByteIsConsumed(kind: Byte, data: seq<Byte>)
    requires |data| < 256
    ensures var body := HEADER + [VERSION, kind, |data|] + data;
            && FeedAll([], body + [HEADER[0]]) == ([], [if Sum(body) == HEADER[0] then Received(kind, data) else BadChecksum])
            && Matched(body + [HEADER[0]]) == 1
  {
    AnyChecksum(kind, data, HEADER[0]);
    var input := HEADER + [VERSION, kind, |data|] + data + [HEADER[0]];
    assert input[|input| - 1..] == HEADER[..1];
    MatchedIs(input, 1);
  }

  // One such input with a good checksum and one with a bad one.
  lemma ChecksumByteExamples()
    ensures var good := HEADER + [VERSION, 107, 0] + [] + [HEADER[0]];
            FeedAll([], good) == ([], [Received(107, [])]) && Matched(good) == 1
    ensures var bad := HEADER + [VERSION, 106, 0] + [] + [HEADER[0]];
            FeedAll([], bad) == ([], [BadChecksum]) && Matched(bad) == 1
  {
    forall kind: Byte | kind == 107 || kind == 106
      ensures Sum(HEADER + [VERSION, kind, 0] + []) as int == (222 + kind as int) % 256
    {
      assert HEADER + [VERSION, kind, 0] + [] == HEADER + [VERSION, kind, 0];
      SumOfHead(kind);
    }
    hide FeedAll, Sum, Matched;
    ChecksumByteIsConsumed(107, []);
    ChecksumByteIsConsumed(106, []);
  }

  lemma SumSnoc(s: seq<Byte>, total: nat, b: Byte)
    requires Sum(s) as int == total % 256
    ensures Sum(s + [b]) as int == (total + b as int) % 256
  {
    assert (s + [b])[..|s|] == s;
  }

  lemma SumOfHead(kind: Byte)
    ensures Sum(HEADER + [VERSION, kind, 0]) as int == (222 + kind as int) % 256
  {
    var imp: seq<Byte> := [0x49, 0x4D, 0x50];
    SumSnoc([], 0, 0x49);
    hide Sum;
    assert [] + [0x49] == [0x49] && [0x49] + [0x4D] + [0x50] == imp;
    SumSnoc([0x49], 0x49, 0x4D);
    SumSnoc([0x49] + [0x4D], 150, 0x50);
    SumSnoc(imp, 230, 0x52);
    SumSnoc(imp + [0x52], 312, 0x4F);
    SumSnoc(imp + [0x52] + [0x4F], 391, 0x56);
    assert imp + [0x52] + [0x4F] + [0x56] == HEADER;
    SumSnoc(HEADER, 477, VERSION);
    SumSnoc(HEADER + [VERSION], 478, kind);
    SumSnoc(HEADER + [VERSION] + [kind], 478 + kind, 0);
    assert HEADER + [VERSION] + [kind] + [0] == HEADER + [VERSION, kind, 0];
  }
}
