// The receiver and the framers of improv_proto.h as code over their buffers.
module ImprovCode {
  import opened Common
  import opened Improv

  lemma SumStep(s: seq<Byte>, k: nat)
    requires k < |s|
    ensures Sum(s[..k + 1]) as int == (Sum(s[..k]) as int + s[k] as int) % 256
  {
    assert s[..k + 1][..k] == s[..k];
  }

  // The 8-bit sum of buf[from..to).
  method Checksum(buf: array<Byte>, from: nat, to: nat) returns (sum: Byte)
    requires from <= to <= buf.Length
    ensures sum == Sum(buf[from..to])
  {
    sum := 0;
    var i := from;
    while i < to
      invariant from <= i <= to
      invariant sum == Sum(buf[from..i])
    {
      SumStep(buf[from..to], i - from);
      assert buf[from..to][..i - from] == buf[from..i] && buf[from..to][..i + 1 - from] == buf[from..i + 1];
      sum := (sum as int + buf[i] as int) % 256;
      i := i + 1;
    }
  }

  class Parser {
    const buf: array<Byte>
    var n: nat
    var badChecksum: bool

    // The buffer is never full before a byte: the index stays below its size.
    ghost predicate Valid()
      reads this, buf
    {
      buf.Length == BUF_SIZE && n < BUF_SIZE && Started(buf[..n])
    }

    constructor ()
      ensures Valid() && buf[..n] == [] && fresh(buf)
    {
      buf := new Byte[BUF_SIZE](_ => 0);
      n, badChecksum := 0, false;
    }

    // feed: true exactly when this byte completed a packet, which is then readable at
    // type(), data() and data_len(); bad_checksum exactly when it completed a corrupt one.
    method FeedByte(b: Byte) returns (complete: bool)
      requires Valid()
      modifies this, buf
      ensures Valid() && buf[..n] == Feed(old(buf[..n]), b).0
      ensures var e := Feed(old(buf[..n]), b).1;
              && (complete <==> e.Received?) && (badChecksum <==> e.BadChecksum?)
              && (complete ==> buf[7] == e.kind && buf[8] as int == |e.data| && buf[9..9 + buf[8] as int] == e.data)
    {
      badChecksum := false;
      ghost var p := buf[..n];
      FeedKeepsStarted(p, b);
      if n < 6 {
        if b == HEADER[n] {
          buf[n] := b;
          n := n + 1;
          assert buf[..n] == p + [b];
          return false;
        }
        n := 0;
        if b == HEADER[0] {
          buf[0] := b;
          n := 1;
          assert buf[..1] == [b];
        }
        return false;
      }
      buf[n] := b;
      n := n + 1;
      ghost var q := p + [b];
      assert buf[..n] == q;
      StartedBound(Feed(p, b).0);
      if n == 7 && b != VERSION {
        n := 0;
        return false;
      }
      if n < 9 { return false; }
      assert q[8] == buf[8];
      var total := 9 + buf[8] as int + 1;
      if n < total { return false; }
      n := 0;
      assert |q| == total;
      var sum := Checksum(buf, 0, total - 1);
      assert buf[0..total - 1] == q[..total - 1];
      if sum != buf[total - 1] {
        badChecksum := true;
        return false;
      }
      assert buf[9..total - 1] == q[9..total - 1];
      return true;
    }
  }

  // Copy bytes into buf at n.
  method CopyIn(buf: array<Byte>, n: nat, bytes: seq<Byte>)
    requires n + |bytes| <= buf.Length
    modifies buf
    ensures buf[..n + |bytes|] == old(buf[..n]) + bytes
    ensures buf[n + |bytes|..] == old(buf[n + |bytes|..])
  {
    var k := 0;
    while k < |bytes|
      invariant k <= |bytes|
      invariant buf[..n + k] == old(buf[..n]) + bytes[..k]
      invariant buf[n + k..] == old(buf[n + k..])
    {
      buf[n + k] := bytes[k];
      k := k + 1;
    }
  }

  // frame
  method FrameInto(kind: Byte, data: seq<Byte>, out: array<Byte>) returns (n: nat)
    requires |data| < 256 && out.Length == 255 + 12
    modifies out
    ensures n == |data| + 12 && out[..n] == Framed(kind, data)
  {
    out[0] := NEWLINE;
    CopyIn(out, 1, HEADER);
    CopyIn(out, 7, [VERSION, kind, |data|]);
    CopyIn(out, 10, data);
    n := 10 + |data|;
    ghost var body := HEADER + [VERSION, kind, |data|] + data;
    assert out[..n] == [NEWLINE] + body;
    var sum := Checksum(out, 1, n);
    assert out[1..n] == out[..n][1..] == body;
    CopyIn(out, n, [sum]);
    n := n + 1;
    CopyIn(out, n, [NEWLINE]);
    n := n + 1;
  }

  // result: 0 exactly when the strings do not fit one packet.
  method ResultInto(cmd: Byte, strs: seq<seq<Byte>>, out: array<Byte>) returns (n: nat)
    requires out.Length == 255
    modifies out
    ensures match ResultBody(cmd, strs)
            case None => n == 0
            case Some(body) => n == |body| <= out.Length && out[..n] == body
  {
    n := 2;
    var i := 0;
    while i < |strs|
      invariant i <= |strs| && n == 2 + Size(strs[..i]) <= 255
      invariant (forall k :: 0 <= k < i ==> |strs[k]| < 256) && out[2..n] == Packed(strs[..i])
    {
      SizeGrows(strs, i + 1);
      assert strs[..i + 1][..i] == strs[..i];
      var l := |strs[i]|;
      if n + 1 + l > 255 { return 0; }
      ghost var was := out[2..n];
      CopyIn(out, n, [l]);
      CopyIn(out, n + 1, strs[i]);
      n := n + 1 + l;
      assert out[2..n] == out[..n][2..] == was + [l] + strs[i];
      i := i + 1;
    }
    assert strs[..i] == strs;
    SizeBounds(strs);
    out[0] := cmd;
    out[1] := n - 2;
    assert out[..n] == [cmd, n - 2] + out[2..n];
  }

  lemma {:induction false} SizeGrows(strs: seq<seq<Byte>>, k: nat)
    requires k <= |strs|
    ensures Size(strs[..k]) <= Size(strs)
    decreases |strs| - k
  {
    if k < |strs| {
      SizeGrows(strs, k + 1);
      assert strs[..k + 1][..k] == strs[..k];
    } else {
      assert strs[..k] == strs;
    }
  }

  // parse_wifi_settings: both strings NUL-terminated in their arrays.
  method ParseInto(p: seq<Byte>, ssid: array<Byte>, pass: array<Byte>) returns (ok: bool)
    requires ssid.Length == 33 && pass.Length == 65 && ssid != pass
    modifies ssid, pass
    ensures ok <==> ParseSettings(p).Some?
    ensures ok ==> var (s, w) := ParseSettings(p).value;
                   ssid[..|s| + 1] == s + [0] && pass[..|w| + 1] == w + [0]
    ensures !ok ==> ssid[..] == old(ssid[..]) && pass[..] == old(pass[..])
  {
    if |p| < 2 { return false; }
    var sl: int := p[0];
    if sl == 0 || sl > 32 || sl + 2 > |p| { return false; }
    var pl: int := p[1 + sl];
    if pl > 64 || sl + 2 + pl != |p| { return false; }
    CopyIn(ssid, 0, p[1..1 + sl]);
    CopyIn(ssid, sl, [0]);
    CopyIn(pass, 0, p[2 + sl..2 + sl + pl]);
    CopyIn(pass, pl, [0]);
    assert p[2 + sl..2 + sl + pl] == p[2 + sl..];
    return true;
  }
}
