// UTF-8 as main/json_buf.h accepts it: utf8_seq_len against the encoding of Unicode
// scalar values in section 3 of RFC 3629, and utf8_safe_copy.
module Utf8 {
  import opened Common

  // A Unicode scalar value: a code point that is not a surrogate.
  predicate Scalar(cp: int) {
    0 <= cp < 0xD800 || 0xE000 <= cp < 0x11_0000
  }

  // The low six bits, in a continuation byte.
  function Cont(x: nat): Byte {
    0x80 + x % 0x40
  }

  function Encode(cp: int): (r: seq<Byte>)
    requires Scalar(cp)
    ensures 1 <= |r| <= 4
  {
    if cp < 0x80 then [cp]
    else if cp < 0x800 then [0xC0 + cp / 0x40, Cont(cp)]
    else if cp < 0x1_0000 then [0xE0 + cp / 0x40 / 0x40, Cont(cp / 0x40), Cont(cp)]
    else [0xF0 + cp / 0x40 / 0x40 / 0x40, Cont(cp / 0x40 / 0x40), Cont(cp / 0x40), Cont(cp)]
  }

  // What follows a lead byte: how many continuation bytes, and the range of the first.
  datatype Lead = Lead(need: nat, lo: nat, hi: nat)

  function LeadOf(c: Byte): Option<Lead> {
    if 0xC2 <= c <= 0xDF then Some(Lead(1, 0x80, 0xBF))
    else if c == 0xE0 then Some(Lead(2, 0xA0, 0xBF))
    else if 0xE1 <= c <= 0xEC then Some(Lead(2, 0x80, 0xBF))
    else if c == 0xED then Some(Lead(2, 0x80, 0x9F))
    else if c == 0xEE || c == 0xEF then Some(Lead(2, 0x80, 0xBF))
    else if c == 0xF0 then Some(Lead(3, 0x90, 0xBF))
    else if 0xF1 <= c <= 0xF3 then Some(Lead(3, 0x80, 0xBF))
    else if c == 0xF4 then Some(Lead(3, 0x80, 0x8F))
    else None
  }

  function At(s: seq<Byte>, k: nat): Byte {
    if k < |s| then s[k] else 0
  }

  predicate Follows(s: seq<Byte>, l: Lead, k: nat) {
    if k == 1 then l.lo <= At(s, k) <= l.hi else 0x80 <= At(s, k) <= 0xBF
  }

  // All the continuation bytes the lead byte asks for, at most three.
  predicate Continues(s: seq<Byte>, l: Lead) {
    && (l.need >= 1 ==> Follows(s, l, 1))
    && (l.need >= 2 ==> Follows(s, l, 2))
    && (l.need >= 3 ==> Follows(s, l, 3))
  }

  // utf8_seq_len: the length of the sequence at the start of s, or 0.
  function SeqLen(s: seq<Byte>, avail: nat): nat {
    if avail == 0 then 0
    else if At(s, 0) < 0x80 then 1
    else
      match LeadOf(At(s, 0))
      case None => 0
      case Some(l) =>
        if avail < l.need + 1 then 0
        else if Continues(s, l) then l.need + 1 else 0
  }

  // The bits of a sequence of 1 to 4 bytes, its lead byte stripped of the prefix.
  function Decode(s: seq<Byte>): int
    requires 1 <= |s| <= 4
  {
    var b0: int := s[0];
    if |s| == 1 then b0
    else
      var b1: int := s[1];
      if |s| == 2 then (b0 - 0xC0) * 0x40 + (b1 - 0x80)
      else
        var b2: int := s[2];
        if |s| == 3 then ((b0 - 0xE0) * 0x40 + (b1 - 0x80)) * 0x40 + (b2 - 0x80)
        else
          var b3: int := s[3];
          (((b0 - 0xF0) * 0x40 + (b1 - 0x80)) * 0x40 + (b2 - 0x80)) * 0x40 + (b3 - 0x80)
  }

  lemma Pack(q: int, r: int)
    requires 0 <= r < 0x40
    ensures (q * 0x40 + r) / 0x40 == q && (q * 0x40 + r) % 0x40 == r
  {
  }

  lemma Sound2(b0: int, b1: int)
    requires 0xC2 <= b0 <= 0xDF && 0x80 <= b1 <= 0xBF
    ensures Scalar(Decode([b0, b1])) && Encode(Decode([b0, b1])) == [b0, b1]
  {
    Pack(b0 - 0xC0, b1 - 0x80);
  }

  lemma Sound3(b0: int, b1: int, b2: int)
    requires 0xE0 <= b0 <= 0xEF && 0x80 <= b1 <= 0xBF && 0x80 <= b2 <= 0xBF
    requires (b0 == 0xE0 ==> b1 >= 0xA0) && (b0 == 0xED ==> b1 <= 0x9F)
    ensures Scalar(Decode([b0, b1, b2])) && Encode(Decode([b0, b1, b2])) == [b0, b1, b2]
  {
    var q := (b0 - 0xE0) * 0x40 + (b1 - 0x80);
    Pack(b0 - 0xE0, b1 - 0x80);
    Pack(q, b2 - 0x80);
  }

  lemma Sound4(b0: int, b1: int, b2: int, b3: int)
    requires 0xF0 <= b0 <= 0xF4 && 0x80 <= b1 <= 0xBF && 0x80 <= b2 <= 0xBF && 0x80 <= b3 <= 0xBF
    requires (b0 == 0xF0 ==> b1 >= 0x90) && (b0 == 0xF4 ==> b1 <= 0x8F)
    ensures Scalar(Decode([b0, b1, b2, b3])) && Encode(Decode([b0, b1, b2, b3])) == [b0, b1, b2, b3]
  {
    var q := (b0 - 0xF0) * 0x40 + (b1 - 0x80);
    Pack(b0 - 0xF0, b1 - 0x80);
    Pack(q, b2 - 0x80);
    Pack(q * 0x40 + (b2 - 0x80), b3 - 0x80);
  }

  // An accepted sequence is the encoding of a scalar value.
  lemma SeqLenSound(s: seq<Byte>, avail: nat)
    requires SeqLen(s, avail) > 0 && s != []
    ensures var n := SeqLen(s, avail);
            n <= avail && n <= |s| && n <= 4 && Scalar(Decode(s[..n])) && Encode(Decode(s[..n])) == s[..n]
  {
    var n := SeqLen(s, avail);
    if n == 1 {
      assert s[..1] == [s[0]];
    } else {
      var l := LeadOf(s[0]).value;
      assert Follows(s, l, 1);
      if n == 2 {
        assert s[..2] == [s[0], s[1]];
        Sound2(s[0], s[1]);
      } else if n == 3 {
        assert Follows(s, l, 2);
        assert s[..3] == [s[0], s[1], s[2]];
        Sound3(s[0], s[1], s[2]);
      } else {
        assert Follows(s, l, 2) && Follows(s, l, 3);
        assert s[..4] == [s[0], s[1], s[2], s[3]];
        Sound4(s[0], s[1], s[2], s[3]);
      }
    }
  }

  lemma Unpack(x: nat)
    ensures x == x / 0x40 * 0x40 + x % 0x40
  {
  }

  lemma DecodeEncode(cp: int)
    requires Scalar(cp)
    ensures Decode(Encode(cp)) == cp
  {
    Unpack(cp);
    Unpack(cp / 0x40);
    Unpack(cp / 0x40 / 0x40);
  }

  // The bytes of an encoding have the shape of their lead byte.
  lemma EncodeShape(cp: int)
    requires Scalar(cp) && cp >= 0x80
    ensures var e := Encode(cp);
            && e[0] >= 0x80 && LeadOf(e[0]).Some? && LeadOf(e[0]).value.need == |e| - 1
            && (forall k :: 1 <= k < |e| ==> Follows(e, LeadOf(e[0]).value, k))
  {
    Unpack(cp / 0x40);
    Unpack(cp / 0x40 / 0x40);
  }

  // The encoding of every scalar value is accepted, whole, whatever comes after it.
  lemma SeqLenComplete(s: seq<Byte>, avail: nat, cp: int)
    requires Scalar(cp) && Encode(cp) <= s && |Encode(cp)| <= avail
    ensures SeqLen(s, avail) == |Encode(cp)|
  {
    var e := Encode(cp);
    assert At(s, 0) == e[0];
    if cp >= 0x80 {
      EncodeShape(cp);
      var l := LeadOf(e[0]).value;
      forall k | 1 <= k <= l.need ensures Follows(s, l, k) {
        assert Follows(e, l, k) && At(s, k) == e[k];
      }
    }
  }

  // ── Well-formed byte strings ─────────────────────────────────────────────

  function EncodeAll(cps: seq<int>): seq<Byte>
    requires forall k :: 0 <= k < |cps| ==> Scalar(cps[k])
  {
    if cps == [] then [] else Encode(cps[0]) + EncodeAll(cps[1..])
  }

  lemma LenBounds(s: seq<Byte>)
    requires s != []
    ensures SeqLen(s, |s|) <= |s|
  {
    if SeqLen(s, |s|) > 0 { SeqLenSound(s, |s|); }
  }

  // The length at the start of a whole string.
  function HeadLen(s: seq<Byte>): (n: nat)
    requires s != []
    ensures n <= |s|
  {
    LenBounds(s);
    SeqLen(s, |s|)
  }

  predicate WellFormed(s: seq<Byte>) {
    s == [] || (HeadLen(s) > 0 && WellFormed(s[HeadLen(s)..]))
  }

  lemma {:induction false} EncodedIsWellFormed(cps: seq<int>)
    requires forall k :: 0 <= k < |cps| ==> Scalar(cps[k])
    ensures WellFormed(EncodeAll(cps))
  {
    if cps != [] {
      var s := EncodeAll(cps);
      SeqLenComplete(s, |s|, cps[0]);
      assert s[|Encode(cps[0])|..] == EncodeAll(cps[1..]);
      EncodedIsWellFormed(cps[1..]);
    }
  }

  lemma {:induction false} WellFormedIsEncoded(s: seq<Byte>) returns (cps: seq<int>)
    requires WellFormed(s)
    ensures forall k :: 0 <= k < |cps| ==> Scalar(cps[k])
    ensures EncodeAll(cps) == s
    decreases |s|
  {
    if s == [] {
      cps := [];
    } else {
      var n := HeadLen(s);
      SeqLenSound(s, |s|);
      var rest := WellFormedIsEncoded(s[n..]);
      cps := [Decode(s[..n])] + rest;
      assert cps[1..] == rest;
    }
  }

  // An accepted sequence is accepted whatever follows it and however much is readable.
  lemma SeqLenPrefix(p: seq<Byte>, s: seq<Byte>, avail: nat)
    requires p != [] && p <= s && SeqLen(p, |p|) > 0 && avail >= SeqLen(p, |p|)
    ensures SeqLen(s, avail) == SeqLen(p, |p|)
  {
    SeqLenSound(p, |p|);
    var n := SeqLen(p, |p|);
    if n > 1 {
      var l := LeadOf(p[0]).value;
      forall k | 1 <= k <= l.need ensures Follows(s, l, k) {
        assert Follows(p, l, k);
      }
    }
  }

  // A NUL or the read bound ends the text: what lies beyond makes no difference.
  lemma SeqLenTrim(c: seq<Byte>, s: seq<Byte>, avail: nat)
    requires c != [] && c <= s && |c| <= avail
    requires |c| == avail || (|c| < |s| && s[|c|] == 0)
    ensures SeqLen(s, avail) == SeqLen(c, |c|)
  {
    if SeqLen(c, |c|) > 0 {
      SeqLenPrefix(c, s, avail);
    } else if SeqLen(s, avail) > 0 {
      var l := LeadOf(s[0]).value;
      // the byte at |c| is a NUL or out of bounds, so it was not needed
      assert Follows(s, l, if |c| <= l.need then |c| else 1);
      forall k | 1 <= k <= l.need ensures Follows(c, l, k) {
        assert Follows(s, l, k);
      }
    }
  }

  // ── Reading memory ───────────────────────────────────────────────────────

  // Reading from s stops inside s: at the bound, or at a NUL.
  ghost predicate Readable(s: seq<Byte>, bound: nat) {
    bound <= |s| || exists j :: 0 <= j < |s| && s[j] == 0
  }

  // utf8_seq_len: every byte it looks at is inside the memory it was given.
  method Utf8SeqLen(s: seq<Byte>, avail: nat) returns (n: nat)
    requires Readable(s, avail)
    ensures n == SeqLen(s, avail)
  {
    if avail == 0 { return 0; }
    var c := s[0];
    if c < 0x80 { return 1; }
    var need, lo, hi := 0, 0x80, 0xBF;
    if 0xC2 <= c <= 0xDF { need := 1; }
    else if c == 0xE0 { need := 2; lo := 0xA0; }
    else if 0xE1 <= c <= 0xEC { need := 2; }
    else if c == 0xED { need := 2; hi := 0x9F; }
    else if c == 0xEE || c == 0xEF { need := 2; }
    else if c == 0xF0 { need := 3; lo := 0x90; }
    else if 0xF1 <= c <= 0xF3 { need := 3; }
    else if c == 0xF4 { need := 3; hi := 0x8F; }
    else { return 0; }
    if avail < need + 1 { return 0; }
    ghost var l := Lead(need, lo, hi);
    var k := 1;
    while k <= need
      invariant 1 <= k <= need + 1
      invariant forall j :: 0 <= j < k ==> j < |s| && s[j] != 0
      invariant forall j :: 1 <= j < k ==> Follows(s, l, j)
    {
      var cc := s[k];
      var low, high := if k == 1 then lo else 0x80, if k == 1 then hi else 0xBF;
      if cc < low || cc > high {
        assert !Follows(s, l, k);
        return 0;
      }
      k := k + 1;
    }
    return need + 1;
  }

  // The text at s: up to the first NUL or the bound.
  function Text(s: seq<Byte>, bound: nat): seq<Byte> {
    if bound == 0 || s == [] || s[0] == 0 then [] else [s[0]] + Text(s[1..], bound - 1)
  }

  lemma {:induction false} TextEnds(s: seq<Byte>, bound: nat)
    ensures var t := Text(s, bound);
            && t <= s && |t| <= bound
            && (forall k :: 0 <= k < |t| ==> t[k] != 0)
            && (|t| == bound || |t| == |s| || s[|t|] == 0)
  {
    if !(bound == 0 || s == [] || s[0] == 0) { TextEnds(s[1..], bound - 1); }
  }

  // ── utf8_safe_copy ───────────────────────────────────────────────────────

  // How many bytes of t whole sequences take, with room for so many.
  function FitLen(t: seq<Byte>, room: nat): (r: nat)
    ensures r <= |t| && r <= room
    decreases |t|
  {
    if t == [] || HeadLen(t) == 0 || HeadLen(t) > room then 0
    else HeadLen(t) + FitLen(t[HeadLen(t)..], room - HeadLen(t))
  }

  function Fitting(t: seq<Byte>, room: nat): seq<Byte> {
    t[..FitLen(t, room)]
  }

  lemma WellFormedCons(h: seq<Byte>, rest: seq<Byte>, cp: int)
    requires Scalar(cp) && h == Encode(cp) && WellFormed(rest)
    ensures WellFormed(h + rest)
  {
    SeqLenComplete(h + rest, |h + rest|, cp);
    assert (h + rest)[|h|..] == rest;
  }

  lemma TakeSplit(t: seq<Byte>, n: nat, m: nat)
    requires n + m <= |t|
    ensures t[..n + m] == t[..n] + t[n..][..m]
  {
  }

  // What is kept is a well-formed prefix that fits,
  lemma {:induction false} FittingFits(t: seq<Byte>, room: nat)
    ensures Fitting(t, room) <= t && |Fitting(t, room)| <= room && WellFormed(Fitting(t, room))
    decreases |t|
  {
    if t != [] && 0 < HeadLen(t) <= room {
      var n := HeadLen(t);
      FittingFits(t[n..], room - n);
      SeqLenSound(t, |t|);
      TakeSplit(t, n, FitLen(t[n..], room - n));
      WellFormedCons(t[..n], Fitting(t[n..], room - n), Decode(t[..n]));
    } else {
      assert t[..0] == [];
    }
  }

  // The first sequence of a well-formed string is the first of what it is a prefix of.
  lemma HeadOfPrefix(p: seq<Byte>, t: seq<Byte>) returns (n: nat)
    requires p != [] && p <= t && WellFormed(p)
    ensures 0 < n <= |p| && n == HeadLen(t) && WellFormed(p[n..]) && p[n..] <= t[n..]
  {
    n := HeadLen(p);
    SeqLenPrefix(p, t, |t|);
  }

  lemma {:induction false} FitLongest(t: seq<Byte>, room: nat, p: seq<Byte>)
    requires p <= t && |p| <= room && WellFormed(p)
    ensures |p| <= FitLen(t, room)
    decreases |t|
  {
    if p != [] {
      var n := HeadOfPrefix(p, t);
      FitLongest(t[n..], room - n, p[n..]);
    }
  }

  // and the longest one.
  lemma FittingIsLongest(t: seq<Byte>, room: nat, p: seq<Byte>)
    requires p <= t && |p| <= room && WellFormed(p)
    ensures p <= Fitting(t, room)
  {
    FitLongest(t, room, p);
  }

  // What is left to fit at offset o of the loop is what fits of the rest.
  lemma FitStep(t: seq<Byte>, o: nat, room: nat, n: nat)
    requires o < |t| && o <= room && n == HeadLen(t[o..]) && 0 < n && o + n <= room
    ensures o + n <= |t| && FitLen(t[o..], room - o) == n + FitLen(t[o + n..], room - (o + n))
  {
    assert t[o..][n..] == t[o + n..];
  }

  lemma FitStop(t: seq<Byte>, o: nat, room: nat, n: nat)
    requires o < |t| && o <= room && n == HeadLen(t[o..]) && (n == 0 || o + n > room)
    ensures FitLen(t[o..], room - o) == 0
  {
  }

  lemma {:induction false} TextStops(src: seq<Byte>)
    requires 0 in src
    ensures var t := Text(src, |src|); |t| < |src| && t <= src && src[|t|] == 0 && 0 !in t
  {
    if src[0] != 0 { TextStops(src[1..]); }
  }

  // Four readable bytes are enough for any sequence; the NUL ends the text.
  lemma SeqLenTrim4(t: seq<Byte>, src: seq<Byte>, o: nat)
    requires o <= |t| < |src| && t <= src && src[|t|] == 0 && 0 !in t
    ensures src[o] == 0 <==> o == |t|
    ensures Readable(src[o..], 4)
    ensures o < |t| ==> SeqLen(src[o..], 4) == HeadLen(t[o..])
  {
    var c, rest := t[o..], src[o..];
    assert c <= rest && rest[|c|] == 0;
    if o < |t| {
      assert t[o] == src[o];
      SeqLenTrim(c, rest, if |c| < 4 then 4 else |c|);
    }
  }

  method CopyBytes(dst: array<Byte>, o: nat, src: seq<Byte>, n: nat)
    requires o + n <= dst.Length && o + n <= |src|
    modifies dst
    ensures forall k :: 0 <= k < dst.Length ==> dst[k] == if o <= k < o + n then src[k] else old(dst[k])
  {
    var k := 0;
    while k < n
      invariant k <= n
      invariant forall j :: 0 <= j < dst.Length ==> dst[j] == if o <= j < o + k then src[j] else old(dst[j])
    {
      dst[o + k] := src[o + k];
      k := k + 1;
    }
  }

  // The length of the sequence at offset o of the text t.
  method NextLen(src: seq<Byte>, o: nat, ghost t: seq<Byte>) returns (n: nat)
    requires o < |t| < |src| && t <= src && src[|t|] == 0 && 0 !in t
    ensures n == HeadLen(t[o..]) <= |t| - o
  {
    SeqLenTrim4(t, src, o);
    n := Utf8SeqLen(src[o..], 4);
  }

  // One turn of the copying loop: the next sequence, if there is one and it fits.
  method CopyTurn(dst: array<Byte>, src: seq<Byte>, o: nat, ghost t: seq<Byte>) returns (n: nat)
    requires o < dst.Length && o < |t| < |src| && t <= src && src[|t|] == 0 && 0 !in t
    modifies dst
    ensures o + n <= |t| && o + n < dst.Length
    ensures n == 0 ==> FitLen(t[o..], dst.Length - 1 - o) == 0
    ensures n > 0 ==> FitLen(t[o..], dst.Length - 1 - o) == n + FitLen(t[o + n..], dst.Length - 1 - (o + n))
    ensures forall k :: 0 <= k < dst.Length ==> dst[k] == if o <= k < o + n then src[k] else old(dst[k])
  {
    hide FitLen, HeadLen;
    n := NextLen(src, o, t);
    if n == 0 || o + n > dst.Length - 1 {
      FitStop(t, o, dst.Length - 1, n);
      return 0;
    }
    FitStep(t, o, dst.Length - 1, n);
    CopyBytes(dst, o, src, n);
  }

  // The copying loop of utf8_safe_copy; t is the text of src.
  method CopyFitting(dst: array<Byte>, src: seq<Byte>, ghost t: seq<Byte>) returns (o: nat)
    requires dst.Length > 0 && |t| < |src| && t <= src && src[|t|] == 0 && 0 !in t
    modifies dst
    ensures o < dst.Length && o <= |t| && o == FitLen(t, dst.Length - 1)
    ensures forall k :: 0 <= k < dst.Length ==> dst[k] == if k < o then src[k] else old(dst[k])
  {
    hide FitLen, HeadLen;
    ghost var total, left := FitLen(t, dst.Length - 1), FitLen(t, dst.Length - 1);
    o := 0;
    assert t[0..] == t;
    SeqLenTrim4(t, src, 0);
    while src[o] != 0
      invariant o <= |t| && o < dst.Length && left == FitLen(t[o..], dst.Length - 1 - o) && o + left == total
      invariant src[o] == 0 <==> o == |t|
      invariant forall k :: 0 <= k < dst.Length ==> dst[k] == if k < o then src[k] else old(dst[k])
      decreases |t| - o
    {
      var n := CopyTurn(dst, src, o, t);
      if n == 0 { return; }
      left := left - n;
      o := o + n;
      SeqLenTrim4(t, src, o);
    }
  }

  // utf8_safe_copy of a NUL-terminated src: a whole, well-formed prefix and its NUL,
  // the longest that fits; only the NUL when there is no source, nothing at all when
  // there is no room for it.
  method Utf8SafeCopy(dst: array?<Byte>, src: Option<seq<Byte>>)
    requires src.Some? ==> 0 in src.value
    modifies dst
    ensures dst != null && dst.Length > 0 ==>
              var r := if src.Some? then Fitting(Text(src.value, |src.value|), dst.Length - 1) else [];
              |r| < dst.Length && dst[..] == r + [0] + old(dst[..])[|r| + 1..]
  {
    if dst == null || dst.Length == 0 { return; }
    match src
    case None =>
      dst[0] := 0;
      assert dst[..] == [] + [0] + old(dst[..])[1..];
    case Some(s) =>
      TextStops(s);
      CopyAndEnd(dst, s, Text(s, |s|));
  }

  method CopyAndEnd(dst: array<Byte>, src: seq<Byte>, ghost t: seq<Byte>)
    requires dst.Length > 0 && |t| < |src| && t <= src && src[|t|] == 0 && 0 !in t
    modifies dst
    ensures |Fitting(t, dst.Length - 1)| < dst.Length
    ensures dst[..] == Fitting(t, dst.Length - 1) + [0] + old(dst[..])[|Fitting(t, dst.Length - 1)| + 1..]
  {
    ghost var orig := dst[..];
    var o := CopyFitting(dst, src, t);
    dst[o] := 0;
    CopiedIs(dst[..], orig, src, t, o);
  }

  lemma CopiedIs(dst: seq<Byte>, orig: seq<Byte>, src: seq<Byte>, t: seq<Byte>, o: nat)
    requires |dst| == |orig| && o < |dst| && o <= |t| && t <= src
    requires forall k :: 0 <= k < |dst| ==> dst[k] == if k < o then src[k] else if k == o then 0 else orig[k]
    ensures dst == t[..o] + [0] + orig[o + 1..]
  {
  }
}
