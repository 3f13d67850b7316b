// JsonWriter of main/json_buf.h: what `str` writes, decoded as a JSON string body
// (section 7 of RFC 8259), is the source text with every byte that starts no valid
// UTF-8 sequence replaced by U+FFFD; and the buffer is never written past its end.
module JsonWriter {
  import opened Common
  import opened Utf8

  const QUOTE: Byte := 0x22
  const BACKSLASH: Byte := 0x5C
  const REPLACEMENT: seq<Byte> := [0xEF, 0xBF, 0xBD]             // U+FFFD
  const REPLACEMENT_ESCAPE: seq<Byte> := [0x5C, 0x75, 0x66, 0x66, 0x66, 0x64]   // \ufffd

  function HexDigit(d: nat): Byte
    requires d < 16
  {
    if d < 10 then 0x30 + d else 0x61 + (d - 10)
  }

  // The letter of a two-character escape, for the bytes that have one.
  function ShortEscape(c: Byte): Option<Byte> {
    if c == QUOTE then Some(QUOTE)
    else if c == BACKSLASH then Some(BACKSLASH)
    else if c == 0x0A then Some(0x6E)
    else if c == 0x0D then Some(0x72)
    else if c == 0x09 then Some(0x74)
    else None
  }

  // How many bytes of t one turn of the loop takes, and what it writes for them.
  function Taken(t: seq<Byte>): (n: nat)
    requires t != []
    ensures 1 <= n <= |t|
  {
    if t[0] < 0x80 || HeadLen(t) == 0 then 1 else HeadLen(t)
  }

  function Piece(t: seq<Byte>): seq<Byte>
    requires t != []
  {
    var c := t[0];
    if ShortEscape(c).Some? then [BACKSLASH, ShortEscape(c).value]
    else if c < 0x20 then [BACKSLASH, 0x75, 0x30, 0x30, HexDigit(c / 16), HexDigit(c % 16)]
    else if c < 0x80 then [c]
    else if HeadLen(t) > 0 then t[..HeadLen(t)]
    else REPLACEMENT_ESCAPE
  }

  function Escape(t: seq<Byte>): seq<Byte> {
    if t == [] then [] else Piece(t) + Escape(t[Taken(t)..])
  }

  // The text with each byte that starts no valid sequence replaced by U+FFFD.
  function Sanitize(t: seq<Byte>): seq<Byte> {
    if t == [] then []
    else if HeadLen(t) > 0 then t[..HeadLen(t)] + Sanitize(t[HeadLen(t)..])
    else REPLACEMENT + Sanitize(t[1..])
  }

  // ── Reading a JSON string body ───────────────────────────────────────────

  function HexValue(c: Byte): Option<nat> {
    if 0x30 <= c <= 0x39 then Some(c - 0x30)
    else if 0x61 <= c <= 0x66 then Some(c - 0x61 + 10)
    else if 0x41 <= c <= 0x46 then Some(c - 0x41 + 10)
    else None
  }

  function Hex4(s: seq<Byte>): Option<nat>
    requires |s| == 4
  {
    var a, b, c, d := HexValue(s[0]), HexValue(s[1]), HexValue(s[2]), HexValue(s[3]);
    if a.None? || b.None? || c.None? || d.None? then None
    else Some(((a.value * 16 + b.value) * 16 + c.value) * 16 + d.value)
  }

  function SimpleEscape(c: Byte): Option<Byte> {
    if c == QUOTE || c == BACKSLASH || c == 0x2F then Some(c)
    else if c == 0x62 then Some(0x08)
    else if c == 0x66 then Some(0x0C)
    else if c == 0x6E then Some(0x0A)
    else if c == 0x72 then Some(0x0D)
    else if c == 0x74 then Some(0x09)
    else None
  }

  // One character of a body: the bytes it stands for and the bytes it occupies.
  // Escaped surrogates are not decoded; the writer emits none.
  function Character(s: seq<Byte>): Option<(seq<Byte>, nat)>
    requires s != []
  {
    if s[0] == BACKSLASH then
      if |s| < 2 then None
      else if SimpleEscape(s[1]).Some? then Some(([SimpleEscape(s[1]).value], 2))
      else if s[1] != 0x75 || |s| < 6 then None
      else
        var u := Hex4(s[2..6]);
        if u.None? || !Scalar(u.value) then None else Some((Encode(u.value), 6))
    else if s[0] == QUOTE || s[0] < 0x20 || HeadLen(s) == 0 then None
    else Some((s[..HeadLen(s)], HeadLen(s)))
  }

  lemma CharacterLen(s: seq<Byte>)
    requires s != [] && Character(s).Some?
    ensures 1 <= Character(s).value.1 <= |s|
  {
  }

  // The text a JSON string body stands for; None when it is not a legal body.
  function Unescape(s: seq<Byte>): Option<seq<Byte>>
    decreases |s|
  {
    if s == [] then Some([])
    else
      match Character(s)
      case None => None
      case Some((bytes, n)) =>
        CharacterLen(s);
        match Unescape(s[n..])
        case None => None
        case Some(rest) => Some(bytes + rest)
  }

  // ── Properties of the escaped text ───────────────────────────────────────

  // The bytes one turn stands for in the sanitised text.
  function Meant(t: seq<Byte>): seq<Byte>
    requires t != []
  {
    if HeadLen(t) > 0 then t[..HeadLen(t)] else REPLACEMENT
  }

  lemma HeadOfAscii(t: seq<Byte>)
    requires t != [] && t[0] < 0x80
    ensures HeadLen(t) == 1 && t[..1] == [t[0]]
  {
  }

  lemma HexRoundTrip(c: Byte)
    requires c < 0x20
    ensures Hex4([0x30, 0x30, HexDigit(c / 16), HexDigit(c % 16)]) == Some(c)
  {
  }

  lemma ReplacementDecodes()
    ensures Hex4([0x66, 0x66, 0x66, 0x64]) == Some(0xFFFD)
    ensures Scalar(0xFFFD) && Encode(0xFFFD) == REPLACEMENT
  {
  }

  // A piece reads back as what it stands for, whatever follows it.
  lemma PieceReads(t: seq<Byte>, rest: seq<Byte>)
    requires t != []
    ensures Character(Piece(t) + rest) == Some((Meant(t), |Piece(t)|))
  {
    var c, p := t[0], Piece(t);
    var s := p + rest;
    if c < 0x80 {
      HeadOfAscii(t);
      if ShortEscape(c).Some? {
      } else if c < 0x20 {
        HexRoundTrip(c);
        assert s[2..6] == [0x30, 0x30, HexDigit(c / 16), HexDigit(c % 16)];
        assert Encode(c) == [c];
      } else {
        HeadOfAscii(s);
      }
    } else if HeadLen(t) > 0 {
      SeqLenSound(t, |t|);
      SeqLenComplete(s, |s|, Decode(p));
      assert s[..|p|] == p;
    } else {
      ReplacementDecodes();
      assert s[2..6] == [0x66, 0x66, 0x66, 0x64];
    }
  }

  // Escaping is undone by reading, up to the sanitising.
  lemma {:induction false} EscapeReadsBack(t: seq<Byte>)
    ensures Unescape(Escape(t)) == Some(Sanitize(t))
  {
    if t != [] {
      var rest := Escape(t[Taken(t)..]);
      EscapeReadsBack(t[Taken(t)..]);
      PieceReads(t, rest);
      assert (Piece(t) + rest)[|Piece(t)|..] == rest;
      if t[0] < 0x80 { HeadOfAscii(t); }
    }
  }

  lemma {:induction false} SanitizeKeepsValid(t: seq<Byte>)
    requires WellFormed(t)
    ensures Sanitize(t) == t
    decreases |t|
  {
    if t != [] {
      SanitizeKeepsValid(t[HeadLen(t)..]);
      assert t == t[..HeadLen(t)] + t[HeadLen(t)..];
    }
  }

  lemma {:induction false} SanitizedIsValid(t: seq<Byte>)
    ensures WellFormed(Sanitize(t))
  {
    if t != [] {
      if HeadLen(t) > 0 {
        SeqLenSound(t, |t|);
        SanitizedIsValid(t[HeadLen(t)..]);
        WellFormedCons(t[..HeadLen(t)], Sanitize(t[HeadLen(t)..]), Decode(t[..HeadLen(t)]));
      } else {
        ReplacementDecodes();
        SanitizedIsValid(t[1..]);
        WellFormedCons(REPLACEMENT, Sanitize(t[1..]), 0xFFFD);
      }
    }
  }

  // On valid UTF-8, and only there, reading back gives the text itself.
  lemma IdentityExactlyOnValid(t: seq<Byte>)
    ensures Unescape(Escape(t)) == Some(t) <==> WellFormed(t)
  {
    EscapeReadsBack(t);
    SanitizedIsValid(t);
    if WellFormed(t) { SanitizeKeepsValid(t); }
  }

  lemma AsciiCons(c: Byte, rest: seq<Byte>)
    requires c < 0x80 && WellFormed(rest)
    ensures WellFormed([c] + rest)
  {
    WellFormedCons([c], rest, c);
  }

  lemma {:induction false} AsciiPrefix(p: seq<Byte>, rest: seq<Byte>)
    requires (forall k :: 0 <= k < |p| ==> p[k] < 0x80) && WellFormed(rest)
    ensures WellFormed(p + rest)
  {
    if p == [] {
      assert p + rest == rest;
    } else {
      AsciiPrefix(p[1..], rest);
      AsciiCons(p[0], p[1..] + rest);
      assert p + rest == [p[0]] + (p[1..] + rest);
    }
  }

  // What is written is well-formed UTF-8, and at most six times as long as the text.
  lemma {:induction false} EscapeIsValid(t: seq<Byte>)
    ensures WellFormed(Escape(t))
  {
    if t != [] {
      var rest := Escape(t[Taken(t)..]);
      EscapeIsValid(t[Taken(t)..]);
      if t[0] >= 0x80 && HeadLen(t) > 0 {
        SeqLenSound(t, |t|);
        WellFormedCons(Piece(t), rest, Decode(Piece(t)));
      } else {
        AsciiPrefix(Piece(t), rest);
      }
    }
  }

  lemma {:induction false} EscapeExpands(t: seq<Byte>)
    ensures |t| <= |Escape(t)| <= 6 * |t|
  {
    if t != [] { EscapeExpands(t[Taken(t)..]); }
  }

  // ── The writer ───────────────────────────────────────────────────────────

  datatype Output = Output(cap: nat, text: seq<Byte>, ok: bool)

  function Start(cap: nat): Output {
    Output(cap, [], true)
  }

  // Appending byte by byte: stops, and latches, at the first byte that does not fit.
  function Append(w: Output, bytes: seq<Byte>): Output {
    if !w.ok || |w.text| > w.cap then w
    else if |w.text| + |bytes| <= w.cap then w.(text := w.text + bytes)
    else Output(w.cap, (w.text + bytes)[..w.cap], false)
  }

  // fmt: all or nothing, and it wants room for a terminator.
  function AppendFmt(w: Output, bytes: seq<Byte>): Output {
    if !w.ok || |w.text| > w.cap then w
    else if |bytes| >= w.cap - |w.text| then w.(ok := false)
    else w.(text := w.text + bytes)
  }

  function AppendStr(w: Output, s: seq<Byte>, max: nat): Output {
    Append(w, Escape(Text(s, max)))
  }

  function Finish(w: Output): nat {
    if w.ok then |w.text| else 0
  }

  lemma AppendAppend(w: Output, a: seq<Byte>, b: seq<Byte>)
    ensures Append(Append(w, a), b) == Append(w, a + b)
  {
    if w.ok && |w.text| <= w.cap {
      assert (w.text + a) + b == w.text + (a + b);
      if |w.text| + |a| > w.cap { assert (w.text + (a + b))[..w.cap] == (w.text + a)[..w.cap]; }
    }
  }

  // A string that fits is there whole and reads back as the text, sanitised.
  lemma StrReadsBack(w: Output, s: seq<Byte>, max: nat)
    requires w.ok && |w.text| <= w.cap && AppendStr(w, s, max).ok
    ensures var out := AppendStr(w, s, max).text;
            w.text <= out && Unescape(out[|w.text|..]) == Some(Sanitize(Text(s, max))) && WellFormed(out[|w.text|..])
  {
    EscapeReadsBack(Text(s, max));
    EscapeIsValid(Text(s, max));
    assert (w.text + Escape(Text(s, max)))[|w.text|..] == Escape(Text(s, max));
  }

  // It fits whenever there is room for six times its bytes.
  lemma StrFits(w: Output, s: seq<Byte>, max: nat)
    requires w.ok && |w.text| + 6 * max <= w.cap
    ensures AppendStr(w, s, max).ok && |AppendStr(w, s, max).text| <= |w.text| + 6 * max
  {
    TextEnds(s, max);
    EscapeExpands(Text(s, max));
  }

  // ── fmt and byte-by-byte writing agree ───────────────────────────────────

  // w, written with fmt, agrees with v, written byte by byte; or it has latched where
  // v is full to the last byte.
  ghost predicate Tracks(w: Output, v: Output) {
    w == v || (w.cap == v.cap && !w.ok && (!v.ok || |v.text| == v.cap))
  }

  lemma TracksAppend(w: Output, v: Output, bytes: seq<Byte>)
    requires Tracks(w, v) && |w.text| <= w.cap && |v.text| <= v.cap
    ensures Tracks(Append(w, bytes), Append(v, bytes))
    ensures bytes != [] ==> Append(w, bytes).ok == Append(v, bytes).ok && Finish(Append(w, bytes)) == Finish(Append(v, bytes))
  {
  }

  lemma TracksFmt(w: Output, v: Output, bytes: seq<Byte>)
    requires Tracks(w, v) && |w.text| <= w.cap && |v.text| <= v.cap
    ensures Tracks(AppendFmt(w, bytes), Append(v, bytes))
  {
  }

  // The writer has been asked to write `text` so far.
  ghost predicate Asked(w: Output, cap: nat, text: seq<Byte>) {
    Tracks(w, Append(Start(cap), text)) && |w.text| <= w.cap
  }

  lemma AskedMore(w: Output, w': Output, cap: nat, text: seq<Byte>, bytes: seq<Byte>)
    requires Asked(w, cap, text) && (w' == Append(w, bytes) || w' == AppendFmt(w, bytes))
    ensures Asked(w', cap, text + bytes)
  {
    var v := Append(Start(cap), text);
    AppendAppend(Start(cap), text, bytes);
    if w' == Append(w, bytes) { TracksAppend(w, v, bytes); } else { TracksFmt(w, v, bytes); }
  }

  // Once the last piece is written byte by byte, the room fmt wants for a terminator
  // has made no difference.
  lemma AskedAll(w: Output, cap: nat, text: seq<Byte>, last: seq<Byte>)
    requires Asked(w, cap, text) && last != []
    ensures var w' := Append(w, last);
            && w'.ok == (|text + last| <= cap)
            && (w'.ok ==> w'.text == text + last)
  {
    var v := Append(Start(cap), text);
    AppendAppend(Start(cap), text, last);
    TracksAppend(w, v, last);
  }

  // ── The code ─────────────────────────────────────────────────────────────

  class Writer {
    const buf: array<Byte>
    const cap: nat
    var pos: nat
    var ok: bool

    ghost predicate Valid()
      reads this
    {
      pos <= cap <= buf.Length
    }

    ghost function View(): Output
      requires Valid()
      reads this, buf
    {
      Output(cap, buf[..pos], ok)
    }

    constructor (buf: array<Byte>, cap: nat)
      requires cap <= buf.Length
      ensures Valid() && View() == Start(cap) && this.buf == buf
    {
      this.buf, this.cap, pos, ok := buf, cap, 0, true;
    }

    method Put(c: Byte) returns (fit: bool)
      requires Valid() && ok
      modifies this`pos, this`ok, buf
      ensures Valid() && View() == Append(old(View()), [c]) && fit == ok
      ensures buf[cap..] == old(buf[cap..])
    {
      if pos >= cap {
        ok := false;
        assert (buf[..pos] + [c])[..cap] == buf[..pos];
        return false;
      }
      buf[pos] := c;
      pos := pos + 1;
      assert buf[..pos] == old(buf[..pos]) + [c];
      return true;
    }

    method PutAll(bytes: seq<Byte>) returns (fit: bool)
      requires Valid() && ok
      modifies this`pos, this`ok, buf
      ensures Valid() && View() == Append(old(View()), bytes) && fit == ok
      ensures buf[cap..] == old(buf[cap..])
    {
      fit := true;
      var i := 0;
      while i < |bytes| && fit
        invariant i <= |bytes| && Valid() && fit == ok
        invariant View() == Append(old(View()), bytes[..i])
        invariant buf[cap..] == old(buf[cap..])
      {
        AppendAppend(old(View()), bytes[..i], [bytes[i]]);
        fit := Put(bytes[i]);
        assert bytes[..i] + [bytes[i]] == bytes[..i + 1];
        i := i + 1;
      }
      AppendAppend(old(View()), bytes[..i], bytes[i..]);
      assert bytes[..i] + bytes[i..] == bytes;
    }

    // raw(s, len)
    method RawN(s: seq<Byte>)
      requires Valid()
      modifies this`pos, this`ok, buf
      ensures Valid() && View() == Append(old(View()), s)
      ensures buf[cap..] == old(buf[cap..])
    {
      if !ok { return; }
      var _ := PutAll(s);
    }

    // raw(s): up to the NUL.
    method RawZ(s: seq<Byte>)
      requires Valid() && 0 in s
      modifies this`pos, this`ok, buf
      ensures Valid() && View() == Append(old(View()), Text(s, |s|))
      ensures buf[cap..] == old(buf[cap..])
    {
      if !ok { return; }
      ghost var t := Text(s, |s|);
      TextStops(s);
      var i, fit := 0, true;
      while s[i] != 0 && fit
        invariant i <= |t| && Valid() && fit == ok
        invariant View() == Append(old(View()), t[..i])
        invariant buf[cap..] == old(buf[cap..])
        decreases |t| - i
      {
        AppendAppend(old(View()), t[..i], [t[i]]);
        fit := Put(s[i]);
        assert t[..i] + [t[i]] == t[..i + 1];
        i := i + 1;
      }
      AppendAppend(old(View()), t[..i], t[i..]);
      assert t[..i] + t[i..] == t;
    }

    // ch
    method Ch(c: Byte)
      requires Valid()
      modifies this`pos, this`ok, buf
      ensures Valid() && View() == Append(old(View()), [c])
      ensures buf[cap..] == old(buf[cap..])
    {
      if ok { var _ := Put(c); }
    }

    // fmt, after formatting: vsnprintf writes what fits and a terminator.
    method Fmt(bytes: seq<Byte>)
      requires Valid()
      modifies this`pos, this`ok, buf
      ensures Valid() && View() == AppendFmt(old(View()), bytes)
      ensures buf[cap..] == old(buf[cap..])
    {
      if !ok { return; }
      var rem := cap - pos;
      if rem > 0 {
        var n := if |bytes| < rem then |bytes| else rem - 1;
        var k := 0;
        while k < n
          invariant k <= n && pos == old(pos) && ok
          invariant buf[..pos] == old(buf[..pos]) && buf[pos..pos + k] == bytes[..k]
          invariant buf[cap..] == old(buf[cap..])
        {
          buf[pos + k] := bytes[k];
          k := k + 1;
        }
        buf[pos + n] := 0;
      }
      if |bytes| >= rem {
        ok := false;
        return;
      }
      assert buf[..pos + |bytes|] == buf[..pos] + buf[pos..pos + |bytes|];
      pos := pos + |bytes|;
    }

    // str: one turn of the loop, for the byte at s[i].
    method StrPiece(s: seq<Byte>, max: nat, i: nat, ghost t: seq<Byte>) returns (n: nat)
      requires Valid() && ok && IsText(s, max, t) && i < |t|
      modifies this`pos, this`ok, buf
      ensures Valid() && View() == Append(old(View()), Piece(t[i..]))
      ensures n == Taken(t[i..])
      ensures buf[cap..] == old(buf[cap..])
    {
      var c := s[i];
      if c == QUOTE || c == BACKSLASH || c == 0x0A || c == 0x0D || c == 0x09 {
        var e: Byte := if c == QUOTE then QUOTE else if c == BACKSLASH then BACKSLASH
                       else if c == 0x0A then 0x6E else if c == 0x0D then 0x72 else 0x74;
        var _ := PutAll([BACKSLASH, e]);
        n := 1;
      } else if c < 0x20 {
        var _ := PutAll([BACKSLASH, 0x75, 0x30, 0x30, HexDigit(c / 16), HexDigit(c % 16)]);
        n := 1;
      } else if c < 0x80 {
        var _ := Put(c);
        n := 1;
      } else {
        SeqLenInText(s, max, t, i);
        n := Utf8SeqLen(s[i..], max - i);
        if n > 0 {
          var _ := PutAll(s[i..i + n]);
          assert s[i..i + n] == t[i..][..n];
        } else {
          var _ := PutAll(REPLACEMENT_ESCAPE);
          n := 1;
        }
      }
    }

    // The loop of str over the text t.
    method StrLoop(s: seq<Byte>, max: nat, ghost t: seq<Byte>, ghost goal: Output)
      requires Valid() && ok && IsText(s, max, t) && Remaining(View(), t, 0, goal)
      modifies this`pos, this`ok, buf
      ensures Valid() && View() == goal
      ensures buf[cap..] == old(buf[cap..])
    {
      hide Escape, Append, Piece, Taken, Remaining;
      var i := 0;
      while i < max && s[i] != 0
        invariant i <= |t| && Valid() && ok
        invariant Remaining(View(), t, i, goal)
        invariant buf[cap..] == old(buf[cap..])
        decreases |t| - i
      {
        ghost var w := View();
        var n := StrPiece(s, max, i, t);
        EscapeTurn(w, View(), t, i, n, goal);
        i := i + n;
        if !ok { return; }
      }
      EscapeEnd(View(), t, goal);
    }

    // str
    method Str(s: seq<Byte>, max: nat)
      requires Valid() && Readable(s, max)
      modifies this`pos, this`ok, buf
      ensures Valid() && View() == AppendStr(old(View()), s, max)
      ensures buf[cap..] == old(buf[cap..])
    {
      if !ok { return; }
      ghost var t := Text(s, max);
      TextReads(s, max);
      EscapeStart(View(), t);
      StrLoop(s, max, t, Append(View(), Escape(t)));
    }

    method Finished() returns (n: nat)
      requires Valid()
      ensures n == Finish(View())
    {
      return if ok then pos else 0;
    }
  }

  // t is the text at s: it ends at the bound, or at a NUL that is inside the memory.
  ghost predicate IsText(s: seq<Byte>, max: nat, t: seq<Byte>) {
    t <= s && |t| <= max && (|t| == max || (|t| < |s| && s[|t|] == 0)) && 0 !in t
  }

  lemma {:induction false} TextReads(s: seq<Byte>, max: nat)
    requires Readable(s, max)
    ensures IsText(s, max, Text(s, max))
  {
    if max > 0 && s[0] != 0 {
      assert Readable(s[1..], max - 1) by {
        if max > |s| {
          var j :| 0 <= j < |s| && s[j] == 0;
          assert s[1..][j - 1] == 0;
        }
      }
      TextReads(s[1..], max - 1);
    }
  }

  lemma SeqLenInText(s: seq<Byte>, max: nat, t: seq<Byte>, i: nat)
    requires IsText(s, max, t) && i < |t|
    ensures Readable(s[i..], max - i) && SeqLen(s[i..], max - i) == HeadLen(t[i..])
  {
    var c, rest := t[i..], s[i..];
    assert c <= rest;
    if |t| < max { assert rest[|c|] == 0; }
    SeqLenTrim(c, rest, max - i);
  }

  // Appending the rest of the escaped text leads to goal.
  ghost predicate Remaining(w: Output, t: seq<Byte>, i: nat, goal: Output) {
    i <= |t| && Append(w, Escape(t[i..])) == goal
  }

  lemma EscapeStart(w: Output, t: seq<Byte>)
    ensures Remaining(w, t, 0, Append(w, Escape(t)))
  {
    assert t[0..] == t;
  }

  lemma EscapeUnfold(t: seq<Byte>, i: nat, n: nat)
    requires i < |t| && n == Taken(t[i..])
    ensures i + n <= |t| && Escape(t[i..]) == Piece(t[i..]) + Escape(t[i + n..])
  {
    assert t[i..][n..] == t[i + n..];
  }

  lemma EscapeTurn(w: Output, w': Output, t: seq<Byte>, i: nat, n: nat, goal: Output)
    requires i < |t| && n == Taken(t[i..]) && Remaining(w, t, i, goal) && w' == Append(w, Piece(t[i..]))
    ensures Remaining(w', t, i + n, goal)
    ensures !w'.ok ==> w' == goal
  {
    EscapeUnfold(t, i, n);
    AppendAppend(w, Piece(t[i..]), Escape(t[i + n..]));
  }

  lemma EscapeEnd(w: Output, t: seq<Byte>, goal: Output)
    requires Remaining(w, t, |t|, goal)
    ensures w == goal
  {
    assert w.text + [] == w.text;
  }
}
