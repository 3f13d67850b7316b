// Reading JSON back (RFC 8259), as far as the documents of the device lists need it:
// literals, numbers, strings and arrays.  Each reader gives what it read and the rest.
module JsonReader {
  import opened Common
  import opened Utf8
  import opened Format
  import opened JsonWriter

  const COMMA: Byte := 0x2C
  const BRACKET: Byte := 0x5D   // ]

  function Skip(literal: seq<Byte>, s: seq<Byte>): Option<seq<Byte>> {
    if literal <= s then Some(s[|literal|..]) else None
  }

  predicate Digit(c: Byte) {
    0x30 <= c <= 0x39
  }

  function DigitValue(c: Byte): nat
    requires Digit(c)
  {
    c as int - 0x30
  }

  function DigitRun(s: seq<Byte>): (n: nat)
    ensures n <= |s| && forall k :: 0 <= k < n ==> Digit(s[k])
  {
    if s == [] || !Digit(s[0]) then 0 else 1 + DigitRun(s[1..])
  }

  function DecValue(s: seq<Byte>): nat
    requires forall k :: 0 <= k < |s| ==> Digit(s[k])
  {
    if s == [] then 0 else DecValue(s[..|s| - 1]) * 10 + DigitValue(s[|s| - 1])
  }

  function Number(s: seq<Byte>): Option<(nat, seq<Byte>)> {
    var n := DigitRun(s);
    if n == 0 then None else Some((DecValue(s[..n]), s[n..]))
  }

  function HexRun(s: seq<Byte>): Option<nat> {
    if s == [] then Some(0)
    else
      var high :- HexRun(s[..|s| - 1]);
      var low :- HexValue(s[|s| - 1]);
      Some(high * 16 + low)
  }

  // A number of n hex digits.
  function HexNumber(s: seq<Byte>, n: nat): Option<(nat, seq<Byte>)> {
    if |s| < n then None
    else
      var v :- HexRun(s[..n]);
      Some((v, s[n..]))
  }

  // A string up to and including its closing quote.
  function StringBody(s: seq<Byte>): Option<(seq<Byte>, seq<Byte>)>
    decreases |s|
  {
    if s == [] then None
    else if s[0] == QUOTE then Some(([], s[1..]))
    else
      var (bytes, n) :- Character(s);
      CharacterLen(s);
      var (more, rest) :- StringBody(s[n..]);
      Some((bytes + more, rest))
  }

  type Reader<T> = seq<Byte> -> Option<(T, seq<Byte>)>

  // One or more values with commas between them.
  function Values<T>(s: seq<Byte>, one: Reader<T>): Option<(seq<T>, seq<Byte>)>
    decreases |s|
  {
    var (x, rest) :- one(s);
    if rest != [] && rest[0] == COMMA && |rest| <= |s| then
      var (xs, more) :- Values(rest[1..], one);
      Some(([x] + xs, more))
    else Some(([x], rest))
  }

  // The values of an array, and its closing bracket.
  function Array<T>(s: seq<Byte>, one: Reader<T>): Option<(seq<T>, seq<Byte>)> {
    if s != [] && s[0] == BRACKET then Some(([], s[1..]))
    else
      var (xs, rest) :- Values(s, one);
      var end :- Skip([BRACKET], rest);
      Some((xs, end))
  }

  // ── What the writer wrote is read back ───────────────────────────────────

  lemma SkipReads(literal: seq<Byte>, rest: seq<Byte>)
    ensures Skip(literal, literal + rest) == Some(rest)
  {
  }

  lemma {:induction false} DecIsDigits(n: nat)
    ensures forall k :: 0 <= k < |Dec(n)| ==> Digit(Dec(n)[k])
  {
    if n >= 10 { DecIsDigits(n / 10); }
  }

  lemma {:induction false} DecReadsBack(n: nat)
    ensures (forall k :: 0 <= k < |Dec(n)| ==> Digit(Dec(n)[k])) && DecValue(Dec(n)) == n
  {
    DecIsDigits(n);
    if n >= 10 {
      DecReadsBack(n / 10);
      assert Dec(n)[..|Dec(n)| - 1] == Dec(n / 10);
    } else {
      assert Dec(n)[..0] == [];
    }
  }

  lemma {:induction false} DigitRunIs(d: seq<Byte>, rest: seq<Byte>)
    requires (forall k :: 0 <= k < |d| ==> Digit(d[k])) && (rest == [] || !Digit(rest[0]))
    ensures DigitRun(d + rest) == |d|
  {
    if d == [] {
      assert d + rest == rest;
    } else {
      assert (d + rest)[1..] == d[1..] + rest;
      DigitRunIs(d[1..], rest);
    }
  }

  lemma NumberReads(n: nat, rest: seq<Byte>)
    requires rest == [] || !Digit(rest[0])
    ensures Number(Dec(n) + rest) == Some((n, rest))
  {
    DecReadsBack(n);
    DigitRunIs(Dec(n), rest);
    assert (Dec(n) + rest)[..|Dec(n)|] == Dec(n);
  }

  function Pow16(n: nat): nat {
    if n == 0 then 1 else 16 * Pow16(n - 1)
  }

  lemma DigitReads(v: nat)
    ensures v < 16 ==> HexValue(if v < 10 then 0x30 + v else 0x41 + v - 10) == Some(v)
    ensures v < 16 ==> HexValue(if v < 10 then 0x30 + v else 0x61 + v - 10) == Some(v)
  {
  }

  lemma Shifted(v: nat, p: nat)
    requires v < 16 * p
    ensures v / 16 < p && v == (v / 16) * 16 + v % 16
  {
  }

  lemma OneMoreDigit(s: seq<Byte>, c: Byte)
    requires HexRun(s).Some? && HexValue(c).Some?
    ensures HexRun(s + [c]) == Some(HexRun(s).value * 16 + HexValue(c).value)
  {
    assert (s + [c])[..|s|] == s;
  }

  // A number below 16 * p: its last digit and what comes before it.
  lemma SplitDigit(v: nat, n: nat)
    requires n > 0 && v < Pow16(n)
    ensures v / 16 < Pow16(n - 1) && v == (v / 16) * 16 + v % 16
    ensures HexUpper(v, n) == HexUpper(v / 16, n - 1) + [if v % 16 < 10 then 0x30 + v % 16 else 0x41 + v % 16 - 10]
    ensures HexLower(v, n) == HexLower(v / 16, n - 1) + [if v % 16 < 10 then 0x30 + v % 16 else 0x61 + v % 16 - 10]
  {
    Shifted(v, Pow16(n - 1));
  }

  lemma LastDigitReads(upper: seq<Byte>, lower: seq<Byte>, q: nat, d: nat)
    requires d < 16 && HexRun(upper) == Some(q) && HexRun(lower) == Some(q)
    ensures HexRun(upper + [if d < 10 then 0x30 + d else 0x41 + d - 10]) == Some(q * 16 + d)
    ensures HexRun(lower + [if d < 10 then 0x30 + d else 0x61 + d - 10]) == Some(q * 16 + d)
  {
    DigitReads(d);
    OneMoreDigit(upper, if d < 10 then 0x30 + d else 0x41 + d - 10);
    OneMoreDigit(lower, if d < 10 then 0x30 + d else 0x61 + d - 10);
  }

  lemma {:induction false} HexReadsBack(v: nat, n: nat)
    requires v < Pow16(n)
    ensures HexRun(HexUpper(v, n)) == Some(v) && HexRun(HexLower(v, n)) == Some(v)
    decreases n
  {
    if n > 0 {
      SplitDigit(v, n);
      hide HexRun, HexUpper, HexLower, Pow16;
      HexReadsBack(v / 16, n - 1);
      LastDigitReads(HexUpper(v / 16, n - 1), HexLower(v / 16, n - 1), v / 16, v % 16);
    }
  }

  lemma SixteenDigits()
    ensures Pow16(16) == 0x1_0000_0000_0000_0000
  {
    assert Pow16(4) == 0x1_0000;
    assert Pow16(8) == 0x1_0000_0000;
    assert Pow16(12) == 0x1_0000_0000_0000;
  }

  lemma HexReads(v: nat, rest: seq<Byte>)
    requires v < 0x1_0000_0000_0000_0000
    ensures HexNumber(HexUpper(v, 16) + rest, 16) == Some((v, rest))
    ensures HexNumber(HexLower(v, 16) + rest, 16) == Some((v, rest))
  {
    SixteenDigits();
    HexReadsBack(v, 16);
    assert (HexUpper(v, 16) + rest)[..16] == HexUpper(v, 16) && (HexLower(v, 16) + rest)[..16] == HexLower(v, 16);
  }

  lemma OneMore(t: seq<Byte>)
    requires t != []
    ensures Piece(t) != [] && Escape(t) == Piece(t) + Escape(t[Taken(t)..]) && Sanitize(t) == Meant(t) + Sanitize(t[Taken(t)..])
  {
    if t[0] < 0x80 { HeadOfAscii(t); }
  }

  lemma CharacterRead(piece: seq<Byte>, meant: seq<Byte>, more: seq<Byte>)
    requires piece != [] && Character(piece + more) == Some((meant, |piece|)) && StringBody(more).Some?
    ensures StringBody(piece + more) == Some((meant + StringBody(more).value.0, StringBody(more).value.1))
  {
    assert (piece + more)[|piece|..] == more;
  }

  lemma StringEnds(rest: seq<Byte>)
    ensures StringBody(Escape([]) + ([QUOTE] + rest)) == Some((Sanitize([]), rest))
  {
    assert Escape([]) + ([QUOTE] + rest) == [QUOTE] + rest;
  }

  lemma {:induction false} StringReads(t: seq<Byte>, rest: seq<Byte>)
    ensures StringBody(Escape(t) + ([QUOTE] + rest)) == Some((Sanitize(t), rest))
  {
    hide StringBody, Escape, Sanitize, Character, Piece, Meant, HeadLen;
    var end := [QUOTE] + rest;
    if t == [] {
      StringEnds(rest);
    } else {
      var more := Escape(t[Taken(t)..]) + end;
      StringReads(t[Taken(t)..], rest);
      PieceReads(t, more);
      OneMore(t);
      CharacterRead(Piece(t), Meant(t), more);
      assert Escape(t) + end == Piece(t) + more;
    }
  }

  // text is read as x, whatever follows it.
  ghost predicate Reads<T(!new)>(one: Reader<T>, text: seq<Byte>, x: T) {
    forall rest :: one(text + rest) == Some((x, rest))
  }

  lemma {:induction false} ValuesRead<T(!new)>(one: Reader<T>, texts: seq<seq<Byte>>, xs: seq<T>, rest: seq<Byte>)
    requires |texts| == |xs| > 0 && forall i :: 0 <= i < |xs| ==> Reads(one, texts[i], xs[i])
    requires rest == [] || rest[0] != COMMA
    ensures Values(Join(COMMA, texts) + rest, one) == Some((xs, rest))
    decreases |texts|
  {
    assert Reads(one, texts[0], xs[0]);
    if |texts| == 1 {
      assert xs == [xs[0]];
    } else {
      var more := Join(COMMA, texts[1..]) + rest;
      ValuesRead(one, texts[1..], xs[1..], rest);
      assert Join(COMMA, texts) + rest == texts[0] + ([COMMA] + more);
      assert ([COMMA] + more)[1..] == more;
      assert xs == [xs[0]] + xs[1..];
    }
  }

  lemma ArrayReads<T(!new)>(one: Reader<T>, texts: seq<seq<Byte>>, xs: seq<T>, rest: seq<Byte>)
    requires |texts| == |xs| && forall i :: 0 <= i < |xs| ==> Reads(one, texts[i], xs[i]) && texts[i] != [] && texts[i][0] != BRACKET
    ensures Array(Join(COMMA, texts) + ([BRACKET] + rest), one) == Some((xs, rest))
  {
    if texts == [] {
      assert Join(COMMA, texts) + ([BRACKET] + rest) == [BRACKET] + rest;
    } else {
      ValuesRead(one, texts, xs, [BRACKET] + rest);
    }
  }
}
