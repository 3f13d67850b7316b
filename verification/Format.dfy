// The printf conversions the JSON writers use.
module Format {
  import opened Common

  function Dec(n: nat): (r: seq<Byte>)
    ensures r != []
  {
    if n < 10 then [0x30 + n] else Dec(n / 10) + [0x30 + n % 10]
  }

  lemma DecShort(n: nat)
    ensures n < 256 ==> |Dec(n)| <= 3
    ensures n < 0x1_0000 ==> |Dec(n)| <= 5
  {
    assert n < 1000 ==> |Dec(n / 10)| <= 2;
    assert n < 0x1_0000 ==> |Dec(n / 1000)| <= 2;
    assert n < 0x1_0000 ==> |Dec(n / 10)| <= 4 by { assert n / 10 / 10 == n / 100 && n / 100 / 10 == n / 1000; }
  }

  // The n low hex digits, upper case.
  function HexUpper(v: nat, n: nat): (r: seq<Byte>)
    ensures |r| == n
  {
    if n == 0 then []
    else HexUpper(v / 16, n - 1) + [if v % 16 < 10 then 0x30 + v % 16 else 0x41 + v % 16 - 10]
  }

  // The n low hex digits, lower case.
  function HexLower(v: nat, n: nat): (r: seq<Byte>)
    ensures |r| == n
  {
    if n == 0 then []
    else HexLower(v / 16, n - 1) + [if v % 16 < 10 then 0x30 + v % 16 else 0x61 + v % 16 - 10]
  }
}
