// Small shared vocabulary: optional values, bytes, and facts about sequences.
module Common {

  datatype Option<+T> = None | Some(value: T) {
    predicate IsFailure() {
      None?
    }

    function PropagateFailure<U>(): Option<U>
      requires None?
    {
      None
    }

    function Extract(): T
      requires Some?
    {
      value
    }
  }

  // An 8-bit unsigned value (uint8_t, unsigned char).
  type Byte = b: int | 0 <= b < 256

  function Min(a: int, b: int): int {
    if a <= b then a else b
  }

  // The elements of `s` are pairwise different.
  ghost predicate Distinct<T>(s: seq<T>) {
    forall i, j :: 0 <= i < j < |s| ==> s[i] != s[j]
  }

  // The set of elements of `s`.
  function Elements<T>(s: seq<T>): set<T> {
    set x | x in s
  }

  lemma {:induction false} DistinctCard<T>(s: seq<T>)
    requires Distinct(s)
    ensures |Elements(s)| == |s|
  {
    if s == [] {
      assert Elements(s) == {};
    } else {
      var rest := s[..|s| - 1];
      DistinctCard(rest);
      assert s == rest + [s[|s| - 1]];
      assert Elements(s) == Elements(rest) + {s[|s| - 1]};
    }
  }

  lemma {:induction false} SubsetCard<T>(a: set<T>, b: set<T>)
    requires a <= b
    ensures |a| <= |b|
  {
    if a != {} {
      var x :| x in a;
      SubsetCard(a - {x}, b - {x});
    }
  }

  // Pigeonhole: more elements than `b` has means one of them is outside `b`.
  lemma Pigeonhole<T>(a: set<T>, b: set<T>)
    requires |a| > |b|
    ensures exists x :: x in a && x !in b
  {
    if forall x :: x in a ==> x in b {
      SubsetCard(a, b);
    }
  }

  // The bytes of an ASCII literal.
  function Ascii(s: string): (r: seq<Byte>)
    ensures |r| == |s|
  {
    seq(|s|, i requires 0 <= i < |s| => (s[i] as int) % 256)
  }

  // The items separated by one byte.
  function Join(sep: Byte, items: seq<seq<Byte>>): seq<Byte> {
    if items == [] then []
    else if |items| == 1 then items[0]
    else items[0] + [sep] + Join(sep, items[1..])
  }

  lemma {:induction false} JoinAppend(sep: Byte, items: seq<seq<Byte>>, last: seq<Byte>)
    ensures Join(sep, items + [last]) == if items == [] then last else Join(sep, items) + [sep] + last
  {
    if |items| == 1 {
      assert (items + [last])[1..] == [last];
    } else if |items| > 1 {
      JoinAppend(sep, items[1..], last);
      assert (items + [last])[1..] == items[1..] + [last];
    }
  }
}
