// path_normalize as the in-place code it is: a scratch copy cut into NUL-terminated
// segments, a stack of segment starts, and the path rewritten in its own buffer.
module PathNormalizeCode {
  import opened Common
  import opened PathNormalize

  // buf holds the C string t at position from.
  ghost predicate HoldsString(buf: seq<Byte>, from: nat, t: seq<Byte>) {
    from + |t| < |buf| && buf[from..from + |t|] == t && buf[from + |t|] == 0 && 0 !in t
  }

  // The NUL is where the string ends, and nowhere before.
  lemma EndsAt(buf: seq<Byte>, from: nat, t: seq<Byte>, k: nat)
    requires HoldsString(buf, from, t) && k <= |t|
    ensures buf[from + k] == 0 <==> k == |t|
    ensures k < |t| ==> buf[from + k] == t[k]
  {
    if k < |t| { assert buf[from..from + |t|][k] == t[k]; }
  }

  method StrLen(buf: array<Byte>, from: nat, ghost t: seq<Byte>) returns (n: nat)
    requires HoldsString(buf[..], from, t)
    ensures n == |t|
  {
    n := 0;
    EndsAt(buf[..], from, t, 0);
    while buf[from + n] != 0
      invariant n <= |t| && (buf[from + n] == 0 <==> n == |t|)
      decreases |t| - n
    {
      n := n + 1;
      EndsAt(buf[..], from, t, n);
    }
  }

  // The stack of segments, as starts of strings in tmp, all before position s.
  ghost predicate Stacked(tmp: seq<Byte>, segs: seq<nat>, stack: seq<Seg>, s: nat) {
    |stack| <= |segs| == MAX_DEPTH &&
    forall i :: 0 <= i < |stack| ==> HoldsString(tmp, segs[i], stack[i]) && segs[i] + |stack[i]| <= s
  }

  method CopyString(src: array<Byte>, dst: array<Byte>, n: nat)
    requires src != dst && n <= src.Length && n <= dst.Length
    modifies dst
    ensures dst[..n] == src[..n]
  {
    var i := 0;
    while i < n
      invariant i <= n && dst[..i] == src[..i]
    {
      dst[i] := src[i];
      i := i + 1;
    }
  }

  lemma SplitSkips(p: seq<Byte>, s: nat)
    requires s < |p| && p[s] == SLASH
    ensures Split(p[s..]) == Split(p[s + 1..])
  {
    assert p[s..][1..] == p[s + 1..];
  }

  // Past the slashes at s.
  method SkipSlashes(tmp: array<Byte>, from: nat, ghost p: seq<Byte>) returns (s: nat)
    requires from <= |p| && HoldsString(tmp[..], from, p[from..]) && 0 !in p
    ensures from <= s <= |p| && HoldsString(tmp[..], s, p[s..]) && Split(p[s..]) == Split(p[from..])
    ensures tmp[s] != SLASH
  {
    s := from;
    while tmp[s] == SLASH
      invariant from <= s <= |p| && HoldsString(tmp[..], s, p[s..]) && Split(p[s..]) == Split(p[from..])
      decreases |p| - s
    {
      assert s < |p| && p[s] == SLASH by { assert tmp[..][s..s + |p[s..]|] == p[s..]; }
      SplitSkips(p, s);
      assert tmp[..][s + 1..s + 1 + |p[s + 1..]|] == p[s..][1..];
      s := s + 1;
    }
  }

  // The end of the segment at s.
  method SegmentEnd(tmp: array<Byte>, s: nat, ghost p: seq<Byte>) returns (end: nat)
    requires s <= |p| && HoldsString(tmp[..], s, p[s..]) && 0 !in p
    ensures s <= end <= |p| && end == s + SegLen(p[s..])
  {
    assert tmp[..][s..s + |p[s..]|] == p[s..];
    end := s;
    while tmp[end] != 0 && tmp[end] != SLASH
      invariant s <= end <= |p| && SegLen(p[s..]) == end - s + SegLen(p[end..])
      decreases |p| - end
    {
      assert end < |p| && p[s..][end - s] == p[end];
      assert p[end..][1..] == p[end + 1..];
      end := end + 1;
    }
    if end < |p| { assert p[s..][end - s] == p[end]; }
  }

  lemma SplitOne(p: seq<Byte>, s: nat, end: nat)
    requires s < |p| && p[s] != SLASH && end == s + SegLen(p[s..])
    ensures s < end <= |p| && Split(p[s..]) == [p[s..end]] + Split(p[end..])
  {
    assert p[s..][..end - s] == p[s..end] && p[s..][end - s..] == p[end..];
  }

  // Cutting tmp at `end` keeps the strings before it.
  lemma StackedCut(tmp: seq<Byte>, segs: seq<nat>, stack: seq<Seg>, s: nat, end: nat)
    requires Stacked(tmp, segs, stack, s) && s <= end < |tmp| && tmp[s] != 0
    ensures Stacked(tmp[end := 0], segs, stack, end)
  {
    forall i | 0 <= i < |stack|
      ensures HoldsString(tmp[end := 0], segs[i], stack[i]) && segs[i] + |stack[i]| <= end
    {
      assert HoldsString(tmp, segs[i], stack[i]);
      assert tmp[end := 0][segs[i]..segs[i] + |stack[i]|] == tmp[segs[i]..segs[i] + |stack[i]|];
    }
  }

  // What the loop has left to do, from position s.
  ghost predicate Walking(tmp: seq<Byte>, segs: seq<nat>, stack: seq<Seg>, s: nat, p: seq<Byte>) {
    && s <= |p| && 0 !in p && HoldsString(tmp, s, p[s..])
    && Stacked(tmp, segs, stack, s) && Walk(stack, Split(p[s..])) == Resolve(p)
  }

  lemma DotNames(seg: seq<Byte>)
    ensures seg == DOT <==> |seg| == 1 && seg[0] == 0x2E
    ensures seg == DOTDOT <==> |seg| == 2 && seg[0] == 0x2E && seg[1] == 0x2E
  {
  }

  // One segment of the walk: the stack after it, or None.
  method EnterSegment(tmp: array<Byte>, segs: array<nat>, depth: nat, s: nat, end: nat, ghost stack: seq<Seg>)
    returns (ok: bool, depth': nat)
    requires Stacked(tmp[..], segs[..], stack, end) && depth == |stack|
    requires s < end <= tmp.Length && HoldsString(tmp[..], s, tmp[s..end])
    modifies segs
    ensures ok == Enter(stack, tmp[s..end]).Some?
    ensures ok ==> depth' == |Enter(stack, tmp[s..end]).value| && Stacked(tmp[..], segs[..], Enter(stack, tmp[s..end]).value, end)
  {
    DotNames(tmp[s..end]);
    if end - s == 1 && tmp[s] == 0x2E { return true, depth; }
    if end - s == 2 && tmp[s] == 0x2E && tmp[s + 1] == 0x2E {
      if depth == 0 { return false, depth; }
      return true, depth - 1;
    }
    if depth >= MAX_DEPTH { return false, depth; }
    segs[depth] := s;
    return true, depth + 1;
  }

  // The walk: cut tmp into strings and keep the starts of those on the stack.
  method Cut(tmp: array<Byte>, segs: array<nat>, ghost p: seq<Byte>) returns (ok: bool, depth: nat, ghost stack: seq<Seg>)
    requires HoldsString(tmp[..], 0, p) && segs.Length == MAX_DEPTH
    modifies tmp, segs
    ensures ok == Resolve(p).Some?
    ensures ok ==> stack == Resolve(p).value && depth == |stack| && Stacked(tmp[..], segs[..], stack, |p|)
  {
    stack, depth := [], 0;
    var s := 0;
    assert p[0..] == p;
    while tmp[s] != 0
      invariant Walking(tmp[..], segs[..], stack, s, p) && depth == |stack|
      decreases |p| - s
    {
      EndsAt(tmp[..], s, p[s..], 0);
      s := SkipSlashes(tmp, s, p);
      if tmp[s] == 0 { break; }
      s, ok, depth, stack := CutOne(tmp, segs, depth, s, p, stack);
      if !ok { return; }
    }
    EndsAt(tmp[..], s, p[s..], 0);
    return true, depth, stack;
  }

  method CutOne(tmp: array<Byte>, segs: array<nat>, depth: nat, s: nat, ghost p: seq<Byte>, ghost stack: seq<Seg>)
    returns (s': nat, ok: bool, depth': nat, ghost stack': seq<Seg>)
    requires Walking(tmp[..], segs[..], stack, s, p) && depth == |stack|
    requires tmp[s] != 0 && tmp[s] != SLASH
    modifies tmp, segs
    ensures !ok ==> Resolve(p).None?
    ensures ok ==> s < s' && Walking(tmp[..], segs[..], stack', s', p) && depth' == |stack'|
  {
    EndsAt(tmp[..], s, p[s..], 0);
    var end := SegmentEnd(tmp, s, p);
    SplitOne(p, s, end);
    StringAt(tmp[..], s, end, p);
    var atEnd := tmp[end] == 0;
    StackedCut(tmp[..], segs[..], stack, s, end);
    CutString(tmp[..], s, end, p);
    ghost var was := tmp[..];
    tmp[end] := 0;
    assert tmp[..] == was[end := 0];
    assert tmp[s..end] == p[s..end];
    ok, depth' := EnterSegment(tmp, segs, depth, s, end, stack);
    s', stack' := if atEnd then end else end + 1, stack;
    if ok {
      stack' := Enter(stack, p[s..end]).value;
      if !atEnd { SplitSkips(p, end); }
    }
  }

  // The bytes of the string at s, at and after `end`.
  lemma StringAt(tmp: seq<Byte>, s: nat, end: nat, p: seq<Byte>)
    requires s <= end <= |p| && HoldsString(tmp, s, p[s..])
    ensures |p| < |tmp| && tmp[|p|] == 0 && tmp[s..end] == p[s..end]
    ensures end < |p| ==> tmp[end] == p[end] != 0
  {
    var all := tmp[s..s + |p[s..]|];
    assert tmp[s..end] == all[..end - s] == p[s..][..end - s] == p[s..end];
    if end < |p| { assert all[end - s] == p[s..][end - s]; }
  }

  // Cutting at `end`: the segment becomes a string of its own, and what follows the
  // cut is untouched.
  lemma CutString(tmp: seq<Byte>, s: nat, end: nat, p: seq<Byte>)
    requires s <= end <= |p| && HoldsString(tmp, s, p[s..]) && 0 !in p
    ensures |p| < |tmp| && HoldsString(tmp[end := 0], s, p[s..end])
    ensures end == |p| ==> HoldsString(tmp[end := 0], end, p[end..])
    ensures end < |p| ==> HoldsString(tmp[end := 0], end + 1, p[end + 1..])
  {
    StringAt(tmp, s, end, p);
    var cut := tmp[end := 0];
    assert cut[s..end] == tmp[s..end];
    if end < |p| {
      assert cut[end + 1..|p|] == tmp[s..|p|][end + 1 - s..] == p[s..][end + 1 - s..] == p[end + 1..];
    }
  }

  lemma JoinedUpTo(stack: seq<Seg>, i: nat)
    requires i < |stack|
    ensures Joined(stack[..i + 1]) == Joined(stack[..i]) + [SLASH] + stack[i]
  {
    assert stack[..i + 1][..i] == stack[..i];
  }

  lemma {:induction false} JoinedGrows(stack: seq<Seg>, i: nat)
    requires i <= |stack|
    ensures |Joined(stack[..i])| <= |Joined(stack)|
    decreases |stack| - i
  {
    if i < |stack| {
      JoinedUpTo(stack, i);
      JoinedGrows(stack, i + 1);
    } else {
      assert stack[..i] == stack;
    }
  }

  lemma {:induction false} JoinedNoNul(stack: seq<Seg>)
    requires forall i :: 0 <= i < |stack| ==> 0 !in stack[i]
    ensures 0 !in Joined(stack)
  {
    if stack != [] { JoinedNoNul(stack[..|stack| - 1]); }
  }

  // memcpy of one segment behind its slash.
  method PutSegment(path: array<Byte>, pos: nat, tmp: array<Byte>, from: nat, n: nat)
    requires path != tmp && from + n <= tmp.Length && pos + 1 + n <= path.Length
    modifies path
    ensures path[..pos + 1 + n] == old(path[..pos]) + [SLASH] + tmp[from..from + n]
  {
    path[pos] := SLASH;
    var k := 0;
    while k < n
      invariant k <= n && tmp[from..from + n] == old(tmp[from..from + n])
      invariant path[..pos + 1 + k] == old(path[..pos]) + [SLASH] + tmp[from..from + k]
    {
      path[pos + 1 + k] := tmp[from + k];
      k := k + 1;
    }
  }

  // Where the copy loop stops early, on its guard or on its test, the whole would not
  // have fitted.
  lemma StopsOnlyWhenFull(stack: seq<Seg>, i: nat, bufSize: nat)
    requires Proper(stack) && i < |stack| && |Joined(stack)| <= bufSize
    ensures |Joined(stack[..i])| + 1 + |stack[i]| <= |Joined(stack)|
    ensures |Joined(stack[..i])| + 1 < bufSize
  {
    JoinedUpTo(stack, i);
    JoinedGrows(stack, i + 1);
  }

  // The copy loop; its guard on `pos` never drops a segment.
  method CopySegments(path: array<Byte>, bufSize: nat, tmp: array<Byte>, segs: array<nat>, depth: nat, ghost stack: seq<Seg>)
    returns (ok: bool, pos: nat)
    requires path != tmp && path.Length >= 2 && 1 <= bufSize <= path.Length && depth == |stack|
    requires Stacked(tmp[..], segs[..], stack, tmp.Length) && Proper(stack) && |Joined(stack)| <= bufSize
    modifies path
    ensures ok <==> |Joined(stack)| < bufSize
    ensures ok ==> pos == |Joined(stack)| && path[..pos] == Joined(stack)
  {
    var i := 0;
    pos := 0;
    assert stack[..0] == [];
    while i < depth && pos < bufSize - 1
      invariant i <= depth && pos == |Joined(stack[..i])| < bufSize && path[..pos] == Joined(stack[..i])
      invariant tmp[..] == old(tmp[..])
    {
      assert HoldsString(tmp[..], segs[i], stack[i]);
      var slen := StrLen(tmp, segs[i], stack[i]);
      StopsOnlyWhenFull(stack, i, bufSize);
      if pos + 1 + slen >= bufSize { return false, pos; }
      JoinedUpTo(stack, i);
      PutSegment(path, pos, tmp, segs[i], slen);
      pos := pos + 1 + slen;
      i := i + 1;
    }
    if i < depth { StopsOnlyWhenFull(stack, i, bufSize); }
    assert stack[..i] == stack;
    return true, pos;
  }

  method Rejoin(path: array<Byte>, bufSize: nat, tmp: array<Byte>, segs: array<nat>, depth: nat, ghost stack: seq<Seg>)
    returns (ok: bool)
    requires path != tmp && path.Length >= 2 && 1 <= bufSize <= path.Length && depth == |stack|
    requires Stacked(tmp[..], segs[..], stack, tmp.Length) && Proper(stack) && |Joined(stack)| <= bufSize
    modifies path
    ensures ok <==> |Joined(stack)| < bufSize
    ensures ok ==> HoldsString(path[..], 0, Absolute(stack))
  {
    forall k | 0 <= k < |stack| ensures 0 !in stack[k] { assert HoldsString(tmp[..], segs[k], stack[k]); }
    JoinedNoNul(stack);
    var pos;
    ok, pos := CopySegments(path, bufSize, tmp, segs, depth, stack);
    if !ok { return; }
    if |stack| > 0 { JoinedCons(stack); }
    if pos == 0 {
      path[0], path[1] := SLASH, 0;
    } else {
      ghost var was := path[..pos];
      path[pos] := 0;
      assert path[..pos] == was;
    }
  }

  // path_normalize on a C string p that fits bufSize bytes: the normal form, in place,
  // exactly when there is one.  The root path is written as two bytes whatever bufSize
  // says, so there have to be two.
  method NormalizeInPlace(path: array<Byte>, bufSize: nat, ghost p: seq<Byte>) returns (ok: bool)
    requires path.Length >= 2 && |p| < bufSize <= path.Length && HoldsString(path[..], 0, p)
    modifies path
    ensures ok == Normalize(p, bufSize).Some?
    ensures ok ==> HoldsString(path[..], 0, Normalize(p, bufSize).value)
  {
    var plen := StrLen(path, 0, p);
    if plen >= TMP_SIZE { return false; }
    var tmp := new Byte[TMP_SIZE];
    CopyString(path, tmp, plen + 1);
    assert tmp[..plen + 1][..plen] == path[..plen + 1][..plen] == p;
    assert tmp[plen] == tmp[..plen + 1][plen] == path[..plen + 1][plen] == 0;
    var segs := new nat[MAX_DEPTH](_ => 0);
    ghost var stack;
    var depth;
    ok, depth, stack := Cut(tmp, segs, p);
    if !ok { return; }
    SplitProper(p);
    WalkKeeps([], Split(p));
    WalkShrinks([], Split(p));
    SplitCost(p);
    ok := Rejoin(path, bufSize, tmp, segs, depth, stack);
  }
}
