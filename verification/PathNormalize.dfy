// path_normalize of main/rest_ops.cpp: splitting a path, resolving "." and ".." on a
// stack, and rejoining; and the paths handle_get_static may open.
module PathNormalize {
  import opened Common

  const SLASH: Byte := 0x2F
  const DOT: seq<Byte> := [0x2E]
  const DOTDOT: seq<Byte> := [0x2E, 0x2E]
  const TMP_SIZE: nat := 256
  const MAX_DEPTH: nat := 16

  type Seg = seq<Byte>

  // The bytes before the first slash.
  function SegLen(t: seq<Byte>): (n: nat)
    ensures n <= |t| && SLASH !in t[..n] && (n < |t| ==> t[n] == SLASH)
  {
    if t == [] || t[0] == SLASH then 0 else 1 + SegLen(t[1..])
  }

  // The nonempty segments between slashes.
  function Split(t: seq<Byte>): seq<Seg>
    decreases |t|
  {
    if t == [] then []
    else if t[0] == SLASH then Split(t[1..])
    else [t[..SegLen(t)]] + Split(t[SegLen(t)..])
  }

  predicate IsName(s: Seg) {
    s != DOT && s != DOTDOT
  }

  // One segment: "." stays, ".." goes up, a name goes down.
  function Enter(stack: seq<Seg>, seg: Seg): Option<seq<Seg>> {
    if seg == DOT then Some(stack)
    else if seg == DOTDOT then if stack == [] then None else Some(stack[..|stack| - 1])
    else if |stack| >= MAX_DEPTH then None else Some(stack + [seg])
  }

  function Walk(stack: seq<Seg>, segs: seq<Seg>): Option<seq<Seg>>
    decreases |segs|
  {
    if segs == [] then Some(stack)
    else
      match Enter(stack, segs[0])
      case None => None
      case Some(next) => Walk(next, segs[1..])
  }

  function Resolve(p: seq<Byte>): Option<seq<Seg>> {
    Walk([], Split(p))
  }

  // A slash before every segment.
  function Joined(stack: seq<Seg>): seq<Byte> {
    if stack == [] then [] else Joined(stack[..|stack| - 1]) + [SLASH] + stack[|stack| - 1]
  }

  function Absolute(stack: seq<Seg>): seq<Byte> {
    if stack == [] then [SLASH] else Joined(stack)
  }

  // The normal form of p in a buffer of bufSize bytes, or None.
  function Normalize(p: seq<Byte>, bufSize: nat): Option<seq<Byte>> {
    if |p| >= TMP_SIZE then None
    else
      match Resolve(p)
      case None => None
      case Some(stack) => if |Joined(stack)| >= bufSize then None else Some(Absolute(stack))
  }

  // ── Segments ─────────────────────────────────────────────────────────────

  predicate Proper(stack: seq<Seg>) {
    forall i :: 0 <= i < |stack| ==> stack[i] != [] && SLASH !in stack[i]
  }

  predicate Names(stack: seq<Seg>) {
    forall i :: 0 <= i < |stack| ==> IsName(stack[i])
  }

  lemma {:induction false} SplitProper(t: seq<Byte>)
    ensures Proper(Split(t))
    decreases |t|
  {
    if t != [] { SplitProper(if t[0] == SLASH then t[1..] else t[SegLen(t)..]); }
  }

  // The result of a walk is made of names it entered.
  lemma {:induction false} WalkKeeps(stack: seq<Seg>, segs: seq<Seg>)
    requires Proper(stack) && Names(stack) && |stack| <= MAX_DEPTH && Proper(segs) && Walk(stack, segs).Some?
    ensures var r := Walk(stack, segs).value; Proper(r) && Names(r) && |r| <= MAX_DEPTH
    decreases |segs|
  {
    if segs != [] { WalkKeeps(Enter(stack, segs[0]).value, segs[1..]); }
  }

  // Room for the stack and what is still to come.
  function Cost(segs: seq<Seg>): nat {
    if segs == [] then 0 else 1 + |segs[0]| + Cost(segs[1..])
  }

  lemma {:induction false} WalkShrinks(stack: seq<Seg>, segs: seq<Seg>)
    requires Walk(stack, segs).Some?
    ensures |Joined(Walk(stack, segs).value)| <= |Joined(stack)| + Cost(segs)
    decreases |segs|
  {
    if segs != [] {
      var next := Enter(stack, segs[0]).value;
      WalkShrinks(next, segs[1..]);
      if next == stack + [segs[0]] { assert next[..|stack|] == stack; }
    }
  }

  lemma {:induction false} SplitCost(t: seq<Byte>)
    ensures Cost(Split(t)) <= |t| + if t != [] && t[0] != SLASH then 1 else 0
    decreases |t|
  {
    if t != [] {
      if t[0] == SLASH {
        SplitCost(t[1..]);
      } else {
        var n := SegLen(t);
        SplitCost(t[n..]);
        assert Split(t)[0] == t[..n] && Split(t)[1..] == Split(t[n..]);
      }
    }
  }

  // Normalising an absolute path never makes it longer, so it always fits where the
  // path did.
  lemma NeverGrows(p: seq<Byte>)
    requires p != [] && p[0] == SLASH && Resolve(p).Some?
    ensures |Absolute(Resolve(p).value)| <= |p| && |Joined(Resolve(p).value)| <= |p|
  {
    WalkShrinks([], Split(p));
    SplitCost(p);
  }

  // ── Exactly when it fails ────────────────────────────────────────────────

  // At segment k the walk is at the root and must go up, or full and must go down.
  ghost predicate Stuck(stack: seq<Seg>, segs: seq<Seg>, k: nat) {
    && k < |segs| && Walk(stack, segs[..k]).Some?
    && var at := Walk(stack, segs[..k]).value;
       (segs[k] == DOTDOT && at == []) || (IsName(segs[k]) && |at| >= MAX_DEPTH)
  }

  lemma WalkStep(stack: seq<Seg>, segs: seq<Seg>, k: nat)
    requires segs != [] && 0 < k <= |segs| && Enter(stack, segs[0]).Some?
    ensures Walk(stack, segs[..k]) == Walk(Enter(stack, segs[0]).value, segs[1..][..k - 1])
  {
    assert segs[..k][1..] == segs[1..][..k - 1];
  }

  lemma {:induction false} WalkFailsIff(stack: seq<Seg>, segs: seq<Seg>)
    ensures Walk(stack, segs).None? <==> exists k: nat :: Stuck(stack, segs, k)
    decreases |segs|
  {
    if segs != [] {
      if Enter(stack, segs[0]).None? {
        assert segs[..0] == [];
        assert Stuck(stack, segs, 0);
      } else {
        var next := Enter(stack, segs[0]).value;
        WalkFailsIff(next, segs[1..]);
        if Walk(stack, segs).None? {
          var k: nat :| Stuck(next, segs[1..], k);
          WalkStep(stack, segs, k + 1);
          assert Stuck(stack, segs, k + 1);
        }
        forall k: nat | Stuck(stack, segs, k) ensures exists j: nat :: Stuck(next, segs[1..], j) {
          assert segs[..0] == [];
          if k > 0 {
            WalkStep(stack, segs, k);
            assert Stuck(next, segs[1..], k - 1);
          }
        }
      }
    }
  }

  lemma RefusedIffUnresolved(p: seq<Byte>, bufSize: nat)
    requires p != [] && p[0] == SLASH && |p| < bufSize && |p| < TMP_SIZE
    ensures Normalize(p, bufSize).None? <==> Resolve(p).None?
  {
    if Resolve(p).Some? { NeverGrows(p); }
  }

  // An absolute path that fits the buffer is refused exactly when ".." meets the root
  // or a name would be the seventeenth.
  lemma RefusedIff(p: seq<Byte>, bufSize: nat)
    requires p != [] && p[0] == SLASH && |p| < bufSize && |p| < TMP_SIZE
    ensures Normalize(p, bufSize).None? <==> exists k: nat :: Stuck([], Split(p), k)
  {
    RefusedIffUnresolved(p, bufSize);
    WalkFailsIff([], Split(p));
  }

  // ── Normal forms ─────────────────────────────────────────────────────────

  lemma SplitSegment(seg: Seg, rest: seq<Byte>)
    requires seg != [] && SLASH !in seg && (rest == [] || rest[0] == SLASH)
    ensures Split([SLASH] + seg + rest) == [seg] + Split(rest)
  {
    var t := seg + rest;
    assert ([SLASH] + seg + rest)[1..] == t;
    SegLenIs(seg, rest);
    assert t[..|seg|] == seg && t[|seg|..] == rest;
  }

  lemma {:induction false} SegLenIs(seg: Seg, rest: seq<Byte>)
    requires SLASH !in seg && (rest == [] || rest[0] == SLASH)
    ensures SegLen(seg + rest) == |seg|
  {
    if seg != [] {
      assert (seg + rest)[1..] == seg[1..] + rest;
      SegLenIs(seg[1..], rest);
    } else {
      assert seg + rest == rest;
    }
  }

  lemma JoinedTail(stack: seq<Seg>, rest: seq<Byte>)
    requires stack != []
    ensures var n := |stack| - 1; Joined(stack) + rest == Joined(stack[..n]) + ([SLASH] + stack[n] + rest)
  {
  }

  lemma Snoc(stack: seq<Seg>, more: seq<Seg>)
    requires stack != []
    ensures var n := |stack| - 1; stack[..n] + ([stack[n]] + more) == stack + more
  {
  }

  lemma {:induction false} SplitJoinedThen(stack: seq<Seg>, rest: seq<Byte>)
    requires Proper(stack) && (rest == [] || rest[0] == SLASH)
    ensures Split(Joined(stack) + rest) == stack + Split(rest)
    decreases |stack|
  {
    if stack == [] {
      assert Joined(stack) + rest == rest;
      assert stack + Split(rest) == Split(rest);
    } else {
      var n := |stack| - 1;
      var tail := [SLASH] + stack[n] + rest;
      SplitJoinedThen(stack[..n], tail);
      SplitSegment(stack[n], rest);
      JoinedTail(stack, rest);
      Snoc(stack, Split(rest));
    }
  }

  // Rejoining loses nothing: the segments come back.
  lemma SplitJoined(stack: seq<Seg>)
    requires Proper(stack)
    ensures Split(Absolute(stack)) == stack
  {
    if stack == [] {
      assert [SLASH][1..] == [];
    } else {
      SplitJoinedThen(stack, []);
      assert Joined(stack) + [] == Joined(stack) && stack + Split([]) == stack;
    }
  }

  lemma {:induction false} WalkNames(stack: seq<Seg>, names: seq<Seg>)
    requires Names(names) && |stack| + |names| <= MAX_DEPTH
    ensures Walk(stack, names) == Some(stack + names)
    decreases |names|
  {
    if names == [] {
      assert stack + names == stack;
    } else {
      WalkNames(stack + [names[0]], names[1..]);
      assert stack + [names[0]] + names[1..] == stack + names;
    }
  }

  // The normal form is made of names only, at most sixteen, and is its own normal form.
  lemma Idempotent(p: seq<Byte>, bufSize: nat)
    requires Normalize(p, bufSize).Some? && bufSize >= 2
    ensures var out := Normalize(p, bufSize).value;
            && Names(Split(out)) && |Split(out)| <= MAX_DEPTH
            && (|out| < TMP_SIZE ==> Normalize(out, bufSize) == Some(out))
            && (p != [] && p[0] == SLASH ==> |out| <= |p| < TMP_SIZE)
  {
    var stack := Resolve(p).value;
    SplitProper(p);
    WalkKeeps([], Split(p));
    SplitJoined(stack);
    WalkNames([], stack);
    assert [] + stack == stack;
    if p != [] && p[0] == SLASH { NeverGrows(p); }
  }

  // ── handle_get_static ────────────────────────────────────────────────────

  const STATIC_BUF: nat := 256

  const MOUNT: seq<Byte> := [0x2F, 0x73, 0x70, 0x69, 0x66, 0x66, 0x73]   // /spiffs

  // The path opened for a request, or None for "bad request".
  function StaticPath(uri: seq<Byte>): Option<seq<Byte>> {
    if uri == [] then None
    else
      var u := if uri == [SLASH] then Ascii("/index.html") else uri;
      if |u| >= STATIC_BUF - 8 then None
      else
        match Normalize(MOUNT + u, STATIC_BUF)
        case None => None
        case Some(out) => if MOUNT + [SLASH] <= out then Some(out) else None
  }

  // Whatever is asked for, what is opened is a file below the mount point, reached by
  // names only.
  lemma OpensBelowMountOnly(uri: seq<Byte>)
    requires StaticPath(uri).Some?
    ensures var segs := Split(StaticPath(uri).value);
            && |segs| >= 2 && [SLASH] + segs[0] == MOUNT && Names(segs) && Proper(segs)
            && StaticPath(uri).value == MOUNT + Joined(segs[1..])
  {
    var u := if uri == [SLASH] then Ascii("/index.html") else uri;
    var p := MOUNT + u;
    var stack := Resolve(p).value;
    SplitProper(p);
    WalkKeeps([], Split(p));
    SplitJoined(stack);
    MountSegment(stack);
  }

  lemma JoinedOne(seg: Seg)
    ensures Joined([seg]) == [SLASH] + seg && Joined([]) == []
  {
  }

  lemma JoinedSnoc(stack: seq<Seg>)
    requires stack != []
    ensures Joined(stack) == Joined(stack[..|stack| - 1]) + ([SLASH] + stack[|stack| - 1])
  {
  }

  lemma Nested(a: seq<Byte>, b: seq<Byte>, c: seq<Byte>)
    ensures (a + b) + c == a + (b + c)
  {
  }

  lemma {:induction false} JoinedCons(stack: seq<Seg>)
    requires stack != []
    ensures Joined(stack) == [SLASH] + stack[0] + Joined(stack[1..])
  {
    hide Joined;
    var n := |stack| - 1;
    if n == 0 {
      JoinedOne(stack[0]);
      assert stack == [stack[0]] && stack[1..] == [];
    } else {
      JoinedCons(stack[..n]);
      assert stack[..n][1..] == stack[1..][..n - 1];
      JoinedSnoc(stack);
      JoinedSnoc(stack[1..]);
      Nested([SLASH] + stack[0], Joined(stack[1..][..n - 1]), [SLASH] + stack[n]);
    }
  }

  lemma MountSegment(stack: seq<Seg>)
    requires Proper(stack) && MOUNT + [SLASH] <= Absolute(stack)
    ensures |stack| >= 2 && [SLASH] + stack[0] == MOUNT && Absolute(stack) == MOUNT + Joined(stack[1..])
  {
    JoinedCons(stack);
    var out, rest := Joined(stack), Joined(stack[1..]);
    var name, more := MOUNT[1..], out[7..];
    assert out[..8] == MOUNT + [SLASH];
    assert more[0] == out[..8][7] == SLASH;
    assert out[1..] == name + more by { assert out[..8][..7] == MOUNT; }
    SegLenIs(name, more);
    assert out[1..] == stack[0] + rest;
    if |stack| > 1 { JoinedCons(stack[1..]); }
    SegLenIs(stack[0], rest);
    assert stack[0] == (stack[0] + rest)[..6] == (name + more)[..6] == name;
    assert rest == out[7..];
  }
}
