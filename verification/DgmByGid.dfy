// dgm_all_json of main/dgm_store.cpp: the membership table turned around, by group.
module DgmByGid {
  import opened Common
  import opened DgmStore
  import opened Format
  import opened JsonReader

  const MAX_GROUPS: nat := 128

  // Every group id of the table, row by row.
  function Scan(t: seq<Row>): seq<nat> {
    if t == [] then [] else Scan(t[..|t| - 1]) + t[|t| - 1].gids
  }

  ghost predicate Ascending(s: seq<nat>) {
    forall i, j :: 0 <= i < j < |s| ==> s[i] < s[j]
  }

  // How many elements precede g.
  function PosOf(s: seq<nat>, g: nat): (p: nat)
    ensures p <= |s| && (forall i :: 0 <= i < p ==> s[i] < g) && (p < |s| ==> s[p] >= g)
  {
    if s == [] || s[0] >= g then 0 else 1 + PosOf(s[1..], g)
  }

  function Insert(s: seq<nat>, g: nat): seq<nat> {
    var p := PosOf(s, g);
    if p < |s| && s[p] == g then s
    else if |s| >= MAX_GROUPS then s
    else s[..p] + [g] + s[p..]
  }

  function Collected(scan: seq<nat>): seq<nat> {
    if scan == [] then [] else Insert(Collected(scan[..|scan| - 1]), scan[|scan| - 1])
  }

  lemma PosFinds(s: seq<nat>, g: nat)
    requires Ascending(s)
    ensures (PosOf(s, g) < |s| && s[PosOf(s, g)] == g) <==> g in s
  {
    var p := PosOf(s, g);
    if g in s {
      var i :| 0 <= i < |s| && s[i] == g;
      assert p <= i;
    }
  }

  lemma SpliceAscending(s: seq<nat>, p: nat, g: nat)
    requires Ascending(s) && p <= |s|
    requires (forall i :: 0 <= i < p ==> s[i] < g) && (p < |s| ==> s[p] > g)
    ensures Ascending(s[..p] + [g] + s[p..])
  {
    var r := s[..p] + [g] + s[p..];
    forall i, j | 0 <= i < j < |r| ensures r[i] < r[j] {
      assert r[i] == (if i < p then s[i] else if i == p then g else s[i - 1]);
      assert r[j] == (if j < p then s[j] else if j == p then g else s[j - 1]);
      if i == p { assert s[p] <= s[j - 1]; }
    }
  }

  lemma SpliceElements(s: seq<nat>, p: nat, g: nat)
    requires p <= |s|
    ensures forall x :: x in s[..p] + [g] + s[p..] <==> x in s || x == g
  {
    forall x ensures x in s <==> x in s[..p] || x in s[p..] {
      assert s == s[..p] + s[p..];
    }
  }

  lemma InsertOk(s: seq<nat>, g: nat)
    requires Ascending(s)
    ensures Ascending(Insert(s, g))
    ensures forall x :: x in Insert(s, g) <==> x in s || (x == g && |s| < MAX_GROUPS)
  {
    PosFinds(s, g);
    if g !in s && |s| < MAX_GROUPS {
      SpliceAscending(s, PosOf(s, g), g);
      SpliceElements(s, PosOf(s, g), g);
    }
  }

  lemma AscendingIsDistinct(s: seq<nat>)
    requires Ascending(s)
    ensures |Elements(s)| == |s|
  {
    DistinctCard(s);
  }

  // The ids listed are strictly ascending, and they are the first 128 distinct ones.
  lemma {:induction false} CollectedIsFirstDistinct(scan: seq<nat>)
    ensures Ascending(Collected(scan))
    ensures Elements(Collected(scan)) == Elements(FirstDistinct(scan, MAX_GROUPS))
    ensures |Collected(scan)| == |FirstDistinct(scan, MAX_GROUPS)| <= MAX_GROUPS
  {
    if scan == [] {
      assert Elements(Collected(scan)) == Elements(FirstDistinct(scan, MAX_GROUPS));
    } else {
      var before, g := scan[..|scan| - 1], scan[|scan| - 1];
      CollectedIsFirstDistinct(before);
      var s, f := Collected(before), FirstDistinct(before, MAX_GROUPS);
      InsertOk(s, g);
      assert g in s <==> g in f by { assert g in Elements(s) <==> g in Elements(f); }
      if g !in f && |f| < MAX_GROUPS {
        assert Elements(f + [g]) == Elements(f) + {g};
        assert Elements(Insert(s, g)) == Elements(s) + {g};
      } else {
        assert Elements(Insert(s, g)) == Elements(s);
      }
      FirstDistinctOk(scan, MAX_GROUPS);
      AscendingIsDistinct(Insert(s, g));
      DistinctCard(FirstDistinct(scan, MAX_GROUPS));
    }
  }

  // ── The view ─────────────────────────────────────────────────────────────

  // The devices of group g, in table order.
  function Members(t: seq<Row>, g: nat): seq<nat> {
    if t == [] then []
    else Members(t[..|t| - 1], g) + if g in t[|t| - 1].gids then [t[|t| - 1].ieee] else []
  }

  lemma {:induction false} MembersIn(t: seq<Row>, g: nat, d: nat)
    ensures d in Members(t, g) <==> exists i :: 0 <= i < |t| && t[i].ieee == d && g in t[i].gids
  {
    if t != [] {
      var n := |t| - 1;
      MembersIn(t[..n], g, d);
      if d in Members(t[..n], g) {
        var i :| 0 <= i < n && t[..n][i].ieee == d && g in t[..n][i].gids;
        assert t[i].ieee == d && g in t[i].gids;
      }
      if i :| 0 <= i < |t| && t[i].ieee == d && g in t[i].gids {
        if i < n { assert t[..n][i].ieee == d && g in t[..n][i].gids; }
      }
    }
  }

  lemma {:induction false} ScanIn(t: seq<Row>, g: nat)
    ensures g in Scan(t) <==> exists i :: 0 <= i < |t| && g in t[i].gids
  {
    if t != [] {
      var n := |t| - 1;
      ScanIn(t[..n], g);
      if i :| 0 <= i < n && g in t[..n][i].gids { assert g in t[i].gids; }
      if i :| 0 <= i < |t| && g in t[i].gids {
        if i < n { assert g in t[..n][i].gids; }
      }
    }
  }

  function Listed(t: seq<Row>): seq<nat> {
    Collected(Scan(t))
  }

  lemma MemberIffInMap(t: seq<Row>, g: nat, d: nat)
    requires Valid(t)
    ensures d in Members(t, g) <==> d in MapOf(t) && g in MapOf(t)[d]
  {
    MembersIn(t, g, d);
    MapMirrors(t);
    if i :| 0 <= i < |t| && t[i].ieee == d && g in t[i].gids { FindAt(t, i); }
    if d in MapOf(t) { assert Find(t, d).Some?; }
  }

  // The view lists device d under group g exactly when the map does and g is among the
  // first 128 distinct groups; with no more groups than that, it is the whole relation
  // turned around.
  lemma ViewIsTranspose(t: seq<Row>, g: nat, d: nat)
    requires Valid(t)
    ensures Ascending(Listed(t))
    ensures g in Listed(t) && d in Members(t, g) <==>
            g in FirstDistinct(Scan(t), MAX_GROUPS) && d in MapOf(t) && g in MapOf(t)[d]
    ensures |Elements(Scan(t))| <= MAX_GROUPS ==>
            (g in Listed(t) && d in Members(t, g) <==> d in MapOf(t) && g in MapOf(t)[d])
  {
    CollectedIsFirstDistinct(Scan(t));
    assert g in Listed(t) <==> g in FirstDistinct(Scan(t), MAX_GROUPS) by {
      assert g in Elements(Listed(t)) <==> g in Elements(FirstDistinct(Scan(t), MAX_GROUPS));
    }
    MemberIffInMap(t, g, d);
    if |Elements(Scan(t))| <= MAX_GROUPS && d in Members(t, g) {
      MembersIn(t, g, d);
      ScanIn(t, g);
      FirstDistinctComplete(Scan(t), g);
    }
  }

  // The rows that have group g, from the first on.
  function RowsOf(t: seq<Row>, g: nat): seq<nat> {
    if t == [] then []
    else RowsOf(t[..|t| - 1], g) + if g in t[|t| - 1].gids then [|t| - 1] else []
  }

  ghost predicate InOrder(t: seq<Row>, rows: seq<nat>, devs: seq<nat>, g: nat) {
    && Ascending(rows) && (forall i: nat :: i in rows <==> i < |t| && g in t[i].gids)
    && |devs| == |rows|
    && (forall k :: 0 <= k < |rows| ==> rows[k] < |t| && devs[k] == t[rows[k]].ieee)
  }

  lemma OneMoreRow(t: seq<Row>, rows: seq<nat>, rows': seq<nat>, devs: seq<nat>, devs': seq<nat>, g: nat)
    requires t != [] && InOrder(t[..|t| - 1], rows, devs, g)
    requires rows' == rows + if g in t[|t| - 1].gids then [|t| - 1] else []
    requires devs' == devs + if g in t[|t| - 1].gids then [t[|t| - 1].ieee] else []
    ensures InOrder(t, rows', devs', g)
  {
    var n := |t| - 1;
    forall i: nat ensures i in rows' <==> i < |t| && g in t[i].gids {
      if i < n { assert t[..n][i] == t[i]; }
    }
  }

  lemma RowsDiffer(t: seq<Row>, rows: seq<nat>, devs: seq<nat>, g: nat)
    requires Valid(t) && InOrder(t, rows, devs, g)
    ensures Distinct(devs)
  {
    forall i, j | 0 <= i < j < |devs| ensures devs[i] != devs[j] {
      assert rows[i] < rows[j];
    }
  }

  // A group's devices are those of its rows, in table order, none twice.
  lemma {:induction false} MembersInOrder(t: seq<Row>, g: nat)
    ensures InOrder(t, RowsOf(t, g), Members(t, g), g)
    ensures Valid(t) ==> Distinct(Members(t, g))
  {
    if t != [] {
      var n := |t| - 1;
      MembersInOrder(t[..n], g);
      OneMoreRow(t, RowsOf(t[..n], g), RowsOf(t, g), Members(t[..n], g), Members(t, g), g);
    }
    if Valid(t) { RowsDiffer(t, RowsOf(t, g), Members(t, g), g); }
  }

  // With no more distinct ids than the cap, none is dropped.
  lemma FirstDistinctComplete(scan: seq<nat>, g: nat)
    requires |Elements(scan)| <= MAX_GROUPS && g in scan
    ensures g in FirstDistinct(scan, MAX_GROUPS)
  {
    var f := FirstDistinct(scan, MAX_GROUPS);
    FirstDistinctOk(scan, MAX_GROUPS);
    if g !in f {
      DistinctCard(f);
      SubsetCard(Elements(f) + {g}, Elements(scan));
    }
  }

  // Listed groups have members.
  lemma ListedHasMembers(t: seq<Row>, g: nat)
    requires Valid(t) && g in Listed(t)
    ensures Members(t, g) != []
  {
    CollectedIsFirstDistinct(Scan(t));
    FirstDistinctOk(Scan(t), MAX_GROUPS);
    assert g in Elements(Listed(t));
    ScanIn(t, g);
    var i :| 0 <= i < |t| && g in t[i].gids;
    MembersIn(t, g, t[i].ieee);
  }

  // ── As JSON ──────────────────────────────────────────────────────────────

  function DeviceText(d: nat): seq<Byte> {
    Ascii("{\"ieee\":\"0x") + HexLower(d, 16) + Ascii("\"}")
  }

  function DeviceTexts(ds: seq<nat>): (r: seq<seq<Byte>>)
    ensures |r| == |ds| && forall i :: 0 <= i < |ds| ==> r[i] == DeviceText(ds[i])
  {
    seq(|ds|, i requires 0 <= i < |ds| => DeviceText(ds[i]))
  }

  // A group up to its first rows.
  function GroupUpTo(t: seq<Row>, g: nat): seq<Byte> {
    Ascii("{\"gid\":") + Dec(g) + Ascii(",\"members\":[") + Join(0x2C, DeviceTexts(Members(t, g)))
  }

  function GroupText(t: seq<Row>, g: nat): seq<Byte> {
    GroupUpTo(t, g) + Ascii("]}")
  }

  function GroupTexts(t: seq<Row>, gs: seq<nat>): (r: seq<seq<Byte>>)
    ensures |r| == |gs| && forall i :: 0 <= i < |gs| ==> r[i] == GroupText(t, gs[i])
  {
    seq(|gs|, i requires 0 <= i < |gs| => GroupText(t, gs[i]))
  }

  function ViewUpTo(t: seq<Row>, gs: seq<nat>): seq<Byte> {
    Ascii("{\"groups\":[") + Join(0x2C, GroupTexts(t, gs))
  }

  // The whole response.
  function ViewText(t: seq<Row>): seq<Byte> {
    ViewUpTo(t, Listed(t)) + Ascii("]}")
  }

  // ── Reading it back ──────────────────────────────────────────────────────

  function ReadDevice(s: seq<Byte>): Option<(nat, seq<Byte>)> {
    var s1 :- Skip(Ascii("{\"ieee\":\"0x"), s);
    var (d, s2) :- HexNumber(s1, 16);
    var s3 :- Skip(Ascii("\"}"), s2);
    Some((d, s3))
  }

  function ReadGroup(s: seq<Byte>): Option<((nat, seq<nat>), seq<Byte>)> {
    var s1 :- Skip(Ascii("{\"gid\":"), s);
    var (g, s2) :- Number(s1);
    var s3 :- Skip(Ascii(",\"members\":["), s2);
    var (ds, s4) :- Array(s3, ReadDevice);
    var s5 :- Skip([0x7D], s4);
    Some(((g, ds), s5))
  }

  // What the response says: the groups, each with its devices.
  function ReadView(s: seq<Byte>): Option<seq<(nat, seq<nat>)>> {
    var s1 :- Skip(Ascii("{\"groups\":["), s);
    var (groups, s2) :- Array(s1, ReadGroup);
    if s2 == [0x7D] then Some(groups) else None
  }

  lemma Nest(a: seq<Byte>, b: seq<Byte>, c: seq<Byte>, d: seq<Byte>, rest: seq<Byte>)
    ensures a + b + c + d + rest == a + (b + (c + (d + rest)))
  {
  }

  lemma Punctuation()
    ensures Ascii("]}") == [BRACKET] + [0x7D]
    ensures Ascii("{\"ieee\":\"0x")[0] == 0x7B && Ascii("{\"gid\":")[0] == 0x7B && Ascii(",\"members\":[")[0] == 0x2C
  {
  }

  lemma DeviceReads(d: nat)
    requires d < 0x1_0000_0000_0000_0000
    ensures Reads(ReadDevice, DeviceText(d), d) && DeviceText(d) != [] && DeviceText(d)[0] == 0x7B
  {
    Punctuation();
    forall rest ensures ReadDevice(DeviceText(d) + rest) == Some((d, rest)) {
      var a, b := Ascii("{\"ieee\":\"0x"), Ascii("\"}");
      hide Ascii, Skip, HexNumber, HexLower;
      Nest(a, HexLower(d, 16), b, [], rest);
      assert a + HexLower(d, 16) + b + [] == DeviceText(d) && [] + rest == rest;
      SkipReads(a, HexLower(d, 16) + (b + rest));
      HexReads(d, b + rest);
      SkipReads(b, rest);
    }
  }

  ghost predicate DevicesRead(ds: seq<nat>) {
    forall k :: 0 <= k < |ds| ==>
      Reads(ReadDevice, DeviceText(ds[k]), ds[k]) && DeviceText(ds[k]) != [] && DeviceText(ds[k])[0] != BRACKET
  }

  // The text of a group splits into what the reader takes one by one.
  lemma GroupSplits(t: seq<Row>, g: nat, rest: seq<Byte>)
    ensures var s3 := Join(0x2C, DeviceTexts(Members(t, g))) + ([BRACKET] + ([0x7D] + rest));
            GroupText(t, g) + rest == Ascii("{\"gid\":") + (Dec(g) + (Ascii(",\"members\":[") + s3))
  {
    Punctuation();
    hide Ascii, Dec, Join, DeviceTexts, Members;
    var a, b, js := Ascii("{\"gid\":"), Ascii(",\"members\":["), Join(0x2C, DeviceTexts(Members(t, g)));
    Nest(a, Dec(g), b, js, [BRACKET] + ([0x7D] + rest));
    assert GroupText(t, g) + rest == a + Dec(g) + b + js + ([BRACKET] + ([0x7D] + rest));
  }

  lemma GroupReads(t: seq<Row>, g: nat, rest: seq<Byte>)
    requires DevicesRead(Members(t, g))
    ensures ReadGroup(GroupText(t, g) + rest) == Some(((g, Members(t, g)), rest))
  {
    var ds := Members(t, g);
    var s4 := [0x7D] + rest;
    var s3 := Join(0x2C, DeviceTexts(ds)) + ([BRACKET] + s4);
    var s2 := Ascii(",\"members\":[") + s3;
    Punctuation();
    GroupSplits(t, g, rest);
    hide Ascii, Skip, Number, Array, Join, Members, Dec, GroupText;
    SkipReads(Ascii("{\"gid\":"), Dec(g) + s2);
    NumberReads(g, s2);
    SkipReads(Ascii(",\"members\":["), s3);
    ArrayReads(ReadDevice, DeviceTexts(ds), ds, s4);
    SkipReads([0x7D], rest);
  }

  lemma GroupStarts(t: seq<Row>, g: nat)
    ensures GroupText(t, g) != [] && GroupText(t, g)[0] == 0x7B
  {
    Punctuation();
  }

  function View(t: seq<Row>): (v: seq<(nat, seq<nat>)>)
    ensures |v| == |Listed(t)| && forall i :: 0 <= i < |v| ==> v[i] == (Listed(t)[i], Members(t, Listed(t)[i]))
  {
    seq(|Listed(t)|, i requires 0 <= i < |Listed(t)| => (Listed(t)[i], Members(t, Listed(t)[i])))
  }

  lemma ListedDevicesRead(t: seq<Row>, g: nat)
    requires forall i :: 0 <= i < |t| ==> t[i].ieee < 0x1_0000_0000_0000_0000
    ensures DevicesRead(Members(t, g))
  {
    forall k | 0 <= k < |Members(t, g)|
      ensures Reads(ReadDevice, DeviceText(Members(t, g)[k]), Members(t, g)[k])
      ensures DeviceText(Members(t, g)[k]) != [] && DeviceText(Members(t, g)[k])[0] != BRACKET
    {
      MembersIn(t, g, Members(t, g)[k]);
      DeviceReads(Members(t, g)[k]);
    }
  }

  // Whatever the table, the response says what the view is: the listed groups, each with
  // its devices.
  lemma ViewReadsBack(t: seq<Row>)
    requires forall i :: 0 <= i < |t| ==> t[i].ieee < 0x1_0000_0000_0000_0000
    ensures ReadView(ViewText(t)) == Some(View(t))
  {
    var texts := GroupTexts(t, Listed(t));
    Punctuation();
    forall i | 0 <= i < |View(t)| ensures Reads(ReadGroup, texts[i], View(t)[i]) && texts[i] != [] && texts[i][0] != BRACKET {
      var g := Listed(t)[i];
      ListedDevicesRead(t, g);
      forall rest ensures ReadGroup(texts[i] + rest) == Some((View(t)[i], rest)) { GroupReads(t, g, rest); }
      GroupStarts(t, g);
    }
    var a, js := Ascii("{\"groups\":["), Join(0x2C, texts);
    hide Ascii, Skip, Array, Join, Reads;
    assert ViewText(t) == a + (js + ([BRACKET] + [0x7D])) by { Nest(a, js, [BRACKET], [0x7D], []); }
    SkipReads(a, js + ([BRACKET] + [0x7D]));
    ArrayReads(ReadGroup, texts, View(t), [0x7D]);
  }

  // ── In pieces ────────────────────────────────────────────────────────────

  function Comma(some: bool): seq<Byte> {
    if some then [0x2C] else []
  }

  lemma MembersNext(t: seq<Row>, g: nat, d: nat)
    requires d < |t|
    ensures Members(t[..d + 1], g) == if g in t[d].gids then Members(t[..d], g) + [t[d].ieee] else Members(t[..d], g)
  {
    assert t[..d + 1][..d] == t[..d];
    assert Members(t[..d], g) + [] == Members(t[..d], g);
  }

  lemma DeviceListNext(ds: seq<nat>, d: nat)
    ensures Join(0x2C, DeviceTexts(ds + [d])) == Join(0x2C, DeviceTexts(ds)) + Comma(ds != []) + DeviceText(d)
  {
    var texts := DeviceTexts(ds);
    assert DeviceTexts(ds + [d]) == texts + [DeviceText(d)];
    JoinAppend(0x2C, texts, DeviceText(d));
    if ds == [] { assert [] + [] + DeviceText(d) == DeviceText(d); }
  }

  // One more row of a group.
  lemma GroupNext(t: seq<Row>, g: nat, d: nat)
    requires d < |t|
    ensures g in t[d].gids ==>
              GroupUpTo(t[..d + 1], g) == GroupUpTo(t[..d], g) + Comma(Members(t[..d], g) != []) + DeviceText(t[d].ieee)
    ensures g !in t[d].gids ==> GroupUpTo(t[..d + 1], g) == GroupUpTo(t[..d], g)
  {
    MembersNext(t, g, d);
    if g in t[d].gids {
      var head, ds := Ascii("{\"gid\":") + Dec(g) + Ascii(",\"members\":["), Members(t[..d], g);
      DeviceListNext(ds, t[d].ieee);
      Regroup(head, Join(0x2C, DeviceTexts(ds)), Comma(ds != []), DeviceText(t[d].ieee));
    }
  }

  lemma Regroup(a: seq<Byte>, b: seq<Byte>, c: seq<Byte>, d: seq<Byte>)
    ensures a + (b + c + d) == a + b + c + d
  {
  }

  // One more group of the view.
  lemma ViewNext(t: seq<Row>, gs: seq<nat>, i: nat)
    requires i < |gs|
    ensures ViewUpTo(t, gs[..i + 1]) == ViewUpTo(t, gs[..i]) + Comma(i > 0) + GroupText(t, gs[i])
  {
    var texts := GroupTexts(t, gs[..i]);
    assert GroupTexts(t, gs[..i + 1]) == texts + [GroupText(t, gs[i])];
    JoinAppend(0x2C, texts, GroupText(t, gs[i]));
  }
}
