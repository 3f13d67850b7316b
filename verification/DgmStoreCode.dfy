// dgm_store.cpp as code over its entry array: shifts, swaps and the insertion sort in
// place, each operation proved equal to the table function.
module DgmStoreCode {
  import opened Common
  import opened DgmStore
  import opened DgmByGid
  import opened Format
  import opened JsonWriter

  type Slots = s: seq<nat> | |s| == 16 witness seq(16, _ => 0)

  datatype Entry = Entry(ieee: nat, count: nat, gids: Slots)

  predicate EntryOk(e: Entry) {
    e.count <= MAX_GIDS
  }

  function RowOf(e: Entry): Row
    requires EntryOk(e)
  {
    Row(e.ieee, e.gids[..e.count])
  }

  lemma FindPrefix(t: seq<Row>, n: nat, d: nat)
    requires n <= |t| && Find(t[..n], d).Some?
    ensures Find(t, d) == Find(t[..n], d)
    decreases |t| - n
  {
    if n < |t| {
      assert t[..n + 1][..n] == t[..n];
      FindPrefix(t, n + 1, d);
    } else {
      assert t[..n] == t;
    }
  }

  // The list with element j closed up as far as k.
  function Shifted(a: seq<nat>, j: nat, k: nat): seq<nat>
    requires j <= k < |a|
  {
    a[..j] + a[j + 1..k + 1] + a[k..]
  }

  lemma ShiftStep(a: seq<nat>, j: nat, k: nat)
    requires j <= k && k + 1 < |a|
    ensures var s := Shifted(a, j, k); |s| == |a| && s[k := s[k + 1]] == Shifted(a, j, k + 1)
  {
    var s, r := Shifted(a, j, k), Shifted(a, j, k + 1);
    assert |s| == |a| && |r| == |a|;
    assert s[k + 1] == a[k + 1];
    forall x | 0 <= x < |a| ensures s[k := s[k + 1]][x] == r[x] {
      if x < j {} else if x < k {
        assert r[x] == a[x + 1];
      } else if x == k {
        assert r[x] == a[j + 1..k + 2][k - j];
      } else {
        assert r[x] == a[x];
      }
    }
  }

  lemma ShiftDone(a: seq<nat>, j: nat, count: nat)
    requires j < count <= |a|
    ensures Shifted(a, j, count - 1)[..count - 1] == a[..count][..j] + a[..count][j + 1..]
  {
  }

  class Table {
    const devs: array<Entry>
    var n: nat

    ghost predicate Ok()
      reads this, devs
    {
      devs.Length == MAX_DEVS && n <= MAX_DEVS && forall i :: 0 <= i < n ==> EntryOk(devs[i])
    }

    ghost function Rows(): (r: seq<Row>)
      requires Ok()
      reads this, devs
      ensures |r| == n && forall i :: 0 <= i < n ==> r[i] == RowOf(devs[i])
    {
      seq(n, i requires 0 <= i < n reads this, devs requires Ok() => RowOf(devs[i]))
    }

    constructor ()
      ensures Ok() && Rows() == [] && fresh(devs)
    {
      devs, n := new Entry[MAX_DEVS](_ => Entry(0, 0, seq(16, _ => 0))), 0;
    }

    // dgm_find
    method FindDev(d: nat) returns (r: Option<nat>)
      requires Ok()
      ensures r == Find(Rows(), d)
    {
      var i := 0;
      while i < n
        invariant i <= n
        invariant Find(Rows()[..i], d) == None
      {
        assert Rows()[..i + 1][..i] == Rows()[..i];
        if devs[i].ieee == d {
          FindPrefix(Rows(), i + 1, d);
          return Some(i);
        }
        i := i + 1;
      }
      assert Rows()[..i] == Rows();
      return None;
    }

    // dgm_has
    method Has(i: nat, g: nat) returns (r: bool)
      requires Ok() && i < n
      ensures r == (g in Rows()[i].gids)
    {
      var e := devs[i];
      var k := 0;
      while k < e.count
        invariant k <= e.count && g !in e.gids[..k]
      {
        if e.gids[k] == g {
          assert RowOf(e).gids[k] == g;
          return true;
        }
        assert e.gids[..k + 1] == e.gids[..k] + [e.gids[k]];
        k := k + 1;
      }
      return false;
    }

    // dgm_tbl_add
    method AddGid(d: nat, g: nat) returns (changed: bool)
      requires Ok()
      modifies this`n, devs
      ensures Ok() && (Rows(), changed) == Add(old(Rows()), d, g)
    {
      var r := FindDev(d);
      if r.Some? {
        var i := r.value;
        var has := Has(i, g);
        if has || devs[i].count >= MAX_GIDS { return false; }
        var e := devs[i];
        devs[i] := e.(gids := e.gids[e.count := g], count := e.count + 1);
        assert RowOf(devs[i]) == Row(d, RowOf(e).gids + [g]);
        assert Rows() == old(Rows())[i := RowOf(devs[i])];
        return true;
      }
      if n >= MAX_DEVS { return false; }
      devs[n] := Entry(d, 1, devs[n].gids[0 := g]);
      assert RowOf(devs[n]) == Row(d, [g]);
      n := n + 1;
      assert Rows() == old(Rows()) + [Row(d, [g])];
      return true;
    }

    // dgm_tbl_forget
    method ForgetDev(d: nat) returns (changed: bool)
      requires Ok()
      modifies this`n, devs
      ensures Ok() && (Rows(), changed) == Forget(old(Rows()), d)
    {
      var r := FindDev(d);
      if r.None? { return false; }
      var i := r.value;
      devs[i] := devs[n - 1];
      n := n - 1;
      ghost var was := old(Rows());
      assert Rows() == was[i := was[|was| - 1]][..|was| - 1];
      return true;
    }

    // dgm_tbl_remove: the shift that closes the gap at j.
    method Shift(i: nat, j: nat)
      requires Ok() && i < n && j < devs[i].count
      modifies devs
      ensures Ok() && n == old(n)
      ensures var was := old(Rows()); Rows() == was[i := Row(was[i].ieee, was[i].gids[..j] + was[i].gids[j + 1..])]
    {
      ghost var was := Rows();
      var e := devs[i];
      assert EntryOk(e) && was[i] == RowOf(e);
      var gids: Slots := e.gids;
      var k := j;
      while k + 1 < e.count
        invariant j <= k < e.count <= MAX_GIDS && devs[..] == old(devs[..])
        invariant gids == Shifted(e.gids, j, k)
      {
        ShiftStep(e.gids, j, k);
        gids := gids[k := gids[k + 1]];
        k := k + 1;
      }
      devs[i] := Entry(e.ieee, e.count - 1, gids);
      ShiftDone(e.gids, j, e.count);
      assert Rows() == was[i := RowOf(devs[i])];
    }

    // dgm_tbl_remove
    method RemoveGid(d: nat, g: nat) returns (changed: bool)
      requires Ok()
      modifies this`n, devs
      ensures Ok() && (Rows(), changed) == Remove(old(Rows()), d, g)
    {
      var r := FindDev(d);
      if r.None? { return false; }
      var i := r.value;
      ghost var gids := Rows()[i].gids;
      var j := 0;
      while j < devs[i].count && devs[i].gids[j] != g
        invariant j <= devs[i].count && g !in gids[..j]
      {
        assert gids[..j + 1] == gids[..j] + [gids[j]];
        j := j + 1;
      }
      if j == devs[i].count {
        assert gids[..j] == gids;
        return false;
      }
      assert gids[j] == g;
      WithoutAt(gids, g, j);
      Shift(i, j);
      if devs[i].count == 0 {
        var _ := ForgetDev(d);
      }
      return true;
    }

    // dgm_tbl_list
    method ListGids(d: nat, out: array<nat>, max: nat) returns (k: nat)
      requires Ok() && max <= out.Length
      modifies out
      ensures k == |List(old(Rows()), d, max)| <= out.Length && out[..k] == List(old(Rows()), d, max)
    {
      ghost var rows := Rows();
      var r := FindDev(d);
      if r.None? { return 0; }
      var e := devs[r.value];
      var m := if e.count < max then e.count else max;
      k := 0;
      while k < m
        invariant k <= m && out[..k] == e.gids[..k]
      {
        out[k] := e.gids[k];
        k := k + 1;
      }
      assert e.gids[..k] == rows[r.value].gids[..k];
    }

    // dgm_tbl_set
    method SetGids(d: nat, gs: seq<nat>) returns (changed: bool)
      requires Ok()
      modifies this`n, devs
      ensures Ok() && (Rows(), changed) == Set(old(Rows()), d, gs)
    {
      changed := ForgetDev(d);
      ghost var t, had := Rows(), changed;
      var i := 0;
      while i < |gs|
        invariant i <= |gs| && Ok()
        invariant Rows() == AddAll(t, d, gs[..i]).0 && changed == (had || AddAll(t, d, gs[..i]).1)
      {
        var c := AddGid(d, gs[i]);
        assert gs[..i + 1][..i] == gs[..i];
        changed := changed || c;
        i := i + 1;
      }
      assert gs[..i] == gs;
    }
  }

  lemma {:induction false} WithoutAt(gids: seq<nat>, g: nat, j: nat)
    requires j < |gids| && gids[j] == g && g !in gids[..j]
    ensures Without(gids, g) == gids[..j] + gids[j + 1..]
  {
    if j > 0 {
      assert gids[..j][0] == gids[0] && gids[..j][1..] == gids[1..][..j - 1];
      WithoutAt(gids[1..], g, j - 1);
      assert gids[1..][j..] == gids[j + 1..];
    }
  }

  // ── The by-group view ────────────────────────────────────────────────────

  method FindPos(gids: array<nat>, ng: nat, g: nat) returns (pos: nat)
    requires ng <= gids.Length
    ensures pos == PosOf(gids[..ng], g)
  {
    ghost var s := gids[..ng];
    pos := 0;
    while pos < ng && gids[pos] < g
      invariant pos <= ng && PosOf(s, g) == pos + PosOf(s[pos..], g)
    {
      assert s[pos..][1..] == s[pos + 1..];
      pos := pos + 1;
    }
  }

  // Room at pos: the tail moves up by one.
  method OpenGap(gids: array<nat>, ng: nat, pos: nat)
    requires pos <= ng < gids.Length
    modifies gids
    ensures gids[..pos] == old(gids[..pos]) && gids[pos + 1..ng + 1] == old(gids[pos..ng])
  {
    var m := ng;
    while m > pos
      invariant pos <= m <= ng
      invariant forall x :: 0 <= x < gids.Length ==> gids[x] == if m < x <= ng then old(gids[x - 1]) else old(gids[x])
    {
      gids[m] := gids[m - 1];
      m := m - 1;
    }
  }

  // One id into the ascending list gids[..ng].
  method InsertGid(gids: array<nat>, ng: nat, g: nat) returns (ng': nat)
    requires ng <= gids.Length == DgmByGid.MAX_GROUPS
    modifies gids
    ensures ng' <= gids.Length && gids[..ng'] == Insert(old(gids[..ng]), g)
  {
    ghost var s := gids[..ng];
    var pos := FindPos(gids, ng, g);
    if pos < ng && gids[pos] == g { return ng; }
    if ng >= DgmByGid.MAX_GROUPS { return ng; }
    OpenGap(gids, ng, pos);
    gids[pos] := g;
    assert gids[..pos] == s[..pos] && gids[pos + 1..ng + 1] == s[pos..];
    assert gids[..ng + 1] == gids[..pos] + [gids[pos]] + gids[pos + 1..ng + 1];
    return ng + 1;
  }

  lemma ScanStep(t: seq<Row>, d: nat)
    requires d < |t|
    ensures Scan(t[..d + 1]) == Scan(t[..d]) + t[d].gids
  {
    assert t[..d + 1][..d] == t[..d];
  }

  lemma CollectedSnoc(scan: seq<nat>, g: nat)
    ensures Collected(scan + [g]) == Insert(Collected(scan), g)
  {
    assert (scan + [g])[..|scan|] == scan;
  }

  lemma CollectedStep(scan: seq<nat>, gs: seq<nat>, k: nat)
    requires k < |gs|
    ensures Collected(scan + gs[..k + 1]) == Insert(Collected(scan + gs[..k]), gs[k])
  {
    CollectedSnoc(scan + gs[..k], gs[k]);
    assert scan + gs[..k] + [gs[k]] == scan + gs[..k + 1];
  }

  // The collecting loop over one row.
  method CollectRow(e: Entry, gids: array<nat>, ng: nat, ghost scan: seq<nat>) returns (ng': nat)
    requires EntryOk(e) && ng <= gids.Length == DgmByGid.MAX_GROUPS && gids[..ng] == Collected(scan)
    modifies gids
    ensures ng' <= gids.Length && gids[..ng'] == Collected(scan + RowOf(e).gids)
  {
    ghost var row := RowOf(e).gids;
    ng' := ng;
    var k := 0;
    assert scan + row[..0] == scan;
    while k < e.count
      invariant k <= e.count && ng' <= gids.Length
      invariant gids[..ng'] == Collected(scan + row[..k])
    {
      CollectedStep(scan, row, k);
      ng' := InsertGid(gids, ng', e.gids[k]);
      k := k + 1;
    }
    assert row[..k] == row;
  }

  // The collecting loops.
  method CollectGids(tab: Table, gids: array<nat>) returns (ng: nat)
    requires tab.Ok() && gids.Length == DgmByGid.MAX_GROUPS
    modifies gids
    ensures tab.Ok() && tab.Rows() == old(tab.Rows())
    ensures ng <= gids.Length && gids[..ng] == Listed(tab.Rows())
  {
    ghost var t := tab.Rows();
    ng := 0;
    var d := 0;
    while d < tab.n
      invariant tab.Ok() && tab.Rows() == t && d <= tab.n && ng <= gids.Length
      invariant gids[..ng] == Collected(Scan(t[..d]))
    {
      ng := CollectRow(tab.devs[d], gids, ng, Scan(t[..d]));
      ScanStep(t, d);
      d := d + 1;
    }
    assert t[..d] == t;
  }

  function GroupHead(g: nat): seq<Byte> {
    Ascii("{\"gid\":") + Dec(g) + Ascii(",\"members\":[")
  }

  lemma GroupStarts(t: seq<Row>, g: nat)
    ensures GroupUpTo(t[..0], g) == GroupHead(g) && Members(t[..0], g) == []
  {
    assert t[..0] == [] && DeviceTexts([]) == [];
  }

  // One row of one group: its device, if it is a member.
  method PutMember(w: Writer, tab: Table, g: nat, d: nat, first: bool, ghost cap: nat, ghost base: seq<Byte>, ghost t: seq<Row>)
    returns (has: bool)
    requires w.Valid() && w.cap == cap && tab.Ok() && t == tab.Rows() && d < tab.n
    requires Asked(w.View(), cap, base + GroupUpTo(t[..d], g)) && first == (Members(t[..d], g) == [])
    modifies w`pos, w`ok, w.buf
    ensures w.Valid() && w.buf[w.cap..] == old(w.buf[w.cap..])
    ensures tab.Ok() && tab.Rows() == t && tab.n == old(tab.n) && has == (g in t[d].gids)
    ensures Asked(w.View(), cap, base + GroupUpTo(t[..d + 1], g))
    ensures (first && !has) == (Members(t[..d + 1], g) == [])
  {
    MembersNext(t, g, d);
    GroupNext(t, g, d);
    has := tab.Has(d, g);
    if has {
      Regroup(base, GroupUpTo(t[..d], g), Comma(!first), DeviceText(t[d].ieee));
      PutDevice(w, tab.devs[d].ieee, first, cap, base + GroupUpTo(t[..d], g));
    }
  }

  // The device loop of one group.
  method PutMembers(w: Writer, tab: Table, g: nat, ghost cap: nat, ghost base: seq<Byte>, ghost t: seq<Row>)
    requires w.Valid() && w.cap == cap && tab.Ok() && t == tab.Rows() && Asked(w.View(), cap, base + GroupHead(g))
    modifies w`pos, w`ok, w.buf
    ensures w.Valid() && w.buf[w.cap..] == old(w.buf[w.cap..])
    ensures tab.Ok() && tab.Rows() == t && Asked(w.View(), cap, base + GroupUpTo(t, g))
  {
    var first, d := true, 0;
    GroupStarts(t, g);
    while d < tab.n
      invariant w.Valid() && w.buf[w.cap..] == old(w.buf[w.cap..])
      invariant tab.Ok() && tab.Rows() == t && d <= tab.n
      invariant first == (Members(t[..d], g) == [])
      invariant Asked(w.View(), cap, base + GroupUpTo(t[..d], g))
    {
      var has := PutMember(w, tab, g, d, first, cap, base, t);
      if has { first := false; }
      d := d + 1;
    }
    assert t[..d] == t;
  }

  // One group of the response, after `base`.
  method PutGroup(w: Writer, tab: Table, g: nat, ghost cap: nat, ghost base: seq<Byte>, ghost t: seq<Row>)
    requires w.Valid() && w.cap == cap && tab.Ok() && t == tab.Rows() && Asked(w.View(), cap, base)
    modifies w`pos, w`ok, w.buf
    ensures w.Valid() && w.buf[w.cap..] == old(w.buf[w.cap..])
    ensures tab.Ok() && tab.Rows() == t && Asked(w.View(), cap, base + GroupText(t, g))
  {
    ghost var w0 := w.View();
    w.Fmt(Ascii("{\"gid\":") + Dec(g) + Ascii(",\"members\":["));
    AskedMore(w0, w.View(), cap, base, GroupHead(g));
    PutMembers(w, tab, g, cap, base, t);
    ghost var w1 := w.View();
    w.RawN(Ascii("]}"));
    AskedMore(w1, w.View(), cap, base + GroupUpTo(t, g), Ascii("]}"));
    assert base + GroupText(t, g) == base + GroupUpTo(t, g) + Ascii("]}");
  }

  method PutComma(w: Writer, some: bool, ghost cap: nat, ghost base: seq<Byte>)
    requires w.Valid() && w.cap == cap && Asked(w.View(), cap, base)
    modifies w`pos, w`ok, w.buf
    ensures w.Valid() && w.buf[w.cap..] == old(w.buf[w.cap..])
    ensures Asked(w.View(), cap, base + Comma(some))
  {
    ghost var w0 := w.View();
    if some {
      w.Ch(0x2C);
      AskedMore(w0, w.View(), cap, base, [0x2C]);
    } else {
      assert base + [] == base;
    }
  }

  method PutDevice(w: Writer, ieee: nat, first: bool, ghost cap: nat, ghost base: seq<Byte>)
    requires w.Valid() && w.cap == cap && Asked(w.View(), cap, base)
    modifies w`pos, w`ok, w.buf
    ensures w.Valid() && w.buf[w.cap..] == old(w.buf[w.cap..])
    ensures Asked(w.View(), cap, base + Comma(!first) + DeviceText(ieee))
  {
    PutComma(w, !first, cap, base);
    ghost var w1 := w.View();
    w.Fmt(DeviceText(ieee));
    AskedMore(w1, w.View(), cap, base + Comma(!first), DeviceText(ieee));
  }

  lemma ViewStarts(t: seq<Row>, gs: seq<nat>)
    ensures ViewUpTo(t, gs[..0]) == Ascii("{\"groups\":[")
  {
    assert gs[..0] == [] && GroupTexts(t, []) == [];
  }

  // The group loop.
  method PutGroups(w: Writer, tab: Table, gids: array<nat>, ng: nat, ghost cap: nat, ghost t: seq<Row>, ghost gs: seq<nat>)
    requires w.Valid() && w.cap == cap && tab.Ok() && t == tab.Rows() && ng <= gids.Length && gids[..ng] == gs
    requires Asked(w.View(), cap, ViewUpTo(t, gs[..0]))
    modifies w`pos, w`ok, w.buf
    ensures w.Valid() && w.buf[w.cap..] == old(w.buf[w.cap..])
    ensures tab.Ok() && tab.Rows() == t && Asked(w.View(), cap, ViewUpTo(t, gs))
  {
    var i := 0;
    while i < ng
      invariant i <= ng && w.Valid() && w.buf[w.cap..] == old(w.buf[w.cap..])
      invariant tab.Ok() && tab.Rows() == t && gids[..ng] == gs
      invariant Asked(w.View(), cap, ViewUpTo(t, gs[..i]))
    {
      ghost var base := ViewUpTo(t, gs[..i]);
      ViewNext(t, gs, i);
      PutComma(w, i > 0, cap, base);
      PutGroup(w, tab, gids[i], cap, base + Comma(i > 0), t);
      i := i + 1;
    }
    assert gs[..i] == gs;
  }

  // dgm_all_json: the whole response, exactly when it fits.
  method AllJson(tab: Table, buf: array<Byte>, cap: nat) returns (len: nat)
    requires tab.Ok() && cap <= buf.Length
    modifies buf
    ensures tab.Ok() && tab.Rows() == old(tab.Rows())
    ensures len == if |ViewText(tab.Rows())| <= cap then |ViewText(tab.Rows())| else 0
    ensures len > 0 ==> buf[..len] == ViewText(tab.Rows())
    ensures buf[cap..] == old(buf[cap..])
  {
    ghost var t := tab.Rows();
    var gids := new nat[DgmByGid.MAX_GROUPS];
    var ng := CollectGids(tab, gids);
    ghost var gs := gids[..ng];
    var w := new Writer(buf, cap);
    w.RawN(Ascii("{\"groups\":["));
    assert Append(Start(cap), []) == Start(cap);
    AskedMore(Start(cap), w.View(), cap, [], Ascii("{\"groups\":["));
    assert [] + Ascii("{\"groups\":[") == Ascii("{\"groups\":[");
    ViewStarts(t, gs);
    PutGroups(w, tab, gids, ng, cap, t, gs);
    ghost var w1 := w.View();
    w.RawN(Ascii("]}"));
    AskedAll(w1, cap, ViewUpTo(t, gs), Ascii("]}"));
    len := w.Finished();
  }
}
