// main/dgm_store.cpp: which groups each device is in.  The table of rows against a
// map from device to its duplicate-free list of groups.
module DgmStore {
  import opened Common

  const MAX_GIDS: nat := 16
  const MAX_DEVS: nat := 64

  // A tracked device: the first `count` of its group ids.
  datatype Row = Row(ieee: nat, gids: seq<nat>)

  // dgm_find
  function Find(t: seq<Row>, d: nat): (r: Option<nat>)
    ensures r.Some? ==> r.value < |t| && t[r.value].ieee == d
    ensures r.Some? ==> forall i :: 0 <= i < r.value ==> t[i].ieee != d
    ensures r.None? ==> forall i :: 0 <= i < |t| ==> t[i].ieee != d
  {
    if t == [] then None
    else
      var r := Find(t[..|t| - 1], d);
      if r.Some? then r else if t[|t| - 1].ieee == d then Some(|t| - 1) else None
  }

  // ── The table operations ─────────────────────────────────────────────────

  // dgm_tbl_add
  function Add(t: seq<Row>, d: nat, g: nat): (seq<Row>, bool) {
    match Find(t, d)
    case Some(i) =>
      if g in t[i].gids || |t[i].gids| >= MAX_GIDS then (t, false) else (t[i := Row(d, t[i].gids + [g])], true)
    case None => if |t| >= MAX_DEVS then (t, false) else (t + [Row(d, [g])], true)
  }

  // dgm_tbl_forget: the last row takes the freed place.
  function Forget(t: seq<Row>, d: nat): (seq<Row>, bool) {
    match Find(t, d)
    case Some(i) => (t[i := t[|t| - 1]][..|t| - 1], true)
    case None => (t, false)
  }

  function Without(gids: seq<nat>, g: nat): seq<nat> {
    if gids == [] then [] else if gids[0] == g then gids[1..] else [gids[0]] + Without(gids[1..], g)
  }

  // dgm_tbl_remove: a row left empty is dropped.
  function Remove(t: seq<Row>, d: nat, g: nat): (seq<Row>, bool) {
    match Find(t, d)
    case None => (t, false)
    case Some(i) =>
      if g !in t[i].gids then (t, false)
      else
        var t' := t[i := Row(d, Without(t[i].gids, g))];
        (if t'[i].gids == [] then Forget(t', d).0 else t', true)
  }

  function AddAll(t: seq<Row>, d: nat, gs: seq<nat>): (seq<Row>, bool) {
    if gs == [] then (t, false)
    else
      var before := AddAll(t, d, gs[..|gs| - 1]);
      var last := Add(before.0, d, gs[|gs| - 1]);
      (last.0, before.1 || last.1)
  }

  // dgm_tbl_set
  function Set(t: seq<Row>, d: nat, gs: seq<nat>): (seq<Row>, bool) {
    var f := Forget(t, d);
    var a := AddAll(f.0, d, gs);
    (a.0, f.1 || a.1)
  }

  // dgm_tbl_list
  function List(t: seq<Row>, d: nat, max: nat): seq<nat> {
    match Find(t, d)
    case Some(i) => t[i].gids[..Min(|t[i].gids|, max)]
    case None => []
  }

  // ── What the table stands for ────────────────────────────────────────────

  ghost predicate Valid(t: seq<Row>) {
    && |t| <= MAX_DEVS
    && (forall i :: 0 <= i < |t| ==> Distinct(t[i].gids) && 1 <= |t[i].gids| <= MAX_GIDS)
    && (forall i, j :: 0 <= i < j < |t| ==> t[i].ieee != t[j].ieee)
  }

  predicate Tracked(t: seq<Row>, d: nat) {
    Find(t, d).Some?
  }

  function Devices(t: seq<Row>): set<nat> {
    set i | 0 <= i < |t| :: t[i].ieee
  }

  function Gids(t: seq<Row>, d: nat): seq<nat> {
    match Find(t, d)
    case Some(i) => t[i].gids
    case None => []
  }

  function MapOf(t: seq<Row>): map<nat, seq<nat>> {
    map d | d in Devices(t) :: Gids(t, d)
  }

  lemma DevicesAreTracked(t: seq<Row>, d: nat)
    ensures d in Devices(t) <==> Tracked(t, d)
  {
    if Tracked(t, d) { assert t[Find(t, d).value].ieee in Devices(t); }
  }

  lemma FindAt(t: seq<Row>, i: nat)
    requires Valid(t) && i < |t|
    ensures Find(t, t[i].ieee) == Some(i)
  {
  }

  lemma {:induction false} MapSize(t: seq<Row>)
    requires Valid(t)
    ensures |MapOf(t)| == |t|
  {
    var ids := seq(|t|, i requires 0 <= i < |t| => t[i].ieee);
    DistinctCard(ids);
    assert MapOf(t).Keys == Elements(ids) by {
      forall d ensures d in Elements(ids) <==> d in Devices(t) {
        if d in Devices(t) { var i :| 0 <= i < |t| && t[i].ieee == d; assert ids[i] == d; }
      }
    }
  }

  // The table stands for m.
  ghost predicate Mirrors(t: seq<Row>, m: map<nat, seq<nat>>) {
    && (forall d: nat :: Tracked(t, d) <==> d in m)
    && (forall d: nat :: d in m ==> Gids(t, d) == m[d])
  }

  lemma MapIs(t: seq<Row>, m: map<nat, seq<nat>>)
    requires Mirrors(t, m)
    ensures MapOf(t) == m
  {
    forall d: nat ensures d in MapOf(t) <==> d in m { DevicesAreTracked(t, d); }
  }

  lemma MapMirrors(t: seq<Row>)
    ensures Mirrors(t, MapOf(t))
  {
    forall d: nat ensures Tracked(t, d) <==> d in MapOf(t) { DevicesAreTracked(t, d); }
  }

  // ── The same operations on the map ───────────────────────────────────────

  type Mirror = map<nat, seq<nat>>

  function MapAdd(m: Mirror, d: nat, g: nat): Mirror {
    if d in m then if g in m[d] || |m[d]| >= MAX_GIDS then m else m[d := m[d] + [g]]
    else if |m| >= MAX_DEVS then m
    else m[d := [g]]
  }

  function MapRemove(m: Mirror, d: nat, g: nat): Mirror {
    if d !in m || g !in m[d] then m
    else if Without(m[d], g) == [] then m - {d}
    else m[d := Without(m[d], g)]
  }

  // The first sixteen distinct ids, in order.
  function FirstDistinct(gs: seq<nat>, cap: nat): seq<nat> {
    if gs == [] then []
    else
      var before, g := FirstDistinct(gs[..|gs| - 1], cap), gs[|gs| - 1];
      if g in before || |before| >= cap then before else before + [g]
  }

  function MapSet(m: Mirror, d: nat, gs: seq<nat>): Mirror {
    var rest := m - {d};
    if gs == [] || |rest| >= MAX_DEVS then rest else rest[d := FirstDistinct(gs, MAX_GIDS)]
  }

  // The first row of d is at i.
  lemma FindIs(t: seq<Row>, d: nat, i: nat)
    requires i < |t| && t[i].ieee == d && forall k :: 0 <= k < i ==> t[k].ieee != d
    ensures Find(t, d) == Some(i)
  {
  }

  lemma FindNone(t: seq<Row>, d: nat)
    requires forall k :: 0 <= k < |t| ==> t[k].ieee != d
    ensures Find(t, d).None?
  {
  }

  // Where a device is found depends on the addresses alone.
  lemma FindByAddress(t: seq<Row>, t': seq<Row>, d: nat)
    requires |t'| == |t| && forall k :: 0 <= k < |t| ==> t'[k].ieee == t[k].ieee
    ensures Find(t', d) == Find(t, d)
  {
    if Find(t, d).Some? { FindIs(t', d, Find(t, d).value); } else { FindNone(t', d); }
  }

  // One row replaced: the other rows keep their place and content.
  lemma ReplaceRow(t: seq<Row>, i: nat, gids: seq<nat>)
    requires i < |t| && Find(t, t[i].ieee) == Some(i)
    ensures var t' := t[i := Row(t[i].ieee, gids)];
            && (forall d :: Find(t', d) == Find(t, d))
            && (forall d :: Gids(t', d) == if d == t[i].ieee then gids else Gids(t, d))
  {
    var t' := t[i := Row(t[i].ieee, gids)];
    forall d ensures Find(t', d) == Find(t, d) {
      FindByAddress(t, t', d);
    }
  }

  lemma AppendRow(t: seq<Row>, r: Row)
    requires Find(t, r.ieee).None?
    ensures forall d :: Find(t + [r], d) == if d == r.ieee then Some(|t|) else Find(t, d)
    ensures forall d :: Gids(t + [r], d) == if d == r.ieee then r.gids else Gids(t, d)
  {
    assert (t + [r])[..|t|] == t;
  }

  // Swapping the last row into the gap loses exactly the forgotten device.
  lemma ForgetFind(t: seq<Row>, d: nat)
    requires Valid(t)
    ensures var t' := Forget(t, d).0;
            && Valid(t')
            && (forall x :: Tracked(t', x) <==> Tracked(t, x) && x != d)
            && (forall x :: Tracked(t', x) ==> Gids(t', x) == Gids(t, x))
  {
    var r, t' := Find(t, d), Forget(t, d).0;
    if r.Some? {
      var i, last := r.value, |t| - 1;
      assert forall k :: 0 <= k < last ==> t'[k] == if k == i then t[last] else t[k];
      forall x ensures Tracked(t', x) <==> Tracked(t, x) && x != d
               ensures Tracked(t', x) ==> Gids(t', x) == Gids(t, x)
      {
        if Tracked(t', x) {
          var k := Find(t', x).value;
          FindAt(t, if k == i then last else k);
        }
        if Tracked(t, x) && x != d {
          var k := Find(t, x).value;
          assert t'[if k == last then i else k].ieee == x;
        }
      }
    }
  }

  lemma AddKeepsValid(t: seq<Row>, d: nat, g: nat)
    requires Valid(t)
    ensures Valid(Add(t, d, g).0)
  {
  }

  lemma ReplacedMirrors(t: seq<Row>, m: Mirror, i: nat, gids: seq<nat>)
    requires i < |t| && Find(t, t[i].ieee) == Some(i) && Mirrors(t, m)
    ensures Mirrors(t[i := Row(t[i].ieee, gids)], m[t[i].ieee := gids])
  {
    ReplaceRow(t, i, gids);
  }

  lemma AppendedMirrors(t: seq<Row>, m: Mirror, r: Row)
    requires Find(t, r.ieee).None? && Mirrors(t, m)
    ensures Mirrors(t + [r], m[r.ieee := r.gids])
  {
    AppendRow(t, r);
  }

  lemma AddMirrors(t: seq<Row>, m: Mirror, d: nat, g: nat)
    requires Valid(t) && Mirrors(t, m) && |m| == |t|
    ensures Mirrors(Add(t, d, g).0, MapAdd(m, d, g))
    ensures Add(t, d, g).1 <==> MapAdd(m, d, g) != m
  {
    assert Tracked(t, d) <==> d in m;
    if Tracked(t, d) {
      assert m[d] == Gids(t, d);
      ReplacedMirrors(t, m, Find(t, d).value, Gids(t, d) + [g]);
    } else {
      AppendedMirrors(t, m, Row(d, [g]));
    }
  }

  // Adding is adding to the map, and the answer is whether the map changed.
  lemma AddRefines(t: seq<Row>, d: nat, g: nat)
    requires Valid(t)
    ensures var (t', changed) := Add(t, d, g);
            Valid(t') && MapOf(t') == MapAdd(MapOf(t), d, g) && (changed <==> MapOf(t') != MapOf(t))
  {
    MapSize(t);
    MapMirrors(t);
    AddKeepsValid(t, d, g);
    AddMirrors(t, MapOf(t), d, g);
    MapIs(Add(t, d, g).0, MapAdd(MapOf(t), d, g));
  }

  // Forgetting is removing from the map, and the answer is whether it was there.
  lemma ForgetRefines(t: seq<Row>, d: nat)
    requires Valid(t)
    ensures var (t', changed) := Forget(t, d);
            Valid(t') && MapOf(t') == MapOf(t) - {d} && (changed <==> d in MapOf(t))
  {
    ForgetFind(t, d);
    MapMirrors(t);
    MapIs(Forget(t, d).0, MapOf(t) - {d});
  }

  lemma {:induction false} WithoutIn(gids: seq<nat>, g: nat)
    requires Distinct(gids) && g in gids
    ensures forall x :: x in Without(gids, g) <==> x in gids && x != g
  {
    var rest := gids[1..];
    assert forall x :: x in gids <==> x == gids[0] || x in rest;
    assert gids[0] !in rest && Distinct(rest);
    if gids[0] != g { WithoutIn(rest, g); }
  }

  lemma DistinctCons(x: nat, s: seq<nat>)
    requires Distinct(s) && x !in s
    ensures Distinct([x] + s)
  {
  }

  lemma {:induction false} WithoutDistinct(gids: seq<nat>, g: nat)
    requires Distinct(gids) && g in gids
    ensures Distinct(Without(gids, g)) && |Without(gids, g)| == |gids| - 1
  {
    var rest := gids[1..];
    assert gids[0] !in rest && Distinct(rest);
    if gids[0] != g {
      assert g in rest;
      WithoutDistinct(rest, g);
      WithoutIn(rest, g);
      DistinctCons(gids[0], Without(rest, g));
    }
  }

  lemma RemoveEmptied(t: seq<Row>, i: nat)
    requires Valid(t) && i < |t|
    ensures Forget(t[i := Row(t[i].ieee, [])], t[i].ieee).0 == Forget(t, t[i].ieee).0
  {
    FindAt(t, i);
    ReplaceRow(t, i, []);
    var t', last := t[i := Row(t[i].ieee, [])], |t| - 1;
    assert t'[i := t'[last]][..last] == t[i := t[last]][..last];
  }

  lemma RemoveMirrors(t: seq<Row>, m: Mirror, d: nat, g: nat)
    requires Valid(t) && Mirrors(t, m) && d in m && g in m[d] && Without(m[d], g) != []
    ensures Mirrors(Remove(t, d, g).0, MapRemove(m, d, g)) && Valid(Remove(t, d, g).0)
  {
    assert Tracked(t, d) && m[d] == Gids(t, d);
    var i := Find(t, d).value;
    WithoutDistinct(t[i].gids, g);
    ReplacedMirrors(t, m, i, Without(t[i].gids, g));
  }

  // Removing is removing from the map, a device left without groups included, and the
  // answer is whether the map changed.
  lemma RemoveRefines(t: seq<Row>, d: nat, g: nat)
    requires Valid(t)
    ensures var (t', changed) := Remove(t, d, g);
            Valid(t') && MapOf(t') == MapRemove(MapOf(t), d, g) && (changed <==> MapOf(t') != MapOf(t))
  {
    var m := MapOf(t);
    MapMirrors(t);
    if d in m && g in m[d] {
      WithoutDistinct(m[d], g);
      if Without(m[d], g) == [] {
        RemoveEmptied(t, Find(t, d).value);
        ForgetRefines(t, d);
      } else {
        RemoveMirrors(t, m, d, g);
        MapIs(Remove(t, d, g).0, MapRemove(m, d, g));
      }
    }
  }

  // ── Replacing a list ─────────────────────────────────────────────────────

  function MapAddAll(m: Mirror, d: nat, gs: seq<nat>): Mirror {
    if gs == [] then m else MapAdd(MapAddAll(m, d, gs[..|gs| - 1]), d, gs[|gs| - 1])
  }

  lemma {:induction false} AddAllRefines(t: seq<Row>, d: nat, gs: seq<nat>)
    requires Valid(t)
    ensures Valid(AddAll(t, d, gs).0) && MapOf(AddAll(t, d, gs).0) == MapAddAll(MapOf(t), d, gs)
    ensures d !in MapOf(t) ==> (AddAll(t, d, gs).1 <==> d in MapAddAll(MapOf(t), d, gs))
  {
    if gs != [] {
      AddAllRefines(t, d, gs[..|gs| - 1]);
      AddRefines(AddAll(t, d, gs[..|gs| - 1]).0, d, gs[|gs| - 1]);
    }
  }

  // From nothing, the additions leave the first sixteen distinct ids.
  lemma {:induction false} AddAllIsFirstDistinct(m: Mirror, d: nat, gs: seq<nat>)
    requires d !in m
    ensures MapAddAll(m, d, gs) == if gs == [] || |m| >= MAX_DEVS then m else m[d := FirstDistinct(gs, MAX_GIDS)]
    ensures gs != [] ==> FirstDistinct(gs, MAX_GIDS) != []
  {
    if gs != [] {
      var before, g := gs[..|gs| - 1], gs[|gs| - 1];
      AddAllIsFirstDistinct(m, d, before);
      if |m| < MAX_DEVS {
        var f := FirstDistinct(before, MAX_GIDS);
        assert before == [] ==> f + [g] == [g];
        assert m[d := f][d := f + [g]] == m[d := f + [g]];
      }
    }
  }

  // set leaves the device the first sixteen distinct ids given, and no other device is
  // touched; with no room for a new device it only forgets.
  lemma SetRefines(t: seq<Row>, d: nat, gs: seq<nat>)
    requires Valid(t)
    ensures Valid(Set(t, d, gs).0) && MapOf(Set(t, d, gs).0) == MapSet(MapOf(t), d, gs)
    ensures Set(t, d, gs).1 <==> d in MapOf(t) || d in MapSet(MapOf(t), d, gs)
  {
    ForgetRefines(t, d);
    AddAllRefines(Forget(t, d).0, d, gs);
    AddAllIsFirstDistinct(MapOf(t) - {d}, d, gs);
  }

  lemma MapSetSame(m: Mirror, d: nat, gs: seq<nat>)
    requires d in m && |m| <= MAX_DEVS
    ensures MapSet(m, d, gs) == m <==> gs != [] && FirstDistinct(gs, MAX_GIDS) == m[d]
  {
    var rest := m - {d};
    assert |rest| == |m| - 1 by { assert rest.Keys == m.Keys - {d}; }
    if gs != [] && FirstDistinct(gs, MAX_GIDS) == m[d] {
      assert rest[d := m[d]] == m;
    }
  }

  lemma MapSetNew(m: Mirror, d: nat, gs: seq<nat>)
    requires d !in m
    ensures MapSet(m, d, gs) == m <==> d !in MapSet(m, d, gs)
  {
    assert m - {d} == m;
  }

  // The answer of set is not "the table changed": it is wrong exactly when the device
  // already has the list it is given.
  lemma SetAnswerIff(t: seq<Row>, d: nat, gs: seq<nat>)
    requires Valid(t)
    ensures (Set(t, d, gs).1 <==> MapOf(Set(t, d, gs).0) != MapOf(t)) <==>
            !(d in MapOf(t) && gs != [] && FirstDistinct(gs, MAX_GIDS) == MapOf(t)[d])
  {
    SetRefines(t, d, gs);
    MapSize(t);
    if d in MapOf(t) { MapSetSame(MapOf(t), d, gs); } else { MapSetNew(MapOf(t), d, gs); }
  }

  // For instance: one device in one group, set to that same group.
  lemma SetAnswerCounterexample()
    ensures exists t, d, gs :: Valid(t) && Set(t, d, gs) == (t, true)
  {
    var gs: seq<nat> := [1];
    var t := [Row(7, gs)];
    var none := Forget(t, 7).0;
    assert t[..0] == [] && gs[..0] == [];
    assert Find(t, 7) == Some(0) && none == [];
    assert AddAll(none, 7, gs[..0]) == (none, false);
    assert Find(none, 7) == None;
    assert Add(none, 7, gs[0]) == (none + [Row(7, [gs[0]])], true);
    assert [gs[0]] == gs && none + [Row(7, gs)] == t;
    assert AddAll(none, 7, gs).0 == t;
    assert Set(t, 7, gs) == (t, true);
  }

  // list answers from the map.
  lemma ListRefines(t: seq<Row>, d: nat, max: nat)
    requires Valid(t)
    ensures List(t, d, max) == if d in MapOf(t) then MapOf(t)[d][..Min(|MapOf(t)[d]|, max)] else []
  {
    MapMirrors(t);
  }

  lemma {:induction false} FirstDistinctOk(gs: seq<nat>, cap: nat)
    ensures Distinct(FirstDistinct(gs, cap)) && |FirstDistinct(gs, cap)| <= cap
    ensures forall x :: x in FirstDistinct(gs, cap) ==> x in gs
    ensures |FirstDistinct(gs, cap)| < cap ==> forall x :: x in gs ==> x in FirstDistinct(gs, cap)
  {
    if gs != [] {
      var before, g := FirstDistinct(gs[..|gs| - 1], cap), gs[|gs| - 1];
      FirstDistinctOk(gs[..|gs| - 1], cap);
      assert forall x :: x in gs <==> x == g || x in gs[..|gs| - 1];
      assert forall x :: x in before + [g] <==> x in before || x == g;
    }
  }
}
