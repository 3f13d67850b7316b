// main/groups_store.cpp: stored groups, their JSON, and the slot allocator.
module GroupsStore {
  import opened Common
  import opened Utf8
  import opened Format
  import opened JsonWriter
  import opened JsonReader

  const MAX_MEMBERS: nat := 16
  const MAX_GROUPS: nat := 32
  const NAME_SIZE: nat := 32

  type U16 = n: int | 0 <= n < 0x1_0000
  type U64 = n: int | 0 <= n < 0x1_0000_0000_0000_0000

  datatype Member = Member(ieee: U64, ep: Byte)

  type Name = s: seq<Byte> | |s| == 32 witness seq(32, _ => 0)
  type Members = s: seq<Member> | |s| == 16 witness seq(16, _ => Member(0, 0))

  // A stored record, whatever its bytes: the count may exceed the array and the name
  // may lack its terminator.
  datatype Record = Record(id: U16, name: Name, count: Byte, members: Members)

  // ── The JSON of a record ─────────────────────────────────────────────────

  function MemberText(m: Member): seq<Byte> {
    Ascii("{\"ieee\":\"0x") + HexUpper(m.ieee, 16) + Ascii("\",\"ep\":") + Dec(m.ep) + [0x7D]
  }

  lemma MemberShort(m: Member)
    ensures 1 <= |MemberText(m)| <= 38
  {
    DecShort(m.ep);
  }

  function Listed(r: Record): (n: nat)
    ensures n <= MAX_MEMBERS
  {
    if r.count > MAX_MEMBERS then MAX_MEMBERS else r.count
  }

  function MemberTexts(ms: seq<Member>): (r: seq<seq<Byte>>)
    ensures |r| == |ms| && forall i :: 0 <= i < |ms| ==> r[i] == MemberText(ms[i])
  {
    seq(|ms|, i requires 0 <= i < |ms| => MemberText(ms[i]))
  }

  function HeadText(r: Record): seq<Byte> {
    Ascii("{\"id\":") + Dec(r.id) + Ascii(",\"name\":\"")
  }

  // Everything up to and including the first n members.
  function TextUpTo(r: Record, n: nat): seq<Byte>
    requires n <= MAX_MEMBERS
  {
    HeadText(r) + Escape(Text(r.name, NAME_SIZE)) + Ascii("\",\"members\":[")
      + Join(0x2C, MemberTexts(r.members[..n]))
  }

  // The JSON object of a record.
  function GroupText(r: Record): seq<Byte> {
    TextUpTo(r, Listed(r)) + Ascii("]}")
  }

  lemma {:induction false} JoinShort(items: seq<seq<Byte>>, bound: nat)
    requires forall i :: 0 <= i < |items| ==> |items[i]| <= bound
    ensures items != [] ==> |Join(0x2C, items)| <= |items| * (bound + 1) - 1
    ensures items == [] ==> Join(0x2C, items) == []
  {
    if |items| > 1 { JoinShort(items[1..], bound); }
  }

  // Any record at all serialises in at most 850 bytes, because `str` expands at most
  // sixfold and the count is clamped.
  lemma GroupShort(r: Record)
    ensures 2 <= |GroupText(r)| <= 850
  {
    hide MemberText, Join, Dec, Text, Escape;
    DecShort(r.id);
    TextEnds(r.name, NAME_SIZE);
    EscapeExpands(Text(r.name, NAME_SIZE));
    var ms := MemberTexts(r.members[..Listed(r)]);
    forall i | 0 <= i < |ms| ensures |ms[i]| <= 38 { MemberShort(r.members[i]); }
    JoinShort(ms, 38);
  }

  // ── Reading it back ──────────────────────────────────────────────────────

  function ReadMember(s: seq<Byte>): Option<(Member, seq<Byte>)> {
    var s1 :- Skip(Ascii("{\"ieee\":\"0x"), s);
    var (ieee, s2) :- HexNumber(s1, 16);
    var s3 :- Skip(Ascii("\",\"ep\":"), s2);
    var (ep, s4) :- Number(s3);
    var s5 :- Skip([0x7D], s4);
    if ieee < 0x1_0000_0000_0000_0000 && ep < 256 then Some((Member(ieee, ep), s5)) else None
  }

  // What a group object says: its id, its name and its members.
  function ReadGroup(s: seq<Byte>): Option<(nat, seq<Byte>, seq<Member>)> {
    var s1 :- Skip(Ascii("{\"id\":"), s);
    var (id, s2) :- Number(s1);
    var s3 :- Skip(Ascii(",\"name\":\""), s2);
    var (name, s4) :- StringBody(s3);
    var s5 :- Skip(Ascii(",\"members\":["), s4);
    var (ms, s6) :- Array(s5, ReadMember);
    if s6 == [0x7D] then Some((id, name, ms)) else None
  }

  // Appending piece by piece, as the writer does, against taking piece by piece.
  lemma Nest(a: seq<Byte>, b: seq<Byte>, c: seq<Byte>, d: seq<Byte>, e: seq<Byte>, rest: seq<Byte>)
    ensures a + b + c + d + e + rest == a + (b + (c + (d + (e + rest))))
  {
  }

  lemma MemberReads(m: Member)
    ensures Reads(ReadMember, MemberText(m), m)
  {
    forall rest ensures ReadMember(MemberText(m) + rest) == Some((m, rest)) {
      var a, b := Ascii("{\"ieee\":\"0x"), Ascii("\",\"ep\":");
      var s5 := [0x7D] + rest;
      var s3 := Dec(m.ep) + s5;
      hide Ascii, Skip, Number, HexNumber, Dec, HexUpper;
      Nest(a, HexUpper(m.ieee, 16), b, Dec(m.ep), [0x7D], rest);
      SkipReads(a, HexUpper(m.ieee, 16) + (b + s3));
      HexReads(m.ieee, b + s3);
      SkipReads(b, s3);
      NumberReads(m.ep, s5);
      SkipReads([0x7D], rest);
    }
  }

  lemma Punctuation()
    ensures Ascii("\",\"members\":[") == [QUOTE] + Ascii(",\"members\":[") && Ascii("]}") == [BRACKET] + [0x7D]
    ensures Ascii(",\"name\":\"")[0] == 0x2C && Ascii("{\"ieee\":\"0x")[0] == 0x7B
  {
  }

  lemma NestAll(a: seq<Byte>, b: seq<Byte>, c: seq<Byte>, d: seq<Byte>, q: seq<Byte>, e: seq<Byte>, js: seq<Byte>, end: seq<Byte>)
    ensures (a + b + c) + d + (q + e) + js + end == a + (b + (c + (d + (q + (e + (js + end))))))
  {
    Nest(a, b, c, d, q + e, js + end);
    assert (q + e) + (js + end) == q + (e + (js + end));
    assert (a + b + c) + d + (q + e) + js + end == (a + b + c) + d + (q + e) + (js + end);
  }

  // The text splits into what the reader takes one by one.
  lemma GroupSplits(r: Record)
    ensures var js := Join(0x2C, MemberTexts(r.members[..Listed(r)]));
            var s3 := Escape(Text(r.name, NAME_SIZE)) + ([QUOTE] + (Ascii(",\"members\":[") + (js + ([BRACKET] + [0x7D]))));
            GroupText(r) == Ascii("{\"id\":") + (Dec(r.id) + (Ascii(",\"name\":\"") + s3))
  {
    Punctuation();
    hide Ascii, Dec, Escape, Text, Join, MemberTexts;
    NestAll(Ascii("{\"id\":"), Dec(r.id), Ascii(",\"name\":\""), Escape(Text(r.name, NAME_SIZE)), [QUOTE],
            Ascii(",\"members\":["), Join(0x2C, MemberTexts(r.members[..Listed(r)])), [BRACKET] + [0x7D]);
  }

  // Whatever the record, its object says what the record does: the id, the sanitised
  // name up to its NUL, and the listed members, in order.
  lemma GroupReadsBack(r: Record)
    ensures ReadGroup(GroupText(r)) == Some((r.id, Sanitize(Text(r.name, NAME_SIZE)), r.members[..Listed(r)]))
  {
    var ms := r.members[..Listed(r)];
    var texts := MemberTexts(ms);
    var s5 := Join(0x2C, texts) + ([BRACKET] + [0x7D]);
    var s4 := Ascii(",\"members\":[") + s5;
    var s3 := Escape(Text(r.name, NAME_SIZE)) + ([QUOTE] + s4);
    var s2 := Ascii(",\"name\":\"") + s3;
    GroupSplits(r);
    Punctuation();
    forall i | 0 <= i < |ms| ensures Reads(ReadMember, texts[i], ms[i]) && texts[i] != [] && texts[i][0] != BRACKET {
      MemberReads(ms[i]);
    }
    hide Ascii, Skip, Number, StringBody, Array, Text, Escape, Sanitize, Join, MemberText, GroupText;
    SkipReads(Ascii("{\"id\":"), Dec(r.id) + s2);
    NumberReads(r.id, s2);
    SkipReads(Ascii(",\"name\":\""), s3);
    StringReads(Text(r.name, NAME_SIZE), s4);
    SkipReads(Ascii(",\"members\":["), s5);
    ArrayReads(ReadMember, texts, ms, [0x7D]);
  }

  // ── Writing ──────────────────────────────────────────────────────────────

  lemma TextNext(r: Record, n: nat)
    requires n < MAX_MEMBERS
    ensures TextUpTo(r, n + 1) == TextUpTo(r, n) + (if n > 0 then [0x2C] else []) + MemberText(r.members[n])
  {
    hide MemberText, HeadText, Escape, Text, Join, Ascii;
    var ms := MemberTexts(r.members[..n]);
    assert MemberTexts(r.members[..n + 1]) == ms + [MemberText(r.members[n])];
    JoinNext(HeadText(r) + Escape(Text(r.name, NAME_SIZE)) + Ascii("\",\"members\":["), ms, MemberText(r.members[n]));
  }

  lemma Appended(head: seq<Byte>, js: seq<Byte>, comma: seq<Byte>, last: seq<Byte>)
    ensures head + (js + comma + last) == head + js + comma + last
  {
  }

  lemma JoinLast(items: seq<seq<Byte>>, last: seq<Byte>)
    ensures Join(0x2C, items + [last]) == Join(0x2C, items) + (if |items| > 0 then [0x2C] else []) + last
  {
    JoinAppend(0x2C, items, last);
    if items == [] { assert Join(0x2C, items) + [] + last == last; }
  }

  lemma JoinNext(head: seq<Byte>, items: seq<seq<Byte>>, last: seq<Byte>)
    ensures head + Join(0x2C, items + [last]) == head + Join(0x2C, items) + (if |items| > 0 then [0x2C] else []) + last
  {
    hide Join;
    JoinLast(items, last);
    Appended(head, Join(0x2C, items), if |items| > 0 then [0x2C] else [], last);
  }

  // One member of the list, and the comma before it.
  method PutMember(w: Writer, r: Record, i: nat, ghost cap: nat)
    requires w.Valid() && i < MAX_MEMBERS && w.cap == cap && Asked(w.View(), cap, TextUpTo(r, i))
    modifies w`pos, w`ok, w.buf
    ensures w.Valid() && Asked(w.View(), cap, TextUpTo(r, i + 1))
    ensures w.buf[w.cap..] == old(w.buf[w.cap..])
  {
    ghost var t := TextUpTo(r, i);
    ghost var w0 := w.View();
    TextNext(r, i);
    if i > 0 {
      w.Ch(0x2C);
      AskedMore(w0, w.View(), cap, t, [0x2C]);
      t := t + [0x2C];
    } else {
      assert t + [] == t;
    }
    ghost var w1 := w.View();
    w.Fmt(MemberText(r.members[i]));
    AskedMore(w1, w.View(), cap, t, MemberText(r.members[i]));
  }

  // What comes before the members.
  method PutHead(w: Writer, r: Record, ghost cap: nat)
    requires w.Valid() && w.View() == Start(cap) && w.cap == cap
    modifies w`pos, w`ok, w.buf
    ensures w.Valid() && Asked(w.View(), cap, TextUpTo(r, 0))
    ensures w.buf[w.cap..] == old(w.buf[w.cap..])
  {
    assert Append(Start(cap), []) == Start(cap);
    w.Fmt(HeadText(r));
    ghost var w1 := w.View();
    AskedMore(Start(cap), w1, cap, [], HeadText(r));
    assert [] + HeadText(r) == HeadText(r);
    w.Str(r.name, NAME_SIZE);
    ghost var w2 := w.View();
    AskedMore(w1, w2, cap, HeadText(r), Escape(Text(r.name, NAME_SIZE)));
    w.RawN(Ascii("\",\"members\":["));
    AskedMore(w2, w.View(), cap, HeadText(r) + Escape(Text(r.name, NAME_SIZE)), Ascii("\",\"members\":["));
    assert MemberTexts(r.members[..0]) == [];
  }

  // grp_to_json: the whole object, exactly when it fits.
  method GrpToJson(r: Record, buf: array<Byte>, cap: nat) returns (len: nat)
    requires cap <= buf.Length
    modifies buf
    ensures len == if |GroupText(r)| <= cap then |GroupText(r)| else 0
    ensures len <= cap && (len > 0 ==> buf[..len] == GroupText(r))
    ensures len < cap ==> buf[len] == 0
    ensures buf[cap..] == old(buf[cap..])
  {
    var w := new Writer(buf, cap);
    PutHead(w, r, cap);
    var mc := if r.count > MAX_MEMBERS then MAX_MEMBERS else r.count;
    var i := 0;
    while i < mc
      invariant i <= mc <= MAX_MEMBERS && w.Valid() && fresh(w) && w.buf == buf && w.cap == cap
      invariant Asked(w.View(), cap, TextUpTo(r, i))
      invariant buf[cap..] == old(buf[cap..])
    {
      PutMember(w, r, i, cap);
      i := i + 1;
    }
    ghost var w1 := w.View();
    w.RawN(Ascii("]}"));
    AskedAll(w1, cap, TextUpTo(r, mc), Ascii("]}"));
    len := w.Finished();
    if len < cap { buf[len] := 0; }
  }

  // ── The store ────────────────────────────────────────────────────────────

  // A stored blob; `exact` is false when its size is not that of a record.
  datatype Blob = Blob(exact: bool, r: Record)

  // The bitmap, as the set of ids whose bit is set, and the blobs.
  datatype Nvs = Nvs(bmp: set<nat>, blobs: map<nat, Blob>)

  predicate Loadable(n: Nvs, id: nat) {
    id in n.bmp && id in n.blobs && n.blobs[id].exact && n.blobs[id].r.id == id
  }

  function Clamp(r: Record): Record {
    if r.count > MAX_MEMBERS then r.(count := MAX_MEMBERS) else r
  }

  // The groups with an id up to k, in id order.
  function GroupsUpTo(n: Nvs, k: nat): seq<Record> {
    if k == 0 then [] else GroupsUpTo(n, k - 1) + if Loadable(n, k) then [Clamp(n.blobs[k].r)] else []
  }

  // gs is the loadable groups with an id up to k, in strictly ascending id order.
  ghost predicate Lists(n: Nvs, k: nat, gs: seq<Record>) {
    && |gs| <= k
    && (forall i :: 0 <= i < |gs| ==> 1 <= gs[i].id <= k && Loadable(n, gs[i].id) && gs[i] == Clamp(n.blobs[gs[i].id].r))
    && (forall i, j :: 0 <= i < j < |gs| ==> gs[i].id < gs[j].id)
    && (forall id :: 1 <= id <= k && Loadable(n, id) ==> exists i :: 0 <= i < |gs| && gs[i].id == id)
  }

  lemma ListsNext(n: Nvs, k: nat, gs: seq<Record>)
    requires k > 0 && Lists(n, k - 1, gs)
    ensures Lists(n, k, gs + if Loadable(n, k) then [Clamp(n.blobs[k].r)] else [])
  {
    var more := gs + if Loadable(n, k) then [Clamp(n.blobs[k].r)] else [];
    assert Loadable(n, k) ==> more[|gs|].id == k;
    forall id | 1 <= id <= k && Loadable(n, id) ensures exists i :: 0 <= i < |more| && more[i].id == id {
      if id < k {
        var i :| 0 <= i < |gs| && gs[i].id == id;
        assert more[i].id == id;
      }
    }
  }

  // The list is exactly these.
  lemma {:induction false} GroupsAreTheLoadable(n: Nvs, k: nat)
    ensures Lists(n, k, GroupsUpTo(n, k))
  {
    if k > 0 {
      GroupsAreTheLoadable(n, k - 1);
      ListsNext(n, k, GroupsUpTo(n, k - 1));
    }
  }

  // Which of the flash operations of one call succeed.
  datatype Flash = Flash(opens: bool, blobDone: bool, bmpReads: bool, bmpDone: bool, committed: bool)

  // grp_get_bmp: a bitmap that cannot be read counts as empty.
  function ReadBmp(n: Nvs, f: Flash): set<nat> {
    if f.bmpReads then n.bmp else {}
  }

  // grp_save: the blob first, then its bit; a failed bitmap write goes unnoticed.
  function Saved(n: Nvs, r: Record, f: Flash): (Nvs, bool) {
    if r.id == 0 || r.id > MAX_GROUPS || !f.opens || !f.blobDone then (n, false)
    else
      (Nvs(if f.bmpDone then ReadBmp(n, f) + {r.id as nat} else n.bmp, n.blobs[r.id := Blob(true, r)]), f.committed)
  }

  // grp_delete: the blob first, then its bit, each only if the one before succeeded.
  function Deleted(n: Nvs, id: nat, f: Flash): (Nvs, bool) {
    if id == 0 || id > MAX_GROUPS || !f.opens || !f.blobDone then (n, false)
    else
      var m := Nvs(n.bmp, n.blobs - {id});
      if !f.bmpDone then (m, false) else (m.(bmp := ReadBmp(n, f) - {id}), f.committed)
  }

  // A bitmap that was not read has not been written back.
  predicate OthersKept(f: Flash) {
    f.bmpReads || !f.bmpDone
  }

  ghost predicate SameBlobs(n: Nvs, m: Nvs, id: nat) {
    forall k :: k != id ==> (k in m.blobs <==> k in n.blobs) && (k in n.blobs ==> m.blobs[k] == n.blobs[k])
  }

  // A saved record is loadable exactly when its bit is set, by this call or before; any
  // other group is as it was if the bitmap written is the one that was there, and not
  // loadable otherwise.
  lemma SaveEffect(n: Nvs, r: Record, f: Flash)
    requires Saved(n, r, f).1
    ensures var n' := Saved(n, r, f).0;
            && (Loadable(n', r.id) <==> f.bmpDone || r.id in n.bmp)
            && n'.blobs[r.id].r == r && SameBlobs(n, n', r.id)
            && forall id: nat :: id != r.id ==> (Loadable(n', id) <==> Loadable(n, id) && OthersKept(f))
  {
  }

  // An input that fails: the bitmap write of a new group is lost.  The save answers
  // true, the record is stored, and the list does not change.
  lemma SaveLosesGroup(n: Nvs, r: Record)
    requires 1 <= r.id <= MAX_GROUPS && r.id !in n.bmp
    ensures var (n', ok) := Saved(n, r, Flash(true, true, true, false, true));
            && ok && n'.blobs[r.id] == Blob(true, r) && !Loadable(n', r.id)
            && GroupsUpTo(n', MAX_GROUPS) == GroupsUpTo(n, MAX_GROUPS)
  {
    SameGroups(n, Saved(n, r, Flash(true, true, true, false, true)).0, MAX_GROUPS);
  }

  // Another: the bitmap is not read.  The save answers true, and the group saved is the
  // only one listed from then on.
  lemma SaveLosesOthers(n: Nvs, r: Record)
    requires 1 <= r.id <= MAX_GROUPS
    ensures var (n', ok) := Saved(n, r, Flash(true, true, false, true, true));
            ok && SameBlobs(n, n', r.id) && GroupsUpTo(n', MAX_GROUPS) == [Clamp(r)]
  {
    OnlyGroup(Saved(n, r, Flash(true, true, false, true, true)).0, r, MAX_GROUPS);
  }

  lemma {:induction false} OnlyGroup(n: Nvs, r: Record, k: nat)
    requires forall id: nat :: Loadable(n, id) <==> id == r.id
    requires r.id > 0 && r.id in n.blobs && n.blobs[r.id].r == r
    ensures GroupsUpTo(n, k) == if k < r.id then [] else [Clamp(r)]
  {
    if k > 0 { OnlyGroup(n, r, k - 1); }
  }

  lemma {:induction false} SameGroups(n: Nvs, m: Nvs, k: nat)
    requires forall id: nat :: (Loadable(n, id) <==> Loadable(m, id)) && (Loadable(n, id) ==> n.blobs[id] == m.blobs[id])
    ensures GroupsUpTo(n, k) == GroupsUpTo(m, k)
  {
    if k > 0 { SameGroups(n, m, k - 1); }
  }

  // A deleted group is not loadable whatever flash step fails after the erase; any
  // other group is as it was if the bitmap written is the one that was there, and not
  // loadable otherwise.
  lemma DeleteEffect(n: Nvs, id: nat, f: Flash)
    requires 1 <= id <= MAX_GROUPS && f.opens && f.blobDone
    ensures var n' := Deleted(n, id, f).0;
            && !Loadable(n', id) && SameBlobs(n, n', id)
            && (Deleted(n, id, f).1 ==> id !in n'.bmp)
            && forall k: nat :: k != id ==> (Loadable(n', k) <==> Loadable(n, k) && OthersKept(f))
  {
  }

  class Store {
    var nvs: Nvs

    // grp_next_id: the lowest id without a bit; a store that cannot be opened, or whose
    // bitmap cannot be read, counts as empty.
    method NextId(readable: bool) returns (id: nat)
      ensures readable ==> (id == 0 <==> forall k :: 1 <= k <= MAX_GROUPS ==> k in nvs.bmp)
      ensures readable && id > 0 ==> id <= MAX_GROUPS && id !in nvs.bmp && forall k :: 1 <= k < id ==> k in nvs.bmp
      ensures !readable ==> id == 1
    {
      var bmp := if readable then nvs.bmp else {};
      var i := 0;
      while i < MAX_GROUPS
        invariant i <= MAX_GROUPS && (!readable ==> i == 0)
        invariant readable ==> forall k :: 1 <= k <= i ==> k in nvs.bmp
      {
        if i + 1 !in bmp { return i + 1; }
        i := i + 1;
      }
      return 0;
    }

    // grp_load_all
    method LoadAll(out: array<Record>, max: nat, readable: bool) returns (loaded: nat)
      requires max <= out.Length
      modifies out
      ensures var gs := if readable then GroupsUpTo(nvs, MAX_GROUPS) else [];
              loaded == Min(max, |gs|) && out[..loaded] == gs[..loaded]
    {
      loaded := 0;
      if !readable { return; }
      var i := 0;
      while i < MAX_GROUPS && loaded < max
        invariant i <= MAX_GROUPS && loaded <= max
        invariant loaded == |GroupsUpTo(nvs, i)| && out[..loaded] == GroupsUpTo(nvs, i)
      {
        var id := i + 1;
        if id in nvs.bmp && id in nvs.blobs && nvs.blobs[id].exact && nvs.blobs[id].r.id == id {
          var r := nvs.blobs[id].r;
          if r.count > MAX_MEMBERS { r := r.(count := MAX_MEMBERS); }
          out[loaded] := r;
          loaded := loaded + 1;
        }
        i := i + 1;
      }
      GroupsGrow(nvs, i, MAX_GROUPS);
    }

    // grp_save
    method Save(r: Record, f: Flash) returns (ok: bool)
      modifies this
      ensures (nvs, ok) == Saved(old(nvs), r, f)
    {
      if r.id == 0 || r.id > MAX_GROUPS { return false; }
      if !f.opens || !f.blobDone { return false; }
      nvs := nvs.(blobs := nvs.blobs[r.id := Blob(true, r)]);
      var bmp := if f.bmpReads then nvs.bmp else {};
      if f.bmpDone { nvs := nvs.(bmp := bmp + {r.id}); }
      return f.committed;
    }

    // grp_create: the id had no bit, so no listed group is overwritten, unless the store
    // could not be read and its first slot was in use.
    method Create(r: Record, readable: bool, f: Flash) returns (ok: bool, id: nat)
      modifies this
      ensures id == 0 ==> !ok && nvs == old(nvs)
      ensures id > 0 ==> id <= MAX_GROUPS && (nvs, ok) == Saved(old(nvs), r.(id := id), f)
      ensures id == 0 <==> readable && forall k :: 1 <= k <= MAX_GROUPS ==> k in old(nvs).bmp
      ensures id > 0 ==> (id in old(nvs).bmp <==> !readable && 1 in old(nvs).bmp)
      ensures ok ==> forall k: nat :: k != id ==> (Loadable(nvs, k) <==> Loadable(old(nvs), k) && OthersKept(f))
    {
      id := NextId(readable);
      if id == 0 { return false, 0; }
      ok := Save(r.(id := id), f);
    }

    // grp_delete
    method Delete(id: nat, f: Flash) returns (ok: bool)
      modifies this
      ensures (nvs, ok) == Deleted(old(nvs), id, f)
    {
      if id == 0 || id > MAX_GROUPS { return false; }
      if !f.opens || !f.blobDone { return false; }
      nvs := nvs.(blobs := nvs.blobs - {id});
      var bmp := if f.bmpReads then nvs.bmp else {};
      if !f.bmpDone { return false; }
      nvs := nvs.(bmp := bmp - {id});
      return f.committed;
    }
  }

  lemma {:induction false} GroupsGrow(n: Nvs, i: nat, k: nat)
    requires i <= k
    ensures GroupsUpTo(n, i) <= GroupsUpTo(n, k)
    decreases k - i
  {
    if i < k { GroupsGrow(n, i, k - 1); }
  }
}
