// api_group_list of main/api_groups.cpp: the group list under the response's byte
// budget.
module GroupsApi {
  import opened Common
  import opened JsonWriter
  import opened GroupsStore

  const SCRATCH: nat := 1024

  function Opening(): (r: seq<Byte>)
    ensures |r| == 11
  {
    Ascii("{\"groups\":[")
  }

  function Body(chosen: seq<seq<Byte>>): seq<Byte> {
    Opening() + Join(0x2C, chosen)
  }

  // A complete response with these groups.
  function Response(chosen: seq<seq<Byte>>): seq<Byte> {
    Body(chosen) + Ascii("]}")
  }

  // In order, each group that still leaves room for the closing.
  function Chosen(texts: seq<seq<Byte>>, cap: nat): seq<seq<Byte>> {
    if texts == [] then []
    else
      var before, t := Chosen(texts[..|texts| - 1], cap), texts[|texts| - 1];
      if |Body(before)| + (if before == [] then 0 else 1) + |t| + 2 <= cap then before + [t] else before
  }

  lemma ResponseGrows(before: seq<seq<Byte>>, t: seq<Byte>)
    ensures Body(before + [t]) == Body(before) + (if before == [] then [] else [0x2C]) + t
    ensures |Response(before + [t])| == |Body(before)| + (if before == [] then 0 else 1) + |t| + 2
  {
    JoinAppend(0x2C, before, t);
  }

  // The response always fits where an empty list does.
  lemma {:induction false} ResponseFits(texts: seq<seq<Byte>>, cap: nat)
    requires cap >= 13
    ensures |Response(Chosen(texts, cap))| <= cap
  {
    if texts != [] {
      ResponseFits(texts[..|texts| - 1], cap);
      ResponseGrows(Chosen(texts[..|texts| - 1], cap), texts[|texts| - 1]);
    }
  }

  ghost predicate Subsequence<T>(a: seq<T>, b: seq<T>)
    decreases |b|
  {
    a == [] || (b != [] &&
      ((a[|a| - 1] == b[|b| - 1] && Subsequence(a[..|a| - 1], b[..|b| - 1])) || Subsequence(a, b[..|b| - 1])))
  }

  lemma {:induction false} ChosenInOrder(texts: seq<seq<Byte>>, cap: nat)
    ensures Subsequence(Chosen(texts, cap), texts)
  {
    if texts != [] {
      var before, t := Chosen(texts[..|texts| - 1], cap), texts[|texts| - 1];
      ChosenInOrder(texts[..|texts| - 1], cap);
      assert (before + [t])[..|before|] == before;
    }
  }

  // A group is left out exactly when, at its turn, a complete response with it would
  // not have fitted.
  lemma LeftOutOnlyForRoom(texts: seq<seq<Byte>>, cap: nat, k: nat)
    requires k < |texts|
    ensures var before := Chosen(texts[..k], cap);
            Chosen(texts[..k + 1], cap) ==
            if |Response(before + [texts[k]])| <= cap then before + [texts[k]] else before
  {
    assert texts[..k + 1][..k] == texts[..k];
    ResponseGrows(Chosen(texts[..k], cap), texts[k]);
  }

  lemma {:induction false} ChosenCount(texts: seq<seq<Byte>>, cap: nat)
    ensures |Chosen(texts, cap)| <= |texts|
  {
    if texts != [] { ChosenCount(texts[..|texts| - 1], cap); }
  }

  lemma {:induction false} ResponseMonotone(texts: seq<seq<Byte>>)
    ensures texts != [] ==> |Response(texts[..|texts| - 1])| <= |Response(texts)|
  {
    if texts != [] {
      ResponseGrows(texts[..|texts| - 1], texts[|texts| - 1]);
      assert texts[..|texts| - 1] + [texts[|texts| - 1]] == texts;
    }
  }

  // Every group is listed exactly when the whole list fits.
  lemma {:induction false} AllListedIffRoom(texts: seq<seq<Byte>>, cap: nat)
    requires cap >= 13
    ensures Chosen(texts, cap) == texts <==> |Response(texts)| <= cap
  {
    if texts == [] {
      assert Join(0x2C, texts) == [];
    } else {
      var before, t := texts[..|texts| - 1], texts[|texts| - 1];
      AllListedIffRoom(before, cap);
      ResponseMonotone(texts);
      ResponseGrows(before, t);
      assert before + [t] == texts;
      ChosenCount(before, cap);
      if Chosen(texts, cap) == texts {
        assert Chosen(before, cap) + [t] == texts;
        assert (Chosen(before, cap) + [t])[..|before|] == Chosen(before, cap);
      }
    }
  }

  function Texts(rs: seq<Record>): (r: seq<seq<Byte>>)
    ensures |r| == |rs| && forall i :: 0 <= i < |rs| ==> r[i] == GroupText(rs[i])
  {
    seq(|rs|, i requires 0 <= i < |rs| => GroupText(rs[i]))
  }

  // The answer of group.list: with room for an empty list, a complete object whatever
  // is stored; never an overflow.
  function Answer(rs: seq<Record>, cap: nat): seq<Byte> {
    if cap >= 13 then Response(Chosen(Texts(rs), cap)) else []
  }

  lemma AppendWithin(cap: nat, body: seq<Byte>, more: seq<Byte>)
    ensures Append(Append(Start(cap), body), more) == Append(Start(cap), body + more)
    ensures |Append(Start(cap), body).text| == if |body| <= cap then |body| else cap
  {
    AppendAppend(Start(cap), body, more);
  }

  method GroupList(all: array<Record>, cnt: nat, rsp: array<Byte>, cap: nat) returns (len: nat)
    requires cnt <= all.Length && cap <= rsp.Length
    modifies rsp
    ensures len == |Answer(all[..cnt], cap)| <= cap
    ensures rsp[..len] == Answer(all[..cnt], cap)
    ensures rsp[cap..] == old(rsp[cap..])
  {
    ghost var rs := all[..cnt];
    var w := new Writer(rsp, cap);
    w.RawN(Opening());
    var emitted, dropped, i := 0, 0, 0;
    assert Texts(rs)[..0] == [] && Opening() + [] == Opening();
    while i < cnt
      invariant i <= cnt && w.Valid() && fresh(w) && w.buf == rsp && w.cap == cap
      invariant all[..cnt] == rs
      invariant emitted == |Chosen(Texts(rs)[..i], cap)| && emitted + dropped == i
      invariant w.View() == Append(Start(cap), Body(Chosen(Texts(rs)[..i], cap)))
      invariant rsp[cap..] == old(rsp[cap..])
    {
      var taken := ListOne(w, all[i], cap, Chosen(Texts(rs)[..i], cap), emitted);
      assert Texts(rs)[..i + 1][..i] == Texts(rs)[..i];
      if taken { emitted := emitted + 1; } else { dropped := dropped + 1; }
      i := i + 1;
    }
    assert Texts(rs)[..i] == Texts(rs);
    ghost var body := Body(Chosen(Texts(rs), cap));
    AppendWithin(cap, body, Ascii("]}"));
    w.RawN(Ascii("]}"));
    if cap >= 13 { ResponseFits(Texts(rs), cap); }
    len := w.Finished();
  }

  // One turn: serialise into the scratch buffer, append if it fits with the closing.
  method ListOne(w: Writer, r: Record, cap: nat, ghost before: seq<seq<Byte>>, emitted: nat) returns (taken: bool)
    requires w.Valid() && w.cap == cap && emitted == |before|
    requires w.View() == Append(Start(cap), Body(before))
    modifies w`pos, w`ok, w.buf
    ensures w.Valid() && w.buf[w.cap..] == old(w.buf[w.cap..])
    ensures taken <==> |Body(before)| + (if before == [] then 0 else 1) + |GroupText(r)| + 2 <= cap
    ensures w.View() == Append(Start(cap), Body(if taken then before + [GroupText(r)] else before))
  {
    var tmp := new Byte[SCRATCH];
    GroupShort(r);
    AppendWithin(cap, Body(before), if emitted > 0 then [0x2C] else []);
    var n := GrpToJson(r, tmp, SCRATCH);
    if n == 0 { return false; }
    if w.pos + (if emitted > 0 then 1 else 0) + n + 2 > cap { return false; }
    if emitted > 0 { w.Ch(0x2C); }
    w.RawN(tmp[..n]);
    ResponseGrows(before, GroupText(r));
    AppendWithin(cap, Body(before) + if emitted > 0 then [0x2C] else [], GroupText(r));
    return true;
  }
}
