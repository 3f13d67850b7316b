// devlist_fetch_all of main/api_devices.cpp: following the peer's page cursor and
// putting every device into one array, inside a byte budget.
module DeviceList {
  import opened Common

  const MAX_PAGES: nat := 208         // ZAP_MAX_DEVICES + 8
  const MAX_DEVICES: nat := 200

  // A serialised device.
  type Object = s: seq<Byte> | s != [] witness [0x7B, 0x7D]

  // The answer for one start index; `next` is absent on a single-frame peer.
  datatype Page = Page(devices: seq<Object>, next: Option<nat>)

  // What happens to one page's round trip: the budget is already used up, the first
  // attempt, the budget before the retry, the retry, and whether the answer parses.
  datatype Turn = Turn(late: bool, first: bool, retryLate: bool, second: bool, parses: bool)

  predicate Arrives(t: Turn) {
    !t.late && (t.first || (!t.retryLate && t.second)) && t.parses
  }

  predicate Final(p: Page, start: nat) {
    p.next.None? || p.next.value <= start
  }

  // The devices of the pages visited from `start`, when the last page is reached.
  function Collect(peer: nat -> Page, env: seq<Turn>, start: nat): Option<seq<Object>>
    decreases |env|
  {
    if env == [] || !Arrives(env[0]) then None
    else
      var p := peer(start);
      if Final(p, start) then Some(p.devices)
      else
        match Collect(peer, env[1..], p.next.value)
        case None => None
        case Some(rest) => Some(p.devices + rest)
  }

  function Opening(): (r: seq<Byte>)
    ensures |r| == 12
  {
    Ascii("{\"devices\":[")
  }

  function Body(ds: seq<Object>): seq<Byte> {
    Opening() + Join(0x2C, ds)
  }

  function Document(ds: seq<Object>): seq<Byte> {
    Body(ds) + Ascii("]}")
  }

  // What the fetch returns: the whole document with room for its terminator, or nothing.
  function Fetched(peer: nat -> Page, env: seq<Turn>, cap: nat): seq<Byte> {
    match Collect(peer, env, 0)
    case None => []
    case Some(ds) => if |Document(ds)| + 1 <= cap then Document(ds) else []
  }

  // ── An unchanging peer ───────────────────────────────────────────────────

  // Every page holds the devices from its start up to its cursor, which advances; the
  // last page holds the rest.
  ghost predicate Serves(peer: nat -> Page, devices: seq<Object>) {
    forall start :: 0 <= start <= |devices| ==>
      var p := peer(start);
      if Final(p, start) then p.devices == devices[start..]
      else p.next.value <= |devices| && p.devices == devices[start..p.next.value]
  }

  // Whatever round trips fail, what is collected is every device exactly once, in order.
  lemma {:induction false} CollectsAll(peer: nat -> Page, devices: seq<Object>, env: seq<Turn>, start: nat)
    requires Serves(peer, devices) && start <= |devices|
    ensures Collect(peer, env, start).Some? ==> Collect(peer, env, start).value == devices[start..]
    decreases |env|
  {
    if env != [] && Arrives(env[0]) && !Final(peer(start), start) {
      var next := peer(start).next.value;
      CollectsAll(peer, devices, env[1..], next);
      assert devices[start..next] + devices[next..] == devices[start..];
    }
  }

  // The cursor is the measure: with one page more than devices left, the last page is
  // reached.
  lemma {:induction false} ReachesTheEnd(peer: nat -> Page, devices: seq<Object>, env: seq<Turn>, start: nat)
    requires Serves(peer, devices) && start <= |devices| && |env| > |devices| - start
    requires forall k :: 0 <= k < |env| ==> Arrives(env[k])
    ensures Collect(peer, env, start).Some?
    decreases |devices| - start
  {
    if !Final(peer(start), start) {
      ReachesTheEnd(peer, devices, env[1..], peer(start).next.value);
    }
  }

  // The fetch returns nothing or the document of all devices; with a fleet within the
  // limit and every page arriving, it returns the document exactly when it fits.
  lemma AllDevicesOrNothing(peer: nat -> Page, devices: seq<Object>, env: seq<Turn>, cap: nat)
    requires Serves(peer, devices)
    ensures Fetched(peer, env, cap) == [] || Fetched(peer, env, cap) == Document(devices)
    ensures |Fetched(peer, env, cap)| <= cap
    ensures |devices| <= MAX_DEVICES && |env| == MAX_PAGES && (forall k :: 0 <= k < |env| ==> Arrives(env[k])) ==>
              (Fetched(peer, env, cap) == Document(devices) <==> |Document(devices)| < cap)
  {
    CollectsAll(peer, devices, env, 0);
    assert devices[0..] == devices;
    if |devices| <= MAX_DEVICES && |env| == MAX_PAGES && forall k :: 0 <= k < |env| ==> Arrives(env[k]) {
      ReachesTheEnd(peer, devices, env, 0);
    }
  }

  // ── The code ─────────────────────────────────────────────────────────────

  lemma {:induction false} JoinGrows(a: seq<Object>, b: seq<Object>)
    ensures |Join(0x2C, a)| <= |Join(0x2C, a + b)|
    decreases |b|
  {
    if b == [] {
      assert a + b == a;
    } else {
      JoinGrows(a, b[..|b| - 1]);
      JoinAppend(0x2C, a + b[..|b| - 1], b[|b| - 1]);
      assert a + b[..|b| - 1] + [b[|b| - 1]] == a + b;
    }
  }

  lemma BodyNext(ds: seq<Object>, d: Object)
    ensures Body(ds + [d]) == Body(ds) + (if ds == [] then [] else [0x2C]) + d
  {
    JoinAppend(0x2C, ds, d);
  }

  // Where an element does not fit, no document that goes on with it would.
  lemma NoRoom(done: seq<Object>, d: Object, more: seq<Object>, cap: nat)
    requires |Body(done)| + (if done == [] then 0 else 1) + |d| + 1 >= cap
    ensures |Document(done + ([d] + more))| + 1 > cap
  {
    BodyNext(done, d);
    JoinGrows(done + [d], more);
    assert done + [d] + more == done + ([d] + more);
  }

  // What has been read, and what is still to come, are what the fetch collects.
  ghost predicate Following(peer: nat -> Page, env: seq<Turn>, page: nat, start: nat, done: seq<Object>) {
    page <= |env| &&
    Collect(peer, env, 0) ==
      match Collect(peer, env[page..], start)
      case None => None
      case Some(rest) => Some(done + rest)
  }

  lemma FollowNext(peer: nat -> Page, env: seq<Turn>, page: nat, start: nat, done: seq<Object>)
    requires Following(peer, env, page, start, done) && page < |env| && Arrives(env[page])
    ensures var p := peer(start);
            if Final(p, start) then Collect(peer, env, 0) == Some(done + p.devices)
            else Following(peer, env, page + 1, p.next.value, done + p.devices)
  {
    var p := peer(start);
    assert env[page..][1..] == env[page + 1..];
    if !Final(p, start) && Collect(peer, env[page + 1..], p.next.value).Some? {
      var rest := Collect(peer, env[page + 1..], p.next.value).value;
      assert done + (p.devices + rest) == done + p.devices + rest;
    }
  }

  method PutBytes(out: array<Byte>, cap: nat, pos: nat, bytes: seq<Byte>) returns (ok: bool, pos': nat)
    requires cap <= out.Length && pos <= cap
    modifies out
    ensures ok == (pos + |bytes| + 1 <= cap)
    ensures pos' == if ok then pos + |bytes| else pos
    ensures out[..pos'] == if ok then old(out[..pos]) + bytes else old(out[..pos])
  {
    if pos + |bytes| + 1 > cap { return false, pos; }
    var k := 0;
    while k < |bytes|
      invariant k <= |bytes| && out[..pos + k] == old(out[..pos]) + bytes[..k]
    {
      out[pos + k] := bytes[k];
      k := k + 1;
    }
    return true, pos + |bytes|;
  }

  // serializeJson into the tail of the accumulator: what fits of the element.
  method PutObject(out: array<Byte>, cap: nat, pos: nat, d: Object) returns (ok: bool, pos': nat)
    requires cap <= out.Length && pos + 1 <= cap
    modifies out
    ensures ok == (pos + |d| + 1 < cap)
    ensures ok ==> pos' == pos + |d| && out[..pos'] == old(out[..pos]) + d
  {
    var avail := cap - pos - 1;
    var w := if |d| < avail then |d| else avail;
    var k := 0;
    while k < w
      invariant k <= w && out[..pos + k] == old(out[..pos]) + d[..k]
    {
      out[pos + k] := d[k];
      k := k + 1;
    }
    if w == 0 || w >= avail { return false, pos; }
    return true, pos + w;
  }

  // One element behind its comma.
  method PutElement(out: array<Byte>, cap: nat, pos: nat, first: bool, d: Object, ghost done: seq<Object>)
    returns (ok: bool, pos': nat)
    requires cap <= out.Length && pos + 1 <= cap && pos == |Body(done)| && out[..pos] == Body(done) && first == (done == [])
    modifies out
    ensures ok ==> pos' + 1 <= cap && pos' == |Body(done + [d])| && out[..pos'] == Body(done + [d])
    ensures !ok ==> |Body(done)| + (if done == [] then 0 else 1) + |d| + 1 >= cap
  {
    BodyNext(done, d);
    pos' := pos;
    if !first {
      ok, pos' := PutBytes(out, cap, pos', [0x2C]);
      if !ok { return; }
    }
    ok, pos' := PutObject(out, cap, pos', d);
  }

  // The elements of one page.
  method PutPage(out: array<Byte>, cap: nat, pos: nat, firstElem: bool, ds: seq<Object>, ghost done: seq<Object>)
    returns (ok: bool, pos': nat, first: bool)
    requires cap <= out.Length && pos + 1 <= cap && pos == |Body(done)| && out[..pos] == Body(done)
    requires firstElem == (done == [])
    modifies out
    ensures ok ==> pos' + 1 <= cap && pos' == |Body(done + ds)| && out[..pos'] == Body(done + ds)
    ensures ok ==> first == (done + ds == [])
    ensures !ok ==> forall rest :: |Document(done + ds + rest)| + 1 > cap
  {
    pos', first := pos, firstElem;
    var i := 0;
    assert done + ds[..0] == done;
    while i < |ds|
      invariant i <= |ds| && pos' + 1 <= cap && pos' == |Body(done + ds[..i])| && out[..pos'] == Body(done + ds[..i])
      invariant first == (done + ds[..i] == [])
    {
      ghost var now := done + ds[..i];
      ok, pos' := PutElement(out, cap, pos', first, ds[i], now);
      assert now + [ds[i]] == done + ds[..i + 1];
      if !ok {
        forall rest ensures |Document(done + ds + rest)| + 1 > cap {
          NoRoom(now, ds[i], ds[i + 1..] + rest, cap);
          assert now + ([ds[i]] + (ds[i + 1..] + rest)) == done + ds + rest;
        }
        return;
      }
      first := false;
      i := i + 1;
    }
    assert ds[..i] == ds;
    ok := true;
  }

  // One page's round trip, with its retry.
  method RoundTrip(t: Turn) returns (ok: bool)
    requires !t.late
    ensures ok == (t.first || (!t.retryLate && t.second))
  {
    ok := false;
    var attempt := 0;
    while attempt < 2 && !ok
      invariant attempt <= 2 && (attempt == 0 ==> !ok) && (attempt == 1 ==> ok == t.first)
      invariant attempt == 2 ==> ok == (!t.retryLate && t.second) && !t.first
    {
      if attempt > 0 {
        if t.retryLate { break; }
      }
      ok := if attempt == 0 then t.first else t.second;
      attempt := attempt + 1;
    }
  }

  // devlist_fetch_all; env gives the fate of each of the 208 round trips.
  method FetchAll(out: array<Byte>, cap: nat, peer: nat -> Page, env: seq<Turn>, haveChunk: bool) returns (len: nat)
    requires cap <= out.Length && |env| == MAX_PAGES
    modifies out
    ensures len == if haveChunk then |Fetched(peer, env, cap)| else 0
    ensures len > 0 ==> len < cap && out[..len] == Fetched(peer, env, cap) && out[len] == 0
  {
    if !haveChunk { return 0; }
    var ok, pos := PutBytes(out, cap, 0, Opening());
    assert Join(0x2C, []) == [] && Opening() + [] == Opening();
    if !ok { return 0; }
    ghost var done: seq<Object> := [];
    var start, page, okDone, first := 0, 0, false, true;
    StartFollowing(peer, env);
    assert out[..pos] == Body(done) && pos == |Body(done)|;
    while page < MAX_PAGES
      invariant page <= MAX_PAGES && pos + 1 <= cap && pos == |Body(done)| && out[..pos] == Body(done)
      invariant Following(peer, env, page, start, done) && !okDone && first == (done == [])
    {
      var t := env[page];
      if t.late { return 0; }
      var pageOk := RoundTrip(t);
      if !pageOk { return 0; }
      if !t.parses { return 0; }
      FollowNext(peer, env, page, start, done);
      var p := peer(start);
      ok, pos, first := PutPage(out, cap, pos, first, p.devices, done);
      if !ok {
        NothingFetched(peer, env, cap, done + p.devices, start, page);
        return 0;
      }
      done := done + p.devices;
      if p.next.None? || p.next.value <= start {
        okDone := true;
        break;
      }
      start := p.next.value;
      page := page + 1;
    }
    if !okDone { return 0; }
    ok, pos := PutBytes(out, cap, pos, Ascii("]}"));
    if !ok { return 0; }
    out[pos] := 0;
    return pos;
  }

  lemma StartFollowing(peer: nat -> Page, env: seq<Turn>)
    ensures Following(peer, env, 0, 0, [])
  {
    assert env[0..] == env;
    if Collect(peer, env, 0).Some? {
      assert [] + Collect(peer, env, 0).value == Collect(peer, env, 0).value;
    }
  }

  // A page that overflowed the accumulator means there is no document to return.
  lemma NothingFetched(peer: nat -> Page, env: seq<Turn>, cap: nat, done: seq<Object>, start: nat, page: nat)
    requires forall rest :: |Document(done + rest)| + 1 > cap
    requires page < |env|
    requires if Final(peer(start), start) then Collect(peer, env, 0) == Some(done)
             else Following(peer, env, page + 1, peer(start).next.value, done)
    ensures Fetched(peer, env, cap) == []
  {
    assert done + [] == done;
    assert |Document(done + [])| + 1 > cap;
  }
}
