// main/main.cpp: the per-peer window of failed sign-ins, a ring of five time stamps
// in each of eight buckets recycled least-recently-used, against the full history.
module AuthLockout {
  import opened Common

  const FAIL_LIMIT: nat := 5
  const WINDOW_MS: nat := 60000
  const BUCKETS: nat := 8
  const WRAP: nat := 0x1_0000_0000

  type Stamps = s: seq<nat> | |s| == 5 witness [0, 0, 0, 0, 0]

  datatype Bucket = Bucket(ip: nat, ts: Stamps, head: nat, lastUse: nat)

  const FREE: Bucket := Bucket(0, [0, 0, 0, 0, 0], 0, 0)

  datatype Failure = Failure(ip: nat, time: nat)

  // The buckets, with what they stand for: every failure so far, and for each bucket
  // how many of them came before it was allocated.
  datatype State = State(buckets: seq<Bucket>, log: seq<Failure>, since: seq<nat>)

  function Init(): State {
    State(seq(BUCKETS, _ => FREE), [], seq(BUCKETS, _ => 0))
  }

  // auth_bucket_find
  function Find(bs: seq<Bucket>, ip: nat): (r: Option<nat>)
    ensures r.Some? ==> r.value < |bs| && bs[r.value].lastUse != 0 && bs[r.value].ip == ip
    ensures r.Some? ==> forall i :: 0 <= i < r.value ==> bs[i].lastUse == 0 || bs[i].ip != ip
    ensures r.None? ==> forall i :: 0 <= i < |bs| ==> bs[i].lastUse == 0 || bs[i].ip != ip
  {
    if bs == [] then None
    else
      var r := Find(bs[..|bs| - 1], ip);
      if r.Some? then r
      else if bs[|bs| - 1].lastUse != 0 && bs[|bs| - 1].ip == ip then Some(|bs| - 1) else None
  }

  // The first bucket with the least stamp.
  function Lru(bs: seq<Bucket>): (r: nat)
    requires bs != []
    ensures r < |bs| && forall i :: 0 <= i < |bs| ==> bs[r].lastUse <= bs[i].lastUse
    ensures forall i :: 0 <= i < r ==> bs[r].lastUse < bs[i].lastUse
  {
    if |bs| == 1 then 0
    else
      var r := Lru(bs[..|bs| - 1]);
      if bs[|bs| - 1].lastUse < bs[r].lastUse then |bs| - 1 else r
  }

  function Slot(bs: seq<Bucket>, ip: nat): (r: nat)
    requires bs != []
    ensures r < |bs|
  {
    if Find(bs, ip).Some? then Find(bs, ip).value else Lru(bs)
  }

  function Pushed(b: Bucket, now: nat): Bucket {
    if b.head < 5 then b.(ts := b.ts[b.head := now], head := (b.head + 1) % FAIL_LIMIT, lastUse := now) else b
  }

  // auth_record_failure
  function Record(s: State, ip: nat, now: nat): State
    requires |s.buckets| == BUCKETS == |s.since|
  {
    var i := Slot(s.buckets, ip);
    var found := Find(s.buckets, ip).Some?;
    var b := if found then s.buckets[i] else FREE.(ip := ip);
    State(s.buckets[i := Pushed(b, now)], s.log + [Failure(ip, now)], if found then s.since else s.since[i := |s.log|])
  }

  function StampCount(ts: seq<nat>, now: nat): (n: nat)
    ensures n <= |ts|
  {
    if ts == [] then 0
    else StampCount(ts[..|ts| - 1], now) + if ts[|ts| - 1] != 0 && (now - ts[|ts| - 1]) % WRAP < WINDOW_MS then 1 else 0
  }

  // auth_is_locked
  function Locked(bs: seq<Bucket>, ip: nat, now: nat): bool {
    match Find(bs, ip)
    case None => false
    case Some(i) => StampCount(bs[i].ts, now) >= FAIL_LIMIT
  }

  // ── The history ──────────────────────────────────────────────────────────

  // The failures of ip from index `from` on that are less than a minute old.
  function RecentFailures(log: seq<Failure>, from: nat, ip: nat, now: nat): nat {
    if |log| <= from then 0
    else
      var f := log[|log| - 1];
      RecentFailures(log[..|log| - 1], from, ip, now) + if f.ip == ip && now - f.time < WINDOW_MS then 1 else 0
  }

  // Their times.
  function Times(log: seq<Failure>, from: nat, ip: nat): seq<nat> {
    if |log| <= from then []
    else
      var f := log[|log| - 1];
      Times(log[..|log| - 1], from, ip) + if f.ip == ip then [f.time] else []
  }

  // A positive clock that neither wraps nor runs backwards, read in lock order.
  ghost predicate ClockOk(log: seq<Failure>) {
    && (forall i :: 0 <= i < |log| ==> 0 < log[i].time < WRAP)
    && (forall i, j :: 0 <= i < j < |log| ==> log[i].time <= log[j].time)
  }

  ghost predicate Rising(ts: seq<nat>) {
    && (forall i :: 0 <= i < |ts| ==> 0 < ts[i] < WRAP)
    && (forall i, j :: 0 <= i < j < |ts| ==> ts[i] <= ts[j])
  }

  // The k-th newest time, 0 if there are not that many.
  function Newest(times: seq<nat>, k: nat): nat {
    if k < |times| then times[|times| - 1 - k] else 0
  }

  // Where the ring keeps it: counting back from the head.
  function Pos(head: nat, k: nat): (r: nat)
    requires head < 5 && k < 5
    ensures r < 5
  {
    if k < head then head - 1 - k else head + 4 - k
  }

  // The ring holds the last five times, newest just before the head.
  ghost predicate RingOk(ts: seq<nat>, head: nat, times: seq<nat>) {
    |ts| == 5 && head == |times| % 5 && forall k :: 0 <= k < 5 ==> ts[Pos(head, k)] == Newest(times, k)
  }

  ghost predicate BucketOk(b: Bucket, log: seq<Failure>, from: nat) {
    b.lastUse != 0 ==>
      var times := Times(log, from, b.ip);
      times != [] && b.lastUse == times[|times| - 1] && RingOk(b.ts, b.head, times)
  }

  ghost predicate Inv(s: State) {
    && |s.buckets| == BUCKETS == |s.since|
    && ClockOk(s.log)
    && (forall i :: 0 <= i < BUCKETS ==> s.since[i] <= |s.log| && BucketOk(s.buckets[i], s.log, s.since[i]))
    && (forall i, j :: 0 <= i < j < BUCKETS && s.buckets[i].lastUse != 0 && s.buckets[j].lastUse != 0 ==>
          s.buckets[i].ip != s.buckets[j].ip)
  }

  // Moving the head on by one makes every stamp one older.
  lemma PosMoves(head: nat, k: nat)
    requires head < 5 && 0 < k < 5
    ensures Pos((head + 1) % 5, k) == Pos(head, k - 1) != head
    ensures Pos((head + 1) % 5, 0) == head
  {
    if head < 4 { assert (head + 1) % 5 == head + 1; } else { assert (head + 1) % 5 == 0; }
  }

  lemma NewestPush(times: seq<nat>, now: nat, k: nat)
    ensures Newest(times + [now], 0) == now
    ensures k > 0 ==> Newest(times + [now], k) == Newest(times, k - 1)
  {
  }

  lemma RingPush(ts: seq<nat>, head: nat, times: seq<nat>, now: nat)
    requires RingOk(ts, head, times)
    ensures RingOk(ts[head := now], (head + 1) % 5, times + [now])
  {
    var ts', head', times' := ts[head := now], (head + 1) % 5, times + [now];
    PosMoves(head, 1);
    assert head' == |times'| % 5 by { assert |times'| == |times| + 1; }
    forall k | 0 <= k < 5 ensures ts'[Pos(head', k)] == Newest(times', k) {
      NewestPush(times, now, k);
      if k > 0 {
        PosMoves(head, k);
        assert ts[Pos(head, k - 1)] == Newest(times, k - 1);
      }
    }
  }

  lemma RingStart()
    ensures RingOk([0, 0, 0, 0, 0], 0, [])
  {
  }

  lemma TimesAppend(log: seq<Failure>, f: Failure, from: nat, ip: nat)
    requires from <= |log|
    ensures Times(log + [f], from, ip) == Times(log, from, ip) + if f.ip == ip then [f.time] else []
  {
    assert (log + [f])[..|log|] == log;
  }

  lemma TimesFresh(log: seq<Failure>, ip: nat)
    ensures Times(log, |log|, ip) == []
  {
  }

  // The bucket that takes the failure.
  lemma RecordBucket(s: State, ip: nat, now: nat)
    requires Inv(s) && now > 0
    ensures var i, s' := Slot(s.buckets, ip), Record(s, ip, now);
            BucketOk(s'.buckets[i], s'.log, s'.since[i]) && s'.buckets[i].ip == ip && s'.buckets[i].lastUse == now
  {
    var i, found := Slot(s.buckets, ip), Find(s.buckets, ip).Some?;
    var b, from := if found then s.buckets[i] else FREE.(ip := ip), if found then s.since[i] else |s.log|;
    TimesAppend(s.log, Failure(ip, now), from, ip);
    if found { assert BucketOk(s.buckets[i], s.log, s.since[i]); } else { RingStart(); TimesFresh(s.log, ip); }
    RingPush(b.ts, b.head, Times(s.log, from, ip), now);
  }

  // The other buckets have nothing new.
  lemma RecordOthers(s: State, ip: nat, now: nat, j: nat)
    requires Inv(s) && j < BUCKETS && j != Slot(s.buckets, ip)
    ensures var s' := Record(s, ip, now);
            s'.buckets[j] == s.buckets[j] && s'.since[j] == s.since[j] && BucketOk(s'.buckets[j], s'.log, s'.since[j])
    ensures s.buckets[j].lastUse != 0 ==> s.buckets[j].ip != ip
  {
    var times := Times(s.log, s.since[j], s.buckets[j].ip);
    assert BucketOk(s.buckets[j], s.log, s.since[j]);
    TimesAppend(s.log, Failure(ip, now), s.since[j], s.buckets[j].ip);
    assert times + [] == times;
  }

  lemma RecordInv(s: State, ip: nat, now: nat)
    requires Inv(s) && 0 < now < WRAP && (s.log != [] ==> s.log[|s.log| - 1].time <= now)
    ensures Inv(Record(s, ip, now))
  {
    hide BucketOk, Lru, Pushed;
    var s', i := Record(s, ip, now), Slot(s.buckets, ip);
    RecordBucket(s, ip, now);
    forall j | 0 <= j < BUCKETS && j != i
      ensures s'.buckets[j] == s.buckets[j] && s'.since[j] == s.since[j] && BucketOk(s'.buckets[j], s'.log, s'.since[j])
      ensures s.buckets[j].lastUse != 0 ==> s.buckets[j].ip != ip
    {
      RecordOthers(s, ip, now, j);
    }
  }

  // ── The ring answers like the history ────────────────────────────────────

  function CountRecent(times: seq<nat>, now: nat): nat {
    if times == [] then 0
    else CountRecent(times[..|times| - 1], now) + if now - times[|times| - 1] < WINDOW_MS then 1 else 0
  }

  lemma {:induction false} CountRecentTimes(log: seq<Failure>, from: nat, ip: nat, now: nat)
    ensures CountRecent(Times(log, from, ip), now) == RecentFailures(log, from, ip, now)
  {
    if |log| > from {
      var f, before := log[|log| - 1], Times(log[..|log| - 1], from, ip);
      CountRecentTimes(log[..|log| - 1], from, ip, now);
      if f.ip == ip {
        assert (before + [f.time])[..|before|] == before;
      } else {
        assert before + [] == before;
      }
    }
  }

  lemma RisingSnoc(ts: seq<nat>, t: nat)
    requires Rising(ts) && 0 < t < WRAP && (ts != [] ==> ts[|ts| - 1] <= t)
    ensures Rising(ts + [t])
  {
  }

  lemma {:induction false} TimesRise(log: seq<Failure>, from: nat, ip: nat)
    requires ClockOk(log)
    ensures Rising(Times(log, from, ip))
    ensures Times(log, from, ip) != [] ==> log != [] && Times(log, from, ip)[|Times(log, from, ip)| - 1] <= log[|log| - 1].time
  {
    if |log| > from {
      var before, f := Times(log[..|log| - 1], from, ip), log[|log| - 1];
      TimesRise(log[..|log| - 1], from, ip);
      if f.ip == ip { RisingSnoc(before, f.time); } else { assert before + [] == before; }
    }
  }

  // Once a time is out of the window, so is every earlier one.
  lemma {:induction false} NoneRecent(times: seq<nat>, now: nat)
    requires Rising(times) && times != [] && now - times[|times| - 1] >= WINDOW_MS
    ensures CountRecent(times, now) == 0
  {
    if |times| > 1 { NoneRecent(times[..|times| - 1], now); }
  }

  lemma CountStep(times: seq<nat>, k: nat, now: nat)
    requires k < |times|
    ensures CountRecent(times[..k + 1], now) == CountRecent(times[..k], now) + if now - times[k] < WINDOW_MS then 1 else 0
  {
    assert times[..k + 1][..k] == times[..k];
  }

  // Five recent times means the last five are recent.
  lemma FiveRecent(times: seq<nat>, now: nat)
    requires Rising(times)
    ensures CountRecent(times, now) >= 5 <==> |times| >= 5 && now - times[|times| - 5] < WINDOW_MS
  {
    hide CountRecent;
    var n := |times|;
    if n >= 5 {
      assert times[..n] == times;
      assert times[n - 5] <= times[n - 4] <= times[n - 3] <= times[n - 2] <= times[n - 1];
      CountStep(times, n - 1, now);
      CountStep(times, n - 2, now);
      CountStep(times, n - 3, now);
      CountStep(times, n - 4, now);
      CountStep(times, n - 5, now);
      if now - times[n - 5] >= WINDOW_MS { NoneRecent(times[..n - 4], now); }
    } else {
      CountBound(times, now);
    }
  }

  lemma {:induction false} CountBound(times: seq<nat>, now: nat)
    ensures CountRecent(times, now) <= |times|
  {
    if times != [] { CountBound(times[..|times| - 1], now); }
  }

  predicate Fresh(t: nat, now: nat) {
    t != 0 && (now - t) % WRAP < WINDOW_MS
  }

  lemma {:induction false} StampCountFull(ts: seq<nat>, now: nat)
    ensures StampCount(ts, now) == |ts| <==> forall k :: 0 <= k < |ts| ==> Fresh(ts[k], now)
  {
    if ts != [] { StampCountFull(ts[..|ts| - 1], now); }
  }

  lemma RingFresh(ts: seq<nat>, head: nat, times: seq<nat>, now: nat)
    requires RingOk(ts, head, times)
    ensures (forall k :: 0 <= k < 5 ==> Fresh(ts[k], now)) <==> (forall k :: 0 <= k < 5 ==> Fresh(Newest(times, k), now))
  {
    if forall k :: 0 <= k < 5 ==> Fresh(Newest(times, k), now) {
      forall k | 0 <= k < 5 ensures Fresh(ts[k], now) {
        var j := if k < head then head - 1 - k else head + 4 - k;
        assert Pos(head, j) == k && Fresh(Newest(times, j), now);
      }
    }
  }

  lemma NewestFresh(times: seq<nat>, now: nat)
    requires Rising(times) && now < WRAP && (times != [] ==> times[|times| - 1] <= now)
    ensures (forall k :: 0 <= k < 5 ==> Fresh(Newest(times, k), now)) <==> |times| >= 5 && now - times[|times| - 5] < WINDOW_MS
  {
    var n := |times|;
    if n >= 5 {
      assert Newest(times, 4) == times[n - 5];
      forall k | 0 <= k < 5 && now - times[n - 5] < WINDOW_MS ensures Fresh(Newest(times, k), now) {
        assert times[n - 5] <= times[n - 1 - k] <= times[n - 1];
      }
    } else {
      assert Newest(times, 4) == 0;
    }
  }

  // A peer is locked out exactly when it has a bucket and at least five of its
  // failures since that bucket was allocated are less than a minute old.
  lemma LockedIffFiveRecentFailures(s: State, ip: nat, now: nat)
    requires Inv(s) && now < WRAP && (s.log != [] ==> s.log[|s.log| - 1].time <= now)
    ensures var r := Find(s.buckets, ip);
            Locked(s.buckets, ip, now) <==> r.Some? && RecentFailures(s.log, s.since[r.value], ip, now) >= FAIL_LIMIT
  {
    var r := Find(s.buckets, ip);
    if r.Some? {
      var b, times := s.buckets[r.value], Times(s.log, s.since[r.value], ip);
      assert BucketOk(b, s.log, s.since[r.value]);
      TimesRise(s.log, s.since[r.value], ip);
      StampCountFull(b.ts, now);
      RingFresh(b.ts, b.head, times, now);
      NewestFresh(times, now);
      FiveRecent(times, now);
      CountRecentTimes(s.log, s.since[r.value], ip, now);
    }
  }

  // ── Runs ─────────────────────────────────────────────────────────────────

  function Run(fs: seq<Failure>): (s: State)
    ensures |s.buckets| == BUCKETS == |s.since|
  {
    if fs == [] then Init() else Record(Run(fs[..|fs| - 1]), fs[|fs| - 1].ip, fs[|fs| - 1].time)
  }

  lemma ClockPrefix(fs: seq<Failure>)
    requires ClockOk(fs) && fs != []
    ensures var before, f := fs[..|fs| - 1], fs[|fs| - 1];
            && ClockOk(before) && 0 < f.time < WRAP && (before != [] ==> before[|before| - 1].time <= f.time)
            && fs == before + [Failure(f.ip, f.time)]
  {
  }

  lemma InitInv()
    ensures Inv(Init())
  {
  }

  lemma RunStep(s: State, before: seq<Failure>, f: Failure)
    requires Inv(s) && s.log == before && 0 < f.time < WRAP && (before != [] ==> before[|before| - 1].time <= f.time)
    ensures Inv(Record(s, f.ip, f.time)) && Record(s, f.ip, f.time).log == before + [Failure(f.ip, f.time)]
  {
    RecordInv(s, f.ip, f.time);
  }

  lemma {:induction false} RunInv(fs: seq<Failure>)
    requires ClockOk(fs)
    ensures Run(fs).log == fs && Inv(Run(fs))
  {
    hide Record, ClockOk, Inv;
    if fs == [] {
      InitInv();
    } else {
      ClockPrefix(fs);
      RunInv(fs[..|fs| - 1]);
      RunStep(Run(fs[..|fs| - 1]), fs[..|fs| - 1], fs[|fs| - 1]);
    }
  }

  lemma {:induction false} TimesInLog(log: seq<Failure>, from: nat, ip: nat) returns (k: nat)
    requires Times(log, from, ip) != []
    ensures from <= k < |log| && log[k] == Failure(ip, Times(log, from, ip)[|Times(log, from, ip)| - 1])
  {
    k := |log| - 1;
    if log[k].ip != ip {
      assert Times(log, from, ip) == Times(log[..k], from, ip) + [] == Times(log[..k], from, ip);
      k := TimesInLog(log[..k], from, ip);
    }
  }

  // Failure index k is by ip, no earlier than time t.
  ghost predicate FailedSince(log: seq<Failure>, ip: nat, t: nat) {
    exists k :: 0 <= k < |log| && log[k].ip == ip && log[k].time >= t
  }

  function Ips(bs: seq<Bucket>): (r: seq<nat>)
    ensures |r| == |bs| && forall i :: 0 <= i < |bs| ==> r[i] == bs[i].ip
  {
    seq(|bs|, i requires 0 <= i < |bs| => bs[i].ip)
  }

  // The peers that stand behind an eviction: those of the other buckets, and the new one.
  function Displacers(bs: seq<Bucket>, victim: nat, ip: nat): set<nat>
    requires victim < |bs|
  {
    Elements(Ips(bs)) - {bs[victim].ip} + {ip}
  }

  lemma DisplacersCount(bs: seq<Bucket>, victim: nat, ip: nat)
    requires |bs| == BUCKETS && victim < |bs| && Distinct(Ips(bs)) && forall i :: 0 <= i < |bs| ==> bs[i].ip != ip
    ensures |Displacers(bs, victim, ip)| == 8 && bs[victim].ip !in Displacers(bs, victim, ip)
  {
    DistinctCard(Ips(bs));
    assert Ips(bs)[victim] in Elements(Ips(bs));
    forall x | x in Ips(bs) ensures x != ip {
      var i :| 0 <= i < |bs| && Ips(bs)[i] == x;
    }
  }

  // With every bucket in use, the addresses are those of the eight buckets.
  lemma AllInUse(s: State, ip: nat)
    requires Inv(s) && Find(s.buckets, ip).None? && s.buckets[Lru(s.buckets)].lastUse != 0
    ensures Distinct(Ips(s.buckets)) && forall i :: 0 <= i < BUCKETS ==> s.buckets[i].lastUse != 0 && s.buckets[i].ip != ip
  {
    forall i | 0 <= i < BUCKETS ensures s.buckets[i].lastUse != 0 {
      assert s.buckets[Lru(s.buckets)].lastUse <= s.buckets[i].lastUse;
    }
  }

  lemma BucketFailed(s: State, i: nat, log': seq<Failure>)
    requires Inv(s) && i < BUCKETS && s.buckets[i].lastUse != 0 && s.log <= log'
    ensures FailedSince(log', s.buckets[i].ip, s.buckets[i].lastUse)
  {
    assert BucketOk(s.buckets[i], s.log, s.since[i]);
    var k := TimesInLog(s.log, s.since[i], s.buckets[i].ip);
    assert log'[k] == s.log[k];
  }

  // A bucket in use is given away only after failures of eight other peers, each no
  // earlier than the victim's last.
  lemma EvictedByEightOthers(s: State, ip: nat, now: nat)
    requires Inv(s) && (s.log != [] ==> s.log[|s.log| - 1].time <= now)
    requires Find(s.buckets, ip).None? && s.buckets[Lru(s.buckets)].lastUse != 0
    ensures var v := Lru(s.buckets);
            var victim, others := s.buckets[v], Displacers(s.buckets, v, ip);
            && |others| == 8 && victim.ip !in others
            && forall x :: x in others ==> FailedSince(Record(s, ip, now).log, x, victim.lastUse)
  {
    var v := Lru(s.buckets);
    var bs, log' := s.buckets, Record(s, ip, now).log;
    AllInUse(s, ip);
    DisplacersCount(bs, v, ip);
    TimesLastBelow(s, v);
    assert log'[|s.log|] == Failure(ip, now);
    forall x | x in Displacers(bs, v, ip) ensures FailedSince(log', x, bs[v].lastUse) {
      if x != ip {
        var i :| 0 <= i < |bs| && Ips(bs)[i] == x;
        BucketFailed(s, i, log');
        var k :| 0 <= k < |log'| && log'[k].ip == x && log'[k].time >= bs[i].lastUse;
      }
    }
  }

  lemma TimesLastBelow(s: State, i: nat)
    requires Inv(s) && i < BUCKETS && s.buckets[i].lastUse != 0
    ensures s.log != [] && s.buckets[i].lastUse <= s.log[|s.log| - 1].time
  {
    assert BucketOk(s.buckets[i], s.log, s.since[i]);
    TimesRise(s.log, s.since[i], s.buckets[i].ip);
  }

  // ── Up to eight peers, the buckets are the full history ──────────────────

  function Peers(log: seq<Failure>): set<nat> {
    set k | 0 <= k < |log| :: log[k].ip
  }

  // Every failure so far is counted in the bucket of its peer.
  ghost predicate Complete(s: State) {
    |s.buckets| == |s.since| && forall k :: 0 <= k < |s.log| ==>
      var r := Find(s.buckets, s.log[k].ip);
      r.Some? && r.value < |s.since| && s.since[r.value] <= k
  }

  lemma BucketPeers(s: State)
    requires Inv(s) && forall i :: 0 <= i < BUCKETS ==> s.buckets[i].lastUse != 0
    ensures |Elements(Ips(s.buckets))| == 8 && Elements(Ips(s.buckets)) <= Peers(s.log)
  {
    var ips := Ips(s.buckets);
    DistinctCard(ips);
    forall x | x in ips ensures x in Peers(s.log) {
      var i :| 0 <= i < |ips| && ips[i] == x;
      assert BucketOk(s.buckets[i], s.log, s.since[i]);
      var k := TimesInLog(s.log, s.since[i], x);
    }
  }

  // With at most eight peers a new one finds a free bucket.
  lemma FreeBucket(s: State, ip: nat, log': seq<Failure>)
    requires Inv(s) && Find(s.buckets, ip).None? && |Peers(log')| <= 8 && Peers(s.log) + {ip} <= Peers(log')
    ensures s.buckets[Lru(s.buckets)].lastUse == 0
  {
    var bs := s.buckets;
    if bs[Lru(bs)].lastUse != 0 {
      forall i | 0 <= i < BUCKETS ensures bs[i].lastUse != 0 { assert bs[Lru(bs)].lastUse <= bs[i].lastUse; }
      BucketPeers(s);
      SubsetCard(Elements(Ips(bs)) + {ip}, Peers(log'));
    }
  }

  lemma FindUnique(bs: seq<Bucket>, i: nat, ip: nat)
    requires i < |bs| && bs[i].lastUse != 0 && bs[i].ip == ip
    requires forall j, k :: 0 <= j < k < |bs| && bs[j].lastUse != 0 && bs[k].lastUse != 0 ==> bs[j].ip != bs[k].ip
    ensures Find(bs, ip) == Some(i)
  {
  }

  lemma PeersGrow(log: seq<Failure>, ip: nat, now: nat)
    ensures Peers(log) + {ip} <= Peers(log + [Failure(ip, now)])
  {
    var log' := log + [Failure(ip, now)];
    assert log'[|log|].ip == ip;
    forall x | x in Peers(log) ensures x in Peers(log') {
      var k :| 0 <= k < |log| && log[k].ip == x;
      assert log'[k].ip == x;
    }
  }

  lemma CompleteStep(s: State, ip: nat, now: nat)
    requires Inv(s) && Inv(Record(s, ip, now)) && Complete(s) && now > 0 && |Peers(Record(s, ip, now).log)| <= 8
    ensures Complete(Record(s, ip, now))
  {
    var s', i := Record(s, ip, now), Slot(s.buckets, ip);
    PeersGrow(s.log, ip, now);
    if Find(s.buckets, ip).None? { FreeBucket(s, ip, s'.log); }
    RecordBucket(s, ip, now);
    FindUnique(s'.buckets, i, ip);
    forall k | 0 <= k < |s'.log|
      ensures Find(s'.buckets, s'.log[k].ip).Some? && s'.since[Find(s'.buckets, s'.log[k].ip).value] <= k
    {
      if k < |s.log| {
        var r := Find(s.buckets, s.log[k].ip);
        FindUnique(s'.buckets, r.value, s.log[k].ip);
      }
    }
  }

  lemma PeersPrefix(fs: seq<Failure>)
    requires fs != []
    ensures |Peers(fs[..|fs| - 1])| <= |Peers(fs)|
  {
    forall x | x in Peers(fs[..|fs| - 1]) ensures x in Peers(fs) {
      var k :| 0 <= k < |fs| - 1 && fs[..|fs| - 1][k].ip == x;
      assert fs[k].ip == x;
    }
    SubsetCard(Peers(fs[..|fs| - 1]), Peers(fs));
  }

  lemma {:induction false} RunComplete(fs: seq<Failure>)
    requires ClockOk(fs) && |Peers(fs)| <= 8
    ensures Complete(Run(fs))
  {
    if fs != [] {
      var before := fs[..|fs| - 1];
      ClockPrefix(fs);
      PeersPrefix(fs);
      RunComplete(before);
      RunInv(before);
      RunInv(fs);
      hide ClockOk, Inv, Complete, Peers, Record;
      CompleteStep(Run(before), fs[|fs| - 1].ip, fs[|fs| - 1].time);
    }
  }

  // Nothing of ip before `from`.
  lemma {:induction false} RecentFrom(log: seq<Failure>, from: nat, ip: nat, now: nat)
    requires forall k :: 0 <= k < |log| && log[k].ip == ip ==> from <= k
    ensures RecentFailures(log, from, ip, now) == RecentFailures(log, 0, ip, now)
    decreases |log|
  {
    if log != [] {
      RecentFrom(log[..|log| - 1], from, ip, now);
      if |log| <= from { assert RecentFailures(log[..|log| - 1], from, ip, now) == 0; }
    }
  }

  // As long as no more than eight peers have ever failed, the answer is that of the
  // full history: locked exactly with five failures in the last minute.
  lemma ExactForEightPeers(fs: seq<Failure>, ip: nat, now: nat)
    requires ClockOk(fs) && |Peers(fs)| <= 8 && now < WRAP && (fs != [] ==> fs[|fs| - 1].time <= now)
    ensures Locked(Run(fs).buckets, ip, now) <==> RecentFailures(fs, 0, ip, now) >= FAIL_LIMIT
  {
    var s := Run(fs);
    RunInv(fs);
    RunComplete(fs);
    LockedIffFiveRecentFailures(s, ip, now);
    var r := Find(s.buckets, ip);
    RecentFrom(fs, if r.Some? then s.since[r.value] else |fs|, ip, now);
  }

  lemma {:induction false} RecentShrinks(log: seq<Failure>, from: nat, ip: nat, now: nat)
    ensures RecentFailures(log, from, ip, now) <= RecentFailures(log, 0, ip, now)
    decreases |log|
  {
    if |log| > from { RecentShrinks(log[..|log| - 1], from, ip, now); }
  }

  // However many peers there are, nobody is locked out without five recent failures.
  lemma NeverLockedWithoutFive(fs: seq<Failure>, ip: nat, now: nat)
    requires ClockOk(fs) && now < WRAP && (fs != [] ==> fs[|fs| - 1].time <= now)
    requires Locked(Run(fs).buckets, ip, now)
    ensures RecentFailures(fs, 0, ip, now) >= FAIL_LIMIT
  {
    var s := Run(fs);
    RunInv(fs);
    LockedIffFiveRecentFailures(s, ip, now);
    RecentShrinks(fs, s.since[Find(s.buckets, ip).value], ip, now);
  }

  // ── The code ─────────────────────────────────────────────────────────────

  lemma FindPrefix(bs: seq<Bucket>, n: nat, ip: nat)
    requires n <= |bs| && Find(bs[..n], ip).Some?
    ensures Find(bs, ip) == Find(bs[..n], ip)
    decreases |bs| - n
  {
    if n < |bs| {
      assert bs[..n + 1][..n] == bs[..n];
      FindPrefix(bs, n + 1, ip);
    } else {
      assert bs[..n] == bs;
    }
  }

  class Lockout {
    const buckets: array<Bucket>
    ghost var log: seq<Failure>
    ghost var since: seq<nat>

    ghost predicate Shows(s: State)
      reads this, buckets
    {
      buckets.Length == BUCKETS && s == State(buckets[..], log, since)
    }

    constructor ()
      ensures Shows(Init()) && fresh(buckets)
    {
      buckets := new Bucket[BUCKETS](_ => FREE);
      log, since := [], seq(BUCKETS, _ => 0);
      new;
      assert buckets[..] == seq(BUCKETS, _ => FREE);
    }

    // auth_bucket_find
    method BucketFind(ip: nat) returns (r: Option<nat>)
      ensures r == Find(buckets[..], ip)
    {
      var i := 0;
      while i < buckets.Length
        invariant i <= buckets.Length
        invariant Find(buckets[..i], ip) == None
      {
        assert buckets[..i + 1][..i] == buckets[..i];
        if buckets[i].lastUse != 0 && buckets[i].ip == ip {
          FindPrefix(buckets[..], i + 1, ip);
          return Some(i);
        }
        i := i + 1;
      }
      assert buckets[..i] == buckets[..];
      return None;
    }

    // auth_bucket_get: find, or give the least recently used one to ip.
    method BucketGet(ip: nat, now: nat) returns (i: nat)
      requires buckets.Length == BUCKETS
      modifies buckets
      ensures i == Slot(old(buckets[..]), ip)
      ensures var b := if Find(old(buckets[..]), ip).Some? then old(buckets[..])[i] else FREE.(ip := ip);
              buckets[..] == old(buckets[..])[i := b.(lastUse := now)]
    {
      var found := BucketFind(ip);
      if found.Some? {
        i := found.value;
        buckets[i] := buckets[i].(lastUse := now);
        return;
      }
      i := 0;
      var k := 1;
      while k < buckets.Length
        invariant 1 <= k <= buckets.Length
        invariant i == Lru(buckets[..k])
      {
        assert buckets[..k + 1][..k] == buckets[..k];
        if buckets[k].lastUse < buckets[i].lastUse { i := k; }
        k := k + 1;
      }
      assert buckets[..k] == buckets[..];
      buckets[i] := FREE.(ip := ip, lastUse := now);
    }

    // auth_record_failure; nothing happens when the mutex is not obtained.
    method RecordFailure(ip: nat, now: nat, taken: bool, ghost s: State)
      requires Shows(s) && Inv(s)
      modifies this, buckets
      ensures Shows(if taken then Record(s, ip, now) else s)
    {
      if !taken { return; }
      var i := BucketGet(ip, now);
      var b := buckets[i];
      if Find(s.buckets, ip).Some? { SlotHead(s, ip); }
      buckets[i] := b.(ts := b.ts[b.head := now], head := (b.head + 1) % FAIL_LIMIT);
      if Find(s.buckets, ip).None? { since := since[i := |log|]; }
      log := log + [Failure(ip, now)];
    }

    // auth_is_locked
    method IsLocked(ip: nat, now: nat, taken: bool) returns (r: bool)
      requires buckets.Length == BUCKETS
      ensures r == (taken && Locked(buckets[..], ip, now))
    {
      if !taken { return false; }
      var recent: nat := 0;
      var found := BucketFind(ip);
      if found.Some? {
        var ts := buckets[found.value].ts;
        var k := 0;
        while k < FAIL_LIMIT
          invariant k <= FAIL_LIMIT
          invariant recent == StampCount(ts[..k], now)
        {
          assert ts[..k + 1][..k] == ts[..k];
          if ts[k] != 0 && (now - ts[k]) % WRAP < WINDOW_MS { recent := recent + 1; }
          k := k + 1;
        }
        assert ts[..k] == ts;
      }
      return recent >= FAIL_LIMIT;
    }
  }

  lemma SlotHead(s: State, ip: nat)
    requires Inv(s) && Find(s.buckets, ip).Some?
    ensures s.buckets[Slot(s.buckets, ip)].head < 5
  {
    assert BucketOk(s.buckets[Slot(s.buckets, ip)], s.log, s.since[Slot(s.buckets, ip)]);
  }
}
