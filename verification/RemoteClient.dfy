// components/remote_client: the cloud client's task loop over its state machine.
// One pass of the loop takes the posted event bits, drains the receive queue and
// runs the action of the state it ends up in; a run is passes, posts and respawns.
module RemoteClient {
  import opened Common

  datatype RemoteState = Disabled | IdleNoWifi | Connecting | Authenticating | Ready | Backoff

  datatype RemoteEvent =
    | EvEnable | EvDisable | EvWifiUp | EvWifiDown | EvWssConnect | EvWssError
    | EvAuthOk | EvAuthFail | EvAuthTimeout | EvBackoffDone

  // remote_state_next
  function Next(cur: RemoteState, ev: RemoteEvent): RemoteState {
    if ev.EvDisable? then Disabled
    else if ev.EvWifiDown? then if cur.Disabled? then Disabled else IdleNoWifi
    else
      match cur
      case Disabled => if ev.EvEnable? then IdleNoWifi else Disabled
      case IdleNoWifi => if ev.EvWifiUp? then Connecting else IdleNoWifi
      case Connecting =>
        if ev.EvWssConnect? then Authenticating else if ev.EvWssError? then Backoff else Connecting
      case Authenticating =>
        if ev.EvAuthOk? then Ready
        else if ev.EvAuthFail? || ev.EvAuthTimeout? || ev.EvWssError? then Backoff
        else Authenticating
      case Ready => if ev.EvWssError? then Backoff else Ready
      case Backoff => if ev.EvBackoffDone? then Connecting else Backoff
  }

  datatype Bit =
    | BitEnable | BitDisable | BitWifiUp | BitWifiDown | BitWss
    | BitAuthOk | BitAuthFail | BitBackoffDone | BitTx | BitReload

  // Bits posted by other tasks; the rest are posted by the loop itself.
  predicate External(b: Bit) {
    !b.BitAuthOk? && !b.BitAuthFail? && !b.BitBackoffDone?
  }

  datatype Cmd = RemoteAuth | Allowed | NotAllowed

  // A received frame: its id (0 when absent), its ok flag, the class of its command,
  // the random number drawn if it is answered with an auth frame, and, as history, the
  // socket it came over.
  datatype Frame = Frame(parses: bool, id: nat, ok: bool, cmd: Cmd, draw: nat, conn: nat)

  // An accepted auth reply: which auth frame it answers, and whether it grants.
  datatype Consumption = Consumption(issue: int, id: nat, ok: bool)

  datatype State = State(
    state: RemoteState,
    lastState: RemoteState,        // of the running incarnation of the task
    alive: bool,
    authId: nat,                   // s_auth_id; 0 = none pending
    enterMs: nat,                  // s_auth_enter_ms
    attempt: nat,                  // s_attempt
    ws: bool,                      // s_ws != nullptr
    bits: set<Bit>,
    rx: seq<Frame>,                // s_rx_queue
    // history
    conns: nat,                    // sockets started so far
    issued: seq<nat>,              // ids of the auth frames, in order
    consumed: seq<Consumption>,
    readyEntries: nat,             // times the state was set to Ready from another state
    dispatched: seq<Frame>)

  function Init(): State {
    State(Disabled, Disabled, false, 0, 0, 0, false, {}, [], 0, [], [], 0, [])
  }

  // Every write of s_state goes through here.
  function Store(s: State, st: RemoteState): State {
    s.(state := st, readyEntries := s.readyEntries + if st.Ready? && !s.state.Ready? then 1 else 0)
  }

  function Step(s: State, ev: RemoteEvent): State {
    Store(s, Next(s.state, ev))
  }

  // send_auth_frame: a positive 31-bit id.
  function NewId(draw: nat): nat {
    if draw % 0x8000_0000 == 0 then 1 else draw % 0x8000_0000
  }

  function SendAuth(s: State, draw: nat): State {
    s.(authId := NewId(draw), issued := s.issued + [NewId(draw)])
  }

  // handle_rx_frame
  function HandleRx(s: State, f: Frame): State {
    if !f.parses then s
    else if s.state.Authenticating? then
      if s.authId != 0 && f.id == s.authId then
        var u := s.(authId := 0, consumed := s.consumed + [Consumption(|s.issued| - 1, f.id, f.ok)]);
        if f.ok then Store(u, Ready).(bits := u.bits + {BitAuthOk}) else u.(bits := u.bits + {BitAuthFail})
      else s
    else if s.state.Ready? && f.cmd.RemoteAuth? then SendAuth(s, f.draw)
    else if !f.cmd.Allowed? then s
    else s.(dispatched := s.dispatched + [f])
  }

  function Drain(s: State, frames: seq<Frame>): State
    decreases |frames|
  {
    if frames == [] then s else HandleRx(Drain(s, frames[..|frames| - 1]), frames[|frames| - 1])
  }

  // What the environment answers during one pass.
  datatype Input = Input(
    frames: seq<Frame>, // received while the queue is drained
    late: seq<Frame>,   // received after that, before the pass is over
    draw: nat,          // for the auth frame sent on entering Authenticating
    now: nat,           // the clock on entering Authenticating
    later: nat,         // the clock at the timeout test
    uplink: bool,       // uplink_has_ip
    started: bool,      // esp_websocket_client_init succeeded
    connected: bool,    // esp_websocket_client_is_connected
    during: set<Bit>)   // external bits posted before the backoff wait is over

  function StepIf(s: State, c: bool, ev: RemoteEvent): State {
    if c then Step(s, ev) else s
  }

  // The bit dispatch at the top of a pass.
  function Top(s: State, b: set<Bit>): State {
    var s1 := StepIf(s, BitDisable in b, EvDisable);
    var s2 := StepIf(s1, BitEnable in b, EvEnable);
    var s3 := StepIf(s2, BitWifiDown in b, EvWifiDown);
    StepIf(s3, BitWifiUp in b, EvWifiUp)
  }

  const WRAP: nat := 0x1_0000_0000
  const AUTH_TIMEOUT_MS: nat := 5000

  function Elapsed(later: nat, earlier: nat): nat {
    (later - earlier) % WRAP
  }

  // The auth frame of the entering pass, if it is one.
  function Entered(s: State, inp: Input): State {
    if !s.lastState.Authenticating? then SendAuth(s.(enterMs := inp.now), inp.draw) else s
  }

  function InAuthenticating(s: State, b: set<Bit>, inp: Input): State {
    var u := Entered(s, inp);
    if BitAuthOk in b then Step(u, EvAuthOk)
    else if BitAuthFail in b then Step(u, EvAuthFail)
    else if BitWss in b && u.ws && !inp.connected then Step(u, EvWssError)
    else if Elapsed(inp.later, u.enterMs) >= AUTH_TIMEOUT_MS then Step(u.(authId := 0), EvAuthTimeout)
    else u
  }

  function InBackoff(s: State, inp: Input): State {
    var u := s.(ws := false, attempt := (s.attempt + 1) % 256);
    if BitDisable in u.bits || BitWifiDown in u.bits then u
    else Step(u.(bits := u.bits + {BitBackoffDone}), EvBackoffDone)
  }

  // The switch over the current state.
  function Switch(s: State, b: set<Bit>, inp: Input): State {
    match s.state
    case Disabled => s.(ws := false, alive := false)
    case IdleNoWifi => StepIf(s.(ws := false), inp.uplink, EvWifiUp)
    case Connecting =>
      var u := if !s.ws && inp.started then s.(ws := true, conns := s.conns + 1) else s;
      StepIf(u, BitWss in b, if u.ws && inp.connected then EvWssConnect else EvWssError)
    case Authenticating => InAuthenticating(s, b, inp)
    case Ready => if s.ws && !inp.connected then Step(s, EvWssError) else s.(attempt := 0)
    case Backoff => InBackoff(s, inp)
  }

  const RX_DEPTH: nat := 4

  // What the receive queue keeps; the rest is dropped.
  function Kept(frames: seq<Frame>): seq<Frame> {
    if |frames| > RX_DEPTH then frames[..RX_DEPTH] else frames
  }

  // The frames one pass drains.
  function Drained(s: State, inp: Input): seq<Frame> {
    s.rx + inp.frames
  }

  // The pass takes the bits and empties the queue.
  function Begin(s: State): State {
    s.(bits := {}, rx := [])
  }

  // The state the switch of a pass looks at.
  function AtSwitch(s: State, inp: Input): State {
    var u := Drain(Top(Begin(s), s.bits), Drained(s, inp));
    u.(bits := u.bits + inp.during, rx := Kept(inp.late))
  }

  function Pass(s: State, inp: Input): State {
    var u := AtSwitch(s, inp);
    Switch(u, s.bits, inp).(lastState := u.state)
  }

  datatype Op =
    | Post(b: Bit)         // by another task
    | Receive(f: Frame)    // by the socket's event handler
    | Spawn                // remote_task_spawn
    | Loop(inp: Input)     // one pass of the running task

  // Bits other tasks may post: the socket's only while there is a socket.
  predicate FromOutside(s: State, bs: set<Bit>) {
    (forall b :: b in bs ==> External(b)) && (BitWss in bs ==> s.ws)
  }

  // Frames come over the socket there is.
  predicate OverSocket(s: State, frames: seq<Frame>) {
    (frames != [] ==> s.ws) && forall k :: 0 <= k < |frames| ==> frames[k].conn == s.conns
  }

  predicate Enabled(s: State, op: Op) {
    match op
    case Post(b) => FromOutside(s, {b})
    case Receive(f) => OverSocket(s, [f])
    case Spawn => !s.alive
    case Loop(inp) => s.alive && FromOutside(s, inp.during) && OverSocket(s, inp.frames) && OverSocket(s, inp.late)
  }

  // A fresh task starts from Disabled, whatever the last incarnation saw.
  function Apply(s: State, op: Op): State {
    match op
    case Post(b) => s.(bits := s.bits + {b})
    case Receive(f) => s.(rx := Kept(s.rx + [f]))
    case Spawn => s.(alive := true, lastState := Disabled)
    case Loop(inp) => Pass(s, inp)
  }

  ghost function Exec(ops: seq<Op>): Option<State> {
    if ops == [] then Some(Init())
    else
      match Exec(ops[..|ops| - 1])
      case None => None
      case Some(s) => if Enabled(s, ops[|ops| - 1]) then Some(Apply(s, ops[|ops| - 1])) else None
  }

  // ── Invariant ────────────────────────────────────────────────────────────

  function GrantsOf(cs: seq<Consumption>): nat {
    if cs == [] then 0 else GrantsOf(cs[..|cs| - 1]) + if cs[|cs| - 1].ok then 1 else 0
  }

  // A pending id is the last one issued and not consumed yet; every consumption took
  // the nonzero id of its own auth frame, each frame at most once.
  ghost predicate IdsOk(authId: nat, issued: seq<nat>, consumed: seq<Consumption>) {
    && (forall i :: 0 <= i < |issued| ==> issued[i] > 0)
    && (authId != 0 ==> issued != [] && issued[|issued| - 1] == authId)
    && (forall k :: 0 <= k < |consumed| ==>
          && 0 <= consumed[k].issue < |issued| - (if authId != 0 then 1 else 0)
          && consumed[k].id == issued[consumed[k].issue])
    && (forall j, k :: 0 <= j < k < |consumed| ==> consumed[j].issue < consumed[k].issue)
  }

  ghost predicate HistoryOk(s: State) {
    IdsOk(s.authId, s.issued, s.consumed) && s.readyEntries == GrantsOf(s.consumed)
  }

  // A posted AUTH_OK finds the client already past Authenticating.
  ghost predicate BitOk(s: State) {
    BitAuthOk in s.bits ==> s.state.Ready? || s.state.Backoff?
  }

  ghost predicate Inv(s: State) {
    HistoryOk(s) && BitOk(s)
  }

  // The history is as it was.
  predicate SameHistory(s: State, s': State) {
    s'.authId == s.authId && s'.issued == s.issued && s'.consumed == s.consumed && s'.readyEntries == s.readyEntries
  }

  // No step but AUTH_OK in Authenticating enters Ready.
  lemma StepQuiet(s: State, c: bool, ev: RemoteEvent)
    requires c ==> !(s.state.Authenticating? && ev.EvAuthOk?)
    ensures SameHistory(s, StepIf(s, c, ev)) && StepIf(s, c, ev).bits == s.bits
  {
  }

  lemma SendOk(s: State, draw: nat)
    requires HistoryOk(s)
    ensures HistoryOk(SendAuth(s, draw))
  {
  }

  lemma ConsumeOk(authId: nat, issued: seq<nat>, consumed: seq<Consumption>, ok: bool)
    requires IdsOk(authId, issued, consumed) && authId != 0
    ensures IdsOk(0, issued, consumed + [Consumption(|issued| - 1, authId, ok)])
    ensures GrantsOf(consumed + [Consumption(|issued| - 1, authId, ok)]) == GrantsOf(consumed) + if ok then 1 else 0
  {
    assert (consumed + [Consumption(|issued| - 1, authId, ok)])[..|consumed|] == consumed;
  }

  lemma HistoryFrame(s: State, s': State)
    requires HistoryOk(s) && SameHistory(s, s')
    ensures HistoryOk(s')
  {
  }

  lemma ForgetOk(s: State)
    requires HistoryOk(s)
    ensures HistoryOk(s.(authId := 0))
  {
  }

  // A matching reply.
  lemma MatchOk(s: State, f: Frame)
    requires HistoryOk(s) && s.state.Authenticating? && f.parses && s.authId != 0 && f.id == s.authId
    ensures HistoryOk(HandleRx(s, f))
  {
    ConsumeOk(s.authId, s.issued, s.consumed, f.ok);
  }

  lemma HandleOk(s: State, f: Frame)
    requires HistoryOk(s) && (BitAuthOk in s.bits ==> s.state.Ready?)
    ensures HistoryOk(HandleRx(s, f)) && (BitAuthOk in HandleRx(s, f).bits ==> HandleRx(s, f).state.Ready?)
  {
    var s' := HandleRx(s, f);
    if s.state.Authenticating? && f.parses && s.authId != 0 && f.id == s.authId {
      MatchOk(s, f);
    } else if s.state.Ready? && f.parses && f.cmd.RemoteAuth? {
      SendOk(s, f.draw);
    } else {
      HistoryFrame(s, s');
    }
  }

  lemma {:induction false} DrainOk(s: State, frames: seq<Frame>)
    requires HistoryOk(s) && (BitAuthOk in s.bits ==> s.state.Ready?)
    ensures HistoryOk(Drain(s, frames)) && (BitAuthOk in Drain(s, frames).bits ==> Drain(s, frames).state.Ready?)
    decreases |frames|
  {
    if frames != [] {
      DrainOk(s, frames[..|frames| - 1]);
      HandleOk(Drain(s, frames[..|frames| - 1]), frames[|frames| - 1]);
    }
  }

  // A client that is not in Authenticating does not get there by draining frames.
  lemma {:induction false} DrainKeepsOut(s: State, frames: seq<Frame>)
    requires !s.state.Authenticating?
    ensures Drain(s, frames).state == s.state && Drain(s, frames).bits == s.bits
    decreases |frames|
  {
    if frames != [] { DrainKeepsOut(s, frames[..|frames| - 1]); }
  }

  lemma TopQuiet(s: State, b: set<Bit>)
    ensures SameHistory(s, Top(s, b)) && Top(s, b).bits == s.bits
  {
    StepQuiet(s, BitDisable in b, EvDisable);
    var s1 := StepIf(s, BitDisable in b, EvDisable);
    StepQuiet(s1, BitEnable in b, EvEnable);
    var s2 := StepIf(s1, BitEnable in b, EvEnable);
    StepQuiet(s2, BitWifiDown in b, EvWifiDown);
    StepQuiet(StepIf(s2, BitWifiDown in b, EvWifiDown), BitWifiUp in b, EvWifiUp);
  }

  // The dispatch never leads to Authenticating.
  lemma TopKeepsOut(s: State, b: set<Bit>)
    requires !s.state.Authenticating?
    ensures !Top(s, b).state.Authenticating?
  {
    var s1 := StepIf(s, BitDisable in b, EvDisable);
    var s2 := StepIf(s1, BitEnable in b, EvEnable);
    var s3 := StepIf(s2, BitWifiDown in b, EvWifiDown);
    assert !s1.state.Authenticating?;
    assert !s2.state.Authenticating?;
    assert !s3.state.Authenticating?;
  }

  // The bit AUTH_OK is never observed while the state is Authenticating.
  lemma AuthOkNeverSeen(s: State, inp: Input)
    requires Inv(s) && FromOutside(s, inp.during)
    ensures HistoryOk(AtSwitch(s, inp))
    ensures BitAuthOk in s.bits ==> !AtSwitch(s, inp).state.Authenticating?
    ensures BitAuthOk in AtSwitch(s, inp).bits ==> AtSwitch(s, inp).state.Ready?
  {
    var u := Begin(s);
    TopQuiet(u, s.bits);
    DrainOk(Top(u, s.bits), Drained(s, inp));
    if BitAuthOk in s.bits {
      TopKeepsOut(u, s.bits);
      DrainKeepsOut(Top(u, s.bits), Drained(s, inp));
    }
  }

  lemma EnteredOk(s: State, inp: Input)
    requires HistoryOk(s)
    ensures HistoryOk(Entered(s, inp)) && Entered(s, inp).bits == s.bits && Entered(s, inp).state == s.state
  {
    SendOk(s.(enterMs := inp.now), inp.draw);
  }

  // What follows only steps out of Authenticating, and may forget the pending id.
  lemma InAuthRest(s: State, b: set<Bit>, inp: Input)
    requires s.state.Authenticating? && BitAuthOk !in b
    ensures var u, r := Entered(s, inp), InAuthenticating(s, b, inp);
            r.bits == u.bits && (SameHistory(u, r) || SameHistory(u.(authId := 0), r))
  {
  }

  lemma InAuthOk(s: State, b: set<Bit>, inp: Input)
    requires HistoryOk(s) && s.state.Authenticating? && BitAuthOk !in b && BitAuthOk !in s.bits
    ensures HistoryOk(InAuthenticating(s, b, inp)) && BitAuthOk !in InAuthenticating(s, b, inp).bits
  {
    var u, r := Entered(s, inp), InAuthenticating(s, b, inp);
    EnteredOk(s, inp);
    InAuthRest(s, b, inp);
    hide InAuthenticating, Entered, HistoryOk;
    ForgetOk(u);
    if SameHistory(u, r) { HistoryFrame(u, r); } else { HistoryFrame(u.(authId := 0), r); }
  }

  // The other cases leave the history alone.
  lemma SwitchQuiet(s: State, b: set<Bit>, inp: Input)
    requires !s.state.Authenticating?
    ensures SameHistory(s, Switch(s, b, inp))
    ensures BitAuthOk in Switch(s, b, inp).bits ==> BitAuthOk in s.bits
    ensures s.state.Ready? ==> Switch(s, b, inp).state.Ready? || Switch(s, b, inp).state.Backoff?
  {
  }

  lemma SwitchOk(s: State, b: set<Bit>, inp: Input)
    requires HistoryOk(s) && !(s.state.Authenticating? && BitAuthOk in b)
    requires BitAuthOk in s.bits ==> s.state.Ready?
    ensures Inv(Switch(s, b, inp))
  {
    if s.state.Authenticating? {
      InAuthOk(s, b, inp);
    } else {
      SwitchQuiet(s, b, inp);
      HistoryFrame(s, Switch(s, b, inp));
    }
  }

  lemma OpInv(s: State, op: Op)
    requires Inv(s) && Enabled(s, op)
    ensures Inv(Apply(s, op))
  {
    if op.Loop? {
      AuthOkNeverSeen(s, op.inp);
      SwitchOk(AtSwitch(s, op.inp), s.bits, op.inp);
    }
  }

  lemma {:induction false} RunInv(ops: seq<Op>)
    ensures Exec(ops).Some? ==> Inv(Exec(ops).value)
  {
    if ops != [] {
      RunInv(ops[..|ops| - 1]);
      if Exec(ops).Some? { OpInv(Exec(ops[..|ops| - 1]).value, ops[|ops| - 1]); }
    }
  }

  // ── Main results, over every run ─────────────────────────────────────────

  lemma {:induction false} GrantsBounded(cs: seq<Consumption>, bound: nat)
    requires forall k :: 0 <= k < |cs| ==> 0 <= cs[k].issue < bound
    requires forall j, k :: 0 <= j < k < |cs| ==> cs[j].issue < cs[k].issue
    ensures GrantsOf(cs) <= |cs| <= bound
  {
    if cs != [] {
      var n := |cs| - 1;
      GrantsBounded(cs[..n], cs[n].issue);
    }
  }

  // Every entry to Ready consumed the id of an auth frame, no frame was consumed
  // twice, so Ready is entered at most once per auth frame sent.
  lemma ReadyNeedsItsOwnAuthFrame(ops: seq<Op>)
    requires Exec(ops).Some?
    ensures var s := Exec(ops).value;
            && s.readyEntries == GrantsOf(s.consumed) <= |s.consumed| <= |s.issued|
            && (forall k :: 0 <= k < |s.consumed| ==>
                  0 <= s.consumed[k].issue < |s.issued| && s.consumed[k].id == s.issued[s.consumed[k].issue] > 0)
            && (forall j, k :: 0 <= j < k < |s.consumed| ==> s.consumed[j].issue < s.consumed[k].issue)
  {
    RunInv(ops);
    var s := Exec(ops).value;
    GrantsBounded(s.consumed, |s.issued|);
  }

  // AUTH_OK is posted only to be seen past Authenticating: the step for it there, the
  // only other way into Ready, is dead in every run.
  lemma StepToReadyIsDead(ops: seq<Op>, inp: Input)
    requires Exec(ops).Some? && Enabled(Exec(ops).value, Loop(inp))
    ensures var s := Exec(ops).value;
            !(AtSwitch(s, inp).state.Authenticating? && BitAuthOk in s.bits)
  {
    RunInv(ops);
    AuthOkNeverSeen(Exec(ops).value, inp);
  }

  function AllowedOf(frames: seq<Frame>): seq<Frame> {
    if frames == [] then []
    else
      var f := frames[|frames| - 1];
      AllowedOf(frames[..|frames| - 1]) + if f.parses && f.cmd.Allowed? then [f] else []
  }

  // Outside Authenticating every allowed command is dispatched, whatever the state.
  lemma {:induction false} DrainOutside(s: State, frames: seq<Frame>)
    requires !s.state.Authenticating?
    ensures Drain(s, frames).state == s.state && Drain(s, frames).dispatched == s.dispatched + AllowedOf(frames)
    ensures Drain(s, frames).consumed == s.consumed
    decreases |frames|
  {
    if frames != [] { DrainOutside(s, frames[..|frames| - 1]); }
  }

  lemma {:induction false} DrainUnmatched(s: State, frames: seq<Frame>)
    requires s.state.Authenticating?
    requires forall k :: 0 <= k < |frames| && frames[k].parses ==> frames[k].id != s.authId || s.authId == 0
    ensures Drain(s, frames) == s
    decreases |frames|
  {
    if frames != [] { DrainUnmatched(s, frames[..|frames| - 1]); }
  }

  lemma {:induction false} DrainAppend(s: State, a: seq<Frame>, b: seq<Frame>)
    ensures Drain(s, a + b) == Drain(Drain(s, a), b)
    decreases |b|
  {
    if b == [] {
      assert a + b == a;
    } else {
      assert (a + b)[..|a + b| - 1] == a + b[..|b| - 1];
      DrainAppend(s, a, b[..|b| - 1]);
    }
  }

  // In one drain: what comes before the granting reply reaches no command, and every
  // allowed command that follows it does, in order.
  lemma CommandsBehindTheAck(s: State, before: seq<Frame>, ack: Frame, after: seq<Frame>)
    requires s.state.Authenticating? && s.authId != 0
    requires forall k :: 0 <= k < |before| && before[k].parses ==> before[k].id != s.authId
    requires ack.parses && ack.id == s.authId && ack.ok
    ensures var s' := Drain(s, before + [ack] + after);
            s'.state.Ready? && s'.dispatched == s.dispatched + AllowedOf(after)
  {
    DrainAppend(s, before + [ack], after);
    DrainAppend(s, before, [ack]);
    DrainUnmatched(s, before);
    assert [ack][..0] == [];
    assert Drain(s, [ack]) == HandleRx(Drain(s, []), ack);
    DrainOutside(HandleRx(s, ack), after);
  }

  // The first reply to the pending id, if frames holds one.
  function FirstReply(id: nat, frames: seq<Frame>): (r: Option<nat>)
    ensures r.Some? ==> r.value < |frames| && frames[r.value].parses && frames[r.value].id == id != 0
    ensures r.Some? ==> forall k :: 0 <= k < r.value && frames[k].parses ==> frames[k].id != id
    ensures r.None? ==> id == 0 || forall k :: 0 <= k < |frames| && frames[k].parses ==> frames[k].id != id
  {
    if id == 0 || frames == [] then None
    else
      var r := FirstReply(id, frames[..|frames| - 1]);
      var f := frames[|frames| - 1];
      if r.Some? then r else if f.parses && f.id == id then Some(|frames| - 1) else None
  }

  predicate Granted(id: nat, frames: seq<Frame>) {
    var r := FirstReply(id, frames);
    r.Some? && frames[r.value].ok
  }

  lemma SplitAt(frames: seq<Frame>, k: nat)
    requires k < |frames|
    ensures frames == frames[..k] + [frames[k]] + frames[k + 1..]
  {
  }

  // The first reply to the pending id decides a drain from Authenticating.
  lemma DrainReplied(s: State, frames: seq<Frame>, k: nat)
    requires s.state.Authenticating? && FirstReply(s.authId, frames) == Some(k)
    ensures Drain(s, frames) == Drain(HandleRx(s, frames[k]), frames[k + 1..])
  {
    SplitAt(frames, k);
    DrainAppend(s, frames[..k] + [frames[k]], frames[k + 1..]);
    DrainAppend(s, frames[..k], [frames[k]]);
    DrainUnmatched(s, frames[..k]);
    assert [frames[k]][..0] == [];
    assert Drain(s, [frames[k]]) == HandleRx(Drain(s, []), frames[k]);
  }

  // The frames of a drain that may reach a command: in Authenticating those behind the
  // granting reply, in every other state all of them.
  function Listened(s: State, frames: seq<Frame>): seq<Frame> {
    if !s.state.Authenticating? then frames
    else if Granted(s.authId, frames) then frames[FirstReply(s.authId, frames).value + 1..]
    else []
  }

  // What one drain dispatches, from every state: the allowed ones of these, in order.
  lemma DrainDispatches(s: State, frames: seq<Frame>)
    ensures Drain(s, frames).dispatched == s.dispatched + AllowedOf(Listened(s, frames))
    ensures s.state.Authenticating? ==> (Drain(s, frames).state.Ready? <==> Granted(s.authId, frames))
    ensures s.state.Authenticating? && Granted(s.authId, frames) ==>
              Drain(s, frames).consumed == s.consumed + [Consumption(|s.issued| - 1, s.authId, true)]
  {
    if !s.state.Authenticating? {
      DrainOutside(s, frames);
    } else {
      var r := FirstReply(s.authId, frames);
      assert AllowedOf([]) == [];
      if r.None? {
        DrainUnmatched(s, frames);
      } else {
        DrainReplied(s, frames, r.value);
        var u := HandleRx(s, frames[r.value]);
        if frames[r.value].ok { DrainOutside(u, frames[r.value + 1..]); } else { DrainUnmatched(u, frames[r.value + 1..]); }
      }
    }
  }

  // ── Replies that outlive their connection ────────────────────────────────

  // The first pass of a stay in Authenticating drains before it sends its auth frame.
  // It enters Ready then, on a frame sent in an earlier stay, exactly if no bit takes
  // it away, an id is still pending and the first reply to it in the queue grants.
  lemma EarlyReadyIff(s: State, inp: Input)
    requires s.state.Authenticating? && !s.lastState.Authenticating?
    ensures AtSwitch(s, inp).state.Ready? <==>
            BitDisable !in s.bits && BitWifiDown !in s.bits && s.authId != 0 && Granted(s.authId, Drained(s, inp))
    ensures AtSwitch(s, inp).state.Ready? ==>
              AtSwitch(s, inp).consumed == s.consumed + [Consumption(|s.issued| - 1, s.authId, true)]
  {
    var u := Begin(s);
    var top := Top(u, s.bits);
    TopQuiet(u, s.bits);
    if BitDisable in s.bits || BitWifiDown in s.bits {
      TopAway(u, s.bits);
      DrainOutside(top, Drained(s, inp));
    } else {
      assert top == u;
      DrainDispatches(top, Drained(s, inp));
    }
  }

  lemma TopAway(s: State, b: set<Bit>)
    requires BitDisable in b || BitWifiDown in b
    ensures !Top(s, b).state.Authenticating? && !Top(s, b).state.Ready?
  {
  }

  lemma Then(ops: seq<Op>, op: Op) returns (more: seq<Op>, s: State)
    requires Exec(ops).Some? && Enabled(Exec(ops).value, op)
    ensures Exec(more) == Some(s) && s == Apply(Exec(ops).value, op)
  {
    more, s := ops + [op], Apply(Exec(ops).value, op);
    assert more[..|more| - 1] == ops;
  }

  // An input without frames.
  function Quiet(draw: nat, connected: bool): Input {
    Input([], [], draw, 0, 0, true, true, connected, {})
  }

  // A pass that drains nothing and dispatches no bit but the socket's.
  lemma NothingToDrain(s: State, inp: Input)
    requires s.rx == inp.frames == inp.late == [] && inp.during == {} && s.bits <= {BitWss, BitBackoffDone}
    ensures AtSwitch(s, inp) == s.(bits := {})
  {
    assert Top(Begin(s), s.bits) == Begin(s);
  }

  // Enabled with the uplink there, the client starts a socket,
  lemma Starts() returns (ops: seq<Op>, s: State)
    ensures Exec(ops) == Some(s)
    ensures s == Init().(state := Connecting, lastState := Connecting, alive := true, ws := true, conns := 1)
  {
    ops, s := Then([], Spawn);
    ops, s := Then(ops, Post(BitEnable));
    ops, s := Then(ops, Post(BitWifiUp));
    var u := Top(Begin(s), s.bits);
    assert u == Begin(s).(state := Connecting);
    ops, s := Then(ops, Loop(Quiet(0, true)));
  }

  // which comes up,
  lemma Connects(ops: seq<Op>, s: State) returns (more: seq<Op>, s': State)
    requires Exec(ops) == Some(s) && s.state.Connecting? && s.alive && s.ws && s.rx == [] && s.bits == {}
    ensures Exec(more) == Some(s') && s' == s.(state := Authenticating, lastState := Connecting)
  {
    more, s' := Then(ops, Post(BitWss));
    NothingToDrain(s', Quiet(0, true));
    hide AtSwitch;
    more, s' := Then(more, Loop(Quiet(0, true)));
  }

  // sends its auth frame and loses the connection before the reply,
  lemma DroppedUnanswered() returns (ops: seq<Op>, s: State)
    ensures Exec(ops) == Some(s) && s.state.Backoff? && s.alive && s.bits == {} && s.rx == []
    ensures s.authId == 7 && s.issued == [7] && s.conns == 1
  {
    ops, s := Starts();
    ops, s := Connects(ops, s);
    ops, s := Then(ops, Post(BitWss));
    NothingToDrain(s, Quiet(7, false));
    Drops(s);
    hide Pass, AtSwitch;
    ops, s := Then(ops, Loop(Quiet(7, false)));
  }

  lemma Drops(s: State)
    requires s.state.Authenticating? && s.lastState.Connecting? && s.ws && s.bits == {BitWss}
    requires AtSwitch(s, Quiet(7, false)) == s.(bits := {})
    ensures var s' := Pass(s, Quiet(7, false));
            && s'.state.Backoff? && s'.alive == s.alive && s'.bits == {} && s'.rx == s.rx && s'.conns == s.conns
            && s'.authId == 7 && s'.issued == s.issued + [7]
  {
    hide AtSwitch;
  }

  // and starts another socket, which comes up with the old id pending.
  lemma SecondConnection() returns (ops: seq<Op>, s: State)
    ensures Exec(ops) == Some(s) && s.alive && s.bits == {} && s.rx == [] && s.ws && s.conns == 2
    ensures s.authId == 7 && s.issued == [7] && s.state.Authenticating? && s.lastState.Connecting?
  {
    ops, s := DroppedUnanswered();
    NothingToDrain(s, Quiet(0, false));
    ops, s := BacksOff(ops, s);
    NothingToDrain(s, Quiet(0, true));
    ops, s := Restarts(ops, s);
    ops, s := Connects(ops, s);
  }

  lemma BacksOff(ops: seq<Op>, s: State) returns (more: seq<Op>, s': State)
    requires Exec(ops) == Some(s) && s.state.Backoff? && s.alive && AtSwitch(s, Quiet(0, false)) == s.(bits := {})
    ensures Exec(more) == Some(s') && s'.state.Connecting? && s'.alive && !s'.ws && s'.rx == s.rx && s'.bits == {BitBackoffDone}
    ensures s'.authId == s.authId && s'.issued == s.issued && s'.conns == s.conns
  {
    hide AtSwitch;
    more, s' := Then(ops, Loop(Quiet(0, false)));
  }

  lemma Restarts(ops: seq<Op>, s: State) returns (more: seq<Op>, s': State)
    requires Exec(ops) == Some(s) && s.state.Connecting? && s.alive && !s.ws && BitWss !in s.bits
    requires AtSwitch(s, Quiet(0, true)) == s.(bits := {})
    ensures Exec(more) == Some(s') && s' == s.(bits := {}, ws := true, conns := s.conns + 1, lastState := Connecting)
  {
    hide AtSwitch;
    more, s' := Then(ops, Loop(Quiet(0, true)));
  }

  // A run in which a reply to the auth frame of the first connection, sent by the peer
  // over the second, makes the client Ready there before it has sent any.
  lemma ReadyWithoutOwnFrame()
    ensures exists ops, inp ::
              Exec(ops).Some? && Enabled(Exec(ops).value, Loop(inp)) && var s := Exec(ops).value;
              && s.state.Authenticating? && !s.lastState.Authenticating? && s.conns == 2
              && Pass(s, inp).state.Ready? && Pass(s, inp).issued == s.issued == [7]
  {
    var ops, s := SecondConnection();
    var reply, inp := Frame(true, 7, true, NotAllowed, 0, 2), Quiet(0, true);
    ops, s := Then(ops, Receive(reply));
    assert Drained(s, inp) == [reply] && [reply][..0] == [] && Drain(Begin(s), []) == Begin(s);
    assert Top(Begin(s), s.bits) == Begin(s);
    var u := Drain(Begin(s), [reply]);
    assert u == HandleRx(Begin(s), reply);
    assert AtSwitch(s, inp) == u.(bits := u.bits + {}, rx := []);
    assert Pass(s, inp).state.Ready?;
    assert Enabled(s, Loop(inp));
  }

  // A run in which a command received before a disable is dispatched in Disabled, with
  // no auth frame ever sent.
  lemma DispatchedUnready(f: Frame)
    requires f.parses && f.cmd.Allowed? && f.conn == 1
    ensures exists ops :: Exec(ops).Some? && var s := Exec(ops).value;
              s.dispatched == [f] && s.state.Disabled? && s.issued == [] && s.readyEntries == 0
  {
    var ops, s := Starts();
    ops, s := Then(ops, Receive(f));
    ops, s := Then(ops, Post(BitDisable));
    assert Top(Begin(s), s.bits) == Begin(s).(state := Disabled);
    assert Drained(s, Quiet(0, true)) == [f];
    DrainOutside(Begin(s).(state := Disabled), [f]);
    DrainKeepsHistory(Begin(s).(state := Disabled), [f]);
    assert [f][..0] == [] && AllowedOf([f]) == [] + [f];
    hide Drain, Top;
    ops, s := Then(ops, Loop(Quiet(0, true)));
  }

  lemma {:induction false} DrainKeepsHistory(s: State, frames: seq<Frame>)
    requires s.state.Disabled?
    ensures Drain(s, frames) == s.(dispatched := Drain(s, frames).dispatched)
    decreases |frames|
  {
    if frames != [] { DrainKeepsHistory(s, frames[..|frames| - 1]); }
  }

  // ── Which socket a reply came over ───────────────────────────────────────

  // While the client authenticates or is ready there is a socket, and all that waits in
  // the queue came over it.
  ghost predicate ConnOk(s: State) {
    Online(s.state) ==> s.ws && OverSocket(s, s.rx)
  }

  predicate Online(st: RemoteState) {
    st.Authenticating? || st.Ready?
  }

  lemma {:induction false} DrainKeepsSocket(s: State, frames: seq<Frame>)
    ensures Drain(s, frames).ws == s.ws && Drain(s, frames).conns == s.conns && Drain(s, frames).rx == s.rx
    ensures !s.state.Authenticating? && !s.state.Ready? ==> Drain(s, frames).state == s.state
    decreases |frames|
  {
    if frames != [] { DrainKeepsSocket(s, frames[..|frames| - 1]); }
  }

  lemma TopKeepsSocket(s: State, b: set<Bit>)
    ensures Top(s, b).ws == s.ws && Top(s, b).conns == s.conns && Top(s, b).rx == s.rx
    ensures Top(s, b).state.Authenticating? || Top(s, b).state.Ready? ==> s.state == Top(s, b).state
  {
  }

  lemma SwitchConn(s: State, b: set<Bit>, inp: Input)
    requires ConnOk(s) && OverSocket(s, s.rx)
    ensures ConnOk(Switch(s, b, inp))
  {
    forall cur, ev ensures Online(Next(cur, ev)) ==> Online(cur) || (cur.Connecting? && ev.EvWssConnect?) {}
    hide Next;
  }

  lemma KeptOverSocket(s: State, v: State, frames: seq<Frame>)
    requires OverSocket(s, frames) && v.ws == s.ws && v.conns == s.conns
    ensures OverSocket(v, Kept(frames))
  {
  }

  lemma PassConn(s: State, inp: Input)
    requires ConnOk(s) && Enabled(s, Loop(inp))
    ensures ConnOk(Pass(s, inp))
  {
    var u := Begin(s);
    TopKeepsSocket(u, s.bits);
    DrainKeepsSocket(Top(u, s.bits), Drained(s, inp));
    var v := AtSwitch(s, inp);
    hide Top, Drain, Switch;
    KeptOverSocket(s, v, inp.late);
    SwitchConn(v, s.bits, inp);
  }

  lemma {:induction false} RunConn(ops: seq<Op>)
    ensures Exec(ops).Some? ==> ConnOk(Exec(ops).value)
  {
    if ops != [] {
      RunConn(ops[..|ops| - 1]);
      if Exec(ops).Some? {
        var s, op := Exec(ops[..|ops| - 1]).value, ops[|ops| - 1];
        if op.Loop? { PassConn(s, op.inp); }
      }
    }
  }

  // In every run a reply is accepted only over the socket of the connection it opens,
  // whichever connection's auth frame it answers: a pass that consumes one starts in
  // Authenticating, and all the frames it drains came over the present socket.
  lemma RepliesAreOfThisConnection(ops: seq<Op>, inp: Input)
    requires Exec(ops).Some? && Enabled(Exec(ops).value, Loop(inp))
    requires Apply(Exec(ops).value, Loop(inp)).consumed != Exec(ops).value.consumed
    ensures var s := Exec(ops).value;
            s.state.Authenticating? && s.ws && OverSocket(s, Drained(s, inp))
  {
    RunConn(ops);
    var s := Exec(ops).value;
    var u := Begin(s);
    TopQuiet(u, s.bits);
    if !s.state.Authenticating? {
      TopKeepsOut(u, s.bits);
      DrainOutside(Top(u, s.bits), Drained(s, inp));
      SwitchConsumes(AtSwitch(s, inp), s.bits, inp);
    }
  }

  lemma SwitchConsumes(s: State, b: set<Bit>, inp: Input)
    ensures Switch(s, b, inp).consumed == s.consumed
  {
  }

  // ── Enabling and disabling ───────────────────────────────────────────────

  // The bits of one pass: an enable beats a disable taken in the same pass, in
  // whichever order they were posted.
  lemma DisabledIff(s: State, inp: Input)
    ensures AtSwitch(s, inp).state.Disabled? <==> BitEnable !in s.bits && (BitDisable in s.bits || s.state.Disabled?)
  {
    var u := Begin(s);
    TopDisabledIff(u, s.bits);
    DrainDisabled(Top(u, s.bits), Drained(s, inp));
  }

  lemma TopDisabledIff(s: State, b: set<Bit>)
    ensures Top(s, b).state.Disabled? <==> BitEnable !in b && (BitDisable in b || s.state.Disabled?)
  {
    var s1 := StepIf(s, BitDisable in b, EvDisable);
    assert s1.state.Disabled? <==> BitDisable in b || s.state.Disabled?;
    var s2 := StepIf(s1, BitEnable in b, EvEnable);
    assert s2.state.Disabled? <==> s1.state.Disabled? && BitEnable !in b;
    var s3 := StepIf(s2, BitWifiDown in b, EvWifiDown);
    assert s3.state.Disabled? <==> s2.state.Disabled?;
  }

  lemma {:induction false} DrainDisabled(s: State, frames: seq<Frame>)
    ensures Drain(s, frames).state.Disabled? <==> s.state.Disabled?
    decreases |frames|
  {
    if frames != [] { DrainDisabled(s, frames[..|frames| - 1]); }
  }

  // An enable that finds the task alive and is posted during its pass leaves the bit
  // pending; it is lost, with no task to take it, exactly if that pass ends in Disabled.
  lemma EnableLostIff(s: State, inp: Input)
    requires Enabled(s, Loop(inp)) && BitEnable in inp.during
    ensures BitEnable in Pass(s, inp).bits
    ensures !Pass(s, inp).alive <==> BitEnable !in s.bits && (BitDisable in s.bits || s.state.Disabled?)
  {
    DisabledIff(s, inp);
    var u := AtSwitch(s, inp);
    assert BitEnable in u.bits;
    DrainAlive(s, inp);
    hide AtSwitch;
  }

  lemma DrainAlive(s: State, inp: Input)
    ensures AtSwitch(s, inp).alive == s.alive
  {
    assert Top(Begin(s), s.bits).alive == s.alive;
    DrainKeepsAlive(Top(Begin(s), s.bits), Drained(s, inp));
  }

  lemma {:induction false} DrainKeepsAlive(s: State, frames: seq<Frame>)
    ensures Drain(s, frames).alive == s.alive
    decreases |frames|
  {
    if frames != [] { DrainKeepsAlive(s, frames[..|frames| - 1]); }
  }

  // Enabled steps from s.
  ghost predicate Goes(s: State, ops: seq<Op>)
    decreases |ops|
  {
    ops != [] ==> Enabled(s, ops[0]) && Goes(Apply(s, ops[0]), ops[1..])
  }

  // It stays lost until another call spawns the task: nothing else revives it, and the
  // first pass then takes it.
  lemma {:induction false} EnableStaysLost(s: State, ops: seq<Op>, inp: Input)
    requires !s.alive && BitEnable in s.bits && Goes(s, ops) && Spawn !in ops
    ensures var s' := After(s, ops);
            !s'.alive && BitEnable in s'.bits && s'.state == s.state && !AtSwitch(Apply(s', Spawn), inp).state.Disabled?
    decreases |ops|
  {
    if ops == [] {
      DisabledIff(Apply(s, Spawn), inp);
    } else {
      EnableStaysLost(Apply(s, ops[0]), ops[1..], inp);
    }
  }

  // Such a run: the task looks at Disabled for the first time after boot, and is
  // enabled during that pass.
  lemma LostEnable()
    ensures exists ops :: Exec(ops).Some? && var s := Exec(ops).value;
              !s.alive && s.state.Disabled? && BitEnable in s.bits
  {
    var ops, s := Then([], Spawn);
    var inp := Quiet(0, true).(during := {BitEnable});
    EnableLostIff(s, inp);
    DisabledIff(s, inp);
    hide AtSwitch;
    ops, s := Then(ops, Loop(inp));
  }

  // ── The authentication window ────────────────────────────────────────────

  // A pass has already seen Authenticating, and the client is still there.
  predicate InAuth(s: State) {
    s.state.Authenticating? && s.lastState.Authenticating?
  }

  // Posts and passes, the client staying in Authenticating throughout.
  ghost predicate StaysInAuth(s: State, ops: seq<Op>)
    decreases |ops|
  {
    InAuth(s) && (ops != [] ==> Enabled(s, ops[0]) && StaysInAuth(Apply(s, ops[0]), ops[1..]))
  }

  function After(s: State, ops: seq<Op>): State
    decreases |ops|
  {
    if ops == [] then s else After(Apply(s, ops[0]), ops[1..])
  }

  predicate SameWindow(s: State, s': State) {
    s'.issued == s.issued && s'.enterMs == s.enterMs && s'.lastState == s.lastState
  }

  lemma TopWindow(s: State, b: set<Bit>)
    ensures SameWindow(s, Top(s, b))
  {
    var s1 := StepIf(s, BitDisable in b, EvDisable);
    var s2 := StepIf(s1, BitEnable in b, EvEnable);
    assert SameWindow(s, s1) && SameWindow(s, s2);
    assert SameWindow(s, StepIf(s2, BitWifiDown in b, EvWifiDown));
  }

  lemma {:induction false} DrainWindow(s: State, frames: seq<Frame>)
    requires Drain(s, frames).state.Authenticating?
    ensures s.state.Authenticating? && SameWindow(s, Drain(s, frames))
    decreases |frames|
  {
    if frames != [] {
      if !Drain(s, frames[..|frames| - 1]).state.Authenticating? {
        DrainKeepsOut(Drain(s, frames[..|frames| - 1]), [frames[|frames| - 1]]);
      }
      DrainWindow(s, frames[..|frames| - 1]);
    }
  }

  // A pass that ends, or starts its switch, in Authenticating has been there all along.
  lemma SwitchWindow(s: State, inp: Input)
    requires AtSwitch(s, inp).state.Authenticating?
    ensures s.state.Authenticating? && SameWindow(s, AtSwitch(s, inp))
  {
    var u := Begin(s);
    DrainWindow(Top(u, s.bits), Drained(s, inp));
    TopWindow(u, s.bits);
    if !s.state.Authenticating? { TopKeepsOut(u, s.bits); }
  }

  // The pass that enters sends one frame and starts the window; a later pass that
  // stays sends none, keeps the window, and is inside it.
  lemma PassWindow(s: State, inp: Input)
    requires InAuth(Pass(s, inp))
    ensures s.state.Authenticating?
    ensures var s' := Pass(s, inp);
            && Elapsed(inp.later, s'.enterMs) < AUTH_TIMEOUT_MS
            && (if s.lastState.Authenticating? then s'.issued == s.issued && s'.enterMs == s.enterMs
                else s'.issued == s.issued + [NewId(inp.draw)] && s'.enterMs == inp.now)
  {
    SwitchWindow(s, inp);
  }

  lemma {:induction false} StayWindow(s: State, ops: seq<Op>)
    requires StaysInAuth(s, ops)
    ensures After(s, ops).issued == s.issued && After(s, ops).enterMs == s.enterMs
    ensures forall k :: 0 <= k < |ops| && ops[k].Loop? ==> Elapsed(ops[k].inp.later, s.enterMs) < AUTH_TIMEOUT_MS
    decreases |ops|
  {
    if ops != [] {
      var s' := Apply(s, ops[0]);
      if ops[0].Loop? { PassWindow(s, ops[0].inp); }
      StayWindow(s', ops[1..]);
      assert forall k :: 1 <= k < |ops| ==> ops[k] == ops[1..][k - 1];
    }
  }

  // However long the client stays in Authenticating, it sends exactly one auth frame,
  // on entry, and no pass finds it there 5 s or more after the clock value of the entry.
  lemma OneFrameOneWindow(s: State, entry: Input, ops: seq<Op>)
    requires !s.lastState.Authenticating? && StaysInAuth(Pass(s, entry), ops)
    ensures After(Pass(s, entry), ops).issued == s.issued + [NewId(entry.draw)]
    ensures Elapsed(entry.later, entry.now) < AUTH_TIMEOUT_MS
    ensures forall k :: 0 <= k < |ops| && ops[k].Loop? ==> Elapsed(ops[k].inp.later, entry.now) < AUTH_TIMEOUT_MS
  {
    PassWindow(s, entry);
    StayWindow(Pass(s, entry), ops);
  }
}
