// The task loop of remote_client.cpp as code over its file-level variables; every
// method is proved to perform the corresponding step of the RemoteClient run.
module RemoteClientCode {
  import opened RemoteClient

  lemma TopLeavesQueue(s: State, b: set<Bit>)
    ensures Top(s, b).rx == s.rx && Top(s.(rx := []), b) == Top(s, b).(rx := [])
  {
  }

  class RemoteTask {
    var state: RemoteState
    var lastState: RemoteState
    var alive: bool
    var authId: nat
    var enterMs: nat
    var attempt: nat
    var ws: bool
    var bits: set<Bit>
    var rx: seq<Frame>
    ghost var conns: nat
    ghost var issued: seq<nat>
    ghost var consumed: seq<Consumption>
    ghost var readyEntries: nat
    var dispatched: seq<Frame>

    ghost function View(): RemoteClient.State
      reads this
    {
      State(state, lastState, alive, authId, enterMs, attempt, ws, bits, rx, conns, issued, consumed, readyEntries, dispatched)
    }

    constructor ()
      ensures View() == Init()
    {
      state, lastState, alive, authId, enterMs, attempt, ws, bits := Disabled, Disabled, false, 0, 0, 0, false, {};
      rx, conns, issued, consumed, readyEntries, dispatched := [], 0, [], [], 0, [];
    }

    method SetState(st: RemoteState)
      modifies this
      ensures View() == Store(old(View()), st)
    {
      if st.Ready? && !state.Ready? { readyEntries := readyEntries + 1; }
      state := st;
    }

    // The lambda `step` of the loop.
    method StepOn(ev: RemoteEvent)
      modifies this
      ensures View() == Step(old(View()), ev)
    {
      SetState(Next(state, ev));
    }

    // xEventGroupSetBits from another task
    method PostBit(b: Bit)
      requires Enabled(View(), Post(b))
      modifies this
      ensures View() == Apply(old(View()), Post(b))
    {
      bits := bits + {b};
    }

    // The WEBSOCKET_EVENT_DATA case of ws_event_handler: a full queue drops the frame.
    method OnData(f: Frame)
      requires Enabled(View(), Receive(f))
      requires |rx| <= RX_DEPTH
      modifies this
      ensures View() == Apply(old(View()), Receive(f))
    {
      if |rx| < RX_DEPTH { rx := rx + [f]; }
    }

    // remote_task_spawn
    method SpawnTask() returns (spawned: bool)
      modifies this
      ensures spawned == Enabled(old(View()), Spawn)
      ensures View() == if spawned then Apply(old(View()), Spawn) else old(View())
    {
      if alive { return false; }
      alive, lastState := true, Disabled;
      return true;
    }

    // send_auth_frame
    method SendAuthFrame(draw: nat)
      modifies this
      ensures View() == SendAuth(old(View()), draw)
    {
      authId := draw % 0x8000_0000;
      if authId == 0 { authId := 1; }
      issued := issued + [authId];
    }

    // handle_rx_frame
    method HandleRxFrame(f: Frame)
      modifies this
      ensures View() == HandleRx(old(View()), f)
    {
      if !f.parses { return; }
      if state == Authenticating {
        if authId != 0 && f.id == authId {
          authId := 0;
          consumed := consumed + [Consumption(|issued| - 1, f.id, f.ok)];
          if f.ok {
            SetState(Ready);
            bits := bits + {BitAuthOk};
          } else {
            bits := bits + {BitAuthFail};
          }
        }
        return;
      }
      if state == Ready && f.cmd == RemoteAuth {
        SendAuthFrame(f.draw);
        return;
      }
      if f.cmd != Allowed { return; }
      dispatched := dispatched + [f];
    }

    method Dispatch(b: set<Bit>)
      modifies this
      ensures View() == Top(old(View()), b)
    {
      if BitDisable in b { StepOn(EvDisable); }
      if BitEnable in b { StepOn(EvEnable); }
      if BitWifiDown in b { StepOn(EvWifiDown); }
      if BitWifiUp in b { StepOn(EvWifiUp); }
    }

    method DrainRx(frames: seq<Frame>)
      modifies this
      ensures View() == Drain(old(View()), frames)
    {
      var i := 0;
      while i < |frames|
        invariant i <= |frames|
        invariant View() == Drain(old(View()), frames[..i])
      {
        HandleRxFrame(frames[i]);
        assert frames[..i + 1][..i] == frames[..i];
        i := i + 1;
      }
      assert frames[..i] == frames;
    }

    method Authenticate(b: set<Bit>, inp: Input)
      requires state == Authenticating
      modifies this
      ensures View() == InAuthenticating(old(View()), b, inp)
    {
      if lastState != Authenticating {
        enterMs := inp.now;
        SendAuthFrame(inp.draw);
      }
      if BitAuthOk in b {
        StepOn(EvAuthOk);
      } else if BitAuthFail in b {
        StepOn(EvAuthFail);
      } else if BitWss in b && ws && !inp.connected {
        StepOn(EvWssError);
      } else if (inp.later - enterMs) % WRAP >= AUTH_TIMEOUT_MS {
        authId := 0;
        StepOn(EvAuthTimeout);
      }
    }

    method BackOff(inp: Input)
      modifies this
      ensures View() == InBackoff(old(View()), inp)
    {
      ws := false;
      attempt := (attempt + 1) % 256;
      if BitDisable in bits || BitWifiDown in bits { return; }
      bits := bits + {BitBackoffDone};
      StepOn(EvBackoffDone);
    }

    method Act(b: set<Bit>, inp: Input)
      modifies this
      ensures View() == Switch(old(View()), b, inp)
    {
      match state
      case Disabled =>
        ws, alive := false, false;
      case IdleNoWifi =>
        ws := false;
        if inp.uplink { StepOn(EvWifiUp); }
      case Connecting =>
        if !ws && inp.started { ws, conns := true, conns + 1; }
        if BitWss in b {
          if ws && inp.connected { StepOn(EvWssConnect); } else { StepOn(EvWssError); }
        }
      case Authenticating =>
        Authenticate(b, inp);
      case Ready =>
        if ws && !inp.connected { StepOn(EvWssError); } else { attempt := 0; }
      case Backoff =>
        BackOff(inp);
    }

    // One turn of the loop of task_remote_body.
    method OnePass(inp: Input)
      modifies this
      ensures View() == Pass(old(View()), inp)
    {
      hide Switch, Drain, Top;
      var b := bits;
      bits := {};
      TopLeavesQueue(View(), b);
      Dispatch(b);
      var frames := rx + inp.frames;
      rx := [];
      DrainRx(frames);
      bits, rx := bits + inp.during, Kept(inp.late);
      assert View() == AtSwitch(old(View()), inp);
      var cur := state;
      Act(b, inp);
      lastState := cur;
    }
  }
}
