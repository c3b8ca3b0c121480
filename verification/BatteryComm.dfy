/** The BMS manager as the firmware runs it. */
module BatteryComm {
  import opened Common
  import opened BatteryModel

  class BatteryCommManager {
    /** Which slots of the probe order have a started client. */
    var clients: Clients
    var mode: Mode
    var active: Option<nat>
    var data: Data
    var lockMs: u32
    var probeCycle: nat
    var probeIdx: nat
    var probeAttempts: nat
    var probeStartMs: u32
    var probeWaiting: bool
    var probing: Option<nat>
    var lockSuccesses: nat
    var lostSinceMs: u32
    var lastPollMs: u32
    var pollAwaiting: bool
    var pollSentMs: u32
    var pollFailures: nat
    var mismatchStreak: nat
    var mismatchActive: bool
    var lastMismatch: Reading

    ghost predicate Valid()
      reads this
    {
      probeIdx <= PROBE_ORDER_LEN
    }

    ghost function View(): Manager
      reads this
    {
      Manager(mode, active, data, lockMs, probeCycle, probeIdx, probeAttempts, probeStartMs, probeWaiting, probing,
              lockSuccesses, lostSinceMs, lastPollMs, pollAwaiting, pollSentMs, pollFailures,
              mismatchStreak, mismatchActive, lastMismatch)
    }

    /** `begin()` with the clients that could be started; `enabled` is false for "none" and "rs485_console". */
    constructor (clients: Clients, enabled: bool)
      ensures Valid() && this.clients == clients
      ensures View() == Manager(if enabled then Probing else Disabled, None, NO_DATA, 0, 0, 0, 0, 0, false, None,
                                0, 0, 0, false, 0, 0, 0, false, None)
    {
      this.clients := clients;
      mode, active, data := if enabled then Probing else Disabled, None, NO_DATA;
      lockMs, probeCycle, probeIdx, probeAttempts, probeStartMs := 0, 0, 0, 0, 0;
      probeWaiting, probing, lockSuccesses, lostSinceMs := false, None, 0, 0;
      lastPollMs, pollAwaiting, pollSentMs, pollFailures := 0, false, 0, 0;
      mismatchStreak, mismatchActive, lastMismatch := 0, false, None;
    }

    method AdvanceProbe()
      requires Valid()
      modifies this`probeIdx, this`probing, this`probeAttempts
      ensures Valid() && View() == Advance(old(View()), clients)
    {
      if probing.None? {
        while probeIdx < PROBE_ORDER_LEN
          invariant Valid() && probing.None? && probeAttempts == old(probeAttempts)
          invariant NextClient(clients, probeIdx) == NextClient(clients, old(probeIdx))
          decreases PROBE_ORDER_LEN - probeIdx
        {
          var want := probeIdx;
          probeIdx := probeIdx + 1;
          if clients[want] {
            probing := Some(want);
            probeAttempts := 0;
            break;
          }
        }
      }
    }

    method SpendAttempt()
      modifies this`probeAttempts, this`probing
      ensures View() == Spend(old(View()))
    {
      probeAttempts := probeAttempts + 1;
      if probeAttempts >= ATTEMPTS_PER_CLIENT {
        probing := None;
      }
    }

    method EnterLocked(d: Data, now: u32)
      modifies this`active, this`data, this`lockMs, this`mode, this`lostSinceMs
      ensures View() == old(View()).(active := old(probing), data := d, lockMs := now, mode := Locked, lostSince := now)
    {
      active, data, lockMs, mode, lostSinceMs := probing, d, now, Locked, now;
    }

    method ResetCounters()
      modifies this`pollFailures, this`pollAwaiting, this`probing, this`lockSuccesses, this`probeIdx
      ensures View() == old(View()).(failures := 0, awaiting := false, probing := None, successes := 0, probeIdx := 0)
    {
      pollFailures, pollAwaiting, probing, lockSuccesses, probeIdx := 0, false, None, 0, 0;
    }

    method LockOn(d: Data, now: u32)
      modifies this
      ensures clients == old(clients)
      ensures View() == Lock(old(View()), d, now)
    {
      EnterLocked(d, now);
      ResetCounters();
    }

    method ProbeClient(t: Tick)
      requires Valid()
      modifies this
      ensures clients == old(clients)
      ensures Valid() && View() == Probe(old(View()), t)
    {
      ghost var was := View();
      if !probeWaiting {
        if t.requestOk {
          probeWaiting := true;
          probeStartMs := t.now;
        } else {
          SpendAttempt();
        }
        return;
      }
      if t.answer.Some? {
        lockSuccesses := lockSuccesses + 1;
        if lockSuccesses >= LOCK_SUCCESSES {
          LockOn(t.answer.value, t.now);
          return;
        }
        probeWaiting := false;
      } else if Elapsed(t.now, probeStartMs) > RESPONSE_WINDOW_MS {
        probeWaiting := false;
        lockSuccesses := 0;
        assert View() == was.(waiting := false, successes := 0);
        SpendAttempt();
      }
    }

    method AskActive(t: Tick)
      modifies this`pollAwaiting, this`pollSentMs, this`pollFailures, this`lastPollMs
      ensures View() == Ask(old(View()), t)
    {
      var interval := if t.interval != 0 then t.interval else 5000;
      if !pollAwaiting && Elapsed(t.now, lastPollMs) >= interval {
        if t.requestOk {
          pollAwaiting := true;
          pollSentMs := t.now;
        } else {
          pollFailures := pollFailures + 1;
        }
        lastPollMs := t.now;
      }
    }

    method ListenActive(t: Tick)
      modifies this`data, this`pollAwaiting, this`pollFailures
      ensures View() == Listen(old(View()), t)
    {
      if pollAwaiting {
        if t.answer.Some? {
          data := t.answer.value;
          pollAwaiting := false;
          pollFailures := 0;
        } else if Elapsed(t.now, pollSentMs) > 3 * RESPONSE_WINDOW_MS {
          pollAwaiting := false;
          pollFailures := pollFailures + 1;
        }
      }
    }

    method DeclareLost(now: u32)
      modifies this`mode, this`lostSinceMs
      ensures View() == old(View()).(mode := Lost, lostSince := now)
    {
      mode := Lost;
      lostSinceMs := now;
    }

    method PollActive(t: Tick)
      requires Valid()
      modifies this
      ensures clients == old(clients)
      ensures Valid() && View() == LockedTick(old(View()), clients, t)
    {
      if active.None? || active.value >= PROBE_ORDER_LEN || !clients[active.value] {
        DeclareLost(t.now);
        return;
      }
      AskActive(t);
      ListenActive(t);
      if pollFailures >= LOST_FAILURES {
        DeclareLost(t.now);
      }
    }

    method RestartProbing()
      modifies this`mode, this`probeIdx, this`probing, this`lockSuccesses, this`probeAttempts
      ensures View() == Reprobe(old(View()))
    {
      mode := Probing;
      probeIdx, probing, lockSuccesses, probeAttempts := 0, None, 0, 0;
    }

    method ProbeTick(t: Tick)
      requires Valid()
      modifies this
      ensures clients == old(clients)
      ensures Valid() && View() == ProbingTick(old(View()), clients, t)
    {
      AdvanceProbe();
      if probing.None? {
        mode := IdleNoBms;
        lostSinceMs := t.now;
        probeCycle := probeCycle + 1;
      } else {
        ProbeClient(t);
      }
    }

    method Tick(t: Tick)
      requires Valid()
      modifies this
      ensures clients == old(clients)
      ensures Valid() && View() == TickEffect(old(View()), clients, t)
    {
      if !t.locked {
        return;
      }
      match mode
      case Disabled =>
      case Probing =>
        ProbeTick(t);
      case Locked =>
        PollActive(t);
      case Lost =>
        if Elapsed(t.now, lostSinceMs) >= COOLDOWN_MS {
          RestartProbing();
          active, data := None, NO_DATA;
        }
      case IdleNoBms =>
        if Elapsed(t.now, lostSinceMs) >= COOLDOWN_MS {
          lostSinceMs := t.now;
          RestartProbing();
        }
    }

    method End()
      modifies this`clients, this`probing, this`mode
      ensures clients == [false, false, false, false]
      ensures View() == old(View()).(mode := Disabled, probing := None)
    {
      clients := [false, false, false, false];
      probing := None;
      mode := Disabled;
    }

    /** `rebuilt`: the clients that could be started for the new configuration. */
    method Reconfigure(rebuilt: Clients, enabled: bool)
      modifies this`clients, this`probing, this`mode
      ensures clients == rebuilt && View() == BatteryModel.Reconfigure(old(View()), enabled)
    {
      End();
      clients := rebuilt;
      mode := if enabled then Probing else Disabled;
    }

    method CrossCheckShunt(c: Check) returns (delta: Reading)
      modifies this`mismatchStreak, this`mismatchActive, this`lastMismatch
      ensures (View(), delta) == CheckEffect(old(View()), c)
    {
      if !c.locked {
        return None;
      }
      if !Fresh(data, c.now, c.interval) {
        mismatchStreak, lastMismatch, mismatchActive := 0, None, false;
        return None;
      }
      if c.shunt.None? || !PlausibleCurrent(data.current) {
        mismatchStreak, lastMismatch, mismatchActive := 0, None, false;
        return None;
      }
      var d := Abs(data.current.value - c.shunt.value);
      var threshold := MaxReal(0.5, 0.05 * Abs(c.shunt.value));
      if d > threshold {
        if mismatchStreak < SUSTAIN {
          mismatchStreak := mismatchStreak + 1;
        }
        if mismatchStreak >= SUSTAIN && !mismatchActive {
          mismatchActive := true;
        }
      } else {
        mismatchStreak := 0;
        mismatchActive := false;
      }
      lastMismatch := Some(d);
      return Some(d);
    }

    method SocAuthoritative(locked: bool, now: u32, interval: u32) returns (r: bool)
      ensures r == BatteryModel.SocAuthoritative(View(), locked, now, interval)
    {
      if !locked {
        return false;
      }
      r := mode == Locked && PlausibleSoc(data.soc) && Fresh(data, now, interval)
        && data.faults == 0 && !mismatchActive;
    }
  }
}
