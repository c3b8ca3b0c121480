/** When the manager asks, how long it waits, and what a lock, a restart and an exhausted scan leave behind. */
module BatteryPolling {
  import opened Common
  import opened BatteryModel
  import opened BatteryProperties

  // ---- Polls of the locked client -----------------------------------------------------------

  /** Milliseconds from `since` to `now` on the 32-bit clock. */
  function Since(now: u32, since: u32): nat {
    (now - since) % 0x1_0000_0000
  }

  /** An interval of zero stands for five seconds. */
  function Spacing(interval: u32): nat {
    if interval == 0 then 5000 else interval
  }

  predicate Serving(m: Manager, clients: Clients, t: Tick) {
    t.locked && m.mode == Locked && m.active.Some? && m.active.value < 4 && clients[m.active.value]
  }

  /** The tick sends, or tries to send, a request. */
  predicate Asks(m: Manager, clients: Clients, t: Tick) {
    Serving(m, clients, t) && !m.awaiting && Since(t.now, m.lastPoll) >= Spacing(t.interval)
  }

  /** The time of the last request, on the history of ticks. */
  function LastAsked(m: Manager, clients: Clients, evs: seq<Event>, at: u32): u32
    requires Sane(m)
    decreases evs
  {
    if evs == [] then at
    else
      var n := |evs| - 1;
      var last := LastAsked(m, clients, evs[..n], at);
      if evs[n].Ticked? && Asks(Run(m, clients, evs[..n]), Fitted(clients, evs[..n]), evs[n].t) then evs[n].t.now
      else last
  }

  lemma ListenKeepsPollTime(m: Manager, t: Tick)
    ensures Listen(m, t).lastPoll == m.lastPoll && Listen(m, t).mode == m.mode && Listen(m, t).active == m.active
  {
  }

  lemma TickPollTime(m: Manager, clients: Clients, t: Tick)
    requires Sane(m)
    ensures TickEffect(m, clients, t).lastPoll == if Asks(m, clients, t) then t.now else m.lastPoll
  {
    if t.locked && m.mode.Probing? {
      AdvanceStaysSane(m, clients);
      assert Advance(m, clients).lastPoll == m.lastPoll;
    } else if t.locked && m.mode.Locked? {
      ListenKeepsPollTime(Ask(m, t), t);
    }
  }

  lemma {:induction false} PollTimeIsHistory(m: Manager, clients: Clients, evs: seq<Event>)
    requires Sane(m)
    ensures Run(m, clients, evs).lastPoll == LastAsked(m, clients, evs, m.lastPoll)
    decreases evs
  {
    if evs != [] {
      var n := |evs| - 1;
      PollTimeIsHistory(m, clients, evs[..n]);
      if evs[n].Ticked? {
        TickPollTime(Run(m, clients, evs[..n]), Fitted(clients, evs[..n]), evs[n].t);
      }
    }
  }

  /** The request of a tick, and what is left of it at the end of the tick. */
  predicate Outstanding(m: Manager, clients: Clients, t: Tick, before: bool) {
    if Asks(m, clients, t) then t.requestOk && t.answer.None?
    else before && !(Serving(m, clients, t) && (t.answer.Some? || Since(t.now, m.sentMs) > 4500))
  }

  /** A request is open from the tick that sent it until an answer, 4.5 s without one, or a new lock. */
  predicate Open(m: Manager, clients: Clients, evs: seq<Event>, open: bool)
    requires Sane(m)
    decreases evs
  {
    if evs == [] then open
    else
      var n := |evs| - 1;
      var r, fitted := Run(m, clients, evs[..n]), Fitted(clients, evs[..n]);
      var before := Open(m, clients, evs[..n], open);
      if !evs[n].Ticked? then before
      else !Locks(r, fitted, evs[n].t) && Outstanding(r, fitted, evs[n].t, before)
  }

  /** The time of the last request that was accepted. */
  function LastSent(m: Manager, clients: Clients, evs: seq<Event>, at: u32): u32
    requires Sane(m)
    decreases evs
  {
    if evs == [] then at
    else
      var n := |evs| - 1;
      var last := LastSent(m, clients, evs[..n], at);
      if evs[n].Ticked? && evs[n].t.requestOk && Asks(Run(m, clients, evs[..n]), Fitted(clients, evs[..n]), evs[n].t)
      then evs[n].t.now else last
  }

  lemma LockedTickOpen(m: Manager, clients: Clients, t: Tick)
    requires Sane(m) && m.mode.Locked? && t.locked
    ensures var m' := LockedTick(m, clients, t);
            && m'.awaiting == Outstanding(m, clients, t, m.awaiting)
            && m'.sentMs == if t.requestOk && Asks(m, clients, t) then t.now else m.sentMs
  {
  }

  lemma TickOpen(m: Manager, clients: Clients, t: Tick)
    requires Sane(m)
    ensures var m' := TickEffect(m, clients, t);
            && m'.awaiting == (!Locks(m, clients, t) && Outstanding(m, clients, t, m.awaiting))
            && m'.sentMs == if t.requestOk && Asks(m, clients, t) then t.now else m.sentMs
  {
    if t.locked && m.mode.Probing? {
      AdvanceStaysSane(m, clients);
      var a := Advance(m, clients);
      assert a.awaiting == m.awaiting && a.sentMs == m.sentMs;
    } else if t.locked && m.mode.Locked? {
      LockedTickOpen(m, clients, t);
    }
  }

  lemma {:induction false} OpenIsHistory(m: Manager, clients: Clients, evs: seq<Event>)
    requires Sane(m)
    ensures Run(m, clients, evs).awaiting == Open(m, clients, evs, m.awaiting)
    ensures Run(m, clients, evs).sentMs == LastSent(m, clients, evs, m.sentMs)
    decreases evs
  {
    if evs != [] {
      var n := |evs| - 1;
      OpenIsHistory(m, clients, evs[..n]);
      if evs[n].Ticked? {
        TickOpen(Run(m, clients, evs[..n]), Fitted(clients, evs[..n]), evs[n].t);
      }
    }
  }

  /**
   * Over any run the locked client is asked exactly when no request to it is open and the
   * interval has passed since the last was tried: polls never overlap and are never closer
   * together than the interval.
   */
  lemma AsksIff(m: Manager, clients: Clients, evs: seq<Event>, t: Tick)
    requires Sane(m)
    ensures Asks(Run(m, clients, evs), Fitted(clients, evs), t) <==>
            && Serving(Run(m, clients, evs), Fitted(clients, evs), t)
            && !Open(m, clients, evs, m.awaiting)
            && Since(t.now, LastAsked(m, clients, evs, m.lastPoll)) >= Spacing(t.interval)
  {
    PollTimeIsHistory(m, clients, evs);
    OpenIsHistory(m, clients, evs);
  }

  // ---- Locking ---------------------------------------------------------------------------------

  /** A tick that locks starts from a clean slate, on the client it was probing. */
  lemma LockStarts(m: Manager, clients: Clients, t: Tick)
    requires Sane(m) && Locks(m, clients, t)
    ensures var m' := TickEffect(m, clients, t);
            && m'.active == Advance(m, clients).probing && m'.active.Some? && Some(m'.data) == t.answer
            && m'.lockMs == t.now && m'.lostSince == t.now
            && m'.failures == 0 && !m'.awaiting && m'.probing.None? && m'.successes == 0 && m'.probeIdx == 0
  {
    AdvanceStaysSane(m, clients);
  }

  /** When the last tick locked. */
  function LastLock(m: Manager, clients: Clients, evs: seq<Event>, at: u32): u32
    requires Sane(m)
    decreases evs
  {
    if evs == [] then at
    else
      var n := |evs| - 1;
      var last := LastLock(m, clients, evs[..n], at);
      if evs[n].Ticked? && Locks(Run(m, clients, evs[..n]), Fitted(clients, evs[..n]), evs[n].t) then evs[n].t.now
      else last
  }

  lemma LockedKeepsLockTime(m: Manager, clients: Clients, t: Tick)
    requires m.mode.Locked?
    ensures LockedTick(m, clients, t).lockMs == m.lockMs
  {
    assert Ask(m, t).lockMs == m.lockMs;
  }

  lemma TickLockTime(m: Manager, clients: Clients, t: Tick)
    requires Sane(m)
    ensures TickEffect(m, clients, t).lockMs == if Locks(m, clients, t) then t.now else m.lockMs
  {
    if Locks(m, clients, t) {
      LockStarts(m, clients, t);
    } else if t.locked && m.mode.Probing? {
      AdvanceStaysSane(m, clients);
      assert Advance(m, clients).lockMs == m.lockMs;
    } else if t.locked && m.mode.Locked? {
      LockedKeepsLockTime(m, clients, t);
    }
  }

  lemma {:induction false} LockTimeIsHistory(m: Manager, clients: Clients, evs: seq<Event>)
    requires Sane(m)
    ensures Run(m, clients, evs).lockMs == LastLock(m, clients, evs, m.lockMs)
    decreases evs
  {
    if evs != [] {
      var n := |evs| - 1;
      LockTimeIsHistory(m, clients, evs[..n]);
      if evs[n].Ticked? {
        TickLockTime(Run(m, clients, evs[..n]), Fitted(clients, evs[..n]), evs[n].t);
      }
    }
  }

  // ---- Exhausted scans and restarts ----------------------------------------------------------------

  /** The tick looks for the next client and finds none. */
  predicate Exhausts(m: Manager, clients: Clients, t: Tick)
    requires m.probeIdx <= 4
  {
    t.locked && m.mode == Probing && m.probing.None? && forall k | m.probeIdx <= k < 4 :: !clients[k]
  }

  lemma NoneLeftIff(m: Manager, clients: Clients)
    requires m.probeIdx <= 4 && m.probing.None?
    ensures Advance(m, clients).probing.None? <==> forall k | m.probeIdx <= k < 4 :: !clients[k]
  {
  }

  /** Probing is given up exactly there, for a minute from now, and the scan is counted. */
  lemma GivesUpIff(m: Manager, clients: Clients, t: Tick)
    requires Sane(m)
    ensures var m' := TickEffect(m, clients, t);
            && (m'.mode.IdleNoBms? && !m.mode.IdleNoBms? <==> Exhausts(m, clients, t))
            && (Exhausts(m, clients, t) ==> m'.lostSince == t.now && m'.probeIdx == 4)
            && m'.probeCycle == m.probeCycle + (if Exhausts(m, clients, t) then 1 else 0)
  {
    if t.locked && m.mode.Probing? {
      AdvanceStaysSane(m, clients);
      var a := Advance(m, clients);
      assert a.probeCycle == m.probeCycle;
      if m.probing.None? {
        NoneLeftIff(m, clients);
      }
      if a.probing.Some? {
        ProbeHits(a, t, a.successes);
      }
    } else if t.locked && m.mode.Locked? {
      LockedStays(m, clients, t);
      LockedKeepsCycle(m, clients, t);
    }
  }

  lemma LockedKeepsCycle(m: Manager, clients: Clients, t: Tick)
    requires m.mode.Locked?
    ensures LockedTick(m, clients, t).probeCycle == m.probeCycle
  {
    assert Ask(m, t).probeCycle == m.probeCycle;
  }

  function Exhaustions(m: Manager, clients: Clients, evs: seq<Event>): nat
    requires Sane(m)
    decreases evs
  {
    if evs == [] then 0
    else
      var n := |evs| - 1;
      Exhaustions(m, clients, evs[..n])
        + Flag(evs[n].Ticked? && Exhausts(Run(m, clients, evs[..n]), Fitted(clients, evs[..n]), evs[n].t))
  }

  lemma {:induction false} CyclesAreExhaustions(m: Manager, clients: Clients, evs: seq<Event>)
    requires Sane(m)
    ensures Run(m, clients, evs).probeCycle == m.probeCycle + Exhaustions(m, clients, evs)
    decreases evs
  {
    if evs != [] {
      var n := |evs| - 1;
      CyclesAreExhaustions(m, clients, evs[..n]);
      if evs[n].Ticked? {
        GivesUpIff(Run(m, clients, evs[..n]), Fitted(clients, evs[..n]), evs[n].t);
      }
    }
  }

  /** A minute after giving up, and not before, probing starts over; only a lost battery is forgotten. */
  lemma RestartsIff(m: Manager, clients: Clients, t: Tick)
    requires Sane(m) && Cooling(m) && t.locked
    ensures var m' := TickEffect(m, clients, t);
            && (m'.mode.Probing? <==> Since(t.now, m.lostSince) >= 60000)
            && (!m'.mode.Probing? ==> m' == m)
            && (m'.mode.Probing? ==>
                  && m'.probing.None? && m'.probeIdx == 0 && m'.attempts == 0 && m'.successes == 0
                  && (m.mode.Lost? ==>
                        m'.active.None? && m'.data == Data(None, None, 0, 0) && m'.lostSince == m.lostSince)
                  && (m.mode.IdleNoBms? ==> m'.active == m.active && m'.data == m.data && m'.lostSince == t.now))
  {
  }

  /** The next tick then turns to the first client there is, or gives up again if there is none. */
  lemma RestartScansFromTheFirst(m: Manager, clients: Clients, t: Tick, t': Tick, k: nat)
    requires Sane(m) && Cooling(m) && t.locked && Since(t.now, m.lostSince) >= 60000
    requires t'.locked && t'.requestOk && !m.waiting && k < 4 && clients[k] && forall j | 0 <= j < k :: !clients[j]
    ensures var m' := TickEffect(TickEffect(m, clients, t), clients, t');
            m'.mode == Probing && m'.probing == Some(k) && m'.waiting && m'.startMs == t'.now && m'.attempts == 0
  {
    FirstClient(clients, 0, k);
  }

  lemma {:induction false} FirstClient(clients: Clients, from: nat, k: nat)
    requires from <= k < 4 && clients[k] && forall j | from <= j < k :: !clients[j]
    ensures NextClient(clients, from) == (k + 1, Some(k))
    decreases k - from
  {
    if from < k {
      FirstClient(clients, from + 1, k);
    }
  }
}
