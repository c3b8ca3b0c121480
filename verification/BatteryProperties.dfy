/** Termination of probing, the two hystereses, cooldowns, and the mismatch interlock. */
module BatteryProperties {
  import opened Common
  import opened BatteryModel

  // ---- Runs --------------------------------------------------------------------------------

  /** `rebuilt`: the clients that could be started for the new configuration. */
  datatype Event = Ticked(t: Tick) | Checked(c: Check) | Reconfigured(enabled: bool, rebuilt: Clients)

  /** The probe index, the attempts of the client being probed and the counters stay in range. */
  predicate Sane(m: Manager) {
    && m.probeIdx <= PROBE_ORDER_LEN
    && (m.probing.Some? ==> m.mode.Probing? && m.attempts < ATTEMPTS_PER_CLIENT && m.probing.value < m.probeIdx)
    && m.successes < LOCK_SUCCESSES
    && (m.mode.Locked? ==> m.failures < LOST_FAILURES)
  }

  lemma ProbeStaysSane(m: Manager, t: Tick)
    requires Sane(m) && m.mode.Probing? && m.probing.Some?
    ensures Sane(Probe(m, t))
  {
  }

  lemma AdvanceStaysSane(m: Manager, clients: Clients)
    requires Sane(m) && m.mode.Probing?
    ensures Sane(Advance(m, clients)) && Advance(m, clients).mode.Probing?
  {
  }

  lemma ListenBounds(m: Manager, t: Tick)
    requires Sane(m) && m.mode.Locked?
    ensures var m' := Listen(Ask(m, t), t);
            m'.probeIdx == m.probeIdx && m'.probing == m.probing && m'.successes == m.successes && m'.mode == m.mode
  {
  }

  lemma LockedStaysSane(m: Manager, clients: Clients, t: Tick)
    requires Sane(m) && m.mode.Locked?
    ensures Sane(LockedTick(m, clients, t))
  {
    ListenBounds(m, t);
  }

  lemma TickStaysSane(m: Manager, clients: Clients, t: Tick)
    requires Sane(m)
    ensures Sane(TickEffect(m, clients, t))
  {
    if t.locked {
      match m.mode
      case Disabled =>
      case Probing =>
        AdvanceStaysSane(m, clients);
        var m' := Advance(m, clients);
        if m'.probing.Some? {
          ProbeStaysSane(m', t);
        }
      case Locked => LockedStaysSane(m, clients, t);
      case Lost =>
      case IdleNoBms =>
    }
  }

  function Step(m: Manager, clients: Clients, ev: Event): (r: Manager)
    requires Sane(m)
    ensures Sane(r)
  {
    match ev
    case Ticked(t) =>
      TickStaysSane(m, clients, t);
      TickEffect(m, clients, t)
    case Checked(c) => CheckEffect(m, c).0
    case Reconfigured(enabled, _) => Reconfigure(m, enabled)
  }

  /** The clients in force after the events. */
  function Fitted(clients: Clients, evs: seq<Event>): Clients
    decreases evs
  {
    if evs == [] then clients
    else
      var n := |evs| - 1;
      if evs[n].Reconfigured? then evs[n].rebuilt else Fitted(clients, evs[..n])
  }

  function Run(m: Manager, clients: Clients, evs: seq<Event>): (r: Manager)
    requires Sane(m)
    ensures Sane(r)
    decreases evs
  {
    if evs == [] then m
    else
      var n := |evs| - 1;
      Step(Run(m, clients, evs[..n]), Fitted(clients, evs[..n]), evs[n])
  }

  /** No event replaces the clients. */
  predicate Steady(evs: seq<Event>) {
    forall k | 0 <= k < |evs| :: !evs[k].Reconfigured?
  }

  // ---- The mismatch interlock ----------------------------------------------------------------

  /** Length of the last unbroken stretch of over-threshold calls; nothing but a locked call counts. */
  function Trailing(m: Manager, clients: Clients, evs: seq<Event>): nat
    requires Sane(m)
    decreases evs
  {
    if evs == [] then 0
    else
      var n := |evs| - 1;
      var before := Run(m, clients, evs[..n]);
      match evs[n]
      case Ticked(_) => Trailing(m, clients, evs[..n])
      case Reconfigured(_, _) => Trailing(m, clients, evs[..n])
      case Checked(c) =>
        if !c.locked then Trailing(m, clients, evs[..n])
        else if Over(before, c) then Trailing(m, clients, evs[..n]) + 1
        else 0
  }

  predicate SameInterlock(a: Manager, b: Manager) {
    a.streak == b.streak && a.mismatch == b.mismatch
  }

  lemma ProbingKeepsInterlock(m: Manager, clients: Clients, t: Tick)
    requires m.probeIdx <= PROBE_ORDER_LEN
    ensures SameInterlock(ProbingTick(m, clients, t), m)
  {
    assert SameInterlock(Advance(m, clients), m);
  }

  lemma LockedKeepsInterlock(m: Manager, clients: Clients, t: Tick)
    ensures SameInterlock(LockedTick(m, clients, t), m)
  {
    assert SameInterlock(Ask(m, t), m);
  }

  lemma TickKeepsInterlock(m: Manager, clients: Clients, t: Tick)
    requires Sane(m)
    ensures SameInterlock(TickEffect(m, clients, t), m)
  {
    if m.mode.Probing? {
      ProbingKeepsInterlock(m, clients, t);
    } else if m.mode.Locked? {
      LockedKeepsInterlock(m, clients, t);
    }
  }

  /** The counters are a function of the call history: the last stretch, capped at three. */
  lemma {:induction false} InterlockIsHistory(m: Manager, clients: Clients, evs: seq<Event>)
    requires Sane(m) && m.streak == 0 && !m.mismatch
    ensures Run(m, clients, evs).streak == Min(Trailing(m, clients, evs), SUSTAIN)
    ensures Run(m, clients, evs).mismatch <==> Trailing(m, clients, evs) >= SUSTAIN
    decreases evs
  {
    if evs != [] {
      var n := |evs| - 1;
      InterlockIsHistory(m, clients, evs[..n]);
      if evs[n].Ticked? {
        TickKeepsInterlock(Run(m, clients, evs[..n]), Fitted(clients, evs[..n]), evs[n].t);
      }
    }
  }

  /** During a sustained disagreement the battery is never the authority on its charge. */
  lemma NoAuthorityWhileDisagreeing(m: Manager, clients: Clients, evs: seq<Event>, locked: bool, now: u32, interval: u32)
    requires Sane(m) && m.streak == 0 && !m.mismatch && Trailing(m, clients, evs) >= SUSTAIN
    ensures !SocAuthoritative(Run(m, clients, evs), locked, now, interval)
  {
    InterlockIsHistory(m, clients, evs);
  }

  // ---- Hysteresis into Locked --------------------------------------------------------------------

  /** The tick listens to the client being probed. */
  predicate Listening(m: Manager, clients: Clients, t: Tick)
    requires Sane(m)
  {
    t.locked && m.mode.Probing? && Advance(m, clients).probing.Some? && m.waiting
  }

  predicate Hit(m: Manager, clients: Clients, t: Tick)
    requires Sane(m)
  {
    Listening(m, clients, t) && t.answer.Some?
  }

  predicate Timeout(m: Manager, clients: Clients, t: Tick)
    requires Sane(m)
  {
    Listening(m, clients, t) && t.answer.None? && Elapsed(t.now, m.startMs) > RESPONSE_WINDOW_MS
  }

  predicate Restart(m: Manager, t: Tick) {
    t.locked && (m.mode.Lost? || m.mode.IdleNoBms?) && CooledDown(m, t)
  }

  /** The tick locks on to the client being probed. */
  predicate Locks(m: Manager, clients: Clients, t: Tick)
    requires Sane(m)
  {
    !m.mode.Locked? && TickEffect(m, clients, t).mode.Locked?
  }

  function HitsAfter(m: Manager, clients: Clients, t: Tick, hits: nat): nat
    requires Sane(m)
  {
    if Timeout(m, clients, t) || Restart(m, t) || Locks(m, clients, t) then 0
    else if Hit(m, clients, t) then hits + 1
    else hits
  }

  /** Successful probe polls since the last response timeout, start of probing or lock, reconfigurations included. */
  function Hits(m: Manager, clients: Clients, evs: seq<Event>): nat
    requires Sane(m)
    decreases evs
  {
    if evs == [] then 0
    else
      var n := |evs| - 1;
      var hits := Hits(m, clients, evs[..n]);
      match evs[n]
      case Ticked(t) => HitsAfter(Run(m, clients, evs[..n]), Fitted(clients, evs[..n]), t, hits)
      case _ => hits
  }

  function HitsNext(m: Manager, t: Tick, hits: nat): nat {
    if m.waiting && t.answer.Some? then hits + 1
    else if m.waiting && Elapsed(t.now, m.startMs) > RESPONSE_WINDOW_MS then 0
    else hits
  }

  lemma ProbeHits(m: Manager, t: Tick, hits: nat)
    requires Sane(m) && m.mode.Probing? && m.probing.Some? && m.successes == hits
    ensures var m' := Probe(m, t);
            && (m'.mode.Locked? <==> m.waiting && t.answer.Some? && hits == 1)
            && (m'.mode.Probing? || m'.mode.Locked?)
            && (m'.mode.Probing? ==> m'.successes == HitsNext(m, t, hits))
  {
  }

  lemma LockedStays(m: Manager, clients: Clients, t: Tick)
    requires Sane(m) && m.mode.Locked?
    ensures LockedTick(m, clients, t).mode.Locked? || LockedTick(m, clients, t).mode.Lost?
  {
    ListenBounds(m, t);
  }

  lemma LockedKeepsSuccesses(m: Manager, clients: Clients, t: Tick)
    requires Sane(m) && m.mode.Locked?
    ensures LockedTick(m, clients, t).successes == m.successes
  {
    ListenBounds(m, t);
  }

  lemma TickHits(m: Manager, clients: Clients, t: Tick, hits: nat)
    requires Sane(m) && m.successes == hits
    ensures TickEffect(m, clients, t).successes == HitsAfter(m, clients, t, hits)
    ensures !m.mode.Locked? ==> (TickEffect(m, clients, t).mode.Locked? <==> Hit(m, clients, t) && hits == 1)
  {
    if t.locked && m.mode.Probing? {
      AdvanceStaysSane(m, clients);
      var m' := Advance(m, clients);
      if m'.probing.Some? {
        ProbeHits(m', t, hits);
      }
    } else if t.locked && m.mode.Locked? {
      LockedStays(m, clients, t);
      LockedKeepsSuccesses(m, clients, t);
    }
  }

  lemma {:induction false} SuccessesAreHits(m: Manager, clients: Clients, evs: seq<Event>)
    requires Sane(m) && m.successes == 0
    ensures Run(m, clients, evs).successes == Hits(m, clients, evs)
    decreases evs
  {
    if evs != [] {
      var n := |evs| - 1;
      SuccessesAreHits(m, clients, evs[..n]);
      if evs[n].Ticked? {
        TickHits(Run(m, clients, evs[..n]), Fitted(clients, evs[..n]), evs[n].t, Hits(m, clients, evs[..n]));
      }
    }
  }

  /**
   * A protocol is locked exactly by a second successful poll with no timeout, restart or
   * lock since the first. A reconfiguration in between, with whatever clients, changes
   * nothing about that.
   */
  lemma LockedAtSecondHit(m: Manager, clients: Clients, evs: seq<Event>, t: Tick)
    requires Sane(m) && m.successes == 0 && !Run(m, clients, evs).mode.Locked?
    ensures var r := Run(m, clients, evs);
            var fitted := Fitted(clients, evs);
            TickEffect(r, fitted, t).mode.Locked? <==> Hit(r, fitted, t) && Hits(m, clients, evs) == 1
  {
    SuccessesAreHits(m, clients, evs);
    TickHits(Run(m, clients, evs), Fitted(clients, evs), t, Hits(m, clients, evs));
  }

  // ---- Which client is locked ----------------------------------------------------------------------

  /** A request to the client being probed that was not accepted. */
  predicate RefusedRequest(m: Manager, clients: Clients, ev: Event)
    requires Sane(m)
  {
    && ev.Ticked? && ev.t.locked && m.mode.Probing? && Advance(m, clients).probing.Some?
    && !m.waiting && !ev.t.requestOk
  }

  function Refused(m: Manager, clients: Clients, evs: seq<Event>): nat
    requires Sane(m)
    decreases evs
  {
    if evs == [] then 0
    else
      var n := |evs| - 1;
      Refused(m, clients, evs[..n])
        + Flag(RefusedRequest(Run(m, clients, evs[..n]), Fitted(clients, evs[..n]), evs[n]))
  }

  /** The event neither adds a success nor takes one away. */
  predicate Between(m: Manager, clients: Clients, ev: Event)
    requires Sane(m)
  {
    ev.Ticked? ==> !Hit(m, clients, ev.t) && !Timeout(m, clients, ev.t) && !Restart(m, ev.t)
  }

  predicate AllBetween(m: Manager, clients: Clients, evs: seq<Event>)
    requires Sane(m)
    decreases evs
  {
    evs == []
    || (var n := |evs| - 1;
        && AllBetween(m, clients, evs[..n])
        && Between(Run(m, clients, evs[..n]), Fitted(clients, evs[..n]), evs[n]))
  }

  /** Client a is being probed with `used` attempts spent, or, when `gone`, probing has moved past it for good. */
  predicate At(m: Manager, a: nat, used: nat, gone: bool) {
    && m.successes == 1 && a < m.probeIdx <= PROBE_ORDER_LEN
    && (m.probing.Some? ==> m.mode.Probing?)
    && (if used < ATTEMPTS_PER_CLIENT && !gone then m.mode.Probing? && m.probing == Some(a) && m.attempts == used
        else !m.mode.Locked? && !m.mode.Lost? && (m.probing.Some? ==> a < m.probing.value))
  }

  lemma AdvanceAt(m: Manager, clients: Clients, a: nat, used: nat, gone: bool)
    requires Sane(m) && m.mode.Probing? && At(m, a, used, gone)
    ensures At(Advance(m, clients), a, used, gone)
  {
  }

  lemma ProbeAt(m: Manager, t: Tick, a: nat, used: nat, gone: bool)
    requires Sane(m) && m.mode.Probing? && m.probing.Some? && At(m, a, used, gone)
    requires m.waiting ==> t.answer.None? && Elapsed(t.now, m.startMs) <= RESPONSE_WINDOW_MS
    ensures At(Probe(m, t), a, used + Flag(!m.waiting && !t.requestOk), gone)
  {
  }

  lemma TickAt(m: Manager, clients: Clients, t: Tick, a: nat, used: nat, gone: bool)
    requires Sane(m) && m.mode.Probing? && At(m, a, used, gone) && t.locked && Between(m, clients, Ticked(t))
    ensures At(ProbingTick(m, clients, t), a, used + Flag(RefusedRequest(m, clients, Ticked(t))), gone)
  {
    AdvanceStaysSane(m, clients);
    AdvanceAt(m, clients, a, used, gone);
    var m' := Advance(m, clients);
    if m'.probing.Some? {
      ProbeAt(m', t, a, used, gone);
    }
  }

  lemma StepAt(m: Manager, clients: Clients, ev: Event, a: nat, used: nat, gone: bool)
    requires Sane(m) && At(m, a, used, gone) && Between(m, clients, ev)
    ensures At(Step(m, clients, ev), a, used + Flag(RefusedRequest(m, clients, ev)), gone || ev.Reconfigured?)
  {
    match ev
    case Ticked(t) =>
      if t.locked && m.mode.Probing? {
        TickAt(m, clients, t, a, used, gone);
      }
    case Checked(c) =>
    case Reconfigured(enabled, rebuilt) =>
  }

  lemma {:induction false} RunAt(m: Manager, clients: Clients, evs: seq<Event>, a: nat, used: nat)
    requires Sane(m) && At(m, a, used, false) && AllBetween(m, clients, evs)
    ensures At(Run(m, clients, evs), a, used + Refused(m, clients, evs), !Steady(evs))
    decreases evs
  {
    if evs != [] {
      var n := |evs| - 1;
      RunAt(m, clients, evs[..n], a, used);
      StepAt(Run(m, clients, evs[..n]), Fitted(clients, evs[..n]), evs[n], a,
             used + Refused(m, clients, evs[..n]), !Steady(evs[..n]));
      SteadySnoc(evs);
    }
  }

  lemma SteadySnoc(evs: seq<Event>)
    requires evs != []
    ensures Steady(evs) <==> Steady(evs[..|evs| - 1]) && !evs[|evs| - 1].Reconfigured?
  {
  }

  /**
   * The two polls need not be of the same client. After a first success at client a, with
   * `k` attempts already spent on it, the second success locks a itself exactly if fewer
   * than 3 - k requests were refused in between and the clients were not replaced: neither
   * a refusal nor a reconfiguration takes the first success back.
   */
  lemma LockClientIff(m: Manager, clients: Clients, first: Tick, evs: seq<Event>, t: Tick)
    requires Sane(m) && m.successes == 0 && Hit(m, clients, first)
    requires AllBetween(TickEffect(m, clients, first), clients, evs)
    requires Hit(Run(TickEffect(m, clients, first), clients, evs), Fitted(clients, evs), t)
    ensures var a := Advance(m, clients);
            var m1 := TickEffect(m, clients, first);
            var locked := TickEffect(Run(m1, clients, evs), Fitted(clients, evs), t);
            locked.mode.Locked?
            && (locked.active == a.probing <==>
                Refused(m1, clients, evs) < ATTEMPTS_PER_CLIENT - a.attempts && Steady(evs))
  {
    var a := Advance(m, clients);
    AdvanceStaysSane(m, clients);
    var m1 := TickEffect(m, clients, first);
    assert m1 == a.(successes := 1, waiting := false);
    RunAt(m1, clients, evs, a.probing.value, a.attempts);
    SecondHitLocks(Run(m1, clients, evs), Fitted(clients, evs), t, a.probing.value,
                   a.attempts + Refused(m1, clients, evs), !Steady(evs));
  }

  lemma SecondHitLocks(m: Manager, clients: Clients, t: Tick, a: nat, used: nat, gone: bool)
    requires Sane(m) && At(m, a, used, gone) && Hit(m, clients, t)
    ensures var m' := TickEffect(m, clients, t);
            m'.mode.Locked? && (m'.active == Some(a) <==> used < ATTEMPTS_PER_CLIENT && !gone)
  {
    AdvanceAt(m, clients, a, used, gone);
  }

  /** For one: three refusals by the client that answered first, and its successor is locked on one answer. */
  lemma LockAcrossClients(m: Manager, clients: Clients, a: nat, b: nat, t: Tick, d: Data)
    requires Sane(m) && m.mode.Probing? && m.probing == Some(a) && m.successes == 1 && !m.waiting && m.attempts == 0
    requires a < b && NextClient(clients, m.probeIdx) == (b + 1, Some(b)) && t.locked
    ensures var refused := t.(requestOk := false);
            var m3 := TickEffect(TickEffect(TickEffect(m, clients, refused), clients, refused), clients, refused);
            var m4 := TickEffect(m3, clients, t.(requestOk := true));
            var m5 := TickEffect(m4, clients, t.(answer := Some(d)));
            m5.mode.Locked? && m5.active == Some(b)
  {
    var refused := t.(requestOk := false);
    var m1 := TickEffect(m, clients, refused);
    assert m1 == m.(attempts := 1);
    var m2 := TickEffect(m1, clients, refused);
    assert m2 == m.(attempts := 2);
    var m3 := TickEffect(m2, clients, refused);
    assert m3 == m.(attempts := 3, probing := None);
    var m4 := TickEffect(m3, clients, t.(requestOk := true));
    assert m4 == m.(attempts := 0, probing := Some(b), probeIdx := b + 1, waiting := true, startMs := t.now);
  }

  // ---- Hysteresis into Lost ------------------------------------------------------------------------

  predicate FailedPoll(m: Manager, clients: Clients, t: Tick) {
    && t.locked && m.mode.Locked? && ActiveClient(m, clients)
    && (if PollDue(m, t) then !t.requestOk
        else m.awaiting && t.answer.None? && Elapsed(t.now, m.sentMs) > 3 * RESPONSE_WINDOW_MS)
  }

  predicate GoodPoll(m: Manager, clients: Clients, t: Tick) {
    && t.locked && m.mode.Locked? && ActiveClient(m, clients)
    && (m.awaiting || (PollDue(m, t) && t.requestOk)) && t.answer.Some?
  }

  function FailsAfter(m: Manager, clients: Clients, t: Tick, fails: nat): nat
    requires Sane(m)
  {
    if GoodPoll(m, clients, t) || Locks(m, clients, t) then 0
    else if FailedPoll(m, clients, t) then fails + 1
    else fails
  }

  /** Failed polls since the last good one, or since the protocol was locked. */
  function Fails(m: Manager, clients: Clients, evs: seq<Event>): nat
    requires Sane(m)
    decreases evs
  {
    if evs == [] then 0
    else
      var n := |evs| - 1;
      var fails := Fails(m, clients, evs[..n]);
      match evs[n]
      case Ticked(t) => FailsAfter(Run(m, clients, evs[..n]), Fitted(clients, evs[..n]), t, fails)
      case _ => fails
  }

  predicate FailsAgree(m: Manager, fails: nat) {
    m.mode.Locked? ==> m.failures == fails
  }

  lemma ListenFails(m: Manager, clients: Clients, t: Tick)
    requires m.mode.Locked? && ActiveClient(m, clients) && t.locked
    ensures Listen(Ask(m, t), t).failures ==
            if GoodPoll(m, clients, t) then 0 else if FailedPoll(m, clients, t) then m.failures + 1 else m.failures
  {
  }

  lemma EnteringLocked(m: Manager, clients: Clients, t: Tick)
    requires Sane(m) && !m.mode.Locked?
    ensures TickEffect(m, clients, t).mode.Locked? ==> TickEffect(m, clients, t).failures == 0
  {
    if m.mode.Probing? {
      AdvanceStaysSane(m, clients);
    }
  }

  lemma TickFails(m: Manager, clients: Clients, t: Tick, fails: nat)
    requires Sane(m) && FailsAgree(m, fails)
    ensures FailsAgree(TickEffect(m, clients, t), FailsAfter(m, clients, t, fails))
    ensures m.mode.Locked? && t.locked ==> (TickEffect(m, clients, t).mode.Lost? <==>
              !ActiveClient(m, clients) || (FailedPoll(m, clients, t) && fails == 2))
  {
    if m.mode.Locked? {
      if t.locked && ActiveClient(m, clients) {
        ListenFails(m, clients, t);
        ListenBounds(m, t);
      }
    } else {
      EnteringLocked(m, clients, t);
    }
  }

  lemma {:induction false} FailuresAreFails(m: Manager, clients: Clients, evs: seq<Event>)
    requires Sane(m) && !m.mode.Locked?
    ensures FailsAgree(Run(m, clients, evs), Fails(m, clients, evs))
    decreases evs
  {
    if evs != [] {
      var n := |evs| - 1;
      FailuresAreFails(m, clients, evs[..n]);
      if evs[n].Ticked? {
        TickFails(Run(m, clients, evs[..n]), Fitted(clients, evs[..n]), evs[n].t, Fails(m, clients, evs[..n]));
      }
    }
  }

  /** A locked protocol is given up exactly on the third failure in a row, or when its client is gone. */
  lemma LostAtThirdFailure(m: Manager, clients: Clients, evs: seq<Event>, t: Tick)
    requires Sane(m) && !m.mode.Locked? && Run(m, clients, evs).mode.Locked? && t.locked
    ensures var r := Run(m, clients, evs);
            var fitted := Fitted(clients, evs);
            TickEffect(r, fitted, t).mode.Lost? <==>
            !ActiveClient(r, fitted) || (FailedPoll(r, fitted, t) && Fails(m, clients, evs) == 2)
  {
    FailuresAreFails(m, clients, evs);
    TickFails(Run(m, clients, evs), Fitted(clients, evs), t, Fails(m, clients, evs));
  }

  // ---- The reading on which everything rests ---------------------------------------------------

  /** What a tick makes of the reading held: the answer of a good poll or of the poll that locks, or nothing. */
  function DataAfter(m: Manager, clients: Clients, t: Tick, data: Data): Data
    requires Sane(m)
  {
    if GoodPoll(m, clients, t) || Locks(m, clients, t) then (if t.answer.Some? then t.answer.value else data)
    else if m.mode.Lost? && Restart(m, t) then NO_DATA
    else data
  }

  /** The answer of the last good poll or locking poll since the last restart out of Lost. */
  function LastAnswer(m: Manager, clients: Clients, evs: seq<Event>, data: Data): Data
    requires Sane(m)
    decreases evs
  {
    if evs == [] then data
    else
      var n := |evs| - 1;
      var last := LastAnswer(m, clients, evs[..n], data);
      match evs[n]
      case Ticked(t) => DataAfter(Run(m, clients, evs[..n]), Fitted(clients, evs[..n]), t, last)
      case _ => last
  }

  lemma LocksOnAnswer(m: Manager, clients: Clients, t: Tick)
    requires Sane(m) && Locks(m, clients, t)
    ensures t.answer.Some? && TickEffect(m, clients, t).data == t.answer.value
  {
    if m.mode.Probing? {
      AdvanceStaysSane(m, clients);
    }
  }

  lemma LockedData(m: Manager, clients: Clients, t: Tick)
    requires Sane(m) && m.mode.Locked? && t.locked
    ensures TickEffect(m, clients, t).data == if GoodPoll(m, clients, t) then t.answer.value else m.data
  {
    if ActiveClient(m, clients) {
      assert Ask(m, t).data == m.data;
    }
  }

  lemma ProbingData(m: Manager, clients: Clients, t: Tick)
    requires Sane(m) && m.mode.Probing? && t.locked && !Locks(m, clients, t)
    ensures TickEffect(m, clients, t).data == m.data
  {
    AdvanceStaysSane(m, clients);
    assert Advance(m, clients).data == m.data;
  }

  lemma TickData(m: Manager, clients: Clients, t: Tick)
    requires Sane(m)
    ensures TickEffect(m, clients, t).data == DataAfter(m, clients, t, m.data)
  {
    if Locks(m, clients, t) {
      LocksOnAnswer(m, clients, t);
    } else if t.locked && m.mode.Locked? {
      LockedData(m, clients, t);
    } else if t.locked && m.mode.Probing? {
      ProbingData(m, clients, t);
    }
  }

  /** Over any run, reconfigurations included, the reading held is that answer. */
  lemma {:induction false} DataIsLastAnswer(m: Manager, clients: Clients, evs: seq<Event>)
    requires Sane(m)
    ensures Run(m, clients, evs).data == LastAnswer(m, clients, evs, m.data)
    decreases evs
  {
    if evs != [] {
      var n := |evs| - 1;
      DataIsLastAnswer(m, clients, evs[..n]);
      if evs[n].Ticked? {
        TickData(Run(m, clients, evs[..n]), Fitted(clients, evs[..n]), evs[n].t);
      }
    }
  }

  // ---- Authority -------------------------------------------------------------------------------

  /** Younger than two poll intervals and two seconds, as the 32-bit clock counts. */
  predicate Young(d: Data, now: u32, interval: u32) {
    d.lastUpdate != 0 && (now - d.lastUpdate) % 0x1_0000_0000 < (2 * interval + 2000) % 0x1_0000_0000
  }

  /** The two currents differ by more than 0.5 A and by more than 5 % of the shunt's. */
  predicate Apart(bms: real, shunt: real) {
    var d := if bms < shunt then shunt - bms else bms - shunt;
    d > 0.5 && d > 0.05 * (if shunt < 0.0 then -shunt else shunt)
  }

  lemma OverIff(m: Manager, c: Check)
    ensures Over(m, c) <==>
            && Young(m.data, c.now, c.interval) && c.shunt.Some?
            && m.data.current.Some? && -1000.0 <= m.data.current.value <= 1000.0
            && Apart(m.data.current.value, c.shunt.value)
  {
  }

  /** A check that compares reports the difference it found, and otherwise none. */
  lemma CheckReports(m: Manager, c: Check)
    ensures var (m', delta) := CheckEffect(m, c);
            && (delta.Some? <==>
                  && c.locked && Young(m.data, c.now, c.interval) && c.shunt.Some?
                  && m.data.current.Some? && -1000.0 <= m.data.current.value <= 1000.0)
            && (delta.Some? ==>
                  && delta.value >= 0.0
                  && (delta.value == m.data.current.value - c.shunt.value
                      || delta.value == c.shunt.value - m.data.current.value))
            && m'.lastMismatch == (if c.locked then delta else m.lastMismatch)
  {
  }

  lemma SocIff(m: Manager, locked: bool, now: u32, interval: u32)
    ensures SocAuthoritative(m, locked, now, interval) <==>
              && locked && m.mode == Locked && Young(m.data, now, interval) && m.data.faults == 0
              && m.data.soc.Some? && 0.0 <= m.data.soc.value <= 100.0 && !m.mismatch
  {
  }

  /**
   * The battery is the authority on its charge exactly while it is locked, the last answer is young,
   * free of faults and has a charge between 0 and 100 %, and the currents have not disagreed in the
   * last three comparisons.
   */
  lemma AuthorityIff(m: Manager, clients: Clients, evs: seq<Event>, locked: bool, now: u32, interval: u32)
    requires Sane(m) && m.streak == 0 && !m.mismatch
    ensures var r := Run(m, clients, evs);
            var d := LastAnswer(m, clients, evs, m.data);
            SocAuthoritative(r, locked, now, interval) <==>
              && locked && r.mode == Locked && Young(d, now, interval) && d.faults == 0
              && d.soc.Some? && 0.0 <= d.soc.value <= 100.0
              && Trailing(m, clients, evs) < 3
  {
    DataIsLastAnswer(m, clients, evs);
    InterlockIsHistory(m, clients, evs);
    SocIff(Run(m, clients, evs), locked, now, interval);
  }

  // ---- Cooldown ------------------------------------------------------------------------------------

  predicate Cooling(m: Manager) {
    m.mode.Lost? || m.mode.IdleNoBms?
  }

  lemma EntryStampsClock(m: Manager, clients: Clients, t: Tick)
    requires Sane(m) && !Cooling(m) && Cooling(TickEffect(m, clients, t))
    ensures TickEffect(m, clients, t).lostSince == t.now
  {
    if m.mode.Probing? {
      AdvanceStaysSane(m, clients);
      var m' := Advance(m, clients);
      if m'.probing.Some? {
        ProbeHits(m', t, m'.successes);
      }
    } else if m.mode.Locked? {
      ListenBounds(m, t);
    }
  }

  /** Unless it is reconfigured, neither Lost nor IdleNoBms is left before a tick at least 60 s after it was entered. */
  lemma {:induction false} StaysCooling(m: Manager, clients: Clients, evs: seq<Event>)
    requires Sane(m) && Cooling(m) && Steady(evs)
    requires forall k | 0 <= k < |evs| && evs[k].Ticked? :: Elapsed(evs[k].t.now, m.lostSince) < COOLDOWN_MS
    ensures Run(m, clients, evs).mode == m.mode && Run(m, clients, evs).lostSince == m.lostSince
    decreases evs
  {
    if evs != [] {
      StaysCooling(m, clients, evs[..|evs| - 1]);
    }
  }

  // ---- Probing ends ----------------------------------------------------------------------------------

  /** A tick that got the lock and to which nobody answered. */
  predicate Silent(ev: Event) {
    ev.Ticked? && ev.t.locked && ev.t.answer.None?
  }

  /** The millisecond clock moved on, by less than it takes to come round to the response window again. */
  predicate Moves(a: u32, b: u32) {
    1 <= Elapsed(b, a) <= U32_SIZE - 1501
  }

  lemma ElapsedGrows(start: u32, a: u32, b: u32)
    requires Moves(a, b) && Elapsed(a, start) <= RESPONSE_WINDOW_MS
    ensures Elapsed(b, start) == Elapsed(a, start) + Elapsed(b, a)
  {
  }

  /** Ticks an attempt may still take, counted from a tick at `now`. */
  function Patience(m: Manager, now: u32): nat {
    if !m.waiting then 1503
    else if Elapsed(now, m.startMs) <= RESPONSE_WINDOW_MS then 1501 - Elapsed(now, m.startMs)
    else 1502
  }

  /** Slots left, then attempts left, then waiting time. */
  function Rank(m: Manager, now: u32): nat
    requires Sane(m)
  {
    (PROBE_ORDER_LEN - m.probeIdx) * 4540
      + if m.probing.Some? then (2 - m.attempts) * 1510 + Patience(m, now) + 1 else 0
  }

  lemma ProbeDescends(m: Manager, t: Tick, now: u32)
    requires Sane(m) && m.mode.Probing? && m.probing.Some? && t.answer.None? && Moves(now, t.now)
    ensures var m' := Probe(m, t);
            Sane(m') && m'.mode.Probing? && m'.probeIdx == m.probeIdx && Rank(m', t.now) < Rank(m, now)
  {
    if m.waiting && Elapsed(now, m.startMs) <= RESPONSE_WINDOW_MS {
      ElapsedGrows(m.startMs, now, t.now);
    }
  }

  /** A tick that has just turned to a new client, whatever an earlier lock left behind in `waiting`. */
  lemma FirstProbe(m: Manager, t: Tick)
    requires Sane(m) && m.mode.Probing? && m.probing.Some? && m.attempts == 0 && t.answer.None?
    ensures var m' := Probe(m, t);
            Sane(m') && m'.mode.Probing? && m'.probeIdx == m.probeIdx
            && Rank(m', t.now) < (PROBE_ORDER_LEN - m.probeIdx) * 4540 + 4540
  {
  }

  lemma SilentTickDescends(m: Manager, clients: Clients, t: Tick, now: u32)
    requires Sane(m) && m.mode.Probing? && Silent(Ticked(t)) && Moves(now, t.now)
    ensures var m' := TickEffect(m, clients, t);
            Sane(m') && (m'.mode.IdleNoBms? || (m'.mode.Probing? && Rank(m', t.now) < Rank(m, now)))
  {
    TickStaysSane(m, clients, t);
    if m.probing.Some? {
      ProbeDescends(m, t, now);
    } else {
      AdvanceStaysSane(m, clients);
      var a := Advance(m, clients);
      if a.probing.Some? {
        FirstProbe(a, t);
      }
    }
  }

  function ClockAt(now: u32, evs: seq<Event>, k: nat): u32
    requires k <= |evs| && forall i | 0 <= i < |evs| :: Silent(evs[i])
  {
    if k == 0 then now else (assert Silent(evs[k - 1]); evs[k - 1].t.now)
  }

  predicate ClockMoves(now: u32, evs: seq<Event>)
    requires forall i | 0 <= i < |evs| :: Silent(evs[i])
  {
    forall k | 0 <= k < |evs| :: Moves(ClockAt(now, evs, k), ClockAt(now, evs, k + 1))
  }

  /** IdleNoBms was reached after at most k of the events. */
  predicate Ended(m: Manager, clients: Clients, evs: seq<Event>, k: nat)
    requires Sane(m) && k <= |evs|
    decreases k
  {
    Run(m, clients, evs[..k]).mode.IdleNoBms? || (k > 0 && Ended(m, clients, evs, k - 1))
  }

  lemma {:induction false} EndedSomewhere(m: Manager, clients: Clients, evs: seq<Event>, k: nat)
    requires Sane(m) && k <= |evs| && Ended(m, clients, evs, k)
    ensures exists j | 0 <= j <= k :: Run(m, clients, evs[..j]).mode.IdleNoBms?
    decreases k
  {
    if !Run(m, clients, evs[..k]).mode.IdleNoBms? {
      EndedSomewhere(m, clients, evs, k - 1);
    }
  }

  lemma RunSnoc(m: Manager, clients: Clients, evs: seq<Event>, k: nat)
    requires Sane(m) && k < |evs|
    ensures Run(m, clients, evs[..k + 1]) == Step(Run(m, clients, evs[..k]), Fitted(clients, evs[..k]), evs[k])
  {
    assert evs[..k + 1][..k] == evs[..k];
  }

  lemma {:induction false} DescendsOrEnds(m: Manager, clients: Clients, evs: seq<Event>, now: u32, k: nat)
    requires Sane(m) && m.mode.Probing? && k <= |evs|
    requires forall i | 0 <= i < |evs| :: Silent(evs[i])
    requires ClockMoves(now, evs)
    ensures Ended(m, clients, evs, k)
         || (var r := Run(m, clients, evs[..k]);
             r.mode.Probing? && Rank(r, ClockAt(now, evs, k)) + k <= Rank(m, now))
    decreases k
  {
    if k == 0 {
      assert evs[..0] == [];
    } else {
      DescendsOrEnds(m, clients, evs, now, k - 1);
      var r := Run(m, clients, evs[..k - 1]);
      RunSnoc(m, clients, evs, k - 1);
      if !Ended(m, clients, evs, k - 1) {
        assert Silent(evs[k - 1]) && Moves(ClockAt(now, evs, k - 1), ClockAt(now, evs, k - 1 + 1));
        SilentTickDescends(r, Fitted(clients, evs[..k - 1]), evs[k - 1].t, ClockAt(now, evs, k - 1));
      }
    }
  }

  /** If no client ever answers and the clock keeps moving, probing gives up. */
  lemma SilentProbingEnds(m: Manager, clients: Clients, evs: seq<Event>, now: u32)
    requires Sane(m) && m.mode.Probing?
    requires forall i | 0 <= i < |evs| :: Silent(evs[i])
    requires ClockMoves(now, evs) && |evs| > Rank(m, now)
    ensures exists j | 0 <= j <= |evs| :: Run(m, clients, evs[..j]).mode.IdleNoBms?
  {
    DescendsOrEnds(m, clients, evs, now, |evs|);
    EndedSomewhere(m, clients, evs, |evs|);
  }

  /**
   * A wait left over from an earlier lock: the first tick listens without
   * asking, and the unanswered wait costs the first client one of its attempts.
   */
  lemma StaleWaitCostsOneAttempt(m: Manager, clients: Clients, t: Tick)
    requires Sane(m) && m.mode.Probing? && m.probing.None? && m.waiting && Silent(Ticked(t))
    requires NextClient(clients, m.probeIdx).1.Some? && Elapsed(t.now, m.startMs) > RESPONSE_WINDOW_MS
    ensures var m' := TickEffect(m, clients, t);
            m'.probing == NextClient(clients, m.probeIdx).1 && m'.attempts == 1 && !m'.waiting && m'.startMs == m.startMs
  {
  }

  // ---- Reconfiguration ---------------------------------------------------------------------------------

  /** A success counted before a reconfiguration still counts after it: one new poll is enough to lock. */
  lemma ReconfigureKeepsSuccess(m: Manager, rebuilt: Clients, t: Tick, d: Data)
    requires Sane(m) && m.successes == 1 && !m.waiting && t.locked && t.requestOk
    requires NextClient(rebuilt, m.probeIdx).1.Some?
    ensures var m1 := TickEffect(Reconfigure(m, true), rebuilt, t);
            var m2 := TickEffect(m1, rebuilt, t.(answer := Some(d)));
            m2.mode.Locked? && m2.active == NextClient(rebuilt, m.probeIdx).1
  {
    var c := NextClient(rebuilt, m.probeIdx);
    var m1 := TickEffect(Reconfigure(m, true), rebuilt, t);
    assert m1 == Reconfigure(m, true).(probeIdx := c.0, probing := c.1, attempts := 0, waiting := true, startMs := t.now);
  }

  /** And the probe index is not rewound: the first tick gives up exactly if no client lies at or after it. */
  lemma ReconfigureSkipsClientsIff(m: Manager, rebuilt: Clients, t: Tick)
    requires Sane(m) && t.locked && t.answer.None?
    ensures TickEffect(Reconfigure(m, true), rebuilt, t).mode.IdleNoBms? <==>
            forall k | m.probeIdx <= k < PROBE_ORDER_LEN :: !rebuilt[k]
  {
    var r := Reconfigure(m, true);
    AdvanceStaysSane(r, rebuilt);
    var a := Advance(r, rebuilt);
    if a.probing.Some? {
      FirstProbe(a, t);
      assert rebuilt[a.probing.value];
    }
  }
}
