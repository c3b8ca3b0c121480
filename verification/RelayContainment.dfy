/**
 * Exactly when the two windows of the relay driver matter: a starved all-off that
 * does not hold the bank off, and a writer that outlives the shadow it computed from.
 */
module RelayContainment {
  import opened Common
  import opened RelayDriver
  import opened RelayBarrier

  // ---- Facts about reachable states -------------------------------------------------------

  /** Past the entry test a channel number is a channel. */
  predicate ChannelChecked(pc: Pc) {
    pc.SetAwaitLock? || pc.SetLocked? || pc.SetAdmitted? ==> pc.ch < CHANNEL_COUNT
  }

  predicate Proper(s: System) {
    && MutualExclusion(s) && s.bank.available
    && forall t | 0 <= t < |s.pcs| :: ChannelChecked(s.pcs[t])
  }

  lemma ActChecksChannels(b: Bank, free: bool, pc: Pc, c: Choice)
    requires ChannelChecked(pc)
    ensures ChannelChecked(Act(b, free, pc, c).pc) && Act(b, free, pc, c).bank.available == b.available
  {
  }

  lemma ProperStep(s: System, a: Action)
    requires Proper(s)
    ensures Proper(Do(s, a)) && |Do(s, a).pcs| == |s.pcs|
  {
    ExclusionStep(s, a);
    if a.task < |s.pcs| {
      ActChecksChannels(s.bank, s.owner.None?, s.pcs[a.task], a.choice);
    }
  }

  lemma {:induction false} ProperRun(s: System, acts: seq<Action>)
    requires Proper(s)
    ensures Proper(Run(s, acts))
    decreases acts
  {
    if acts != [] {
      ProperStep(s, acts[0]);
      ProperRun(Do(s, acts[0]), acts[1..]);
    }
  }

  lemma BootedIsProper(tasks: nat)
    ensures Proper(Booted(tasks))
  {
  }

  /** Latched, all relays off. */
  predicate Isolated(s: System) {
    Proper(s) && s.bank.latched && s.bank.hw == ALL_OFF
  }

  /** Some continuation without an ARM energises a relay. */
  ghost predicate CanBreak(s: System) {
    exists acts :: NoClear(acts) && Run(s, acts).bank.hw != ALL_OFF
  }

  lemma BrokenNow(s: System)
    requires s.bank.hw != ALL_OFF
    ensures CanBreak(s)
  {
    assert NoClear([]) && Run(s, []).bank.hw != ALL_OFF;
  }

  lemma BreakStep(s: System, t: nat, c: Choice)
    requires c != Call(CallClearLatch) && CanBreak(Do(s, Action(t, c)))
    ensures CanBreak(s)
  {
    var a := Action(t, c);
    var acts :| NoClear(acts) && Run(Do(s, a), acts).bank.hw != ALL_OFF;
    assert ([a] + acts)[1..] == acts;
    assert Run(s, [a] + acts) == Run(Do(s, a), acts);
    assert NoClear([a] + acts);
  }

  // ---- The condition -----------------------------------------------------------------------

  /** The mutex holder is about to make the shadow all-off before it lets go. */
  predicate Committing(pc: Pc) {
    pc == SetAcked(ALL_OFF) || pc == OffAcked(true) || pc == RecVerified
  }

  /** Writes something other than all-off for channel ch switched off. */
  predicate LeavesOthersOn(shadow: bv8, ch: nat) {
    ch < CHANNEL_COUNT && Next(shadow, ch, false) != ALL_OFF
  }

  /** A task from which a stale shadow with a relay on can reach the bus. */
  predicate Route(pc: Pc, unknown: bool, shadow: bv8) {
    match pc
    case SetLocked(ch, on) => if on then !unknown else LeavesOthersOn(shadow, ch)
    case SetAdmitted(ch, on) => LeavesOthersOn(shadow, ch)
    case SetAwaitLock(ch, on) => !unknown || (!on && LeavesOthersOn(shadow, ch))
    case OffShadowed(_) => true
    case RecShadowed => true
    case Idle => !unknown
    case SetEntered(_, _) => !unknown
    case RecAwaitLock => !unknown
    case RecWriting => !unknown
    case RecReading => !unknown
    case Unlocking => !unknown
    case _ => false
  }

  predicate OwnerCommits(s: System)
    requires MutualExclusion(s)
  {
    s.owner.Some? && Committing(s.pcs[s.owner.value])
  }

  predicate NoRoute(s: System) {
    forall t | 0 <= t < |s.pcs| :: !Route(s.pcs[t], s.bank.unknown, s.bank.shadow)
  }

  /**
   * Nobody is about to write or commit a byte with a relay on, and the shadow is all-off, is
   * about to be made so, or is stale with nobody left who could send it.
   */
  predicate Contained(s: System)
    requires MutualExclusion(s)
  {
    && (forall t | 0 <= t < |s.pcs| :: Harmless(s.pcs[t]))
    && (s.bank.shadow == ALL_OFF || OwnerCommits(s) || NoRoute(s))
  }

  // ---- Contained states stay isolated --------------------------------------------------------

  /** One action of a task that is not blocked on a committing owner. */
  lemma ContainedAct(b: Bank, free: bool, pc: Pc, c: Choice)
    requires b.available && b.latched && b.hw == ALL_OFF && Harmless(pc) && ChannelChecked(pc)
    requires c != Call(CallClearLatch)
    requires b.shadow == ALL_OFF || Committing(pc) || !Route(pc, b.unknown, b.shadow)
    ensures var e := Act(b, free, pc, c);
            && e.bank.latched && e.bank.hw == ALL_OFF && Harmless(e.pc)
            && (e.bank.shadow == b.shadow || e.bank.shadow == ALL_OFF)
            && (Committing(pc) ==> e.bank.shadow == ALL_OFF || (e.pc == pc && e.bank == b))
            && (e.bank.shadow != ALL_OFF && !Committing(pc) ==>
                  (b.unknown ==> e.bank.unknown) && !Route(e.pc, e.bank.unknown, b.shadow))
  {
    if pc.SetAdmitted? && b.shadow == ALL_OFF {
      OffKeepsAllOff(pc.ch);
    }
  }

  /** One action of a task outside the mutex while somebody else holds it. */
  lemma BlockedAct(b: Bank, pc: Pc, c: Choice)
    requires b.latched && b.hw == ALL_OFF && !Holds(pc) && c != Call(CallClearLatch)
    ensures var e := Act(b, false, pc, c);
            && e.bank.latched && e.bank.hw == ALL_OFF && Harmless(e.pc) && !Holds(e.pc)
            && (e.bank.shadow == b.shadow || e.bank.shadow == ALL_OFF)
  {
    ActMovesTheMutex(b, false, pc, c);
    OutsideIsHarmless(Act(b, false, pc, c).pc);
  }

  lemma OutsideIsHarmless(pc: Pc)
    requires !Holds(pc)
    ensures Harmless(pc)
  {
  }

  lemma UnknownClosesRoutes(pc: Pc, unknown: bool, unknown': bool, shadow: bv8)
    requires !Route(pc, unknown, shadow) && (unknown ==> unknown')
    ensures !Route(pc, unknown', shadow)
  {
  }

  /** The owner is committing and another task acts. */
  lemma BlockedStep(s: System, a: Action)
    requires Isolated(s) && Contained(s) && a.choice != Call(CallClearLatch) && a.task < |s.pcs|
    requires OwnerCommits(s) && !Holds(s.pcs[a.task])
    ensures Isolated(Do(s, a)) && Contained(Do(s, a))
  {
    ProperStep(s, a);
    BlockedAct(s.bank, s.pcs[a.task], a.choice);
    ActMovesTheMutex(s.bank, false, s.pcs[a.task], a.choice);
    assert Do(s, a).owner == s.owner && OwnerCommits(Do(s, a));
  }

  /** Nobody could send the stale shadow, and still nobody can. */
  lemma RoutelessStep(s: System, a: Action)
    requires Isolated(s) && Contained(s) && a.choice != Call(CallClearLatch) && a.task < |s.pcs|
    requires NoRoute(s) && !Committing(s.pcs[a.task]) && Do(s, a).bank.shadow != ALL_OFF
    ensures NoRoute(Do(s, a))
  {
    ContainedAct(s.bank, s.owner.None?, s.pcs[a.task], a.choice);
    var s' := Do(s, a);
    forall t | 0 <= t < |s'.pcs|
      ensures !Route(s'.pcs[t], s'.bank.unknown, s'.bank.shadow)
    {
      if t != a.task {
        UnknownClosesRoutes(s.pcs[t], s.bank.unknown, s'.bank.unknown, s.bank.shadow);
      }
    }
  }

  lemma ContainedStep(s: System, a: Action)
    requires Isolated(s) && Contained(s) && a.choice != Call(CallClearLatch)
    ensures Isolated(Do(s, a)) && Contained(Do(s, a))
  {
    if a.task < |s.pcs| {
      var pc := s.pcs[a.task];
      if OwnerCommits(s) && !Holds(pc) {
        BlockedStep(s, a);
      } else {
        ProperStep(s, a);
        ContainedAct(s.bank, s.owner.None?, pc, a.choice);
        if Do(s, a).bank.shadow != ALL_OFF {
          if Committing(pc) {
            assert Do(s, a) == s;
          } else {
            RoutelessStep(s, a);
          }
        }
      }
    }
  }

  lemma {:induction false} ContainedRun(s: System, acts: seq<Action>)
    requires Isolated(s) && Contained(s) && NoClear(acts)
    ensures Run(s, acts).bank.hw == ALL_OFF
    decreases acts
  {
    if acts != [] {
      ContainedStep(s, acts[0]);
      ContainedRun(Do(s, acts[0]), acts[1..]);
    }
  }

  // ---- Every other state breaks ----------------------------------------------------------------

  lemma OnSendsARelay(shadow: bv8, ch: nat)
    requires ch < CHANNEL_COUNT
    ensures Next(shadow, ch, true) != ALL_OFF
  {
    NextIsOneChannel(shadow, ch, true, ch);
    MaskBits(ch, ch);
    assert ALL_OFF & Mask(ch) == Mask(ch);
  }

  /** A stale shadow with a relay on stays so when some other channel is switched off. */
  function SpareChannel(shadow: bv8): (ch: nat)
    requires shadow != ALL_OFF
    ensures LeavesOthersOn(shadow, ch)
  {
    assert Mask(1) == 2;
    assert shadow | 1 == 0xFF && shadow | 2 == 0xFF ==> shadow == 0xFF;
    if shadow | 1 != ALL_OFF then 0 else 1
  }

  lemma WritingBreaks(s: System, t: nat)
    requires t < |s.pcs| && s.pcs[t].SetWriting? && s.pcs[t].next != ALL_OFF
    ensures CanBreak(s)
  {
    BrokenNow(Do(s, Action(t, Write(Acked))));
    BreakStep(s, t, Write(Acked));
  }

  lemma AdmittedBreaks(s: System, t: nat)
    requires t < |s.pcs| && s.pcs[t].SetAdmitted? && s.pcs[t].ch < CHANNEL_COUNT
    requires Next(s.bank.shadow, s.pcs[t].ch, s.pcs[t].on) != ALL_OFF
    ensures CanBreak(s)
  {
    WritingBreaks(Do(s, Action(t, Go)), t);
    BreakStep(s, t, Go);
  }

  lemma LockedBreaks(s: System, t: nat)
    requires t < |s.pcs| && s.pcs[t].SetLocked? && !s.pcs[t].on && LeavesOthersOn(s.bank.shadow, s.pcs[t].ch)
    ensures CanBreak(s)
  {
    AdmittedBreaks(Do(s, Action(t, Go)), t);
    BreakStep(s, t, Go);
  }

  /** At the mutex, to switch one channel off on a shadow that has another one on. */
  predicate Poised(pc: Pc, shadow: bv8) {
    pc.SetAwaitLock? && !pc.on && LeavesOthersOn(shadow, pc.ch)
  }

  lemma PoisedBreaks(s: System, u: nat)
    requires u < |s.pcs| && Poised(s.pcs[u], s.bank.shadow) && s.owner.None?
    ensures CanBreak(s)
  {
    LockedBreaks(Do(s, Action(u, Take)), u);
    BreakStep(s, u, Take);
  }

  /** An owner that can be made to let go of the mutex without touching the shadow. */
  predicate LetsGo(pc: Pc) {
    Holds(pc) && !Committing(pc) && !pc.SetAcked?
  }

  /** One step of the owner towards its release. */
  function Release(pc: Pc): Choice {
    match pc
    case SetWriting(_) => Write(Lost)
    case OffWriting(_) => Write(Lost)
    case RecWriting => Write(Lost)
    case RecReading => Read(None)
    case _ => Go
  }

  function Rank(pc: Pc): nat {
    match pc
    case SetLocked(_, _) => 5
    case SetAdmitted(_, _) => 4
    case SetWriting(_) => 3
    case OffWriting(_) => 3
    case Unlocking => 1
    case _ => 2
  }

  lemma ReleaseKeepsShadow(b: Bank, pc: Pc)
    requires LetsGo(pc) && ChannelChecked(pc)
    ensures var e := Act(b, false, pc, Release(pc));
            e.bank.shadow == b.shadow && e.bank.latched == b.latched && (pc == Unlocking ==> e.bank == b)
  {
  }

  lemma ReleaseDescends(b: Bank, pc: Pc)
    requires LetsGo(pc) && ChannelChecked(pc)
    requires pc.SetAdmitted? ==> Next(b.shadow, pc.ch, pc.on) == ALL_OFF
    ensures var e := Act(b, false, pc, Release(pc));
            && (pc == Unlocking ==> e.pc == Idle && e.lock == Released)
            && (pc != Unlocking ==> LetsGo(e.pc) && Rank(e.pc) < Rank(pc) && e.lock == Kept)
  {
    match pc
    case SetLocked(ch, on) =>
    case SetAdmitted(ch, on) =>
    case SetWriting(next) =>
    case OffWriting(held) =>
    case RecWriting =>
    case RecReading =>
    case _ =>
  }

  /** The owner lets go, and the poised task follows it. */
  lemma {:induction false} OwnerYields(s: System, o: nat, u: nat)
    requires Proper(s) && s.bank.latched && s.owner == Some(o) && o < |s.pcs| && LetsGo(s.pcs[o])
    requires u < |s.pcs| && u != o && Poised(s.pcs[u], s.bank.shadow)
    ensures CanBreak(s)
    decreases Rank(s.pcs[o])
  {
    var pc := s.pcs[o];
    if pc.SetWriting? && pc.next != ALL_OFF {
      WritingBreaks(s, o);
    } else if pc.SetAdmitted? && Next(s.bank.shadow, pc.ch, pc.on) != ALL_OFF {
      AdmittedBreaks(s, o);
    } else {
      var s' := Do(s, Action(o, Release(pc)));
      ReleaseKeepsShadow(s.bank, pc);
      ReleaseDescends(s.bank, pc);
      ProperStep(s, Action(o, Release(pc)));
      if pc == Unlocking {
        PoisedBreaks(s', u);
      } else {
        OwnerYields(s', o, u);
      }
      BreakStep(s, o, Release(pc));
    }
  }

  /** Nobody in the mutex, or somebody who lets go. */
  predicate MutexYields(s: System)
    requires MutualExclusion(s)
  {
    s.owner.Some? ==> LetsGo(s.pcs[s.owner.value])
  }

  lemma PoisedBreaksAnyway(s: System, u: nat)
    requires Proper(s) && s.bank.latched && MutexYields(s)
    requires u < |s.pcs| && Poised(s.pcs[u], s.bank.shadow)
    ensures CanBreak(s)
  {
    if s.owner.None? {
      PoisedBreaks(s, u);
    } else {
      OwnerYields(s, s.owner.value, u);
    }
  }

  /** An action of a task outside the mutex that does not take it leaves the mutex alone. */
  lemma OutsiderStep(s: System, u: nat, c: Choice)
    requires Proper(s) && u < |s.pcs| && !Holds(s.pcs[u]) && !c.Take?
    ensures var s' := Do(s, Action(u, c));
            Proper(s') && s'.owner == s.owner && !Holds(s'.pcs[u]) && (MutexYields(s) ==> MutexYields(s'))
  {
    ProperStep(s, Action(u, c));
    ActMovesTheMutex(s.bank, s.owner.None?, s.pcs[u], c);
  }

  /** With the shadow stale but known, a new call will do. */
  lemma IdleBreaks(s: System, u: nat)
    requires Proper(s) && s.bank.latched && MutexYields(s) && s.bank.shadow != ALL_OFF && !s.bank.unknown
    requires u < |s.pcs| && s.pcs[u] == Idle
    ensures CanBreak(s)
  {
    var call := Call(CallSetChannel(SpareChannel(s.bank.shadow), false));
    var s1 := Do(s, Action(u, call));
    var s2 := Do(s1, Action(u, Go));
    OutsiderStep(s, u, call);
    OutsiderStep(s1, u, Go);
    PoisedBreaksAnyway(s2, u);
    BreakStep(s1, u, Go);
    BreakStep(s, u, call);
  }

  /** One step of a task outside the mutex, with a route, towards `Idle`. */
  function Withdraw(pc: Pc): Choice {
    if pc.SetAwaitLock? || pc.RecAwaitLock? then Timeout else Go
  }

  lemma WithdrawMoves(b: Bank, free: bool, pc: Pc)
    requires !Holds(pc) && Route(pc, b.unknown, b.shadow) && pc != Idle
    requires b.unknown ==> !pc.SetAwaitLock?
    ensures var e := Act(b, free, pc, Withdraw(pc));
            && e.bank == b.(unknown := false)
            && (e.pc == Idle || (pc.SetEntered? && e.pc.SetAwaitLock?))
  {
  }

  lemma {:induction false} OutsiderRouteBreaks(s: System, u: nat)
    requires Proper(s) && s.bank.latched && MutexYields(s) && s.bank.shadow != ALL_OFF
    requires u < |s.pcs| && !Holds(s.pcs[u]) && Route(s.pcs[u], s.bank.unknown, s.bank.shadow)
    ensures CanBreak(s)
    decreases s.pcs[u].SetEntered?
  {
    var pc := s.pcs[u];
    if pc == Idle {
      IdleBreaks(s, u);
    } else if Poised(pc, s.bank.shadow) {
      PoisedBreaksAnyway(s, u);
    } else {
      var s' := Do(s, Action(u, Withdraw(pc)));
      WithdrawMoves(s.bank, s.owner.None?, pc);
      OutsiderStep(s, u, Withdraw(pc));
      if s'.pcs[u] == Idle {
        IdleBreaks(s', u);
      } else {
        OutsiderRouteBreaks(s', u);
      }
      BreakStep(s, u, Withdraw(pc));
    }
  }

  lemma UnlockingBreaks(s: System, o: nat)
    requires Proper(s) && s.bank.latched && s.bank.shadow != ALL_OFF && !s.bank.unknown
    requires o < |s.pcs| && s.pcs[o] == Unlocking
    ensures CanBreak(s)
  {
    var s' := Do(s, Action(o, Go));
    ProperStep(s, Action(o, Go));
    IdleBreaks(s', o);
    BreakStep(s, o, Go);
  }

  lemma ReleaseUnlocks(b: Bank, pc: Pc)
    requires LetsGo(pc) && pc != Unlocking && Route(pc, b.unknown, b.shadow) && b.latched
    requires !pc.SetAdmitted? && (pc.SetLocked? ==> pc.on)
    ensures var e := Act(b, false, pc, Release(pc));
            e.pc == Unlocking && !e.bank.unknown && e.bank.shadow == b.shadow && e.bank.latched
  {
  }

  lemma OwnerRouteBreaks(s: System, o: nat)
    requires Proper(s) && s.bank.latched && s.owner == Some(o) && s.bank.shadow != ALL_OFF
    requires LetsGo(s.pcs[o]) && Route(s.pcs[o], s.bank.unknown, s.bank.shadow)
    ensures CanBreak(s)
  {
    var pc := s.pcs[o];
    if pc == Unlocking {
      UnlockingBreaks(s, o);
    } else if pc.SetLocked? && !pc.on {
      LockedBreaks(s, o);
    } else if pc.SetAdmitted? {
      if pc.on {
        OnSendsARelay(s.bank.shadow, pc.ch);
      }
      AdmittedBreaks(s, o);
    } else {
      ReleaseUnlocks(s.bank, pc);
      ProperStep(s, Action(o, Release(pc)));
      UnlockingBreaks(Do(s, Action(o, Release(pc))), o);
      BreakStep(s, o, Release(pc));
    }
  }

  /** One step of a task outside the mutex towards a starved all-off of its own. */
  function Starve(pc: Pc): Choice {
    match pc
    case Idle => Call(CallAllOff)
    case OffWriting(_) => Write(Acked)
    case SetAwaitLock(_, _) => Timeout
    case OffAwaitLock => Timeout
    case RecAwaitLock => Timeout
    case _ => Go
  }

  function StarveRank(pc: Pc): nat {
    match pc
    case SetEntered(_, _) => 7
    case SetAwaitLock(_, _) => 6
    case RecAwaitLock => 6
    case OffFailed(_) => 6
    case Idle => 5
    case ForceEntered => 5
    case OffAwaitLock => 4
    case OffWriting(_) => 3
    case OffAcked(_) => 2
    case _ => 1
  }

  lemma StarveStaysOutside(b: Bank, pc: Pc)
    requires !Holds(pc) && b.latched
    ensures Act(b, false, pc, Starve(pc)).bank.latched && !Holds(Act(b, false, pc, Starve(pc)).pc)
  {
    ActMovesTheMutex(b, false, pc, Starve(pc));
  }

  lemma StarveDescends(b: Bank, pc: Pc)
    requires !Holds(pc) && b.available && pc != OffShadowed(false)
    ensures StarveRank(Act(b, false, pc, Starve(pc)).pc) < StarveRank(pc)
  {
    match pc
    case Idle =>
    case SetEntered(ch, on) =>
    case SetAwaitLock(ch, on) =>
    case OffAwaitLock =>
    case OffWriting(held) =>
    case RecAwaitLock =>
    case _ =>
  }

  /** A byte acknowledged before a starved 0xFF and committed after it: the stale shadow is known again. */
  lemma {:induction false} AckedBreaks(s: System, o: nat, u: nat)
    requires Proper(s) && s.bank.latched && s.owner == Some(o)
    requires s.pcs[o].SetAcked? && s.pcs[o].next != ALL_OFF && u < |s.pcs| && !Holds(s.pcs[u])
    ensures CanBreak(s)
    decreases StarveRank(s.pcs[u])
  {
    if s.pcs[u] == OffShadowed(false) {
      ProperStep(s, Action(o, Go));
      OutsiderRouteBreaks(Do(s, Action(o, Go)), u);
      BreakStep(s, o, Go);
    } else {
      var c := Starve(s.pcs[u]);
      StarveStaysOutside(s.bank, s.pcs[u]);
      StarveDescends(s.bank, s.pcs[u]);
      OutsiderStep(s, u, c);
      AckedBreaks(Do(s, Action(u, c)), o, u);
      BreakStep(s, u, c);
    }
  }

  lemma HarmfulBreaks(s: System, t: nat, u: nat)
    requires Isolated(s) && t < |s.pcs| && !Harmless(s.pcs[t]) && u < |s.pcs| && !Holds(s.pcs[u])
    ensures CanBreak(s)
  {
    match s.pcs[t]
    case SetAdmitted(ch, on) =>
      OnSendsARelay(s.bank.shadow, ch);
      AdmittedBreaks(s, t);
    case SetWriting(_) =>
      WritingBreaks(s, t);
    case SetAcked(_) =>
      AckedBreaks(s, t, u);
  }

  lemma RouteBreaks(s: System, t: nat)
    requires Isolated(s) && s.bank.shadow != ALL_OFF && MutexYields(s)
    requires t < |s.pcs| && Route(s.pcs[t], s.bank.unknown, s.bank.shadow)
    ensures CanBreak(s)
  {
    if Holds(s.pcs[t]) {
      OwnerRouteBreaks(s, t);
    } else {
      OutsiderRouteBreaks(s, t);
    }
  }

  /**
   * THE LIMIT OF THE STARVED FALLBACK. With the latch set, the register at 0xFF and some task
   * outside the mutex, every continuation without an ARM keeps the register at 0xFF exactly
   * if the state is contained.
   */
  lemma BreaksUnlessContained(s: System, u: nat)
    requires Isolated(s) && u < |s.pcs| && !Holds(s.pcs[u])
    ensures CanBreak(s) <==> !Contained(s)
  {
    if Contained(s) {
      forall acts | NoClear(acts)
        ensures Run(s, acts).bank.hw == ALL_OFF
      {
        ContainedRun(s, acts);
      }
    } else if t :| 0 <= t < |s.pcs| && !Harmless(s.pcs[t]) {
      HarmfulBreaks(s, t, u);
    } else {
      var t :| 0 <= t < |s.pcs| && Route(s.pcs[t], s.bank.unknown, s.bank.shadow);
      RouteBreaks(s, t);
    }
  }

  /** For a starved 0xFF just acknowledged, after any run from boot. */
  lemma StarvedFallbackHoldsIff(tasks: nat, before: seq<Action>, t: nat)
    requires var s := Run(Booted(tasks), before);
             s.bank.latched && t < |s.pcs| && s.pcs[t] == OffWriting(false)
    ensures var s' := Do(Run(Booted(tasks), before), Action(t, Write(Acked)));
            MutualExclusion(s') && (CanBreak(s') <==> !Contained(s'))
  {
    var s := Run(Booted(tasks), before);
    BootedIsProper(tasks);
    ProperRun(Booted(tasks), before);
    ProperStep(s, Action(t, Write(Acked)));
    BreaksUnlessContained(Do(s, Action(t, Write(Acked))), t);
  }

  /**
   * The second way out of a starved fallback: the holder had its byte acknowledged before the
   * 0xFF and commits it after. The driver then knows a shadow the register does not have.
   */
  lemma StarvedCommitIsStale(s: System, t: nat, o: nat)
    requires t < |s.pcs| && s.pcs[t] == OffAcked(false) && o < |s.pcs| && s.pcs[o].SetAcked?
    ensures var r := Do(Do(Do(s, Action(t, Go)), Action(o, Go)), Action(t, Go));
            r.bank == s.bank.(shadow := s.pcs[o].next, unknown := false)
  {
  }

  // ---- Writing while the shadow is unknown -----------------------------------------------------

  predicate StaysUnknown(s: System, acts: seq<Action>)
    decreases acts
  {
    s.bank.unknown && (acts == [] || StaysUnknown(Do(s, acts[0]), acts[1..]))
  }

  predicate Writing(s: System) {
    exists t | 0 <= t < |s.pcs| :: s.pcs[t].SetWriting?
  }

  /** Some continuation brings a `setChannel` to the bus before the shadow is known again. */
  ghost predicate WritesLate(s: System) {
    exists acts :: StaysUnknown(s, acts) && Writing(Run(s, acts))
  }

  lemma LateNow(s: System, t: nat)
    requires s.bank.unknown && t < |s.pcs| && s.pcs[t].SetWriting?
    ensures WritesLate(s)
  {
    assert StaysUnknown(s, []) && Writing(Run(s, []));
  }

  lemma LateStep(s: System, t: nat, c: Choice)
    requires s.bank.unknown && WritesLate(Do(s, Action(t, c)))
    ensures WritesLate(s)
  {
    var a := Action(t, c);
    var acts :| StaysUnknown(Do(s, a), acts) && Writing(Run(Do(s, a), acts));
    assert ([a] + acts)[1..] == acts;
    assert StaysUnknown(s, [a] + acts) && Run(s, [a] + acts) == Run(Do(s, a), acts);
  }

  /** Holding the mutex for a `setChannel` that has still to write. */
  predicate Inside(pc: Pc) {
    pc.SetLocked? || pc.SetAdmitted? || pc.SetWriting?
  }

  /** An owner that makes the shadow known before it lets go. */
  predicate Settling(pc: Pc) {
    pc.OffAcked? || pc.OffShadowed? || pc.RecVerified? || pc.RecShadowed?
  }

  predicate OwnerSettles(s: System)
    requires MutualExclusion(s)
  {
    s.owner.Some? && Settling(s.pcs[s.owner.value])
  }

  /** A writer is past the refusal, which is made outside the mutex, and is not kept out until the shadow is known. */
  predicate LateWriter(s: System)
    requires MutualExclusion(s)
  {
    exists u | 0 <= u < |s.pcs| :: Inside(s.pcs[u]) || (s.pcs[u].SetAwaitLock? && !OwnerSettles(s))
  }

  lemma LateAct(b: Bank, free: bool, pc: Pc, c: Choice)
    requires b.unknown && !Inside(pc) && (pc.SetAwaitLock? ==> !free)
    requires Act(b, free, pc, c).bank.unknown
    ensures var e := Act(b, free, pc, c);
            && !Inside(e.pc)
            && (e.pc.SetAwaitLock? ==> e.pc == pc)
            && (Holds(pc) && Settling(pc) ==> e.pc == pc || Settling(e.pc))
  {
    match pc
    case Idle =>
    case SetEntered(ch, on) =>
    case SetAwaitLock(ch, on) =>
    case OffWriting(held) =>
    case OffAcked(held) =>
    case OffShadowed(held) =>
    case RecWriting =>
    case RecReading =>
    case RecVerified =>
    case RecShadowed =>
    case _ =>
  }

  lemma NoLateWriterStep(s: System, a: Action)
    requires Proper(s) && s.bank.unknown && !LateWriter(s) && Do(s, a).bank.unknown
    ensures Proper(Do(s, a)) && !LateWriter(Do(s, a))
  {
    ProperStep(s, a);
    if a.task < |s.pcs| {
      LateAct(s.bank, s.owner.None?, s.pcs[a.task], a.choice);
      ActMovesTheMutex(s.bank, s.owner.None?, s.pcs[a.task], a.choice);
    }
  }

  lemma {:induction false} NoLateWriterRun(s: System, acts: seq<Action>)
    requires Proper(s) && !LateWriter(s) && StaysUnknown(s, acts)
    ensures !Writing(Run(s, acts))
    decreases acts
  {
    if acts == [] {
      if t :| 0 <= t < |s.pcs| && s.pcs[t].SetWriting? {
        assert Inside(s.pcs[t]);
      }
    } else {
      NoLateWriterStep(s, acts[0]);
      NoLateWriterRun(Do(s, acts[0]), acts[1..]);
    }
  }

  lemma AdmittedWritesLate(s: System, u: nat)
    requires s.bank.unknown && u < |s.pcs| && s.pcs[u].SetAdmitted? && s.pcs[u].ch < CHANNEL_COUNT
    ensures WritesLate(s)
  {
    LateNow(Do(s, Action(u, Go)), u);
    LateStep(s, u, Go);
  }

  lemma LockedWritesLate(s: System, u: nat, o: nat)
    requires s.bank.unknown && u < |s.pcs| && s.pcs[u].SetLocked? && s.pcs[u].ch < CHANNEL_COUNT
    requires o < |s.pcs| && s.pcs[o] == Idle
    ensures WritesLate(s)
  {
    var armed := Do(s, Action(o, Call(CallClearLatch)));
    assert armed == s.(bank := s.bank.(latched := false));
    AdmittedWritesLate(Do(armed, Action(u, Go)), u);
    LateStep(armed, u, Go);
    LateStep(s, o, Call(CallClearLatch));
  }

  lemma AwaitingWritesLate(s: System, u: nat, o: nat)
    requires Proper(s) && s.bank.unknown && s.owner.None?
    requires u < |s.pcs| && s.pcs[u].SetAwaitLock? && o < |s.pcs| && s.pcs[o] == Idle
    ensures WritesLate(s)
  {
    LockedWritesLate(Do(s, Action(u, Take)), u, o);
    LateStep(s, u, Take);
  }

  lemma InsideWritesLate(s: System, u: nat, o: nat)
    requires Proper(s) && s.bank.unknown && u < |s.pcs| && Inside(s.pcs[u])
    requires o < |s.pcs| && s.pcs[o] == Idle
    ensures WritesLate(s)
  {
    match s.pcs[u]
    case SetLocked(_, _) => LockedWritesLate(s, u, o);
    case SetAdmitted(_, _) => AdmittedWritesLate(s, u);
    case SetWriting(_) => LateNow(s, u);
  }

  lemma YieldDescends(b: Bank, pc: Pc)
    requires Holds(pc) && !Inside(pc) && !Settling(pc) && b.unknown
    ensures var e := Act(b, false, pc, Release(pc));
            && e.bank.unknown
            && (pc == Unlocking ==> e.pc == Idle && e.lock == Released)
            && (pc != Unlocking ==> Holds(e.pc) && !Inside(e.pc) && !Settling(e.pc)
                                    && Rank(e.pc) < Rank(pc) && e.lock == Kept)
  {
    match pc
    case SetAcked(next) =>
    case SetFailed =>
    case OffWriting(held) =>
    case OffFailed(held) =>
    case RecWriting =>
    case RecReading =>
    case Unlocking =>
  }

  /** The owner lets go without making the shadow known; `o` is idle by then. */
  lemma {:induction false} AwaitingOutlastsOwner(s: System, w: nat, u: nat, o: nat)
    requires Proper(s) && s.bank.unknown && s.owner == Some(w) && !Inside(s.pcs[w]) && !Settling(s.pcs[w])
    requires u < |s.pcs| && s.pcs[u].SetAwaitLock? && o < |s.pcs| && (s.pcs[o] == Idle || o == w)
    ensures WritesLate(s)
    decreases Rank(s.pcs[w])
  {
    var pc := s.pcs[w];
    var s' := Do(s, Action(w, Release(pc)));
    YieldDescends(s.bank, pc);
    ProperStep(s, Action(w, Release(pc)));
    if pc == Unlocking {
      AwaitingWritesLate(s', u, if o == w then w else o);
    } else {
      AwaitingOutlastsOwner(s', w, u, o);
    }
    LateStep(s, w, Release(pc));
  }

  /**
   * THE LATE WRITER. Task o has just marked the shadow unknown. Some continuation brings a
   * `setChannel` to the bus before the shadow is known again exactly if one had passed the
   * refusal by then.
   */
  lemma WritesLateIff(s: System, o: nat)
    requires Proper(s) && s.bank.unknown && o < |s.pcs| && (s.pcs[o] == Idle || s.pcs[o] == Unlocking)
    ensures WritesLate(s) <==> LateWriter(s)
  {
    if !LateWriter(s) {
      forall acts | StaysUnknown(s, acts)
        ensures !Writing(Run(s, acts))
      {
        NoLateWriterRun(s, acts);
      }
    } else {
      var u :| 0 <= u < |s.pcs| && (Inside(s.pcs[u]) || (s.pcs[u].SetAwaitLock? && !OwnerSettles(s)));
      LateWriterWrites(s, u, o);
    }
  }

  lemma LateWriterWrites(s: System, u: nat, o: nat)
    requires Proper(s) && s.bank.unknown && o < |s.pcs| && (s.pcs[o] == Idle || s.pcs[o] == Unlocking)
    requires u < |s.pcs| && (Inside(s.pcs[u]) || (s.pcs[u].SetAwaitLock? && !OwnerSettles(s)))
    ensures WritesLate(s)
  {
    if Inside(s.pcs[u]) {
      InsideWritesLate(s, u, o);
    } else if s.owner.None? {
      AwaitingWritesLate(s, u, o);
    } else if Inside(s.pcs[s.owner.value]) {
      InsideWritesLate(s, s.owner.value, o);
    } else {
      AwaitingOutlastsOwner(s, s.owner.value, u, o);
    }
  }

  /** For the holder of the mutex whose write has failed: exactly if somebody is waiting for the mutex. */
  lemma FailureLetsWriterThroughIff(s: System, o: nat)
    requires Proper(s) && o < |s.pcs| && (s.pcs[o] == SetFailed || s.pcs[o] == OffFailed(true))
    ensures WritesLate(Do(s, Action(o, Go))) <==> exists u | 0 <= u < |s.pcs| :: s.pcs[u].SetAwaitLock?
  {
    var s' := Do(s, Action(o, Go));
    ProperStep(s, Action(o, Go));
    WritesLateIff(s', o);
    assert s'.owner == Some(o) && s'.pcs[o] == Unlocking && !OwnerSettles(s');
    assert forall u | 0 <= u < |s.pcs| && u != o :: s'.pcs[u] == s.pcs[u] && !Holds(s.pcs[u]);
  }

  /**
   * What the late writer sends is computed from the shadow the failure has made doubtful:
   * every relay the stale shadow has on is on again, but the one switched off.
   */
  lemma LateOffWrite(s: System, u: nat, k: nat)
    requires u < |s.pcs| && s.pcs[u].SetAwaitLock? && s.pcs[u].ch < CHANNEL_COUNT && !s.pcs[u].on
    requires s.owner.None? && k < CHANNEL_COUNT
    ensures var r := Do(Do(Do(Do(s, Action(u, Take)), Action(u, Go)), Action(u, Go)), Action(u, Write(Acked)));
            r.bank.unknown == s.bank.unknown
            && (IsOn(r.bank.hw, k) <==> k != s.pcs[u].ch && IsOn(s.bank.shadow, k))
  {
    NextIsOneChannel(s.bank.shadow, s.pcs[u].ch, false, k);
    var s1 := Do(s, Action(u, Take));
    var s2 := Do(s1, Action(u, Go));
    assert s2.pcs[u] == SetAdmitted(s.pcs[u].ch, false);
    var s3 := Do(s2, Action(u, Go));
    assert s3.pcs[u] == SetWriting(Next(s.bank.shadow, s.pcs[u].ch, false));
  }

  /**
   * So it undoes a switch-off that did reach the register: task t switches relay k off, the
   * write lands but is reported failed, and a call for another channel, already waiting for
   * the mutex, switches k on again while the shadow counts as unknown.
   */
  lemma UnknownShadowDoesNotStopLateWriter(s: System, t: nat, u: nat, k: nat)
    requires s.bank.available && !s.bank.unknown && s.owner.None? && t < |s.pcs| && s.pcs[t] == Idle
    requires u < |s.pcs| && s.pcs[u].SetAwaitLock? && s.pcs[u].ch < CHANNEL_COUNT && !s.pcs[u].on
    requires k < CHANNEL_COUNT && k != s.pcs[u].ch && IsOn(s.bank.shadow, k)
    ensures var off := Run(s, ByTask(t, SetChannelCall(k, false, true, Landed)));
            var r := Do(Do(Do(Do(off, Action(u, Take)), Action(u, Go)), Action(u, Go)), Action(u, Write(Acked)));
            off.bank.unknown && !IsOn(off.bank.hw, k) && r.bank.unknown && IsOn(r.bank.hw, k)
  {
    SoloRunIsSetChannel(s, t, k, false, true, Landed);
    NextIsOneChannel(s.bank.shadow, k, false, k);
    LateOffWrite(Run(s, ByTask(t, SetChannelCall(k, false, true, Landed))), u, k);
  }

  function Armed(reg: bv8, first: Pc): System {
    System(Bank(true, false, false, reg, reg), None, [first, Idle])
  }

  /** From boot: relay 0 on, and a call for channel 1 at the mutex. */
  function LateWriterSetup(): seq<Action> {
    [Action(0, Call(CallClearLatch))] + ByTask(1, SetChannelCall(0, true, true, Acked))
      + [Action(0, Call(CallSetChannel(1, false))), Action(0, Go)]
  }

  lemma SetupArms()
    ensures Run(Booted(2), [Action(0, Call(CallClearLatch))]) == Armed(ALL_OFF, Idle)
  {
    assert Booted(2).pcs == [Idle, Idle];
    RunSteps(Booted(2), [Action(0, Call(CallClearLatch))], [Booted(2), Armed(ALL_OFF, Idle)]);
  }

  lemma SetupLights()
    ensures Run(Armed(ALL_OFF, Idle), ByTask(1, SetChannelCall(0, true, true, Acked))) == Armed(0xFE, Idle)
  {
    FirstMaskCleared();
    SoloRunIsSetChannel(Armed(ALL_OFF, Idle), 1, 0, true, true, Acked);
  }

  lemma SetupAsks()
    ensures Run(Armed(0xFE, Idle), [Action(0, Call(CallSetChannel(1, false))), Action(0, Go)])
            == Armed(0xFE, SetAwaitLock(1, false))
  {
    var l0, l1, l2 := Armed(0xFE, Idle), Armed(0xFE, SetEntered(1, false)), Armed(0xFE, SetAwaitLock(1, false));
    assert Do(l0, Action(0, Call(CallSetChannel(1, false)))) == l1;
    assert Do(l1, Action(0, Go)) == l2;
    RunSteps(l0, [Action(0, Call(CallSetChannel(1, false))), Action(0, Go)], [l0, l1, l2]);
  }

  lemma LateWriterIsReachable()
    ensures Run(Booted(2), LateWriterSetup()) == Armed(0xFE, SetAwaitLock(1, false)) && IsOn(0xFE, 0)
  {
    var arm := [Action(0, Call(CallClearLatch))];
    var on := ByTask(1, SetChannelCall(0, true, true, Acked));
    RunAppend(Booted(2), arm + on, [Action(0, Call(CallSetChannel(1, false))), Action(0, Go)]);
    RunAppend(Booted(2), arm, on);
    SetupArms();
    SetupLights();
    SetupAsks();
    FirstMaskCleared();
  }
}
