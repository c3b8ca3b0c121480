/**
 * The same driver shared by any number of tasks. Each task carries a program
 * counter, every load, store, mutex operation and bus transaction is one atomic
 * action, and a run is an arbitrary sequence of actions. An action that is not
 * enabled for the task's program counter leaves the system unchanged.
 */
module RelayBarrier {
  import opened Common
  import opened RelayDriver

  datatype Op = CallSetChannel(ch: nat, on: bool) | CallForce | CallAllOff | CallRecover | CallClearLatch

  datatype Pc =
    | Idle
    // setChannel
    | SetEntered(ch: nat, on: bool)     // next: test availability and _shadowUnknown
    | SetAwaitLock(ch: nat, on: bool)
    | SetLocked(ch: nat, on: bool)      // next: test the latch (ON only)
    | SetAdmitted(ch: nat, on: bool)    // next: compute from _outputState
    | SetWriting(next: bv8)
    | SetAcked(next: bv8)               // next: commit _outputState
    | SetFailed                         // next: _shadowUnknown := true
    // forceSafetyAllOff, and its tail shared with allOff
    | ForceEntered                      // next: store the latch
    | OffAwaitLock
    | OffWriting(held: bool)
    | OffAcked(held: bool)              // next: _outputState := 0xFF
    | OffShadowed(held: bool)           // next: _shadowUnknown := false
    | OffFailed(held: bool)             // next: _shadowUnknown := true
    // recoverWithAllOff
    | RecAwaitLock
    | RecWriting
    | RecReading
    | RecVerified                       // next: _outputState := 0xFF
    | RecShadowed                       // next: _shadowUnknown := false
    | Unlocking

  datatype Choice =
    | Call(op: Op)
    | Go                                // perform the pending load, store or give
    | Take                              // xSemaphoreTake succeeds
    | Timeout                           // xSemaphoreTake times out
    | Write(w: WriteOutcome)
    | Read(value: Option<bv8>)

  datatype Action = Action(task: nat, choice: Choice)

  datatype System = System(bank: Bank, owner: Option<nat>, pcs: seq<Pc>)

  /** What one action does: to the bank, to the acting task, to the mutex. */
  datatype Effect = Effect(bank: Bank, pc: Pc, lock: LockOp)

  datatype LockOp = Kept | Taken | Released

  predicate Holds(pc: Pc) {
    || pc.SetLocked? || pc.SetAdmitted? || pc.SetWriting? || pc.SetAcked? || pc.SetFailed?
    || ((pc.OffWriting? || pc.OffAcked? || pc.OffShadowed? || pc.OffFailed?) && pc.held)
    || pc.RecWriting? || pc.RecReading? || pc.RecVerified? || pc.RecShadowed? || pc.Unlocking?
  }

  function Nothing(b: Bank, pc: Pc): Effect {
    Effect(b, pc, Kept)
  }

  function Enter(b: Bank, op: Op): Effect {
    match op
    case CallSetChannel(ch, on) => Effect(b, SetEntered(ch, on), Kept)
    case CallForce => Effect(b, ForceEntered, Kept)
    case CallAllOff => Effect(b, if b.available then OffAwaitLock else Idle, Kept)
    case CallRecover => Effect(b, if b.available then RecAwaitLock else Idle, Kept)
    case CallClearLatch => Effect(b.(latched := false), Idle, Kept)
  }

  /** Take the write mutex when it is free, give up on a timeout. */
  function Acquire(b: Bank, free: bool, pc: Pc, c: Choice, granted: Pc, refused: Pc): Effect {
    if c.Take? && free then Effect(b, granted, Taken)
    else if c.Timeout? then Effect(b, refused, Kept)
    else Nothing(b, pc)
  }

  function Transmit(b: Bank, value: bv8, w: WriteOutcome, acked: Pc, failed: Pc): Effect {
    Effect(b.(hw := Register(b.hw, value, w)), if w.Acked? then acked else failed, Kept)
  }

  function AfterOff(held: bool): Pc {
    if held then Unlocking else Idle
  }

  /** One atomic action of a task at `pc`, given whether the mutex is free. */
  function Act(b: Bank, free: bool, pc: Pc, c: Choice): Effect {
    match pc
    case Idle => if c.Call? then Enter(b, c.op) else Nothing(b, pc)
    case SetEntered(ch, on) =>
      if !c.Go? then Nothing(b, pc)
      else if !b.available || ch >= CHANNEL_COUNT || b.unknown then Effect(b, Idle, Kept)
      else Effect(b, SetAwaitLock(ch, on), Kept)
    case SetAwaitLock(ch, on) => Acquire(b, free, pc, c, SetLocked(ch, on), Idle)
    case SetLocked(ch, on) =>
      if !c.Go? then Nothing(b, pc)
      else if on && b.latched then Effect(b, Unlocking, Kept)
      else Effect(b, SetAdmitted(ch, on), Kept)
    case SetAdmitted(ch, on) =>
      if !c.Go? || ch >= CHANNEL_COUNT then Nothing(b, pc)
      else Effect(b, SetWriting(Next(b.shadow, ch, on)), Kept)
    case SetWriting(next) =>
      if c.Write? then Transmit(b, next, c.w, SetAcked(next), SetFailed) else Nothing(b, pc)
    case SetAcked(next) =>
      if c.Go? then Effect(b.(shadow := next), Unlocking, Kept) else Nothing(b, pc)
    case SetFailed =>
      if c.Go? then Effect(b.(unknown := true), Unlocking, Kept) else Nothing(b, pc)
    case ForceEntered =>
      if c.Go? then Effect(b.(latched := true), if b.available then OffAwaitLock else Idle, Kept)
      else Nothing(b, pc)
    case OffAwaitLock => Acquire(b, free, pc, c, OffWriting(true), OffWriting(false))
    case OffWriting(held) =>
      if c.Write? then Transmit(b, ALL_OFF, c.w, OffAcked(held), OffFailed(held)) else Nothing(b, pc)
    case OffAcked(held) =>
      if c.Go? then Effect(b.(shadow := ALL_OFF), OffShadowed(held), Kept) else Nothing(b, pc)
    case OffShadowed(held) =>
      if c.Go? then Effect(b.(unknown := false), AfterOff(held), Kept) else Nothing(b, pc)
    case OffFailed(held) =>
      if c.Go? then Effect(b.(unknown := true), AfterOff(held), Kept) else Nothing(b, pc)
    case RecAwaitLock => Acquire(b, free, pc, c, RecWriting, Idle)
    case RecWriting =>
      if c.Write? then Transmit(b, ALL_OFF, c.w, RecReading, Unlocking) else Nothing(b, pc)
    case RecReading =>
      if c.Read? then Effect(b, if c.value == Some(ALL_OFF) then RecVerified else Unlocking, Kept)
      else Nothing(b, pc)
    case RecVerified =>
      if c.Go? then Effect(b.(shadow := ALL_OFF), RecShadowed, Kept) else Nothing(b, pc)
    case RecShadowed =>
      if c.Go? then Effect(b.(unknown := false), Unlocking, Kept) else Nothing(b, pc)
    case Unlocking => if c.Go? then Effect(b, Idle, Released) else Nothing(b, pc)
  }

  function Do(s: System, a: Action): System {
    if a.task < |s.pcs| then
      var e := Act(s.bank, s.owner.None?, s.pcs[a.task], a.choice);
      var owner := match e.lock case Kept => s.owner case Taken => Some(a.task) case Released => None;
      System(e.bank, owner, s.pcs[a.task := e.pc])
    else s
  }

  function Run(s: System, acts: seq<Action>): System
    decreases acts
  {
    if acts == [] then s else Run(Do(s, acts[0]), acts[1..])
  }

  lemma {:induction false} RunAppend(s: System, a: seq<Action>, b: seq<Action>)
    ensures Run(s, a + b) == Run(Run(s, a), b)
    decreases a
  {
    if a == [] {
      assert a + b == b;
    } else {
      assert (a + b)[0] == a[0] && (a + b)[1..] == a[1..] + b;
      RunAppend(Do(s, a[0]), a[1..], b);
    }
  }

  lemma {:induction false} RunSteps(s: System, acts: seq<Action>, states: seq<System>)
    requires |states| == |acts| + 1 && states[0] == s
    requires forall k | 0 <= k < |acts| :: states[k + 1] == Do(states[k], acts[k])
    ensures Run(s, acts) == states[|acts|]
    decreases acts
  {
    if acts != [] {
      RunSteps(states[1], acts[1..], states[1..]);
    }
  }

  /** Everything idle after `begin` verified the bank: latched, all relays off. */
  function Booted(tasks: nat): System {
    System(Bank(true, true, false, ALL_OFF, ALL_OFF), None, seq(tasks, _ => Idle))
  }

  /** The mutex is owned by exactly the task whose program counter is inside it. */
  predicate MutualExclusion(s: System) {
    && (s.owner.Some? ==> s.owner.value < |s.pcs|)
    && (forall t | 0 <= t < |s.pcs| :: Holds(s.pcs[t]) <==> s.owner == Some(t))
  }

  lemma ActMovesTheMutex(b: Bank, free: bool, pc: Pc, c: Choice)
    ensures var e := Act(b, free, pc, c);
            match e.lock
            case Kept => Holds(e.pc) == Holds(pc)
            case Taken => free && !Holds(pc) && Holds(e.pc)
            case Released => Holds(pc) && !Holds(e.pc)
  {
  }

  lemma ExclusionStep(s: System, a: Action)
    requires MutualExclusion(s)
    ensures MutualExclusion(Do(s, a))
  {
    if a.task < |s.pcs| {
      ActMovesTheMutex(s.bank, s.owner.None?, s.pcs[a.task], a.choice);
    }
  }

  lemma {:induction false} ExclusionRun(s: System, acts: seq<Action>)
    requires MutualExclusion(s)
    ensures MutualExclusion(Run(s, acts)) && |Run(s, acts).pcs| == |s.pcs|
    decreases acts
  {
    if acts != [] {
      ExclusionStep(s, acts[0]);
      ExclusionRun(Do(s, acts[0]), acts[1..]);
    }
  }

  // ---- The emergency barrier ------------------------------------------------

  predicate Harmless(pc: Pc) {
    match pc
    case SetAdmitted(_, on) => !on
    case SetWriting(next) => next == ALL_OFF
    case SetAcked(next) => next == ALL_OFF
    case _ => true
  }

  /** No pending action of any task can energise a relay while the latch stays set. */
  predicate Sealed(s: System) {
    && MutualExclusion(s)
    && s.bank.latched && s.bank.hw == ALL_OFF
    && (forall t | 0 <= t < |s.pcs| :: Harmless(s.pcs[t]))
    && (s.bank.shadow == ALL_OFF || (s.owner.Some? && s.pcs[s.owner.value] == OffAcked(true)))
  }

  predicate NoClear(acts: seq<Action>) {
    forall k | 0 <= k < |acts| :: acts[k].choice != Call(CallClearLatch)
  }

  lemma OffKeepsAllOff(ch: nat)
    requires ch < CHANNEL_COUNT
    ensures Next(ALL_OFF, ch, false) == ALL_OFF
  {
  }

  /** Seen from one task: the bank is latched and off, and it is about to do no harm. */
  lemma SealedAct(b: Bank, free: bool, pc: Pc, c: Choice)
    requires b.latched && b.hw == ALL_OFF && Harmless(pc) && c != Call(CallClearLatch)
    requires Holds(pc) && pc != OffAcked(true) ==> b.shadow == ALL_OFF
    ensures var e := Act(b, free, pc, c);
            && e.bank.latched && e.bank.hw == ALL_OFF && Harmless(e.pc)
            && (e.bank.shadow == b.shadow || e.bank.shadow == ALL_OFF)
            && (pc == OffAcked(true) ==> e.bank.shadow == ALL_OFF || e.pc == pc)
  {
    if pc.SetAdmitted? && pc.ch < CHANNEL_COUNT {
      OffKeepsAllOff(pc.ch);
    }
  }

  lemma SealedStep(s: System, a: Action)
    requires Sealed(s) && a.choice != Call(CallClearLatch)
    ensures Sealed(Do(s, a))
  {
    ExclusionStep(s, a);
    if a.task < |s.pcs| {
      SealedAct(s.bank, s.owner.None?, s.pcs[a.task], a.choice);
      ActMovesTheMutex(s.bank, s.owner.None?, s.pcs[a.task], a.choice);
    }
  }

  lemma {:induction false} SealedRun(s: System, acts: seq<Action>)
    requires Sealed(s) && NoClear(acts)
    ensures Sealed(Run(s, acts))
    decreases acts
  {
    if acts != [] {
      SealedStep(s, acts[0]);
      SealedRun(Do(s, acts[0]), acts[1..]);
    }
  }

  /** An all-off write acknowledged inside the mutex, with the latch set. */
  predicate BarrierWrite(s: System, a: Action) {
    && a.task < |s.pcs| && s.pcs[a.task] == OffWriting(true)
    && a.choice == Write(Acked) && s.bank.latched
  }

  lemma BarrierWriteSeals(s: System, a: Action)
    requires MutualExclusion(s) && BarrierWrite(s, a)
    ensures Sealed(Do(s, a))
  {
    ExclusionStep(s, a);
  }

  /**
   * THE BARRIER. Whatever any number of tasks did before (starved fallbacks,
   * failed writes, recoveries), once a task inside the write mutex has its 0xFF
   * acknowledged with the latch set, no continuation without an operator ARM
   * ever energises a relay.
   */
  lemma EmergencyBarrier(tasks: nat, before: seq<Action>, a: Action, after: seq<Action>)
    requires BarrierWrite(Run(Booted(tasks), before), a)
    requires NoClear(after)
    ensures var s := Run(Booted(tasks), before + [a] + after);
            s.bank.hw == ALL_OFF && s.bank.latched
  {
    var s0 := Booted(tasks);
    var s1 := Run(s0, before);
    ExclusionRun(s0, before);
    BarrierWriteSeals(s1, a);
    assert Run(s1, [a]) == Do(s1, a);
    SealedRun(Do(s1, a), after);
    RunAppend(s0, before, [a]);
    RunAppend(s0, before + [a], after);
  }

  /** The latch, once stored, survives everything but an ARM. */
  lemma {:induction false} LatchRun(s: System, acts: seq<Action>)
    requires s.bank.latched && NoClear(acts)
    ensures Run(s, acts).bank.latched
    decreases acts
  {
    if acts != [] {
      LatchRun(Do(s, acts[0]), acts[1..]);
    }
  }

  /**
   * The barrier stated for a whole `forceSafetyAllOff` call of task `t`: if no
   * ARM happens between its latch store and some later state, and the call got
   * the mutex and its write was acknowledged, that later state is all off.
   */
  lemma ForceCallIsABarrier(tasks: nat, before: seq<Action>, t: nat, during: seq<Action>, after: seq<Action>)
    requires t < |Run(Booted(tasks), before).pcs| && Run(Booted(tasks), before).pcs[t] == ForceEntered
    requires NoClear(during) && NoClear(after)
    requires var s := Run(Booted(tasks), before + [Action(t, Go)] + during);
             t < |s.pcs| && s.pcs[t] == OffWriting(true)
    ensures Run(Booted(tasks), before + [Action(t, Go)] + during + [Action(t, Write(Acked))] + after).bank.hw == ALL_OFF
  {
    var s0 := Booted(tasks);
    var latch := [Action(t, Go)];
    var s1 := Run(s0, before);
    assert Run(s1, latch) == Do(s1, latch[0]);
    RunAppend(s0, before, latch);
    LatchRun(Run(s1, latch), during);
    RunAppend(s0, before + latch, during);
    EmergencyBarrier(tasks, before + latch + during, Action(t, Write(Acked)), after);
  }

  /** The system boots isolated: before the first ARM no run energises a relay. */
  lemma BootsIsolated(tasks: nat, acts: seq<Action>)
    requires NoClear(acts)
    ensures Run(Booted(tasks), acts).bank.hw == ALL_OFF
  {
    SealedRun(Booted(tasks), acts);
  }

  /**
   * Outside the mutex the barrier fails: a writer wedged between its latch
   * check and its bus transaction outlives the starved 0xFF.
   */
  function StarvedRun(): seq<Action> {
    [ Action(0, Call(CallClearLatch)),
      Action(1, Call(CallSetChannel(0, true))), Action(1, Go), Action(1, Take), Action(1, Go), Action(1, Go),
      Action(0, Call(CallForce)), Action(0, Go), Action(0, Timeout), Action(0, Write(Acked)),
      Action(1, Write(Acked)) ]
  }

  lemma StarvedFallbackIsNoBarrier()
    ensures Run(Booted(2), StarvedRun()[..9])
            == System(Bank(true, true, false, ALL_OFF, ALL_OFF), Some(1), [OffWriting(false), SetWriting(0xFE)])
    ensures Run(Booted(2), StarvedRun()[..10]).bank.hw == ALL_OFF
    ensures Run(Booted(2), StarvedRun()).bank.latched && IsOn(Run(Booted(2), StarvedRun()).bank.hw, 0)
  {
    var acts, states := StarvedRun(), StarvedStates();
    forall k | 0 <= k < |acts|
      ensures states[k + 1] == Do(states[k], acts[k])
    {
      if k < 6 {
        StarvedEarly(k);
      } else {
        StarvedLate(k);
      }
    }
    RunSteps(states[0], acts[..9], states[..10]);
    RunSteps(states[0], acts[..10], states[..11]);
    RunSteps(states[0], acts, states);
    FirstMaskCleared();
  }

  lemma FirstMaskCleared()
    ensures Next(ALL_OFF, 0, true) == 0xFE && IsOn(0xFE, 0)
  {
  }

  function StarvedStates(): seq<System> {
    var b := Bank(true, false, false, ALL_OFF, ALL_OFF);
    var b' := b.(latched := true);
    [ Booted(2),
      System(b, None, [Idle, Idle]),
      System(b, None, [Idle, SetEntered(0, true)]),
      System(b, None, [Idle, SetAwaitLock(0, true)]),
      System(b, Some(1), [Idle, SetLocked(0, true)]),
      System(b, Some(1), [Idle, SetAdmitted(0, true)]),
      System(b, Some(1), [Idle, SetWriting(0xFE)]),
      System(b, Some(1), [ForceEntered, SetWriting(0xFE)]),
      System(b', Some(1), [OffAwaitLock, SetWriting(0xFE)]),
      System(b', Some(1), [OffWriting(false), SetWriting(0xFE)]),
      System(b', Some(1), [OffAcked(false), SetWriting(0xFE)]),
      System(b'.(hw := 0xFE), Some(1), [OffAcked(false), SetAcked(0xFE)]) ]
  }

  lemma StarvedEarly(k: nat)
    requires k < 6
    ensures StarvedStates()[k + 1] == Do(StarvedStates()[k], StarvedRun()[k])
  {
    FirstMaskCleared();
    assert StarvedStates()[k].pcs[StarvedRun()[k].task] != RecWriting;
  }

  lemma StarvedLate(k: nat)
    requires 6 <= k < 11
    ensures StarvedStates()[k + 1] == Do(StarvedStates()[k], StarvedRun()[k])
  {
    assert StarvedStates()[k].pcs[StarvedRun()[k].task] != RecWriting;
  }

  // ---- Shadow agreement -----------------------------------------------------

  /** What the mutex holder's program counter promises about shadow and register. */
  predicate HolderPromise(b: Bank, pc: Pc) {
    match pc
    case SetAcked(next) => b.hw == next
    case SetFailed => true
    case OffAcked(_) => b.hw == ALL_OFF
    case OffShadowed(_) => b.hw == ALL_OFF && b.shadow == ALL_OFF
    case OffFailed(_) => true
    case RecReading => b.hw == ALL_OFF && b.unknown
    case RecVerified => b.hw == ALL_OFF && b.unknown
    case RecShadowed => b.hw == ALL_OFF && b.shadow == ALL_OFF
    case _ => Agrees(b)
  }

  predicate Coherent(s: System) {
    && MutualExclusion(s)
    && (forall t | 0 <= t < |s.pcs| :: Unstarved(s.pcs[t]))
    && if s.owner.None? then Agrees(s.bank) else HolderPromise(s.bank, s.pcs[s.owner.value])
  }

  /** No starved fallback, and recovery writes only while the shadow is unknown. */
  predicate Disciplined(s: System, a: Action) {
    a.task < |s.pcs| ==>
      && !(s.pcs[a.task].OffAwaitLock? && a.choice.Timeout?)
      && (s.pcs[a.task].RecWriting? && a.choice.Write? ==> s.bank.unknown)
  }

  predicate DisciplinedRun(s: System, acts: seq<Action>)
    decreases acts
  {
    acts != [] ==> Disciplined(s, acts[0]) && DisciplinedRun(Do(s, acts[0]), acts[1..])
  }

  predicate Unstarved(pc: Pc) {
    pc.OffWriting? || pc.OffAcked? || pc.OffShadowed? || pc.OffFailed? ==> pc.held
  }

  lemma CoherentHolder(b: Bank, free: bool, pc: Pc, c: Choice)
    requires Holds(pc) && Unstarved(pc) && HolderPromise(b, pc)
    requires pc.RecWriting? && c.Write? ==> b.unknown
    ensures var e := Act(b, free, pc, c);
            && Unstarved(e.pc)
            && if Holds(e.pc) then HolderPromise(e.bank, e.pc) else Agrees(e.bank)
  {
  }

  lemma CoherentOutsider(b: Bank, free: bool, pc: Pc, c: Choice)
    requires !Holds(pc) && Unstarved(pc)
    requires !(pc.OffAwaitLock? && c.Timeout?)
    ensures var e := Act(b, free, pc, c);
            && Unstarved(e.pc)
            && e.bank == b.(latched := e.bank.latched)
            && (Holds(e.pc) ==> free && (Agrees(b) ==> HolderPromise(e.bank, e.pc)))
  {
  }

  lemma CoherentStep(s: System, a: Action)
    requires Coherent(s) && Disciplined(s, a)
    ensures Coherent(Do(s, a))
  {
    ExclusionStep(s, a);
    if a.task < |s.pcs| {
      var pc := s.pcs[a.task];
      ActMovesTheMutex(s.bank, s.owner.None?, pc, a.choice);
      if Holds(pc) {
        CoherentHolder(s.bank, s.owner.None?, pc, a.choice);
      } else {
        CoherentOutsider(s.bank, s.owner.None?, pc, a.choice);
        if s.owner.Some? {
          LatchIsNotPromised(s.bank, Do(s, a).bank, s.pcs[s.owner.value]);
        }
      }
    }
  }

  lemma LatchIsNotPromised(b: Bank, b': Bank, pc: Pc)
    requires HolderPromise(b, pc) && b' == b.(latched := b'.latched)
    ensures HolderPromise(b', pc)
  {
  }

  lemma {:induction false} CoherentRun(s: System, acts: seq<Action>)
    requires Coherent(s) && DisciplinedRun(s, acts)
    ensures Coherent(Run(s, acts))
    decreases acts
  {
    if acts != [] {
      CoherentStep(s, acts[0]);
      CoherentRun(Do(s, acts[0]), acts[1..]);
    }
  }

  /**
   * Over every disciplined run: whenever nobody is inside the mutex and the
   * shadow is marked known, the shadow is the hardware register.
   */
  lemma ShadowAgreesWithHardware(tasks: nat, acts: seq<Action>)
    requires DisciplinedRun(Booted(tasks), acts)
    ensures var s := Run(Booted(tasks), acts);
            s.owner.None? && !s.bank.unknown ==> s.bank.shadow == s.bank.hw
  {
    CoherentRun(Booted(tasks), acts);
  }

  // ---- What recovery reports -------------------------------------------------

  predicate Recovering(pc: Pc) {
    pc.RecReading? || pc.RecVerified? || pc.RecShadowed?
  }

  /** Whoever is past the acknowledged write of a recovery holds the mutex over a register that is off. */
  predicate RecoveriesOff(s: System) {
    MutualExclusion(s) && forall t | 0 <= t < |s.pcs| && Recovering(s.pcs[t]) :: s.bank.hw == ALL_OFF
  }

  /** Outside the mutex nothing but 0xFF is written. */
  lemma OutsiderWritesOff(b: Bank, free: bool, pc: Pc, c: Choice)
    requires !Holds(pc)
    ensures Act(b, free, pc, c).bank.hw == b.hw || Act(b, free, pc, c).bank.hw == ALL_OFF
    ensures !Recovering(Act(b, free, pc, c).pc)
  {
    match pc
    case Idle =>
    case SetEntered(ch, on) =>
    case SetAwaitLock(ch, on) =>
    case OffAwaitLock =>
    case OffWriting(held) =>
    case RecAwaitLock =>
    case _ =>
  }

  lemma HolderRecovers(b: Bank, free: bool, pc: Pc, c: Choice)
    requires Holds(pc) && (Recovering(pc) ==> b.hw == ALL_OFF)
    ensures Recovering(Act(b, free, pc, c).pc) ==> Act(b, free, pc, c).bank.hw == ALL_OFF
  {
  }

  lemma RecoveriesOffStep(s: System, a: Action)
    requires RecoveriesOff(s)
    ensures RecoveriesOff(Do(s, a))
  {
    ExclusionStep(s, a);
    if a.task < |s.pcs| {
      if Holds(s.pcs[a.task]) {
        HolderRecovers(s.bank, s.owner.None?, s.pcs[a.task], a.choice);
      } else {
        OutsiderWritesOff(s.bank, s.owner.None?, s.pcs[a.task], a.choice);
      }
    }
  }

  lemma {:induction false} RecoveriesOffRun(s: System, acts: seq<Action>)
    requires RecoveriesOff(s)
    ensures RecoveriesOff(Run(s, acts))
    decreases acts
  {
    if acts != [] {
      RecoveriesOffStep(s, acts[0]);
      RecoveriesOffRun(Do(s, acts[0]), acts[1..]);
    }
  }

  /**
   * Over every interleaving: a recovery goes on to report success only by reading 0xFF back, and
   * then the register is off, and stays off until the recovery is done, whatever starved calls
   * and other tasks do.
   */
  lemma RecoveryIsTruthful(tasks: nat, acts: seq<Action>, a: Action)
    requires var s := Run(Booted(tasks), acts);
             a.task < |s.pcs| && s.pcs[a.task] == RecReading && Do(s, a).pcs[a.task] != RecReading
    ensures var s := Run(Booted(tasks), acts);
            && s.bank.hw == 0xFF && Do(s, a).bank == s.bank
            && (Do(s, a).pcs[a.task] == RecVerified <==> a.choice == Read(Some(0xFF)))
  {
    RecoveriesOffRun(Booted(tasks), acts);
  }

  lemma VerifiedMeansOff(tasks: nat, acts: seq<Action>, t: nat)
    requires var s := Run(Booted(tasks), acts); t < |s.pcs| && (s.pcs[t] == RecVerified || s.pcs[t] == RecShadowed)
    ensures Run(Booted(tasks), acts).bank.hw == 0xFF
  {
    RecoveriesOffRun(Booted(tasks), acts);
  }

  // ---- The interleaved steps are the driver's methods ------------------------

  /** One task with the driver to itself. */
  datatype Lone = Lone(bank: Bank, held: bool, pc: Pc)

  function LoneDo(l: Lone, c: Choice): Lone {
    var e := Act(l.bank, !l.held, l.pc, c);
    Lone(e.bank, match e.lock case Kept => l.held case Taken => true case Released => false, e.pc)
  }

  function LoneRun(l: Lone, cs: seq<Choice>): Lone
    decreases cs
  {
    if cs == [] then l else LoneRun(LoneDo(l, cs[0]), cs[1..])
  }

  function Embed(s: System, t: nat, l: Lone): System
    requires t < |s.pcs|
  {
    System(l.bank, if l.held then Some(t) else None, s.pcs[t := l.pc])
  }

  function ByTask(t: nat, cs: seq<Choice>): seq<Action> {
    seq(|cs|, i requires 0 <= i < |cs| => Action(t, cs[i]))
  }

  lemma {:induction false} RunAlone(s: System, t: nat, l: Lone, cs: seq<Choice>)
    requires t < |s.pcs|
    ensures Run(Embed(s, t, l), ByTask(t, cs)) == Embed(s, t, LoneRun(l, cs))
    decreases cs
  {
    if cs != [] {
      assert ByTask(t, cs)[1..] == ByTask(t, cs[1..]);
      assert Do(Embed(s, t, l), Action(t, cs[0])) == Embed(s, t, LoneDo(l, cs[0]));
      RunAlone(s, t, LoneDo(l, cs[0]), cs[1..]);
    }
  }

  function SetChannelCall(ch: nat, on: bool, locked: bool, w: WriteOutcome): seq<Choice> {
    [Call(CallSetChannel(ch, on)), Go, if locked then Take else Timeout, Go, Go, Write(w), Go, Go]
  }

  lemma LoneSetChannel(b: Bank, ch: nat, on: bool, locked: bool, w: WriteOutcome)
    ensures LoneRun(Lone(b, false, Idle), SetChannelCall(ch, on, locked, w))
            == Lone(SetChannelEffect(b, ch, on, locked, w).0, false, Idle)
  {
    var cs := SetChannelCall(ch, on, locked, w);
    var l0 := Lone(b, false, Idle);
    var open := b.available && ch < CHANNEL_COUNT && !b.unknown;
    var l2 := if open then Lone(b, false, SetAwaitLock(ch, on)) else l0;
    var l3 := if open && locked then Lone(b, true, SetLocked(ch, on)) else l0;
    assert LoneDo(LoneDo(LoneDo(l0, cs[0]), cs[1]), cs[2]) == l3 by {
      assert LoneDo(l0, cs[0]) == Lone(b, false, SetEntered(ch, on));
      assert LoneDo(Lone(b, false, SetEntered(ch, on)), cs[1]) == l2;
      assert LoneDo(l2, cs[2]) == l3;
    }
    LoneThree(l0, cs);
    LoneThree(l3, cs[3..]);
    if !open || !locked || (on && b.latched) {
      assert LoneDo(LoneDo(LoneDo(l3, Go), Go), Write(w)) == l0;
      LoneTwo(l0, cs[3..][3..]);
    } else {
      LoneWriter(b, ch, on, w);
      LoneTwo(LoneDo(LoneDo(LoneDo(l3, Go), Go), Write(w)), cs[3..][3..]);
    }
  }

  lemma LoneWriter(b: Bank, ch: nat, on: bool, w: WriteOutcome)
    requires b.available && ch < CHANNEL_COUNT && !b.unknown && !(on && b.latched)
    ensures LoneDo(LoneDo(LoneDo(LoneDo(LoneDo(Lone(b, true, SetLocked(ch, on)), Go), Go), Write(w)), Go), Go)
            == Lone(SetChannelEffect(b, ch, on, true, w).0, false, Idle)
  {
    var next := Next(b.shadow, ch, on);
    var l2 := Lone(b, true, SetWriting(next));
    assert LoneDo(LoneDo(Lone(b, true, SetLocked(ch, on)), Go), Go) == l2 by {
      assert LoneDo(Lone(b, true, SetLocked(ch, on)), Go) == Lone(b, true, SetAdmitted(ch, on));
    }
    var l3 := Lone(b.(hw := Register(b.hw, next, w)), true, if w.Acked? then SetAcked(next) else SetFailed);
    assert LoneDo(l2, Write(w)) == l3;
    assert LoneDo(l3, Go) == Lone(SetChannelEffect(b, ch, on, true, w).0, true, Unlocking);
  }

  lemma LoneThree(l: Lone, cs: seq<Choice>)
    requires |cs| >= 3
    ensures LoneRun(l, cs) == LoneRun(LoneDo(LoneDo(LoneDo(l, cs[0]), cs[1]), cs[2]), cs[3..])
  {
    var l1 := LoneDo(l, cs[0]);
    var l2 := LoneDo(l1, cs[1]);
    assert LoneRun(l1, cs[1..]) == LoneRun(l2, cs[2..]) by { assert cs[1..][1..] == cs[2..]; }
    assert LoneRun(l2, cs[2..]) == LoneRun(LoneDo(l2, cs[2]), cs[3..]) by { assert cs[2..][1..] == cs[3..]; }
  }

  lemma LoneTwo(l: Lone, cs: seq<Choice>)
    requires |cs| == 2
    ensures LoneRun(l, cs) == LoneDo(LoneDo(l, cs[0]), cs[1])
  {
    assert LoneRun(LoneDo(l, cs[0]), cs[1..]) == LoneDo(LoneDo(l, cs[0]), cs[1]) by { assert cs[1..][1..] == []; }
  }

  /** A setChannel that no other task interrupts is exactly the method's effect. */
  lemma SoloRunIsSetChannel(s: System, t: nat, ch: nat, on: bool, locked: bool, w: WriteOutcome)
    requires t < |s.pcs| && s.pcs[t] == Idle && s.owner.None?
    ensures Run(s, ByTask(t, SetChannelCall(ch, on, locked, w)))
            == s.(bank := SetChannelEffect(s.bank, ch, on, locked, w).0)
  {
    assert s.pcs[t := Idle] == s.pcs;
    RunAlone(s, t, Lone(s.bank, false, Idle), SetChannelCall(ch, on, locked, w));
    LoneSetChannel(s.bank, ch, on, locked, w);
  }

  function ForceCall(w: WriteOutcome): seq<Choice> {
    [Call(CallForce), Go, Take, Write(w), Go, Go, Go, Go]
  }

  lemma LoneForce(b: Bank, w: WriteOutcome)
    ensures LoneRun(Lone(b, false, Idle), ForceCall(w)) == Lone(ForceEffect(b, w), false, Idle)
  {
    var cs := ForceCall(w);
    var l0 := Lone(b, false, Idle);
    var b' := b.(latched := true);
    LoneThree(l0, cs);
    assert LoneDo(l0, Call(CallForce)) == Lone(b, false, ForceEntered);
    if b.available {
      var l3 := Lone(b', true, OffWriting(true));
      assert LoneDo(LoneDo(Lone(b, false, ForceEntered), Go), Take) == l3;
      LoneThree(l3, cs[3..]);
      LoneOff(b', w);
      LoneTwo(LoneDo(LoneDo(LoneDo(l3, Write(w)), Go), Go), cs[3..][3..]);
    } else {
      var l3 := Lone(b', false, Idle);
      assert LoneDo(LoneDo(Lone(b, false, ForceEntered), Go), Take) == l3;
      LoneIdle(l3, cs[3..]);
    }
  }

  lemma LoneOffAcked(b: Bank)
    ensures LoneDo(LoneDo(LoneDo(LoneDo(LoneDo(Lone(b, true, OffWriting(true)), Write(Acked)), Go), Go), Go), Go)
            == Lone(WriteAllOff(b, Acked), false, Idle)
  {
    var b' := b.(hw := ALL_OFF);
    assert LoneDo(Lone(b, true, OffWriting(true)), Write(Acked)) == Lone(b', true, OffAcked(true));
    assert LoneDo(LoneDo(Lone(b', true, OffAcked(true)), Go), Go) == Lone(WriteAllOff(b, Acked), true, Unlocking);
  }

  lemma LoneOffFailed(b: Bank, w: WriteOutcome)
    requires !w.Acked?
    ensures LoneDo(LoneDo(LoneDo(LoneDo(LoneDo(Lone(b, true, OffWriting(true)), Write(w)), Go), Go), Go), Go)
            == Lone(WriteAllOff(b, w), false, Idle)
  {
    var b' := b.(hw := Register(b.hw, ALL_OFF, w));
    assert LoneDo(Lone(b, true, OffWriting(true)), Write(w)) == Lone(b', true, OffFailed(true));
    assert LoneDo(LoneDo(Lone(b', true, OffFailed(true)), Go), Go) == Lone(WriteAllOff(b, w), false, Idle);
  }

  lemma LoneOff(b: Bank, w: WriteOutcome)
    ensures LoneDo(LoneDo(LoneDo(LoneDo(LoneDo(Lone(b, true, OffWriting(true)), Write(w)), Go), Go), Go), Go)
            == Lone(WriteAllOff(b, w), false, Idle)
  {
    if w.Acked? {
      LoneOffAcked(b);
    } else {
      LoneOffFailed(b, w);
    }
  }

  /** An idle task ignores everything but a call. */
  lemma {:induction false} LoneIdle(l: Lone, cs: seq<Choice>)
    requires l.pc == Idle && forall c | c in cs :: !c.Call?
    ensures LoneRun(l, cs) == l
    decreases cs
  {
    if cs != [] {
      assert LoneDo(l, cs[0]) == l;
      LoneIdle(l, cs[1..]);
    }
  }

  lemma SoloRunIsForce(s: System, t: nat, w: WriteOutcome)
    requires t < |s.pcs| && s.pcs[t] == Idle && s.owner.None?
    ensures Run(s, ByTask(t, ForceCall(w))) == s.(bank := ForceEffect(s.bank, w))
  {
    assert s.pcs[t := Idle] == s.pcs;
    RunAlone(s, t, Lone(s.bank, false, Idle), ForceCall(w));
    LoneForce(s.bank, w);
  }

  function RecoverCall(locked: bool, w: WriteOutcome, readback: Option<bv8>): seq<Choice> {
    [ Call(CallRecover), if locked then Take else Timeout, Write(w),
      if w.Acked? then Read(readback) else Go, Go, Go, Go, Go ]
  }

  lemma LoneRecover(b: Bank, locked: bool, w: WriteOutcome, readback: Option<bv8>)
    ensures LoneRun(Lone(b, false, Idle), RecoverCall(locked, w, readback))
            == Lone(RecoverEffect(b, locked, w, readback).0, false, Idle)
  {
    var cs := RecoverCall(locked, w, readback);
    var l0 := Lone(b, false, Idle);
    LoneThree(l0, cs);
    var l1 := Lone(b, false, if b.available then RecAwaitLock else Idle);
    assert LoneDo(l0, cs[0]) == l1;
    if b.available && locked {
      var b' := b.(hw := Register(b.hw, ALL_OFF, w));
      var l3 := Lone(b', true, if w.Acked? then RecReading else Unlocking);
      assert LoneDo(LoneDo(l1, cs[1]), cs[2]) == l3;
      LoneThree(l3, cs[3..]);
      LoneVerify(b', w, readback);
      LoneTwo(LoneDo(LoneDo(LoneDo(l3, cs[3]), Go), Go), cs[3..][3..]);
    } else {
      assert LoneDo(LoneDo(l1, cs[1]), cs[2]) == l0;
      LoneIdle(l0, cs[3..]);
    }
  }

  lemma LoneVerify(b: Bank, w: WriteOutcome, readback: Option<bv8>)
    ensures var l := Lone(b, true, if w.Acked? then RecReading else Unlocking);
            var verified := w.Acked? && readback == Some(ALL_OFF);
            LoneDo(LoneDo(LoneDo(LoneDo(LoneDo(l, if w.Acked? then Read(readback) else Go), Go), Go), Go), Go)
            == Lone(if verified then b.(shadow := ALL_OFF, unknown := false) else b, false, Idle)
  {
    var idle := Lone(b, false, Idle);
    assert LoneDo(idle, Go) == idle;
    if w.Acked? {
      if readback == Some(ALL_OFF) {
        assert LoneDo(Lone(b, true, RecReading), Read(readback)) == Lone(b, true, RecVerified);
        assert LoneDo(LoneDo(Lone(b, true, RecVerified), Go), Go)
            == Lone(b.(shadow := ALL_OFF, unknown := false), true, Unlocking);
      } else {
        assert LoneDo(Lone(b, true, RecReading), Read(readback)) == Lone(b, true, Unlocking);
        assert LoneDo(Lone(b, true, Unlocking), Go) == idle;
      }
    } else {
      assert LoneDo(Lone(b, true, Unlocking), Go) == idle;
    }
  }

  lemma SoloRunIsRecover(s: System, t: nat, locked: bool, w: WriteOutcome, readback: Option<bv8>)
    requires t < |s.pcs| && s.pcs[t] == Idle && s.owner.None?
    ensures Run(s, ByTask(t, RecoverCall(locked, w, readback)))
            == s.(bank := RecoverEffect(s.bank, locked, w, readback).0)
  {
    assert s.pcs[t := Idle] == s.pcs;
    RunAlone(s, t, Lone(s.bank, false, Idle), RecoverCall(locked, w, readback));
    LoneRecover(s.bank, locked, w, readback);
  }
}
