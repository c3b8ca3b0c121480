/** At-most-once, durability before effect, and the counters of the OTA handler. */
module OtaProperties {
  import opened Common
  import opened Crc32
  import opened JournalModel
  import JournalProperties
  import opened Commands
  import opened OtaModel

  predicate Known(s: System, t: Bytes) {
    Find(s.j.ram, t).Some?
  }

  /** Times the OTA manager was invoked for transaction t. */
  function Starts(invoked: seq<Bytes>, t: Bytes): nat {
    if invoked == [] then 0 else Flag(invoked[|invoked| - 1] == t) + Starts(invoked[..|invoked| - 1], t)
  }

  /** The journal held t before the event and not after it: eviction, or a reboot that did not find it. */
  predicate Forgets(s: System, ev: Event, t: Bytes)
    requires Sound(s)
  {
    Known(s, t) && !Known(Step(s, ev), t)
  }

  function Losses(s: System, evs: seq<Event>, t: Bytes): nat
    requires Sound(s)
    decreases evs
  {
    if evs == [] then 0 else Flag(Forgets(s, evs[0], t)) + Losses(Step(s, evs[0]), evs[1..], t)
  }

  /** `losses` so far pay for every start but the one the journal still remembers. */
  predicate Paid(s: System, t: Bytes, losses: nat) {
    && Starts(s.invoked, t) + Flag(s.pc.Reserved? && s.pc.c.tid == t) <= losses + Flag(Known(s, t))
    && (s.pc.Decided? && s.pc.c.tid == t ==> Starts(s.invoked, t) <= losses)
  }

  lemma StartsSnoc(invoked: seq<Bytes>, x: Bytes, t: Bytes)
    ensures Starts(invoked + [x], t) == Starts(invoked, t) + Flag(x == t)
  {
    assert (invoked + [x])[..|invoked|] == invoked;
  }

  /** A reservation that succeeds is in the journal, under the command's own hash. */
  lemma ReservationIsKnown(j: Store, locked: bool, e: Entry, w: Writes)
    requires Valid(j) && StoreTransaction(j, locked, e, w).1
    ensures var f := Find(StoreTransaction(j, locked, e, w).0.ram, e.id);
            f.Some? && StoreTransaction(j, locked, e, w).0.ram[f.value].value.hash == e.hash
  {
    var j' := StoreTransaction(j, locked, e, w).0;
    if Find(j.ram, e.id).None? {
      assert j'.ram[j.next] == Some(e);
    }
  }

  lemma StepStaysPaid(s: System, ev: Event, t: Bytes, losses: nat)
    requires Sound(s) && Paid(s, t, losses)
    ensures Paid(Step(s, ev), t, losses + Flag(Forgets(s, ev, t)))
  {
    match ev
    case Deliver(m, now, locked) =>
    case Reserve(locked, w, ack) =>
      if s.pc.Decided? && StoreTransaction(s.j, locked, Entry(s.pc.c.tid, s.pc.c.hash, ack), w).1 {
        ReservationIsKnown(s.j, locked, Entry(s.pc.c.tid, s.pc.c.hash, ack), w);
      }
    case Launch(begins, accepted, refused) =>
      if s.pc.Reserved? {
        StartsSnoc(s.invoked, s.pc.c.tid, t);
      }
    case Settle(locked, w) =>
    case Publish =>
    case Other(op) =>
    case PowerFails(cut, opens) =>
  }

  lemma {:induction false} RunStaysPaid(s: System, evs: seq<Event>, t: Bytes, losses: nat)
    requires Sound(s) && Paid(s, t, losses)
    ensures Paid(Run(s, evs), t, losses + Losses(s, evs, t))
    decreases evs
  {
    if evs != [] {
      StepStaysPaid(s, evs[0], t, losses);
      RunStaysPaid(Step(s, evs[0]), evs[1..], t, losses + Flag(Forgets(s, evs[0], t)));
    }
  }

  /**
   * Whatever is delivered, retried, interrupted or lost: the OTA manager is
   * invoked for a transaction at most once, plus once for every time the journal
   * has forgotten it.
   */
  lemma AtMostOncePerMemory(s: System, evs: seq<Event>, t: Bytes)
    requires Sound(s) && s.pc.Idle? && s.invoked == []
    ensures Starts(Run(s, evs).invoked, t) <= 1 + Losses(s, evs, t)
  {
    RunStaysPaid(s, evs, t, 0);
  }

  // ---- Nothing starts before its record is durable --------------------------------------

  function CommittedIds(nvs: seq<Slot>): set<Bytes> {
    set i | 0 <= i < |nvs| && nvs[i].Committed? :: nvs[i].e.id
  }

  /** Every id that was committed in NVS at some moment of the run. */
  function History(s: System, evs: seq<Event>): set<Bytes>
    requires Sound(s)
    decreases evs
  {
    CommittedIds(s.j.nvs) + if evs == [] then {} else History(Step(s, evs[0]), evs[1..])
  }

  /** RAM, a reservation in hand and every start are backed by an id in `seen`. */
  predicate Backed(s: System, seen: set<Bytes>) {
    && (forall i | 0 <= i < |s.j.ram| && s.j.ram[i].Some? :: ClipText(s.j.ram[i].value.id) in seen)
    && (!s.pc.Idle? ==> ValidId(s.pc.c.tid))
    && (s.pc.Reserved? ==> s.pc.c.tid in seen)
    && (forall i | 0 <= i < |s.invoked| :: s.invoked[i] in seen)
  }

  lemma ValidIdsFit(t: Bytes)
    requires ValidId(t)
    ensures ClipText(t) == t
  {
  }

  lemma GatePassesValidIds(m: Message, now: u32)
    ensures Gate(m, now).Passed? ==> ValidId(Gate(m, now).c.tid)
  {
  }

  /** RAM only gains an id together with a committed slot. */
  lemma EffectBacked(j: Store, op: JournalProperties.Op, seen: set<Bytes>)
    requires Valid(j) && forall i | 0 <= i < SIZE && j.ram[i].Some? :: ClipText(j.ram[i].value.id) in seen
    ensures var j' := JournalProperties.Effect(j, op).0;
            forall i | 0 <= i < SIZE && j'.ram[i].Some? :: ClipText(j'.ram[i].value.id) in seen + CommittedIds(j'.nvs)
  {
    var j' := JournalProperties.Effect(j, op).0;
    JournalProperties.RamAfter(j, op);
    if JournalProperties.Inserts(j, op) {
      JournalProperties.FreshDistance(j, op);
      assert j'.nvs[j.next].e.id == ClipText(op.e.id);
    }
  }

  lemma RecoveredWasCommitted(slot: Slot)
    requires Recovered(slot).Some?
    ensures slot.Committed? && slot.e == Recovered(slot).value && ClipText(slot.e.id) == slot.e.id
  {
    ShortTextKept(slot.e.id);
  }

  lemma ShortTextKept(t: Bytes)
    ensures |t| <= ID_MAX ==> ClipText(t) == t
  {
  }

  lemma BootBacked(nvs: seq<Slot>, opens: bool)
    requires |nvs| == SIZE
    ensures var j := Boot(nvs, opens);
            forall i | 0 <= i < SIZE && j.ram[i].Some? :: ClipText(j.ram[i].value.id) in CommittedIds(nvs)
  {
    if opens {
      JournalProperties.BootRam(nvs);
      forall i | 0 <= i < SIZE && Boot(nvs, true).ram[i].Some?
        ensures ClipText(Boot(nvs, true).ram[i].value.id) in CommittedIds(nvs)
      {
        RecoveredWasCommitted(nvs[i]);
      }
    }
  }

  lemma StepStaysBacked(s: System, ev: Event, seen: set<Bytes>)
    requires Sound(s) && Backed(s, seen)
    ensures Backed(Step(s, ev), seen + CommittedIds(Step(s, ev).j.nvs))
  {
    match ev
    case Deliver(m, now, locked) =>
      GatePassesValidIds(m, now);
    case Reserve(locked, w, ack) =>
      if s.pc.Decided? {
        var e := Entry(s.pc.c.tid, s.pc.c.hash, ack);
        EffectBacked(s.j, JournalProperties.StoreOp(locked, e, w), seen);
        ValidIdsFit(e.id);
        if StoreTransaction(s.j, locked, e, w).1 {
          ReservationIsKnown(s.j, locked, e, w);
        }
      }
    case Launch(begins, accepted, refused) =>
    case Settle(locked, w) =>
      if s.pc.Ran? {
        EffectBacked(s.j, JournalProperties.UpdateOp(locked, Entry(s.pc.c.tid, s.pc.c.hash, s.pc.ack), w), seen);
      }
    case Publish =>
    case Other(op) =>
      EffectBacked(s.j, op, seen);
    case PowerFails(cut, opens) =>
      BootBacked(Step(s, ev).j.nvs, opens);
  }

  lemma {:induction false} RunStaysBacked(s: System, evs: seq<Event>, seen: set<Bytes>)
    requires Sound(s) && Backed(s, seen)
    ensures Backed(Run(s, evs), seen + History(s, evs))
    decreases evs
  {
    if evs != [] {
      var s' := Step(s, evs[0]);
      var seen' := seen + CommittedIds(s'.j.nvs);
      StepStaysBacked(s, evs[0], seen);
      RunStaysBacked(s', evs[1..], seen');
      assert seen' + History(s', evs[1..]) <= seen + History(s, evs);
    }
  }

  /** When the OTA manager is invoked, a record of that transaction has already been committed. */
  lemma CommittedBeforeStarted(nvs: seq<Slot>, opens: bool, evs: seq<Event>, launch: Event)
    requires |nvs| == SIZE && launch.Launch?
    ensures Valid(Boot(nvs, opens))
    ensures var s := System(Boot(nvs, opens), Idle, Counters(0, 0, 0, 0), [], []);
            var r := Run(s, evs);
            Step(r, launch).invoked != r.invoked ==>
              r.pc.Reserved? && r.pc.c.tid in History(s, evs)
  {
    BootIsValid(nvs, opens);
    var s := System(Boot(nvs, opens), Idle, Counters(0, 0, 0, 0), [], []);
    BootBacked(nvs, opens);
    RunStaysBacked(s, evs, CommittedIds(nvs));
  }

  // ---- Within the retention of the ring ---------------------------------------------------

  /** The journal call an event makes, if any. */
  function CallOf(s: System, ev: Event): Option<JournalProperties.Op> {
    match ev
    case Reserve(locked, w, ack) =>
      if s.pc.Decided? then Some(JournalProperties.StoreOp(locked, Entry(s.pc.c.tid, s.pc.c.hash, ack), w)) else None
    case Settle(locked, w) =>
      if s.pc.Ran? then Some(JournalProperties.UpdateOp(locked, Entry(s.pc.c.tid, s.pc.c.hash, s.pc.ack), w)) else None
    case Other(op) => Some(op)
    case _ => None
  }

  predicate Inserting(s: System, ev: Event)
    requires Sound(s)
  {
    var op := CallOf(s, ev);
    op.Some? && JournalProperties.Inserts(s.j, op.value)
  }

  function Inserted(s: System, evs: seq<Event>): nat
    requires Sound(s)
    decreases evs
  {
    if evs == [] then 0 else Flag(Inserting(s, evs[0])) + Inserted(Step(s, evs[0]), evs[1..])
  }

  predicate Holds(s: System, i: nat, t: Bytes) {
    i < |s.j.ram| && s.j.ram[i].Some? && s.j.ram[i].value.id == t
  }

  /** No delivery of t is on its way to the OTA manager. */
  predicate Quiet(s: System, t: Bytes) {
    s.pc.Idle? || s.pc.Ran? || s.pc.Acking? || s.pc.c.tid != t
  }

  lemma RetainedStep(s: System, ev: Event, t: Bytes, i: nat)
    requires Sound(s) && Holds(s, i, t) && Quiet(s, t) && !ev.PowerFails?
    requires Inserting(s, ev) ==> JournalProperties.Distance(s.j, i) > 0
    ensures Holds(Step(s, ev), i, t) && Quiet(Step(s, ev), t)
    ensures Starts(Step(s, ev).invoked, t) == Starts(s.invoked, t)
    ensures JournalProperties.Distance(Step(s, ev).j, i)
         == JournalProperties.Distance(s.j, i) - Flag(Inserting(s, ev))
  {
    var op := CallOf(s, ev);
    if op.Some? {
      assert Step(s, ev).j == JournalProperties.Effect(s.j, op.value).0;
      JournalProperties.StepKeepsOthers(s.j, op.value, i);
    }
    if ev.Launch? && s.pc.Reserved? {
      StartsSnoc(s.invoked, s.pc.c.tid, t);
    }
  }

  /**
   * While the device stays up, a transaction in slot i is not started again
   * until the ring has taken in more insertions than the slot is ahead: fifteen
   * for a fresh reservation.
   */
  lemma {:induction false} NoRestartWhileRetained(s: System, evs: seq<Event>, t: Bytes, i: nat)
    requires Sound(s) && Holds(s, i, t) && Quiet(s, t)
    requires forall k | 0 <= k < |evs| :: !evs[k].PowerFails?
    requires Inserted(s, evs) <= JournalProperties.Distance(s.j, i)
    ensures Starts(Run(s, evs).invoked, t) == Starts(s.invoked, t)
    decreases evs
  {
    if evs != [] {
      RetainedStep(s, evs[0], t, i);
      NoRestartWhileRetained(Step(s, evs[0]), evs[1..], t, i);
    }
  }

  // ---- Durable at the launch itself ---------------------------------------------------------

  /** Slot i answers for t, its record lies as `slot` in NVS, and `room` more insertions stay clear of it. */
  predicate Settled(j: Store, i: nat, t: Bytes, slot: Slot, room: nat)
    requires Valid(j)
  {
    && i < SIZE && JournalProperties.Distance(j, i) > room
    && j.ram[i].Some? && j.ram[i].value.id == t
    && j.nvs[i] == slot
  }

  lemma NextIsElsewhere(j: Store, i: nat)
    requires Valid(j) && i < SIZE && JournalProperties.Distance(j, i) > 0
    ensures i != j.next
  {
  }

  lemma SettledEffect(j: Store, op: JournalProperties.Op, i: nat, t: Bytes, slot: Slot, room: nat)
    requires Valid(j) && Settled(j, i, t, slot, room) && (op.UpdateOp? ==> op.e.id != t)
    requires JournalProperties.Inserts(j, op) ==> room > 0
    ensures Settled(JournalProperties.Effect(j, op).0, i, t, slot, room - Flag(JournalProperties.Inserts(j, op)))
  {
    JournalProperties.StepKeepsOthers(j, op, i);
    NextIsElsewhere(j, i);
    JournalProperties.NvsAfter(j, op);
  }

  /** Calls of other tasks before the launch, none of them an update of t. */
  predicate BeforeLaunch(evs: seq<Event>, t: Bytes) {
    forall k | 0 <= k < |evs| ::
      !evs[k].PowerFails? && !evs[k].Launch? && (evs[k].Other? && evs[k].op.UpdateOp? ==> evs[k].op.e.id != t)
  }

  lemma {:induction false} SettledUntilLaunch(s: System, evs: seq<Event>, i: nat, t: Bytes, slot: Slot, room: nat)
    requires Sound(s) && s.pc.Reserved? && Settled(s.j, i, t, slot, room) && Inserted(s, evs) <= room
    requires BeforeLaunch(evs, t)
    ensures Run(s, evs).pc == s.pc && Run(s, evs).j.nvs[i] == slot
    decreases evs
  {
    if evs != [] {
      if evs[0].Other? {
        SettledEffect(s.j, evs[0].op, i, t, slot, room);
      }
      SettledUntilLaunch(Step(s, evs[0]), evs[1..], i, t, slot, room - Flag(Inserting(s, evs[0])));
    }
  }

  /**
   * A new reservation is committed in the slot it took, and is still committed there when
   * the job is launched, unless other tasks have meanwhile inserted fifteen entries or
   * updated the record of this very transaction.
   */
  lemma CommittedAtLaunch(s: System, ack: Bytes, evs: seq<Event>, launch: Event)
    requires Sound(s) && s.pc.Decided? && ValidId(s.pc.c.tid) && !Known(s, s.pc.c.tid) && launch.Launch?
    requires BeforeLaunch(evs, s.pc.c.tid) && Inserted(Step(s, Reserve(true, Writes(Done, Done), ack)), evs) <= 14
    ensures var r := Run(Step(s, Reserve(true, Writes(Done, Done), ack)), evs);
            var slot := Step(r, launch).j.nvs[s.j.next];
            r.pc == Reserved(s.pc.c) && slot.Committed? && slot.e.id == s.pc.c.tid
            && slot == Committed(Stored(Entry(s.pc.c.tid, s.pc.c.hash, ack)))
  {
    var e := Entry(s.pc.c.tid, s.pc.c.hash, ack);
    ValidIdsFit(e.id);
    JournalProperties.FreshDistance(s.j, JournalProperties.StoreOp(true, e, Writes(Done, Done)));
    SettledUntilLaunch(Step(s, Reserve(true, Writes(Done, Done), ack)), evs, s.j.next, e.id, Committed(Stored(e)), 14);
  }

  /**
   * A reservation that finds the transaction put in by another task since the decision writes
   * nothing: at the launch its record is committed exactly if that task's record was, as long
   * as the ring has not come round and nobody updates it.
   */
  lemma FoundReservationCommittedIff(s: System, i: nat, w: Writes, ack: Bytes, evs: seq<Event>, launch: Event)
    requires Sound(s) && s.pc.Decided? && Find(s.j.ram, s.pc.c.tid) == Some(i) && launch.Launch?
    requires s.j.ram[i].value.hash == s.pc.c.hash && BeforeLaunch(evs, s.pc.c.tid)
    requires Inserted(Step(s, Reserve(true, w, ack)), evs) < JournalProperties.Distance(s.j, i)
    ensures var r := Run(Step(s, Reserve(true, w, ack)), evs);
            var slot := Step(r, launch).j.nvs[i];
            r.pc == Reserved(s.pc.c) && slot == s.j.nvs[i] && (slot.Committed? <==> s.j.nvs[i].Committed?)
  {
    var s1 := Step(s, Reserve(true, w, ack));
    assert s1 == s.(pc := Reserved(s.pc.c));
    SettledUntilLaunch(s1, evs, i, s.pc.c.tid, s.j.nvs[i], JournalProperties.Distance(s.j, i) - 1);
  }

  // ---- Durable at the launch, over any traffic ----------------------------------------------

  predicate Powered(evs: seq<Event>) {
    forall k | 0 <= k < |evs| :: !evs[k].PowerFails?
  }

  /** The journal calls made along a run: those of other tasks, and the handler's own. */
  function Calls(s: System, evs: seq<Event>): seq<JournalProperties.Op>
    requires Sound(s)
    decreases evs
  {
    if evs == [] then []
    else
      var op := CallOf(s, evs[0]);
      (if op.Some? then [op.value] else []) + Calls(Step(s, evs[0]), evs[1..])
  }

  lemma StepIsCall(s: System, ev: Event)
    requires Sound(s) && !ev.PowerFails?
    ensures var op := CallOf(s, ev);
            Step(s, ev).j == if op.Some? then JournalProperties.Effect(s.j, op.value).0 else s.j
  {
  }

  lemma {:induction false} RunIsCalls(s: System, evs: seq<Event>)
    requires Sound(s) && Powered(evs)
    ensures Run(s, evs).j == JournalProperties.Run(s.j, Calls(s, evs))
    decreases evs
  {
    if evs != [] {
      StepIsCall(s, evs[0]);
      RunIsCalls(Step(s, evs[0]), evs[1..]);
      var op, rest := CallOf(s, evs[0]), Calls(Step(s, evs[0]), evs[1..]);
      if op.Some? {
        assert ([op.value] + rest)[1..] == rest;
      } else {
        assert [] + rest == rest;
      }
    }
  }

  /**
   * From the decision that a command is new to its launch, over any traffic without a power
   * failure: what RAM and flash hold of the transaction at the launch is what the journal
   * calls since the decision, the handler's reservation among them, have left.
   */
  lemma LaunchRecordIsHistory(s: System, m: Message, now: u32, evs: seq<Event>, launch: Event)
    requires Sound(s) && s.pc.Idle? && Gate(m, now).Passed? && !Known(s, Gate(m, now).c.tid) && Powered(evs)
    requires Run(Step(s, Deliver(m, now, true)), evs).pc == Reserved(Gate(m, now).c) && launch.Launch?
    ensures var t := Gate(m, now).c.tid;
            var s1 := Step(s, Deliver(m, now, true));
            JournalProperties.Seen(Step(Run(s1, evs), launch).j, t)
            == JournalProperties.History(s.j, Calls(s1, evs), t, None)
  {
    var t := Gate(m, now).c.tid;
    var s1 := Step(s, Deliver(m, now, true));
    assert s1.j == s.j;
    RunIsCalls(s1, evs);
    JournalProperties.SeenIsHistory(s.j, Calls(s1, evs), t);
  }

  // ---- A reboot, and the command again ------------------------------------------------------

  /** Power fails, in the call `cut` if any; the device restarts and the command is delivered again. */
  function RebootAndRedeliver(cut: Option<JournalProperties.Op>, opens: bool, m: Message, now: u32, decideLock: bool,
                              storeLock: bool, w: Writes, ack: Bytes, launch: Event): seq<Event> {
    [PowerFails(cut, opens), Deliver(m, now, decideLock), Reserve(storeLock, w, ack), launch]
  }

  lemma RedeliveryStartsIff(s: System, m: Message, now: u32, decideLock: bool, storeLock: bool, w: Writes,
                            ack: Bytes, launch: Event)
    requires Sound(s) && s.pc.Idle? && Gate(m, now).Passed? && launch.Launch?
    ensures var c := Gate(m, now).c;
            var r := Step(Step(Step(s, Deliver(m, now, decideLock)), Reserve(storeLock, w, ack)), launch);
            Starts(r.invoked, c.tid) == Starts(s.invoked, c.tid)
              + Flag(decideLock && storeLock && w == Writes(Done, Done) && Begins(c) && !Known(s, c.tid))
  {
    var c := Gate(m, now).c;
    var s1 := Step(s, Deliver(m, now, decideLock));
    if decideLock && !Known(s, c.tid) {
      assert s1.pc == Decided(c) && s1.j == s.j && s1.invoked == s.invoked;
      var s2 := Step(s1, Reserve(storeLock, w, ack));
      assert s2.pc.Reserved? <==> storeLock && w == Writes(Done, Done);
      StartsSnoc(s.invoked, c.tid, c.tid);
    } else {
      assert s1.pc.Idle? && s1.invoked == s.invoked;
    }
  }

  /**
   * Whatever was running, and wherever in a journal call the power went: the command,
   * delivered again after the reboot, starts its job again exactly when the journal can be
   * asked and written and the loader does not find the transaction, which by `ReloadedIff`
   * it does for next to no record.
   */
  lemma RebootRestartsIff(s: System, cut: Option<JournalProperties.Op>, opens: bool, m: Message, now: u32,
                          decideLock: bool, storeLock: bool, w: Writes, ack: Bytes, launch: Event)
    requires Sound(s) && Gate(m, now).Passed? && Begins(Gate(m, now).c) && launch.Launch?
    ensures var t := Gate(m, now).c.tid;
            var evs := RebootAndRedeliver(cut, opens, m, now, decideLock, storeLock, w, ack, launch);
            Starts(Run(s, evs).invoked, t) == Starts(s.invoked, t)
              + Flag(decideLock && storeLock && w == Writes(Done, Done)
                     && !(opens && JournalProperties.Remembered(JournalProperties.SlotsLeft(s.j, cut), t)))
  {
    var evs := RebootAndRedeliver(cut, opens, m, now, decideLock, storeLock, w, ack, launch);
    var r := Step(s, evs[0]);
    FourSteps(s, evs);
    JournalProperties.FoundAfterBootIff(JournalProperties.SlotsLeft(s.j, cut), opens, Gate(m, now).c.tid);
    RedeliveryStartsIff(r, m, now, decideLock, storeLock, w, ack, launch);
  }

  /** For one: power lost between the two writes of the terminal update, which had taken the record's place. */
  lemma CutSettleRestarts(s: System, i: nat, m: Message, now: u32, again: Bytes, launch: Event)
    requires Sound(s) && s.pc.Ran? && Gate(m, now) == Passed(s.pc.c) && Begins(s.pc.c) && launch.Launch?
    requires Find(s.j.ram, s.pc.c.tid) == Some(i) && s.j.ram[i].value.hash == s.pc.c.hash
    requires forall j | 0 <= j < SIZE && j != i && s.j.nvs[j].Committed? :: s.j.nvs[j].e.id != s.pc.c.tid
    ensures var cut := Some(JournalProperties.UpdateOp(true, Entry(s.pc.c.tid, s.pc.c.hash, s.pc.ack), Writes(Done, Lost)));
            var evs := RebootAndRedeliver(cut, true, m, now, true, true, Writes(Done, Done), again, launch);
            Starts(Run(s, evs).invoked, s.pc.c.tid) == Starts(s.invoked, s.pc.c.tid) + 1
  {
    var cut := Some(JournalProperties.UpdateOp(true, Entry(s.pc.c.tid, s.pc.c.hash, s.pc.ack), Writes(Done, Lost)));
    assert JournalProperties.SlotsLeft(s.j, cut)[i].Torn?;
    assert !JournalProperties.Remembered(JournalProperties.SlotsLeft(s.j, cut), s.pc.c.tid);
    RebootRestartsIff(s, cut, true, m, now, true, true, Writes(Done, Done), again, launch);
  }

  /** For another: a plain reboot, when the flash holds no such record. */
  lemma PlainRebootRestarts(s: System, m: Message, now: u32, again: Bytes, launch: Event)
    requires Sound(s) && Gate(m, now).Passed? && Begins(Gate(m, now).c) && launch.Launch?
    requires !JournalProperties.Remembered(s.j.nvs, Gate(m, now).c.tid)
    ensures var t := Gate(m, now).c.tid;
            var evs := RebootAndRedeliver(None, true, m, now, true, true, Writes(Done, Done), again, launch);
            Starts(Run(s, evs).invoked, t) == Starts(s.invoked, t) + 1
  {
    RebootRestartsIff(s, None, true, m, now, true, true, Writes(Done, Done), again, launch);
  }

  lemma FourSteps(s: System, evs: seq<Event>)
    requires Sound(s) && |evs| == 4
    ensures Run(s, evs) == Step(Step(Step(Step(s, evs[0]), evs[1]), evs[2]), evs[3])
  {
    var a, b, c := evs[1..], evs[2..], evs[3..];
    assert a[1..] == b && b[1..] == c && c[1..] == [];
    var s1 := Step(s, evs[0]);
    var s2 := Step(s1, evs[1]);
    var s3 := Step(s2, evs[2]);
    assert Run(s, evs) == Run(s1, a) == Run(s2, b) == Run(s3, c);
    assert Run(s3, c) == Run(Step(s3, evs[3]), []);
  }

  // ---- Counters ---------------------------------------------------------------------------

  /** A reserved start command aimed at another firmware: the handler counts its rejection twice. */
  predicate Mismatched(j: Store, m: Message, e: Env)
    requires Valid(j)
  {
    Gate(m, e.now).Passed? && (
      var c := Gate(m, e.now).c;
      && WrongTarget(c)
      && Decide(j, e.decideLock, c.tid, c.hash) == New
      && StoreTransaction(j, e.storeLock, Entry(c.tid, c.hash, e.reservedAck), e.reserve).1)
  }

  function HandleAll(j: Store, h: Counters, calls: seq<(Message, Env)>): Counters
    requires Valid(j)
    decreases calls
  {
    if calls == [] then h
    else
      var o := Handle(j, h, calls[0].0, calls[0].1);
      HandleAll(o.j, o.h, calls[1..])
  }

  function Mismatches(j: Store, h: Counters, calls: seq<(Message, Env)>): nat
    requires Valid(j)
    decreases calls
  {
    if calls == [] then 0
    else
      var o := Handle(j, h, calls[0].0, calls[0].1);
      Flag(Mismatched(j, calls[0].0, calls[0].1)) + Mismatches(o.j, o.h, calls[1..])
  }

  function Excess(h: Counters): int {
    h.started + h.rejected + h.duplicates - h.received
  }

  lemma AccountingStep(j: Store, h: Counters, m: Message, e: Env)
    requires Valid(j)
    ensures Excess(Handle(j, h, m, e).h) == Excess(h) + Flag(Mismatched(j, m, e))
  {
  }

  /** Over any calls: started + rejected + duplicates exceeds received by the target mismatches. */
  lemma {:induction false} Accounting(j: Store, h: Counters, calls: seq<(Message, Env)>)
    requires Valid(j)
    ensures Excess(HandleAll(j, h, calls)) == Excess(h) + Mismatches(j, h, calls)
    decreases calls
  {
    if calls != [] {
      var (m, e) := calls[0];
      AccountingStep(j, h, m, e);
      var o := Handle(j, h, m, e);
      Accounting(o.j, o.h, calls[1..]);
    }
  }
}
