/** What the journal remembers, for how long, and what of it survives a reboot. */
module JournalProperties {
  import opened Common
  import opened Crc32
  import opened JournalModel
  import LinearRegister

  // ---- Runs of journal calls ------------------------------------------------------------

  datatype Op =
    | StoreOp(locked: bool, e: Entry, w: Writes)
    | UpdateOp(locked: bool, e: Entry, w: Writes)

  function Effect(s: Store, op: Op): (r: (Store, bool))
    requires Valid(s)
    ensures Valid(r.0)
  {
    match op
    case StoreOp(locked, e, w) => StoreTransaction(s, locked, e, w)
    case UpdateOp(locked, e, w) => UpdateAck(s, locked, e, w)
  }

  function Run(s: Store, ops: seq<Op>): (r: Store)
    requires Valid(s)
    ensures Valid(r)
    decreases ops
  {
    if ops == [] then s else Run(Effect(s, ops[0]).0, ops[1..])
  }

  /** The call put a new entry into the ring. */
  predicate Inserts(s: Store, op: Op)
    requires Valid(s)
  {
    op.locked && Find(s.ram, op.e.id).None? && op.w == Writes(Done, Done)
  }

  function Insertions(s: Store, ops: seq<Op>): nat
    requires Valid(s)
    decreases ops
  {
    if ops == [] then 0
    else (if Inserts(s, ops[0]) then 1 else 0) + Insertions(Effect(s, ops[0]).0, ops[1..])
  }

  /** How many insertions slot i outlives. */
  function Distance(s: Store, i: nat): nat
    requires Valid(s) && i < SIZE
  {
    (i + SIZE - s.next) % SIZE
  }

  predicate SameCommand(a: Option<Entry>, b: Option<Entry>) {
    a.Some? && b.Some? && a.value.id == b.value.id && a.value.hash == b.value.hash
  }

  // ---- What a call keeps ---------------------------------------------------------------

  /** A call changes RAM in at most one slot. */
  lemma RamAfter(s: Store, op: Op)
    requires Valid(s)
    ensures Inserts(s, op) ==>
      Effect(s, op).0.ram == s.ram[s.next := Some(op.e)] && Effect(s, op).0.next == (s.next + 1) % SIZE
    ensures !Inserts(s, op) ==> Effect(s, op).0.next == s.next
    ensures !Inserts(s, op) && Find(s.ram, op.e.id).None? ==> Effect(s, op).0.ram == s.ram
    ensures var f := Find(s.ram, op.e.id); f.Some? ==>
      Effect(s, op).0.ram == s.ram
      || (s.ram[f.value].value.hash == op.e.hash && Effect(s, op).0.ram == s.ram[f.value := Some(op.e)])
  {
  }

  lemma DistanceDrops(next: nat, i: nat)
    requires next < SIZE && i < SIZE && (i + SIZE - next) % SIZE > 0
    ensures i != next
    ensures (i + SIZE - (next + 1) % SIZE) % SIZE == (i + SIZE - next) % SIZE - 1
  {
  }

  lemma StepKeepsOthers(s: Store, op: Op, i: nat)
    requires Valid(s) && i < SIZE && s.ram[i].Some?
    requires Inserts(s, op) ==> Distance(s, i) > 0
    ensures SameCommand(Effect(s, op).0.ram[i], s.ram[i])
    ensures Distance(Effect(s, op).0, i) == Distance(s, i) - (if Inserts(s, op) then 1 else 0)
  {
    RamAfter(s, op);
    if Inserts(s, op) {
      DistanceDrops(s.next, i);
    }
  }

  /** An entry is remembered, with its hash, through as many insertions as its slot is ahead. */
  lemma {:induction false} Retained(s: Store, ops: seq<Op>, i: nat)
    requires Valid(s) && i < SIZE && s.ram[i].Some?
    requires Insertions(s, ops) <= Distance(s, i)
    ensures SameCommand(Run(s, ops).ram[i], s.ram[i])
    ensures Distance(Run(s, ops), i) == Distance(s, i) - Insertions(s, ops)
    decreases ops
  {
    if ops != [] {
      StepKeepsOthers(s, ops[0], i);
      Retained(Effect(s, ops[0]).0, ops[1..], i);
    }
  }

  /** ... and one more insertion overwrites exactly that slot. */
  lemma ThenEvicted(s: Store, ops: seq<Op>, i: nat, op: Op)
    requires Valid(s) && i < SIZE && s.ram[i].Some?
    requires Insertions(s, ops) == Distance(s, i) && Inserts(Run(s, ops), op)
    ensures Effect(Run(s, ops), op).0.ram == Run(s, ops).ram[i := Some(op.e)]
  {
    Retained(s, ops, i);
    TakesSlot(Run(s, ops), op, i);
  }

  lemma TakesSlot(s: Store, op: Op, i: nat)
    requires Valid(s) && Inserts(s, op) && i < SIZE && Distance(s, i) == 0
    ensures Effect(s, op).0.ram == s.ram[i := Some(op.e)]
  {
    DistanceZero(s.next, i);
    RamAfter(s, op);
  }

  lemma DistanceZero(next: nat, i: nat)
    requires next < SIZE && i < SIZE && (i + SIZE - next) % SIZE == 0
    ensures next == i
  {
  }

  /** A fresh insertion is good for fifteen more. */
  lemma FreshDistance(s: Store, op: Op)
    requires Valid(s) && Inserts(s, op)
    ensures Effect(s, op).1 && Effect(s, op).0.ram[s.next] == Some(op.e)
    ensures Effect(s, op).0.nvs[s.next] == Committed(Stored(op.e))
    ensures Distance(Effect(s, op).0, s.next) == 15
  {
  }

  // ---- What a call answers -------------------------------------------------------------

  predicate Made(w: Writes) {
    w.first == Done && w.second == Done
  }

  /**
   * A store answers true exactly if it got the lock and the transaction is there under the same
   * hash, or was not there and both writes are reported done; then RAM and flash hold it.
   */
  lemma StoreAnswersIff(s: Store, locked: bool, e: Entry, w: Writes)
    requires Valid(s)
    ensures var (s', ok) := StoreTransaction(s, locked, e, w);
            var held := Find(s.ram, e.id);
            && (ok <==> locked && if held.Some? then s.ram[held.value].value.hash == e.hash else Made(w))
            && (held.Some? || !locked ==> s' == s)
            && (ok && held.None? ==> s'.ram[s.next] == Some(e) && s'.nvs[s.next] == Committed(Stored(e)))
  {
  }

  /** An update answers true exactly if it got the lock, the hash is not another and both writes are reported done. */
  lemma UpdateAnswersIff(s: Store, locked: bool, e: Entry, w: Writes)
    requires Valid(s)
    ensures var (s', ok) := UpdateAck(s, locked, e, w);
            var held := Find(s.ram, e.id);
            var i := if held.Some? then held.value else s.next;
            && (ok <==> locked && Made(w) && (held.Some? ==> s.ram[i].value.hash == e.hash))
            && (ok ==> s'.ram[i] == Some(e) && s'.nvs[i] == Committed(Stored(e)))
            && (!ok ==> s'.ram == s.ram)
  {
  }

  /** The size is one past the last occupied slot. */
  predicate Tight(s: Store)
    requires Valid(s)
  {
    s.size > 0 ==> s.ram[s.size - 1].Some?
  }

  lemma EffectKeepsTight(s: Store, op: Op)
    requires Valid(s) && Tight(s)
    ensures Tight(Effect(s, op).0)
  {
  }

  /** From any boot and over any calls since. */
  lemma {:induction false} SizeIsExtent(nvs: seq<Slot>, opens: bool, ops: seq<Op>)
    requires |nvs| == SIZE
    ensures (BootIsValid(nvs, opens); Tight(Run(Boot(nvs, opens), ops)))
  {
    BootIsValid(nvs, opens);
    RunKeepsTight(Boot(nvs, opens), ops);
  }

  lemma {:induction false} RunKeepsTight(s: Store, ops: seq<Op>)
    requires Valid(s) && Tight(s)
    ensures Tight(Run(s, ops))
    decreases ops
  {
    if ops != [] {
      EffectKeepsTight(s, ops[0]);
      RunKeepsTight(Effect(s, ops[0]).0, ops[1..]);
    }
  }

  // ---- RAM against NVS -----------------------------------------------------------------

  predicate AllFit(s: Store) {
    forall i | 0 <= i < |s.ram| && s.ram[i].Some? :: Fits(s.ram[i].value)
  }

  /** Everything RAM answers for is committed in NVS. */
  predicate Durable(s: Store)
    requires Valid(s)
  {
    forall i | 0 <= i < SIZE && s.ram[i].Some? :: s.nvs[i] == Committed(s.ram[i].value)
  }

  lemma StoredFits(e: Entry)
    requires Fits(e)
    ensures Stored(e) == e
  {
  }

  /** A failed insertion leaves RAM claiming an entry NVS no longer holds, if it touched an occupied slot. */
  lemma InsertionKeepsDurableIff(s: Store, e: Entry, w: Writes)
    requires Valid(s) && Durable(s) && AllFit(s) && Fits(e) && Find(s.ram, e.id).None?
    ensures Durable(StoreTransaction(s, true, e, w).0)
       <==> w == Writes(Done, Done) || w.first.Lost? || s.ram[s.next].None?
  {
    StoredFits(e);
    var s' := StoreTransaction(s, true, e, w).0;
    if s.ram[s.next].Some? && w != Writes(Done, Done) && !w.first.Lost? {
      assert s'.ram[s.next] == s.ram[s.next] && s.ram[s.next].value.id != e.id;
    }
  }

  /** A failed update does so unless it changed nothing. */
  lemma UpdateKeepsDurableIff(s: Store, e: Entry, w: Writes, i: nat)
    requires Valid(s) && Durable(s) && AllFit(s) && Fits(e)
    requires Find(s.ram, e.id) == Some(i) && s.ram[i].value.hash == e.hash
    ensures Durable(UpdateAck(s, true, e, w).0)
       <==> w == Writes(Done, Done) || w.first.Lost? || (w == Writes(Done, Landed) && s.ram[i].value.ack == e.ack)
  {
    StoredFits(e);
    var s' := UpdateAck(s, true, e, w).0;
    if w != Writes(Done, Done) && !w.first.Lost? {
      assert s'.ram[i] == s.ram[i];
    }
  }

  /** The slot a call writes to. */
  function Target(s: Store, op: Op): nat
    requires Valid(s)
  {
    match Find(s.ram, op.e.id) case Some(i) => i case None => s.next
  }

  lemma NvsAfter(s: Store, op: Op)
    requires Valid(s)
    ensures var s' := Effect(s, op).0;
            s'.nvs == s.nvs || s'.nvs == s.nvs[Target(s, op) := WriteSlot(s.nvs[Target(s, op)], op.e, op.w).0]
  {
  }

  lemma SlotAfter(was: Slot, e: Entry, w: Writes)
    ensures var slot := WriteSlot(was, e, w).0;
            slot == was || Recovered(slot) == None || slot == Committed(Stored(e))
  {
  }

  /**
   * Power may fail at any point of a call: before its first write is the outcome
   * `Lost`, between its writes `Done, Lost`. Whatever happened, after the reboot
   * its own slot holds the old record, nothing, or the new one; no other slot changed.
   */
  lemma CrashTouchesOneSlot(s: Store, op: Op)
    requires Valid(s)
    ensures var (b, b') := (Boot(s.nvs, true), Boot(Effect(s, op).0.nvs, true));
            var t := Target(s, op);
            && (forall j | 0 <= j < SIZE && j != t :: b'.ram[j] == b.ram[j])
            && (b'.ram[t] == b.ram[t] || b'.ram[t] == None || b'.ram[t] == Recovered(Committed(Stored(op.e))))
  {
    var t := Target(s, op);
    NvsAfter(s, op);
    SlotAfter(s.nvs[t], op.e, op.w);
    BootRam(s.nvs);
    BootRam(Effect(s, op).0.nvs);
  }

  lemma BootRam(nvs: seq<Slot>)
    requires |nvs| == SIZE
    ensures |Boot(nvs, true).ram| == SIZE
    ensures forall j | 0 <= j < SIZE :: Boot(nvs, true).ram[j] == Recovered(nvs[j])
  {
  }

  /** Power lost between the two writes of an update: the reservation it was updating is gone. */
  lemma InterruptedUpdateForgets(s: Store, e: Entry, i: nat)
    requires Valid(s) && Find(s.ram, e.id) == Some(i) && s.ram[i].value.hash == e.hash
    requires forall j | 0 <= j < SIZE && j != i && s.nvs[j].Committed? :: s.nvs[j].e.id != e.id
    ensures Decide(Boot(UpdateAck(s, true, e, Writes(Done, Lost)).0.nvs, true), true, e.id, e.hash) == New
  {
  }

  // ---- Reboots -------------------------------------------------------------------------

  lemma PaddedBodyIff(p: Bytes)
    requires 4 <= |p| <= 1156
    ensures Checksum(p + Zeros(BODY - |p|)) == Checksum(p) <==> Checksum(p) == ALL_ONES
  {
    PaddingInvisibleIff(p, BODY - |p|);
  }

  lemma ChecksumHoldsIff(e: Entry)
    requires Fits(e)
    ensures ChecksumHolds(e) <==> Checksum(Payload(e)) == ALL_ONES
  {
    PaddedBodyIff(Payload(e));
  }

  /** A committed record is read back exactly when its checksum happens to be all ones. */
  lemma ReloadedIff(e: Entry)
    requires Fits(e)
    ensures Recovered(Committed(e)) == Some(e) <==> Checksum(Payload(e)) == ALL_ONES
  {
    ChecksumHoldsIff(e);
  }

  lemma FourZeroBytes()
    ensures Checksum(Zeros(4)) != ALL_ONES
  {
    assert Eight(0xFFFF_FFFF) == 0x2DFD_1072;
    assert Eight(0x2DFD_1072) == 0xBE26_ED00;
    assert Eight(0xBE26_ED00) == 0x00BE_26ED;
    assert Eight(0x00BE_26ED) == 0xDEBB_20E3;
    ByteClocks(0xFFFF_FFFF, 24);
    ByteClocks(0x2DFD_1072, 16);
    ByteClocks(0xBE26_ED00, 8);
    ByteClocks(0x00BE_26ED, 0);
    NothingRead();
    PaddedRegister([], 4);
    assert [] + Zeros(4) == Zeros(4);
  }

  lemma ByteClocks(c: bv32, n: nat)
    ensures LinearRegister.Iter(BitStep, c, 8 + n) == LinearRegister.Iter(BitStep, Eight(c), n)
  {
    LinearRegister.IterEight(Tick, c);
    StepsAreTicks(c, 8);
    LinearRegister.IterAdd(BitStep, c, 8, n);
  }

  /** For instance the record with three empty fields is committed and then never found. */
  lemma EmptyRecordForgotten()
    ensures Recovered(Committed(Entry([], [], []))) == None
  {
    assert Payload(Entry([], [], [])) == Zeros(4);
    FourZeroBytes();
    ReloadedIff(Entry([], [], []));
  }

  /** So a reboot keeps precisely those entries, and forgets every other command. */
  lemma RebootKeepsIff(s: Store, i: nat)
    requires Valid(s) && Durable(s) && AllFit(s) && i < SIZE && s.ram[i].Some?
    ensures Boot(s.nvs, true).ram[i] == s.ram[i] <==> Checksum(Payload(s.ram[i].value)) == ALL_ONES
    ensures Boot(s.nvs, true).ram[i] == s.ram[i] || Boot(s.nvs, true).ram[i] == None
  {
    ReloadedIff(s.ram[i].value);
  }

  /** No slot above i is occupied. */
  predicate Highest(ram: seq<Option<Entry>>, i: nat) {
    forall j | i < j < |ram| :: ram[j].None?
  }

  lemma ExtentOfHighest(ram: seq<Option<Entry>>, i: nat)
    requires i < |ram| && ram[i].Some?
    ensures i < Extent(ram) && (i == Extent(ram) - 1 <==> Highest(ram, i))
  {
  }

  lemma AheadOfRing(n: nat, i: nat)
    requires i < n <= SIZE
    ensures (i + SIZE - n % SIZE) % SIZE == (if n < SIZE then i + SIZE - n else i)
    ensures (i + SIZE - n % SIZE) % SIZE == 15 <==> i == n - 1
  {
  }

  lemma RingBehindHighest(s: Store, i: nat)
    requires Valid(s) && s.next == Extent(s.ram) % SIZE && i < SIZE && s.ram[i].Some?
    ensures i < Extent(s.ram)
    ensures Distance(s, i) == if Extent(s.ram) < SIZE then i + SIZE - Extent(s.ram) else i
    ensures Distance(s, i) == 15 <==> Highest(s.ram, i)
  {
    ExtentOfHighest(s.ram, i);
    AheadOfRing(Extent(s.ram), i);
  }

  /**
   * The loader restarts the ring behind the highest slot it recovered, whichever slots
   * those are. From then on the entries go in slot order, however old they are: the last
   * to go is the one in the highest slot.
   */
  lemma RingAfterReload(nvs: seq<Slot>, i: nat)
    requires |nvs| == SIZE && i < SIZE && Recovered(nvs[i]).Some?
    ensures Valid(Boot(nvs, true))
    ensures var b := Boot(nvs, true);
            var n := Extent(b.ram);
            && i < n
            && Distance(b, i) == (if n < SIZE then i + SIZE - n else i)
            && (Distance(b, i) == 15 <==> Highest(b.ram, i))
  {
    BootIsValid(nvs, true);
    BootRam(nvs);
    RingBehindHighest(Boot(nvs, true), i);
  }

  /** So the newest entry is still the last to go exactly when nothing was recovered above it. */
  lemma NewestAfterReload(s: Store)
    requires Valid(s) && Recovered(s.nvs[(s.next + 15) % SIZE]).Some?
    ensures Valid(Boot(s.nvs, true))
    ensures var newest := (s.next + 15) % SIZE;
            var b := Boot(s.nvs, true);
            Distance(b, newest) == 15 <==> Highest(b.ram, newest)
  {
    RingAfterReload(s.nvs, (s.next + 15) % SIZE);
  }

  /** What the slots hold once the call cut short by a power failure has done its writes. */
  function SlotsLeft(s: Store, cut: Option<Op>): (nvs: seq<Slot>)
    requires Valid(s)
    ensures |nvs| == SIZE
  {
    if cut.Some? then Effect(s, cut.value).0.nvs else s.nvs
  }

  /** The loader will find t: a committed record that fits and whose checksum happens to be all ones. */
  predicate Remembered(nvs: seq<Slot>, t: Bytes) {
    exists i | 0 <= i < |nvs| :: Survives(nvs[i], t)
  }

  predicate Survives(slot: Slot, t: Bytes) {
    slot.Committed? && Fits(slot.e) && slot.e.id == t && Checksum(Payload(slot.e)) == ALL_ONES
  }

  lemma RecoveredIff(slot: Slot, t: Bytes)
    ensures Recovered(slot).Some? && Recovered(slot).value.id == t <==> Survives(slot, t)
  {
    if slot.Committed? && Fits(slot.e) {
      ReloadedIff(slot.e);
    }
  }

  /** After a reboot a transaction is known exactly if the namespace opens and a slot remembers it. */
  lemma FoundAfterBootIff(nvs: seq<Slot>, opens: bool, t: Bytes)
    requires |nvs| == SIZE
    ensures Find(Boot(nvs, opens).ram, t).Some? <==> opens && Remembered(nvs, t)
  {
    if opens {
      BootRam(nvs);
      forall i | 0 <= i < SIZE
        ensures Boot(nvs, true).ram[i].Some? && Boot(nvs, true).ram[i].value.id == t <==> Survives(nvs[i], t)
      {
        RecoveredIff(nvs[i], t);
      }
    }
  }

  // ---- The journal seen from one transaction ---------------------------------------------------

  /** The entry RAM answers with, and the record under the key of its slot. */
  datatype Held = Held(e: Entry, slot: Slot)

  function Seen(s: Store, t: Bytes): Option<Held>
    requires Valid(s)
  {
    match Find(s.ram, t) case None => None case Some(i) => Some(Held(s.ram[i].value, s.nvs[i]))
  }

  /** t has at most one slot; a reboot may load two, a call never makes a second. */
  predicate Single(s: Store, t: Bytes) {
    forall a, b | 0 <= a < |s.ram| && 0 <= b < |s.ram| && s.ram[a].Some? && s.ram[b].Some?
      && s.ram[a].value.id == t && s.ram[b].value.id == t :: a == b
  }

  /** A new entry is to be put where t is. */
  predicate Crowds(s: Store, op: Op, t: Bytes) {
    op.locked && op.e.id != t && Find(s.ram, op.e.id).None? && Find(s.ram, t) == Some(s.next)
  }

  /** What a call makes of what t has; the ring matters only when it has come round to its slot. */
  function SeenAfter(n: Option<Held>, op: Op, t: Bytes, crowds: bool): Option<Held> {
    if n.None? then
      if op.locked && op.e.id == t && op.w == Writes(Done, Done) then Some(Held(op.e, Committed(Stored(op.e)))) else None
    else
      var (slot, ok) := WriteSlot(n.value.slot, op.e, op.w);
      if crowds then (if ok then None else Some(Held(n.value.e, slot)))
      else if op.locked && op.UpdateOp? && op.e.id == t && op.e.hash == n.value.e.hash then
        Some(Held(if ok then op.e else n.value.e, slot))
      else n
  }

  function History(s: Store, ops: seq<Op>, t: Bytes, n: Option<Held>): Option<Held>
    requires Valid(s)
    decreases ops
  {
    if ops == [] then n
    else History(Effect(s, ops[0]).0, ops[1..], t, SeenAfter(n, ops[0], t, Crowds(s, ops[0], t)))
  }

  lemma UnseenStep(s: Store, op: Op, t: Bytes)
    requires Valid(s) && Find(s.ram, t).None?
    ensures Single(Effect(s, op).0, t) && Seen(Effect(s, op).0, t) == SeenAfter(None, op, t, false)
  {
    var s' := Effect(s, op).0;
    RamAfter(s, op);
    if Inserts(s, op) && op.e.id == t {
      FreshDistance(s, op);
      FindFirst(s'.ram, t, s.next);
    } else {
      FindNone(s'.ram, t);
    }
  }

  /** A call on t itself, found in slot i. */
  lemma OwnStep(s: Store, op: Op, t: Bytes, i: nat)
    requires Valid(s) && Single(s, t) && Find(s.ram, t) == Some(i) && op.e.id == t
    ensures Single(Effect(s, op).0, t) && Seen(Effect(s, op).0, t) == SeenAfter(Seen(s, t), op, t, false)
  {
    RamAfter(s, op);
    FindFirst(Effect(s, op).0.ram, t, i);
  }

  lemma ForeignKeepsPlace(s: Store, op: Op, t: Bytes, i: nat)
    requires Valid(s) && Single(s, t) && Find(s.ram, t) == Some(i) && op.e.id != t
    requires !(Inserts(s, op) && i == s.next)
    ensures Seen(Effect(s, op).0, t) == SeenAfter(Seen(s, t), op, t, Crowds(s, op, t))
  {
    RamAfter(s, op);
    NvsAfter(s, op);
    FindFirst(Effect(s, op).0.ram, t, i);
  }

  lemma ForeignStep(s: Store, op: Op, t: Bytes, i: nat)
    requires Valid(s) && Single(s, t) && Find(s.ram, t) == Some(i) && op.e.id != t
    ensures Single(Effect(s, op).0, t)
    ensures Seen(Effect(s, op).0, t) == SeenAfter(Seen(s, t), op, t, Crowds(s, op, t))
  {
    RamAfter(s, op);
    if Inserts(s, op) && i == s.next {
      FindNone(Effect(s, op).0.ram, t);
    } else {
      ForeignKeepsPlace(s, op, t, i);
    }
  }

  lemma SeenStep(s: Store, op: Op, t: Bytes)
    requires Valid(s) && Single(s, t)
    ensures Single(Effect(s, op).0, t)
    ensures Seen(Effect(s, op).0, t) == SeenAfter(Seen(s, t), op, t, Crowds(s, op, t))
  {
    match Find(s.ram, t)
    case None =>
      UnseenStep(s, op, t);
    case Some(i) =>
      if op.e.id == t {
        OwnStep(s, op, t, i);
      } else {
        ForeignStep(s, op, t, i);
      }
  }

  /** Over any calls, what the journal holds of t, in RAM and in flash, is the fold of the calls made. */
  lemma {:induction false} SeenIsHistory(s: Store, ops: seq<Op>, t: Bytes)
    requires Valid(s) && Single(s, t)
    ensures Single(Run(s, ops), t) && Seen(Run(s, ops), t) == History(s, ops, t, Seen(s, t))
    decreases ops
  {
    if ops != [] {
      SeenStep(s, ops[0], t);
      SeenIsHistory(Effect(s, ops[0]).0, ops[1..], t);
    }
  }

  /** The call succeeds in giving t an entry, if it has none. */
  predicate Puts(op: Op, t: Bytes) {
    op.locked && op.e.id == t && op.w == Writes(Done, Done)
  }

  lemma ClearOfSlot(next: nat, i: nat)
    requires next < SIZE && i < SIZE && (i + SIZE - next) % SIZE > 0
    ensures i != next
  {
  }

  lemma FreshStays(s: Store, op: Op, ops: seq<Op>, t: Bytes)
    requires Valid(s) && Find(s.ram, t).None? && Puts(op, t) && Insertions(Effect(s, op).0, ops) <= 15
    ensures Seen(Run(Effect(s, op).0, ops), t).Some?
  {
    FreshDistance(s, op);
    Retained(Effect(s, op).0, ops, s.next);
    assert Run(Effect(s, op).0, ops).ram[s.next].value.id == t;
  }

  /** A transaction not held yet: fifteen insertions do not come round to it. */
  lemma {:induction false} HeldIffPut(s: Store, ops: seq<Op>, t: Bytes)
    requires Valid(s) && Find(s.ram, t).None? && Insertions(s, ops) <= 15
    ensures Seen(Run(s, ops), t).Some? <==> exists k | 0 <= k < |ops| :: Puts(ops[k], t)
    decreases ops
  {
    if ops != [] {
      var s' := Effect(s, ops[0]).0;
      UnseenStep(s, ops[0], t);
      if Puts(ops[0], t) {
        FreshStays(s, ops[0], ops[1..], t);
      } else {
        HeldIffPut(s', ops[1..], t);
        assert forall k | 0 <= k < |ops| - 1 :: ops[1..][k] == ops[k + 1];
      }
    }
  }
}
