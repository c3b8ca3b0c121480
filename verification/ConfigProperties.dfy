/** Replay, conflict and the limits of the apply-then-record order. */
module ConfigProperties {
  import opened Common
  import opened JournalModel
  import JournalProperties
  import opened Commands
  import opened ConfigModel

  predicate Known(s: System, t: Bytes) {
    Find(s.j.ram, t).Some?
  }

  // ---- Success is announced only for what is recorded ---------------------------------------

  /** The journal answers for this very command with this very ACK. */
  predicate Answers(j: Store, c: Command, ack: Bytes) {
    var f := Find(j.ram, c.tid);
    f.Some? && j.ram[f.value] == Some(Entry(c.tid, c.hash, ack))
  }

  lemma InsertionAnswers(j: Store, e: Entry, w: Writes)
    requires Valid(j) && Find(j.ram, e.id).None? && StoreTransaction(j, true, e, w).1
    ensures var j' := StoreTransaction(j, true, e, w).0;
            Answers(j', Command(e.id, e.hash), e.ack) && j'.nvs[j.next] == Committed(Stored(e))
  {
    var j' := StoreTransaction(j, true, e, w).0;
    assert j'.ram == j.ram[j.next := Some(e)];
    assert j'.ram[j.next].value.id == e.id;
  }

  /** An ACK text for an applied command goes out only when its record is committed, and never otherwise. */
  lemma AckedIsDurable(j: Store, h: Counters, m: Message, e: Env)
    requires Valid(j)
    ensures var o := Handle(j, h, m, e);
            o.applied.Some? ==>
              && Gate(m, e.now) == Passed(o.applied.value)
              && (o.sent == Some(Text(e.ack)) || o.sent == Some(Notice(o.applied.value.tid, false, DurabilityFailure)))
              && (o.sent == Some(Text(e.ack)) ==>
                    && Answers(o.j, o.applied.value, e.ack)
                    && o.j.nvs[j.next] == Committed(Stored(Entry(o.applied.value.tid, o.applied.value.hash, e.ack))))
  {
    var o := Handle(j, h, m, e);
    if o.applied.Some? && o.sent == Some(Text(e.ack)) {
      InsertionAnswers(j, Entry(o.applied.value.tid, o.applied.value.hash, e.ack), e.store);
    }
  }

  // ---- Replay --------------------------------------------------------------------------------

  /** The call rewrites the ACK of transaction t: only the executor's terminal update does. */
  predicate Rewrites(op: JournalProperties.Op, t: Bytes) {
    op.UpdateOp? && op.e.id == t
  }

  lemma AnswerStepKept(j: Store, op: JournalProperties.Op, i: nat)
    requires Valid(j) && i < SIZE && j.ram[i].Some? && !Rewrites(op, j.ram[i].value.id)
    requires JournalProperties.Inserts(j, op) ==> JournalProperties.Distance(j, i) > 0
    ensures JournalProperties.Effect(j, op).0.ram[i] == j.ram[i]
  {
    JournalProperties.StepKeepsOthers(j, op, i);
  }

  lemma {:induction false} AnswerKept(j: Store, ops: seq<JournalProperties.Op>, i: nat)
    requires Valid(j) && i < SIZE && j.ram[i].Some?
    requires JournalProperties.Insertions(j, ops) <= JournalProperties.Distance(j, i)
    requires forall k | 0 <= k < |ops| :: !Rewrites(ops[k], j.ram[i].value.id)
    ensures JournalProperties.Run(j, ops).ram[i] == j.ram[i]
    decreases ops
  {
    if ops != [] {
      AnswerStepKept(j, ops[0], i);
      JournalProperties.StepKeepsOthers(j, ops[0], i);
      var j' := JournalProperties.Effect(j, ops[0]).0;
      assert forall k | 0 <= k < |ops| - 1 :: ops[1..][k] == ops[k + 1];
      AnswerKept(j', ops[1..], i);
    }
  }

  /** Slot i is the only place t occupies in RAM. */
  predicate OnlyAt(j: Store, t: Bytes, i: nat) {
    forall k | 0 <= k < |j.ram| && j.ram[k].Some? && j.ram[k].value.id == t :: k == i
  }

  lemma OnlyAtStep(j: Store, op: JournalProperties.Op, t: Bytes, i: nat)
    requires Valid(j) && i < SIZE && j.ram[i].Some? && j.ram[i].value.id == t && OnlyAt(j, t, i)
    ensures OnlyAt(JournalProperties.Effect(j, op).0, t, i)
  {
    JournalProperties.RamAfter(j, op);
  }

  lemma {:induction false} OnlyAtKept(j: Store, ops: seq<JournalProperties.Op>, t: Bytes, i: nat)
    requires Valid(j) && i < SIZE && j.ram[i].Some? && j.ram[i].value.id == t && OnlyAt(j, t, i)
    requires JournalProperties.Insertions(j, ops) <= JournalProperties.Distance(j, i)
    ensures OnlyAt(JournalProperties.Run(j, ops), t, i)
    decreases ops
  {
    if ops != [] {
      OnlyAtStep(j, ops[0], t, i);
      JournalProperties.StepKeepsOthers(j, ops[0], i);
      OnlyAtKept(JournalProperties.Effect(j, ops[0]).0, ops[1..], t, i);
    }
  }

  lemma FindsOnly(j: Store, t: Bytes, i: nat)
    requires i < |j.ram| && j.ram[i].Some? && j.ram[i].value.id == t && OnlyAt(j, t, i)
    ensures Find(j.ram, t) == Some(i)
  {
    assert Find(j.ram, t).Some?;
  }

  lemma AcceptedInserts(j: Store, h: Counters, m: Message, e: Env)
    requires Valid(j) && Handle(j, h, m, e).applied.Some? && Handle(j, h, m, e).sent == Some(Text(e.ack))
    ensures Gate(m, e.now).Passed?
    ensures var c := Gate(m, e.now).c;
            var j1 := Handle(j, h, m, e).j;
            j1.ram[j.next] == Some(Entry(c.tid, c.hash, e.ack)) && OnlyAt(j1, c.tid, j.next)
            && JournalProperties.Distance(j1, j.next) == 15
  {
    var c := Gate(m, e.now).c;
    var op := JournalProperties.StoreOp(e.storeLock, Entry(c.tid, c.hash, e.ack), e.store);
    assert Find(j.ram, c.tid).None?;
    assert JournalProperties.Inserts(j, op);
    JournalProperties.FreshDistance(j, op);
  }

  lemma StillDuplicate(j: Store, c: Command, ack: Bytes, i: nat, ops: seq<JournalProperties.Op>)
    requires Valid(j) && i < SIZE && j.ram[i] == Some(Entry(c.tid, c.hash, ack)) && OnlyAt(j, c.tid, i)
    requires JournalProperties.Insertions(j, ops) <= JournalProperties.Distance(j, i)
    requires forall k | 0 <= k < |ops| :: !Rewrites(ops[k], c.tid)
    ensures Decide(JournalProperties.Run(j, ops), true, c.tid, c.hash) == Duplicate(ack)
  {
    AnswerKept(j, ops, i);
    OnlyAtKept(j, ops, c.tid, i);
    FindsOnly(JournalProperties.Run(j, ops), c.tid, i);
  }

  lemma DuplicateReplays(j: Store, h: Counters, m: Message, e: Env, c: Command, ack: Bytes)
    requires Valid(j) && Gate(m, e.now) == Passed(c) && e.decideLock && ack != []
    requires Decide(j, true, c.tid, c.hash) == Duplicate(ack)
    ensures Handle(j, h, m, e).sent == Some(Text(ack)) && Handle(j, h, m, e).applied == None
    ensures Handle(j, h, m, e).j == j
  {
  }

  /**
   * An accepted command delivered again, after any journal traffic that leaves
   * its slot within the retention distance and does not rewrite its record: the
   * same ACK byte for byte, and nothing is applied.
   */
  lemma ReplayIsVerbatim(
    j: Store, h: Counters, m: Message, e: Env, ops: seq<JournalProperties.Op>, h': Counters, m': Message, e': Env)
    requires Valid(j) && Handle(j, h, m, e).applied.Some? && Handle(j, h, m, e).sent == Some(Text(e.ack)) && e.ack != []
    requires Gate(m', e'.now) == Gate(m, e.now) && e'.decideLock
    requires JournalProperties.Insertions(Handle(j, h, m, e).j, ops) <= 15
    requires Gate(m, e.now).Passed? && forall k | 0 <= k < |ops| :: !Rewrites(ops[k], Gate(m, e.now).c.tid)
    ensures var j2 := JournalProperties.Run(Handle(j, h, m, e).j, ops);
            var o := Handle(j2, h', m', e');
            o.sent == Some(Text(e.ack)) && o.applied == None && o.j == j2
  {
    var c := Gate(m, e.now).c;
    var j1 := Handle(j, h, m, e).j;
    AcceptedInserts(j, h, m, e);
    StillDuplicate(j1, c, e.ack, j.next, ops);
    DuplicateReplays(JournalProperties.Run(j1, ops), h', m', e', c, e.ack);
  }

  /** The same id with another payload is refused whatever else happens, and changes nothing. */
  lemma OtherHashNeverApplies(j: Store, h: Counters, m: Message, e: Env)
    requires Valid(j) && Gate(m, e.now).Passed?
    requires var f := Find(j.ram, Gate(m, e.now).c.tid);
             f.Some? && j.ram[f.value].value.hash != Gate(m, e.now).c.hash
    ensures Handle(j, h, m, e).applied == None && Handle(j, h, m, e).j == j
    ensures Handle(j, h, m, e).h.rejected == h.rejected + 1
  {
  }

  // ---- Counters --------------------------------------------------------------------------------

  function HandleAll(j: Store, h: Counters, calls: seq<(Message, Env)>): Counters
    requires Valid(j)
    decreases calls
  {
    if calls == [] then h
    else
      var o := Handle(j, h, calls[0].0, calls[0].1);
      HandleAll(o.j, o.h, calls[1..])
  }

  predicate Balanced(h: Counters) {
    h.received == h.accepted + h.rejected + h.duplicates
  }

  lemma {:induction false} CountersBalance(j: Store, h: Counters, calls: seq<(Message, Env)>)
    requires Valid(j) && Balanced(h)
    ensures Balanced(HandleAll(j, h, calls))
    decreases calls
  {
    if calls != [] {
      var o := Handle(j, h, calls[0].0, calls[0].1);
      assert Balanced(o.h);
      CountersBalance(o.j, o.h, calls[1..]);
    }
  }

  // ---- How often a command can be applied --------------------------------------------------------

  function Applies(applied: seq<Command>, t: Bytes): nat {
    if applied == [] then 0 else Flag(applied[|applied| - 1].tid == t) + Applies(applied[..|applied| - 1], t)
  }

  predicate Forgets(s: System, ev: Event, t: Bytes)
    requires Sound(s)
  {
    Known(s, t) && !Known(Step(s, ev), t)
  }

  /** An application of t whose record is never made: the store fails, or power does. */
  predicate GoesUnrecorded(s: System, ev: Event, t: Bytes)
    requires Sound(s)
  {
    s.pc.Applied? && s.pc.c.tid == t
    && (ev.PowerFails? || (ev.Record? && !Step(s, ev).pc.durable))
  }

  function Losses(s: System, evs: seq<Event>, t: Bytes): nat
    requires Sound(s)
    decreases evs
  {
    if evs == [] then 0 else Flag(Forgets(s, evs[0], t)) + Losses(Step(s, evs[0]), evs[1..], t)
  }

  function Unrecorded(s: System, evs: seq<Event>, t: Bytes): nat
    requires Sound(s)
    decreases evs
  {
    if evs == [] then 0 else Flag(GoesUnrecorded(s, evs[0], t)) + Unrecorded(Step(s, evs[0]), evs[1..], t)
  }

  predicate Paid(s: System, t: Bytes, debt: nat) {
    var n := Applies(s.applied, t);
    && n <= debt + Flag(Known(s, t)) + Flag(s.pc.Applied? && s.pc.c.tid == t)
    && (s.pc.Decided? && s.pc.c.tid == t ==> n <= debt)
    && (s.pc.Applied? && s.pc.c.tid == t ==> n <= debt + 1)
  }

  lemma AppliesSnoc(applied: seq<Command>, c: Command, t: Bytes)
    ensures Applies(applied + [c], t) == Applies(applied, t) + Flag(c.tid == t)
  {
    assert (applied + [c])[..|applied|] == applied;
  }

  lemma RecordIsKnown(j: Store, locked: bool, e: Entry, w: Writes)
    requires Valid(j) && StoreTransaction(j, locked, e, w).1
    ensures Find(StoreTransaction(j, locked, e, w).0.ram, e.id).Some?
  {
    var j' := StoreTransaction(j, locked, e, w).0;
    if Find(j.ram, e.id).None? {
      assert j'.ram[j.next] == Some(e);
    }
  }

  lemma StepStaysPaid(s: System, ev: Event, t: Bytes, debt: nat)
    requires Sound(s) && Paid(s, t, debt)
    ensures Paid(Step(s, ev), t, debt + Flag(Forgets(s, ev, t)) + Flag(GoesUnrecorded(s, ev, t)))
  {
    match ev
    case Deliver(m, now, locked) =>
    case Apply(ok, ack) =>
      if s.pc.Decided? {
        AppliesSnoc(s.applied, s.pc.c, t);
      }
    case Record(locked, w) =>
      if s.pc.Applied? && Step(s, ev).pc.durable {
        RecordIsKnown(s.j, locked, Entry(s.pc.c.tid, s.pc.c.hash, s.pc.ack), w);
      }
    case Publish =>
    case Other(op) =>
    case PowerFails(cut, opens) =>
  }

  lemma {:induction false} RunStaysPaid(s: System, evs: seq<Event>, t: Bytes, debt: nat)
    requires Sound(s) && Paid(s, t, debt)
    ensures Paid(Run(s, evs), t, debt + Losses(s, evs, t) + Unrecorded(s, evs, t))
    decreases evs
  {
    if evs != [] {
      StepStaysPaid(s, evs[0], t, debt);
      RunStaysPaid(Step(s, evs[0]), evs[1..], t,
                   debt + Flag(Forgets(s, evs[0], t)) + Flag(GoesUnrecorded(s, evs[0], t)));
    }
  }

  /** A command is applied once, plus once for each time its record was lost or never made. */
  lemma AppliedOncePerMemory(s: System, evs: seq<Event>, t: Bytes)
    requires Sound(s) && s.pc.Idle? && s.applied == []
    ensures Applies(Run(s, evs).applied, t) <= 1 + Losses(s, evs, t) + Unrecorded(s, evs, t)
  {
    RunStaysPaid(s, evs, t, 0);
  }

  /** The bound is met: when the store fails, the retry the ACK asks for applies the command again. */
  lemma FailedStoreAppliesAgain(j: Store, h: Counters, m: Message, e: Env, m': Message, e': Env)
    requires Valid(j) && Handle(j, h, m, e).applied.Some?
    requires e.storeLock && !StoreTransaction(j, true, Entry(Gate(m, e.now).c.tid, Gate(m, e.now).c.hash, e.ack), e.store).1
    requires Gate(m', e'.now) == Gate(m, e.now) && e'.decideLock
    ensures var o := Handle(j, h, m, e);
            o.sent == Some(Notice(Gate(m, e.now).c.tid, false, DurabilityFailure))
            && Handle(o.j, o.h, m', e').applied == o.applied
  {
  }
}
