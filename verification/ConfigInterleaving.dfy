/**
 * The receiver among the other tasks: what it publishes against what the journal
 * holds, and what a redelivery does.
 */
module ConfigInterleaving {
  import opened Common
  import opened JournalModel
  import JournalProperties
  import opened Commands
  import opened ConfigModel
  import opened ConfigProperties

  // ---- The whole call --------------------------------------------------------------------------

  /** The four steps of a call that is never interrupted. */
  function WholeCall(m: Message, e: Env): seq<Event> {
    [Deliver(m, e.now, e.decideLock), Apply(e.applyOk, e.ack), Record(e.storeLock, e.store), Publish]
  }

  lemma FourSteps(s: System, evs: seq<Event>)
    requires Sound(s) && |evs| == 4
    ensures Run(s, evs) == Step(Step(Step(Step(s, evs[0]), evs[1]), evs[2]), evs[3])
  {
    var a, b, c := evs[1..], evs[2..], evs[3..];
    assert a[1..] == b && b[1..] == c && c[1..] == [];
    var s1 := Step(s, evs[0]);
    var s2 := Step(s1, evs[1]);
    var s3 := Step(s2, evs[2]);
    assert Run(s, evs) == Run(s1, a) == Run(s2, b) == Run(s3, c);
    assert Run(s3, c) == Run(Step(s3, evs[3]), []);
  }

  function Appended<T>(s: seq<T>, x: Option<T>): seq<T> {
    if x.Some? then s + [x.value] else s
  }

  predicate IsNew(s: System, m: Message, e: Env) {
    Gate(m, e.now).Passed? && Decide(s.j, e.decideLock, Gate(m, e.now).c.tid, Gate(m, e.now).c.hash).New?
  }

  /** A message that is refused, replayed or none of ours is dealt with in the first step. */
  lemma DeclinedAtOnce(s: System, m: Message, e: Env)
    requires Sound(s) && s.pc.Idle? && !IsNew(s, m, e)
    ensures var o := Handle(s.j, s.h, m, e);
            Step(s, Deliver(m, e.now, e.decideLock))
            == System(o.j, Idle, o.h, Appended(s.applied, o.applied), Appended(s.sent, o.sent))
  {
  }

  lemma NothingUnderWay(s: System, e: Env)
    requires Sound(s) && s.pc.Idle?
    ensures Step(Step(Step(s, Apply(e.applyOk, e.ack)), Record(e.storeLock, e.store)), Publish) == s
  {
  }

  /** What the call makes of a new command, from the counters after its arrival. */
  function Carried(s: System, h: Counters, c: Command, e: Env): System
    requires Valid(s.j)
  {
    var (j', durable) := StoreTransaction(s.j, e.storeLock, Entry(c.tid, c.hash, e.ack), e.store);
    var (h', p) := Conclude(h, c, e.applyOk, e.ack, durable);
    System(j', Idle, h', s.applied + [c], s.sent + [p])
  }

  /** The steps after the decision. */
  lemma CarriedOut(s: System, e: Env)
    requires Sound(s) && s.pc.Decided?
    ensures Step(Step(Step(s, Apply(e.applyOk, e.ack)), Record(e.storeLock, e.store)), Publish)
         == Carried(s, s.h, s.pc.c, e)
  {
  }

  lemma NewIsCarried(s: System, m: Message, e: Env)
    requires Sound(s) && s.pc.Idle? && IsNew(s, m, e)
    ensures var h := s.h.(received := s.h.received + 1);
            var c := Gate(m, e.now).c;
            var o := Handle(s.j, s.h, m, e);
            && Step(s, Deliver(m, e.now, e.decideLock)) == s.(pc := Decided(c), h := h)
            && Carried(s, h, c, e) == System(o.j, Idle, o.h, Appended(s.applied, o.applied), Appended(s.sent, o.sent))
  {
  }

  /** Stepping through a call without interruption is calling the receiver. */
  lemma UninterruptedIsHandle(s: System, m: Message, e: Env)
    requires Sound(s) && s.pc.Idle?
    ensures var o := Handle(s.j, s.h, m, e);
            Run(s, WholeCall(m, e)) == System(o.j, Idle, o.h, Appended(s.applied, o.applied), Appended(s.sent, o.sent))
  {
    FourSteps(s, WholeCall(m, e));
    var s1 := Step(s, Deliver(m, e.now, e.decideLock));
    if IsNew(s, m, e) {
      NewIsCarried(s, m, e);
      CarriedOut(s1, e);
    } else {
      DeclinedAtOnce(s, m, e);
      NothingUnderWay(s1, e);
    }
  }

  // ---- The journal over a run ------------------------------------------------------------------

  predicate Powered(evs: seq<Event>) {
    forall k | 0 <= k < |evs| :: !evs[k].PowerFails?
  }

  /** The journal calls made along a run: those of other tasks, and the receiver's own. */
  function Calls(s: System, evs: seq<Event>): seq<JournalProperties.Op>
    requires Sound(s)
    decreases evs
  {
    if evs == [] then []
    else
      var op := CallOf(s, evs[0]);
      (if op.Some? then [op.value] else []) + Calls(Step(s, evs[0]), evs[1..])
  }

  lemma StepIsCall(s: System, ev: Event)
    requires Sound(s) && !ev.PowerFails?
    ensures var op := CallOf(s, ev);
            Step(s, ev).j == if op.Some? then JournalProperties.Effect(s.j, op.value).0 else s.j
  {
  }

  lemma RunCons(j: Store, op: JournalProperties.Op, ops: seq<JournalProperties.Op>)
    requires Valid(j)
    ensures JournalProperties.Run(j, [op] + ops) == JournalProperties.Run(JournalProperties.Effect(j, op).0, ops)
  {
    assert ([op] + ops)[1..] == ops;
  }

  lemma {:induction false} RunIsCalls(s: System, evs: seq<Event>)
    requires Sound(s) && Powered(evs)
    ensures Run(s, evs).j == JournalProperties.Run(s.j, Calls(s, evs))
    decreases evs
  {
    if evs != [] {
      StepIsCall(s, evs[0]);
      RunIsCalls(Step(s, evs[0]), evs[1..]);
      var op, rest := CallOf(s, evs[0]), Calls(Step(s, evs[0]), evs[1..]);
      if op.Some? {
        RunCons(s.j, op.value, rest);
      } else {
        assert [] + rest == rest;
      }
    }
  }

  // ---- Recorded against published ----------------------------------------------------------------

  /** What RAM and flash hold of a command recorded under its own text. */
  predicate Whole(n: Option<JournalProperties.Held>, c: Command, ack: Bytes) {
    n == Some(JournalProperties.Held(Entry(c.tid, c.hash, ack), Committed(Stored(Entry(c.tid, c.hash, ack)))))
  }

  /** The journal call of the receiver, for a transaction of which it holds n. */
  lemma RecordIff(j: Store, c: Command, ack: Bytes, locked: bool, w: Writes)
    requires Valid(j) && JournalProperties.Single(j, c.tid)
    ensures var n := JournalProperties.Seen(j, c.tid);
            var (j', durable) := StoreTransaction(j, locked, Entry(c.tid, c.hash, ack), w);
            && (durable <==> locked && if n.None? then w == Writes(Done, Done) else n.value.e.hash == c.hash)
            && (durable && n.None? ==> Whole(JournalProperties.Seen(j', c.tid), c, ack))
            && (n.Some? ==> JournalProperties.Seen(j', c.tid) == n)
  {
    JournalProperties.SeenStep(j, JournalProperties.StoreOp(locked, Entry(c.tid, c.hash, ack), w), c.tid);
  }

  lemma ReplaysWhatItHolds(j: Store, c: Command, ack: Bytes)
    requires Valid(j)
    ensures var n := JournalProperties.Seen(j, c.tid);
            && (Decide(j, true, c.tid, c.hash) == Duplicate(ack) <==> n.Some? && n.value.e == Entry(c.tid, c.hash, ack))
            && (Decide(j, true, c.tid, c.hash) == New <==> n.None?)
  {
  }

  /** Between the decision and the record: the apply step, and calls of other tasks. */
  predicate Meanwhile(evs: seq<Event>) {
    forall k | 0 <= k < |evs| :: evs[k].Apply? || evs[k].Other?
  }

  lemma {:induction false} MeanwhileKeeps(s: System, evs: seq<Event>)
    requires Sound(s) && Meanwhile(evs) && !s.pc.Idle? && !s.pc.Recorded?
    ensures var r := Run(s, evs);
            r.sent == s.sent && (r.pc.Decided? || r.pc.Applied?) && r.pc.c == s.pc.c
    decreases evs
  {
    if evs != [] {
      MeanwhileKeeps(Step(s, evs[0]), evs[1..]);
    }
  }

  /** What other tasks have made the journal hold of a new command by the time it is recorded. */
  lemma HeldAtRecord(s: System, m: Message, now: u32, evs: seq<Event>)
    requires Sound(s) && s.pc.Idle? && Gate(m, now).Passed? && !Known(s, Gate(m, now).c.tid) && Meanwhile(evs)
    ensures var c := Gate(m, now).c;
            var s1 := Step(s, Deliver(m, now, true));
            var r := Run(s1, evs);
            && (r.pc.Decided? || r.pc.Applied?) && r.pc.c == c && r.sent == s.sent
            && JournalProperties.Single(r.j, c.tid)
            && JournalProperties.Seen(r.j, c.tid) == JournalProperties.History(s.j, Calls(s1, evs), c.tid, None)
  {
    var c := Gate(m, now).c;
    var s1 := Step(s, Deliver(m, now, true));
    assert s1.pc == Decided(c) && s1.j == s.j && s1.sent == s.sent;
    MeanwhileKeeps(s1, evs);
    RunIsCalls(s1, evs);
    JournalProperties.SeenIsHistory(s.j, Calls(s1, evs), c.tid);
  }

  /**
   * THE RACE WITH THE EXECUTOR. A new command is applied, and recorded and answered
   * afterwards; other tasks use the journal meanwhile. `n` is what their calls alone have
   * made the journal hold of the transaction by then. If they left nothing, the record is
   * made as one would expect. If they left an entry, under the same hash, the receiver is told
   * that its record is durable and publishes its own text, and the journal keeps theirs: the
   * published text is the one recorded, and the one replayed, exactly if it is the same text,
   * and it is in flash exactly if their last write completed.
   */
  lemma PublishedIsRecordedIff(s: System, m: Message, now: u32, evs: seq<Event>, locked: bool, w: Writes)
    requires Sound(s) && s.pc.Idle? && Gate(m, now).Passed? && !Known(s, Gate(m, now).c.tid) && Meanwhile(evs)
    requires Run(Step(s, Deliver(m, now, true)), evs).pc.Applied?
    ensures var c := Gate(m, now).c;
            var s1 := Step(s, Deliver(m, now, true));
            var r := Run(s1, evs);
            var n := JournalProperties.History(s.j, Calls(s1, evs), c.tid, None);
            var p := Step(Step(r, Record(locked, w)), Publish);
            var durable := locked && if n.None? then w == Writes(Done, Done) else n.value.e.hash == c.hash;
            && p.pc.Idle?
            && p.sent == s.sent + [if durable then Text(r.pc.ack) else Notice(c.tid, false, DurabilityFailure)]
            && (durable ==>
                  && (Decide(p.j, true, c.tid, c.hash) == Duplicate(r.pc.ack) <==> n.None? || n.value.e.ack == r.pc.ack)
                  && (Whole(JournalProperties.Seen(p.j, c.tid), c, r.pc.ack) <==> n.None? || Whole(n, c, r.pc.ack)))
  {
    HeldAtRecord(s, m, now, evs);
    RecordedThenPublished(Run(Step(s, Deliver(m, now, true)), evs), locked, w);
  }

  /** The record and the publication, from what the journal holds of the command by then. */
  lemma RecordedThenPublished(r: System, locked: bool, w: Writes)
    requires Sound(r) && r.pc.Applied? && JournalProperties.Single(r.j, r.pc.c.tid)
    requires var n := JournalProperties.Seen(r.j, r.pc.c.tid); n.Some? ==> n.value.e.id == r.pc.c.tid
    ensures var c := r.pc.c;
            var n := JournalProperties.Seen(r.j, c.tid);
            var p := Step(Step(r, Record(locked, w)), Publish);
            var durable := locked && if n.None? then w == Writes(Done, Done) else n.value.e.hash == c.hash;
            && p.pc.Idle?
            && p.sent == r.sent + [if durable then Text(r.pc.ack) else Notice(c.tid, false, DurabilityFailure)]
            && (durable ==>
                  && (Decide(p.j, true, c.tid, c.hash) == Duplicate(r.pc.ack) <==> n.None? || n.value.e.ack == r.pc.ack)
                  && (Whole(JournalProperties.Seen(p.j, c.tid), c, r.pc.ack) <==> n.None? || Whole(n, c, r.pc.ack)))
  {
    var p := Step(Step(r, Record(locked, w)), Publish);
    RecordIff(r.j, r.pc.c, r.pc.ack, locked, w);
    ReplaysWhatItHolds(p.j, r.pc.c, r.pc.ack);
  }

  /** Within fifteen insertions other tasks have left nothing of t exactly if none of them put it in. */
  lemma LeftNothingIff(j: Store, ops: seq<JournalProperties.Op>, t: Bytes)
    requires Valid(j) && Find(j.ram, t).None? && JournalProperties.Insertions(j, ops) <= 15
    ensures JournalProperties.History(j, ops, t, None).None?
       <==> forall k | 0 <= k < |ops| :: !JournalProperties.Puts(ops[k], t)
  {
    JournalProperties.SeenIsHistory(j, ops, t);
    JournalProperties.HeldIffPut(j, ops, t);
  }

  // ---- Replayed against published ----------------------------------------------------------------

  /** A redelivery, after any traffic without a power failure, is answered from the history of the journal calls. */
  lemma ReplayIsHistory(s: System, evs: seq<Event>, m: Message, now: u32)
    requires Sound(s) && Powered(evs) && Run(s, evs).pc.Idle? && Gate(m, now).Passed?
    requires JournalProperties.Single(s.j, Gate(m, now).c.tid)
    ensures var c := Gate(m, now).c;
            var n := JournalProperties.History(s.j, Calls(s, evs), c.tid, JournalProperties.Seen(s.j, c.tid));
            var q := Run(s, evs);
            var r := Step(q, Deliver(m, now, true));
            if n.None? then r.pc == Decided(c) && r.sent == q.sent
            else r.pc.Idle? && r.sent == q.sent + [if n.value.e.hash != c.hash then Notice(c.tid, false, Conflicting)
                                                   else if n.value.e.ack == [] then Notice(c.tid, true, AlreadyDone)
                                                   else Text(n.value.e.ack)]
  {
    var c := Gate(m, now).c;
    RunIsCalls(s, evs);
    JournalProperties.SeenIsHistory(s.j, Calls(s, evs), c.tid);
  }

  /** What the journal holds of a command once the receiver's own call has answered `durable`. */
  function AfterRecord(n: Option<JournalProperties.Held>, c: Command, ack: Bytes): Option<JournalProperties.Held> {
    if n.Some? then n
    else Some(JournalProperties.Held(Entry(c.tid, c.hash, ack), Committed(Stored(Entry(c.tid, c.hash, ack)))))
  }

  predicate Repeats(q: System, m: Message, now: u32, ack: Bytes)
    requires Sound(q)
  {
    Step(q, Deliver(m, now, true)).sent == q.sent + [Text(ack)]
  }

  lemma LastDiffers<T>(s: seq<T>, a: T, b: T)
    ensures s + [a] == s + [b] <==> a == b
    ensures s != s + [a]
  {
    assert (s + [a])[|s|] == a && (s + [b])[|s|] == b;
  }

  lemma RepeatsIff(s: System, evs: seq<Event>, m: Message, now: u32, ack: Bytes)
    requires Sound(s) && Powered(evs) && Run(s, evs).pc.Idle? && Gate(m, now).Passed? && ack != []
    requires JournalProperties.Single(s.j, Gate(m, now).c.tid)
    ensures var c := Gate(m, now).c;
            var n := JournalProperties.History(s.j, Calls(s, evs), c.tid, JournalProperties.Seen(s.j, c.tid));
            Repeats(Run(s, evs), m, now, ack) <==> n.Some? && n.value.e.hash == c.hash && n.value.e.ack == ack
  {
    var c := Gate(m, now).c;
    var n := JournalProperties.History(s.j, Calls(s, evs), c.tid, JournalProperties.Seen(s.j, c.tid));
    var sent := Run(s, evs).sent;
    ReplayIsHistory(s, evs, m, now);
    if n.Some? {
      LastDiffers(sent, if n.value.e.hash != c.hash then Notice(c.tid, false, Conflicting)
                        else if n.value.e.ack == [] then Notice(c.tid, true, AlreadyDone)
                        else Text(n.value.e.ack), Text(ack));
    } else {
      LastDiffers(sent, Text(ack), Text(ack));
    }
  }

  lemma RecordHolds(r: System, locked: bool, w: Writes)
    requires Sound(r) && r.pc.Applied? && JournalProperties.Single(r.j, r.pc.c.tid)
    requires Step(r, Record(locked, w)).pc.durable
    ensures var b := Step(r, Record(locked, w));
            JournalProperties.Single(b.j, r.pc.c.tid)
            && JournalProperties.Seen(b.j, r.pc.c.tid)
               == AfterRecord(JournalProperties.Seen(r.j, r.pc.c.tid), r.pc.c, r.pc.ack)
  {
    var e := Entry(r.pc.c.tid, r.pc.c.hash, r.pc.ack);
    JournalProperties.SeenStep(r.j, JournalProperties.StoreOp(locked, e, w), r.pc.c.tid);
    RecordIff(r.j, r.pc.c, r.pc.ack, locked, w);
  }

  lemma {:induction false} SentGrows(s: System, evs: seq<Event>)
    requires Sound(s)
    ensures s.sent <= Run(s, evs).sent
    decreases evs
  {
    if evs != [] {
      assert s.sent <= Step(s, evs[0]).sent;
      SentGrows(Step(s, evs[0]), evs[1..]);
    }
  }

  /** A receiver told that its record is durable publishes its text before it is idle again. */
  lemma {:induction false} PublishesText(s: System, evs: seq<Event>)
    requires Sound(s) && s.pc.Recorded? && s.pc.durable && Powered(evs) && Run(s, evs).pc.Idle?
    ensures s.sent + [Text(s.pc.ack)] <= Run(s, evs).sent
    decreases evs
  {
    if evs[0].Publish? {
      SentGrows(Step(s, evs[0]), evs[1..]);
    } else {
      PublishesText(Step(s, evs[0]), evs[1..]);
    }
  }

  /**
   * From the first delivery to any later one, over all the traffic in between: the redelivery
   * repeats the text published for the first exactly if that is the text of the entry which the
   * journal calls, the receiver's among them, have left.
   */
  lemma PublishedIsReplayedIff(s: System, m: Message, now: u32, evs: seq<Event>, locked: bool, w: Writes,
                               later: seq<Event>, m': Message, now': u32)
    requires Sound(s) && s.pc.Idle? && Gate(m, now).Passed? && !Known(s, Gate(m, now).c.tid) && Meanwhile(evs)
    requires var r := Run(Step(s, Deliver(m, now, true)), evs);
             r.pc.Applied? && r.pc.ack != [] && Step(r, Record(locked, w)).pc.durable
             && Run(Step(r, Record(locked, w)), later).pc.Idle?
    requires Powered(later) && Gate(m', now') == Gate(m, now)
    ensures var c := Gate(m, now).c;
            var s1 := Step(s, Deliver(m, now, true));
            var r := Run(s1, evs);
            var b := Step(r, Record(locked, w));
            var q := Run(b, later);
            var n := JournalProperties.History(s.j, Calls(s1, evs), c.tid, None);
            var n' := JournalProperties.History(b.j, Calls(b, later), c.tid, AfterRecord(n, c, r.pc.ack));
            && s.sent + [Text(r.pc.ack)] <= q.sent
            && (Repeats(q, m', now', r.pc.ack) <==> n'.Some? && n'.value.e.hash == c.hash && n'.value.e.ack == r.pc.ack)
  {
    var r := Run(Step(s, Deliver(m, now, true)), evs);
    HeldAtRecord(s, m, now, evs);
    RecordHolds(r, locked, w);
    PublishesText(Step(r, Record(locked, w)), later);
    RepeatsIff(Step(r, Record(locked, w)), later, m', now', r.pc.ack);
  }

  // ---- The race happens --------------------------------------------------------------------------

  lemma TwoSteps(s: System, a: Event, b: Event)
    requires Sound(s)
    ensures Run(s, [a, b]) == Step(Step(s, a), b)
    ensures Calls(s, [a, b]) == (var x, y := CallOf(s, a), CallOf(Step(s, a), b);
                                 (if x.Some? then [x.value] else []) + (if y.Some? then [y.value] else []))
  {
    assert [a, b][1..] == [b] && [b][1..] == [];
    assert Run(Step(s, a), [b]) == Run(Step(Step(s, a), b), []);
    assert Calls(Step(s, a), [b]) == (var y := CallOf(Step(s, a), b); (if y.Some? then [y.value] else []) + []);
  }

  /**
   * From any idle state in which a command is new: its terminal outcome is recorded by the
   * executor before the receiver records that it was queued. "Queued" is published as
   * recorded, and every redelivery is answered with the outcome.
   */
  lemma TerminalOvertakesQueued(s: System, m: Message, now: u32, ok: bool, queued: Bytes, terminal: Bytes, w: Writes)
    requires Sound(s) && s.pc.Idle? && Gate(m, now).Passed? && !Known(s, Gate(m, now).c.tid) && queued != terminal
    ensures var c := Gate(m, now).c;
            var outcome := Other(JournalProperties.UpdateOp(true, Entry(c.tid, c.hash, terminal), Writes(Done, Done)));
            var r := Run(Step(s, Deliver(m, now, true)), [Apply(ok, queued), outcome]);
            var p := Step(Step(r, Record(true, w)), Publish);
            p.sent == s.sent + [Text(queued)] && Decide(p.j, true, c.tid, c.hash) == Duplicate(terminal)
  {
    var c := Gate(m, now).c;
    var e := Entry(c.tid, c.hash, terminal);
    var op := JournalProperties.UpdateOp(true, e, Writes(Done, Done));
    var s1 := Step(s, Deliver(m, now, true));
    assert s1.pc == Decided(c) && s1.j == s.j && s1.sent == s.sent;
    var r := Run(s1, [Apply(ok, queued), Other(op)]);
    TwoSteps(s1, Apply(ok, queued), Other(op));
    assert r == s1.(pc := Applied(c, ok, queued), applied := s1.applied + [c], j := JournalProperties.Effect(s.j, op).0);
    JournalProperties.UnseenStep(s.j, op, c.tid);
    RecordedThenPublished(r, true, w);
    RecordIff(r.j, c, queued, true, w);
    ReplaysWhatItHolds(Step(Step(r, Record(true, w)), Publish).j, c, terminal);
  }

  /** And the record need not be in flash: a second update of the executor, cut short, has torn it by then. */
  lemma PublishedWithoutRecord(s: System, ok: bool, queued: Bytes, first: Bytes, second: Bytes, w: Writes)
    requires Sound(s) && s.pc.Applied? && !Known(s, s.pc.c.tid)
    ensures var c := s.pc.c;
            var s1 := Step(s, Other(JournalProperties.UpdateOp(true, Entry(c.tid, c.hash, first), Writes(Done, Done))));
            var s2 := Step(s1, Other(JournalProperties.UpdateOp(true, Entry(c.tid, c.hash, second), Writes(Done, Lost))));
            var p := Step(Step(s2, Record(true, w)), Publish);
            var n := JournalProperties.Seen(p.j, c.tid);
            p.sent == s.sent + [Text(s.pc.ack)] && n.Some? && n.value.slot == Torn(Stored(Entry(c.tid, c.hash, second)))
  {
    var c := s.pc.c;
    var op1 := JournalProperties.UpdateOp(true, Entry(c.tid, c.hash, first), Writes(Done, Done));
    var op2 := JournalProperties.UpdateOp(true, Entry(c.tid, c.hash, second), Writes(Done, Lost));
    var s1 := Step(s, Other(op1));
    var s2 := Step(s1, Other(op2));
    JournalProperties.UnseenStep(s.j, op1, c.tid);
    JournalProperties.SeenStep(s1.j, op2, c.tid);
    RecordedThenPublished(s2, true, w);
    RecordIff(s2.j, c, s.pc.ack, true, w);
  }

  // ---- What a redelivery applies ---------------------------------------------------------------

  lemma RedeliveryAppliesIff(s: System, m: Message, now: u32, locked: bool, ok: bool, ack: Bytes)
    requires Sound(s) && s.pc.Idle? && Gate(m, now).Passed?
    ensures var t := Gate(m, now).c.tid;
            var r := Step(Step(s, Deliver(m, now, locked)), Apply(ok, ack));
            Applies(r.applied, t) == Applies(s.applied, t) + Flag(locked && !Known(s, t))
  {
    var c := Gate(m, now).c;
    AppliesSnoc(s.applied, c, c.tid);
    var s1 := Step(s, Deliver(m, now, locked));
    assert s1.pc == Decided(c) <==> locked && !Known(s, c.tid);
  }

  /**
   * Whatever was running, and wherever in a journal call the power went: the command delivered
   * again after the reboot is applied again exactly if the journal can be asked and the loader
   * does not find the transaction.
   */
  lemma RebootAppliesAgainIff(s: System, cut: Option<JournalProperties.Op>, opens: bool, m: Message, now: u32,
                              locked: bool, ok: bool, ack: Bytes)
    requires Sound(s) && Gate(m, now).Passed?
    ensures var t := Gate(m, now).c.tid;
            var r := Step(Step(Step(s, PowerFails(cut, opens)), Deliver(m, now, locked)), Apply(ok, ack));
            Applies(r.applied, t) == Applies(s.applied, t)
              + Flag(locked && !(opens && JournalProperties.Remembered(JournalProperties.SlotsLeft(s.j, cut), t)))
  {
    JournalProperties.FoundAfterBootIff(JournalProperties.SlotsLeft(s.j, cut), opens, Gate(m, now).c.tid);
    RedeliveryAppliesIff(Step(s, PowerFails(cut, opens)), m, now, locked, ok, ack);
  }

  /**
   * Without a reboot: the command just applied is applied again by the next delivery exactly if
   * the journal can then be asked, had no entry of it, and the record was not made.
   */
  lemma RetryAppliesAgainIff(s: System, locked: bool, w: Writes, m: Message, now: u32, asked: bool, ok: bool, ack: Bytes)
    requires Sound(s) && s.pc.Applied? && Gate(m, now) == Passed(s.pc.c)
    ensures var t := s.pc.c.tid;
            var p := Step(Step(s, Record(locked, w)), Publish);
            var r := Step(Step(p, Deliver(m, now, asked)), Apply(ok, ack));
            Applies(r.applied, t)
              == Applies(s.applied, t) + Flag(asked && !Known(s, t) && !(locked && w == Writes(Done, Done)))
  {
    var c := s.pc.c;
    var p := Step(Step(s, Record(locked, w)), Publish);
    RecordKnownIff(s.j, c, s.pc.ack, locked, w);
    RedeliveryAppliesIff(p, m, now, asked, ok, ack);
  }

  lemma RecordKnownIff(j: Store, c: Command, ack: Bytes, locked: bool, w: Writes)
    requires Valid(j)
    ensures Find(StoreTransaction(j, locked, Entry(c.tid, c.hash, ack), w).0.ram, c.tid).Some?
       <==> Find(j.ram, c.tid).Some? || (locked && w == Writes(Done, Done))
  {
    if locked && Find(j.ram, c.tid).None? && w == Writes(Done, Done) {
      RecordIsKnown(j, locked, Entry(c.tid, c.hash, ack), w);
    }
  }

  // ---- Counters over any run -------------------------------------------------------------------

  /** The counters account for every message received but the one under way. */
  predicate Balanced(s: System) {
    s.h.accepted + s.h.rejected + s.h.duplicates + Flag(!s.pc.Idle?) == s.h.received
  }

  /** A message is counted accepted exactly when its outcome, good and durable, is published. */
  lemma StepBalances(s: System, ev: Event)
    requires Sound(s) && Balanced(s)
    ensures Balanced(Step(s, ev))
    ensures Step(s, ev).h.accepted > s.h.accepted <==> ev.Publish? && s.pc.Recorded? && s.pc.ok && s.pc.durable
    ensures ev.PowerFails? ==> Step(s, ev).h == Counters(0, 0, 0, 0)
  {
  }

  /**
   * Over any interleaving, power failures included: every message received since the last one is
   * counted as accepted, rejected or duplicate, or is under way.
   */
  lemma {:induction false} RunBalances(s: System, evs: seq<Event>)
    requires Sound(s) && Balanced(s)
    ensures Balanced(Run(s, evs))
    decreases evs
  {
    if evs != [] {
      StepBalances(s, evs[0]);
      RunBalances(Step(s, evs[0]), evs[1..]);
    }
  }
}
