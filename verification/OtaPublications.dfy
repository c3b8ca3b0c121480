/** What the OTA handler publishes: for a new command, and for every redelivery of it. */
module OtaPublications {
  import opened Common
  import opened JournalModel
  import JournalProperties
  import opened Commands
  import opened OtaModel
  import opened OtaProperties

  // ---- One call ----------------------------------------------------------------------------

  /** The command is new and its reservation is made. */
  predicate Reserves(j: Store, m: Message, e: Env)
    requires Valid(j)
  {
    Gate(m, e.now).Passed? && (
      var c := Gate(m, e.now).c;
      && Decide(j, e.decideLock, c.tid, c.hash) == New
      && StoreTransaction(j, e.storeLock, Entry(c.tid, c.hash, e.reservedAck), e.reserve).1)
  }

  /** The manager is asked: a start for this firmware with all three fields, or a check with a url. */
  predicate Asks(c: Command) {
    if c.start then
      (c.job.target == "" || c.job.target == "modular") && c.job.url != "" && c.job.fwVersion != "" && c.job.sha256 != ""
    else c.job.url != ""
  }

  lemma ConcludeAnswers(j: Store, h: Counters, c: Command, e: Env)
    requires Valid(j)
    requires var f := Find(j.ram, c.tid); f.Some? && j.ram[f.value].value.hash == c.hash
    ensures var o := Conclude(j, h, c, e);
            && o.invoked == (if Asks(c) then Some(c.tid) else None)
            && o.sent == Some(Text(if Asks(c) && e.begins then e.acceptedAck else e.refusedAck))
            && o.h.started == h.started + Flag(Asks(c) && e.begins)
            && (e.updateLock && e.settle == Writes(Done, Done) ==>
                  Decide(o.j, true, c.tid, c.hash) == Duplicate(o.sent.value.ack))
  {
    SettledAnswers(j, c, if Asks(c) && e.begins then e.acceptedAck else e.refusedAck, e.updateLock, e.settle);
  }

  /**
   * Of a reserved command the acceptance text is published exactly if the manager was asked and
   * accepted, and the refusal text otherwise; once the terminal update is made, every redelivery
   * is answered with that text.
   */
  lemma AcceptedTextIff(j: Store, h: Counters, m: Message, e: Env)
    requires Valid(j) && Reserves(j, m, e)
    ensures var c := Gate(m, e.now).c;
            var o := Handle(j, h, m, e);
            && o.invoked == (if Asks(c) then Some(c.tid) else None)
            && o.sent == Some(Text(if Asks(c) && e.begins then e.acceptedAck else e.refusedAck))
            && o.h.started == h.started + Flag(Asks(c) && e.begins)
            && (e.updateLock && e.settle == Writes(Done, Done) ==>
                  Decide(o.j, true, c.tid, c.hash) == Duplicate(o.sent.value.ack))
  {
    var c := Gate(m, e.now).c;
    var (j1, _) := StoreTransaction(j, e.storeLock, Entry(c.tid, c.hash, e.reservedAck), e.reserve);
    ReservationIsKnown(j, e.storeLock, Entry(c.tid, c.hash, e.reservedAck), e.reserve);
    HandlePassed(j, h, m, e);
    ConcludeAnswers(j1, h.(received := h.received + 1), c, e);
  }

  lemma SettledAnswers(j: Store, c: Command, ack: Bytes, locked: bool, w: Writes)
    requires Valid(j)
    requires var f := Find(j.ram, c.tid); f.Some? && j.ram[f.value].value.hash == c.hash
    ensures locked && w == Writes(Done, Done) ==>
      Decide(UpdateAck(j, locked, Entry(c.tid, c.hash, ack), w).0, true, c.tid, c.hash) == Duplicate(ack)
  {
    var i := Find(j.ram, c.tid).value;
    if locked && w == Writes(Done, Done) {
      FindFirst(UpdateAck(j, locked, Entry(c.tid, c.hash, ack), w).0.ram, c.tid, i);
    }
  }

  /** Nothing is asked of the manager, and no text of a new command published, without a reservation. */
  lemma UnreservedDoesNothing(j: Store, h: Counters, m: Message, e: Env)
    requires Valid(j) && !Reserves(j, m, e)
    ensures var o := Handle(j, h, m, e);
            && o.invoked == None && o.h.started == h.started
            && (o.sent.Some? && o.sent.value.Text? ==>
                  Gate(m, e.now).Passed? && o.h.duplicates == h.duplicates + 1 && o.j == j)
  {
  }

  // ---- The whole call ----------------------------------------------------------------------

  /** The five steps of a call that is never interrupted. */
  function WholeCall(m: Message, e: Env): seq<Event> {
    [Deliver(m, e.now, e.decideLock), Reserve(e.storeLock, e.reserve, e.reservedAck),
     Launch(e.begins, e.acceptedAck, e.refusedAck), Settle(e.updateLock, e.settle), Publish]
  }

  function Appended<T>(s: seq<T>, x: Option<T>): seq<T> {
    if x.Some? then s + [x.value] else s
  }

  function FourOn(s: System, e: Env): (r: System)
    requires Sound(s)
    ensures Sound(r)
  {
    Step(Step(Step(Step(s, Reserve(e.storeLock, e.reserve, e.reservedAck)),
                   Launch(e.begins, e.acceptedAck, e.refusedAck)), Settle(e.updateLock, e.settle)), Publish)
  }

  lemma FiveSteps(s: System, m: Message, e: Env)
    requires Sound(s)
    ensures Run(s, WholeCall(m, e)) == FourOn(Step(s, Deliver(m, e.now, e.decideLock)), e)
  {
    var evs := WholeCall(m, e);
    assert Run(s, evs) == Run(Step(s, evs[0]), evs[1..]);
    FourSteps(Step(s, evs[0]), evs[1..]);
  }

  predicate IsNew(s: System, m: Message, e: Env) {
    Gate(m, e.now).Passed? && Decide(s.j, e.decideLock, Gate(m, e.now).c.tid, Gate(m, e.now).c.hash).New?
  }

  /** A message that is refused, replayed or none of ours is dealt with in the first step. */
  lemma DeclinedAtOnce(s: System, m: Message, e: Env)
    requires Sound(s) && s.pc.Idle? && !IsNew(s, m, e)
    ensures var o := Handle(s.j, s.h, m, e);
            Step(s, Deliver(m, e.now, e.decideLock))
            == System(o.j, Idle, o.h, Appended(s.invoked, o.invoked), Appended(s.sent, o.sent))
  {
  }

  lemma NothingUnderWay(s: System, e: Env)
    requires Sound(s) && s.pc.Idle?
    ensures FourOn(s, e) == s
  {
  }

  /** What the call makes of a reserved command. */
  function Carried(s: System, c: Command, e: Env): System
    requires Valid(s.j)
  {
    var o := Conclude(s.j, s.h, c, e);
    System(o.j, Idle, o.h, Appended(s.invoked, o.invoked), Appended(s.sent, o.sent))
  }

  lemma CarriedOut(s: System, e: Env)
    requires Sound(s) && s.pc.Reserved?
    ensures Step(Step(Step(s, Launch(e.begins, e.acceptedAck, e.refusedAck)), Settle(e.updateLock, e.settle)), Publish)
         == Carried(s, s.pc.c, e)
  {
  }

  lemma NewIsCarried(s: System, m: Message, e: Env)
    requires Sound(s) && s.pc.Idle? && IsNew(s, m, e)
    ensures var c := Gate(m, e.now).c;
            var o := Handle(s.j, s.h, m, e);
            var s1 := s.(pc := Decided(c), h := s.h.(received := s.h.received + 1));
            var s2 := Step(s1, Reserve(e.storeLock, e.reserve, e.reservedAck));
            && Step(s, Deliver(m, e.now, e.decideLock)) == s1
            && System(o.j, Idle, o.h, Appended(s.invoked, o.invoked), Appended(s.sent, o.sent))
               == (if s2.pc.Reserved? then Carried(s2, c, e) else s2)
            && (s2.pc.Idle? || s2.pc == Reserved(c))
  {
  }

  /** Stepping through a call without interruption is calling the handler. */
  lemma UninterruptedIsHandle(s: System, m: Message, e: Env)
    requires Sound(s) && s.pc.Idle?
    ensures var o := Handle(s.j, s.h, m, e);
            Run(s, WholeCall(m, e)) == System(o.j, Idle, o.h, Appended(s.invoked, o.invoked), Appended(s.sent, o.sent))
  {
    FiveSteps(s, m, e);
    var s1 := Step(s, Deliver(m, e.now, e.decideLock));
    if IsNew(s, m, e) {
      NewIsCarried(s, m, e);
      var s2 := Step(s1, Reserve(e.storeLock, e.reserve, e.reservedAck));
      if s2.pc.Reserved? {
        CarriedOut(s2, e);
      }
    } else {
      DeclinedAtOnce(s, m, e);
      NothingUnderWay(s1, e);
    }
  }

  // ---- Replayed against published ------------------------------------------------------------

  predicate Repeats(q: System, m: Message, now: u32, ack: Bytes)
    requires Sound(q)
  {
    Step(q, Deliver(m, now, true)).sent == q.sent + [Text(ack)]
  }

  lemma LastDiffers<T>(s: seq<T>, a: T, b: T)
    ensures s + [a] == s + [b] <==> a == b
    ensures s != s + [a]
  {
    assert (s + [a])[|s|] == a && (s + [b])[|s|] == b;
  }

  /** A redelivery, after any traffic without a power failure, is answered from the history of the journal calls. */
  lemma ReplayIsHistory(s: System, evs: seq<Event>, m: Message, now: u32)
    requires Sound(s) && Powered(evs) && Run(s, evs).pc.Idle? && Gate(m, now).Passed?
    requires JournalProperties.Single(s.j, Gate(m, now).c.tid)
    ensures var c := Gate(m, now).c;
            var n := JournalProperties.History(s.j, Calls(s, evs), c.tid, JournalProperties.Seen(s.j, c.tid));
            var q := Run(s, evs);
            var r := Step(q, Deliver(m, now, true));
            if n.None? then r.pc == Decided(c) && r.sent == q.sent
            else r.pc.Idle? && r.sent == q.sent + [if n.value.e.hash != c.hash then Notice(c.tid, false, Conflicting)
                                                   else if n.value.e.ack == [] then Notice(c.tid, true, AlreadyDone)
                                                   else Text(n.value.e.ack)]
  {
    RunIsCalls(s, evs);
    JournalProperties.SeenIsHistory(s.j, Calls(s, evs), Gate(m, now).c.tid);
  }

  lemma RepeatsIff(s: System, evs: seq<Event>, m: Message, now: u32, ack: Bytes)
    requires Sound(s) && Powered(evs) && Run(s, evs).pc.Idle? && Gate(m, now).Passed? && ack != []
    requires JournalProperties.Single(s.j, Gate(m, now).c.tid)
    ensures var c := Gate(m, now).c;
            var n := JournalProperties.History(s.j, Calls(s, evs), c.tid, JournalProperties.Seen(s.j, c.tid));
            Repeats(Run(s, evs), m, now, ack) <==> n.Some? && n.value.e.hash == c.hash && n.value.e.ack == ack
  {
    var c := Gate(m, now).c;
    var n := JournalProperties.History(s.j, Calls(s, evs), c.tid, JournalProperties.Seen(s.j, c.tid));
    ReplayIsHistory(s, evs, m, now);
    if n.Some? {
      LastDiffers(Run(s, evs).sent, if n.value.e.hash != c.hash then Notice(c.tid, false, Conflicting)
                                    else if n.value.e.ack == [] then Notice(c.tid, true, AlreadyDone)
                                    else Text(n.value.e.ack), Text(ack));
    } else {
      LastDiffers(Run(s, evs).sent, Text(ack), Text(ack));
    }
  }

  lemma {:induction false} SentGrows(s: System, evs: seq<Event>)
    requires Sound(s)
    ensures s.sent <= Run(s, evs).sent
    decreases evs
  {
    if evs != [] {
      assert s.sent <= Step(s, evs[0]).sent;
      SentGrows(Step(s, evs[0]), evs[1..]);
    }
  }

  /** After the terminal update the handler publishes its text before it is idle again. */
  lemma {:induction false} PublishesText(s: System, evs: seq<Event>)
    requires Sound(s) && s.pc.Acking? && Powered(evs) && Run(s, evs).pc.Idle?
    ensures s.sent + [Text(s.pc.ack)] <= Run(s, evs).sent
    decreases evs
  {
    if evs[0].Publish? {
      SentGrows(Step(s, evs[0]), evs[1..]);
    } else {
      PublishesText(Step(s, evs[0]), evs[1..]);
    }
  }

  lemma SettlesInJournal(r: System, locked: bool, w: Writes)
    requires Sound(r) && r.pc.Ran? && JournalProperties.Single(r.j, r.pc.c.tid)
    ensures var c := r.pc.c;
            var op := JournalProperties.UpdateOp(locked, Entry(c.tid, c.hash, r.pc.ack), w);
            var b := Step(r, Settle(locked, w));
            && b.pc == Acking(c, r.pc.ok, r.pc.ack) && JournalProperties.Single(b.j, c.tid)
            && JournalProperties.Seen(b.j, c.tid)
               == JournalProperties.SeenAfter(JournalProperties.Seen(r.j, c.tid), op, c.tid, false)
  {
    var c := r.pc.c;
    JournalProperties.SeenStep(r.j, JournalProperties.UpdateOp(locked, Entry(c.tid, c.hash, r.pc.ack), w), c.tid);
  }

  /**
   * From the first delivery of a new command to any later one, over all the traffic in between:
   * the handler publishes the text of its settlement, and the redelivery repeats it exactly if
   * that is the text the journal calls, the settlement among them, have left.
   */
  lemma PublishedIsReplayedIff(s: System, m: Message, now: u32, evs: seq<Event>, locked: bool, w: Writes,
                               later: seq<Event>, m': Message, now': u32)
    requires Sound(s) && s.pc.Idle? && Gate(m, now).Passed? && !Known(s, Gate(m, now).c.tid) && Powered(evs)
    requires var r := Run(Step(s, Deliver(m, now, true)), evs);
             r.pc.Ran? && r.pc.c == Gate(m, now).c && r.pc.ack != [] && Run(Step(r, Settle(locked, w)), later).pc.Idle?
    requires Powered(later) && Gate(m', now') == Gate(m, now)
    ensures var c := Gate(m, now).c;
            var s1 := Step(s, Deliver(m, now, true));
            var r := Run(s1, evs);
            var b := Step(r, Settle(locked, w));
            var q := Run(b, later);
            var op := JournalProperties.UpdateOp(locked, Entry(c.tid, c.hash, r.pc.ack), w);
            var before := JournalProperties.History(s.j, Calls(s1, evs), c.tid, None);
            var n := JournalProperties.SeenAfter(before, op, c.tid, false);
            var n' := JournalProperties.History(b.j, Calls(b, later), c.tid, n);
            && r.sent + [Text(r.pc.ack)] <= q.sent
            && (Repeats(q, m', now', r.pc.ack) <==> n'.Some? && n'.value.e.hash == c.hash && n'.value.e.ack == r.pc.ack)
  {
    var c := Gate(m, now).c;
    var s1 := Step(s, Deliver(m, now, true));
    assert s1.j == s.j;
    var r := Run(s1, evs);
    RunIsCalls(s1, evs);
    JournalProperties.SeenIsHistory(s.j, Calls(s1, evs), c.tid);
    SettlesInJournal(r, locked, w);
    PublishesText(Step(r, Settle(locked, w)), later);
    RepeatsIff(Step(r, Settle(locked, w)), later, m', now', r.pc.ack);
  }

  // ---- Counters over any run -----------------------------------------------------------------

  /** A start meant for another firmware. */
  predicate Misdirected(c: Command) {
    c.start && c.job.target !in {"", "modular"}
  }

  /** What the call under way has still to count: nothing once it is started or found misdirected. */
  function Uncounted(pc: Pc): nat {
    match pc
    case Idle => 0
    case Decided(_) => 1
    case Reserved(_) => 1
    case Ran(c, ok, _) => if ok || Misdirected(c) then 0 else 1
    case Acking(c, ok, _) => if ok || Misdirected(c) then 0 else 1
  }

  /** The counters account for every message received, and for `twice` rejections too many. */
  predicate Balanced(s: System, twice: nat) {
    && s.h.started + s.h.rejected + s.h.duplicates + Uncounted(s.pc) == s.h.received + twice
    && ((s.pc.Ran? || s.pc.Acking?) && s.pc.ok ==> !Misdirected(s.pc.c))
  }

  /** The rejection of a misdirected start is counted a second time when its answer goes out. */
  function TwiceAfter(s: System, ev: Event, twice: nat): nat {
    if ev.PowerFails? then 0
    else if ev.Publish? && s.pc.Acking? && Misdirected(s.pc.c) then twice + 1
    else twice
  }

  function Twice(s: System, evs: seq<Event>, twice: nat): nat
    requires Sound(s)
    decreases evs
  {
    if evs == [] then twice else Twice(Step(s, evs[0]), evs[1..], TwiceAfter(s, evs[0], twice))
  }

  lemma StepBalances(s: System, ev: Event, twice: nat)
    requires Sound(s) && Balanced(s, twice)
    ensures Balanced(Step(s, ev), TwiceAfter(s, ev, twice))
  {
  }

  /**
   * Over any interleaving: since the last power failure every message received is counted as
   * started, rejected or duplicate, or is under way; misdirected starts are rejected twice.
   */
  lemma {:induction false} RunBalances(s: System, evs: seq<Event>, twice: nat)
    requires Sound(s) && Balanced(s, twice)
    ensures Balanced(Run(s, evs), Twice(s, evs, twice))
    decreases evs
  {
    if evs != [] {
      StepBalances(s, evs[0], twice);
      RunBalances(Step(s, evs[0]), evs[1..], TwiceAfter(s, evs[0], twice));
    }
  }
}
