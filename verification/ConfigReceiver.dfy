/** The configuration command receiver: apply, then record, then acknowledge. */
module ConfigModel {
  import opened Common
  import opened JournalModel
  import JournalProperties
  import opened Commands

  datatype Message = Message(topic: bool, len: nat, doc: Option<Document>)

  datatype Command = Command(tid: Bytes, hash: Bytes)

  datatype Verdict = Foreign | Refused(tid: Bytes, code: Code) | Passed(c: Command)

  predicate Energizing(d: Document) {
    d.kind == "relay" && (d.action == "on" || d.action == "pulse")
  }

  function Gate(m: Message, now: u32): Verdict {
    if !m.topic then Foreign
    else if m.len == 0 || m.len > MAX_BODY then Refused([], BadSchema)
    else if m.doc.None? then Refused([], BadSchema)
    else
      var d := m.doc.value;
      if d.kind == "" || d.action == "" then Refused(d.tid, BadSchema)
      else if !ValidId(d.tid) then Refused(d.tid, BadSchema)
      else if !ValidVersion(d) then Refused(d.tid, BadSchema)
      else if !EnvelopeComplete(d) then Refused(d.tid, BadSchema)
      else if Expired(d, now, Energizing(d)) then Refused(d.tid, Rejected)
      else if !d.known then Refused(d.tid, Rejected)
      else if !d.fieldsAllowed then Refused(d.tid, Rejected)
      else if d.hash.None? then Refused(d.tid, BadSchema)
      else Passed(Command(d.tid, d.hash.value))
  }

  datatype Counters = Counters(received: nat, accepted: nat, rejected: nat, duplicates: nat)

  /** `applyOk` and `ack`: the verdict of the apply step and the ACK text rendered from it. */
  datatype Env = Env(now: u32, decideLock: bool, storeLock: bool, store: Writes, applyOk: bool, ack: Bytes)

  /** `applied`: the command whose apply step ran during the call. */
  datatype Outcome = Outcome(j: Store, h: Counters, sent: Option<Publication>, applied: Option<Command>)

  function Reject(h: Counters): Counters {
    h.(rejected := h.rejected + 1)
  }

  /** The reply to a command the journal does not call new. */
  function Decline(h: Counters, c: Command, d: Decision): (Counters, Publication)
    requires !d.New?
  {
    match d
    case Unavailable => (Reject(h), Notice(c.tid, false, JournalUnavailable))
    case Conflict => (Reject(h), Notice(c.tid, false, Conflicting))
    case Duplicate(ack) =>
      (h.(duplicates := h.duplicates + 1), if ack == [] then Notice(c.tid, true, AlreadyDone) else Text(ack))
  }

  /** The reply to a command that was applied: its text once recorded, else the durability failure. */
  function Conclude(h: Counters, c: Command, ok: bool, ack: Bytes, durable: bool): (Counters, Publication) {
    if !durable then (Reject(h), Notice(c.tid, false, DurabilityFailure))
    else (if ok then h.(accepted := h.accepted + 1) else Reject(h), Text(ack))
  }

  function Respond(j: Store, h: Counters, c: Command, e: Env): (o: Outcome)
    requires Valid(j)
    ensures Valid(o.j)
  {
    var d := Decide(j, e.decideLock, c.tid, c.hash);
    if d.New? then
      var (j', durable) := StoreTransaction(j, e.storeLock, Entry(c.tid, c.hash, e.ack), e.store);
      var (h', p) := Conclude(h, c, e.applyOk, e.ack, durable);
      Outcome(j', h', Some(p), Some(c))
    else
      var (h', p) := Decline(h, c, d);
      Outcome(j, h', Some(p), None)
  }

  function Handle(j: Store, h: Counters, m: Message, e: Env): (o: Outcome)
    requires Valid(j)
    ensures Valid(o.j)
  {
    var h := h.(received := h.received + 1);
    match Gate(m, e.now)
    case Foreign => Outcome(j, Reject(h), None, None)
    case Refused(tid, code) => Outcome(j, Reject(h), Some(Notice(tid, false, code)), None)
    case Passed(c) => Respond(j, h, c, e)
  }

  // ---- Interleaved with the other tasks and with power failures ----------------------------

  /** Where the receiver stands: `ack` is the text rendered from the verdict `ok` of the apply step. */
  datatype Pc =
    | Idle
    | Decided(c: Command)
    | Applied(c: Command, ok: bool, ack: Bytes)
    | Recorded(c: Command, ok: bool, ack: Bytes, durable: bool)

  /** `applied` and `sent`: every apply step and every publication since the first boot. */
  datatype System = System(j: Store, pc: Pc, h: Counters, applied: seq<Command>, sent: seq<Publication>)

  /**
   * The four steps of a call, a journal call of another task, and a restart while a
   * journal call may be under way, cut short after any of its writes.
   */
  datatype Event =
    | Deliver(m: Message, now: u32, locked: bool)
    | Apply(ok: bool, ack: Bytes)
    | Record(locked: bool, w: Writes)
    | Publish
    | Other(op: JournalProperties.Op)
    | PowerFails(cut: Option<JournalProperties.Op>, opens: bool)

  ghost predicate Sound(s: System) {
    Valid(s.j)
  }

  function Send(s: System, h: Counters, p: Publication): System {
    s.(pc := Idle, h := h, sent := s.sent + [p])
  }

  /** The checks, and the question to the journal. */
  function Receive(s: System, m: Message, now: u32, locked: bool): System {
    var h := s.h.(received := s.h.received + 1);
    match Gate(m, now)
    case Foreign => s.(h := Reject(h))
    case Refused(tid, code) => Send(s, Reject(h), Notice(tid, false, code))
    case Passed(c) =>
      var d := Decide(s.j, locked, c.tid, c.hash);
      if d.New? then s.(pc := Decided(c), h := h)
      else
        var (h', p) := Decline(h, c, d);
        Send(s, h', p)
  }

  /** The journal call an event makes, if any. */
  function CallOf(s: System, ev: Event): Option<JournalProperties.Op> {
    match ev
    case Record(locked, w) =>
      if s.pc.Applied? then Some(JournalProperties.StoreOp(locked, Entry(s.pc.c.tid, s.pc.c.hash, s.pc.ack), w)) else None
    case Other(op) => Some(op)
    case _ => None
  }

  function StoreRecord(s: System, locked: bool, w: Writes): (r: System)
    requires Sound(s) && s.pc.Applied?
    ensures Sound(r)
  {
    var (j', durable) := StoreTransaction(s.j, locked, Entry(s.pc.c.tid, s.pc.c.hash, s.pc.ack), w);
    s.(j := j', pc := Recorded(s.pc.c, s.pc.ok, s.pc.ack, durable))
  }

  function Step(s: System, ev: Event): (r: System)
    requires Sound(s)
    ensures Sound(r)
  {
    match ev
    case Deliver(m, now, locked) => if s.pc.Idle? then Receive(s, m, now, locked) else s
    case Apply(ok, ack) =>
      if s.pc.Decided? then s.(pc := Applied(s.pc.c, ok, ack), applied := s.applied + [s.pc.c]) else s
    case Record(locked, w) => if s.pc.Applied? then StoreRecord(s, locked, w) else s
    case Publish =>
      if !s.pc.Recorded? then s
      else
        var (h', p) := Conclude(s.h, s.pc.c, s.pc.ok, s.pc.ack, s.pc.durable);
        Send(s, h', p)
    case Other(op) => s.(j := JournalProperties.Effect(s.j, op).0)
    case PowerFails(cut, opens) => Reboot(s, cut, opens)
  }

  function Reboot(s: System, cut: Option<JournalProperties.Op>, opens: bool): (r: System)
    requires Sound(s)
    ensures Sound(r)
  {
    var nvs := JournalProperties.SlotsLeft(s.j, cut);
    BootIsValid(nvs, opens);
    s.(j := Boot(nvs, opens), pc := Idle, h := Counters(0, 0, 0, 0))
  }

  function Run(s: System, evs: seq<Event>): (r: System)
    requires Sound(s)
    ensures Sound(r)
    decreases evs
  {
    if evs == [] then s else Run(Step(s, evs[0]), evs[1..])
  }
}

/** The receiver as the firmware runs it, against the journal object. */
module ConfigReceiver {
  import opened Common
  import opened JournalModel
  import opened Journal
  import opened Commands
  import opened ConfigModel

  class MqttConfigReceiver {
    const journal: TransactionJournal
    var received: nat
    var accepted: nat
    var rejected: nat
    var duplicates: nat

    ghost predicate Valid()
      reads this, journal, journal.ids, journal.hashes, journal.acks, journal.valid
    {
      journal.Valid()
    }

    ghost function View(): Counters
      reads this
    {
      Counters(received, accepted, rejected, duplicates)
    }

    constructor (journal: TransactionJournal)
      requires journal.Valid()
      ensures Valid() && this.journal == journal && View() == Counters(0, 0, 0, 0)
    {
      this.journal := journal;
      received, accepted, rejected, duplicates := 0, 0, 0, 0;
    }

    method Process(c: Command, e: Env) returns (sent: Option<Publication>, applied: Option<Command>)
      requires Valid()
      modifies this, journal, journal.ids, journal.hashes, journal.acks, journal.valid
      ensures Valid()
      ensures Outcome(journal.View(), View(), sent, applied) == Respond(old(journal.View()), old(View()), c, e)
    {
      applied := None;
      var decision := journal.Decide(c.tid, c.hash, e.decideLock);
      if decision.Unavailable? {
        rejected := rejected + 1;
        return Some(Notice(c.tid, false, JournalUnavailable)), None;
      }
      if decision.Duplicate? {
        duplicates := duplicates + 1;
        return Some(if |decision.ack| > 0 then Text(decision.ack) else Notice(c.tid, true, AlreadyDone)), None;
      }
      if decision.Conflict? {
        rejected := rejected + 1;
        return Some(Notice(c.tid, false, Conflicting)), None;
      }
      applied := Some(c);
      var durable := journal.StoreTransaction(Entry(c.tid, c.hash, e.ack), e.storeLock, e.store);
      if !durable {
        rejected := rejected + 1;
        return Some(Notice(c.tid, false, DurabilityFailure)), applied;
      }
      sent := Some(Text(e.ack));
      if e.applyOk {
        accepted := accepted + 1;
      } else {
        rejected := rejected + 1;
      }
    }

    method Handle(m: Message, e: Env) returns (sent: Option<Publication>, applied: Option<Command>)
      requires Valid()
      modifies this, journal, journal.ids, journal.hashes, journal.acks, journal.valid
      ensures Valid()
      ensures Outcome(journal.View(), View(), sent, applied)
           == ConfigModel.Handle(old(journal.View()), old(View()), m, e)
    {
      received := received + 1;
      match Gate(m, e.now)
      case Foreign =>
        rejected := rejected + 1;
        return None, None;
      case Refused(tid, code) =>
        rejected := rejected + 1;
        return Some(Notice(tid, false, code)), None;
      case Passed(c) =>
        sent, applied := Process(c, e);
    }
  }
}
