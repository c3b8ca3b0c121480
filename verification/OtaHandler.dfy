/** The OTA command handler: reserve durably, start the job, settle the record. */
module OtaModel {
  import opened Common
  import opened JournalModel
  import opened JournalProperties
  import opened Commands

  /** `topic`: the message came on this device's own OTA topic. */
  datatype Message = Message(topic: bool, len: nat, doc: Option<Document>, job: Job)

  /** The fields read after the reservation; `target` is trimmed and in lower case. */
  datatype Job = Job(target: string, url: string, fwVersion: string, sha256: string)

  datatype Command = Command(tid: Bytes, hash: Bytes, start: bool, job: Job)

  datatype Verdict = Foreign | Refused(tid: Bytes, code: Code) | Passed(c: Command)

  function Gate(m: Message, now: u32): Verdict {
    if !m.topic then Foreign
    else if m.len == 0 || m.len > MAX_BODY then Refused([], BadSchema)
    else if m.doc.None? then Refused([], BadSchema)
    else
      var d := m.doc.value;
      if d.kind != "ota" || (d.action != "start" && d.action != "check") then Refused(d.tid, Rejected)
      else if !ValidId(d.tid) then Refused(d.tid, BadSchema)
      else if !ValidVersion(d) then Refused(d.tid, BadSchema)
      else if !EnvelopeComplete(d) then Refused(d.tid, BadSchema)
      else if Expired(d, now, d.action == "start") then Refused(d.tid, Rejected)
      else if !d.fieldsAllowed then Refused(d.tid, Rejected)
      else if d.hash.None? then Refused(d.tid, BadSchema)
      else Passed(Command(d.tid, d.hash.value, d.action == "start", m.job))
  }

  predicate WrongTarget(c: Command) {
    c.start && c.job.target != "" && c.job.target != "modular"
  }

  /** The side effect is invoked: beginDownload for start, beginManifestCheck for check. */
  predicate Begins(c: Command) {
    if c.start then !WrongTarget(c) && c.job.url != "" && c.job.fwVersion != "" && c.job.sha256 != ""
    else c.job.url != ""
  }

  datatype Counters = Counters(received: nat, started: nat, rejected: nat, duplicates: nat)

  // ---- One call, uninterrupted ----------------------------------------------------------

  /** Everything outside the handler that one call depends on. */
  datatype Env = Env(
    now: u32, decideLock: bool, storeLock: bool, updateLock: bool, reserve: Writes, settle: Writes,
    begins: bool, reservedAck: Bytes, acceptedAck: Bytes, refusedAck: Bytes)

  datatype Outcome = Outcome(j: Store, h: Counters, sent: Option<Publication>, invoked: Option<Bytes>)

  function Reject(h: Counters): Counters {
    h.(rejected := h.rejected + 1)
  }

  /** The job phase: target, required fields, then the OTA manager's own answer. */
  function Act(c: Command, h: Counters, begins: bool): (Counters, bool) {
    if WrongTarget(c) then (Reject(h), false)
    else if Begins(c) && begins then (h.(started := h.started + 1), true)
    else (h, false)
  }

  /** What follows a successful reservation: the job, the terminal record, the ACK. */
  function Conclude(j: Store, h: Counters, c: Command, e: Env): (o: Outcome)
    requires Valid(j)
    ensures Valid(o.j)
  {
    var (h1, ok) := Act(c, h, e.begins);
    var ack := if ok then e.acceptedAck else e.refusedAck;
    Outcome(UpdateAck(j, e.updateLock, Entry(c.tid, c.hash, ack), e.settle).0, if ok then h1 else Reject(h1),
            Some(Text(ack)), if Begins(c) then Some(c.tid) else None)
  }

  /** The reply to a command the journal does not call new. */
  function Decline(h: Counters, c: Command, d: Decision): (Counters, Publication)
    requires !d.New?
  {
    match d
    case Unavailable => (Reject(h), Notice(c.tid, false, JournalUnavailable))
    case Conflict => (Reject(h), Notice(c.tid, false, Conflicting))
    case Duplicate(ack) =>
      (h.(duplicates := h.duplicates + 1), if ack == [] then Notice(c.tid, true, AlreadyDone) else Text(ack))
  }

  /** What follows once the checks are passed. */
  function Respond(j: Store, h: Counters, c: Command, e: Env): (o: Outcome)
    requires Valid(j)
    ensures Valid(o.j)
  {
    var d := Decide(j, e.decideLock, c.tid, c.hash);
    if d.New? then
      var (j1, reserved) := StoreTransaction(j, e.storeLock, Entry(c.tid, c.hash, e.reservedAck), e.reserve);
      if !reserved then Outcome(j1, Reject(h), Some(Notice(c.tid, false, DurabilityFailure)), None)
      else Conclude(j1, h, c, e)
    else
      var (h', p) := Decline(h, c, d);
      Outcome(j, h', Some(p), None)
  }

  function Handle(j: Store, h: Counters, m: Message, e: Env): (o: Outcome)
    requires Valid(j)
    ensures Valid(o.j)
  {
    var h := h.(received := h.received + 1);
    match Gate(m, e.now)
    case Foreign => Outcome(j, Reject(h), None, None)
    case Refused(tid, code) => Outcome(j, Reject(h), Some(Notice(tid, false, code)), None)
    case Passed(c) => Respond(j, h, c, e)
  }

  lemma HandlePassed(j: Store, h: Counters, m: Message, e: Env)
    requires Valid(j) && Gate(m, e.now).Passed?
    ensures Handle(j, h, m, e) == Respond(j, h.(received := h.received + 1), Gate(m, e.now).c, e)
  {
  }

  lemma HandleRefused(j: Store, h: Counters, m: Message, e: Env)
    requires Valid(j) && !Gate(m, e.now).Passed?
    ensures var v := Gate(m, e.now);
            Handle(j, h, m, e) == Outcome(j, h.(received := h.received + 1, rejected := h.rejected + 1),
                                          if v.Foreign? then None else Some(Notice(v.tid, false, v.code)), None)
  {
  }

  // ---- Interleaved with the other tasks and with power failures ----------------------------

  /** Where the handler stands: `ack` is the text rendered from the answer `ok` to the job. */
  datatype Pc =
    | Idle
    | Decided(c: Command)
    | Reserved(c: Command)
    | Ran(c: Command, ok: bool, ack: Bytes)
    | Acking(c: Command, ok: bool, ack: Bytes)

  /** `invoked` and `sent`: every invocation of the OTA manager and every publication since the first boot. */
  datatype System = System(j: Store, pc: Pc, h: Counters, invoked: seq<Bytes>, sent: seq<Publication>)

  /**
   * The five steps of a call; `Other`: a journal call of another task. `PowerFails`: the
   * device restarts while a journal call may be under way, cut short after any of its writes.
   */
  datatype Event =
    | Deliver(m: Message, now: u32, locked: bool)
    | Reserve(locked: bool, w: Writes, ack: Bytes)
    | Launch(begins: bool, accepted: Bytes, refused: Bytes)
    | Settle(locked: bool, w: Writes)
    | Publish
    | Other(op: Op)
    | PowerFails(cut: Option<Op>, opens: bool)

  ghost predicate Sound(s: System) {
    Valid(s.j)
  }

  function Send(s: System, h: Counters, p: Publication): System {
    s.(pc := Idle, h := h, sent := s.sent + [p])
  }

  /** The checks, and the question to the journal. */
  function Receive(s: System, m: Message, now: u32, locked: bool): System {
    var h := s.h.(received := s.h.received + 1);
    match Gate(m, now)
    case Foreign => s.(h := Reject(h))
    case Refused(tid, code) => Send(s, Reject(h), Notice(tid, false, code))
    case Passed(c) =>
      var d := Decide(s.j, locked, c.tid, c.hash);
      if d.New? then s.(pc := Decided(c), h := h)
      else
        var (h', p) := Decline(h, c, d);
        Send(s, h', p)
  }

  function TryReserve(s: System, locked: bool, w: Writes, ack: Bytes): (r: System)
    requires Sound(s) && s.pc.Decided?
    ensures Sound(r)
  {
    var c := s.pc.c;
    var (j', ok) := StoreTransaction(s.j, locked, Entry(c.tid, c.hash, ack), w);
    if ok then s.(j := j', pc := Reserved(c))
    else Send(s.(j := j'), Reject(s.h), Notice(c.tid, false, DurabilityFailure))
  }

  function RunJob(s: System, begins: bool, accepted: Bytes, refused: Bytes): System
    requires s.pc.Reserved?
  {
    var c := s.pc.c;
    var (h', ok) := Act(c, s.h, begins);
    s.(pc := Ran(c, ok, if ok then accepted else refused), h := h',
       invoked := if Begins(c) then s.invoked + [c.tid] else s.invoked)
  }

  function Step(s: System, ev: Event): (r: System)
    requires Sound(s)
    ensures Sound(r)
  {
    match ev
    case Deliver(m, now, locked) => if s.pc.Idle? then Receive(s, m, now, locked) else s
    case Reserve(locked, w, ack) => if s.pc.Decided? then TryReserve(s, locked, w, ack) else s
    case Launch(begins, accepted, refused) => if s.pc.Reserved? then RunJob(s, begins, accepted, refused) else s
    case Settle(locked, w) =>
      if !s.pc.Ran? then s
      else
        s.(j := UpdateAck(s.j, locked, Entry(s.pc.c.tid, s.pc.c.hash, s.pc.ack), w).0,
           pc := Acking(s.pc.c, s.pc.ok, s.pc.ack))
    case Publish => if s.pc.Acking? then Send(s, if s.pc.ok then s.h else Reject(s.h), Text(s.pc.ack)) else s
    case Other(op) => s.(j := Effect(s.j, op).0)
    case PowerFails(cut, opens) => Reboot(s, cut, opens)
  }

  function Reboot(s: System, cut: Option<Op>, opens: bool): (r: System)
    requires Sound(s)
    ensures Sound(r)
  {
    var nvs := SlotsLeft(s.j, cut);
    BootIsValid(nvs, opens);
    s.(j := Boot(nvs, opens), pc := Idle, h := Counters(0, 0, 0, 0))
  }

  function Run(s: System, evs: seq<Event>): (r: System)
    requires Sound(s)
    ensures Sound(r)
    decreases evs
  {
    if evs == [] then s else Run(Step(s, evs[0]), evs[1..])
  }
}

/** The handler as the firmware runs it, against the journal object. */
module OtaHandler {
  import opened Common
  import opened JournalModel
  import opened Journal
  import opened Commands
  import opened OtaModel

  class MqttOtaHandler {
    const journal: TransactionJournal
    var received: nat
    var started: nat
    var rejected: nat
    var duplicates: nat

    ghost predicate Valid()
      reads this, journal, journal.ids, journal.hashes, journal.acks, journal.valid
    {
      journal.Valid()
    }

    ghost function View(): Counters
      reads this
    {
      Counters(received, started, rejected, duplicates)
    }

    constructor (journal: TransactionJournal)
      requires journal.Valid()
      ensures Valid() && this.journal == journal && View() == Counters(0, 0, 0, 0)
    {
      this.journal := journal;
      received, started, rejected, duplicates := 0, 0, 0, 0;
    }

    /** The job phase of a reserved command; `begins` is the OTA manager's answer if it is invoked. */
    method RunJob(c: Command, begins: bool) returns (ok: bool, invoked: Option<Bytes>)
      modifies this`rejected, this`started
      ensures (View(), ok) == Act(c, old(View()), begins)
      ensures invoked == if Begins(c) then Some(c.tid) else None
    {
      ok, invoked := false, None;
      if c.start {
        if |c.job.target| > 0 && c.job.target != "modular" {
          rejected := rejected + 1;
        } else if c.job.url == "" || c.job.fwVersion == "" || c.job.sha256 == "" {
        } else {
          ok, invoked := begins, Some(c.tid);
          if ok {
            started := started + 1;
          }
        }
      } else if c.job.url == "" {
      } else {
        ok, invoked := begins, Some(c.tid);
        if ok {
          started := started + 1;
        }
      }
    }

    /** From the job to the published ACK of a reserved command. */
    method Finish(c: Command, e: Env) returns (sent: Option<Publication>, invoked: Option<Bytes>)
      requires Valid()
      modifies this, journal, journal.ids, journal.hashes, journal.acks, journal.valid
      ensures Valid()
      ensures Outcome(journal.View(), View(), sent, invoked) == Conclude(old(journal.View()), old(View()), c, e)
    {
      var ok;
      ok, invoked := RunJob(c, e.begins);
      var ack := if ok then e.acceptedAck else e.refusedAck;
      var settled := journal.UpdateAck(Entry(c.tid, c.hash, ack), e.updateLock, e.settle);
      sent := Some(Text(ack));
      if !ok {
        rejected := rejected + 1;
      }
    }

    /** From the journal's decision to the published ACK. */
    method Process(c: Command, e: Env) returns (sent: Option<Publication>, invoked: Option<Bytes>)
      requires Valid()
      modifies this, journal, journal.ids, journal.hashes, journal.acks, journal.valid
      ensures Valid()
      ensures Outcome(journal.View(), View(), sent, invoked) == Respond(old(journal.View()), old(View()), c, e)
    {
      invoked := None;
      var decision := journal.Decide(c.tid, c.hash, e.decideLock);
      if decision.Unavailable? {
        rejected := rejected + 1;
        return Some(Notice(c.tid, false, JournalUnavailable)), None;
      }
      if decision.Duplicate? {
        duplicates := duplicates + 1;
        return Some(if |decision.ack| > 0 then Text(decision.ack) else Notice(c.tid, true, AlreadyDone)), None;
      }
      if decision.Conflict? {
        rejected := rejected + 1;
        return Some(Notice(c.tid, false, Conflicting)), None;
      }
      var durable := journal.StoreTransaction(Entry(c.tid, c.hash, e.reservedAck), e.storeLock, e.reserve);
      if !durable {
        rejected := rejected + 1;
        return Some(Notice(c.tid, false, DurabilityFailure)), None;
      }
      sent, invoked := Finish(c, e);
    }

    method Handle(m: Message, e: Env) returns (sent: Option<Publication>, invoked: Option<Bytes>)
      requires Valid()
      modifies this, journal, journal.ids, journal.hashes, journal.acks, journal.valid
      ensures Valid()
      ensures Outcome(journal.View(), View(), sent, invoked) == OtaModel.Handle(old(journal.View()), old(View()), m, e)
    {
      ghost var j, h := journal.View(), View();
      received := received + 1;
      var verdict := Gate(m, e.now);
      if verdict.Passed? {
        HandlePassed(j, h, m, e);
        sent, invoked := Process(verdict.c, e);
        return;
      }
      HandleRefused(j, h, m, e);
      rejected := rejected + 1;
      return if verdict.Foreign? then None else Some(Notice(verdict.tid, false, verdict.code)), None;
    }
  }
}
