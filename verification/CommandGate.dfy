/** Which messages the two handlers let through, and what their age has to do with it. */
module CommandGate {
  import opened Common
  import opened JournalModel
  import opened Commands
  import ConfigModel
  import OtaModel

  // ---- Well-formed commands ----------------------------------------------------------------

  /** Lower case, upper case, digits, hyphen and underscore. */
  lemma IdAlphabet(c: bv8)
    ensures IdByte(c) <==> (97 <= c <= 122) || (65 <= c <= 90) || (48 <= c <= 57) || c == 45 || c == 95
  {
  }

  predicate Identifier(t: Bytes) {
    1 <= |t| <= 64 && forall i | 0 <= i < |t| ::
      (97 <= t[i] <= 122) || (65 <= t[i] <= 90) || (48 <= t[i] <= 57) || t[i] == 45 || t[i] == 95
  }

  lemma ValidIdIff(t: Bytes)
    ensures ValidId(t) <==> Identifier(t)
  {
    forall i | 0 <= i < |t|
      ensures IdByte(t[i]) <==> (97 <= t[i] <= 122) || (65 <= t[i] <= 90) || (48 <= t[i] <= 57) || t[i] == 45 || t[i] == 95
    {
      IdAlphabet(t[i]);
    }
  }

  /** Protocol version 1, a transaction id, a request id unless it is empty, and a window of validity. */
  predicate Wellformed(d: Document) {
    && d.version == Some(1)
    && Identifier(d.tid)
    && (d.requestId != [] ==> Identifier(d.requestId))
    && d.issuedAt.Some? && d.expiresAt.Some? && 0 < d.issuedAt.value < d.expiresAt.value
  }

  /** With a clock the window decides; without one only what does not energize anything is let through. */
  predicate InTime(d: Document, now: u32, energizing: bool)
    requires d.expiresAt.Some?
  {
    if now == 0 then !energizing else now <= d.expiresAt.value
  }

  lemma EnvelopeIff(d: Document)
    ensures ValidId(d.tid) && ValidVersion(d) && EnvelopeComplete(d) <==> Wellformed(d)
  {
    ValidIdIff(d.tid);
    ValidIdIff(d.requestId);
  }

  lemma ExpiredIff(d: Document, now: u32, energizing: bool)
    requires Wellformed(d)
    ensures Expired(d, now, energizing) <==> !InTime(d, now, energizing)
  {
  }

  /** A body of acceptable size that parses. */
  predicate Readable(len: nat, doc: Option<Document>) {
    1 <= len <= 16384 && doc.Some?
  }

  // ---- The configuration receiver ------------------------------------------------------------

  predicate SwitchesOn(d: Document) {
    d.kind == "relay" && (d.action == "on" || d.action == "pulse")
  }

  /** A configuration message in which nothing but its age can be wrong. */
  predicate ConfigSound(m: ConfigModel.Message) {
    && m.topic && Readable(m.len, m.doc)
    && var d := m.doc.value;
       d.kind != "" && d.action != "" && Wellformed(d) && d.known && d.fieldsAllowed && d.hash.Some?
  }

  /** It is let through exactly if it is sound and in time. */
  lemma ConfigPassesIff(m: ConfigModel.Message, now: u32)
    ensures ConfigModel.Gate(m, now).Passed? <==>
            ConfigSound(m) && InTime(m.doc.value, now, SwitchesOn(m.doc.value))
    ensures ConfigModel.Gate(m, now).Passed? ==>
            ConfigModel.Gate(m, now).c == ConfigModel.Command(m.doc.value.tid, m.doc.value.hash.value)
  {
    if m.doc.Some? {
      EnvelopeIff(m.doc.value);
      if Wellformed(m.doc.value) {
        ExpiredIff(m.doc.value, now, SwitchesOn(m.doc.value));
      }
    }
  }

  /** Passing at one time, a message passes at every earlier one; refused for its age, it stays refused. */
  lemma ConfigAges(m: ConfigModel.Message, early: u32, late: u32)
    requires 0 < early <= late
    ensures ConfigModel.Gate(m, late).Passed? ==> ConfigModel.Gate(m, early) == ConfigModel.Gate(m, late)
    ensures ConfigSound(m) && !ConfigModel.Gate(m, early).Passed? ==>
            ConfigModel.Gate(m, late) == ConfigModel.Refused(m.doc.value.tid, Rejected)
  {
    ConfigPassesIff(m, early);
    ConfigPassesIff(m, late);
  }

  /** Without a clock a message passes exactly if it switches nothing on and would have passed when it was issued. */
  lemma ConfigWithoutClock(m: ConfigModel.Message)
    requires m.doc.Some? && m.doc.value.issuedAt.Some?
    ensures ConfigModel.Gate(m, 0).Passed? <==>
            !SwitchesOn(m.doc.value) && m.doc.value.issuedAt.value != 0
            && ConfigModel.Gate(m, m.doc.value.issuedAt.value).Passed?
  {
    ConfigPassesIff(m, 0);
    ConfigPassesIff(m, m.doc.value.issuedAt.value);
  }

  /** Whatever a call applies is sound, and in time by the clock if there is one; nothing is switched on without. */
  lemma ConfigAppliesInTime(j: Store, h: ConfigModel.Counters, m: ConfigModel.Message, e: ConfigModel.Env)
    requires Valid(j) && ConfigModel.Handle(j, h, m, e).applied.Some?
    ensures ConfigSound(m)
    ensures if e.now == 0 then !SwitchesOn(m.doc.value) else e.now <= m.doc.value.expiresAt.value
  {
    ConfigPassesIff(m, e.now);
  }

  /** What a message that is not let through is answered with; a foreign topic gets no answer. */
  lemma ConfigRefusalIff(j: Store, h: ConfigModel.Counters, m: ConfigModel.Message, e: ConfigModel.Env)
    requires Valid(j) && !ConfigModel.Gate(m, e.now).Passed?
    ensures var o := ConfigModel.Handle(j, h, m, e);
            && o.j == j && o.applied == None
            && o.h == h.(received := h.received + 1, rejected := h.rejected + 1)
            && (o.sent.None? <==> !m.topic)
            && (m.topic ==>
                  var tid := if Readable(m.len, m.doc) then m.doc.value.tid else [];
                  var aged := Readable(m.len, m.doc) && m.doc.value.kind != "" && m.doc.value.action != ""
                              && Wellformed(m.doc.value)
                              && !(InTime(m.doc.value, e.now, SwitchesOn(m.doc.value)) && m.doc.value.known
                                   && m.doc.value.fieldsAllowed);
                  o.sent == Some(Notice(tid, false, if aged then Rejected else BadSchema)))
  {
    if m.doc.Some? {
      EnvelopeIff(m.doc.value);
      if Wellformed(m.doc.value) {
        ExpiredIff(m.doc.value, e.now, SwitchesOn(m.doc.value));
      }
    }
  }

  // ---- The OTA handler -------------------------------------------------------------------------

  predicate OtaSound(m: OtaModel.Message) {
    && m.topic && Readable(m.len, m.doc)
    && var d := m.doc.value;
       d.kind == "ota" && (d.action == "start" || d.action == "check") && Wellformed(d) && d.fieldsAllowed && d.hash.Some?
  }

  lemma OtaPassesIff(m: OtaModel.Message, now: u32)
    ensures OtaModel.Gate(m, now).Passed? <==> OtaSound(m) && InTime(m.doc.value, now, m.doc.value.action == "start")
    ensures OtaModel.Gate(m, now).Passed? ==>
            var d := m.doc.value;
            OtaModel.Gate(m, now).c == OtaModel.Command(d.tid, d.hash.value, d.action == "start", m.job)
  {
    if m.doc.Some? {
      EnvelopeIff(m.doc.value);
      if Wellformed(m.doc.value) {
        ExpiredIff(m.doc.value, now, m.doc.value.action == "start");
      }
    }
  }

  lemma OtaAges(m: OtaModel.Message, early: u32, late: u32)
    requires 0 < early <= late
    ensures OtaModel.Gate(m, late).Passed? ==> OtaModel.Gate(m, early) == OtaModel.Gate(m, late)
    ensures OtaSound(m) && !OtaModel.Gate(m, early).Passed? ==>
            OtaModel.Gate(m, late) == OtaModel.Refused(m.doc.value.tid, Rejected)
  {
    OtaPassesIff(m, early);
    OtaPassesIff(m, late);
  }

  lemma OtaWithoutClock(m: OtaModel.Message)
    requires m.doc.Some? && m.doc.value.issuedAt.Some?
    ensures OtaModel.Gate(m, 0).Passed? <==>
            m.doc.value.action != "start" && m.doc.value.issuedAt.value != 0
            && OtaModel.Gate(m, m.doc.value.issuedAt.value).Passed?
  {
    OtaPassesIff(m, 0);
    OtaPassesIff(m, m.doc.value.issuedAt.value);
  }

  /** Whatever the OTA manager is invoked for is sound and in time, and no download starts without a clock. */
  lemma OtaInvokesInTime(j: Store, h: OtaModel.Counters, m: OtaModel.Message, e: OtaModel.Env)
    requires Valid(j) && OtaModel.Handle(j, h, m, e).invoked.Some?
    ensures OtaSound(m)
    ensures if e.now == 0 then m.doc.value.action == "check" else e.now <= m.doc.value.expiresAt.value
  {
    OtaPassesIff(m, e.now);
  }

  lemma OtaRefusalIff(j: Store, h: OtaModel.Counters, m: OtaModel.Message, e: OtaModel.Env)
    requires Valid(j) && !OtaModel.Gate(m, e.now).Passed?
    ensures var o := OtaModel.Handle(j, h, m, e);
            && o.j == j && o.invoked == None
            && o.h == h.(received := h.received + 1, rejected := h.rejected + 1)
            && (o.sent.None? <==> !m.topic)
            && (m.topic ==>
                  var readable := Readable(m.len, m.doc);
                  var ours := readable && m.doc.value.kind == "ota" && m.doc.value.action in {"start", "check"};
                  var aged := ours && Wellformed(m.doc.value)
                              && !(InTime(m.doc.value, e.now, m.doc.value.action == "start") && m.doc.value.fieldsAllowed);
                  o.sent == Some(Notice(if readable then m.doc.value.tid else [], false,
                                        if readable && (!ours || aged) then Rejected else BadSchema)))
  {
    if m.doc.Some? {
      EnvelopeIff(m.doc.value);
      if Wellformed(m.doc.value) {
        ExpiredIff(m.doc.value, e.now, m.doc.value.action == "start");
      }
    }
  }

  // ---- Past the gate ---------------------------------------------------------------------------

  /** How a command that is not carried out for what the journal says is answered. */
  lemma ConfigDeclinesIff(j: Store, h: ConfigModel.Counters, m: ConfigModel.Message, e: ConfigModel.Env)
    requires Valid(j) && ConfigModel.Gate(m, e.now).Passed?
    ensures var c := ConfigModel.Gate(m, e.now).c;
            var o := ConfigModel.Handle(j, h, m, e);
            var held := Find(j.ram, c.tid);
            && (o.applied.Some? <==> e.decideLock && held.None?)
            && (!e.decideLock <==> o.sent == Some(Notice(c.tid, false, JournalUnavailable)))
            && (e.decideLock && held.Some? && j.ram[held.value].value.hash != c.hash
                <==> o.sent == Some(Notice(c.tid, false, Conflicting)))
            && (e.decideLock && held.Some? && j.ram[held.value].value.hash == c.hash ==>
                  o.h.duplicates == h.duplicates + 1
                  && o.sent == Some(if j.ram[held.value].value.ack == [] then Notice(c.tid, true, AlreadyDone)
                                    else Text(j.ram[held.value].value.ack)))
            && (o.applied.Some? && !(e.storeLock && e.store == Writes(Done, Done))
                <==> o.sent == Some(Notice(c.tid, false, DurabilityFailure)))
            && (o.h.accepted == h.accepted + 1
                <==> o.applied.Some? && e.applyOk && e.storeLock && e.store == Writes(Done, Done))
  {
  }

  lemma OtaDeclinesIff(j: Store, h: OtaModel.Counters, m: OtaModel.Message, e: OtaModel.Env)
    requires Valid(j) && OtaModel.Gate(m, e.now).Passed?
    ensures var c := OtaModel.Gate(m, e.now).c;
            var o := OtaModel.Handle(j, h, m, e);
            var held := Find(j.ram, c.tid);
            var unheld := e.decideLock && held.None?;
            && (!e.decideLock <==> o.sent == Some(Notice(c.tid, false, JournalUnavailable)))
            && (e.decideLock && held.Some? && j.ram[held.value].value.hash != c.hash
                <==> o.sent == Some(Notice(c.tid, false, Conflicting)))
            && (e.decideLock && held.Some? && j.ram[held.value].value.hash == c.hash ==>
                  o.h.duplicates == h.duplicates + 1
                  && o.sent == Some(if j.ram[held.value].value.ack == [] then Notice(c.tid, true, AlreadyDone)
                                    else Text(j.ram[held.value].value.ack)))
            && (unheld && !(e.storeLock && e.reserve == Writes(Done, Done))
                <==> o.sent == Some(Notice(c.tid, false, DurabilityFailure)))
  {
  }
}
