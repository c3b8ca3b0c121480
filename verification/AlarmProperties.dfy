/** What the alarm registry guarantees: per call, over whole runs, and across power loss. */
module AlarmProperties {
  import opened Common
  import opened AlarmModel

  // ---- One raise ----------------------------------------------------------------

  /** `b` is the alarm `a` carried on: same occurrence, same lifecycle, severity not lowered. */
  predicate Carries(b: Alarm, a: Alarm) {
    && b.code == a.code && b.lifecycle == a.lifecycle && Rank(b.severity) >= Rank(a.severity)
    && b.raisedAt == a.raisedAt && b.acknowledgedAt == a.acknowledgedAt
  }

  predicate CarriedIn(alarms: seq<Alarm>, a: Alarm) {
    exists j | 0 <= j < |alarms| :: Carries(alarms[j], a)
  }

  function After(before: seq<Alarm>, e: RaiseEffect): seq<Alarm> {
    if e.Saturated? then before else e.alarms
  }

  lemma RemoveKeepsOthers(alarms: seq<Alarm>, v: nat, i: nat)
    requires v < |alarms| && i < |alarms| && i != v
    ensures alarms[i] in RemoveAt(alarms, v)
  {
    assert RemoveAt(alarms, v)[if i < v then i else i - 1] == alarms[i];
  }

  /**
   * No raise, whatever its code, severity or message, and whether it is stored,
   * merged, admitted by eviction or rejected, loses an active or acknowledged
   * alarm, changes its lifecycle or lowers its severity; the table never
   * exceeds its 24 slots.
   */
  lemma RaiseKeepsLiveAlarms(alarms: seq<Alarm>, code: string, sev: Severity, message: Option<string>, now: u32)
    requires |alarms| <= MAX_ALARMS
    ensures var after := After(alarms, RaiseRam(alarms, code, sev, message, now));
            && |after| <= MAX_ALARMS
            && forall i | 0 <= i < |alarms| && Live(alarms[i]) :: CarriedIn(after, alarms[i])
  {
    var after := After(alarms, RaiseRam(alarms, code, sev, message, now));
    forall i | 0 <= i < |alarms| && Live(alarms[i])
      ensures CarriedIn(after, alarms[i])
    {
      if IndexOf(alarms, code).None? && |alarms| >= MAX_ALARMS && Victim(alarms).Some? {
        var v := Victim(alarms).value;
        RemoveKeepsOthers(alarms, v, i);
        var j :| 0 <= j < |RemoveAt(alarms, v)| && RemoveAt(alarms, v)[j] == alarms[i];
        assert Carries(after[j], alarms[i]);
      } else {
        assert Carries(after[i], alarms[i]);
      }
    }
  }

  predicate LiveWith(alarms: seq<Alarm>, code: string, rank: nat) {
    exists i | 0 <= i < |alarms| :: alarms[i].code == code && Live(alarms[i]) && Rank(alarms[i].severity) >= rank
  }

  /** An accepted raise leaves a live alarm under that code, at least as severe as asked. */
  lemma AcceptedRaiseIsLive(alarms: seq<Alarm>, code: string, sev: Severity, message: Option<string>, now: u32)
    requires |alarms| <= MAX_ALARMS
    requires forall k | 0 <= k < |alarms| :: |alarms[k].code| < CODE_LEN
    ensures var e := RaiseRam(alarms, code, sev, message, now);
            !e.Saturated? ==> LiveWith(e.alarms, Clip(code, CODE_LEN), Rank(sev))
  {
    var e := RaiseRam(alarms, code, sev, message, now);
    if !e.Saturated? {
      match IndexOf(alarms, code)
      case Some(i) =>
        assert e.alarms[i].code == Clip(code, CODE_LEN);
      case None =>
        assert e.alarms[|e.alarms| - 1] == Fresh(code, sev, message, now);
    }
  }

  lemma VictimIsUnique(alarms: seq<Alarm>, i: nat, j: nat)
    requires IsVictim(alarms, i) && IsVictim(alarms, j)
    ensures i == j
  {
  }

  /**
   * A new code on a full table: rejected exactly when nothing is evictable, and
   * then only the overflow counter moves; otherwise the one victim goes, every
   * survivor keeps its place in the order and the newcomer is last.
   */
  lemma FullTableEvictsExactlyTheVictim(
    crc: Crc, r: Registry, code: string, sev: Severity, message: Option<string>, now: u32, e: SaveEnv, v: nat)
    requires |r.alarms| == MAX_ALARMS && IndexOf(r.alarms, code).None?
    ensures var (r', result) := Raise(crc, r, code, sev, message, now, e);
            && (result == Rejected <==> forall k | 0 <= k < MAX_ALARMS :: !Evictable(r.alarms[k]))
            && (result == Rejected ==> r' == r.(overflow := Bump32(r.overflow)))
            && (IsVictim(r.alarms, v) ==>
                  r'.alarms == r.alarms[..v] + r.alarms[v + 1..] + [Fresh(code, sev, message, now)])
  {
    if IsVictim(r.alarms, v) {
      assert Evictable(r.alarms[v]);
      VictimIsUnique(r.alarms, v, Victim(r.alarms).value);
    }
  }

  /** The only cleared entries the scan passes over carry both stamps at all-ones. */
  lemma UnevictableCleared(a: Alarm)
    requires a.lifecycle.Cleared?
    ensures Evictable(a) <==> a.clearedAt != NEVER || a.raisedAt != NEVER
  {
  }

  // ---- One code, one entry --------------------------------------------------------

  predicate Distinct(alarms: seq<Alarm>) {
    forall i, j | 0 <= i < j < |alarms| :: alarms[i].code != alarms[j].code
  }

  /** Stored codes fit the 32-byte field. */
  predicate Short(alarms: seq<Alarm>) {
    forall k | 0 <= k < |alarms| :: |alarms[k].code| < CODE_LEN
  }

  /** The entries a new alarm joins: all of them, or all but the victim. */
  function Survivors(alarms: seq<Alarm>): seq<Alarm> {
    if |alarms| < MAX_ALARMS || Victim(alarms).None? then alarms else RemoveAt(alarms, Victim(alarms).value)
  }

  lemma DistinctSurvivors(alarms: seq<Alarm>)
    requires Distinct(alarms) && Short(alarms)
    ensures Distinct(Survivors(alarms)) && Short(Survivors(alarms))
    ensures forall k | 0 <= k < |Survivors(alarms)| :: Survivors(alarms)[k] in alarms
  {
  }

  lemma UpdateKeepsCodes(alarms: seq<Alarm>, i: nat, a: Alarm)
    requires Distinct(alarms) && Short(alarms) && i < |alarms| && a.code == alarms[i].code
    ensures Distinct(alarms[i := a]) && Short(alarms[i := a])
  {
  }

  /**
   * Codes stay pairwise distinct exactly when the raised code fits the field,
   * or its clipped form is not already held by a surviving entry: a longer code
   * is compared in full but stored clipped, so it never finds itself again.
   */
  lemma RaiseKeepsCodesDistinctIff(alarms: seq<Alarm>, code: string, sev: Severity, message: Option<string>, now: u32)
    requires |alarms| <= MAX_ALARMS && Distinct(alarms) && Short(alarms)
    ensures var e := RaiseRam(alarms, code, sev, message, now);
            && Short(After(alarms, e))
            && (Distinct(After(alarms, e)) <==>
                  e.Saturated? || |code| < CODE_LEN || IndexOf(Survivors(alarms), Clip(code, CODE_LEN)).None?)
  {
    match IndexOf(alarms, code)
    case Some(i) =>
      UpdateKeepsCodes(alarms, i, Refresh(alarms[i], sev, message, now).0);
    case None =>
      DistinctSurvivors(alarms);
      AppendKeepsCodesIff(Survivors(alarms), Fresh(code, sev, message, now));
      if IndexOf(Survivors(alarms), Clip(code, CODE_LEN)).Some? {
        assert Survivors(alarms)[IndexOf(Survivors(alarms), Clip(code, CODE_LEN)).value] in alarms;
      }
  }

  lemma AppendKeepsCodesIff(alarms: seq<Alarm>, a: Alarm)
    requires Distinct(alarms) && Short(alarms) && |a.code| < CODE_LEN
    ensures Short(alarms + [a])
    ensures Distinct(alarms + [a]) <==> IndexOf(alarms, a.code).None?
  {
    match IndexOf(alarms, a.code)
    case None =>
    case Some(k) =>
      assert (alarms + [a])[k].code == (alarms + [a])[|alarms|].code;
  }

  // ---- Save and load ---------------------------------------------------------------

  /** A stored record reads back as the table it was built from. */
  lemma SavedTableReadsBack(crc: Crc, f: Flash, generation: u16, alarms: seq<Alarm>)
    requires |alarms| <= MAX_ALARMS
    ensures Recovered(crc, f.(state := Some(MakeBlob(crc, generation, alarms)))) == alarms
  {
    assert alarms[..|alarms|] == alarms;
  }

  /** Equal but for the refresh time, which rides the periodic checkpoint. */
  predicate SameButRefreshed(a: seq<Alarm>, b: seq<Alarm>) {
    |a| == |b| && forall i | 0 <= i < |a| :: a[i] == b[i].(lastUpdatedAt := a[i].lastUpdatedAt)
  }

  predicate Consistent(crc: Crc, r: Registry) {
    !r.dirty ==> SameButRefreshed(Recovered(crc, r.flash), r.alarms)
  }

  /** A verified save is durable; a failed one leaves the old record or the new one, whole. */
  lemma SaveIsAllOrNothing(crc: Crc, r: Registry, e: SaveEnv)
    requires |r.alarms| <= MAX_ALARMS
    ensures var (r', ok) := Save(crc, r, e);
            && r'.alarms == r.alarms
            && (ok ==> !r'.dirty && Recovered(crc, r'.flash) == r.alarms && r'.generation == Bump16(r.generation))
            && (!ok ==> r'.dirty == r.dirty && r'.generation == r.generation)
            && (r'.flash == r.flash || Recovered(crc, r'.flash) == r.alarms)
            && (Consistent(crc, r) ==> Consistent(crc, r'))
  {
    SavedTableReadsBack(crc, r.flash, Bump16(r.generation), r.alarms);
  }

  /** A saved table the library will not hand out: its header is asked for by a size that is not the record's. */
  predicate Hidden(f: Flash, l: LoadEnv) {
    f.state.Some? && Recognised(f.state.value) && !HeaderRead(f.state.value, l)
  }

  predicate Reads(crc: Crc, f: Flash, l: LoadEnv) {
    && l.opens && !Hidden(f, l)
    && if f.state.Some? && Recognised(f.state.value) then l.memory
       else LegacyTable(crc, f) == [] || LegacyRead(crc, f, l)
  }

  /** What a boot shows. */
  function Shown(crc: Crc, f: Flash, l: LoadEnv): seq<Alarm> {
    if Reads(crc, f, l) then Recovered(crc, f)
    else if l.opens && Hidden(f, l) && LegacyRead(crc, f, l) then LegacyTable(crc, f)
    else []
  }

  /**
   * A boot shows what the flash holds if the namespace opened, the library handed out the
   * record and it could be buffered; a record that is not handed out makes way for the
   * legacy pair, and that may then be saved over it. In every other case the table is empty.
   * The registry starts out marked clean, which is the truth exactly as stated last.
   */
  lemma BootShowsTheFlashIff(crc: Crc, f: Flash, l: LoadEnv, e: SaveEnv)
    ensures var r := Boot(crc, f, l, e);
            && !r.dirty
            && r.alarms == Shown(crc, f, l)
            && (r.flash == f || Recovered(crc, r.flash) == r.alarms)
            && (Consistent(crc, r) <==> Reads(crc, f, l) || r.flash != f
                                        || SameButRefreshed(Recovered(crc, f), Shown(crc, f, l)))
  {
    var shown := Registry(Shown(crc, f, l), false, 0, 0, 0, f);
    SaveIsAllOrNothing(crc, shown, e);
  }

  /** A saved table comes back after a reboot exactly if the library hands out prefixes, or the table is empty. */
  lemma SavedTableBootsIff(crc: Crc, f: Flash, generation: u16, alarms: seq<Alarm>, prefix: bool, e: SaveEnv)
    requires |alarms| <= MAX_ALARMS && f.state == Some(MakeBlob(crc, generation, alarms)) && f.legacy.None?
    ensures var r := Boot(crc, f, LoadEnv(true, true, prefix), e);
            && r.alarms == (if prefix then alarms else [])
            && r.flash == f
            && (Consistent(crc, r) <==> prefix || alarms == [])
  {
    SavedTableReadsBack(crc, f, generation, alarms);
    BootShowsTheFlashIff(crc, f, LoadEnv(true, true, prefix), e);
  }

  /** The first boot of all, on empty flash, starts sound, with an empty table. */
  lemma EmptyFlashBootsSound(crc: Crc, l: LoadEnv, e: SaveEnv)
    ensures var r := Boot(crc, Flash(None, None), l, e);
            Invariant(crc, r) && r.alarms == [] && r.flash == Flash(None, None)
  {
    BootShowsTheFlashIff(crc, Flash(None, None), l, e);
  }

  // ---- Runs -------------------------------------------------------------------------

  datatype Op =
    | OpRaise(code: string, sev: Severity, message: Option<string>, now: u32)
    | OpClear(code: string, now: u32)
    | OpClearIfActive(code: string, now: u32)
    | OpAcknowledge(code: string, now: u32)
    | OpAcknowledgeAll(clock: Clock)
    | OpCheckpoint
    | OpPowerCycle(load: LoadEnv)

  datatype Event = Event(op: Op, env: SaveEnv)

  function Apply(crc: Crc, r: Registry, ev: Event): Registry
    requires |r.alarms| <= MAX_ALARMS
  {
    match ev.op
    case OpRaise(code, sev, message, now) => Raise(crc, r, code, sev, message, now, ev.env).0
    case OpClear(code, now) => Clear(crc, r, code, now, ev.env)
    case OpClearIfActive(code, now) => ClearIfActive(crc, r, code, now, ev.env).0
    case OpAcknowledge(code, now) => Acknowledge(crc, r, code, now, ev.env)
    case OpAcknowledgeAll(clock) => AcknowledgeAll(crc, r, clock, ev.env)
    case OpCheckpoint => Save(crc, r, ev.env).0
    case OpPowerCycle(load) => Boot(crc, r.flash, load, ev.env)
  }

  /** Every code raised fits the field, and boots can read the namespace and the records in it. */
  predicate Ordinary(ev: Event) {
    && (ev.op.OpRaise? ==> |ev.op.code| < CODE_LEN)
    && (ev.op.OpPowerCycle? ==> ev.op.load == LoadEnv(true, true, true))
  }

  predicate Invariant(crc: Crc, r: Registry) {
    && |r.alarms| <= MAX_ALARMS && Distinct(r.alarms) && Short(r.alarms)
    && Distinct(Recovered(crc, r.flash)) && Short(Recovered(crc, r.flash))
    && Consistent(crc, r)
  }

  lemma PersistKeepsInvariant(crc: Crc, r: Registry, alarms: seq<Alarm>, e: SaveEnv)
    requires Invariant(crc, r)
    requires |alarms| <= MAX_ALARMS && Distinct(alarms) && Short(alarms)
    ensures Invariant(crc, Persist(crc, r, alarms, e).0)
    ensures Persist(crc, r, alarms, e).0.alarms == alarms
    ensures var f := Persist(crc, r, alarms, e).0.flash; f == r.flash || Recovered(crc, f) == alarms
  {
    SaveIsAllOrNothing(crc, r.(alarms := alarms, dirty := true), e);
  }

  lemma EntryUpdateKeepsInvariant(crc: Crc, r: Registry, i: nat, a: Alarm, e: SaveEnv)
    requires Invariant(crc, r) && i < |r.alarms| && a.code == r.alarms[i].code
    ensures var r' := Persist(crc, r, r.alarms[i := a], e).0;
            && Invariant(crc, r') && r'.alarms == r.alarms[i := a]
            && (r'.flash == r.flash || Recovered(crc, r'.flash) == r'.alarms)
  {
    UpdateKeepsCodes(r.alarms, i, a);
    PersistKeepsInvariant(crc, r, r.alarms[i := a], e);
  }

  lemma RaiseKeepsInvariant(
    crc: Crc, r: Registry, code: string, sev: Severity, message: Option<string>, now: u32, e: SaveEnv)
    requires Invariant(crc, r) && |code| < CODE_LEN
    ensures var (r', result) := Raise(crc, r, code, sev, message, now, e);
            && Invariant(crc, r')
            && r'.alarms == After(r.alarms, RaiseRam(r.alarms, code, sev, message, now))
            && (r'.flash == r.flash || Recovered(crc, r'.flash) == r'.alarms)
  {
    RaiseKeepsCodesDistinctIff(r.alarms, code, sev, message, now);
    RaiseKeepsLiveAlarms(r.alarms, code, sev, message, now);
    match RaiseRam(r.alarms, code, sev, message, now)
    case Saturated =>
    case Touched(alarms) =>
      assert SameButRefreshed(r.alarms, alarms);
    case Changed(alarms) =>
      PersistKeepsInvariant(crc, r, alarms, e);
  }

  /** Clearing and acknowledging change one entry in place. */
  lemma EntryCallKeepsInvariant(crc: Crc, r: Registry, ev: Event)
    requires Invariant(crc, r) && (ev.op.OpClear? || ev.op.OpClearIfActive? || ev.op.OpAcknowledge?)
    ensures var r' := Apply(crc, r, ev);
            && Invariant(crc, r')
            && (r'.flash == r.flash || Recovered(crc, r'.flash) == r'.alarms)
  {
    match IndexOf(r.alarms, ev.op.code)
    case None =>
    case Some(i) =>
      EntryUpdateKeepsInvariant(crc, r, i, ClearAlarm(r.alarms[i], ev.op.now), ev.env);
      EntryUpdateKeepsInvariant(crc, r, i, AckAlarm(r.alarms[i], ev.op.now), ev.env);
  }

  lemma ApplyKeepsInvariant(crc: Crc, r: Registry, ev: Event)
    requires Invariant(crc, r) && Ordinary(ev)
    ensures var r' := Apply(crc, r, ev);
            && Invariant(crc, r')
            && (r'.flash == r.flash || Recovered(crc, r'.flash) == r'.alarms)
  {
    match ev.op
    case OpRaise(code, sev, message, now) =>
      RaiseKeepsInvariant(crc, r, code, sev, message, now, ev.env);
    case OpAcknowledgeAll(clock) =>
      PersistKeepsInvariant(crc, r, AckAllRam(r.alarms, clock), ev.env);
    case OpCheckpoint =>
      SaveIsAllOrNothing(crc, r, ev.env);
    case OpPowerCycle(load) =>
      BootShowsTheFlashIff(crc, r.flash, load, ev.env);
    case _ =>
      EntryCallKeepsInvariant(crc, r, ev);
  }

  lemma ApplyStaysBounded(crc: Crc, r: Registry, ev: Event)
    requires |r.alarms| <= MAX_ALARMS
    ensures |Apply(crc, r, ev).alarms| <= MAX_ALARMS
  {
    match ev.op
    case OpRaise(code, sev, message, now) =>
      RaiseKeepsLiveAlarms(r.alarms, code, sev, message, now);
    case OpPowerCycle(load) =>
      BootShowsTheFlashIff(crc, r.flash, load, ev.env);
    case _ =>
  }

  function Run(crc: Crc, r: Registry, evs: seq<Event>): (r': Registry)
    requires |r.alarms| <= MAX_ALARMS
    ensures |r'.alarms| <= MAX_ALARMS
    decreases evs
  {
    if evs == [] then r
    else
      ApplyStaysBounded(crc, r, evs[0]);
      Run(crc, Apply(crc, r, evs[0]), evs[1..])
  }

  /**
   * CRASH CONSISTENCY. From a sound registry, any run of calls, failing saves
   * and power cycles keeps codes distinct, the table within 24 slots, and the
   * flash equal to the RAM table (up to refresh times) whenever it is not dirty.
   */
  lemma {:induction false} RunKeepsInvariant(crc: Crc, r: Registry, evs: seq<Event>)
    requires Invariant(crc, r) && forall ev | ev in evs :: Ordinary(ev)
    ensures Invariant(crc, Run(crc, r, evs))
    decreases evs
  {
    if evs != [] {
      ApplyKeepsInvariant(crc, r, evs[0]);
      RunKeepsInvariant(crc, Apply(crc, r, evs[0]), evs[1..]);
    }
  }

  /**
   * Power lost anywhere inside a call: the one key write either reached the
   * flash or not (`landed`), so the next healthy boot shows either what the
   * flash held before the call or the complete table the call produced. With a
   * clean registry the former is the table before the call.
   */
  lemma CrashShowsOldOrNew(crc: Crc, r: Registry, ev: Event, landed: bool, e: SaveEnv)
    requires Invariant(crc, r) && Ordinary(ev)
    ensures var flash := if landed then Apply(crc, r, ev).flash else r.flash;
            var seen := Boot(crc, flash, LoadEnv(true, true, true), e).alarms;
            && (seen == Recovered(crc, r.flash) || seen == Apply(crc, r, ev).alarms)
            && (!r.dirty ==> SameButRefreshed(seen, r.alarms) || seen == Apply(crc, r, ev).alarms)
  {
    ApplyKeepsInvariant(crc, r, ev);
    var flash := if landed then Apply(crc, r, ev).flash else r.flash;
    BootShowsTheFlashIff(crc, flash, LoadEnv(true, true, true), e);
  }

  // ---- What a power cycle loses --------------------------------------------------------

  /** The event tries to save the table it leaves. */
  predicate Saves(r: Registry, ev: Event)
    requires |r.alarms| <= MAX_ALARMS
  {
    match ev.op
    case OpRaise(code, sev, message, now) => RaiseRam(r.alarms, code, sev, message, now).Changed?
    case OpClear(code, _) => IndexOf(r.alarms, code).Some?
    case OpClearIfActive(code, _) => IndexOf(r.alarms, code).Some? && Live(r.alarms[IndexOf(r.alarms, code).value])
    case OpAcknowledge(code, _) => IndexOf(r.alarms, code).Some?
    case OpAcknowledgeAll(_) => true
    case OpCheckpoint => true
    case OpPowerCycle(_) => false
  }

  /** The one key write of a save reaches the flash, whatever is reported of it. */
  predicate Lands(e: SaveEnv) {
    e.memory && e.opens && e.landed
  }

  /** The table of the last save along the run that reached the flash. */
  function LastSaved(crc: Crc, r: Registry, evs: seq<Event>, last: seq<Alarm>): seq<Alarm>
    requires |r.alarms| <= MAX_ALARMS
    decreases evs
  {
    if evs == [] then last
    else
      var r' := Apply(crc, r, evs[0]);
      ApplyStaysBounded(crc, r, evs[0]);
      LastSaved(crc, r', evs[1..], if Saves(r, evs[0]) && Lands(evs[0].env) then r'.alarms else last)
  }

  lemma SaveWrites(crc: Crc, r: Registry, e: SaveEnv)
    requires |r.alarms| <= MAX_ALARMS
    ensures Recovered(crc, Save(crc, r, e).0.flash) == if Lands(e) then r.alarms else Recovered(crc, r.flash)
  {
    SavedTableReadsBack(crc, r.flash, Bump16(r.generation), r.alarms);
  }

  lemma RaiseWrites(crc: Crc, r: Registry, ev: Event)
    requires Invariant(crc, r) && Ordinary(ev) && ev.op.OpRaise?
    ensures Recovered(crc, Apply(crc, r, ev).flash)
         == if Saves(r, ev) && Lands(ev.env) then Apply(crc, r, ev).alarms else Recovered(crc, r.flash)
  {
    RaiseKeepsInvariant(crc, r, ev.op.code, ev.op.sev, ev.op.message, ev.op.now, ev.env);
    match RaiseRam(r.alarms, ev.op.code, ev.op.sev, ev.op.message, ev.op.now)
    case Changed(alarms) =>
      SaveWrites(crc, r.(alarms := alarms, dirty := true), ev.env);
    case _ =>
  }

  lemma EntryCallWrites(crc: Crc, r: Registry, ev: Event)
    requires Invariant(crc, r) && (ev.op.OpClear? || ev.op.OpClearIfActive? || ev.op.OpAcknowledge?)
    ensures Recovered(crc, Apply(crc, r, ev).flash)
         == if Saves(r, ev) && Lands(ev.env) then Apply(crc, r, ev).alarms else Recovered(crc, r.flash)
  {
    match IndexOf(r.alarms, ev.op.code)
    case None =>
    case Some(i) =>
      SaveWrites(crc, r.(alarms := r.alarms[i := ClearAlarm(r.alarms[i], ev.op.now)], dirty := true), ev.env);
      SaveWrites(crc, r.(alarms := r.alarms[i := AckAlarm(r.alarms[i], ev.op.now)], dirty := true), ev.env);
  }

  lemma ApplyWrites(crc: Crc, r: Registry, ev: Event)
    requires Invariant(crc, r) && Ordinary(ev)
    ensures Recovered(crc, Apply(crc, r, ev).flash)
         == if Saves(r, ev) && Lands(ev.env) then Apply(crc, r, ev).alarms else Recovered(crc, r.flash)
  {
    match ev.op
    case OpRaise(_, _, _, _) =>
      RaiseWrites(crc, r, ev);
    case OpAcknowledgeAll(clock) =>
      SaveWrites(crc, r.(alarms := AckAllRam(r.alarms, clock), dirty := true), ev.env);
    case OpCheckpoint =>
      SaveWrites(crc, r, ev.env);
    case OpPowerCycle(load) =>
      BootShowsTheFlashIff(crc, r.flash, load, ev.env);
    case _ =>
      EntryCallWrites(crc, r, ev);
  }

  /** Over any run the flash holds the table of the last save that reached it. */
  lemma {:induction false} FlashIsLastSaved(crc: Crc, r: Registry, evs: seq<Event>)
    requires Invariant(crc, r) && forall ev | ev in evs :: Ordinary(ev)
    ensures Recovered(crc, Run(crc, r, evs).flash) == LastSaved(crc, r, evs, Recovered(crc, r.flash))
    decreases evs
  {
    if evs != [] {
      ApplyWrites(crc, r, evs[0]);
      ApplyKeepsInvariant(crc, r, evs[0]);
      FlashIsLastSaved(crc, Apply(crc, r, evs[0]), evs[1..]);
    }
  }

  /**
   * So a power cycle, of a dirty registry too, loses exactly what changed since the last save
   * that reached the flash; an alarm is live after it exactly if it was live in that table.
   */
  lemma PowerCycleShowsLastSaved(crc: Crc, r: Registry, evs: seq<Event>, e: SaveEnv, code: string, rank: nat)
    requires Invariant(crc, r) && forall ev | ev in evs :: Ordinary(ev)
    ensures var saved := LastSaved(crc, r, evs, Recovered(crc, r.flash));
            var after := Boot(crc, Run(crc, r, evs).flash, LoadEnv(true, true, true), e).alarms;
            after == saved && (LiveWith(after, code, rank) <==> LiveWith(saved, code, rank))
  {
    FlashIsLastSaved(crc, r, evs);
    BootShowsTheFlashIff(crc, Run(crc, r, evs).flash, LoadEnv(true, true, true), e);
  }

  // ---- Nothing live is lost over a run -----------------------------------------------

  predicate Clears(op: Op, code: string) {
    (op.OpClear? || op.OpClearIfActive?) && op.code == code
  }

  /** No event clears `code`, and whenever power is lost the flash holds it as a live alarm. */
  predicate Spares(crc: Crc, r: Registry, evs: seq<Event>, code: string, rank: nat)
    requires |r.alarms| <= MAX_ALARMS
    decreases evs
  {
    evs != [] ==>
      var r' := Apply(crc, r, evs[0]);
      && Ordinary(evs[0]) && !Clears(evs[0].op, code)
      && (evs[0].op.OpPowerCycle? ==> LiveWith(Recovered(crc, r.flash), code, rank))
      && (ApplyStaysBounded(crc, r, evs[0]); Spares(crc, r', evs[1..], code, rank))
  }

  lemma SparedStep(crc: Crc, r: Registry, ev: Event, code: string, rank: nat)
    requires Invariant(crc, r) && Ordinary(ev) && LiveWith(r.alarms, code, rank)
    requires !Clears(ev.op, code) && (ev.op.OpPowerCycle? ==> LiveWith(Recovered(crc, r.flash), code, rank))
    ensures LiveWith(Apply(crc, r, ev).alarms, code, rank)
  {
    if ev.op.OpRaise? {
      SparedByRaise(crc, r, ev.op.code, ev.op.sev, ev.op.message, ev.op.now, ev.env, code, rank);
    } else if ev.op.OpPowerCycle? {
      BootShowsTheFlashIff(crc, r.flash, ev.op.load, ev.env);
    } else {
      SparedInPlace(crc, r, ev, code);
      SpareInPlace(r.alarms, Apply(crc, r, ev).alarms, code, rank);
    }
  }

  /** Entries under `code` stay where they are, with their severity, and alive if they were. */
  predicate KeepsInPlace(before: seq<Alarm>, after: seq<Alarm>, code: string) {
    && |after| == |before|
    && forall i | 0 <= i < |before| && before[i].code == code ::
         after[i].code == code && (Live(before[i]) ==> Live(after[i])) && after[i].severity == before[i].severity
  }

  lemma ClearSpares(crc: Crc, r: Registry, ev: Event, code: string)
    requires |r.alarms| <= MAX_ALARMS && (ev.op.OpClear? || ev.op.OpClearIfActive?) && ev.op.code != code
    ensures KeepsInPlace(r.alarms, Apply(crc, r, ev).alarms, code)
  {
    match IndexOf(r.alarms, ev.op.code)
    case None =>
    case Some(i) =>
      var after := Apply(crc, r, ev).alarms;
      assert after == r.alarms || after == r.alarms[i := ClearAlarm(r.alarms[i], ev.op.now)];
  }

  lemma AckSpares(crc: Crc, r: Registry, ev: Event, code: string)
    requires |r.alarms| <= MAX_ALARMS && (ev.op.OpAcknowledge? || ev.op.OpAcknowledgeAll?)
    ensures KeepsInPlace(r.alarms, Apply(crc, r, ev).alarms, code)
  {
    if ev.op.OpAcknowledgeAll? {
      assert Apply(crc, r, ev).alarms == AckAllRam(r.alarms, ev.op.clock);
    } else if IndexOf(r.alarms, ev.op.code).Some? {
      var i := IndexOf(r.alarms, ev.op.code).value;
      assert Apply(crc, r, ev).alarms == r.alarms[i := AckAlarm(r.alarms[i], ev.op.now)];
    }
  }

  lemma SparedInPlace(crc: Crc, r: Registry, ev: Event, code: string)
    requires |r.alarms| <= MAX_ALARMS && !ev.op.OpRaise? && !ev.op.OpPowerCycle? && !Clears(ev.op, code)
    ensures KeepsInPlace(r.alarms, Apply(crc, r, ev).alarms, code)
  {
    if ev.op.OpClear? || ev.op.OpClearIfActive? {
      ClearSpares(crc, r, ev, code);
    } else if ev.op.OpAcknowledge? || ev.op.OpAcknowledgeAll? {
      AckSpares(crc, r, ev, code);
    }
  }

  lemma SpareInPlace(before: seq<Alarm>, after: seq<Alarm>, code: string, rank: nat)
    requires LiveWith(before, code, rank) && KeepsInPlace(before, after, code)
    ensures LiveWith(after, code, rank)
  {
    var i :| 0 <= i < |before| && before[i].code == code && Live(before[i]) && Rank(before[i].severity) >= rank;
    assert after[i].code == code;
  }

  lemma SparedByRaise(
    crc: Crc, r: Registry, c: string, sev: Severity, message: Option<string>, now: u32, e: SaveEnv,
    code: string, rank: nat)
    requires Invariant(crc, r) && |c| < CODE_LEN && LiveWith(r.alarms, code, rank)
    ensures LiveWith(Raise(crc, r, c, sev, message, now, e).0.alarms, code, rank)
  {
    var i :| 0 <= i < |r.alarms| && r.alarms[i].code == code && Live(r.alarms[i]) && Rank(r.alarms[i].severity) >= rank;
    var after := Raise(crc, r, c, sev, message, now, e).0.alarms;
    RaiseKeepsInvariant(crc, r, c, sev, message, now, e);
    RaiseKeepsLiveAlarms(r.alarms, c, sev, message, now);
    assert CarriedIn(after, r.alarms[i]);
    var j :| 0 <= j < |after| && Carries(after[j], r.alarms[i]);
    assert after[j].code == code;
  }

  /** A clean registry has every live alarm in flash. */
  lemma CleanMeansSaved(crc: Crc, r: Registry, code: string, rank: nat)
    requires Invariant(crc, r) && !r.dirty && LiveWith(r.alarms, code, rank)
    ensures LiveWith(Recovered(crc, r.flash), code, rank)
  {
    SpareInPlace(r.alarms, Recovered(crc, r.flash), code, rank);
  }

  /**
   * An alarm that is live now is live, at no lower severity, after any run that
   * does not clear it: raises of any kind, acknowledgements, failed saves and every
   * power cycle that finds it live in flash, as it is while the registry is clean.
   */
  lemma {:induction false} LiveAlarmSurvivesRun(crc: Crc, r: Registry, evs: seq<Event>, code: string, rank: nat)
    requires Invariant(crc, r) && LiveWith(r.alarms, code, rank)
    requires Spares(crc, r, evs, code, rank)
    ensures LiveWith(Run(crc, r, evs).alarms, code, rank)
    decreases evs
  {
    if evs != [] {
      SparedStep(crc, r, evs[0], code, rank);
      ApplyKeepsInvariant(crc, r, evs[0]);
      LiveAlarmSurvivesRun(crc, Apply(crc, r, evs[0]), evs[1..], code, rank);
    }
  }

  // ---- Clearing clears ----------------------------------------------------------------

  /** After a clear, whatever its save does, nothing is live under the code, and no other entry has changed. */
  lemma ClearClears(crc: Crc, r: Registry, code: string, now: u32, e: SaveEnv)
    requires Invariant(crc, r)
    ensures var after := Clear(crc, r, code, now, e).alarms;
            && !LiveWith(after, code, 0) && |after| == |r.alarms|
            && (forall i | 0 <= i < |after| && r.alarms[i].code != code :: after[i] == r.alarms[i])
            && (forall i | 0 <= i < |after| && r.alarms[i].code == code ::
                  after[i] == r.alarms[i].(lifecycle := Cleared, clearedAt := now, lastUpdatedAt := now))
  {
    if IndexOf(r.alarms, code).Some? {
      var i := IndexOf(r.alarms, code).value;
      assert Clear(crc, r, code, now, e).alarms == r.alarms[i := ClearAlarm(r.alarms[i], now)];
    }
  }

  /** The conditional clear answers true exactly if the code was live; then it clears, and otherwise does nothing. */
  lemma ClearIfActiveAnswersIff(crc: Crc, r: Registry, code: string, now: u32, e: SaveEnv)
    requires Invariant(crc, r)
    ensures var (r', cleared) := ClearIfActive(crc, r, code, now, e);
            && (cleared <==> LiveWith(r.alarms, code, 0))
            && !LiveWith(r'.alarms, code, 0)
            && r' == (if cleared then Clear(crc, r, code, now, e) else r)
  {
    ClearClears(crc, r, code, now, e);
    if IndexOf(r.alarms, code).Some? {
      var i := IndexOf(r.alarms, code).value;
      assert LiveWith(r.alarms, code, 0) <==> Live(r.alarms[i]);
    }
  }

  /** What an event makes of whether `code` is live. */
  predicate LiveAfter(crc: Crc, r: Registry, ev: Event, code: string, live: bool)
    requires |r.alarms| <= MAX_ALARMS
  {
    match ev.op
    case OpRaise(c, sev, message, now) => live || (c == code && !RaiseRam(r.alarms, c, sev, message, now).Saturated?)
    case OpClear(c, _) => live && c != code
    case OpClearIfActive(c, _) => live && c != code
    case OpAcknowledge(c, _) => live || (c == code && IndexOf(r.alarms, c).Some?)
    case OpAcknowledgeAll(_) => live
    case OpCheckpoint => live
    case OpPowerCycle(_) => LiveWith(Recovered(crc, r.flash), code, 0)
  }

  /** The fold of that along a run: the last accepted raise or acknowledgement against the last clear. */
  predicate LiveByHistory(crc: Crc, r: Registry, evs: seq<Event>, code: string, live: bool)
    requires |r.alarms| <= MAX_ALARMS
    decreases evs
  {
    if evs == [] then live
    else
      ApplyStaysBounded(crc, r, evs[0]);
      LiveByHistory(crc, Apply(crc, r, evs[0]), evs[1..], code, LiveAfter(crc, r, evs[0], code, live))
  }

  lemma RaiseLiveness(crc: Crc, r: Registry, ev: Event, code: string)
    requires Invariant(crc, r) && Ordinary(ev) && ev.op.OpRaise?
    ensures LiveWith(Apply(crc, r, ev).alarms, code, 0) <==> LiveAfter(crc, r, ev, code, LiveWith(r.alarms, code, 0))
  {
    var op, after := ev.op, Apply(crc, r, ev).alarms;
    RaiseKeepsInvariant(crc, r, op.code, op.sev, op.message, op.now, ev.env);
    AcceptedRaiseIsLive(r.alarms, op.code, op.sev, op.message, op.now);
    if LiveWith(r.alarms, code, 0) {
      SparedByRaise(crc, r, op.code, op.sev, op.message, op.now, ev.env, code, 0);
    } else if op.code != code {
      RaiseBringsOnlyItsCode(r.alarms, op.code, op.sev, op.message, op.now, code);
    } else {
      assert Clip(op.code, CODE_LEN) == code;
    }
  }

  lemma RaiseBringsOnlyItsCode(
    alarms: seq<Alarm>, c: string, sev: Severity, message: Option<string>, now: u32, code: string)
    requires |alarms| <= MAX_ALARMS && |c| < CODE_LEN && c != code && !LiveWith(alarms, code, 0)
    ensures !LiveWith(After(alarms, RaiseRam(alarms, c, sev, message, now)), code, 0)
  {
    var after := After(alarms, RaiseRam(alarms, c, sev, message, now));
    forall i | 0 <= i < |after| && after[i].code == code
      ensures !Live(after[i])
    {
      assert after[i] in alarms;
      var k :| 0 <= k < |alarms| && alarms[k] == after[i];
    }
  }

  lemma EntryCallLiveness(crc: Crc, r: Registry, ev: Event, code: string)
    requires Invariant(crc, r) && (ev.op.OpClear? || ev.op.OpClearIfActive? || ev.op.OpAcknowledge?)
    ensures LiveWith(Apply(crc, r, ev).alarms, code, 0) <==> LiveAfter(crc, r, ev, code, LiveWith(r.alarms, code, 0))
  {
    var c, after := ev.op.code, Apply(crc, r, ev).alarms;
    if ev.op.OpClear? {
      ClearClears(crc, r, c, ev.op.now, ev.env);
    } else if ev.op.OpClearIfActive? {
      ClearClears(crc, r, c, ev.op.now, ev.env);
      ClearIfActiveAnswersIff(crc, r, c, ev.op.now, ev.env);
    } else if IndexOf(r.alarms, c).Some? {
      var i := IndexOf(r.alarms, c).value;
      assert after == r.alarms[i := AckAlarm(r.alarms[i], ev.op.now)];
      assert after[i].code == c && Live(after[i]);
    }
    if c != code {
      SameElsewhereSameLiveness(r.alarms, after, code);
    }
  }

  lemma SameElsewhereSameLiveness(before: seq<Alarm>, after: seq<Alarm>, code: string)
    requires |before| == |after|
    requires forall i | 0 <= i < |after| :: after[i].code == before[i].code
    requires forall i | 0 <= i < |after| && before[i].code == code :: Live(after[i]) == Live(before[i])
    ensures LiveWith(after, code, 0) <==> LiveWith(before, code, 0)
  {
    if i :| 0 <= i < |before| && before[i].code == code && Live(before[i]) {
      assert after[i].code == code && Live(after[i]);
    }
    if i :| 0 <= i < |after| && after[i].code == code && Live(after[i]) {
      assert before[i].code == code && Live(before[i]);
    }
  }

  lemma StepLiveness(crc: Crc, r: Registry, ev: Event, code: string)
    requires Invariant(crc, r) && Ordinary(ev)
    ensures LiveWith(Apply(crc, r, ev).alarms, code, 0) <==> LiveAfter(crc, r, ev, code, LiveWith(r.alarms, code, 0))
  {
    match ev.op
    case OpRaise(_, _, _, _) =>
      RaiseLiveness(crc, r, ev, code);
    case OpAcknowledgeAll(clock) =>
      SameElsewhereSameLiveness(r.alarms, Apply(crc, r, ev).alarms, code);
    case OpCheckpoint =>
    case OpPowerCycle(load) =>
      BootShowsTheFlashIff(crc, r.flash, load, ev.env);
    case _ =>
      EntryCallLiveness(crc, r, ev, code);
  }

  /**
   * Over any run a code is live exactly if an accepted raise, or an acknowledgement that found
   * its entry, came after its last clear, counting from what the flash held at the last power
   * cycle if there was one.
   */
  lemma {:induction false} LivenessIsHistory(crc: Crc, r: Registry, evs: seq<Event>, code: string)
    requires Invariant(crc, r) && forall ev | ev in evs :: Ordinary(ev)
    ensures LiveWith(Run(crc, r, evs).alarms, code, 0) <==> LiveByHistory(crc, r, evs, code, LiveWith(r.alarms, code, 0))
    decreases evs
  {
    if evs != [] {
      StepLiveness(crc, r, evs[0], code);
      ApplyKeepsInvariant(crc, r, evs[0]);
      LivenessIsHistory(crc, Apply(crc, r, evs[0]), evs[1..], code);
    }
  }

  // ---- Acknowledging ------------------------------------------------------------------

  /**
   * Acknowledging is not restricted to active alarms: afterwards the code is live exactly if it
   * was in the table at all, so a cleared entry, and no other, is revived.
   */
  lemma AcknowledgeRevivesIff(crc: Crc, r: Registry, code: string, now: u32, e: SaveEnv)
    requires Invariant(crc, r)
    ensures var at := IndexOf(r.alarms, code);
            var after := Acknowledge(crc, r, code, now, e).alarms;
            && (LiveWith(after, code, 0) <==> at.Some?)
            && (LiveWith(after, code, 0) && !LiveWith(r.alarms, code, 0)
                <==> at.Some? && r.alarms[at.value].lifecycle == Cleared)
  {
    if IndexOf(r.alarms, code).Some? {
      var i := IndexOf(r.alarms, code).value;
      var after := Acknowledge(crc, r, code, now, e).alarms;
      EntryUpdateKeepsInvariant(crc, r, i, AckAlarm(r.alarms[i], now), e);
      assert after[i].code == code && Live(after[i]);
    }
  }
}
