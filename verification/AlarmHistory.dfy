/** What the registry answers and counts, and what an alarm's record says of the calls that touched it. */
module AlarmHistory {
  import opened Common
  import opened AlarmModel
  import opened AlarmProperties

  // ---- Saving and booting -----------------------------------------------------------

  /** The record a save writes. */
  function Record(crc: Crc, r: Registry): Blob {
    var h := Header(0x414C524D, 2, (r.generation + 1) % 0x1_0000, |r.alarms|);
    Blob(h, crc(h, r.alarms), r.alarms)
  }

  /** The save verifies: everything it asks of storage is done, and the flash then holds its record. */
  predicate Verifies(crc: Crc, r: Registry, e: SaveEnv) {
    && e.memory && e.opens && e.full && e.readsBack
    && (e.landed || r.flash.state == Some(Record(crc, r)))
  }

  /** A save answers true exactly if it verified; each answer moves one counter. */
  lemma SaveAnswersIff(crc: Crc, r: Registry, e: SaveEnv)
    ensures var (r', ok) := Save(crc, r, e);
            && (ok <==> Verifies(crc, r, e))
            && r'.dirty == (r.dirty && !ok)
            && r'.generation == (if ok then (r.generation + 1) % 0x1_0000 else r.generation)
            && r'.persistFailures == (if ok then r.persistFailures else (r.persistFailures + 1) % 0x1_0000_0000)
            && r'.overflow == r.overflow && r'.alarms == r.alarms && r'.flash.legacy == r.flash.legacy
            && r'.flash.state == (if e.memory && e.opens && e.landed then Some(Record(crc, r)) else r.flash.state)
  {
  }

  /** The legacy pair is taken over: magic, version 1, at most 24 alarms, all there, checksum over its own header. */
  predicate LegacyGood(crc: Crc, l: Legacy) {
    && l.magic == 0x414C524D && l.version == 1 && l.count <= 24 && l.count <= |l.body|
    && l.crc == crc(Header(0x414C524D, 1, 0, l.count), l.body[..l.count])
  }

  /** Without a record of its own a boot migrates the legacy pair, and saves it, exactly if that is good and readable. */
  lemma MigratesIff(crc: Crc, f: Flash, l: LoadEnv, e: SaveEnv)
    requires l.opens && f.legacy.Some?
    requires f.state.None? || f.state.value.header.magic != 0x414C524D || f.state.value.header.version != 2
    ensures var legacy := f.legacy.value;
            var r := Boot(crc, f, l, e);
            var fits := LegacyGood(crc, legacy) && (l.prefix || legacy.count == 0 || legacy.count == |legacy.body|);
            && r.alarms == (if fits then legacy.body[..legacy.count] else [])
            && r.generation == Flag(fits && Verifies(crc, Registry(r.alarms, false, 0, 0, 0, f), e))
            && r.persistFailures == Flag(fits && !Verifies(crc, Registry(r.alarms, false, 0, 0, 0, f), e))
            && r.overflow == 0 && !r.dirty
  {
    var legacy := f.legacy.value;
    if LegacyRead(crc, f, l) {
      SaveAnswersIff(crc, Registry(legacy.body[..legacy.count], false, 0, 0, 0, f), e);
    }
  }

  /** A boot that reads a record goes on from that record's generation, with all counters at zero. */
  lemma BootContinues(crc: Crc, r: Registry, l: LoadEnv, e: SaveEnv, e': SaveEnv)
    requires |r.alarms| <= MAX_ALARMS && Verifies(crc, r, e) && l == LoadEnv(true, true, true)
    ensures var saved := Save(crc, r, e).0;
            Boot(crc, saved.flash, l, e') == Registry(r.alarms, false, 0, 0, (r.generation + 1) % 0x1_0000, saved.flash)
  {
    assert r.alarms[..|r.alarms|] == r.alarms;
  }

  // ---- What a raise answers -----------------------------------------------------------

  predicate Above(s: Severity, t: Severity) {
    (s.Critical? && !t.Critical?) || (s.Warning? && t.Info?)
  }

  function Worse(s: Severity, t: Severity): Severity {
    if s.Critical? || t.Critical? then Critical else if s.Warning? || t.Warning? then Warning else Info
  }

  /** A raise that tells nothing new of a live alarm. */
  predicate Repeats(a: Alarm, sev: Severity, message: Option<string>) {
    !a.lifecycle.Cleared? && !Above(sev, a.severity) && message in {None, Some(""), Some(a.message)}
  }

  /** What the 32-byte and 80-byte fields keep. */
  function Code(s: string): string {
    if |s| <= 31 then s else s[..31]
  }

  function Text(s: string): string {
    if |s| <= 79 then s else s[..79]
  }

  /** An entry raised again. */
  function Raised(a: Alarm, sev: Severity, message: Option<string>, now: u32): Alarm {
    var text := if message.Some? && message.value !in {"", a.message} then Text(message.value) else a.message;
    if a.lifecycle.Cleared? then Alarm(a.code, sev, Active, now, 0, 0, now, text)
    else Alarm(a.code, Worse(sev, a.severity), a.lifecycle, a.raisedAt, a.acknowledgedAt, a.clearedAt, now, text)
  }

  /** The entry a new code gets. */
  function New(code: string, sev: Severity, message: Option<string>, now: u32): Alarm {
    Alarm(Code(code), sev, Active, now, 0, 0, now, if message.Some? then Text(message.value) else "")
  }

  /** Cleared, and not with both stamps at all-ones. */
  predicate MayGo(a: Alarm) {
    a.lifecycle == Cleared && !(a.clearedAt == 0xFFFF_FFFF && a.raisedAt == 0xFFFF_FFFF)
  }

  /** The longest cleared goes first, then the longest raised, then the first in the table. */
  predicate GoesFirst(alarms: seq<Alarm>, v: nat) {
    && v < |alarms| && MayGo(alarms[v])
    && forall k | 0 <= k < |alarms| && k != v && MayGo(alarms[k]) ::
         || alarms[v].clearedAt < alarms[k].clearedAt
         || (alarms[v].clearedAt == alarms[k].clearedAt && alarms[v].raisedAt < alarms[k].raisedAt)
         || (alarms[v].clearedAt == alarms[k].clearedAt && alarms[v].raisedAt == alarms[k].raisedAt && v < k)
  }

  lemma VictimGoesFirst(alarms: seq<Alarm>)
    ensures Victim(alarms).Some? ==> GoesFirst(alarms, Victim(alarms).value)
    ensures Victim(alarms).None? <==> forall k | 0 <= k < |alarms| :: !MayGo(alarms[k])
  {
    forall k | 0 <= k < |alarms|
      ensures Evictable(alarms[k]) <==> MayGo(alarms[k])
    {
    }
  }

  /** The table a raise leaves. */
  ghost predicate Stores(
    before: seq<Alarm>, after: seq<Alarm>, code: string, sev: Severity, message: Option<string>, now: u32)
  {
    match IndexOf(before, code)
    case Some(i) => after == before[i := Raised(before[i], sev, message, now)]
    case None =>
      if |before| < 24 then after == before + [New(code, sev, message, now)]
      else if exists k | 0 <= k < |before| :: MayGo(before[k]) then
        exists v: nat | GoesFirst(before, v) :: after == before[..v] + before[v + 1..] + [New(code, sev, message, now)]
      else after == before
  }

  lemma RaiseStores(alarms: seq<Alarm>, code: string, sev: Severity, message: Option<string>, now: u32)
    requires |alarms| <= 24
    ensures Stores(alarms, After(alarms, RaiseRam(alarms, code, sev, message, now)), code, sev, message, now)
  {
    VictimGoesFirst(alarms);
    if IndexOf(alarms, code).Some? {
      var i := IndexOf(alarms, code).value;
      assert Refresh(alarms[i], sev, message, now).0 == Raised(alarms[i], sev, message, now);
    } else if |alarms| == 24 && Victim(alarms).Some? {
      assert GoesFirst(alarms, Victim(alarms).value);
    }
  }

  /** No room: the code is new, the table full, and nothing in it may go. */
  predicate NoRoom(alarms: seq<Alarm>, code: string) {
    IndexOf(alarms, code).None? && |alarms| == 24 && forall k | 0 <= k < 24 :: !MayGo(alarms[k])
  }

  predicate OnlyRefreshes(alarms: seq<Alarm>, code: string, sev: Severity, message: Option<string>) {
    var at := IndexOf(alarms, code);
    at.Some? && Repeats(alarms[at.value], sev, message)
  }

  /** The four answers of a raise under the lock, and what each of them counts. */
  lemma RaiseAnswersIff(
    crc: Crc, r: Registry, code: string, sev: Severity, message: Option<string>, now: u32, e: SaveEnv)
    requires |r.alarms| <= 24
    ensures var (r', result) := Raise(crc, r, code, sev, message, now, e);
            var stored := r.(alarms := After(r.alarms, RaiseRam(r.alarms, code, sev, message, now)), dirty := true);
            && (result == Rejected <==> NoRoom(r.alarms, code))
            && (result == AcceptedRam <==> OnlyRefreshes(r.alarms, code, sev, message))
            && (result == AcceptedPersisted <==>
                  !NoRoom(r.alarms, code) && !OnlyRefreshes(r.alarms, code, sev, message) && Verifies(crc, stored, e))
            && result != LockUnavailable
            && (result == Rejected ==> r' == r.(overflow := (r.overflow + 1) % 0x1_0000_0000))
            && (result == AcceptedRam ==> r' == r.(alarms := stored.alarms))
            && (result in {AcceptedPersisted, AcceptedPersistFailed} ==> r' == Save(crc, stored, e).0)
  {
    VictimGoesFirst(r.alarms);
    if IndexOf(r.alarms, code).Some? {
      var i := IndexOf(r.alarms, code).value;
      assert Refresh(r.alarms[i], sev, message, now).1 <==> !Repeats(r.alarms[i], sev, message);
    }
    SaveAnswersIff(crc, r.(alarms := After(r.alarms, RaiseRam(r.alarms, code, sev, message, now)), dirty := true), e);
  }

  /** The entry under `code`. */
  function Entry(alarms: seq<Alarm>, code: string): Option<Alarm> {
    var at := IndexOf(alarms, code);
    if at.Some? then Some(alarms[at.value]) else None
  }

  lemma EntryAt(alarms: seq<Alarm>, i: nat)
    requires Distinct(alarms) && i < |alarms|
    ensures Entry(alarms, alarms[i].code) == Some(alarms[i])
  {
  }

  /** Where a raise leaves the entry it was for. */
  lemma RaiseEntry(alarms: seq<Alarm>, code: string, sev: Severity, message: Option<string>, now: u32)
    requires |alarms| <= 24 && Distinct(alarms) && Short(alarms) && |code| < 32 && !NoRoom(alarms, code)
    ensures var before := Entry(alarms, code);
            Entry(After(alarms, RaiseRam(alarms, code, sev, message, now)), code) ==
            Some(if before.Some? then Raised(before.value, sev, message, now) else New(code, sev, message, now))
  {
    var after := After(alarms, RaiseRam(alarms, code, sev, message, now));
    RaiseStores(alarms, code, sev, message, now);
    RaiseKeepsCodesDistinctIff(alarms, code, sev, message, now);
    if IndexOf(alarms, code).Some? {
      EntryAt(after, IndexOf(alarms, code).value);
    } else {
      assert after[|after| - 1] == New(code, sev, message, now);
      EntryAt(after, |after| - 1);
    }
  }

  lemma RepeatsWhatItKept(a: Alarm, code: string, sev: Severity, message: Option<string>, now: u32)
    requires |a.message| < 80
    ensures Repeats(Raised(a, sev, message, now), sev, message) <==> message.None? || |message.value| < 80
    ensures Repeats(New(code, sev, message, now), sev, message) <==> message.None? || |message.value| < 80
  {
  }

  /** A message field holds at most 79 characters. */
  predicate TextsFit(alarms: seq<Alarm>) {
    forall k | 0 <= k < |alarms| :: |alarms[k].message| < 80
  }

  /**
   * Raising the same again touches only RAM exactly if the message fits its field: a longer one
   * differs from what was kept of it, and so is written to the flash at every raise.
   */
  lemma RepeatedRaiseSettlesIff(
    crc: Crc, r: Registry, code: string, sev: Severity, message: Option<string>, now: u32, again: u32,
    e: SaveEnv, e': SaveEnv)
    requires Invariant(crc, r) && TextsFit(r.alarms) && |code| < 32 && !NoRoom(r.alarms, code)
    ensures var r' := Raise(crc, r, code, sev, message, now, e).0;
            Raise(crc, r', code, sev, message, again, e').1 == AcceptedRam <==> message.None? || |message.value| < 80
  {
    var r' := Raise(crc, r, code, sev, message, now, e).0;
    RaiseKeepsInvariant(crc, r, code, sev, message, now, e);
    RaiseEntry(r.alarms, code, sev, message, now);
    RaiseAnswersIff(crc, r', code, sev, message, again, e');
    var before := Entry(r.alarms, code);
    RepeatsWhatItKept(if before.Some? then before.value else New(code, sev, None, now), code, sev, message, now);
  }

  // ---- What a record says of the calls that touched it --------------------------------------

  datatype Touch =
    | Raising(sev: Severity, message: Option<string>, at: u32)
    | Clearing(at: u32)
    | Acking(at: u32)
    | AckingAll(at: u32)

  function Touched(a: Alarm, t: Touch): Alarm {
    match t
    case Raising(sev, message, at) => Refresh(a, sev, message, at).0
    case Clearing(at) => ClearAlarm(a, at)
    case Acking(at) => AckAlarm(a, at)
    case AckingAll(at) => AckActive(a, at)
  }

  /** The record after the calls `ts` in turn. */
  function Play(a: Alarm, ts: seq<Touch>): Alarm
    decreases ts
  {
    if ts == [] then a else Touched(Play(a, ts[..|ts| - 1]), ts[|ts| - 1])
  }

  lemma PlayEnd(a: Alarm, ts: seq<Touch>, n: nat)
    requires n < |ts|
    ensures Play(a, ts[..n + 1]) == Touched(Play(a, ts[..n]), ts[n])
  {
    assert ts[..n + 1][..n] == ts[..n];
  }

  /** Call k finds the record cleared and raises it: a new occurrence begins. */
  predicate Begins(a: Alarm, ts: seq<Touch>, k: nat) {
    k < |ts| && ts[k].Raising? && Play(a, ts[..k]).lifecycle.Cleared?
  }

  /** Call k is the last to begin an occurrence. */
  predicate LastBegin(a: Alarm, ts: seq<Touch>, k: nat) {
    Begins(a, ts, k) && forall j | k < j < |ts| :: !Begins(a, ts, j)
  }

  /** The calls from k on found the severity `first` and then only raised it. */
  predicate IsWorst(s: Severity, first: Severity, ts: seq<Touch>, k: nat, n: nat) {
    && !Above(first, s)
    && (forall j | k < j < n && j < |ts| && ts[j].Raising? :: !Above(ts[j].sev, s))
    && (s == first || exists j | k < j < n && j < |ts| && ts[j].Raising? :: ts[j].sev == s)
  }

  lemma WorstOf(a: Alarm, sev: Severity, message: Option<string>, at: u32)
    ensures !a.lifecycle.Cleared? ==> Refresh(a, sev, message, at).0.severity == Worse(sev, a.severity)
    ensures !Above(sev, Worse(sev, a.severity)) && !Above(a.severity, Worse(sev, a.severity))
    ensures Worse(sev, a.severity) == sev || Worse(sev, a.severity) == a.severity
  {
  }

  /** From its last beginning on a record's severity is the worst it was raised with; its raise time does not move. */
  lemma {:induction false} SeverityIsWorst(a: Alarm, ts: seq<Touch>, k: nat, n: nat)
    requires LastBegin(a, ts, k) && k < n <= |ts|
    ensures IsWorst(Play(a, ts[..n]).severity, ts[k].sev, ts, k, n) && Play(a, ts[..n]).raisedAt == ts[k].at
    decreases n
  {
    PlayEnd(a, ts, n - 1);
    if n > k + 1 {
      SeverityIsWorst(a, ts, k, n - 1);
      assert !Begins(a, ts, n - 1);
      var b, t := Play(a, ts[..n - 1]), ts[n - 1];
      if t.Raising? {
        WorstOf(b, t.sev, t.message, t.at);
      }
    }
  }

  /** What call i says of when the record was last cleared; None if nothing. */
  function SaysCleared(a: Alarm, ts: seq<Touch>, i: nat): Option<u32>
    requires i < |ts|
  {
    if ts[i].Clearing? then Some(ts[i].at) else if Begins(a, ts, i) then Some(0) else None
  }

  /** Acknowledging all reaches active records only. */
  predicate Acks(a: Alarm, ts: seq<Touch>, i: nat)
    requires i < |ts|
  {
    ts[i].Acking? || (ts[i].AckingAll? && Play(a, ts[..i]).lifecycle.Active?)
  }

  function SaysAcked(a: Alarm, ts: seq<Touch>, i: nat): Option<u32>
    requires i < |ts|
  {
    if Acks(a, ts, i) then Some(ts[i].at) else if Begins(a, ts, i) then Some(0) else None
  }

  function SaysUpdated(a: Alarm, ts: seq<Touch>, i: nat): Option<u32>
    requires i < |ts|
  {
    if ts[i].AckingAll? then None else Some(ts[i].at)
  }

  function SaysLifecycle(a: Alarm, ts: seq<Touch>, i: nat): Option<Lifecycle>
    requires i < |ts|
  {
    if ts[i].Clearing? then Some(Cleared)
    else if Acks(a, ts, i) then Some(Acknowledged)
    else if Begins(a, ts, i) then Some(Active)
    else None
  }

  function SaysText(a: Alarm, ts: seq<Touch>, i: nat): Option<string>
    requires i < |ts|
  {
    if ts[i].Raising? && ts[i].message.Some? && ts[i].message.value != "" then Some(Text(ts[i].message.value)) else None
  }

  /** Call k is the last of the first n that says anything. */
  predicate HasLastWord<T(==)>(says: (Alarm, seq<Touch>, nat) --> Option<T>, a: Alarm, ts: seq<Touch>, k: nat, n: nat)
    requires n <= |ts| && forall i: nat | i < |ts| :: says.requires(a, ts, i)
  {
    k < n && says(a, ts, k).Some? && forall i: nat | k < i < n :: says(a, ts, i).None?
  }

  lemma {:induction false} UpdateTimeIsLast(a: Alarm, ts: seq<Touch>, k: nat, n: nat)
    requires n <= |ts| && HasLastWord(SaysUpdated, a, ts, k, n)
    ensures Play(a, ts[..n]).lastUpdatedAt == SaysUpdated(a, ts, k).value
    decreases n
  {
    PlayEnd(a, ts, n - 1);
    if k < n - 1 {
      assert SaysUpdated(a, ts, n - 1).None?;
      UpdateTimeIsLast(a, ts, k, n - 1);
    }
  }

  lemma {:induction false} ClearTimeIsLast(a: Alarm, ts: seq<Touch>, k: nat, n: nat)
    requires n <= |ts| && HasLastWord(SaysCleared, a, ts, k, n)
    ensures Play(a, ts[..n]).clearedAt == SaysCleared(a, ts, k).value
    decreases n
  {
    PlayEnd(a, ts, n - 1);
    if k < n - 1 {
      assert SaysCleared(a, ts, n - 1).None?;
      ClearTimeIsLast(a, ts, k, n - 1);
    }
  }

  lemma {:induction false} AckTimeIsLast(a: Alarm, ts: seq<Touch>, k: nat, n: nat)
    requires n <= |ts| && HasLastWord(SaysAcked, a, ts, k, n)
    ensures Play(a, ts[..n]).acknowledgedAt == SaysAcked(a, ts, k).value
    decreases n
  {
    PlayEnd(a, ts, n - 1);
    if k < n - 1 {
      assert SaysAcked(a, ts, n - 1).None?;
      AckTimeIsLast(a, ts, k, n - 1);
    }
  }

  lemma {:induction false} LifecycleIsLast(a: Alarm, ts: seq<Touch>, k: nat, n: nat)
    requires n <= |ts| && HasLastWord(SaysLifecycle, a, ts, k, n)
    ensures Play(a, ts[..n]).lifecycle == SaysLifecycle(a, ts, k).value
    decreases n
  {
    PlayEnd(a, ts, n - 1);
    if k < n - 1 {
      assert SaysLifecycle(a, ts, n - 1).None?;
      LifecycleIsLast(a, ts, k, n - 1);
    }
  }

  lemma {:induction false} TextStaysShort(a: Alarm, ts: seq<Touch>, n: nat)
    requires |a.message| < 80 && n <= |ts|
    ensures |Play(a, ts[..n]).message| < 80
    decreases n
  {
    if n > 0 {
      PlayEnd(a, ts, n - 1);
      TextStaysShort(a, ts, n - 1);
    }
  }

  lemma {:induction false} TextIsLast(a: Alarm, ts: seq<Touch>, k: nat, n: nat)
    requires |a.message| < 80 && n <= |ts| && HasLastWord(SaysText, a, ts, k, n)
    ensures Play(a, ts[..n]).message == SaysText(a, ts, k).value
    decreases n
  {
    PlayEnd(a, ts, n - 1);
    TextStaysShort(a, ts, n - 1);
    if k < n - 1 {
      assert SaysText(a, ts, n - 1).None?;
      TextIsLast(a, ts, k, n - 1);
    }
  }

  // ---- From the calls on the registry to the record of one code ------------------------------

  /** How an event touches the record of `code`, if it does. */
  function TouchOf(r: Registry, ev: Event, code: string): Option<Touch>
    requires |r.alarms| <= MAX_ALARMS
  {
    var at := IndexOf(r.alarms, code);
    if at.None? then None
    else
      match ev.op
      case OpRaise(c, sev, message, now) => if c == code then Some(Raising(sev, message, now)) else None
      case OpClear(c, now) => if c == code then Some(Clearing(now)) else None
      case OpClearIfActive(c, now) => if c == code && Live(r.alarms[at.value]) then Some(Clearing(now)) else None
      case OpAcknowledge(c, now) => if c == code then Some(Acking(now)) else None
      case OpAcknowledgeAll(clock) => Some(AckingAll(clock[at.value]))
      case _ => None
  }

  function Next(a: Alarm, t: Option<Touch>): Alarm {
    if t.Some? then Touched(a, t.value) else a
  }

  lemma OtherEntries(before: seq<Alarm>, after: seq<Alarm>, i: nat, code: string)
    requires Distinct(before) && i < |before| && |after| == |before| && before[i].code != code
    requires forall k | 0 <= k < |before| && k != i :: after[k] == before[k]
    requires after[i].code == before[i].code
    ensures Entry(after, code) == Entry(before, code)
  {
    if IndexOf(before, code).Some? {
      assert after[IndexOf(before, code).value].code == code;
    }
  }

  lemma LeavesWithVictim(alarms: seq<Alarm>, v: nat, a: Alarm)
    requires Distinct(alarms) && v < |alarms| && a.code != alarms[v].code
    ensures Entry(RemoveAt(alarms, v) + [a], alarms[v].code).None?
  {
    var after := RemoveAt(alarms, v) + [a];
    assert forall k | 0 <= k < |after| :: after[k].code != alarms[v].code;
  }

  lemma StaysBesideVictim(alarms: seq<Alarm>, v: nat, a: Alarm, i: nat)
    requires Distinct(alarms) && v < |alarms| && i < |alarms| && i != v && Distinct(RemoveAt(alarms, v) + [a])
    ensures Entry(RemoveAt(alarms, v) + [a], alarms[i].code) == Some(alarms[i])
  {
    var after, k := RemoveAt(alarms, v) + [a], if i < v then i else i - 1;
    assert after[k] == alarms[i];
    EntryAt(after, k);
  }

  lemma RaiseOfAnother(alarms: seq<Alarm>, c: string, sev: Severity, message: Option<string>, now: u32, code: string)
    requires |alarms| <= 24 && Distinct(alarms) && Short(alarms) && |c| < 32 && c != code && Entry(alarms, code).Some?
    ensures var after := Entry(After(alarms, RaiseRam(alarms, c, sev, message, now)), code);
            after == Entry(alarms, code) || (after.None? && Entry(alarms, code).value.lifecycle.Cleared?)
  {
    var after, a := After(alarms, RaiseRam(alarms, c, sev, message, now)), Fresh(c, sev, message, now);
    var i := IndexOf(alarms, code).value;
    RaiseKeepsCodesDistinctIff(alarms, c, sev, message, now);
    if IndexOf(alarms, c).Some? {
      OtherEntries(alarms, after, IndexOf(alarms, c).value, code);
    } else if |alarms| < 24 {
      assert after == alarms + [a] && after[i] == alarms[i];
      EntryAt(after, i);
    } else if Victim(alarms) == Some(i) {
      LeavesWithVictim(alarms, i, a);
    } else if Victim(alarms).Some? {
      StaysBesideVictim(alarms, Victim(alarms).value, a, i);
    }
  }

  lemma EntryUpdate(alarms: seq<Alarm>, i: nat, a: Alarm, code: string)
    requires Distinct(alarms) && i < |alarms| && a.code == alarms[i].code
    ensures Entry(alarms[i := a], code) == if code == a.code then Some(a) else Entry(alarms, code)
  {
    if code == a.code {
      assert alarms[i := a][i].code == code;
    } else {
      OtherEntries(alarms, alarms[i := a], i, code);
    }
  }

  lemma AckAllEntry(alarms: seq<Alarm>, clock: Clock, code: string)
    requires |alarms| <= MAX_ALARMS && Distinct(alarms) && IndexOf(alarms, code).Some?
    ensures var i := IndexOf(alarms, code).value;
            Entry(AckAllRam(alarms, clock), code) == Some(AckActive(alarms[i], clock[i]))
  {
    var i, after := IndexOf(alarms, code).value, AckAllRam(alarms, clock);
    assert forall k | 0 <= k < |after| :: after[k].code == alarms[k].code;
    assert after[i] == AckActive(alarms[i], clock[i]);
    EntryAt(after, i);
  }

  lemma ClearEntry(crc: Crc, r: Registry, ev: Event, code: string)
    requires Invariant(crc, r) && Entry(r.alarms, code).Some? && (ev.op.OpClear? || ev.op.OpClearIfActive?)
    ensures Entry(Apply(crc, r, ev).alarms, code) == Some(Next(Entry(r.alarms, code).value, TouchOf(r, ev, code)))
  {
    if IndexOf(r.alarms, ev.op.code).Some? {
      var i := IndexOf(r.alarms, ev.op.code).value;
      EntryUpdate(r.alarms, i, ClearAlarm(r.alarms[i], ev.op.now), code);
      assert Clear(crc, r, ev.op.code, ev.op.now, ev.env).alarms == r.alarms[i := ClearAlarm(r.alarms[i], ev.op.now)];
    }
  }

  lemma AckEntry(crc: Crc, r: Registry, ev: Event, code: string)
    requires Invariant(crc, r) && Entry(r.alarms, code).Some? && ev.op.OpAcknowledge?
    ensures Entry(Apply(crc, r, ev).alarms, code) == Some(Next(Entry(r.alarms, code).value, TouchOf(r, ev, code)))
  {
    if IndexOf(r.alarms, ev.op.code).Some? {
      var i := IndexOf(r.alarms, ev.op.code).value;
      EntryUpdate(r.alarms, i, AckAlarm(r.alarms[i], ev.op.now), code);
    }
  }

  lemma RaiseStep(crc: Crc, r: Registry, ev: Event, code: string)
    requires Invariant(crc, r) && Ordinary(ev) && ev.op.OpRaise? && Entry(r.alarms, code).Some?
    ensures var a, after := Entry(r.alarms, code).value, Entry(Apply(crc, r, ev).alarms, code);
            || after == Some(Next(a, TouchOf(r, ev, code)))
            || (after.None? && a.lifecycle.Cleared? && ev.op.code != code)
  {
    var op := ev.op;
    RaiseKeepsInvariant(crc, r, op.code, op.sev, op.message, op.now, ev.env);
    if op.code == code {
      RaiseEntry(r.alarms, code, op.sev, op.message, op.now);
    } else {
      RaiseOfAnother(r.alarms, op.code, op.sev, op.message, op.now, code);
    }
  }

  lemma AckAllStep(crc: Crc, r: Registry, ev: Event, code: string)
    requires Invariant(crc, r) && ev.op.OpAcknowledgeAll? && Entry(r.alarms, code).Some?
    ensures Entry(Apply(crc, r, ev).alarms, code) == Some(Next(Entry(r.alarms, code).value, TouchOf(r, ev, code)))
  {
    AckAllEntry(r.alarms, ev.op.clock, code);
    assert Apply(crc, r, ev).alarms == AckAllRam(r.alarms, ev.op.clock);
  }

  /** One event takes the record of `code` one call further, or evicts it, cleared, for another code. */
  lemma EntryStep(crc: Crc, r: Registry, ev: Event, code: string)
    requires Invariant(crc, r) && Ordinary(ev) && !ev.op.OpPowerCycle? && Entry(r.alarms, code).Some?
    ensures var a, after := Entry(r.alarms, code).value, Entry(Apply(crc, r, ev).alarms, code);
            || after == Some(Next(a, TouchOf(r, ev, code)))
            || (after.None? && a.lifecycle.Cleared? && ev.op.OpRaise? && ev.op.code != code)
  {
    match ev.op
    case OpRaise(_, _, _, _) =>
      RaiseStep(crc, r, ev, code);
    case OpAcknowledgeAll(_) =>
      AckAllStep(crc, r, ev, code);
    case OpCheckpoint =>
    case OpAcknowledge(_, _) =>
      AckEntry(crc, r, ev, code);
    case _ =>
      ClearEntry(crc, r, ev, code);
  }

  /** The record of `code` is never evicted along the run, and power stays on. */
  predicate Stays(crc: Crc, r: Registry, evs: seq<Event>, code: string)
    requires |r.alarms| <= MAX_ALARMS
    decreases evs
  {
    Entry(r.alarms, code).Some? &&
    (evs != [] ==>
       && Ordinary(evs[0]) && !evs[0].op.OpPowerCycle?
       && (ApplyStaysBounded(crc, r, evs[0]); Stays(crc, Apply(crc, r, evs[0]), evs[1..], code)))
  }

  /** The calls along the run that touch it. */
  function TouchesOf(crc: Crc, r: Registry, evs: seq<Event>, code: string): seq<Touch>
    requires |r.alarms| <= MAX_ALARMS
    decreases evs
  {
    if evs == [] then []
    else
      ApplyStaysBounded(crc, r, evs[0]);
      Listed(TouchOf(r, evs[0], code)) + TouchesOf(crc, Apply(crc, r, evs[0]), evs[1..], code)
  }

  lemma {:induction false} PlayFront(a: Alarm, t: Touch, ts: seq<Touch>)
    ensures Play(a, [t] + ts) == Play(Touched(a, t), ts)
    decreases ts
  {
    var all, n := [t] + ts, |ts|;
    assert all[..n + 1] == all;
    PlayEnd(a, all, n);
    if n > 0 {
      assert all[..n] == [t] + ts[..n - 1] && ts[..n] == ts;
      PlayFront(a, t, ts[..n - 1]);
      PlayEnd(Touched(a, t), ts, n - 1);
    } else {
      assert all[..0] == [] && all[0] == t;
    }
  }

  function Listed(t: Option<Touch>): seq<Touch> {
    if t.Some? then [t.value] else []
  }

  lemma PlayNext(a: Alarm, t: Option<Touch>, ts: seq<Touch>)
    ensures Play(a, Listed(t) + ts) == Play(Next(a, t), ts)
  {
    if t.Some? {
      PlayFront(a, t.value, ts);
    } else {
      assert [] + ts == ts;
    }
  }

  /** Over any run a record is what the calls that touched it made of it, whatever befell other codes and storage. */
  lemma {:induction false} RecordIsHistory(crc: Crc, r: Registry, evs: seq<Event>, code: string)
    requires Invariant(crc, r) && Stays(crc, r, evs, code)
    ensures Entry(Run(crc, r, evs).alarms, code)
         == Some(Play(Entry(r.alarms, code).value, TouchesOf(crc, r, evs, code)))
    decreases evs
  {
    if evs != [] {
      var ev, r' := evs[0], Apply(crc, r, evs[0]);
      ApplyKeepsInvariant(crc, r, ev);
      assert Entry(r'.alarms, code).Some?;
      EntryStep(crc, r, ev, code);
      RecordIsHistory(crc, r', evs[1..], code);
      PlayNext(Entry(r.alarms, code).value, TouchOf(r, ev, code), TouchesOf(crc, r', evs[1..], code));
    }
  }

  // ---- Counters --------------------------------------------------------------------------------

  datatype Told = Nothing | Refused | Stored | NotStored

  /** What an event tells the counters. */
  function Tells(crc: Crc, r: Registry, ev: Event): Told
    requires |r.alarms| <= MAX_ALARMS
  {
    if ev.op.OpRaise? && NoRoom(r.alarms, ev.op.code) then Refused
    else if !Saves(r, ev) then Nothing
    else if Verifies(crc, r.(alarms := Apply(crc, r, ev).alarms), ev.env) then Stored
    else NotStored
  }

  datatype Tally = Tally(refused: nat, stored: nat, notStored: nat)

  function One(told: Told): Tally {
    Tally(Flag(told == Refused), Flag(told == Stored), Flag(told == NotStored))
  }

  function Plus(a: Tally, b: Tally): Tally {
    Tally(a.refused + b.refused, a.stored + b.stored, a.notStored + b.notStored)
  }

  function TallyOf(crc: Crc, r: Registry, evs: seq<Event>): Tally
    requires |r.alarms| <= MAX_ALARMS
    decreases evs
  {
    if evs == [] then Tally(0, 0, 0)
    else
      ApplyStaysBounded(crc, r, evs[0]);
      Plus(One(Tells(crc, r, evs[0])), TallyOf(crc, Apply(crc, r, evs[0]), evs[1..]))
  }

  /** The counters of `r'` are those of `r` and so many more. */
  predicate Counted(r: Registry, r': Registry, t: Tally) {
    && r'.overflow == (r.overflow + t.refused) % 0x1_0000_0000
    && r'.generation == (r.generation + t.stored) % 0x1_0000
    && r'.persistFailures == (r.persistFailures + t.notStored) % 0x1_0000_0000
  }

  lemma SaveCounts(crc: Crc, r: Registry, alarms: seq<Alarm>, e: SaveEnv)
    ensures var ok := Verifies(crc, r.(alarms := alarms), e);
            && Counted(r, Persist(crc, r, alarms, e).0, One(if ok then Stored else NotStored))
            && Persist(crc, r, alarms, e).0.alarms == alarms
  {
    SaveAnswersIff(crc, r.(alarms := alarms, dirty := true), e);
  }

  lemma NoRoomIff(alarms: seq<Alarm>, code: string, sev: Severity, message: Option<string>, now: u32)
    requires |alarms| <= 24
    ensures RaiseRam(alarms, code, sev, message, now).Saturated? <==> NoRoom(alarms, code)
  {
    VictimGoesFirst(alarms);
  }

  lemma RaiseCounts(crc: Crc, r: Registry, ev: Event)
    requires |r.alarms| <= MAX_ALARMS && ev.op.OpRaise?
    ensures Counted(r, Apply(crc, r, ev), One(Tells(crc, r, ev)))
  {
    var op := ev.op;
    NoRoomIff(r.alarms, op.code, op.sev, op.message, op.now);
    match RaiseRam(r.alarms, op.code, op.sev, op.message, op.now)
    case Changed(alarms) =>
      SaveCounts(crc, r, alarms, ev.env);
    case Touched(alarms) =>
      assert Tells(crc, r, ev) == Nothing;
    case Saturated =>
      assert Tells(crc, r, ev) == Refused;
  }

  lemma EntryCallCounts(crc: Crc, r: Registry, ev: Event)
    requires |r.alarms| <= MAX_ALARMS && (ev.op.OpClear? || ev.op.OpClearIfActive? || ev.op.OpAcknowledge?)
    ensures Counted(r, Apply(crc, r, ev), One(Tells(crc, r, ev)))
  {
    if Saves(r, ev) {
      SaveCounts(crc, r, Apply(crc, r, ev).alarms, ev.env);
    }
  }

  lemma StepCounts(crc: Crc, r: Registry, ev: Event)
    requires |r.alarms| <= MAX_ALARMS && !ev.op.OpPowerCycle?
    ensures Counted(r, Apply(crc, r, ev), One(Tells(crc, r, ev)))
  {
    match ev.op
    case OpRaise(_, _, _, _) =>
      RaiseCounts(crc, r, ev);
    case OpAcknowledgeAll(clock) =>
      SaveCounts(crc, r, AckAllRam(r.alarms, clock), ev.env);
    case OpCheckpoint =>
      SaveAnswersIff(crc, r, ev.env);
    case _ =>
      EntryCallCounts(crc, r, ev);
  }

  lemma Mod(x: nat, y: nat, z: nat, i: nat, j: nat, m: nat)
    requires m in {0x1_0000, 0x1_0000_0000} && y == (x + i) % m && z == (y + j) % m
    ensures z == (x + (i + j)) % m
  {
  }

  lemma CountOn(a: Registry, b: Registry, c: Registry, t: Tally, t': Tally)
    requires Counted(a, b, t) && Counted(b, c, t')
    ensures Counted(a, c, Plus(t, t'))
  {
    Mod(a.overflow, b.overflow, c.overflow, t.refused, t'.refused, 0x1_0000_0000);
    Mod(a.generation, b.generation, c.generation, t.stored, t'.stored, 0x1_0000);
    Mod(a.persistFailures, b.persistFailures, c.persistFailures, t.notStored, t'.notStored, 0x1_0000_0000);
  }

  /** While power stays on the counters count rejected raises, verified saves and failed saves. */
  lemma {:induction false} CountersAreHistory(crc: Crc, r: Registry, evs: seq<Event>)
    requires |r.alarms| <= MAX_ALARMS && forall ev | ev in evs :: !ev.op.OpPowerCycle?
    ensures Counted(r, Run(crc, r, evs), TallyOf(crc, r, evs))
    decreases evs
  {
    if evs != [] {
      var r', rest := Apply(crc, r, evs[0]), evs[1..];
      ApplyStaysBounded(crc, r, evs[0]);
      StepCounts(crc, r, evs[0]);
      CountersAreHistory(crc, r', rest);
      CountOn(r, r', Run(crc, r', rest), One(Tells(crc, r, evs[0])), TallyOf(crc, r', rest));
    }
  }
}
