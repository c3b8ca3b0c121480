/**
 * The alarm registry on values: what one call does to the table of alarms, to
 * the counters and to the single NVS record.
 */
module AlarmModel {
  import opened Common

  const MAX_ALARMS: nat := 24
  const CODE_LEN: nat := 32
  const MESSAGE_LEN: nat := 80
  const MAGIC: u32 := 0x414C524D
  const STATE_VERSION: u16 := 2
  const NEVER: u32 := 0xFFFF_FFFF

  datatype Severity = Info | Warning | Critical

  datatype Lifecycle = Active | Acknowledged | Cleared

  datatype Alarm = Alarm(
    code: string, severity: Severity, lifecycle: Lifecycle,
    raisedAt: u32, acknowledgedAt: u32, clearedAt: u32, lastUpdatedAt: u32, message: string)

  datatype RaiseResult = Rejected | AcceptedRam | AcceptedPersisted | AcceptedPersistFailed | LockUnavailable

  function Rank(s: Severity): nat {
    match s case Info => 0 case Warning => 1 case Critical => 2
  }

  predicate Live(a: Alarm) {
    !a.lifecycle.Cleared?
  }

  /** What `strncpy` into an n-byte buffer followed by a terminator keeps. */
  function Clip(s: string, n: nat): string
    requires n > 0
  {
    if |s| < n then s else s[..n - 1]
  }

  // ---- The table --------------------------------------------------------------

  function IndexOf(alarms: seq<Alarm>, code: string): (i: Option<nat>)
    ensures i.Some? ==> i.value < |alarms| && alarms[i.value].code == code
    ensures i.Some? ==> forall k | 0 <= k < i.value :: alarms[k].code != code
    ensures i.None? ==> forall k | 0 <= k < |alarms| :: alarms[k].code != code
  {
    if alarms == [] then None
    else if alarms[0].code == code then Some(0)
    else
      match IndexOf(alarms[1..], code)
      case None => None
      case Some(k) => Some(k + 1)
  }

  /** Lexicographic order on (clearedAt, raisedAt). */
  predicate Older(c1: u32, r1: u32, c2: u32, r2: u32) {
    c1 < c2 || (c1 == c2 && r1 < r2)
  }

  predicate Precedes(a: Alarm, b: Alarm) {
    Older(a.clearedAt, a.raisedAt, b.clearedAt, b.raisedAt)
  }

  /** The scan starts from all-ones, so an entry with both stamps there is never chosen. */
  predicate Evictable(a: Alarm) {
    a.lifecycle.Cleared? && Older(a.clearedAt, a.raisedAt, NEVER, NEVER)
  }

  /** The first of the evictable entries least in (clearedAt, raisedAt). */
  predicate IsVictim(alarms: seq<Alarm>, i: nat) {
    && i < |alarms| && Evictable(alarms[i])
    && (forall k | 0 <= k < |alarms| && Evictable(alarms[k]) :: !Precedes(alarms[k], alarms[i]))
    && (forall k | 0 <= k < i && Evictable(alarms[k]) :: Precedes(alarms[i], alarms[k]))
  }

  function Victim(alarms: seq<Alarm>): (v: Option<nat>)
    ensures v.Some? ==> IsVictim(alarms, v.value)
    ensures v.None? ==> forall k | 0 <= k < |alarms| :: !Evictable(alarms[k])
  {
    if alarms == [] then None
    else
      var n := |alarms| - 1;
      var a := alarms[n];
      match Victim(alarms[..n])
      case None => if Evictable(a) then Some(n) else None
      case Some(k) => if Evictable(a) && Precedes(a, alarms[k]) then Some(n) else Some(k)
  }

  function RemoveAt(alarms: seq<Alarm>, i: nat): seq<Alarm>
    requires i < |alarms|
  {
    alarms[..i] + alarms[i + 1..]
  }

  function Fresh(code: string, sev: Severity, message: Option<string>, now: u32): Alarm {
    Alarm(Clip(code, CODE_LEN), sev, Active, now, 0, 0, now,
          if message.Some? then Clip(message.value, MESSAGE_LEN) else "")
  }

  /** Raising an entry that exists; the flag says whether it must be persisted now. */
  function Refresh(a: Alarm, sev: Severity, message: Option<string>, now: u32): (Alarm, bool) {
    var reactivated := a.lifecycle.Cleared?;
    var escalated := !reactivated && Rank(sev) > Rank(a.severity);
    var a' :=
      if reactivated then
        a.(lifecycle := Active, raisedAt := now, acknowledgedAt := 0, clearedAt := 0,
           lastUpdatedAt := now, severity := sev)
      else a.(severity := if escalated then sev else a.severity, lastUpdatedAt := now);
    var reworded := message.Some? && message.value != "" && message.value != a.message;
    (if reworded then a'.(message := Clip(message.value, MESSAGE_LEN)) else a',
     reactivated || escalated || reworded)
  }

  datatype RaiseEffect =
    | Changed(alarms: seq<Alarm>)   // to be persisted at once
    | Touched(alarms: seq<Alarm>)   // only lastUpdatedAt moved
    | Saturated

  function RaiseRam(alarms: seq<Alarm>, code: string, sev: Severity, message: Option<string>, now: u32): RaiseEffect {
    match IndexOf(alarms, code)
    case None =>
      if |alarms| < MAX_ALARMS then Changed(alarms + [Fresh(code, sev, message, now)])
      else (
        match Victim(alarms)
        case None => Saturated
        case Some(v) => Changed(RemoveAt(alarms, v) + [Fresh(code, sev, message, now)]))
    case Some(i) =>
      var (a, meaningful) := Refresh(alarms[i], sev, message, now);
      if meaningful then Changed(alarms[i := a]) else Touched(alarms[i := a])
  }

  function ClearAlarm(a: Alarm, now: u32): Alarm {
    a.(lifecycle := Cleared, clearedAt := now, lastUpdatedAt := now)
  }

  function AckAlarm(a: Alarm, now: u32): Alarm {
    a.(lifecycle := Acknowledged, acknowledgedAt := now, lastUpdatedAt := now)
  }

  /** acknowledgeAll touches active entries only, reading the clock once for each. */
  function AckActive(a: Alarm, now: u32): Alarm {
    if a.lifecycle.Active? then a.(lifecycle := Acknowledged, acknowledgedAt := now) else a
  }

  type Clock = c: seq<u32> | |c| == MAX_ALARMS witness seq(MAX_ALARMS, _ => 0)

  function AckAllRam(alarms: seq<Alarm>, clock: Clock): seq<Alarm>
    requires |alarms| <= MAX_ALARMS
  {
    seq(|alarms|, i requires 0 <= i < |alarms| => AckActive(alarms[i], clock[i]))
  }

  // ---- The NVS record -----------------------------------------------------------

  datatype Header = Header(magic: u32, version: u16, generation: u16, count: nat)

  /** The checksum routine; save and load use the same one. */
  type Crc = (Header, seq<Alarm>) -> u32

  datatype Blob = Blob(header: Header, crc: u32, body: seq<Alarm>)

  /** The round-5 pair of records, read once for migration. */
  datatype Legacy = Legacy(magic: u32, version: u32, count: nat, crc: u32, body: seq<Alarm>)

  datatype Flash = Flash(state: Option<Blob>, legacy: Option<Legacy>)

  function MakeBlob(crc: Crc, generation: u16, alarms: seq<Alarm>): Blob {
    var h := Header(MAGIC, STATE_VERSION, generation, |alarms|);
    Blob(h, crc(h, alarms), alarms)
  }

  predicate Recognised(b: Blob) {
    b.header.magic == MAGIC && b.header.version == STATE_VERSION
  }

  function ReadBlob(crc: Crc, b: Blob): seq<Alarm> {
    var n := b.header.count;
    if n <= MAX_ALARMS && n <= |b.body| && crc(b.header, b.body[..n]) == b.crc then b.body[..n] else []
  }

  predicate LegacyRecognised(l: Legacy) {
    l.magic == MAGIC && l.version == 1 && l.count <= MAX_ALARMS
  }

  /** The legacy header's checksum covers the same fields; its generation is absent. */
  predicate LegacySound(crc: Crc, l: Legacy) {
    && LegacyRecognised(l) && l.count <= |l.body|
    && crc(Header(l.magic, 1, 0, l.count), l.body[..l.count]) == l.crc
  }

  /** The table in the legacy pair, if it is sound. */
  function LegacyTable(crc: Crc, f: Flash): seq<Alarm> {
    if f.legacy.Some? && LegacySound(crc, f.legacy.value) then f.legacy.value.body[..f.legacy.value.count] else []
  }

  /** What a boot with working storage finds. */
  function Recovered(crc: Crc, f: Flash): seq<Alarm> {
    if f.state.Some? && Recognised(f.state.value) then ReadBlob(crc, f.state.value) else LegacyTable(crc, f)
  }

  datatype Registry = Registry(
    alarms: seq<Alarm>, dirty: bool, overflow: u32, persistFailures: u32, generation: u16, flash: Flash)

  /**
   * What storage does during one save. `landed`: the one-key write reached the
   * flash (all of it or nothing); `full`: the write reported its full length.
   */
  datatype SaveEnv = SaveEnv(memory: bool, opens: bool, landed: bool, full: bool, readsBack: bool)

  /**
   * What storage does during one load. `prefix`: asked for fewer bytes than a record has,
   * the library returns that many; otherwise it returns nothing.
   */
  datatype LoadEnv = LoadEnv(opens: bool, memory: bool, prefix: bool)

  function Bump32(x: u32): u32 {
    (x + 1) % U32_SIZE
  }

  function Bump16(x: u16): u16 {
    (x + 1) % U16_SIZE
  }

  function Save(crc: Crc, r: Registry, e: SaveEnv): (Registry, bool) {
    var blob := MakeBlob(crc, Bump16(r.generation), r.alarms);
    var failed := r.(persistFailures := Bump32(r.persistFailures));
    if !e.memory || !e.opens then (failed, false)
    else
      var flash := if e.landed then r.flash.(state := Some(blob)) else r.flash;
      if e.full && e.readsBack && flash.state == Some(blob) then
        (r.(flash := flash, generation := Bump16(r.generation), dirty := false), true)
      else (failed.(flash := flash), false)
  }

  /** The header is asked for by its own size, which only a record without alarms has. */
  predicate HeaderRead(b: Blob, l: LoadEnv) {
    Recognised(b) && (l.prefix || b.body == [])
  }

  /** The legacy array is asked for by the size its header gives. */
  predicate LegacyRead(crc: Crc, f: Flash, l: LoadEnv) {
    && f.legacy.Some? && LegacySound(crc, f.legacy.value)
    && (l.prefix || f.legacy.value.count == 0 || f.legacy.value.count == |f.legacy.value.body|)
  }

  function Load(crc: Crc, r: Registry, l: LoadEnv, e: SaveEnv): Registry {
    if !l.opens then r
    else if r.flash.state.Some? && HeaderRead(r.flash.state.value, l) then
      var b := r.flash.state.value;
      var n := b.header.count;
      if n > MAX_ALARMS || !l.memory then r
      else if n <= |b.body| && crc(b.header, b.body[..n]) == b.crc then
        r.(alarms := b.body[..n], dirty := false, generation := b.header.generation)
      else r
    else if LegacyRead(crc, r.flash, l) then
      Save(crc, r.(alarms := LegacyTable(crc, r.flash), dirty := false), e).0
    else r
  }

  /** Power comes back: RAM is gone, only the flash is left. */
  function Boot(crc: Crc, f: Flash, l: LoadEnv, e: SaveEnv): Registry {
    Load(crc, Registry([], false, 0, 0, 0, f), l, e)
  }

  // ---- The public calls -----------------------------------------------------------

  function Persist(crc: Crc, r: Registry, alarms: seq<Alarm>, e: SaveEnv): (Registry, bool) {
    Save(crc, r.(alarms := alarms, dirty := true), e)
  }

  function Raise(crc: Crc, r: Registry, code: string, sev: Severity, message: Option<string>, now: u32, e: SaveEnv)
    : (Registry, RaiseResult)
  {
    match RaiseRam(r.alarms, code, sev, message, now)
    case Saturated => (r.(overflow := Bump32(r.overflow)), Rejected)
    case Touched(alarms) => (r.(alarms := alarms), AcceptedRam)
    case Changed(alarms) =>
      var (r', ok) := Persist(crc, r, alarms, e);
      (r', if ok then AcceptedPersisted else AcceptedPersistFailed)
  }

  function Clear(crc: Crc, r: Registry, code: string, now: u32, e: SaveEnv): Registry {
    match IndexOf(r.alarms, code)
    case None => r
    case Some(i) => Persist(crc, r, r.alarms[i := ClearAlarm(r.alarms[i], now)], e).0
  }

  function ClearIfActive(crc: Crc, r: Registry, code: string, now: u32, e: SaveEnv): (Registry, bool) {
    match IndexOf(r.alarms, code)
    case None => (r, false)
    case Some(i) =>
      if Live(r.alarms[i]) then (Clear(crc, r, code, now, e), true) else (r, false)
  }

  function Acknowledge(crc: Crc, r: Registry, code: string, now: u32, e: SaveEnv): Registry {
    match IndexOf(r.alarms, code)
    case None => r
    case Some(i) => Persist(crc, r, r.alarms[i := AckAlarm(r.alarms[i], now)], e).0
  }

  function AcknowledgeAll(crc: Crc, r: Registry, clock: Clock, e: SaveEnv): Registry
    requires |r.alarms| <= MAX_ALARMS
  {
    Persist(crc, r, AckAllRam(r.alarms, clock), e).0
  }
}
