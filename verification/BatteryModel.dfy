/**
 * The BMS manager on values: probing, locking, losing, and the cross-check of
 * the battery's own current against the shunt.
 */
module BatteryModel {
  import opened Common

  const PROBE_ORDER_LEN: nat := 4
  const LOCK_SUCCESSES: nat := 2
  const LOST_FAILURES: nat := 3
  const COOLDOWN_MS: nat := 60000
  const ATTEMPTS_PER_CLIENT: nat := 3
  const RESPONSE_WINDOW_MS: nat := 1500
  const SUSTAIN: nat := 3

  /** A float that may be NaN. */
  type Reading = Option<real>

  datatype Data = Data(soc: Reading, current: Reading, faults: u16, lastUpdate: u32)

  const NO_DATA: Data := Data(None, None, 0, 0)

  datatype Mode = Disabled | Probing | Locked | Lost | IdleNoBms

  /** Clients are named by their place in the probe order. */
  datatype Manager = Manager(
    mode: Mode, active: Option<nat>, data: Data, lockMs: u32, probeCycle: nat,
    probeIdx: nat, attempts: nat, startMs: u32, waiting: bool, probing: Option<nat>, successes: nat, lostSince: u32,
    lastPoll: u32, awaiting: bool, sentMs: u32, failures: nat,
    streak: nat, mismatch: bool, lastMismatch: Reading)

  /** Which slots of the probe order have a client. */
  type Clients = c: seq<bool> | |c| == PROBE_ORDER_LEN witness [false, false, false, false]

  /**
   * One call of `tick`. `requestOk`: the addressed client could send; `answer`:
   * the data of a poll that succeeded.
   */
  datatype Tick = Tick(locked: bool, now: u32, interval: u32, requestOk: bool, answer: Option<Data>)

  // ---- Probing -----------------------------------------------------------------------------

  /** First client at or after `idx`, and the index the scan stops at. */
  function NextClient(clients: Clients, idx: nat): (r: (nat, Option<nat>))
    requires idx <= PROBE_ORDER_LEN
    ensures idx <= r.0 <= PROBE_ORDER_LEN
    ensures r.1.Some? ==> idx <= r.1.value && r.0 == r.1.value + 1 && clients[r.1.value]
    ensures r.1.None? ==> r.0 == PROBE_ORDER_LEN && forall k | idx <= k < PROBE_ORDER_LEN :: !clients[k]
    decreases PROBE_ORDER_LEN - idx
  {
    if idx == PROBE_ORDER_LEN then (idx, None)
    else if clients[idx] then (idx + 1, Some(idx))
    else NextClient(clients, idx + 1)
  }

  /** One attempt at the current client is used up; after the third the next tick moves on. */
  function Spend(m: Manager): Manager {
    m.(attempts := m.attempts + 1, probing := if m.attempts + 1 >= ATTEMPTS_PER_CLIENT then None else m.probing)
  }

  function Lock(m: Manager, d: Data, now: u32): Manager {
    m.(mode := Locked, active := m.probing, data := d, lockMs := now, failures := 0, awaiting := false,
       probing := None, successes := 0, probeIdx := 0, lostSince := now)
  }

  /** The client being probed is asked, or listened to. */
  function Probe(m: Manager, t: Tick): Manager {
    if !m.waiting then (if t.requestOk then m.(waiting := true, startMs := t.now) else Spend(m))
    else if t.answer.Some? then
      (if m.successes + 1 >= LOCK_SUCCESSES then Lock(m, t.answer.value, t.now)
       else m.(successes := m.successes + 1, waiting := false))
    else if Elapsed(t.now, m.startMs) > RESPONSE_WINDOW_MS then Spend(m.(waiting := false, successes := 0))
    else m
  }

  /** Move to the next client when none is being probed; None probing afterwards means none is left. */
  function Advance(m: Manager, clients: Clients): Manager
    requires m.probeIdx <= PROBE_ORDER_LEN
  {
    if m.probing.Some? then m
    else
      var (idx, c) := NextClient(clients, m.probeIdx);
      if c.Some? then m.(probeIdx := idx, probing := c, attempts := 0) else m.(probeIdx := idx)
  }

  function ProbingTick(m: Manager, clients: Clients, t: Tick): Manager
    requires m.probeIdx <= PROBE_ORDER_LEN
  {
    var m' := Advance(m, clients);
    if m'.probing.None? then m'.(mode := IdleNoBms, lostSince := t.now, probeCycle := m.probeCycle + 1)
    else Probe(m', t)
  }

  // ---- Locked ------------------------------------------------------------------------------

  function Interval(t: Tick): u32 {
    if t.interval != 0 then t.interval else 5000
  }

  predicate PollDue(m: Manager, t: Tick) {
    !m.awaiting && Elapsed(t.now, m.lastPoll) >= Interval(t)
  }

  function Ask(m: Manager, t: Tick): Manager {
    if !PollDue(m, t) then m
    else
      var m' := m.(lastPoll := t.now);
      if t.requestOk then m'.(awaiting := true, sentMs := t.now) else m'.(failures := m.failures + 1)
  }

  function Listen(m: Manager, t: Tick): Manager {
    if !m.awaiting then m
    else if t.answer.Some? then m.(data := t.answer.value, awaiting := false, failures := 0)
    else if Elapsed(t.now, m.sentMs) > 3 * RESPONSE_WINDOW_MS then m.(awaiting := false, failures := m.failures + 1)
    else m
  }

  predicate ActiveClient(m: Manager, clients: Clients) {
    m.active.Some? && m.active.value < PROBE_ORDER_LEN && clients[m.active.value]
  }

  function LockedTick(m: Manager, clients: Clients, t: Tick): Manager {
    if !ActiveClient(m, clients) then m.(mode := Lost, lostSince := t.now)
    else
      var m' := Listen(Ask(m, t), t);
      if m'.failures >= LOST_FAILURES then m'.(mode := Lost, lostSince := t.now) else m'
  }

  // ---- The state machine --------------------------------------------------------------------

  predicate CooledDown(m: Manager, t: Tick) {
    Elapsed(t.now, m.lostSince) >= COOLDOWN_MS
  }

  function Reprobe(m: Manager): Manager {
    m.(mode := Probing, probeIdx := 0, probing := None, successes := 0, attempts := 0)
  }

  function TickEffect(m: Manager, clients: Clients, t: Tick): Manager
    requires m.probeIdx <= PROBE_ORDER_LEN
  {
    if !t.locked then m
    else
      match m.mode
      case Disabled => m
      case Probing => ProbingTick(m, clients, t)
      case Locked => LockedTick(m, clients, t)
      case Lost => if CooledDown(m, t) then Reprobe(m).(active := None, data := NO_DATA) else m
      case IdleNoBms => if CooledDown(m, t) then Reprobe(m).(lostSince := t.now) else m
  }

  /** Clients are rebuilt and the machine restarted; every counter and timer keeps its value. */
  function Reconfigure(m: Manager, enabled: bool): Manager {
    m.(mode := if enabled then Probing else Disabled, probing := None)
  }

  // ---- Cross-check and authority -------------------------------------------------------------

  /** One call of `crossCheckShunt`; the shunt reading is None when it is not a number. */
  datatype Check = Check(locked: bool, shunt: Reading, now: u32, interval: u32)

  function Window(interval: u32): u32 {
    (2 * interval + 2000) % U32_SIZE
  }

  predicate Fresh(d: Data, now: u32, interval: u32) {
    d.lastUpdate != 0 && Elapsed(now, d.lastUpdate) < Window(interval)
  }

  predicate PlausibleCurrent(r: Reading) {
    r.Some? && -1000.0 <= r.value <= 1000.0
  }

  predicate PlausibleSoc(r: Reading) {
    r.Some? && 0.0 <= r.value <= 100.0
  }

  predicate Comparable(m: Manager, c: Check) {
    Fresh(m.data, c.now, c.interval) && c.shunt.Some? && PlausibleCurrent(m.data.current)
  }

  function Delta(bms: real, shunt: real): real {
    Abs(bms - shunt)
  }

  function Threshold(shunt: real): real {
    MaxReal(0.5, 0.05 * Abs(shunt))
  }

  /** The call compared the two currents and found them too far apart. */
  predicate Over(m: Manager, c: Check) {
    Comparable(m, c) && Delta(m.data.current.value, c.shunt.value) > Threshold(c.shunt.value)
  }

  function CheckEffect(m: Manager, c: Check): (Manager, Reading) {
    if !c.locked then (m, None)
    else if !Comparable(m, c) then (m.(streak := 0, mismatch := false, lastMismatch := None), None)
    else
      var delta := Delta(m.data.current.value, c.shunt.value);
      var m' := m.(lastMismatch := Some(delta));
      if Over(m, c) then
        var streak := if m.streak < SUSTAIN then m.streak + 1 else m.streak;
        (m'.(streak := streak, mismatch := m.mismatch || streak >= SUSTAIN), Some(delta))
      else (m'.(streak := 0, mismatch := false), Some(delta))
  }

  predicate SocAuthoritative(m: Manager, locked: bool, now: u32, interval: u32) {
    && locked && m.mode.Locked? && PlausibleSoc(m.data.soc) && Fresh(m.data, now, interval)
    && m.data.faults == 0 && !m.mismatch
  }
}
