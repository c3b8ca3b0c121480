/** The shunt monitor with its automatic gain: one tick on values. */
module InaModel {
  import opened Common

  const SWITCH_UP_A: real := 100.0
  const SWITCH_DOWN_A: real := 90.0
  const SPIKE_REJECT_A: real := 160.0
  const SMOOTH_ALPHA: real := 0.3
  const SHUNT_OHM: real := 0.00075
  const SIGN: real := -1.0
  const MAX_ERRORS: nat := 10
  const RECOVERY_MS: nat := 60000
  const READ_INTERVAL_MS: nat := 500

  type i16 = x: int | -0x8000 <= x < 0x8000

  datatype Gain = Fine | Coarse   // +-80 mV and +-160 mV full scale

  datatype Status = Ok | I2cError | OutOfRange | Cooldown

  datatype Reading = Reading(status: Status, shuntV: real, busV: real, current: real, power: real, timestamp: u32, gain: Gain)

  datatype Monitor = Monitor(
    available: bool, gain: Gain, discard: bool, ema: Option<real>, errors: u8, nextRetry: u32, lastRead: u32, reading: Reading)

  datatype Registers = Registers(shunt: i16, bus: u16)

  /** `regs`: what both reads returned, None if one failed. `applied`: a gain write, if made, verified. */
  datatype Input = Input(now: u32, regs: Option<Registers>, applied: bool)

  function ShuntVolts(shunt: i16): real {
    shunt as real * 0.00001
  }

  function BusVolts(bus: u16): real {
    var fixed := bus / 8;
    if fixed == 0x1FFF then 0.0 else fixed as real * 0.004
  }

  function Amps(shunt: i16): real {
    ShuntVolts(shunt) / SHUNT_OHM * SIGN
  }

  predicate Saturated(shunt: i16) {
    Abs(ShuntVolts(shunt)) * 1000.0 > 78.0
  }

  /** A verified gain change: the next sample will be thrown away. */
  function SetGain(m: Monitor, g: Gain, applied: bool): Monitor {
    if applied then m.(gain := g, discard := true) else m
  }

  function EvaluateGain(m: Monitor, level: real, applied: bool): Monitor {
    if m.gain == Fine && level >= SWITCH_UP_A then SetGain(m, Coarse, applied)
    else if m.gain == Coarse && level < SWITCH_DOWN_A then SetGain(m, Fine, applied)
    else m
  }

  function Smooth(ema: Option<real>, i: real): real {
    if ema.None? then i else ema.value * (1.0 - SMOOTH_ALPHA) + i * SMOOTH_ALPHA
  }

  function Report(m: Monitor, r: Registers, now: u32): Monitor
    requires m.ema.Some?
  {
    var busV := BusVolts(r.bus);
    m.(reading := Reading(Ok, ShuntVolts(r.shunt), busV, m.ema.value, busV * m.ema.value, now, m.gain))
  }

  function Measure(m: Monitor, r: Registers, now: u32, applied: bool): Monitor {
    var i := Amps(r.shunt);
    if Abs(i) > SPIKE_REJECT_A then m.(reading := m.reading.(status := OutOfRange))
    else EvaluateGain(Report(m.(ema := Some(Smooth(m.ema, i))), r, now), Abs(i), applied)
  }

  function Sample(m: Monitor, r: Registers, now: u32, applied: bool): Monitor {
    var m' := m.(errors := 0);
    if m.gain == Fine && Saturated(r.shunt) then
      var s := SetGain(m', Coarse, applied);
      s.(reading := m.reading.(status := OutOfRange))
    else Measure(m', r, now, applied)
  }

  function ReadError(m: Monitor, now: u32): Monitor {
    var errors := (m.errors + 1) % 256;
    m.(reading := m.reading.(status := I2cError), errors := errors,
       nextRetry := if errors >= MAX_ERRORS then (now + RECOVERY_MS) % U32_SIZE else m.nextRetry)
  }

  /** The tick is still in the cooldown after ten errors in a row; the comparison does not wrap. */
  predicate Cooling(m: Monitor, now: u32) {
    m.nextRetry > 0 && now < m.nextRetry
  }

  /** The tick goes on to look at the sensor. */
  predicate Due(m: Monitor, now: u32) {
    m.available && !Cooling(m, now) && Elapsed(now, m.lastRead) >= READ_INTERVAL_MS
  }

  function Resume(m: Monitor): Monitor {
    if m.nextRetry > 0 then m.(nextRetry := 0, errors := 0) else m
  }

  function TickEffect(m: Monitor, t: Input): Monitor {
    if !m.available then m
    else if Cooling(m, t.now) then m.(reading := m.reading.(status := Cooldown))
    else if Elapsed(t.now, m.lastRead) < READ_INTERVAL_MS then Resume(m)
    else
      var m' := Resume(m).(lastRead := t.now);
      if m.discard then m'.(discard := false, reading := m.reading.(status := Ok))
      else if t.regs.None? then ReadError(m', t.now)
      else Sample(m', t.regs.value, t.now, t.applied)
  }
}

/** The driver as the firmware runs it. */
module Ina219 {
  import opened Common
  import opened InaModel

  class Ina219Driver {
    var available: bool
    var gain: Gain
    var discardNextSample: bool
    var ema: real
    var emaInit: bool
    var consecutiveErrors: u8
    var nextRetryMs: u32
    var lastReadMs: u32
    var reading: Reading

    ghost function View(): Monitor
      reads this
    {
      Monitor(available, gain, discardNextSample, if emaInit then Some(ema) else None,
              consecutiveErrors, nextRetryMs, lastReadMs, reading)
    }

    /** `begin()`; the initial gain write leaves a sample to discard. */
    constructor (present: bool)
      ensures View() == Monitor(present, Fine, present, None, 0, 0, 0, Reading(Ok, 0.0, 0.0, 0.0, 0.0, 0, Fine))
    {
      available, gain, discardNextSample := present, Fine, present;
      ema, emaInit, consecutiveErrors, nextRetryMs, lastReadMs := 0.0, false, 0, 0, 0;
      reading := Reading(Ok, 0.0, 0.0, 0.0, 0.0, 0, Fine);
    }

    method ApplyGain(g: Gain, applied: bool)
      modifies this`gain, this`discardNextSample
      ensures View() == SetGain(old(View()), g, applied)
    {
      if !applied {
        return;
      }
      gain := g;
      discardNextSample := true;
    }

    method EvaluateSwitch(level: real, applied: bool)
      modifies this`gain, this`discardNextSample
      ensures View() == EvaluateGain(old(View()), level, applied)
    {
      if gain == Fine && level >= SWITCH_UP_A {
        ApplyGain(Coarse, applied);
      } else if gain == Coarse && level < SWITCH_DOWN_A {
        ApplyGain(Fine, applied);
      }
    }

    method Average(i: real)
      modifies this`ema, this`emaInit
      ensures emaInit && View() == old(View()).(ema := Some(Smooth(old(View()).ema, i)))
    {
      if !emaInit {
        ema := i;
        emaInit := true;
      } else {
        ema := ema * (1.0 - SMOOTH_ALPHA) + i * SMOOTH_ALPHA;
      }
    }

    method Publish(r: Registers, now: u32)
      requires emaInit
      modifies this`reading
      ensures View() == Report(old(View()), r, now)
    {
      var busV := BusVolts(r.bus);
      reading := Reading(Ok, ShuntVolts(r.shunt), busV, ema, busV * ema, now, gain);
    }

    method Accept(r: Registers, now: u32, applied: bool)
      modifies this`gain, this`discardNextSample, this`ema, this`emaInit, this`reading
      ensures View() == Measure(old(View()), r, now, applied)
    {
      var rawCurrent := ShuntVolts(r.shunt) / SHUNT_OHM * SIGN;
      if Abs(rawCurrent) > SPIKE_REJECT_A {
        reading := reading.(status := OutOfRange);
        return;
      }
      Average(rawCurrent);
      Publish(r, now);
      EvaluateSwitch(Abs(rawCurrent), applied);
    }

    method CountError(now: u32)
      modifies this`reading, this`consecutiveErrors, this`nextRetryMs
      ensures View() == ReadError(old(View()), now)
    {
      reading := reading.(status := I2cError);
      consecutiveErrors := (consecutiveErrors + 1) % 256;
      if consecutiveErrors >= MAX_ERRORS {
        nextRetryMs := (now + RECOVERY_MS) % U32_SIZE;
      }
    }

    method ReadSample(r: Registers, now: u32, applied: bool)
      modifies this
      ensures View() == Sample(old(View()), r, now, applied)
    {
      consecutiveErrors := 0;
      if gain == Fine {
        if Abs(ShuntVolts(r.shunt)) * 1000.0 > 78.0 {
          ApplyGain(Coarse, applied);
          reading := reading.(status := OutOfRange);
          return;
        }
      }
      Accept(r, now, applied);
    }

    method Tick(t: Input)
      modifies this
      ensures View() == TickEffect(old(View()), t)
    {
      if !available {
        return;
      }
      if nextRetryMs > 0 {
        if t.now < nextRetryMs {
          reading := reading.(status := Cooldown);
          return;
        }
        nextRetryMs := 0;
        consecutiveErrors := 0;
      }
      if Elapsed(t.now, lastReadMs) < READ_INTERVAL_MS {
        return;
      }
      lastReadMs := t.now;
      if discardNextSample {
        discardNextSample := false;
        reading := reading.(status := Ok);
        return;
      }
      if t.regs.None? {
        CountError(t.now);
        return;
      }
      ReadSample(t.regs.value, t.now, t.applied);
    }
  }
}

/** Gain changes over whole runs, and the bound on the reported current. */
module InaProperties {
  import opened Common
  import opened InaModel

  function Run(m: Monitor, ts: seq<Input>): Monitor
    decreases ts
  {
    if ts == [] then m else TickEffect(Run(m, ts[..|ts| - 1]), ts[|ts| - 1])
  }

  /** The tick reads the sensor and gets an answer it does not throw away. */
  predicate Reads(m: Monitor, t: Input) {
    Due(m, t.now) && !m.discard && t.regs.Some?
  }

  function Level(t: Input): real
    requires t.regs.Some?
  {
    Abs(Amps(t.regs.value.shunt))
  }

  predicate Switches(m: Monitor, t: Input) {
    TickEffect(m, t).gain != m.gain
  }

  // ---- One tick -----------------------------------------------------------------------------

  lemma AmpsOfShunt(shunt: i16)
    ensures Amps(shunt) == -(shunt as real) / 75.0
    ensures Saturated(shunt) <==> Abs(Amps(shunt)) > 104.0
  {
  }

  /** A change to coarse gain needs at least 100 A, a change back an accepted sample below 90 A. */
  lemma SwitchNeedsLevel(m: Monitor, t: Input)
    requires Switches(m, t)
    ensures Reads(m, t) && t.applied
    ensures m.gain == Fine ==> Level(t) >= SWITCH_UP_A
    ensures m.gain == Coarse ==> Level(t) < SWITCH_DOWN_A
    ensures TickEffect(m, t).discard
  {
    AmpsOfShunt(t.regs.value.shunt);
  }

  /** A tick with a sample to throw away changes neither the gain nor the average. */
  lemma DiscardedTick(m: Monitor, t: Input)
    requires m.discard
    ensures TickEffect(m, t).gain == m.gain && TickEffect(m, t).ema == m.ema
    ensures TickEffect(m, t).discard <==> !Due(m, t.now)
  {
  }

  lemma DiscardOnlyBySwitch(m: Monitor, t: Input)
    requires !m.discard
    ensures TickEffect(m, t).discard <==> Switches(m, t)
  {
  }

  // ---- Runs ---------------------------------------------------------------------------------

  function SwitchCount(m: Monitor, ts: seq<Input>): nat
    decreases ts
  {
    if ts == [] then 0
    else SwitchCount(m, ts[..|ts| - 1]) + Flag(Switches(Run(m, ts[..|ts| - 1]), ts[|ts| - 1]))
  }

  function DiscardCount(m: Monitor, ts: seq<Input>): nat
    decreases ts
  {
    if ts == [] then 0
    else
      var r := Run(m, ts[..|ts| - 1]);
      DiscardCount(m, ts[..|ts| - 1]) + Flag(r.discard && Due(r, ts[|ts| - 1].now))
  }

  /** Every gain change is followed by one discarded sample before the next can happen. */
  lemma {:induction false} OneDiscardPerSwitch(m: Monitor, ts: seq<Input>)
    ensures SwitchCount(m, ts) + Flag(m.discard) == DiscardCount(m, ts) + Flag(Run(m, ts).discard)
    decreases ts
  {
    if ts != [] {
      var r, t := Run(m, ts[..|ts| - 1]), ts[|ts| - 1];
      OneDiscardPerSwitch(m, ts[..|ts| - 1]);
      if r.discard {
        DiscardedTick(r, t);
      } else {
        DiscardOnlyBySwitch(r, t);
      }
    }
  }

  /** The magnitudes read along a run, in order. */
  function Levels(m: Monitor, ts: seq<Input>): seq<real>
    decreases ts
  {
    if ts == [] then []
    else
      var r, t := Run(m, ts[..|ts| - 1]), ts[|ts| - 1];
      Levels(m, ts[..|ts| - 1]) + if Reads(r, t) then [Level(t)] else []
  }

  /** Total movement of a sequence. */
  function Variation(s: seq<real>): real {
    if |s| < 2 then 0.0 else Variation(s[..|s| - 1]) + Abs(s[|s| - 1] - s[|s| - 2])
  }

  /** The gain last changed at level `at`, and the current has moved 10 A for every change before. */
  predicate Swung(g: Gain, n: nat, levels: seq<real>, at: real) {
    && levels != [] && n > 0
    && (if g == Coarse then at >= SWITCH_UP_A else at < SWITCH_DOWN_A)
    && Variation(levels) >= 10.0 * (n - 1) as real + Abs(levels[|levels| - 1] - at)
  }

  ghost predicate Swinging(m: Monitor, first: Gain, n: nat, levels: seq<real>) {
    if n == 0 then m.gain == first else exists at: real :: Swung(m.gain, n, levels, at)
  }

  lemma VariationSnoc(s: seq<real>, x: real)
    ensures s == [] ==> Variation(s + [x]) == 0.0
    ensures s != [] ==> Variation(s + [x]) == Variation(s) + Abs(x - s[|s| - 1])
  {
    assert (s + [x])[..|s|] == s;
  }

  lemma Triangle(x: real, y: real, z: real)
    ensures Abs(x - z) <= Abs(x - y) + Abs(y - z)
  {
  }

  lemma StepKeepsSwinging(m: Monitor, first: Gain, n: nat, levels: seq<real>, t: Input)
    requires Swinging(m, first, n, levels)
    ensures Swinging(TickEffect(m, t), first, n + Flag(Switches(m, t)),
                     levels + if Reads(m, t) then [Level(t)] else [])
  {
    var m' := TickEffect(m, t);
    if Switches(m, t) {
      SwitchNeedsLevel(m, t);
    }
    if !Reads(m, t) {
      assert levels + [] == levels;
    } else {
      var x := Level(t);
      VariationSnoc(levels, x);
      VariationNonnegative(levels + [x]);
      if n > 0 {
        var at: real :| Swung(m.gain, n, levels, at);
        Triangle(x, levels[|levels| - 1], at);
        assert Swung(m.gain, n, levels + [x], at);
        if Switches(m, t) {
          assert Abs(x - at) >= 10.0;
          assert Swung(m'.gain, n + 1, levels + [x], x);
        }
      } else if Switches(m, t) {
        assert Swung(m'.gain, 1, levels + [x], x);
      }
    }
  }

  lemma {:induction false} RunKeepsSwinging(m: Monitor, ts: seq<Input>)
    ensures Swinging(Run(m, ts), m.gain, SwitchCount(m, ts), Levels(m, ts))
    decreases ts
  {
    if ts != [] {
      RunKeepsSwinging(m, ts[..|ts| - 1]);
      StepKeepsSwinging(Run(m, ts[..|ts| - 1]), m.gain, SwitchCount(m, ts[..|ts| - 1]),
                        Levels(m, ts[..|ts| - 1]), ts[|ts| - 1]);
    }
  }

  /** No chattering: the current must swing by 10 A for every gain change after the first. */
  lemma SwitchesCostSwings(m: Monitor, ts: seq<Input>)
    ensures Variation(Levels(m, ts)) >= 10.0 * (SwitchCount(m, ts) - 1) as real
  {
    RunKeepsSwinging(m, ts);
    VariationNonnegative(Levels(m, ts));
  }

  lemma {:induction false} VariationNonnegative(s: seq<real>)
    ensures Variation(s) >= 0.0
    decreases s
  {
    if |s| >= 2 {
      VariationNonnegative(s[..|s| - 1]);
    }
  }

  // ---- The reported current -----------------------------------------------------------------

  predicate Bounded(m: Monitor) {
    Abs(m.reading.current) <= SPIKE_REJECT_A && (m.ema.Some? ==> Abs(m.ema.value) <= SPIKE_REJECT_A)
  }

  lemma SmoothBounded(ema: Option<real>, i: real)
    requires Abs(i) <= SPIKE_REJECT_A && (ema.Some? ==> Abs(ema.value) <= SPIKE_REJECT_A)
    ensures Abs(Smooth(ema, i)) <= SPIKE_REJECT_A
  {
  }

  lemma TickKeepsBounded(m: Monitor, t: Input)
    requires Bounded(m)
    ensures Bounded(TickEffect(m, t))
  {
    if t.regs.Some? && Abs(Amps(t.regs.value.shunt)) <= SPIKE_REJECT_A {
      SmoothBounded(m.ema, Amps(t.regs.value.shunt));
    }
  }

  /** The reported current never leaves +-160 A. */
  lemma {:induction false} CurrentBounded(m: Monitor, ts: seq<Input>)
    requires Bounded(m)
    ensures Bounded(Run(m, ts))
    decreases ts
  {
    if ts != [] {
      CurrentBounded(m, ts[..|ts| - 1]);
      TickKeepsBounded(Run(m, ts[..|ts| - 1]), ts[|ts| - 1]);
    }
  }

  // ---- The cooldown -------------------------------------------------------------------------

  /**
   * Within a minute of the tenth error the sensor is left alone, except while
   * the deadline has passed the wrap of the millisecond counter and the clock has not.
   */
  lemma CooldownHoldsIff(m: Monitor, now: u32, later: u32)
    requires MAX_ERRORS - 1 <= m.errors < 255 && Elapsed(later, now) < RECOVERY_MS
    ensures Cooling(ReadError(m, now), later) <==> now + RECOVERY_MS < U32_SIZE || later < now
  {
    if later >= now {
      assert Elapsed(later, now) == later - now;
    } else {
      assert Elapsed(later, now) == later - now + U32_SIZE;
    }
  }

  // ---- What a tick publishes ---------------------------------------------------------------------

  /** 13 bits of four millivolts each; all ones is no reading. */
  function Bus(bus: u16): real {
    if bus / 8 == 8191 then 0.0 else (bus / 8) as real / 250.0
  }

  lemma BusOfRegister(bus: u16)
    ensures BusVolts(bus) == Bus(bus)
  {
  }

  /** The sample is taken over: no spike, and not at the end of the fine range. */
  predicate TakesOver(m: Monitor, t: Input) {
    Reads(m, t) && Level(t) <= 160.0 && (m.gain == Fine ==> Level(t) <= 104.0)
  }

  lemma SmoothMoves(ema: Option<real>, i: real)
    ensures Smooth(ema, i) == if ema.None? then i else ema.value + 0.3 * (i - ema.value)
  {
  }

  /** The monitor as the sample finds it. */
  function Resumed(m: Monitor, t: Input): Monitor {
    m.(nextRetry := 0, lastRead := t.now, errors := 0)
  }

  lemma TickMeasures(m: Monitor, t: Input)
    requires TakesOver(m, t)
    ensures Abs(Amps(t.regs.value.shunt)) <= 160.0
    ensures TickEffect(m, t) == Measure(Resumed(m, t), t.regs.value, t.now, t.applied)
  {
    AmpsOfShunt(t.regs.value.shunt);
  }

  lemma SampleUnits(r: Registers)
    ensures Amps(r.shunt) == -(r.shunt as real) / 75.0 && ShuntVolts(r.shunt) == r.shunt as real / 100000.0
    ensures BusVolts(r.bus) == Bus(r.bus)
  {
    BusOfRegister(r.bus);
  }

  lemma MeasurePublishes(m: Monitor, r: Registers, now: u32, applied: bool, current: real)
    requires Abs(Amps(r.shunt)) <= 160.0 && current == Smooth(m.ema, Amps(r.shunt))
    ensures var m' := Measure(m, r, now, applied);
            && m'.ema == Some(current)
            && m'.reading == Reading(Ok, ShuntVolts(r.shunt), BusVolts(r.bus), current, m'.reading.power, now, m.gain)
            && m'.reading.power == m'.reading.busV * m'.reading.current
            && m'.errors == m.errors && m'.lastRead == m.lastRead && m'.nextRetry == m.nextRetry
  {
  }

  /** What becomes of a sample: current three tenths of the way on, voltage, power, time and gain the sample's. */
  predicate Published(m: Monitor, t: Input, m': Monitor)
    requires t.regs.Some?
  {
    var r := t.regs.value;
    var i := -(r.shunt as real) / 75.0;
    var current := if m.ema.None? then i else m.ema.value + 0.3 * (i - m.ema.value);
    && m'.ema == Some(current)
    && m'.reading == Reading(Ok, r.shunt as real / 100000.0, Bus(r.bus), current, m'.reading.power, t.now, m.gain)
    && m'.reading.power == m'.reading.busV * m'.reading.current
    && m'.errors == 0 && m'.lastRead == t.now && m'.nextRetry == 0
  }

  lemma InUnits(m: Monitor, t: Input, m': Monitor, current: real)
    requires t.regs.Some? && current == Smooth(m.ema, Amps(t.regs.value.shunt)) && m'.ema == Some(current)
    requires var r := t.regs.value;
             m'.reading == Reading(Ok, ShuntVolts(r.shunt), BusVolts(r.bus), current, m'.reading.power, t.now, m.gain)
    requires m'.reading.power == m'.reading.busV * m'.reading.current
    requires m'.errors == 0 && m'.lastRead == t.now && m'.nextRetry == 0
    ensures Published(m, t, m')
  {
    SampleUnits(t.regs.value);
    SmoothMoves(m.ema, Amps(t.regs.value.shunt));
  }

  /**
   * A sample taken over moves the published current three tenths of the way towards it, the first
   * one all the way: 75 register counts are one ampere, discharge being positive.
   */
  lemma PublishedSample(m: Monitor, t: Input)
    requires TakesOver(m, t)
    ensures Published(m, t, TickEffect(m, t))
  {
    var r := t.regs.value;
    var current := Smooth(m.ema, Amps(r.shunt));
    TickMeasures(m, t);
    MeasurePublishes(Resumed(m, t), r, t.now, t.applied, current);
    InUnits(m, t, Measure(Resumed(m, t), r, t.now, t.applied), current);
  }

  /** Every other tick publishes a status and nothing else, and leaves the average alone. */
  lemma UnpublishedTick(m: Monitor, t: Input)
    requires !TakesOver(m, t)
    ensures var m' := TickEffect(m, t);
            && m'.ema == m.ema && m'.available == m.available
            && m'.reading == m.reading.(status :=
                 if m.available && Cooling(m, t.now) then Cooldown
                 else if !Due(m, t.now) then m.reading.status
                 else if m.discard then Ok
                 else if t.regs.None? then I2cError
                 else OutOfRange)
  {
    if t.regs.Some? {
      AmpsOfShunt(t.regs.value.shunt);
    }
  }

  /** Failed reads in a row since the last read that succeeded or the last cooldown that ended. */
  lemma ErrorsAndCooldown(m: Monitor, t: Input)
    ensures var m' := TickEffect(m, t);
            var over := m.nextRetry > 0 && m.available && !Cooling(m, t.now);
            var errors := if over then 0 else m.errors;
            && (Due(m, t.now) && !m.discard && t.regs.None? ==>
                  && m'.errors == (errors + 1) % 256
                  && m'.nextRetry == (if (errors + 1) % 256 >= 10 then (t.now + 60000) % 0x1_0000_0000
                                      else if over then 0 else m.nextRetry))
            && (Reads(m, t) ==> m'.errors == 0)
            && (!Reads(m, t) && !(Due(m, t.now) && !m.discard) ==> m'.errors == errors)
            && (Reads(m, t) || m.discard || !Due(m, t.now) ==> m'.nextRetry == (if over then 0 else m.nextRetry))
            && m'.lastRead == (if Due(m, t.now) then t.now else m.lastRead)
  {
  }

  /** A saturated fine sample asks for the coarse range at once. */
  lemma SaturationSwitches(m: Monitor, t: Input)
    requires Reads(m, t) && m.gain == Fine && Level(t) > 104.0
    ensures TickEffect(m, t).gain == (if t.applied then Coarse else Fine) && TickEffect(m, t).discard == t.applied
  {
    AmpsOfShunt(t.regs.value.shunt);
  }

  /** And a sample taken over switches exactly at the two levels, if the write verifies. */
  lemma LevelSwitchesIff(m: Monitor, t: Input)
    requires TakesOver(m, t)
    ensures Switches(m, t) <==> t.applied && (if m.gain == Fine then Level(t) >= 100.0 else Level(t) < 90.0)
  {
  }

  /** A tick turns to the sensor exactly out of the cooldown and half a second after the last that did. */
  lemma TurnsToSensorIff(m: Monitor, t: Input)
    requires Elapsed(t.now, m.lastRead) > 0
    ensures TickEffect(m, t).lastRead == t.now <==>
              && m.available && (m.nextRetry == 0 || t.now >= m.nextRetry)
              && (t.now - m.lastRead) % 0x1_0000_0000 >= 500
    ensures TickEffect(m, t).lastRead in {m.lastRead, t.now}
  {
  }
}
