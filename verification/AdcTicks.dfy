/** What the driver feeds its filter over a run of ticks, and what it shows. */
module AdcTicks {
  import opened Common
  import opened AdcModel
  import opened AdcProperties

  /** One call of `tick`, with the scaled reading and what the calibration makes of it. */
  datatype Tick = Tick(now: u32, raw: real, calibrated: real)

  function Booted(): Driver {
    Driver(true, Ok, 0.0, 0.0, 0.0, 0, 0, 0, Empty())
  }

  function Ticks(ts: seq<Tick>): (d: Driver)
    ensures Valid(d.filter)
    decreases ts
  {
    if ts == [] then Booted()
    else
      var t := ts[|ts| - 1];
      TickEffect(Ticks(ts[..|ts| - 1]), t.now, t.raw, t.calibrated)
  }

  predicate FastDue(d: Driver, t: Tick) {
    Elapsed(t.now, d.lastFast) >= FAST_INTERVAL_MS
  }

  predicate Plausible(t: Tick) {
    V_MIN <= t.raw <= V_MAX
  }

  /** The tick takes a fast reading and it is plausible. */
  predicate Accepts(d: Driver, t: Tick) {
    FastDue(d, t) && Plausible(t)
  }

  /** The tick gets as far as the filter. */
  predicate Feeds(d: Driver, t: Tick) {
    (FastDue(d, t) ==> Plausible(t)) && Elapsed(t.now, d.lastFiltered) >= FILTERED_INTERVAL_MS
  }

  function LastAccepted(ts: seq<Tick>): Option<real>
    decreases ts
  {
    if ts == [] then None
    else
      var n := |ts| - 1;
      if Accepts(Ticks(ts[..n]), ts[n]) then Some(ts[n].calibrated) else LastAccepted(ts[..n])
  }

  /** What the driver has to feed the filter: the last accepted reading, or the initial zero. */
  function Current(ts: seq<Tick>): real {
    match LastAccepted(ts) case Some(v) => v case None => 0.0
  }

  /** The values the filter was fed. */
  function Sampled(ts: seq<Tick>): seq<real>
    decreases ts
  {
    if ts == [] then []
    else
      var n := |ts| - 1;
      Sampled(ts[..n]) + if Feeds(Ticks(ts[..n]), ts[n]) then [Current(ts)] else []
  }

  lemma TickFeeds(d: Driver, t: Tick)
    requires Valid(d.filter) && d.available
    ensures var d' := TickEffect(d, t.now, t.raw, t.calibrated);
            && d'.available
            && d'.calibratedV == (if Accepts(d, t) then t.calibrated else d.calibratedV)
            && d'.filter == (if Feeds(d, t) then Push(d.filter, d'.calibratedV) else d.filter)
            && (if Feeds(d, t) then d'.filter.ema == Some(d'.filteredV) else d'.filteredV == d.filteredV)
  {
  }

  /** Over any ticks from boot: the driver shows the filter run over exactly the values it was fed. */
  lemma {:induction false} TicksFeedTheFilter(ts: seq<Tick>)
    ensures Ticks(ts).available && Ticks(ts).calibratedV == Current(ts)
    ensures Ticks(ts).filter == Run(Sampled(ts))
    ensures Sampled(ts) == [] ==> Ticks(ts).filteredV == 0.0
    ensures Sampled(ts) != [] ==> Run(Sampled(ts)).ema == Some(Ticks(ts).filteredV)
    decreases ts
  {
    if ts != [] {
      var n := |ts| - 1;
      TicksFeedTheFilter(ts[..n]);
      TickFeeds(Ticks(ts[..n]), ts[n]);
      var vs := Sampled(ts[..n]);
      assert (vs + [Current(ts)])[..|vs|] == vs && vs + [] == vs;
    }
  }

  /** So the published voltage stays inside [a, b] if at most a quarter of each window fed to the filter does not. */
  lemma VoltageStaysInside(ts: seq<Tick>, a: real, b: real)
    requires Sampled(ts) != [] && AllGood(Sampled(ts), a, b)
    ensures a <= Ticks(ts).filteredV <= b
  {
    TicksFeedTheFilter(ts);
    FilteredStaysInside(Sampled(ts), a, b);
  }

  lemma {:induction false} SampledGrows(ts: seq<Tick>, k: nat)
    requires k <= |ts|
    ensures Sampled(ts[..k]) <= Sampled(ts)
    decreases |ts| - k
  {
    if k < |ts| {
      SampledGrows(ts, k + 1);
      assert ts[..k + 1][..k] == ts[..k];
    } else {
      assert ts[..k] == ts;
    }
  }

  /** No accepted reading is zero once calibrated. */
  predicate NonzeroReadings(ts: seq<Tick>)
    decreases ts
  {
    ts != [] ==>
      var n := |ts| - 1;
      (Accepts(Ticks(ts[..n]), ts[n]) ==> ts[n].calibrated != 0.0) && NonzeroReadings(ts[..n])
  }

  lemma {:induction false} CurrentZeroIff(ts: seq<Tick>)
    requires NonzeroReadings(ts)
    ensures Current(ts) == 0.0 <==> LastAccepted(ts).None?
    decreases ts
  {
    if ts != [] {
      CurrentZeroIff(ts[..|ts| - 1]);
    }
  }

  /**
   * The first tick to reach the filter, ts[k], feeds it the initial zero instead of a reading
   * exactly if no reading has been accepted before and the tick itself comes too soon after
   * the last attempt to take one: the gate that stops an implausible reading is passed by a
   * tick that reads nothing.
   */
  lemma FirstSampleZeroIff(ts: seq<Tick>, k: nat)
    requires k < |ts| && Sampled(ts[..k]) == [] && Feeds(Ticks(ts[..k]), ts[k]) && NonzeroReadings(ts[..k + 1])
    ensures Sampled(ts) != []
         && (Sampled(ts)[0] == 0.0 <==> LastAccepted(ts[..k]).None? && !FastDue(Ticks(ts[..k]), ts[k]))
  {
    var first := ts[..k + 1];
    assert first[..k] == ts[..k];
    assert Sampled(first) == [] + [Current(first)];
    SampledGrows(ts, k + 1);
    CurrentZeroIff(first);
  }

  /** For one: a first reading out of range, and a second tick within 100 ms of it. */
  lemma BootZeroIsSampled(d: Driver, now: u32, raw: real, calibrated: real, soon: u32)
    requires Valid(d.filter) && d.available && d.calibratedV == 0.0 && (raw < V_MIN || raw > V_MAX)
    requires Elapsed(now, d.lastFast) >= FAST_INTERVAL_MS && Elapsed(soon, now) < FAST_INTERVAL_MS
    requires Elapsed(soon, d.lastFiltered) >= FILTERED_INTERVAL_MS
    ensures TickEffect(TickEffect(d, now, raw, calibrated), soon, raw, calibrated).filter == Push(d.filter, 0.0)
  {
  }

  // ---- The two cadences and what they publish --------------------------------------------------

  /** At least `ms` after `since`, as the 32-bit clock counts. */
  predicate Past(now: u32, since: u32, ms: nat) {
    (now - since) % 0x1_0000_0000 >= ms
  }

  /** What the last fast reading was, and when. */
  datatype Fast = Fast(at: u32, raw: real, good: bool)

  /** The last fast reading of the ticks: readings are at least 100 ms apart, and good from 30 to 60 V. */
  function LastFast(ts: seq<Tick>): Fast
    decreases ts
  {
    if ts == [] then Fast(0, 0.0, true)
    else
      var t, last := ts[|ts| - 1], LastFast(ts[..|ts| - 1]);
      if Past(t.now, last.at, 100) then Fast(t.now, t.raw, 30.0 <= t.raw <= 60.0) else last
  }

  /** When the filter was last fed: at least 500 ms apart, and never on a tick with a bad fast reading. */
  function LastFed(ts: seq<Tick>): u32
    decreases ts
  {
    if ts == [] then 0
    else
      var t, last := ts[|ts| - 1], LastFed(ts[..|ts| - 1]);
      var fast := LastFast(ts[..|ts| - 1]);
      if Past(t.now, last, 500) && (Past(t.now, fast.at, 100) ==> 30.0 <= t.raw <= 60.0) then t.now else last
  }

  /** The driver's timers and status are those readings. */
  predicate Shows(d: Driver, fast: Fast, fed: u32) {
    && d.available && d.lastFast == fast.at && d.rawV == fast.raw && d.status == (if fast.good then Ok else OutOfRange)
    && d.lastFiltered == fed && d.timestamp == fed
  }

  lemma TickShows(d: Driver, t: Tick, fast: Fast, fed: u32)
    requires Valid(d.filter) && Shows(d, fast, fed)
    ensures var due := Past(t.now, fast.at, 100);
            var good := 30.0 <= t.raw <= 60.0;
            var fast' := if due then Fast(t.now, t.raw, good) else fast;
            var fed' := if Past(t.now, fed, 500) && (due ==> good) then t.now else fed;
            Shows(TickEffect(d, t.now, t.raw, t.calibrated), fast', fed')
  {
  }

  /** Over any ticks from boot: raw voltage and status are of the last fast reading, the stamp of the last sample. */
  lemma {:induction false} StatusIsLastReading(ts: seq<Tick>)
    ensures Shows(Ticks(ts), LastFast(ts), LastFed(ts))
    decreases ts
  {
    if ts != [] {
      var n := |ts| - 1;
      StatusIsLastReading(ts[..n]);
      TickShows(Ticks(ts[..n]), ts[n], LastFast(ts[..n]), LastFed(ts[..n]));
    }
  }
}
