/** The sample ring and the exponential average on values. */
module AdcModel {
  import opened Common
  import opened TrimmedMean

  const SAMPLE_COUNT: nat := 16
  const FAST_INTERVAL_MS: nat := 100
  const FILTERED_INTERVAL_MS: nat := 500
  const ALPHA: real := 0.2
  const V_MIN: real := 30.0
  const V_MAX: real := 60.0

  datatype Filter = Filter(samples: seq<real>, idx: nat, full: bool, ema: Option<real>)

  predicate Valid(f: Filter) {
    |f.samples| == SAMPLE_COUNT && f.idx < SAMPLE_COUNT
  }

  /** The samples the trimmed mean is taken over, in array order. */
  function Window(f: Filter): seq<real>
    requires Valid(f)
  {
    if f.full then f.samples else f.samples[..f.idx]
  }

  function Smooth(ema: Option<real>, med: real): real {
    if ema.None? then med else ema.value * (1.0 - ALPHA) + med * ALPHA
  }

  function Store(f: Filter, v: real): (f': Filter)
    requires Valid(f)
    ensures Valid(f') && Window(f') != []
  {
    var idx := (f.idx + 1) % SAMPLE_COUNT;
    f.(samples := f.samples[f.idx := v], idx := idx, full := f.full || idx == 0)
  }

  function Push(f: Filter, v: real): (f': Filter)
    requires Valid(f)
    ensures Valid(f')
  {
    var f' := Store(f, v);
    f'.(ema := Some(Smooth(f.ema, Mean(Window(f')))))
  }

  datatype Status = Ok | NotInitialized | OutOfRange

  datatype Driver = Driver(available: bool, status: Status, rawV: real, calibratedV: real, filteredV: real, timestamp: u32,
                           lastFast: u32, lastFiltered: u32, filter: Filter)

  /** The fast path; the flag says whether the tick goes on to the filtered path. */
  function Fast(d: Driver, now: u32, raw: real, calibrated: real): (Driver, bool) {
    if Elapsed(now, d.lastFast) < FAST_INTERVAL_MS then (d, true)
    else
      var d' := d.(lastFast := now, rawV := raw);
      if raw < V_MIN || raw > V_MAX then (d'.(status := OutOfRange), false)
      else (d'.(calibratedV := calibrated, status := Ok), true)
  }

  function Filtered(d: Driver, now: u32): Driver
    requires Valid(d.filter)
  {
    if Elapsed(now, d.lastFiltered) < FILTERED_INTERVAL_MS then d
    else
      var f := Push(d.filter, d.calibratedV);
      d.(lastFiltered := now, filter := f, filteredV := f.ema.value, timestamp := now)
  }

  /** `raw` is the scaled pack voltage, `calibrated` what the three-point calibration makes of it. */
  function TickEffect(d: Driver, now: u32, raw: real, calibrated: real): Driver
    requires Valid(d.filter)
  {
    if !d.available then d
    else
      var (d', on) := Fast(d, now, raw, calibrated);
      if on then Filtered(d', now) else d'
  }
}

/** The driver as the firmware runs it. */
module AdcVoltage {
  import opened Common
  import opened TrimmedMean
  import opened AdcModel

  class AdcVoltageDriver {
    const samples: array<real>
    var available: bool
    var status: Status
    var rawV: real
    var calibratedV: real
    var filteredV: real
    var timestamp: u32
    var lastFastReadMs: u32
    var lastFilteredReadMs: u32
    var sampleIdx: nat
    var samplesFull: bool
    var ema: real
    var emaInit: bool

    ghost predicate Valid()
      reads this`sampleIdx
    {
      samples.Length == SAMPLE_COUNT && sampleIdx < SAMPLE_COUNT
    }

    ghost function Buffer(): (f: Filter)
      reads this`sampleIdx, this`samplesFull, this`ema, this`emaInit, samples
      requires Valid()
      ensures AdcModel.Valid(f)
    {
      Filter(samples[..], sampleIdx, samplesFull, if emaInit then Some(ema) else None)
    }

    ghost function View(): Driver
      reads this, samples
      requires Valid()
    {
      Driver(available, status, rawV, calibratedV, filteredV, timestamp, lastFastReadMs, lastFilteredReadMs, Buffer())
    }

    constructor ()
      ensures Valid() && fresh(samples)
      ensures View() == Driver(true, Ok, 0.0, 0.0, 0.0, 0, 0, 0,
                               Filter(seq(SAMPLE_COUNT, _ => 0.0), 0, false, None))
    {
      samples := new real[SAMPLE_COUNT](_ => 0.0);
      available, status := true, Ok;
      rawV, calibratedV, filteredV, timestamp := 0.0, 0.0, 0.0, 0;
      lastFastReadMs, lastFilteredReadMs, sampleIdx, samplesFull := 0, 0, 0, false;
      ema, emaInit := 0.0, false;
      new;
      assert samples[..] == seq(SAMPLE_COUNT, _ => 0.0);
    }

    static method AverageOf(tmp: seq<real>, lo: nat, hi: nat) returns (r: real)
      requires lo < hi <= |tmp|
      ensures r == Average(tmp[lo..hi])
    {
      var sum := 0.0;
      var i := lo;
      while i < hi
        invariant lo <= i <= hi
        invariant sum == Sum(tmp[lo..i])
      {
        assert tmp[lo..i + 1][..i - lo] == tmp[lo..i];
        sum := sum + tmp[i];
        i := i + 1;
      }
      return sum / (hi - lo) as real;
    }

    method MedianAndReject() returns (r: Option<real>)
      requires Valid()
      ensures r == if Window(Buffer()) == [] then None else Some(Mean(Window(Buffer())))
    {
      var n := if samplesFull then SAMPLE_COUNT else sampleIdx;
      ghost var w := Window(Buffer());
      assert samples[..n] == w;
      if n == 0 {
        return None;
      }
      SortFacts(w);
      var tmp := Sort(samples[..n]);
      var drop := n / 4;
      var lo, hi := drop, n - drop;
      if hi <= lo {
        assert false;
      }
      var mean := AverageOf(tmp, lo, hi);
      assert tmp[lo..hi] == Kept(w);
      return Some(mean);
    }

    method StoreSample(v: real)
      requires Valid()
      modifies this`sampleIdx, this`samplesFull, samples
      ensures Valid() && Buffer() == Store(old(Buffer()), v)
    {
      samples[sampleIdx] := v;
      sampleIdx := (sampleIdx + 1) % SAMPLE_COUNT;
      if sampleIdx == 0 {
        samplesFull := true;
      }
    }

    method FilterSample(v: real)
      requires Valid()
      modifies this`sampleIdx, this`samplesFull, this`ema, this`emaInit, samples
      ensures Valid() && Buffer() == Push(old(Buffer()), v) && Push(old(Buffer()), v).ema == Some(ema)
    {
      StoreSample(v);
      var med := MedianAndReject();
      if med.None? {
        assert false;
      } else if !emaInit {
        ema := med.value;
        emaInit := true;
      } else {
        ema := ema * (1.0 - ALPHA) + med.value * ALPHA;
      }
    }

    method ReadFast(now: u32, raw: real, calibrated: real) returns (on: bool)
      requires Valid()
      modifies this`lastFastReadMs, this`rawV, this`status, this`calibratedV
      ensures Valid() && (View(), on) == Fast(old(View()), now, raw, calibrated)
    {
      if Elapsed(now, lastFastReadMs) >= FAST_INTERVAL_MS {
        lastFastReadMs := now;
        rawV := raw;
        if raw < V_MIN || raw > V_MAX {
          status := OutOfRange;
          return false;
        }
        calibratedV := calibrated;
        status := Ok;
      }
      return true;
    }

    method PublishFiltered(now: u32)
      requires Valid()
      modifies this`lastFilteredReadMs, this`timestamp, this`filteredV
      ensures View() == old(View()).(lastFiltered := now, timestamp := now, filteredV := ema)
    {
      lastFilteredReadMs, timestamp, filteredV := now, now, ema;
    }

    method ReadFiltered(now: u32)
      requires Valid()
      modifies this, samples
      ensures Valid() && View() == Filtered(old(View()), now)
    {
      if Elapsed(now, lastFilteredReadMs) < FILTERED_INTERVAL_MS {
        return;
      }
      FilterSample(calibratedV);
      PublishFiltered(now);
    }

    method Tick(now: u32, raw: real, calibrated: real)
      requires Valid()
      modifies this, samples
      ensures Valid() && View() == TickEffect(old(View()), now, raw, calibrated)
    {
      if !available {
        return;
      }
      var on := ReadFast(now, raw, calibrated);
      if !on {
        return;
      }
      ReadFiltered(now);
    }
  }
}

/** What a run of samples makes of the filtered voltage. */
module AdcProperties {
  import opened Common
  import opened TrimmedMean
  import opened AdcModel

  function Rotate(s: seq<real>, i: nat): seq<real>
    requires i <= |s|
  {
    s[i..] + s[..i]
  }

  /** The ring read from the oldest sample on. */
  function Chronological(f: Filter): seq<real>
    requires Valid(f)
  {
    if f.full then Rotate(f.samples, f.idx) else f.samples[..f.idx]
  }

  lemma WindowOutside(f: Filter, a: real, b: real)
    requires Valid(f)
    ensures Outside(Window(f), a, b) == Outside(Chronological(f), a, b) && |Window(f)| == |Chronological(f)|
  {
    if f.full {
      OutsideAppend(f.samples[f.idx..], f.samples[..f.idx], a, b);
      OutsideAppend(f.samples[..f.idx], f.samples[f.idx..], a, b);
      assert f.samples[..f.idx] + f.samples[f.idx..] == f.samples;
    }
  }

  lemma FillingAppends(s: seq<real>, i: nat, v: real)
    requires i < |s|
    ensures s[i := v][..i + 1] == s[..i] + [v]
  {
  }

  lemma TurningAppends(s: seq<real>, i: nat, v: real)
    requires i < |s|
    ensures Rotate(s[i := v], i + 1) == Rotate(s, i)[1..] + [v]
  {
  }

  lemma RotateEnds(s: seq<real>)
    ensures Rotate(s, 0) == s && Rotate(s, |s|) == s && s[..|s|] == s
  {
  }

  lemma StoreRotates(f: Filter, v: real)
    requires Valid(f)
    ensures Chronological(Store(f, v)) ==
            if f.full then Rotate(f.samples[f.idx := v], f.idx + 1) else f.samples[f.idx := v][..f.idx + 1]
  {
    var s, f' := f.samples[f.idx := v], Store(f, v);
    if f.idx + 1 == SAMPLE_COUNT {
      assert f'.full && f'.idx == 0 && f'.samples == s;
      RotateEnds(s);
    } else {
      assert f'.full == f.full && f'.idx == f.idx + 1 && f'.samples == s;
    }
  }

  /** Storing a sample appends it and forgets the seventeenth last. */
  lemma StoreAppends(f: Filter, v: real)
    requires Valid(f)
    ensures Chronological(Store(f, v)) == Last(Chronological(f) + [v], SAMPLE_COUNT)
  {
    StoreRotates(f, v);
    if f.full {
      var c := Rotate(f.samples, f.idx);
      TurningAppends(f.samples, f.idx, v);
      assert (c + [v])[1..] == c[1..] + [v];
    } else {
      FillingAppends(f.samples, f.idx, v);
    }
  }

  function Empty(): Filter {
    Filter(seq(SAMPLE_COUNT, _ => 0.0), 0, false, None)
  }

  function Run(vs: seq<real>): (f: Filter)
    ensures Valid(f) && (vs != [] ==> f.ema.Some?)
    decreases vs
  {
    if vs == [] then Empty() else Push(Run(vs[..|vs| - 1]), vs[|vs| - 1])
  }

  lemma LastOfLast(vs: seq<real>, v: real)
    ensures Last(Last(vs, SAMPLE_COUNT) + [v], SAMPLE_COUNT) == Last(vs + [v], SAMPLE_COUNT)
  {
  }

  lemma {:induction false} RingHoldsLast(vs: seq<real>)
    ensures Chronological(Run(vs)) == Last(vs, SAMPLE_COUNT)
    decreases vs
  {
    if vs != [] {
      var n := |vs| - 1;
      RingHoldsLast(vs[..n]);
      StoreAppends(Run(vs[..n]), vs[n]);
      assert Chronological(Run(vs)) == Chronological(Store(Run(vs[..n]), vs[n]));
      LastOfLast(vs[..n], vs[n]);
      assert vs == vs[..n] + [vs[n]];
    }
  }

  /** In the window ending at sample k at most a quarter of the samples are outside [a, b]. */
  predicate MostlyGood(vs: seq<real>, k: nat, a: real, b: real)
    requires k < |vs|
  {
    var w := Last(vs[..k + 1], SAMPLE_COUNT);
    Outside(w, a, b) <= |w| / 4
  }

  predicate AllGood(vs: seq<real>, a: real, b: real) {
    forall k | 0 <= k < |vs| :: MostlyGood(vs, k, a, b)
  }

  lemma SmoothInside(ema: Option<real>, med: real, a: real, b: real)
    requires a <= med <= b && (ema.Some? ==> a <= ema.value <= b)
    ensures a <= Smooth(ema, med) <= b
  {
  }

  lemma PushInside(f: Filter, v: real, a: real, b: real)
    requires Valid(f) && (f.ema.Some? ==> a <= f.ema.value <= b)
    requires var w := Chronological(Store(f, v)); Outside(w, a, b) <= |w| / 4
    ensures a <= Push(f, v).ema.value <= b
  {
    var f' := Store(f, v);
    WindowOutside(f', a, b);
    OutliersRejected(Window(f'), a, b);
    SmoothInside(f.ema, Mean(Window(f')), a, b);
  }

  lemma GoodPrefix(vs: seq<real>, a: real, b: real)
    requires vs != [] && AllGood(vs, a, b)
    ensures AllGood(vs[..|vs| - 1], a, b)
  {
    var n := |vs| - 1;
    forall k | 0 <= k < n
      ensures MostlyGood(vs[..n], k, a, b)
    {
      assert MostlyGood(vs, k, a, b);
      assert vs[..n][..k + 1] == vs[..k + 1];
    }
  }

  lemma LastWindow(vs: seq<real>, a: real, b: real)
    requires vs != [] && MostlyGood(vs, |vs| - 1, a, b)
    ensures var w := Chronological(Store(Run(vs[..|vs| - 1]), vs[|vs| - 1])); Outside(w, a, b) <= |w| / 4
  {
    var n := |vs| - 1;
    RingHoldsLast(vs);
    assert Chronological(Run(vs)) == Chronological(Store(Run(vs[..n]), vs[n]));
    assert vs[..n + 1] == vs;
  }

  /**
   * However wild a quarter of each window of sixteen is, the filtered voltage
   * never leaves the range of the rest.
   */
  lemma {:induction false} FilteredStaysInside(vs: seq<real>, a: real, b: real)
    requires vs != [] && AllGood(vs, a, b)
    ensures a <= Run(vs).ema.value <= b
    decreases vs
  {
    var n := |vs| - 1;
    if n > 0 {
      GoodPrefix(vs, a, b);
      FilteredStaysInside(vs[..n], a, b);
    }
    LastWindow(vs, a, b);
    PushInside(Run(vs[..n]), vs[n], a, b);
  }

  // ---- Following the input ------------------------------------------------------------------------

  function Constant(v: real, n: nat): seq<real> {
    seq(n, _ => v)
  }

  lemma {:induction false} NoneOutside(s: seq<real>, v: real)
    requires forall i | 0 <= i < |s| :: s[i] == v
    ensures Outside(s, v, v) == 0
    decreases s
  {
    if s != [] {
      NoneOutside(s[1..], v);
    }
  }

  /** The samples in the ring are `v` up to one, and so is the next. */
  predicate Settled(f: Filter, v: real) {
    Valid(f) && f.ema.Some? && Last(Chronological(f) + [v], 16) == Constant(v, 16)
  }

  lemma StaysSettled(f: Filter, v: real)
    requires Settled(f, v)
    ensures Chronological(Store(f, v)) == Constant(v, 16) && Settled(Push(f, v), v)
  {
    StoreAppends(f, v);
    assert Chronological(Push(f, v)) == Chronological(Store(f, v));
    assert Last(Constant(v, 16) + [v], 16) == Constant(v, 16);
  }

  /** A window of one value has that value for its mean, wherever the ring stands. */
  lemma SettledMean(f: Filter, v: real)
    requires Valid(f) && Chronological(f) == Constant(v, 16)
    ensures Window(f) != [] && Mean(Window(f)) == v
  {
    NoneOutside(Constant(v, 16), v);
    WindowOutside(f, v, v);
    OutliersRejected(Window(f), v, v);
  }

  /** What n samples leave of a distance of which each takes a fifth. */
  function Decayed(gap: real, n: nat): real
    decreases n
  {
    if n == 0 then gap else Decayed(0.8 * gap, n - 1)
  }

  /** From one filtered voltage to a later one, n samples of `v` in between. */
  predicate Nears(before: Option<real>, after: Option<real>, v: real, n: nat) {
    before.Some? && after.Some? && after.value - v == Decayed(before.value - v, n)
  }

  lemma NearsOn(a: Option<real>, b: Option<real>, c: Option<real>, v: real, n: nat)
    requires a.Some? && b == Some(Smooth(a, v)) && Nears(b, c, v, n)
    ensures Nears(a, c, v, n + 1)
  {
    assert b.value - v == 0.8 * (a.value - v);
  }

  /** The filter after n more samples of `v`. */
  function Fed(f: Filter, v: real, n: nat): Filter
    requires Valid(f)
    decreases n
  {
    if n == 0 then f else Fed(Push(f, v), v, n - 1)
  }

  lemma PushNears(f: Filter, v: real, last: Option<real>, n: nat)
    requires Settled(f, v) && Nears(Push(f, v).ema, last, v, n)
    ensures Nears(f.ema, last, v, n + 1)
  {
    StaysSettled(f, v);
    SettledMean(Store(f, v), v);
    NearsOn(f.ema, Push(f, v).ema, last, v, n);
  }

  /** Once the ring is filled by a constant input, every sample takes a fifth off the distance to it. */
  lemma {:induction false} ConstantInputConverges(f: Filter, v: real, n: nat)
    requires Settled(f, v)
    ensures Nears(f.ema, Fed(f, v, n).ema, v, n)
    decreases n
  {
    if n > 0 {
      StaysSettled(f, v);
      ConstantInputConverges(Push(f, v), v, n - 1);
      PushNears(f, v, Fed(f, v, n).ema, n - 1);
    }
  }

  lemma RunEnd(us: seq<real>, v: real)
    ensures Run(us + [v]) == Push(Run(us), v)
  {
    var all := us + [v];
    assert all[..|all| - 1] == us && all[|all| - 1] == v;
  }

  lemma ConstantFirst(us: seq<real>, v: real, n: nat)
    ensures n == 0 ==> us + Constant(v, n) == us
    ensures n > 0 ==> us + Constant(v, n) == (us + [v]) + Constant(v, n - 1)
  {
  }

  lemma {:induction false} FedIsRun(us: seq<real>, f: Filter, v: real, n: nat)
    requires f == Run(us)
    ensures Fed(f, v, n) == Run(us + Constant(v, n))
    decreases n
  {
    ConstantFirst(us, v, n);
    if n > 0 {
      RunEnd(us, v);
      FedIsRun(us + [v], Push(f, v), v, n - 1);
    }
  }

  lemma EndsConstant(vs: seq<real>, v: real)
    ensures Last((vs + Constant(v, 15)) + [v], 16) == Constant(v, 16)
  {
  }

  lemma EndOfRun(us: seq<real>, v: real)
    requires us != []
    ensures Last(Chronological(Run(us)) + [v], 16) == Last(us + [v], 16)
  {
    RingHoldsLast(us);
    LastOfLast(us, v);
  }

  /** Whatever was sampled before, fifteen equal samples in a row settle the ring. */
  lemma FifteenSettle(vs: seq<real>, v: real)
    ensures Settled(Run(vs + Constant(v, 15)), v)
  {
    EndsConstant(vs, v);
    EndOfRun(vs + Constant(v, 15), v);
  }

  /** Over samples: from the fifteenth equal one on, n more leave 0.8^n of the distance. */
  lemma InputIsFollowed(vs: seq<real>, v: real, n: nat)
    ensures Nears(Run(vs + Constant(v, 15)).ema, Run(vs + Constant(v, 15) + Constant(v, n)).ema, v, n)
  {
    var us := vs + Constant(v, 15);
    FifteenSettle(vs, v);
    FedIsRun(us, Run(us), v, n);
    ConstantInputConverges(Run(us), v, n);
  }
}
