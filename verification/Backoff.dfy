/** The reconnect backoff of the MQTT transport, in the 16 bits it is kept in. */
module BackoffModel {
  import opened Common

  const MIN_MS: u16 := 5000
  const MAX_MS: u16 := 60000

  datatype State = Connecting | Disconnected | Connected | Online

  datatype Transport = Transport(state: State, delay: u16, wait: u16, lastTry: u32, reconnects: nat)

  /** `draw`: the random source; `subscribed`: every subscription was re-established. */
  datatype Attempt = Attempt(now: u32, connects: bool, subscribed: bool, draw: nat)

  /** `random(lo, hi)`: uniform in [lo, hi), and lo itself when the interval is empty. */
  function Random(lo: int, hi: int, draw: nat): (r: int)
    ensures lo < hi ==> lo <= r < hi
    ensures lo >= hi ==> r == lo
  {
    if lo >= hi then lo else lo + draw % (hi - lo)
  }

  /** Doubling in 16 bits, then the cap. */
  function Doubled(delay: u16): u16 {
    var d := (2 * delay) % U16_SIZE;
    if d > MAX_MS then MAX_MS else d
  }

  predicate Due(t: Transport, now: u32) {
    Elapsed(now, t.lastTry) >= t.wait
  }

  function Reconnect(t: Transport, a: Attempt): Transport {
    if !Due(t, a.now) then t
    else if a.connects then
      t.(state := if a.subscribed then Online else Connected, delay := MIN_MS, wait := MIN_MS,
         lastTry := a.now, reconnects := t.reconnects + 1)
    else
      var delay := Doubled(t.delay);
      t.(state := Disconnected, delay := delay, wait := Random(MIN_MS, delay + 1, a.draw) % U16_SIZE, lastTry := a.now)
  }
}

/** The transport's reconnect step as the firmware runs it. */
module Backoff {
  import opened Common
  import opened BackoffModel

  class MqttTransport {
    var state: State
    var reconnectDelayMs: u16
    var reconnectWaitMs: u16
    var lastReconnectMs: u32
    var reconnectCount: nat

    ghost function View(): Transport
      reads this
    {
      Transport(state, reconnectDelayMs, reconnectWaitMs, lastReconnectMs, reconnectCount)
    }

    constructor ()
      ensures View() == Transport(Disconnected, MIN_MS, MIN_MS, 0, 0)
    {
      state, reconnectDelayMs, reconnectWaitMs := Disconnected, MIN_MS, MIN_MS;
      lastReconnectMs, reconnectCount := 0, 0;
    }

    method Reconnect(a: Attempt)
      modifies this
      ensures View() == BackoffModel.Reconnect(old(View()), a)
    {
      if Elapsed(a.now, lastReconnectMs) < reconnectWaitMs {
        return;
      }
      lastReconnectMs := a.now;
      state := Connecting;
      if a.connects {
        reconnectCount := reconnectCount + 1;
        reconnectDelayMs := MIN_MS;
        reconnectWaitMs := MIN_MS;
        state := Connected;
        if a.subscribed {
          state := Online;
        } else {
          reconnectDelayMs := MIN_MS;
          reconnectWaitMs := MIN_MS;
        }
      } else {
        state := Disconnected;
        reconnectDelayMs := (reconnectDelayMs * 2) % U16_SIZE;
        if reconnectDelayMs > MAX_MS {
          reconnectDelayMs := MAX_MS;
        }
        reconnectWaitMs := Random(MIN_MS, reconnectDelayMs + 1, a.draw) % U16_SIZE;
      }
    }
  }
}

/** What consecutive failures do to the delay, and what the wait is on every run. */
module BackoffProperties {
  import opened Common
  import opened BackoffModel

  function Pow2(n: nat): (p: nat)
    ensures p >= 1
  {
    if n == 0 then 1 else 2 * Pow2(n - 1)
  }

  /** The delay after n failures in a row. */
  function DelayAfter(n: nat): u16 {
    if n == 0 then MIN_MS else Doubled(DelayAfter(n - 1))
  }

  /** What the header describes: doubling up to a minute. */
  function Intended(n: nat): nat {
    Min(MIN_MS * Pow2(n), MAX_MS)
  }

  lemma NextDelay(n: nat, d: u16)
    requires DelayAfter(n) == d
    ensures DelayAfter(n + 1) == Doubled(d)
  {
  }

  lemma EarlyDelays()
    ensures DelayAfter(0) == 5000 && DelayAfter(1) == 10000 && DelayAfter(2) == 20000 && DelayAfter(3) == 40000
    ensures DelayAfter(4) == 14464 && DelayAfter(5) == 28928 && DelayAfter(6) == 57856
  {
    NextDelay(0, 5000);
    NextDelay(1, 10000);
    NextDelay(2, 20000);
    NextDelay(3, 40000);
    NextDelay(4, 14464);
    NextDelay(5, 28928);
  }

  lemma FirstDelays()
    ensures DelayAfter(0) == 5000 && DelayAfter(1) == 10000 && DelayAfter(2) == 20000 && DelayAfter(3) == 40000
    ensures DelayAfter(4) == 14464 && DelayAfter(5) == 28928 && DelayAfter(6) == 57856 && DelayAfter(7) == 50176
    ensures DelayAfter(8) == 34816 && DelayAfter(9) == 4096 && DelayAfter(10) == 8192 && DelayAfter(11) == 16384
    ensures DelayAfter(12) == 32768 && DelayAfter(13) == 0
  {
    EarlyDelays();
    NextDelay(6, 57856);
    NextDelay(7, 50176);
    NextDelay(8, 34816);
    NextDelay(9, 4096);
    NextDelay(10, 8192);
    NextDelay(11, 16384);
    NextDelay(12, 32768);
  }

  lemma {:induction false} ThenZero(n: nat)
    requires n >= 13
    ensures DelayAfter(n) == 0
    decreases n
  {
    FirstDelays();
    if n > 13 {
      ThenZero(n - 1);
    }
  }

  /** No delay of the run ever exceeds the cap before it is applied. */
  lemma NeverCapped(n: nat)
    ensures (2 * DelayAfter(n)) % U16_SIZE <= MAX_MS
  {
    FirstDelays();
    if n >= 13 {
      ThenZero(n);
    } else if n < 6 {
      assert n == 0 || n == 1 || n == 2 || n == 3 || n == 4 || n == 5;
    } else {
      assert n == 6 || n == 7 || n == 8 || n == 9 || n == 10 || n == 11 || n == 12;
    }
  }

  lemma ModDouble(x: nat)
    ensures (2 * (x % U16_SIZE)) % U16_SIZE == (2 * x) % U16_SIZE
  {
    var q, r := x / U16_SIZE, x % U16_SIZE;
    assert x == U16_SIZE * q + r;
    assert 2 * x == U16_SIZE * (2 * q) + 2 * r;
  }

  /** Doubling wraps: after n failures the delay is 5000 * 2^n modulo 65536. */
  lemma {:induction false} DelayIsPower(n: nat)
    ensures DelayAfter(n) == (MIN_MS * Pow2(n)) % U16_SIZE
    decreases n
  {
    if n > 0 {
      DelayIsPower(n - 1);
      NeverCapped(n - 1);
      ModDouble(MIN_MS * Pow2(n - 1));
      assert MIN_MS * Pow2(n) == 2 * (MIN_MS * Pow2(n - 1));
    }
  }

  lemma {:induction false} PowGrows(n: nat)
    requires n >= 4
    ensures Pow2(n) >= 16
    decreases n
  {
    if n > 4 {
      PowGrows(n - 1);
    }
  }

  /** The delay is the intended one for the first three failures and never again. */
  lemma AsIntendedIff(n: nat)
    ensures DelayAfter(n) == Intended(n) <==> n <= 3
  {
    FirstDelays();
    if n >= 13 {
      ThenZero(n);
      PowGrows(n);
    } else if n >= 4 {
      PowGrows(n);
      if n <= 8 {
        assert n == 4 || n == 5 || n == 6 || n == 7 || n == 8;
      } else {
        assert n == 9 || n == 10 || n == 11 || n == 12;
      }
    } else {
      assert n == 0 || n == 1 || n == 2 || n == 3;
    }
  }

  /** One more failure lengthens the delay exactly while doubling stays inside 16 bits. */
  lemma DoublingGrowsIff(d: u16)
    ensures Doubled(d) > d <==> 0 < d < 0x8000
  {
  }

  // ---- Runs ---------------------------------------------------------------------------------

  function Run(t: Transport, attempts: seq<Attempt>): Transport
    decreases attempts
  {
    if attempts == [] then t else Reconnect(Run(t, attempts[..|attempts| - 1]), attempts[|attempts| - 1])
  }

  /** Failed attempts since the last successful one. */
  function FailuresInARow(t: Transport, attempts: seq<Attempt>): nat
    decreases attempts
  {
    if attempts == [] then 0
    else
      var r, a := Run(t, attempts[..|attempts| - 1]), attempts[|attempts| - 1];
      if !Due(r, a.now) then FailuresInARow(t, attempts[..|attempts| - 1])
      else if a.connects then 0
      else FailuresInARow(t, attempts[..|attempts| - 1]) + 1
  }

  predicate InBounds(t: Transport) {
    MIN_MS <= t.wait <= MAX_MS
  }

  lemma DoubledAtMost(delay: u16)
    ensures Doubled(delay) <= MAX_MS
  {
  }

  lemma SmallKept(x: int)
    requires 0 <= x < U16_SIZE
    ensures x % U16_SIZE == x
  {
  }

  /** An empty interval gives the minimum, and any other stays below the delay. */
  lemma JitterInBounds(delay: u16, draw: nat)
    requires delay <= MAX_MS
    ensures MIN_MS <= Random(MIN_MS, delay + 1, draw) % U16_SIZE <= MAX_MS
  {
    var r := Random(MIN_MS, delay + 1, draw);
    if delay + 1 <= MIN_MS {
      assert r == MIN_MS;
    } else {
      assert MIN_MS <= r < delay + 1;
    }
    SmallKept(r);
  }

  lemma WaitInBounds(t: Transport, a: Attempt)
    requires InBounds(t)
    ensures InBounds(Reconnect(t, a))
  {
    if Due(t, a.now) && !a.connects {
      DoubledAtMost(t.delay);
      JitterInBounds(Doubled(t.delay), a.draw);
    }
  }

  /** Over any run the delay is the one due to the failures in a row, and the wait is 5 to 60 s. */
  lemma {:induction false} RunFollowsFailures(t: Transport, attempts: seq<Attempt>)
    requires t.delay == MIN_MS && InBounds(t)
    ensures Run(t, attempts).delay == DelayAfter(FailuresInARow(t, attempts))
    ensures InBounds(Run(t, attempts))
    decreases attempts
  {
    if attempts != [] {
      var n := |attempts| - 1;
      RunFollowsFailures(t, attempts[..n]);
      WaitInBounds(Run(t, attempts[..n]), attempts[n]);
    }
  }

  /** The wait of a failing attempt is the minimum whatever is drawn. */
  ghost predicate NoJitter(t: Transport, a: Attempt) {
    forall draw: nat :: Reconnect(t, a.(draw := draw)).wait == MIN_MS
  }

  lemma SecondDraw(delay: u16)
    requires MIN_MS < delay <= MAX_MS
    ensures Random(MIN_MS, delay + 1, 1) % U16_SIZE == MIN_MS + 1
  {
    var span := delay + 1 - MIN_MS;
    assert 1 % span == 1;
    SmallKept(MIN_MS + 1);
  }

  lemma NoJitterIff(t: Transport, a: Attempt)
    requires Due(t, a.now) && !a.connects && Doubled(t.delay) != MIN_MS
    ensures NoJitter(t, a) <==> Doubled(t.delay) < MIN_MS
  {
    if Doubled(t.delay) > MIN_MS {
      DoubledAtMost(t.delay);
      SecondDraw(Doubled(t.delay));
      assert Reconnect(t, a.(draw := 1)).wait != MIN_MS;
    } else {
      forall draw: nat
        ensures Reconnect(t, a.(draw := draw)).wait == MIN_MS
      {
        assert Random(MIN_MS, Doubled(t.delay) + 1, draw) == MIN_MS;
      }
    }
  }

  lemma ShortDelayIff(n: nat)
    ensures DelayAfter(n + 1) != MIN_MS
    ensures DelayAfter(n + 1) < MIN_MS <==> n == 8 || n >= 12
  {
    FirstDelays();
    if n >= 12 {
      ThenZero(n + 1);
    } else if n < 6 {
      assert n == 0 || n == 1 || n == 2 || n == 3 || n == 4 || n == 5;
    } else {
      assert n == 6 || n == 7 || n == 8 || n == 9 || n == 10 || n == 11;
    }
  }

  /**
   * On the ninth failure in a row, and from the thirteenth on, no jitter is left: the wait is
   * the minimum whatever is drawn. At every other count some draw makes it longer.
   */
  lemma JitterGoneIff(t: Transport, attempts: seq<Attempt>, a: Attempt)
    requires t.delay == MIN_MS && InBounds(t)
    requires Due(Run(t, attempts), a.now) && !a.connects
    ensures var n := FailuresInARow(t, attempts);
            NoJitter(Run(t, attempts), a) <==> n == 8 || n >= 12
  {
    RunFollowsFailures(t, attempts);
    ShortDelayIff(FailuresInARow(t, attempts));
    NoJitterIff(Run(t, attempts), a);
  }

  /**
   * A due attempt that fails waits anything from five seconds to the doubled delay, and every
   * millisecond of that range is drawn by some draw.
   */
  lemma WaitIsDrawnIff(t: Transport, a: Attempt, wait: nat)
    requires Due(t, a.now) && !a.connects && MIN_MS <= Doubled(t.delay)
    ensures (exists draw: nat :: Reconnect(t, a.(draw := draw)).wait == wait) <==> 5000 <= wait <= Doubled(t.delay)
  {
    DoubledAtMost(t.delay);
    forall draw: nat
      ensures 5000 <= Reconnect(t, a.(draw := draw)).wait <= Doubled(t.delay)
    {
      SmallKept(Random(MIN_MS, Doubled(t.delay) + 1, draw));
    }
    if 5000 <= wait <= Doubled(t.delay) {
      Draws(Doubled(t.delay), wait);
      assert Reconnect(t, a.(draw := wait - 5000)).wait == wait;
    }
  }

  lemma Draws(delay: u16, wait: nat)
    requires MIN_MS <= wait <= delay
    ensures Random(MIN_MS, delay + 1, wait - MIN_MS) % U16_SIZE == wait
  {
    SmallKept(wait);
    Within(wait - MIN_MS, delay + 1 - MIN_MS);
  }

  lemma Within(x: nat, n: nat)
    requires x < n
    ensures x % n == x
  {
  }

  /** What an attempt leaves: a success resets delay and wait and is counted, a failure doubles, and neither is early. */
  lemma AttemptOutcome(t: Transport, a: Attempt)
    ensures var t' := Reconnect(t, a);
            && (Elapsed(a.now, t.lastTry) < t.wait ==> t' == t)
            && (Elapsed(a.now, t.lastTry) >= t.wait ==>
                  && t'.lastTry == a.now
                  && t'.state == (if !a.connects then Disconnected else if a.subscribed then Online else Connected)
                  && t'.reconnects == t.reconnects + Flag(a.connects)
                  && (a.connects ==> t'.delay == 5000 && t'.wait == 5000))
  {
  }
}
