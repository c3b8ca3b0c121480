/** The trimmed mean of the ADC driver and why a few bad samples cannot move it. */
module TrimmedMean {
  import opened Common

  function Insert(x: real, s: seq<real>): seq<real> {
    if s == [] then [x] else if x <= s[0] then [x] + s else [s[0]] + Insert(x, s[1..])
  }

  /** What `std::sort` leaves behind. */
  function Sort(s: seq<real>): seq<real> {
    if s == [] then [] else Insert(s[0], Sort(s[1..]))
  }

  predicate Sorted(s: seq<real>) {
    forall i, j | 0 <= i <= j < |s| :: s[i] <= s[j]
  }

  function Sum(s: seq<real>): real {
    if s == [] then 0.0 else Sum(s[..|s| - 1]) + s[|s| - 1]
  }

  /** Samples cut off at either end. */
  function Cut(n: nat): nat {
    n / 4
  }

  function Average(s: seq<real>): real
    requires s != []
  {
    Sum(s) / |s| as real
  }

  /** The sorted samples without a quarter of them at either end. */
  function Kept(s: seq<real>): (k: seq<real>)
    requires s != []
    ensures |k| == |s| - 2 * Cut(|s|) > 0
  {
    SortFacts(s);
    Sort(s)[Cut(|s|)..|s| - Cut(|s|)]
  }

  function Mean(s: seq<real>): real
    requires s != []
  {
    Average(Kept(s))
  }

  function Below(s: seq<real>, a: real): nat {
    if s == [] then 0 else (if s[0] < a then 1 else 0) + Below(s[1..], a)
  }

  function Above(s: seq<real>, b: real): nat {
    if s == [] then 0 else (if s[0] > b then 1 else 0) + Above(s[1..], b)
  }

  function Outside(s: seq<real>, a: real, b: real): nat {
    if s == [] then 0 else (if s[0] < a || s[0] > b then 1 else 0) + Outside(s[1..], a, b)
  }

  lemma {:induction false} InsertFacts(x: real, s: seq<real>)
    ensures multiset(Insert(x, s)) == multiset{x} + multiset(s) && |Insert(x, s)| == |s| + 1
    ensures Sorted(s) ==> Sorted(Insert(x, s))
    decreases s
  {
    if s != [] {
      InsertFacts(x, s[1..]);
      assert s == [s[0]] + s[1..];
      if Sorted(s) && x > s[0] {
        InsertMin(x, s[1..], s[0]);
      }
    }
  }

  lemma {:induction false} InsertMin(x: real, s: seq<real>, low: real)
    requires low <= x && forall i | 0 <= i < |s| :: low <= s[i]
    ensures forall i | 0 <= i < |Insert(x, s)| :: low <= Insert(x, s)[i]
    decreases s
  {
    if s != [] {
      InsertMin(x, s[1..], low);
    }
  }

  lemma {:induction false} SortFacts(s: seq<real>)
    ensures multiset(Sort(s)) == multiset(s) && |Sort(s)| == |s| && Sorted(Sort(s))
    decreases s
  {
    if s != [] {
      SortFacts(s[1..]);
      InsertFacts(s[0], Sort(s[1..]));
      assert s == [s[0]] + s[1..];
    }
  }

  lemma {:induction false} InsertCounts(x: real, s: seq<real>, a: real)
    ensures Below(Insert(x, s), a) == Below([x], a) + Below(s, a)
    ensures Above(Insert(x, s), a) == Above([x], a) + Above(s, a)
    decreases s
  {
    if s != [] {
      InsertCounts(x, s[1..], a);
      assert ([x] + s)[1..] == s;
      assert ([s[0]] + Insert(x, s[1..]))[1..] == Insert(x, s[1..]);
    }
  }

  lemma {:induction false} SortCounts(s: seq<real>, a: real)
    ensures Below(Sort(s), a) == Below(s, a) && Above(Sort(s), a) == Above(s, a)
    decreases s
  {
    if s != [] {
      SortCounts(s[1..], a);
      InsertCounts(s[0], Sort(s[1..]), a);
    }
  }

  lemma {:induction false} BelowPrefix(s: seq<real>, a: real, k: nat)
    requires k <= |s| && forall i | 0 <= i < k :: s[i] < a
    ensures Below(s, a) >= k
    decreases k
  {
    if k > 0 {
      BelowPrefix(s[1..], a, k - 1);
    }
  }

  lemma {:induction false} AboveSuffix(s: seq<real>, b: real, k: nat)
    requires k <= |s| && forall i | k <= i < |s| :: s[i] > b
    ensures Above(s, b) >= |s| - k
    decreases s
  {
    if s != [] {
      AboveSuffix(s[1..], b, if k > 0 then k - 1 else 0);
    }
  }

  lemma {:induction false} OutsideBounds(s: seq<real>, a: real, b: real)
    ensures Below(s, a) <= Outside(s, a, b) && Above(s, b) <= Outside(s, a, b)
    decreases s
  {
    if s != [] {
      OutsideBounds(s[1..], a, b);
    }
  }

  lemma {:induction false} SumBounds(s: seq<real>, a: real, b: real)
    requires forall i | 0 <= i < |s| :: a <= s[i] <= b
    ensures a * |s| as real <= Sum(s) <= b * |s| as real
    decreases s
  {
    if s != [] {
      SumBounds(s[..|s| - 1], a, b);
      Scaled(a, |s| - 1);
      Scaled(b, |s| - 1);
    }
  }

  lemma Scaled(a: real, n: nat)
    ensures a * (n + 1) as real == a * n as real + a
  {
    assert (n + 1) as real == n as real + 1.0;
  }

  lemma QuotientBounds(sum: real, k: nat, a: real, b: real)
    requires k > 0 && a * k as real <= sum <= b * k as real
    ensures a <= sum / k as real <= b
  {
  }

  /** Too few samples below `a` to reach the first kept place, too few above `b` to reach the last. */
  lemma KeptInside(t: seq<real>, c: nat, a: real, b: real)
    requires Sorted(t) && 2 * c < |t| && Below(t, a) <= c && Above(t, b) <= c
    ensures forall i | c <= i < |t| - c :: a <= t[i] <= b
  {
    var last := |t| - c - 1;
    if t[c] < a {
      BelowPrefix(t, a, c + 1);
    }
    if t[last] > b {
      AboveSuffix(t, b, last);
    }
    forall i | c <= i < |t| - c
      ensures a <= t[i] <= b
    {
      assert t[c] <= t[i] <= t[last];
    }
  }

  lemma AverageInside(t: seq<real>, a: real, b: real)
    requires t != [] && forall i | 0 <= i < |t| :: a <= t[i] <= b
    ensures a <= Average(t) <= b
  {
    SumBounds(t, a, b);
    QuotientBounds(Sum(t), |t|, a, b);
  }

  lemma KeptBounds(s: seq<real>, a: real, b: real)
    requires s != [] && Outside(s, a, b) <= |s| / 4
    ensures forall i | 0 <= i < |Kept(s)| :: a <= Kept(s)[i] <= b
  {
    SortFacts(s);
    SortCounts(s, a);
    SortCounts(s, b);
    OutsideBounds(s, a, b);
    KeptInside(Sort(s), Cut(|s|), a, b);
  }

  /** If at most a quarter of the samples lie outside [a, b], the filtered value does not. */
  lemma OutliersRejected(s: seq<real>, a: real, b: real)
    requires s != [] && Outside(s, a, b) <= |s| / 4
    ensures a <= Mean(s) <= b
  {
    KeptBounds(s, a, b);
    AverageInside(Kept(s), a, b);
  }

  lemma {:induction false} OutsideAppend(s: seq<real>, t: seq<real>, a: real, b: real)
    ensures Outside(s + t, a, b) == Outside(s, a, b) + Outside(t, a, b)
    decreases s
  {
    if s == [] {
      assert s + t == t;
    } else {
      assert (s + t)[1..] == s[1..] + t;
      OutsideAppend(s[1..], t, a, b);
    }
  }

  lemma {:induction false} SortKeepsSorted(s: seq<real>)
    requires Sorted(s)
    ensures Sort(s) == s
    decreases s
  {
    if s != [] {
      SortKeepsSorted(s[1..]);
      assert |s| > 1 ==> s[0] <= s[1];
      assert s == [s[0]] + s[1..];
    }
  }

  function Repeat(v: real, n: nat): seq<real> {
    seq(n, _ => v)
  }

  lemma {:induction false} OutsideRepeat(v: real, n: nat)
    ensures Outside(Repeat(v, n), 0.0, 0.0) == if v == 0.0 then 0 else n
    decreases n
  {
    if n > 0 {
      assert Repeat(v, n)[1..] == Repeat(v, n - 1);
      OutsideRepeat(v, n - 1);
    }
  }

  /** n samples, a quarter and one of them x and the others zero. */
  function Spiked(n: nat, x: real): (s: seq<real>)
    requires n > 0
    ensures |s| == n
  {
    Repeat(0.0, n - Cut(n) - 1) + Repeat(x, Cut(n) + 1)
  }

  lemma KeptOfSpiked(n: nat, x: real)
    requires n > 0 && x > 0.0
    ensures Kept(Spiked(n, x)) == Repeat(0.0, n - 2 * Cut(n) - 1) + [x]
  {
    SortKeepsSorted(Spiked(n, x));
  }

  lemma SumOfSpike(k: nat, x: real)
    ensures Sum(Repeat(0.0, k) + [x]) == x
  {
    SumBounds(Repeat(0.0, k), 0.0, 0.0);
    ZeroTimes(k as real);
    assert (Repeat(0.0, k) + [x])[..k] == Repeat(0.0, k);
  }

  lemma ZeroTimes(r: real)
    ensures 0.0 * r == 0.0
  {
  }

  lemma OutsideSpiked(n: nat, x: real)
    requires n > 0 && x > 0.0
    ensures Outside(Spiked(n, x), 0.0, 0.0) == Cut(n) + 1
  {
    OutsideAppend(Repeat(0.0, n - Cut(n) - 1), Repeat(x, Cut(n) + 1), 0.0, 0.0);
    OutsideRepeat(0.0, n - Cut(n) - 1);
    OutsideRepeat(x, Cut(n) + 1);
  }

  /** One outlier more than a quarter, and the result goes anywhere, however many samples there are. */
  lemma BreaksBeyondQuarter(n: nat, x: real)
    requires n > 0 && x > 0.0
    ensures Outside(Spiked(n, x), 0.0, 0.0) == n / 4 + 1
    ensures Mean(Spiked(n, x)) == x / (n - 2 * (n / 4)) as real
  {
    OutsideSpiked(n, x);
    KeptOfSpiked(n, x);
    SumOfSpike(n - 2 * Cut(n) - 1, x);
  }
}
