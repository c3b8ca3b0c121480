/**
 * Shift registers over an arbitrary group of exponent two. Everything a CRC
 * owes to linearity is proved here once, without looking at any bit.
 */
module LinearRegister {

  function Iter<T>(f: T -> T, c: T, n: nat): T
    decreases n
  {
    if n == 0 then c else Iter(f, f(c), n - 1)
  }

  /** Absorb each symbol into the register, then clock it `n` times. */
  function Fold<T>(f: T -> T, op: (T, T) -> T, n: nat, c: T, s: seq<T>): T
    decreases s
  {
    if s == [] then c else Fold(f, op, n, Iter(f, op(c, s[0]), n), s[1..])
  }

  function Pointwise<T>(op: (T, T) -> T, s: seq<T>, t: seq<T>): seq<T>
    requires |s| == |t|
  {
    seq(|s|, i requires 0 <= i < |s| => op(s[i], t[i]))
  }

  ghost predicate Homomorphic<T(!new)>(f: T -> T, op: (T, T) -> T) {
    forall x, y {:trigger f(op(x, y))} :: f(op(x, y)) == op(f(x), f(y))
  }

  ghost predicate Injective<T(!new)>(f: T -> T, zero: T) {
    forall x {:trigger f(x)} :: f(x) == zero <==> x == zero
  }

  ghost predicate Cancels<T(!new)>(op: (T, T) -> T, zero: T) {
    forall x, y {:trigger op(x, y)} :: op(x, y) == zero <==> x == y
  }

  ghost predicate Regroups<T(!new)>(op: (T, T) -> T) {
    forall a, b, c, d {:trigger op(op(a, b), op(c, d))} :: op(op(a, b), op(c, d)) == op(op(a, c), op(b, d))
  }

  ghost predicate Unit<T(!new)>(op: (T, T) -> T, zero: T) {
    forall x {:trigger op(x, zero)} :: op(x, zero) == x
  }

  /** `op` is addition without carry and `f` an injective linear map. */
  ghost predicate Linear<T(!new)>(f: T -> T, op: (T, T) -> T, zero: T) {
    Homomorphic(f, op) && Injective(f, zero) && Cancels(op, zero) && Regroups(op) && Unit(op, zero)
  }

  ghost predicate Commutes<T(!new)>(op: (T, T) -> T) {
    forall x, y {:trigger op(x, y)} :: op(x, y) == op(y, x)
  }

  ghost predicate Associates<T(!new)>(op: (T, T) -> T) {
    forall x, y, z {:trigger op(op(x, y), z)} :: op(op(x, y), z) == op(x, op(y, z))
  }

  lemma CommutingRegroups<T(!new)>(op: (T, T) -> T)
    requires Commutes(op) && Associates(op)
    ensures Regroups(op)
  {
    forall a, b, c, d
      ensures op(op(a, b), op(c, d)) == op(op(a, c), op(b, d))
    {
      calc {
        op(op(a, b), op(c, d));
        op(a, op(b, op(c, d)));
        { assert op(op(b, c), d) == op(b, op(c, d)); }
        op(a, op(op(b, c), d));
        op(a, op(op(c, b), d));
        { assert op(op(c, b), d) == op(c, op(b, d)); }
        op(a, op(c, op(b, d)));
        op(op(a, c), op(b, d));
      }
    }
  }

  lemma {:induction false} IterAdd<T>(f: T -> T, c: T, m: nat, n: nat)
    ensures Iter(f, c, m + n) == Iter(f, Iter(f, c, m), n)
    decreases m
  {
    if m > 0 {
      IterAdd(f, f(c), m - 1, n);
    }
  }

  lemma {:induction false} IterCongruent<T(!new)>(f: T -> T, g: T -> T, c: T, n: nat)
    requires forall x :: f(x) == g(x)
    ensures Iter(f, c, n) == Iter(g, c, n)
    decreases n
  {
    if n > 0 {
      IterCongruent(f, g, f(c), n - 1);
    }
  }

  lemma {:induction false} IterLinear<T(!new)>(f: T -> T, op: (T, T) -> T, x: T, y: T, n: nat)
    requires Homomorphic(f, op)
    ensures Iter(f, op(x, y), n) == op(Iter(f, x, n), Iter(f, y, n))
    decreases n
  {
    if n > 0 {
      IterLinear(f, op, f(x), f(y), n - 1);
    }
  }

  lemma {:induction false} IterNonzero<T(!new)>(f: T -> T, zero: T, x: T, n: nat)
    requires Injective(f, zero)
    ensures Iter(f, x, n) == zero <==> x == zero
    decreases n
  {
    if n > 0 {
      IterNonzero(f, zero, f(x), n - 1);
    }
  }

  lemma {:induction false} FoldAppend<T>(f: T -> T, op: (T, T) -> T, n: nat, c: T, s: seq<T>, t: seq<T>)
    ensures Fold(f, op, n, c, s + t) == Fold(f, op, n, Fold(f, op, n, c, s), t)
    decreases s
  {
    if s == [] {
      assert s + t == t;
    } else {
      assert (s + t)[0] == s[0] && (s + t)[1..] == s[1..] + t;
      FoldAppend(f, op, n, Iter(f, op(c, s[0]), n), s[1..], t);
    }
  }

  /** The difference of two checksums is the checksum of the difference. */
  lemma {:induction false} FoldDifference<T(!new)>(
    f: T -> T, op: (T, T) -> T, zero: T, n: nat, c: T, d: T, s: seq<T>, t: seq<T>)
    requires Linear(f, op, zero) && |s| == |t|
    ensures op(Fold(f, op, n, c, s), Fold(f, op, n, d, t)) == Fold(f, op, n, op(c, d), Pointwise(op, s, t))
    decreases s
  {
    if s != [] {
      var e := Pointwise(op, s, t);
      assert e[1..] == Pointwise(op, s[1..], t[1..]);
      var c', d' := Iter(f, op(c, s[0]), n), Iter(f, op(d, t[0]), n);
      assert Iter(f, op(op(c, d), e[0]), n) == op(c', d') by {
        IterLinear(f, op, op(c, s[0]), op(d, t[0]), n);
        assert op(op(c, s[0]), op(d, t[0])) == op(op(c, d), op(s[0], t[0]));
      }
      FoldDifference(f, op, zero, n, c', d', s[1..], t[1..]);
    }
  }

  /** Absorbing zeros neither creates nor destroys a difference. */
  lemma {:induction false} FoldZeros<T(!new)>(f: T -> T, op: (T, T) -> T, zero: T, n: nat, c: T, s: seq<T>)
    requires Injective(f, zero) && Unit(op, zero) && forall i | 0 <= i < |s| :: s[i] == zero
    ensures Fold(f, op, n, c, s) == zero <==> c == zero
    decreases s
  {
    if s != [] {
      assert op(c, zero) == c;
      IterNonzero(f, zero, c, n);
      FoldZeros(f, op, zero, n, Iter(f, c, n), s[1..]);
    }
  }

  lemma FoldPadded<T(!new)>(
    f: T -> T, op: (T, T) -> T, zero: T, n: nat, before: seq<T>, middle: seq<T>, after: seq<T>)
    requires Injective(f, zero) && Unit(op, zero)
    requires forall i | 0 <= i < |before| :: before[i] == zero
    requires forall i | 0 <= i < |after| :: after[i] == zero
    ensures Fold(f, op, n, zero, before + (middle + after)) == zero <==> Fold(f, op, n, zero, middle) == zero
  {
    FoldZeros(f, op, zero, n, zero, before);
    FoldZeros(f, op, zero, n, Fold(f, op, n, zero, middle), after);
    FoldAppend(f, op, n, zero, before, middle + after);
    FoldAppend(f, op, n, zero, middle, after);
  }

  /** Two messages collide exactly when their difference folds to zero. */
  lemma CollideIff<T(!new)>(f: T -> T, op: (T, T) -> T, zero: T, n: nat, c: T, s: seq<T>, t: seq<T>)
    requires Linear(f, op, zero) && |s| == |t|
    ensures Fold(f, op, n, c, s) == Fold(f, op, n, c, t) <==> Fold(f, op, n, zero, Pointwise(op, s, t)) == zero
  {
    var x, y := Fold(f, op, n, c, s), Fold(f, op, n, c, t);
    assert op(c, c) == zero;
    assert op(x, y) == zero <==> x == y;
    FoldDifference(f, op, zero, n, c, c, s, t);
  }

  /** A difference inside a window that folds to nonzero does not cancel later. */
  lemma WindowDetected<T(!new)>(
    f: T -> T, op: (T, T) -> T, zero: T, n: nat, s: seq<T>, t: seq<T>, p: nat, q: nat)
    requires Injective(f, zero) && Unit(op, zero) && Cancels(op, zero)
    requires |s| == |t| && p <= q <= |s|
    requires forall i | 0 <= i < |s| && !(p <= i < q) :: s[i] == t[i]
    ensures Fold(f, op, n, zero, Pointwise(op, s, t)) == zero
       <==> Fold(f, op, n, zero, Pointwise(op, s, t)[p..q]) == zero
  {
    var e := Pointwise(op, s, t);
    forall i | 0 <= i < |s| && !(p <= i < q)
      ensures e[i] == zero
    {
      assert e[i] == op(s[i], t[i]);
    }
    assert e == e[..p] + (e[p..q] + e[q..]);
    FoldPadded(f, op, zero, n, e[..p], e[p..q], e[q..]);
  }

  // ---- A word loaded at once against its digits fed one at a time ------------------

  function Digits<T>(head: T -> T, rest: T -> T, w: T, n: nat): (r: seq<T>)
    ensures |r| == n
    decreases n
  {
    if n == 0 then [] else [head(w)] + Digits(head, rest, rest(w), n - 1)
  }

  /** A step consumes the lowest digit of a waiting word and moves the others down. */
  ghost predicate TakesOneDigit<T(!new)>(f: T -> T, op: (T, T) -> T, head: T -> T, rest: T -> T) {
    forall c, w {:trigger f(op(c, w))} :: f(op(c, w)) == op(f(op(c, head(w))), rest(w))
  }

  lemma {:induction false} ParallelIsSerial<T(!new)>(
    f: T -> T, op: (T, T) -> T, head: T -> T, rest: T -> T, c: T, w: T, n: nat)
    requires TakesOneDigit(f, op, head, rest)
    ensures Iter(f, op(c, w), n) == op(Fold(f, op, 1, c, Digits(head, rest, w, n)), Iter(rest, w, n))
    decreases n
  {
    if n > 0 {
      var d := Digits(head, rest, w, n);
      var c' := f(op(c, head(w)));
      assert d[0] == head(w) && d[1..] == Digits(head, rest, rest(w), n - 1);
      assert Iter(f, op(c, d[0]), 1) == c';
      ParallelIsSerial(f, op, head, rest, c', rest(w), n - 1);
    }
  }

  lemma IterEight<T>(f: T -> T, c: T)
    ensures Iter(f, c, 8) == f(f(f(f(f(f(f(f(c))))))))
  {
    var c4 := f(f(f(f(c))));
    assert Iter(f, c4, 4) == f(f(f(f(c4))));
    assert Iter(f, c, 8) == Iter(f, c4, 4);
  }
}
