/**
 * A shift register whose states are the multiples of one state `e`: stepping is
 * then multiplication in a polynomial ring, and running it for a long time can
 * be computed by repeated squaring.
 */
module RegisterField {
  import opened LinearRegister

  /**
   * `f` is the step, `op` addition with unit `zero`. A state is its top digit
   * (present or not, worth `e`) plus one step of the state moved `up` a digit.
   */
  datatype Register<!T> = Register(f: T -> T, op: (T, T) -> T, zero: T, e: T, top: T -> bool, up: T -> T, width: nat)

  function TopDigit<T>(g: Register<T>, r: T): T {
    if g.top(r) then g.e else g.zero
  }

  ghost predicate Sound<T(!new)>(g: Register<T>) {
    && Linear(g.f, g.op, g.zero)
    && (forall r {:trigger g.up(r)} :: r == g.op(TopDigit(g, r), g.f(g.up(r))))
    && (forall r {:trigger g.top(r)} :: Iter(g.up, r, g.width) == g.zero)
  }

  function Digit<T>(g: Register<T>, v: T, x: T): T {
    if g.top(v) then x else g.zero
  }

  /** The sum of `f^i(r)` over the digits i of `v`: the product of v and r. */
  function Times<T>(g: Register<T>, v: T, r: T, n: nat): T
    decreases n
  {
    if n == 0 then g.zero else g.op(Digit(g, v, r), Times(g, g.up(v), g.f(r), n - 1))
  }

  function Product<T>(g: Register<T>, v: T, r: T): T {
    Times(g, v, r, g.width)
  }

  // ---- Operators that respect addition and stepping ---------------------------------

  ghost predicate Operator<T(!new)>(g: Register<T>, h: T -> T) {
    Homomorphic(h, g.op) && forall r {:trigger h(g.f(r))} :: h(g.f(r)) == g.f(h(r))
  }

  lemma OperatorZero<T(!new)>(g: Register<T>, h: T -> T)
    requires Sound(g) && Homomorphic(h, g.op)
    ensures h(g.zero) == g.zero
  {
    var z := h(g.zero);
    assert g.op(g.zero, g.zero) == g.zero;
    assert h(g.op(g.zero, g.zero)) == g.op(z, z);
    assert g.op(z, z) == g.zero;
  }

  lemma {:induction false} AgreeUpTo<T(!new)>(g: Register<T>, h: T -> T, k: T -> T, r: T, n: nat)
    requires Sound(g) && Operator(g, h) && Operator(g, k) && h(g.e) == k(g.e)
    requires Iter(g.up, r, n) == g.zero
    ensures h(r) == k(r)
    decreases n
  {
    OperatorZero(g, h);
    OperatorZero(g, k);
    if n > 0 {
      var d, u := TopDigit(g, r), g.up(r);
      AgreeUpTo(g, h, k, u, n - 1);
      assert r == g.op(d, g.f(u));
      assert h(r) == g.op(h(d), h(g.f(u))) && k(r) == g.op(k(d), k(g.f(u)));
    }
  }

  /** Two operators that agree on `e` are equal. */
  lemma Agree<T(!new)>(g: Register<T>, h: T -> T, k: T -> T, r: T)
    requires Sound(g) && Operator(g, h) && Operator(g, k) && h(g.e) == k(g.e)
    ensures h(r) == k(r)
  {
    assert g.top(r) || !g.top(r);
    AgreeUpTo(g, h, k, r, g.width);
  }

  lemma SumsRegroup<T(!new)>(op: (T, T) -> T, dx: T, dy: T, tx: T, ty: T)
    requires Regroups(op)
    ensures op(op(dx, dy), op(tx, ty)) == op(op(dx, tx), op(dy, ty))
  {
  }

  lemma {:induction false} TimesAdds<T(!new)>(g: Register<T>, v: T, x: T, y: T, n: nat)
    requires Homomorphic(g.f, g.op) && Regroups(g.op) && g.op(g.zero, g.zero) == g.zero
    ensures Times(g, v, g.op(x, y), n) == g.op(Times(g, v, x, n), Times(g, v, y, n))
    decreases n
  {
    if n > 0 {
      var u, m := g.up(v), n - 1;
      TimesAdds(g, u, g.f(x), g.f(y), m);
      calc {
        Times(g, v, g.op(x, y), n);
        g.op(Digit(g, v, g.op(x, y)), Times(g, u, g.f(g.op(x, y)), m));
        g.op(g.op(Digit(g, v, x), Digit(g, v, y)), g.op(Times(g, u, g.f(x), m), Times(g, u, g.f(y), m)));
        { SumsRegroup(g.op, Digit(g, v, x), Digit(g, v, y), Times(g, u, g.f(x), m), Times(g, u, g.f(y), m)); }
        g.op(Times(g, v, x, n), Times(g, v, y, n));
      }
    }
  }

  lemma {:induction false} TimesSteps<T(!new)>(g: Register<T>, v: T, x: T, n: nat)
    requires Sound(g)
    ensures Times(g, v, g.f(x), n) == g.f(Times(g, v, x, n))
    decreases n
  {
    assert g.f(g.zero) == g.zero;
    if n > 0 {
      var d, t := Digit(g, v, x), Times(g, g.up(v), g.f(x), n - 1);
      TimesSteps(g, g.up(v), g.f(x), n - 1);
      assert g.f(g.op(d, t)) == g.op(g.f(d), g.f(t));
    }
  }

  lemma {:induction false} TimesUnit<T(!new)>(g: Register<T>, v: T, n: nat)
    requires Sound(g) && Iter(g.up, v, n) == g.zero
    ensures Times(g, v, g.e, n) == v
    decreases n
  {
    if n > 0 {
      var u := g.up(v);
      TimesUnit(g, u, n - 1);
      TimesSteps(g, u, g.e, n - 1);
      assert v == g.op(TopDigit(g, v), g.f(u));
    }
  }

  lemma ProductIsOperator<T(!new)>(g: Register<T>, v: T, h: T -> T)
    requires Sound(g) && forall r :: h(r) == Product(g, v, r)
    ensures Operator(g, h) && h(g.e) == v
  {
    assert g.op(g.zero, g.zero) == g.zero;
    forall x, y
      ensures h(g.op(x, y)) == g.op(h(x), h(y))
    {
      TimesAdds(g, v, x, y, g.width);
    }
    forall r
      ensures h(g.f(r)) == g.f(h(r))
    {
      TimesSteps(g, v, r, g.width);
    }
    assert g.top(v) || !g.top(v);
    TimesUnit(g, v, g.width);
  }

  lemma {:induction false} IterCommutes<T>(f: T -> T, r: T, n: nat)
    ensures Iter(f, f(r), n) == f(Iter(f, r, n))
    decreases n
  {
    if n > 0 {
      IterCommutes(f, f(r), n - 1);
    }
  }

  lemma IterIsOperator<T(!new)>(g: Register<T>, m: nat, h: T -> T)
    requires Sound(g) && forall r :: h(r) == Iter(g.f, r, m)
    ensures Operator(g, h)
  {
    forall x, y
      ensures h(g.op(x, y)) == g.op(h(x), h(y))
    {
      IterLinear(g.f, g.op, x, y, m);
    }
    forall r
      ensures h(g.f(r)) == g.f(h(r))
    {
      IterCommutes(g.f, r, m);
    }
  }

  /** An operator is multiplication by what it makes of `e`. */
  lemma OperatorIsProduct<T(!new)>(g: Register<T>, h: T -> T, c: T)
    requires Sound(g) && Operator(g, h)
    ensures h(c) == Product(g, h(g.e), c)
  {
    var w := h(g.e);
    var k := (x: T) => Product(g, w, x);
    ProductIsOperator(g, w, k);
    Agree(g, h, k, c);
  }

  lemma TimesUnfold<T>(g: Register<T>, v: T, r: T, n: nat)
    requires n > 0
    ensures Times(g, v, r, n) == g.op(Digit(g, v, r), Times(g, g.up(v), g.f(r), n - 1))
  {
  }

  lemma TimesTwo<T>(g: Register<T>, v: T, r: T, n: nat)
    requires n >= 2
    ensures Times(g, v, r, n)
         == g.op(Digit(g, v, r), g.op(Digit(g, g.up(v), g.f(r)), Times(g, g.up(g.up(v)), g.f(g.f(r)), n - 2)))
  {
    TimesUnfold(g, v, r, n);
    TimesUnfold(g, g.up(v), g.f(r), n - 1);
  }

  /** Stepping m times is multiplication by what m steps make of `e`. */
  lemma IterIsProduct<T(!new)>(g: Register<T>, m: nat, r: T)
    requires Sound(g)
    ensures Iter(g.f, r, m) == Product(g, Iter(g.f, g.e, m), r)
  {
    var h := (x: T) => Iter(g.f, x, m);
    IterIsOperator(g, m, h);
    OperatorIsProduct(g, h, r);
  }

  /** Twice as many steps: one squaring. */
  lemma Doubling<T(!new)>(g: Register<T>, m: nat, v: T)
    requires Sound(g) && Iter(g.f, g.e, m) == v
    ensures Iter(g.f, g.e, 2 * m) == Product(g, v, v)
  {
    IterAdd(g.f, g.e, m, m);
    IterIsProduct(g, m, v);
  }

  /** Multiplication by an element with an inverse loses nothing. */
  lemma InvertibleProduct<T(!new)>(g: Register<T>, w: T, q: T, c: T)
    requires Sound(g) && Product(g, q, w) == g.e && Product(g, w, c) == g.zero
    ensures c == g.zero
  {
    var a, b := (x: T) => Product(g, q, x), (x: T) => Product(g, w, x);
    ProductIsOperator(g, q, a);
    ProductIsOperator(g, w, b);
    var h, k := (x: T) => a(b(x)), (x: T) => x;
    assert Operator(g, h) by {
      forall x, y
        ensures h(g.op(x, y)) == g.op(h(x), h(y))
      {
        assert b(g.op(x, y)) == g.op(b(x), b(y));
      }
      forall r
        ensures h(g.f(r)) == g.f(h(r))
      {
        assert b(g.f(r)) == g.f(b(r));
      }
    }
    assert Operator(g, k);
    Agree(g, h, k, c);
    OperatorZero(g, a);
  }

  lemma SumIsOperator<T(!new)>(g: Register<T>, p: T -> T, h: T -> T)
    requires Sound(g) && Operator(g, p) && forall x :: h(x) == g.op(p(x), g.f(x))
    ensures Operator(g, h)
  {
    forall x, y
      ensures h(g.op(x, y)) == g.op(h(x), h(y))
    {
      assert p(g.op(x, y)) == g.op(p(x), p(y)) && g.f(g.op(x, y)) == g.op(g.f(x), g.f(y));
      SumsRegroup(g.op, p(x), p(y), g.f(x), g.f(y));
    }
    forall r
      ensures h(g.f(r)) == g.f(h(r))
    {
      assert p(g.f(r)) == g.f(p(r));
      assert g.f(g.op(p(r), g.f(r))) == g.op(g.f(p(r)), g.f(g.f(r)));
    }
  }

  lemma MakeSum<T(!new)>(op: (T, T) -> T, p: T -> T, f: T -> T) returns (h: T -> T)
    ensures forall x :: h(x) == op(p(x), f(x))
  {
    h := (x: T) => op(p(x), f(x));
  }

  lemma SumOperator<T(!new)>(g: Register<T>, p: T -> T, c: T) returns (h: T -> T)
    requires Sound(g) && Operator(g, p)
    ensures Operator(g, h) && h(c) == g.op(p(c), g.f(c)) && h(g.e) == g.op(p(g.e), g.f(g.e))
  {
    h := MakeSum(g.op, p, g.f);
    assert Operator(g, h) by {
      SumIsOperator(g, p, h);
    }
  }

  lemma SumEqualsProduct<T(!new)>(g: Register<T>, p: T -> T, c: T)
    requires Sound(g) && Operator(g, p)
    ensures g.op(p(c), g.f(c)) == Product(g, g.op(p(g.e), g.f(g.e)), c)
  {
    var h := SumOperator(g, p, c);
    OperatorIsProduct(g, h, c);
  }

  /** If m steps take `c` as far as one step does, then `f^m - f` kills it. */
  lemma DifferenceKills<T(!new)>(g: Register<T>, m: nat, c: T)
    requires Sound(g) && Iter(g.f, c, m) == g.f(c)
    ensures Product(g, g.op(Iter(g.f, g.e, m), g.f(g.e)), c) == g.zero
  {
    var p := (x: T) => Iter(g.f, x, m);
    IterIsOperator(g, m, p);
    SumEqualsProduct(g, p, c);
    SelfCancels(g.op, g.zero, g.f(c));
  }

  lemma SelfCancels<T(!new)>(op: (T, T) -> T, zero: T, x: T)
    requires Cancels(op, zero)
    ensures op(x, x) == zero
  {
  }

  // ---- Periods -----------------------------------------------------------------------

  ghost predicate Period<T>(f: T -> T, c: T, k: nat) {
    Iter(f, c, k) == c
  }

  lemma {:induction false} IterInjective<T(!new)>(f: T -> T, op: (T, T) -> T, zero: T, x: T, y: T, n: nat)
    requires Linear(f, op, zero) && Iter(f, x, n) == Iter(f, y, n)
    ensures x == y
  {
    var a := Iter(f, x, n);
    IterLinear(f, op, x, y, n);
    assert op(a, a) == zero;
    IterNonzero(f, zero, op(x, y), n);
    assert op(x, y) == zero;
  }

  lemma PeriodDifference<T(!new)>(g: Register<T>, c: T, a: nat, b: nat)
    requires Sound(g) && a >= b && Period(g.f, c, a) && Period(g.f, c, b)
    ensures Period(g.f, c, a - b)
  {
    IterAdd(g.f, c, a - b, b);
    IterInjective(g.f, g.op, g.zero, Iter(g.f, c, a - b), c, b);
  }

  lemma {:induction false} PeriodMultiple<T(!new)>(g: Register<T>, c: T, a: nat, k: nat)
    requires Period(g.f, c, a)
    ensures Period(g.f, c, k * a)
    decreases k
  {
    if k > 0 {
      PeriodMultiple(g, c, a, k - 1);
      IterAdd(g.f, c, a, (k - 1) * a);
      assert a + (k - 1) * a == k * a;
    }
  }

  function Gcd(a: nat, b: nat): nat
    requires a > 0 && b > 0
    decreases a + b
  {
    if a == b then a else if a < b then Gcd(a, b - a) else Gcd(a - b, b)
  }

  lemma {:induction false} PeriodGcd<T(!new)>(g: Register<T>, c: T, s: nat, a: nat, b: nat)
    requires Sound(g) && a > 0 && b > 0 && Period(g.f, c, s * a) && Period(g.f, c, s * b)
    ensures Period(g.f, c, s * Gcd(a, b))
    decreases a + b
  {
    if a < b {
      assert s * b - s * a == s * (b - a) && s * b >= s * a;
      PeriodDifference(g, c, s * b, s * a);
      PeriodGcd(g, c, s, a, b - a);
    } else if a > b {
      assert s * a - s * b == s * (a - b) && s * a >= s * b;
      PeriodDifference(g, c, s * a, s * b);
      PeriodGcd(g, c, s, a - b, b);
    }
  }

  ghost predicate Divides(d: nat, n: nat) {
    exists k: nat :: d * k == n
  }

  lemma {:induction false} GcdDivides(a: nat, b: nat)
    requires a > 0 && b > 0
    ensures 0 < Gcd(a, b) <= a && Divides(Gcd(a, b), a) && Divides(Gcd(a, b), b)
    decreases a + b
  {
    var d := Gcd(a, b);
    if a == b {
      assert d * 1 == a;
    } else if a < b {
      GcdDivides(a, b - a);
      var k, m :| d * k == a && d * m == b - a;
      assert d * (k + m) == b;
    } else {
      GcdDivides(a - b, b);
      var k, m :| d * k == a - b && d * m == b;
      assert d * (k + m) == a;
    }
  }
}
