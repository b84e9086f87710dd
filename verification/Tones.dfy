/** What the transform is for: a pure tone lands in its own bin and nowhere else. */
module Tones {
  import opened Arith
  import opened ComplexNumbers
  import opened BitReversal
  import opened DiscreteFourier
  import opened FastFourier
  import opened Correction

  /** A root of a power-of-two stage is primitive: no smaller power of it is one. */
  lemma {:induction false} RootPrimitive(tw: nat -> Complex, m: nat, d: nat)
    requires Twiddles(tw) && 0 < d < Pow2(m)
    ensures Pow(tw(m), d) != ONE
  {
    hide Mul, Pow;
    var e := d / 2;
    if m == 1 {
      assert Pow2(1) == 2 && d == 1;
      PowFirst(tw(1));
    } else if d % 2 == 0 {
      assert Pow2(m) == 2 * Pow2(m - 1) && d == 2 * e;
      assert SquaresDown(tw, m);
      PowDouble(tw(m), e);
      RootPrimitive(tw, m - 1, e);
    } else {
      var h := Pow2(m - 1);
      TwiddleHalf(tw, m);
      PowPow(tw(m), d, h);
      PowPow(tw(m), h, d);
      assert d * h == h * d;
      OddPower(e);
      assert d == 2 * e + 1;
      PowOne(h);
    }
  }

  lemma {:induction false} OddPower(e: nat)
    ensures Pow(Complex(-1.0, 0.0), 2 * e + 1) == Complex(-1.0, 0.0)
  {
    hide Mul;
    var w := Complex(-1.0, 0.0);
    MinusOne(w);
    assert Pow2(1) == 2;
    PowPow(w, 2, e);
    PowOne(e);
    assert Pow(w, 2 * e + 1) == Mul(w, Pow(w, 2 * e));
    MulOne(w);
  }

  ghost function Powers(v: Complex): nat -> Complex {
    (n: nat) => Pow(v, n)
  }

  /** The geometric sum. */
  lemma {:induction false} GeometricSum(v: Complex, n: nat)
    ensures Mul(Sub(v, ONE), Sum(n, Powers(v))) == Sub(Pow(v, n), ONE)
  {
    hide Mul, Sub, Add;
    if n == 0 {
      MulOne(Sub(v, ONE));
      SubSelf(ONE);
    } else {
      GeometricSum(v, n - 1);
      var p := Pow(v, n - 1);
      assert Pow(v, n) == Mul(v, p);
      MulDistrib(Sub(v, ONE), Sum(n - 1, Powers(v)), p);
      SubMul(v, p);
      Telescope(p, Mul(v, p));
    }
  }

  lemma SubSelf(a: Complex)
    ensures Sub(a, a) == ZERO
  {
  }

  lemma SubMul(v: Complex, p: Complex)
    ensures Mul(Sub(v, ONE), p) == Sub(Mul(v, p), p)
  {
  }

  lemma Telescope(p: Complex, q: Complex)
    ensures Add(Sub(p, ONE), Sub(q, p)) == Sub(q, ONE)
  {
  }

  lemma NoZeroDivisors(a: Complex, b: Complex)
    requires Mul(a, b) == ZERO && a != ZERO
    ensures b == ZERO
  {
    NormSqMul(a, b);
    NormZero(a);
    NormZero(b);
    NormZero(ZERO);
    hide Mul, NormSq;
    FactorZero(NormSq(a), NormSq(b));
  }

  lemma FactorZero(x: real, y: real)
    requires x * y == 0.0 && x != 0.0
    ensures y == 0.0
  {
  }

  lemma NormZero(a: Complex)
    ensures NormSq(a) == 0.0 <==> a == ZERO
  {
    SquarePositive(a.re);
    SquarePositive(a.im);
  }

  lemma SquarePositive(x: real)
    ensures x * x >= 0.0 && (x * x == 0.0 ==> x == 0.0)
  {
    if x * x == 0.0 && x != 0.0 {
      FactorZero(x, x);
    }
  }

  lemma {:induction false} SumOnes(n: nat)
    ensures Sum(n, Powers(ONE)) == Complex(n as real, 0.0)
  {
    hide Mul, Pow, Add;
    if n == 0 {
      assert Sum(0, Powers(ONE)) == ZERO;
    } else {
      SumOnes(n - 1);
      PowOne(n - 1);
      assert Powers(ONE)(n - 1) == ONE;
      OneMore((n - 1) as real);
    }
  }

  lemma OneMore(x: real)
    ensures Add(Complex(x, 0.0), ONE) == Complex(x + 1.0, 0.0)
  {
  }

  /** The tone of bin j: it turns j times around the unit circle, counter to the root. */
  ghost function Tone(w: Complex, j: nat): nat -> Complex {
    (n: nat) => Pow(Conj(w), n * j)
  }

  /** Bin k of the tone of bin j is N for k = j and zero for every other bin. */
  lemma ToneBins(tw: nat -> Complex, m: nat, j: nat, k: nat)
    requires Twiddles(tw) && UnitModulus(tw) && m >= 1 && j < Pow2(m) && k < Pow2(m)
    ensures Dft(Pow2(m), tw(m), Tone(tw(m), j), k) == if j == k then Complex(Pow2(m) as real, 0.0) else ZERO
  {
    hide Mul, Pow, Conj, NormSq, Sum, Add, Sub, Twiddles;
    var w, n := tw(m), Pow2(m);
    TwiddleHalf(tw, m);
    var v := Pow(w, n - j + k);
    forall t: nat | t < n
      ensures Term(w, Tone(w, j), k)(t) == Powers(v)(t)
    {
      ToneTerm(w, n, j, k, t);
    }
    SumCongruence(n, Term(w, Tone(w, j), k), Powers(v));
    if j == k {
      SumOnes(n);
    } else {
      TurnNotOne(tw, m, j, k);
      GeometricSum(v, n);
      PowPow(w, n - j + k, n);
      PowPow(w, n, n - j + k);
      assert (n - j + k) * n == n * (n - j + k);
      PowOne(n - j + k);
      SubSelf(ONE);
      Differ(v);
      NoZeroDivisors(Sub(v, ONE), Sum(n, Powers(v)));
    }
  }

  lemma Differ(v: Complex)
    ensures v != ONE ==> Sub(v, ONE) != ZERO
  {
  }

  lemma ToneTerm(w: Complex, n: nat, j: nat, k: nat, t: nat)
    requires Pow(w, n) == ONE && NormSq(w) == 1.0 && j <= n
    ensures Mul(Pow(Conj(w), t * j), Pow(w, t * k)) == Pow(Pow(w, n - j + k), t)
  {
    hide Mul, Pow, Conj, NormSq;
    PowConj(w, t * j);
    var q := t * (n - j);
    assert q + t * j == n * t;
    PowAdd(w, q, t * j);
    PowPow(w, n, t);
    PowOne(t);
    InverseIsConj(w, t * j, Pow(w, q));
    PowAdd(w, q, t * k);
    assert q + t * k == (n - j + k) * t;
    PowPow(w, n - j + k, t);
  }

  lemma InverseIsConj(w: Complex, e: nat, a: Complex)
    requires NormSq(w) == 1.0 && Mul(a, Pow(w, e)) == ONE
    ensures a == Conj(Pow(w, e))
  {
    hide Mul, Pow, Conj, NormSq;
    var p := Pow(w, e);
    UnitInverse(w, e);
    MulAssoc(a, p, Conj(p));
    MulOne(a);
    MulOne(Conj(p));
  }

  lemma TurnNotOne(tw: nat -> Complex, m: nat, j: nat, k: nat)
    requires Twiddles(tw) && m >= 1 && j < Pow2(m) && k < Pow2(m) && j != k
    ensures Pow(tw(m), Pow2(m) - j + k) != ONE
  {
    hide Mul, Pow;
    var n := Pow2(m);
    TwiddleHalf(tw, m);
    if k > j {
      PowAdd(tw(m), n, k - j);
      MulOne(Pow(tw(m), k - j));
      RootPrimitive(tw, m, k - j);
      assert n - j + k == n + (k - j);
    } else {
      RootPrimitive(tw, m, n - j + k);
    }
  }

  /** After the half swap the one nonzero position is N/2 above the tone's bin, cyclically: what `fft` leaves in its buffer
      when it is given a tone. */
  lemma ToneLands(tw: nat -> Complex, m: nat, j: nat, x: seq<Complex>, i: nat)
    requires Twiddles(tw) && UnitModulus(tw) && m >= 1 && j < Pow2(m) == |x| && i < |x|
    requires forall n: nat :: n < |x| ==> x[n] == Pow(Conj(tw(m)), n * j)
    ensures Centred(Transform(x, tw))[i] == if i == (j + |x| / 2) % |x| then Complex(|x| as real, 0.0) else ZERO
  {
    hide Twiddles, Pow, Conj, Sum;
    LogIs(m);
    var k := (i + |x| / 2) % |x|;
    forall t: nat | t < |x|
      ensures At(x)(t) == Tone(tw(m), j)(t)
    {
    }
    DftCongruence(|x|, tw(m), At(x), Tone(tw(m), j), k);
    ToneBins(tw, m, j, k);
    hide Dft;
    HalfTurn(Pow2(m - 1), i, j);
  }

  lemma LogIs(m: nat)
    ensures IsPowerOfTwo(Pow2(m)) && Log2(Pow2(m)) == m
  {
    PowersDiffer(m, Log2(Pow2(m)));
  }

  lemma {:induction false} PowersDiffer(a: nat, b: nat)
    requires Pow2(a) == Pow2(b)
    ensures a == b
  {
    if a > 0 && b > 0 {
      PowersDiffer(a - 1, b - 1);
    }
  }

  lemma HalfTurn(h: nat, i: nat, j: nat)
    requires i < 2 * h && j < 2 * h
    ensures j == (i + h) % (2 * h) <==> i == (j + h) % (2 * h)
  {
    ModAdd(h, i);
    ModAdd(h, j);
  }

  lemma ModAdd(h: nat, i: nat)
    requires i < 2 * h
    ensures (i + h) % (2 * h) == if i < h then i + h else i - h
  {
    if i < h {
      DivModUnique(i + h, 2 * h, 0, i + h);
    } else {
      DivModUnique(i + h, 2 * h, 1, i - h);
    }
  }
}
