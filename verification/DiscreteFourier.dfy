/** The discrete Fourier transform as a quadratic sum, and its two structural laws:
    splitting a transform into its even and odd halves, and the transform of a conjugate. */
module DiscreteFourier {
  import opened ComplexNumbers
  import opened BitReversal
  import opened Arith

  /** The cosine/sine hypothesis. tw(l) stands for cos(pi/2^(l-1)) - i sin(pi/2^(l-1)), the primitive 2^l-th root of
      unity read at stage l: tw(1) is -1 and each root squares to the previous one. */
  ghost predicate Twiddles(tw: nat -> Complex) {
    && tw(1) == Complex(-1.0, 0.0)
    && forall l: nat :: l >= 2 ==> SquaresDown(tw, l)
  }

  ghost predicate SquaresDown(tw: nat -> Complex, l: nat) {
    l >= 1 && Mul(tw(l), tw(l)) == tw(l - 1)
  }

  /** The second half of the hypothesis: sin^2 + cos^2 = 1. */
  ghost predicate UnitModulus(tw: nat -> Complex) {
    forall l: nat :: NormSq(tw(l)) == 1.0
  }

  /** A finite buffer read as a total function. */
  ghost function At(x: seq<Complex>): nat -> Complex {
    (n: nat) => if n < |x| then x[n] else ZERO
  }

  ghost function Term(w: Complex, y: nat -> Complex, k: nat): nat -> Complex {
    (n: nat) => Mul(y(n), Pow(w, n * k))
  }

  /** Bin k of the n-point transform of y with root w: the textbook definition. */
  ghost function Dft(n: nat, w: Complex, y: nat -> Complex, k: nat): Complex {
    Sum(n, Term(w, y, k))
  }

  ghost function Even(y: nat -> Complex): nat -> Complex {
    (t: nat) => y(2 * t)
  }

  ghost function Odd(y: nat -> Complex): nat -> Complex {
    (t: nat) => y(2 * t + 1)
  }

  lemma DftCongruence(n: nat, w: Complex, y: nat -> Complex, z: nat -> Complex, k: nat)
    requires forall t: nat :: t < n ==> y(t) == z(t)
    ensures Dft(n, w, y, k) == Dft(n, w, z, k)
  {
    SumCongruence(n, Term(w, y, k), Term(w, z, k));
  }

  lemma PowEvenIndex(w: Complex, t: nat, k: nat)
    ensures Pow(w, (2 * t) * k) == Pow(Mul(w, w), t * k)
    ensures Pow(w, (2 * t + 1) * k) == Mul(Pow(w, k), Pow(Mul(w, w), t * k))
  {
    hide Mul;
    PowFirst(w);
    assert Pow(w, 2) == Mul(w, Pow(w, 1));
    PowPow(w, 2, t * k);
    assert 2 * (t * k) == (2 * t) * k;
    assert (2 * t + 1) * k == k + (2 * t) * k;
    PowAdd(w, k, (2 * t) * k);
  }

  /** The even/odd split: a transform of length 2n from two of length n. */
  lemma DftSplit(n: nat, w: Complex, y: nat -> Complex, k: nat)
    ensures Dft(2 * n, w, y, k) == Add(Dft(n, Mul(w, w), Even(y), k), Mul(Pow(w, k), Dft(n, Mul(w, w), Odd(y), k)))
  {
    hide Mul, Pow, Sum;
    var f := Term(w, y, k);
    var e := Term(Mul(w, w), Even(y), k);
    var o := Term(Mul(w, w), Odd(y), k);
    var shifted := (t: nat) => f(2 * t + 1);
    forall t: nat | t < n
      ensures e(t) == f(2 * t) && shifted(t) == Mul(Pow(w, k), o(t))
    {
      PowEvenIndex(w, t, k);
      var p := Pow(Mul(w, w), t * k);
      MulAssoc(y(2 * t + 1), Pow(w, k), p);
      MulComm(y(2 * t + 1), Pow(w, k));
      MulAssoc(Pow(w, k), y(2 * t + 1), p);
    }
    SumEvenOdd(n, f, e, shifted);
    SumScale(n, Pow(w, k), o, shifted);
  }

  /** A root of unity of order n makes the transform n-periodic. */
  lemma DftPeriodic(n: nat, w: Complex, y: nat -> Complex, k: nat)
    requires Pow(w, n) == ONE
    ensures Dft(n, w, y, k + n) == Dft(n, w, y, k)
  {
    hide Mul, Pow;
    forall t: nat | t < n
      ensures Term(w, y, k + n)(t) == Term(w, y, k)(t)
    {
      assert t * (k + n) == t * k + n * t;
      PowAdd(w, t * k, n * t);
      PowPow(w, n, t);
      PowOne(t);
      MulOne(Pow(w, t * k));
    }
    SumCongruence(n, Term(w, y, k + n), Term(w, y, k));
  }

  /** tw(l) raised to half its order is -1, and to its order 1. */
  lemma {:induction false} TwiddleHalf(tw: nat -> Complex, l: nat)
    requires Twiddles(tw) && l >= 1
    ensures Pow(tw(l), Pow2(l - 1)) == Complex(-1.0, 0.0)
    ensures Pow(tw(l), Pow2(l)) == ONE
  {
    if l == 1 {
      MinusOne(tw(1));
    } else {
      hide Mul, Pow;
      TwiddleHalf(tw, l - 1);
      assert SquaresDown(tw, l);
      PowDouble(tw(l), Pow2(l - 2));
      PowDouble(tw(l), Pow2(l - 1));
    }
  }

  lemma PowDouble(w: Complex, h: nat)
    ensures Pow(w, 2 * h) == Pow(Mul(w, w), h)
  {
    hide Mul, Pow;
    PowEvenIndex(w, h, 1);
    assert (2 * h) * 1 == 2 * h && h * 1 == h;
  }

  lemma MinusOne(w: Complex)
    requires w == Complex(-1.0, 0.0)
    ensures Pow(w, Pow2(0)) == w && Pow(w, Pow2(1)) == ONE
  {
    hide Mul;
    PowFirst(w);
    NegateProduct(ONE, w);
    MulOne(w);
    PowDouble(w, 1);
    PowOne(1);
  }

  lemma PowFirst(w: Complex)
    ensures Pow(w, 1) == w
  {
    hide Mul;
    MulOne(w);
    assert Pow(w, 1) == Mul(w, Pow(w, 0));
  }

  /** At stage l the half-length transforms may be read with the previous stage's root, at k or half a turn later. */
  lemma HalfBins(tw: nat -> Complex, l: nat, y: nat -> Complex, k: nat)
    requires Twiddles(tw) && l >= 1
    ensures var h, w := Pow2(l - 1), Mul(tw(l), tw(l));
            && Dft(h, w, y, k) == Dft(h, tw(l - 1), y, k)
            && Dft(h, w, y, k + h) == Dft(h, tw(l - 1), y, k)
  {
    hide Dft, Pow, Mul;
    if l == 1 {
      OnePoint(Mul(tw(1), tw(1)), y, k);
      OnePoint(Mul(tw(1), tw(1)), y, k + 1);
      OnePoint(tw(0), y, k);
    } else {
      assert SquaresDown(tw, l);
      TwiddleHalf(tw, l - 1);
      DftPeriodic(Pow2(l - 1), tw(l - 1), y, k);
    }
  }

  /** The butterfly: both halves of a 2n-point transform from one pair of n-point bins. */
  lemma Butterfly(tw: nat -> Complex, l: nat, y: nat -> Complex, k: nat)
    requires Twiddles(tw) && l >= 1
    ensures var h := Pow2(l - 1);
            var e, o := Dft(h, tw(l - 1), Even(y), k), Dft(h, tw(l - 1), Odd(y), k);
            && Dft(Pow2(l), tw(l), y, k) == Add(e, Mul(Pow(tw(l), k), o))
            && Dft(Pow2(l), tw(l), y, k + h) == Sub(e, Mul(Pow(tw(l), k), o))
  {
    var h := Pow2(l - 1);
    assert Pow2(l) == 2 * h;
    hide Dft, Pow, Mul, Pow2;
    HalfBins(tw, l, Even(y), k);
    HalfBins(tw, l, Odd(y), k);
    DftSplit(h, tw(l), y, k);
    DftSplit(h, tw(l), y, k + h);
    PowAdd(tw(l), k, h);
    TwiddleHalf(tw, l);
    NegateProduct(Pow(tw(l), k), Dft(h, tw(l - 1), Odd(y), k));
  }

  lemma NegateProduct(p: Complex, d: Complex)
    ensures Mul(Mul(p, Complex(-1.0, 0.0)), d) == Neg(Mul(p, d))
  {
  }

  /** Every one-point transform is its only sample, whatever the root and the bin. */
  lemma OnePoint(w: Complex, y: nat -> Complex, k: nat)
    ensures Dft(1, w, y, k) == y(0)
  {
    MulOne(y(0));
    assert 0 * k == 0;
    assert Sum(1, Term(w, y, k)) == Add(Sum(0, Term(w, y, k)), Term(w, y, k)(0));
  }
}
