/** Complex numbers over exact reals: the `complex_t` of libairspyhf/src/iqbalancer.h with `float` read as `real`,
    and the ring laws the transform proofs use. */
module ComplexNumbers {

  datatype Complex = Complex(re: real, im: real)

  const ZERO := Complex(0.0, 0.0)
  const ONE := Complex(1.0, 0.0)

  function Add(a: Complex, b: Complex): Complex {
    Complex(a.re + b.re, a.im + b.im)
  }

  function Sub(a: Complex, b: Complex): Complex {
    Complex(a.re - b.re, a.im - b.im)
  }

  function Neg(a: Complex): Complex {
    Complex(-a.re, -a.im)
  }

  function Conj(a: Complex): Complex {
    Complex(a.re, -a.im)
  }

  function Mul(a: Complex, b: Complex): Complex {
    Complex(a.re * b.re - a.im * b.im, a.im * b.re + a.re * b.im)
  }

  function Scale(r: real, a: Complex): Complex {
    Complex(r * a.re, r * a.im)
  }

  function NormSq(a: Complex): real {
    a.re * a.re + a.im * a.im
  }

  lemma MulOne(a: Complex)
    ensures Mul(ONE, a) == a && Mul(a, ONE) == a
    ensures Mul(ZERO, a) == ZERO && Mul(a, ZERO) == ZERO
  {
  }

  lemma MulComm(a: Complex, b: Complex)
    ensures Mul(a, b) == Mul(b, a)
  {
  }

  lemma MulAssoc(a: Complex, b: Complex, c: Complex)
    ensures Mul(Mul(a, b), c) == Mul(a, Mul(b, c))
  {
  }

  lemma MulDistrib(a: Complex, b: Complex, c: Complex)
    ensures Mul(a, Add(b, c)) == Add(Mul(a, b), Mul(a, c))
    ensures Mul(a, Sub(b, c)) == Sub(Mul(a, b), Mul(a, c))
    ensures Mul(Add(b, c), a) == Add(Mul(b, a), Mul(c, a))
  {
    MulAdd(a, b, c);
    MulSub(a, b, c);
    hide Mul, Add, Sub;
    MulComm(a, b);
    MulComm(a, c);
    MulComm(a, Add(b, c));
  }

  lemma MulAdd(a: Complex, b: Complex, c: Complex)
    ensures Mul(a, Add(b, c)) == Add(Mul(a, b), Mul(a, c))
  {
  }

  lemma MulSub(a: Complex, b: Complex, c: Complex)
    ensures Mul(a, Sub(b, c)) == Sub(Mul(a, b), Mul(a, c))
  {
  }

  lemma ConjMul(a: Complex, b: Complex)
    ensures Conj(Mul(a, b)) == Mul(Conj(a), Conj(b))
  {
  }

  lemma MulConj(a: Complex)
    ensures Mul(a, Conj(a)) == Complex(NormSq(a), 0.0)
  {
  }

  lemma NormSqMul(a: Complex, b: Complex)
    ensures NormSq(Mul(a, b)) == NormSq(a) * NormSq(b)
  {
  }

  /** Integer powers. */
  function Pow(w: Complex, e: nat): Complex
    decreases e
  {
    if e == 0 then ONE else Mul(w, Pow(w, e - 1))
  }

  lemma {:induction false} PowAdd(w: Complex, a: nat, b: nat)
    ensures Pow(w, a + b) == Mul(Pow(w, a), Pow(w, b))
  {
    hide Mul;
    if a == 0 {
      MulOne(Pow(w, b));
    } else {
      PowAdd(w, a - 1, b);
      assert Pow(w, a + b) == Mul(w, Pow(w, (a - 1) + b));
      MulAssoc(w, Pow(w, a - 1), Pow(w, b));
    }
  }

  lemma {:induction false} PowMulBase(a: Complex, b: Complex, e: nat)
    ensures Pow(Mul(a, b), e) == Mul(Pow(a, e), Pow(b, e))
  {
    hide Mul;
    if e == 0 {
      MulOne(ONE);
    } else {
      PowMulBase(a, b, e - 1);
      var p, q := Pow(a, e - 1), Pow(b, e - 1);
      MulAssoc(a, b, Mul(p, q));
      MulAssoc(b, p, q);
      MulComm(b, p);
      MulAssoc(p, b, q);
      MulAssoc(a, p, Mul(b, q));
    }
  }

  lemma {:induction false} PowPow(w: Complex, a: nat, b: nat)
    ensures Pow(Pow(w, a), b) == Pow(w, a * b)
  {
    hide Mul;
    if b == 0 {
      assert a * 0 == 0;
    } else {
      var n := a * (b - 1);
      assert a * b == a + n;
      PowPow(w, a, b - 1);
      PowAdd(w, a, n);
    }
  }

  lemma {:induction false} PowOne(e: nat)
    ensures Pow(ONE, e) == ONE
  {
    hide Mul;
    if e > 0 {
      PowOne(e - 1);
      MulOne(ONE);
    }
  }

  lemma {:induction false} PowConj(w: Complex, e: nat)
    ensures Pow(Conj(w), e) == Conj(Pow(w, e))
  {
    hide Mul;
    if e > 0 {
      PowConj(w, e - 1);
      ConjMul(w, Pow(w, e - 1));
    }
  }

  /** Sum of f(0) + ... + f(n-1). */
  ghost function Sum(n: nat, f: nat -> Complex): Complex {
    if n == 0 then ZERO else Add(Sum(n - 1, f), f(n - 1))
  }

  lemma {:induction false} SumCongruence(n: nat, f: nat -> Complex, g: nat -> Complex)
    requires forall t: nat :: t < n ==> f(t) == g(t)
    ensures Sum(n, f) == Sum(n, g)
  {
    if n > 0 {
      SumCongruence(n - 1, f, g);
    }
  }

  lemma {:induction false} SumAdd(n: nat, f: nat -> Complex, g: nat -> Complex, h: nat -> Complex)
    requires forall t: nat :: t < n ==> h(t) == Add(f(t), g(t))
    ensures Sum(n, h) == Add(Sum(n, f), Sum(n, g))
  {
    if n > 0 {
      SumAdd(n - 1, f, g, h);
    }
  }

  lemma {:induction false} SumScale(n: nat, c: Complex, f: nat -> Complex, h: nat -> Complex)
    requires forall t: nat :: t < n ==> h(t) == Mul(c, f(t))
    ensures Sum(n, h) == Mul(c, Sum(n, f))
  {
    if n == 0 {
      assert Mul(c, ZERO) == ZERO;
    } else {
      SumScale(n - 1, c, f, h);
      MulDistrib(c, Sum(n - 1, f), f(n - 1));
    }
  }

  lemma {:induction false} SumConj(n: nat, f: nat -> Complex, h: nat -> Complex)
    requires forall t: nat :: t < n ==> h(t) == Conj(f(t))
    ensures Sum(n, h) == Conj(Sum(n, f))
  {
    if n > 0 {
      SumConj(n - 1, f, h);
    }
  }

  lemma Regroup(a: Complex, b: Complex, x: Complex, y: Complex)
    ensures Add(Add(Add(a, b), x), y) == Add(Add(a, x), Add(b, y))
  {
  }

  /** A sum of 2n terms is the sum of its even-indexed and odd-indexed terms. */
  lemma {:induction false} SumEvenOdd(n: nat, f: nat -> Complex, even: nat -> Complex, odd: nat -> Complex)
    requires forall t: nat :: t < n ==> even(t) == f(2 * t) && odd(t) == f(2 * t + 1)
    ensures Sum(2 * n, f) == Add(Sum(n, even), Sum(n, odd))
  {
    if n == 0 {
      assert Add(ZERO, ZERO) == ZERO;
    } else {
      hide Sum, Add;
      SumEvenOdd(n - 1, f, even, odd);
      SumStep(2 * n, f);
      SumStep(2 * n - 1, f);
      SumStep(n, even);
      SumStep(n, odd);
      assert 2 * n - 2 == 2 * (n - 1);
      Regroup(Sum(n - 1, even), Sum(n - 1, odd), even(n - 1), odd(n - 1));
    }
  }

  lemma SumStep(n: nat, f: nat -> Complex)
    requires n > 0
    ensures Sum(n, f) == Add(Sum(n - 1, f), f(n - 1))
  {
  }
}
