/** The imbalance correction applied to a block before it is windowed and transformed
    (libairspyhf/src/iqbalancer.c:104-112, 226-244), and its closed form in the frequency domain. */
module Correction {
  import opened ComplexNumbers
  import opened BitReversal
  import opened DiscreteFourier
  import opened FastFourier

  /** One corrected sample. */
  function Correct(z: Complex, phase: real, amplitude: real): Complex {
    Gain(Skew(z, phase), amplitude)
  }

  function Skew(z: Complex, phase: real): Complex {
    Complex(z.re + phase * z.im, z.im + phase * z.re)
  }

  function Gain(z: Complex, amplitude: real): Complex {
    Complex(z.re * (1.0 + amplitude), z.im * (1.0 - amplitude))
  }

  function CorrectAll(x: seq<Complex>, phase: real, amplitude: real): (s: seq<Complex>)
    ensures |s| == |x|
  {
    seq(|x|, i requires 0 <= i < |x| => Correct(x[i], phase, amplitude))
  }

  function Windowed(x: seq<Complex>, win: seq<real>): (s: seq<Complex>)
    requires |win| >= |x|
    ensures |s| == |x|
  {
    seq(|x|, i requires 0 <= i < |x| => Scale(win[i], x[i]))
  }

  function Power(x: seq<Complex>): real {
    if |x| == 0 then 0.0 else Power(x[..|x| - 1]) + NormSq(x[|x| - 1])
  }

  /** Lines 226-244: corrects in place and, unless told to skip it, returns the power the block had before. */
  method AdjustBenchmark(iq: array<Complex>, phase: real, amplitude: real, skipPower: bool) returns (sum: real)
    modifies iq
    ensures iq[..] == CorrectAll(old(iq[..]), phase, amplitude)
    ensures forall p: nat :: p < iq.Length ==>
              var z := old(iq[p]);
              iq[p] == Complex((z.re + phase * z.im) * (1.0 + amplitude), (z.im + phase * z.re) * (1.0 - amplitude))
    ensures sum == if skipPower then 0.0 else Power(old(iq[..]))
  {
    ghost var x := iq[..];
    CorrectParts(x, phase, amplitude);
    hide Skew, Gain, NormSq;
    sum := 0.0;
    var i := 0;
    while i < iq.Length
      invariant 0 <= i <= iq.Length
      invariant forall p: nat :: p < iq.Length ==> iq[p] == if p < i then Correct(x[p], phase, amplitude) else x[p]
      invariant sum == if skipPower then 0.0 else Power(x[..i])
    {
      var before := iq[i];
      iq[i] := Skew(iq[i], phase);
      iq[i] := Gain(iq[i], amplitude);
      if !skipPower {
        assert x[..i + 1][..i] == x[..i];
        sum := sum + NormSq(before);
      }
      i := i + 1;
    }
    assert x[..i] == x;
  }

  /** The corrected sample, written out. */
  lemma CorrectParts(x: seq<Complex>, phase: real, amplitude: real)
    ensures forall p: nat :: p < |x| ==>
              var z := x[p];
              CorrectAll(x, phase, amplitude)[p]
              == Complex((z.re + phase * z.im) * (1.0 + amplitude), (z.im + phase * z.re) * (1.0 - amplitude))
  {
    hide Correct;
    forall p: nat | p < |x|
      ensures CorrectAll(x, phase, amplitude)[p] == Correct(x[p], phase, amplitude)
    {
    }
    forall p: nat | p < |x|
      ensures var z := x[p];
              CorrectAll(x, phase, amplitude)[p]
              == Complex((z.re + phase * z.im) * (1.0 + amplitude), (z.im + phase * z.re) * (1.0 - amplitude))
    {
      CorrectPart(x[p], phase, amplitude);
    }
  }

  lemma CorrectPart(z: Complex, phase: real, amplitude: real)
    ensures Correct(z, phase, amplitude)
            == Complex((z.re + phase * z.im) * (1.0 + amplitude), (z.im + phase * z.re) * (1.0 - amplitude))
  {
    var re, im := z.re + phase * z.im, z.im + phase * z.re;
    GainParts(re, im, amplitude);
    hide Gain;
    assert Skew(z, phase) == Complex(re, im);
  }

  lemma GainParts(re: real, im: real, amplitude: real)
    ensures Gain(Complex(re, im), amplitude) == Complex(re * (1.0 + amplitude), im * (1.0 - amplitude))
  {
    var z := Complex(re, im);
    assert z.re == re && z.im == im;
    var up, down := 1.0 + amplitude, 1.0 - amplitude;
    assert Gain(z, amplitude).re == z.re * up && Gain(z, amplitude).im == z.im * down;
  }

  /** A block is at least as strong as any of its samples. */
  lemma {:induction false} PowerAtLeast(x: seq<Complex>, i: nat)
    requires i < |x|
    ensures Power(x) >= x[i].re * x[i].re + x[i].im * x[i].im
  {
    hide NormSq;
    PowerNonNegative(x[..|x| - 1]);
    NormParts(x[|x| - 1]);
    if i < |x| - 1 {
      PowerAtLeast(x[..|x| - 1], i);
    }
  }

  lemma {:induction false} PowerNonNegative(x: seq<Complex>)
    ensures Power(x) >= 0.0
  {
    hide NormSq;
    if |x| > 0 {
      PowerNonNegative(x[..|x| - 1]);
      NormParts(x[|x| - 1]);
    }
  }

  /** And at most as strong as if all were as strong as the strongest. */
  lemma {:induction false} PowerWithin(x: seq<Complex>, most: real)
    requires forall z <- x :: z.re * z.re + z.im * z.im <= most
    ensures Power(x) <= (|x| as real) * most
  {
    hide NormSq;
    if |x| > 0 {
      var front, z := x[..|x| - 1], x[|x| - 1];
      assert z in x && forall y <- front :: y in x;
      PowerWithin(front, most);
      NormParts(z);
      assert (|x| as real) * most == ((|x| - 1) as real) * most + most;
    }
  }

  lemma NormParts(z: Complex)
    ensures NormSq(z) == z.re * z.re + z.im * z.im >= 0.0
  {
    assert z.re * z.re >= 0.0 && z.im * z.im >= 0.0;
  }

  /** Lines 104-112. */
  method Window(buffer: array<Complex>, win: seq<real>)
    requires |win| >= buffer.Length
    modifies buffer
    ensures buffer[..] == Windowed(old(buffer[..]), win)
    ensures forall p: nat :: p < buffer.Length ==> buffer[p] == Complex(win[p] * old(buffer[p]).re, win[p] * old(buffer[p]).im)
  {
    ghost var x := buffer[..];
    var i := 0;
    while i < buffer.Length
      invariant 0 <= i <= buffer.Length
      invariant forall p: nat :: p < buffer.Length ==> buffer[p] == if p < i then Scale(win[p], x[p]) else x[p]
    {
      buffer[i] := Scale(win[i], buffer[i]);
      i := i + 1;
    }
  }

  // ---------------------------------------------------------------- frequency domain

  function Alpha(phase: real, amplitude: real): Complex {
    Complex(1.0, -(amplitude * phase))
  }

  function Beta(phase: real, amplitude: real): Complex {
    Complex(amplitude, phase)
  }

  /** The correction mixes a sample with its conjugate. */
  lemma CorrectMixes(z: Complex, phase: real, amplitude: real)
    ensures Correct(z, phase, amplitude) == Add(Mul(Alpha(phase, amplitude), z), Mul(Beta(phase, amplitude), Conj(z)))
  {
    MixPart(z.re, phase, z.im, amplitude);
    MixPart(z.im, phase, z.re, -amplitude);
  }

  /** One component of the mix, as a polynomial identity. */
  lemma MixPart(x: real, p: real, y: real, a: real)
    ensures (x + p * y) * (1.0 + a) == (1.0 * x - (-(a * p)) * y) + (a * x - p * (-y))
  {
    assert (x + p * y) * (1.0 + a) == x + p * y + (x + p * y) * a;
    assert (x + p * y) * a == a * x + (a * p) * y;
  }

  lemma ScaleMixes(r: real, a: Complex, b: Complex, z: Complex)
    ensures Scale(r, Add(Mul(a, z), Mul(b, Conj(z)))) == Add(Mul(a, Scale(r, z)), Mul(b, Conj(Scale(r, z))))
  {
  }

  ghost function ConjOf(y: nat -> Complex): nat -> Complex {
    (n: nat) => Conj(y(n))
  }

  /** Inverse powers of a unit root are conjugates. */
  lemma MirrorPower(w: Complex, n: nat, k: nat, k': nat, q: nat, t: nat)
    requires Pow(w, n) == ONE && NormSq(w) == 1.0 && k + k' == q * n
    ensures Pow(w, t * k) == Conj(Pow(w, t * k'))
  {
    hide Pow, Mul, NormSq, Conj;
    var a, b := Pow(w, t * k), Pow(w, t * k');
    assert t * k + t * k' == t * (k + k') == n * (q * t);
    PowAdd(w, t * k, t * k');
    PowPow(w, n, q * t);
    PowOne(q * t);
    assert Mul(a, b) == ONE;
    UnitInverse(w, t * k');
    MulAssoc(a, b, Conj(b));
    MulOne(a);
    MulOne(Conj(b));
  }

  lemma UnitInverse(w: Complex, e: nat)
    requires NormSq(w) == 1.0
    ensures Mul(Pow(w, e), Conj(Pow(w, e))) == ONE
  {
    MulConj(w);
    PowConj(w, e);
    hide Pow, Mul, NormSq, Conj;
    PowMulBase(w, Conj(w), e);
    PowOne(e);
  }

  /** The transform of the conjugate is the conjugate of the mirrored bin. */
  lemma DftConj(n: nat, w: Complex, y: nat -> Complex, k: nat, k': nat, q: nat)
    requires Pow(w, n) == ONE && NormSq(w) == 1.0 && k + k' == q * n
    ensures Dft(n, w, ConjOf(y), k) == Conj(Dft(n, w, y, k'))
  {
    hide Pow, Mul, NormSq, Conj, Sum;
    forall t: nat | t < n
      ensures Term(w, ConjOf(y), k)(t) == Conj(Term(w, y, k')(t))
    {
      MirrorPower(w, n, k, k', q, t);
      ConjMul(y(t), Pow(w, t * k'));
    }
    SumConj(n, Term(w, y, k'), Term(w, ConjOf(y), k));
  }

  /** Linearity of the transform in a sample and its conjugate. */
  lemma DftMixes(n: nat, w: Complex, a: Complex, b: Complex, y: nat -> Complex, z: nat -> Complex, k: nat)
    requires forall t: nat :: t < n ==> z(t) == Add(Mul(a, y(t)), Mul(b, Conj(y(t))))
    ensures Dft(n, w, z, k) == Add(Mul(a, Dft(n, w, y, k)), Mul(b, Dft(n, w, ConjOf(y), k)))
  {
    hide Pow, Mul, Conj, Sum, Add;
    var f, g := Term(w, y, k), Term(w, ConjOf(y), k);
    var fa := (t: nat) => Mul(a, f(t));
    var gb := (t: nat) => Mul(b, g(t));
    forall t: nat | t < n
      ensures Term(w, z, k)(t) == Add(fa(t), gb(t))
    {
      var p := Pow(w, t * k);
      MulDistrib(p, Mul(a, y(t)), Mul(b, Conj(y(t))));
      MulAssoc(a, y(t), p);
      MulAssoc(b, Conj(y(t)), p);
    }
    SumScale(n, a, f, fa);
    SumScale(n, b, g, gb);
    SumAdd(n, fa, gb, Term(w, z, k));
  }

  /** The spectrum `compute_corr` works on: corrected, windowed, transformed, centred. */
  ghost function Spectrum(x: seq<Complex>, win: seq<real>, tw: nat -> Complex, phase: real, amplitude: real): (s: seq<Complex>)
    requires IsPowerOfTwo(|x|) && |win| >= |x|
    ensures |s| == |x|
  {
    Centred(Transform(Windowed(CorrectAll(x, phase, amplitude), win), tw))
  }

  /** The same block without correction. */
  ghost function PlainSpectrum(x: seq<Complex>, win: seq<real>, tw: nat -> Complex): (s: seq<Complex>)
    requires IsPowerOfTwo(|x|) && |win| >= |x|
    ensures |s| == |x|
  {
    Centred(Transform(Windowed(x, win), tw))
  }

  /** Positions i and N - i of a centred spectrum are mirrored bins. */
  lemma MirroredBins(n: nat, i: nat)
    requires (n == 1 || n % 2 == 0) && 0 < i < n
    ensures var k, k' := (i + n / 2) % n, (n - i + n / 2) % n;
            k + k' == if i == n / 2 then 0 * n else 1 * n
  {
    HalfTurn(i, n);
    HalfTurn(n - i, n);
  }

  /** Mixing every sample with its conjugate mixes mirrored bins: with U the spectrum of x, the spectrum of a x + b conj(x)
      at position i is a U[i] + b conj(U[N-i]). */
  lemma MixedBin(x: seq<Complex>, c: seq<Complex>, win: seq<real>, tw: nat -> Complex, a: Complex, b: Complex, i: nat)
    requires IsPowerOfTwo(|x|) && |win| >= |x| == |c| && Twiddles(tw) && UnitModulus(tw) && 0 < i < |x|
    requires forall t: nat :: t < |x| ==> c[t] == Add(Mul(a, x[t]), Mul(b, Conj(x[t])))
    ensures var u := PlainSpectrum(x, win, tw);
            PlainSpectrum(c, win, tw)[i] == Add(Mul(a, u[i]), Mul(b, Conj(u[|x| - i])))
  {
    hide Pow, Mul, Conj, Sum, Add, Twiddles, Dft, Scale, NormSq;
    var n := |x|;
    var m := Log2(n);
    var v, d := Windowed(x, win), Windowed(c, win);
    StageShape0(m);
    MirroredBins(n, i);
    var k, k' := (i + n / 2) % n, (n - i + n / 2) % n;
    forall t: nat | t < n
      ensures At(d)(t) == Add(Mul(a, At(v)(t)), Mul(b, Conj(At(v)(t))))
    {
      ScaleMixes(win[t], a, b, x[t]);
    }
    DftMixes(n, tw(m), a, b, At(v), At(d), k);
    RootOrder(tw, m);
    DftConj(n, tw(m), At(v), k, k', if i == n / 2 then 0 else 1);
  }

  /** Main identity: with X the uncorrected spectrum, Y[i] = alpha X[i] + beta conj(X[N-i]). */
  lemma CorrectedBin(x: seq<Complex>, win: seq<real>, tw: nat -> Complex, phase: real, amplitude: real, i: nat)
    requires IsPowerOfTwo(|x|) && |win| >= |x| && Twiddles(tw) && UnitModulus(tw) && 0 < i < |x|
    ensures var y, u := Spectrum(x, win, tw, phase, amplitude), PlainSpectrum(x, win, tw);
            y[i] == Add(Mul(Alpha(phase, amplitude), u[i]), Mul(Beta(phase, amplitude), Conj(u[|x| - i])))
  {
    hide PlainSpectrum, Mul, Conj, Add, Twiddles, Correct, NormSq, Alpha, Beta;
    var c := CorrectAll(x, phase, amplitude);
    forall t: nat | t < |x|
      ensures c[t] == Add(Mul(Alpha(phase, amplitude), x[t]), Mul(Beta(phase, amplitude), Conj(x[t])))
    {
      CorrectMixes(x[t], phase, amplitude);
    }
    MixedBin(x, c, win, tw, Alpha(phase, amplitude), Beta(phase, amplitude), i);
    SpectrumIs(x, win, tw, phase, amplitude);
  }

  lemma SpectrumIs(x: seq<Complex>, win: seq<real>, tw: nat -> Complex, phase: real, amplitude: real)
    requires IsPowerOfTwo(|x|) && |win| >= |x|
    ensures Spectrum(x, win, tw, phase, amplitude) == PlainSpectrum(CorrectAll(x, phase, amplitude), win, tw)
  {
  }

  lemma RootOrder(tw: nat -> Complex, m: nat)
    requires Twiddles(tw) && UnitModulus(tw) && Pow2(m) > 1
    ensures Pow(tw(m), Pow2(m)) == ONE && NormSq(tw(m)) == 1.0
  {
    hide Pow, NormSq;
    TwiddleHalf(tw, m);
  }

  /** The image correlation of one window in closed form, from the spectrum of the uncorrected block. */
  lemma ImageCorrelation(x: seq<Complex>, win: seq<real>, tw: nat -> Complex, phase: real, amplitude: real, i: nat)
    requires IsPowerOfTwo(|x|) && |win| >= |x| && Twiddles(tw) && UnitModulus(tw) && 0 < i < |x|
    ensures var y, u := Spectrum(x, win, tw, phase, amplitude), PlainSpectrum(x, win, tw);
            var a, b := Alpha(phase, amplitude), Beta(phase, amplitude);
            var p := Mul(u[i], u[|x| - i]);
            (Mul(y[i], y[|x| - i])
             == Add(Add(Mul(Mul(a, a), p), Scale(NormSq(u[i]) + NormSq(u[|x| - i]), Mul(a, b))), Mul(Mul(b, b), Conj(p))))
  {
    hide Spectrum, PlainSpectrum, Mul, Add, Conj, Scale, NormSq, Alpha, Beta;
    CorrectedBin(x, win, tw, phase, amplitude, i);
    CorrectedBin(x, win, tw, phase, amplitude, |x| - i);
    var u := PlainSpectrum(x, win, tw);
    MixedProduct(Alpha(phase, amplitude), Beta(phase, amplitude), u[i], u[|x| - i]);
  }

  lemma MixedProduct(a: Complex, b: Complex, u: Complex, v: Complex)
    ensures Mul(Add(Mul(a, u), Mul(b, Conj(v))), Add(Mul(a, v), Mul(b, Conj(u))))
         == Add(Add(Mul(Mul(a, a), Mul(u, v)), Scale(NormSq(u) + NormSq(v), Mul(a, b))), Mul(Mul(b, b), Conj(Mul(u, v))))
  {
    var cu, cv := Conj(u), Conj(v);
    MulConj(u);
    MulConj(v);
    ConjMul(u, v);
    ScaleAsProduct(NormSq(u), Mul(a, b));
    ScaleAsProduct(NormSq(v), Mul(a, b));
    ScaleSum(NormSq(u), NormSq(v), Mul(a, b));
    hide Mul, Add, Conj, NormSq, Scale;
    FourProducts(a, b, u, v, cu, cv);
    AddShuffle(Mul(Mul(a, a), Mul(u, v)), Mul(Mul(a, b), Mul(u, cu)), Mul(Mul(a, b), Mul(v, cv)), Mul(Mul(b, b), Mul(cu, cv)));
  }

  lemma ScaleAsProduct(r: real, z: Complex)
    ensures Mul(z, Complex(r, 0.0)) == Scale(r, z)
  {
  }

  lemma ScaleSum(r: real, s: real, z: Complex)
    ensures Scale(r + s, z) == Add(Scale(r, z), Scale(s, z))
  {
  }

  lemma AddShuffle(p: Complex, q: Complex, r: Complex, s: Complex)
    ensures Add(Add(p, q), Add(r, s)) == Add(Add(p, Add(q, r)), s)
  {
  }

  lemma FourProducts(a: Complex, b: Complex, u: Complex, v: Complex, cu: Complex, cv: Complex)
    ensures Mul(Add(Mul(a, u), Mul(b, cv)), Add(Mul(a, v), Mul(b, cu)))
         == Add(Add(Mul(Mul(a, a), Mul(u, v)), Mul(Mul(a, b), Mul(u, cu))),
                Add(Mul(Mul(a, b), Mul(v, cv)), Mul(Mul(b, b), Mul(cu, cv))))
  {
    hide Mul, Add;
    MulDistrib(Add(Mul(a, u), Mul(b, cv)), Mul(a, v), Mul(b, cu));
    MulDistrib(Mul(a, v), Mul(a, u), Mul(b, cv));
    MulDistrib(Mul(b, cu), Mul(a, u), Mul(b, cv));
    Interchange(a, u, a, v);
    Interchange(b, cv, a, v);
    Interchange(a, u, b, cu);
    Interchange(b, cv, b, cu);
    MulComm(b, a);
    MulComm(cv, v);
    MulComm(cv, cu);
    AddSwap(Mul(Mul(a, a), Mul(u, v)), Mul(Mul(a, b), Mul(v, cv)), Mul(Mul(a, b), Mul(u, cu)), Mul(Mul(b, b), Mul(cu, cv)));
  }

  lemma AddSwap(p: Complex, q: Complex, r: Complex, s: Complex)
    ensures Add(Add(p, q), Add(r, s)) == Add(Add(p, r), Add(q, s))
  {
  }

  lemma Interchange(a: Complex, b: Complex, c: Complex, d: Complex)
    ensures Mul(Mul(a, b), Mul(c, d)) == Mul(Mul(a, c), Mul(b, d))
  {
    hide Mul;
    MulAssoc(a, b, Mul(c, d));
    MulAssoc(b, c, d);
    MulComm(b, c);
    MulAssoc(c, b, d);
    MulAssoc(a, c, Mul(b, d));
  }
}
