/** The fine-tuning phasor of libairspyhf/src/airspyhf.c:294-314, 343-359: each sample the vector is turned by `rot` and
    rescaled by 1.99 - |vec|^2, a first-order renormalisation. Over exact reals it stays a positive real multiple of
    the product of all rotations so far, and its length settles instead of drifting. */
module Phasor {
  import opened Arith
  import opened ComplexNumbers

  const NORM_OFFSET := 1.99

  /** Largest deviation of a squared rotation length from one for which stability is shown; cos and sin rounded to
      single precision deviate by less. */
  const ROUNDING := 0.00001

  /** Lines 307-314. */
  function Rotate(vec: Complex, rot: Complex): Complex {
    var turned := Mul(vec, rot);
    Scale(NORM_OFFSET - NormSq(turned), turned)
  }

  /** All rotations applied with no renormalisation. */
  function Product(turns: seq<Complex>): Complex {
    if turns == [] then ONE else Mul(Product(turns[..|turns| - 1]), turns[|turns| - 1])
  }

  function Repeat(rot: Complex, n: nat): (s: seq<Complex>)
    ensures |s| == n
  {
    seq(n, i => rot)
  }

  /** The real factor the renormalisations amount to. */
  function Gain(turns: seq<Complex>): real {
    if turns == [] then 1.0 else
      var g := Gain(turns[..|turns| - 1]);
      NextGain(g, Product(turns))
  }

  function NextGain(g: real, p: Complex): real {
    g * (NORM_OFFSET - NormSq(Scale(g, p)))
  }

  /** The phasor reached from (1, 0): the invariant of every run. */
  ghost predicate Tuned(vec: Complex, turns: seq<Complex>) {
    vec == Scale(Gain(turns), Product(turns))
  }

  ghost predicate Unit(turns: seq<Complex>) {
    forall i: nat :: i < |turns| ==> NormSq(turns[i]) == 1.0
  }

  ghost predicate NearlyUnit(turns: seq<Complex>) {
    forall i: nat :: i < |turns| ==> 1.0 - ROUNDING <= NormSq(turns[i]) <= 1.0 + ROUNDING
  }

  lemma ScaleMul(r: real, a: Complex, b: Complex)
    ensures Mul(Scale(r, a), b) == Scale(r, Mul(a, b)) && Mul(a, Scale(r, b)) == Scale(r, Mul(a, b))
    ensures NormSq(Scale(r, a)) == r * r * NormSq(a)
  {
  }

  lemma Renormalised(g: real, p: Complex)
    ensures var turned := Scale(g, p); Scale(NORM_OFFSET - NormSq(turned), turned) == Scale(NextGain(g, p), p)
  {
    hide NormSq;
  }

  /** One rotation keeps the invariant, whatever the rotation is. */
  lemma RotateTuned(vec: Complex, turns: seq<Complex>, rot: Complex)
    requires Tuned(vec, turns)
    ensures Tuned(Rotate(vec, rot), turns + [rot])
  {
    hide Mul, Scale, NormSq, NextGain;
    var next := turns + [rot];
    assert next[..|next| - 1] == turns;
    var g, q := Gain(turns), Product(next);
    ScaleMul(g, Product(turns), rot);
    Renormalised(g, q);
  }

  lemma {:induction false} ProductRepeat(turns: seq<Complex>, rot: Complex, n: nat)
    ensures Product(turns + Repeat(rot, n)) == Mul(Product(turns), Pow(rot, n))
  {
    hide Mul;
    var all := turns + Repeat(rot, n);
    if n == 0 {
      assert all == turns;
      MulOne(Product(turns));
    } else {
      ProductRepeat(turns, rot, n - 1);
      assert all[..|all| - 1] == turns + Repeat(rot, n - 1);
      MulAssoc(Product(turns), Pow(rot, n - 1), rot);
      MulComm(Pow(rot, n - 1), rot);
    }
  }

  /** Squared length after renormalising a vector of squared length n. Its deviation from 0.99 maps through
      e -> e * (-0.98 - 1.01 * e + e * e). */
  function NextNorm(n: real): real {
    n * (NORM_OFFSET - n) * (NORM_OFFSET - n)
  }

  lemma NextNormDeviation(e: real)
    ensures NextNorm(0.99 + e) - 0.99 == e * (-0.98 - 1.01 * e + e * e)
  {
  }

  lemma FactorBound(e: real)
    requires -0.01 <= e <= 0.01
    ensures -0.99 <= -0.98 - 1.01 * e + e * e <= 0.99
  {
    SquareBound(e, 0.01);
    assert (0.01 - e) * (1.0 - e) >= 0.0;
    assert (0.01 - e) * (1.0 - e) == 0.01 - 1.01 * e + e * e;
  }

  lemma SquareBound(e: real, b: real)
    requires -b <= e <= b
    ensures 0.0 <= e * e <= b * b
  {
    assert (b - e) * (b + e) >= 0.0;
    assert (b - e) * (b + e) == b * b - e * e;
  }

  lemma AbsMul(x: real, f: real, b: real)
    requires -b <= f <= b
    ensures Magnitude(x * f) <= b * Magnitude(x)
  {
    var m := Magnitude(x);
    ProductSign(m, b - f);
    ProductSign(m, b + f);
    var p, q := x * f, m * f;
    assert m * (b - f) == b * m - q && m * (b + f) == b * m + q;
    assert p == q || p == -q;
  }

  lemma ProductSign(x: real, y: real)
    requires x >= 0.0 && y >= 0.0
    ensures x * y >= 0.0
  {
  }

  lemma UnitStep(e: real)
    requires -0.0099 <= e <= 0.01
    ensures Magnitude(NextNorm(0.99 + e) - 0.99) <= 0.99 * Magnitude(e)
    ensures -0.0099 <= NextNorm(0.99 + e) - 0.99 <= 0.0099
  {
    hide NextNorm;
    NextNormDeviation(e);
    FactorBound(e);
    var f := -0.98 - 1.01 * e + e * e;
    AbsMul(e, f, 0.99);
    assert NextNorm(0.99 + e) == 0.99 + e * f;
  }

  function Square(x: real): real {
    x * x
  }

  lemma NextGainSquared(g: real, p: Complex)
    requires NormSq(p) == 1.0
    ensures Square(NextGain(g, p)) == NextNorm(Square(g))
    ensures g > 0.0 && Square(g) < NORM_OFFSET ==> NextGain(g, p) > 0.0
  {
    ScaleMul(g, p, ONE);
    var k := NORM_OFFSET - Square(g);
    assert NextGain(g, p) == g * k;
    assert (g * k) * (g * k) == (g * g) * k * k;
  }

  lemma {:induction false} ProductUnit(turns: seq<Complex>)
    requires Unit(turns)
    ensures NormSq(Product(turns)) == 1.0
  {
    if turns != [] {
      var front := turns[..|turns| - 1];
      ProductUnit(front);
      NormSqMul(Product(front), turns[|turns| - 1]);
    }
  }

  /** For unit rotations and any retuning, the gain stays within one percent of one for ever, and its square approaches
      0.99 by at least one percent of the distance per sample. */
  lemma {:induction false} GainSettles(turns: seq<Complex>)
    requires Unit(turns)
    ensures 0.99 <= Gain(turns) <= 1.0
    ensures -0.0099 <= Square(Gain(turns)) - 0.99 <= 0.01
    ensures turns != [] ==>
              Magnitude(Square(Gain(turns)) - 0.99) <= 0.99 * Magnitude(Square(Gain(turns[..|turns| - 1])) - 0.99)
  {
    hide Square, Product, NextGain;
    if turns == [] {
      assert Square(1.0) == 1.0 by { SquareOne(); }
    } else {
      var front := turns[..|turns| - 1];
      GainSettles(front);
      ProductUnit(turns);
      NextGainSquared(Gain(front), Product(turns));
      UnitStep(Square(Gain(front)) - 0.99);
      RootBounds(Gain(turns));
    }
  }

  function Decay(k: nat): (r: real)
    ensures r > 0.0
  {
    if k == 0 then 1.0 else 0.99 * Decay(k - 1)
  }

  /** So after k samples the squared length of a unit-driven phasor is 0.99 to within 0.01 * 0.99^k. */
  lemma {:induction false} GainConverges(vec: Complex, turns: seq<Complex>)
    requires Unit(turns) && Tuned(vec, turns)
    ensures Magnitude(NormSq(vec) - 0.99) <= 0.01 * Decay(|turns|)
    decreases |turns|
  {
    hide NormSq, Gain, Product, Square, Unit;
    UnitLength(vec, turns);
    if turns == [] {
      StartsAtOne(vec);
    } else {
      var front := turns[..|turns| - 1];
      UnitFront(turns);
      var last := Scale(Gain(front), Product(front));
      GainConverges(last, front);
      UnitLength(last, front);
      GainSettles(turns);
    }
  }

  lemma StartsAtOne(vec: Complex)
    requires Tuned(vec, [])
    ensures NormSq(vec) == 1.0 && Gain([]) == 1.0
  {
  }

  lemma UnitFront(turns: seq<Complex>)
    requires turns != []
    ensures Unit(turns) ==> Unit(turns[..|turns| - 1])
    ensures NearlyUnit(turns) ==>
              NearlyUnit(turns[..|turns| - 1]) && 1.0 - ROUNDING <= NormSq(turns[|turns| - 1]) <= 1.0 + ROUNDING
  {
    assert turns[|turns| - 1] == turns[(|turns| - 1) as nat];
  }

  lemma UnitLength(vec: Complex, turns: seq<Complex>)
    requires Unit(turns) && Tuned(vec, turns)
    ensures NormSq(vec) == Square(Gain(turns))
  {
    ProductUnit(turns);
    ScaleMul(Gain(turns), Product(turns), ONE);
  }

  /** Rounded rotations: with every squared length within ROUNDING of one, the phasor keeps a positive gain and its
      squared length never leaves [0.975, 1.005], in runs of any length. */
  lemma {:induction false} StaysNormalised(vec: Complex, turns: seq<Complex>)
    requires NearlyUnit(turns) && Tuned(vec, turns)
    ensures 0.975 <= NormSq(vec) <= 1.005 && Gain(turns) > 0.0
    decreases |turns|
  {
    hide NormSq, Product, NearlyUnit, Mul, NextNorm;
    if turns == [] {
      StartsAtOne(vec);
    } else {
      var front, rot := turns[..|turns| - 1], turns[|turns| - 1];
      var g, p := Gain(front), Product(front);
      var last := Scale(g, p);
      UnitFront(turns);
      StaysNormalised(last, front);
      RotateTuned(last, front, rot);
      assert front + [rot] == turns;
      RotatedNorm(last, rot);
      RoundedStep(NormSq(last), NormSq(rot), NormSq(Mul(last, rot)));
      assert vec == Rotate(last, rot);
      NextGainPositive(g, last, turns);
    }
  }

  lemma NextGainPositive(g: real, last: Complex, turns: seq<Complex>)
    requires turns != [] && g == Gain(turns[..|turns| - 1]) > 0.0 && last == Scale(g, Product(turns[..|turns| - 1]))
    requires NormSq(Mul(last, turns[|turns| - 1])) < NORM_OFFSET
    ensures Gain(turns) > 0.0
  {
    hide NormSq, Mul, Scale, NextGain;
    ScaleMul(g, Product(turns[..|turns| - 1]), turns[|turns| - 1]);
    GainPositive(g, Product(turns));
  }

  lemma GainPositive(g: real, p: Complex)
    requires g > 0.0 && NormSq(Scale(g, p)) < NORM_OFFSET
    ensures NextGain(g, p) > 0.0
  {
    hide NormSq, Scale;
  }

  lemma RotatedNorm(vec: Complex, rot: Complex)
    ensures NormSq(Mul(vec, rot)) == NormSq(vec) * NormSq(rot)
    ensures NormSq(Rotate(vec, rot)) == NextNorm(NormSq(Mul(vec, rot)))
  {
    hide NormSq, Mul;
    NormSqMul(vec, rot);
    var n := NormSq(Mul(vec, rot));
    ScaleMul(NORM_OFFSET - n, Mul(vec, rot), ONE);
    SquareTimes(NORM_OFFSET - n, n);
  }

  lemma SquareTimes(k: real, n: real)
    ensures k * k * n == n * k * k
  {
  }

  lemma RoundedStep(m: real, rho: real, n: real)
    requires 0.975 <= m <= 1.005 && 1.0 - ROUNDING <= rho <= 1.0 + ROUNDING && n == m * rho
    ensures 0.975 <= NextNorm(n) <= 1.005 && n < NORM_OFFSET
  {
    ScaledWithin(m, rho);
    NearFixedPoint(n - 0.99);
  }

  lemma NearFixedPoint(e: real)
    requires Magnitude(e) <= 0.01502
    ensures 0.975 <= NextNorm(0.99 + e) <= 1.005
  {
    hide NextNorm;
    NextNormDeviation(e);
    SquareBound(e, 0.0151);
    var f := -0.98 - 1.01 * e + e * e;
    AbsMul(e, f, 0.9956);
    assert NextNorm(0.99 + e) == 0.99 + e * f;
  }

  lemma ScaledWithin(m: real, rho: real)
    requires 0.0 <= m && 1.0 - ROUNDING <= rho <= 1.0 + ROUNDING
    ensures m - 0.00001 * m <= m * rho <= m + 0.00001 * m
  {
    assert m * (rho - 0.99999) >= 0.0 && m * (1.00001 - rho) >= 0.0;
  }

  lemma SquareOne()
    ensures Square(1.0) == 1.0
  {
  }

  lemma RootBounds(g: real)
    requires g > 0.0 && 0.9801 <= Square(g) <= 1.0
    ensures 0.99 <= g <= 1.0
  {
    if g < 0.99 {
      SquareGrows(g, 0.99);
      assert false;
    } else if g > 1.0 {
      SquareGrows(1.0, g);
      assert false;
    }
  }

  lemma SquareGrows(a: real, b: real)
    requires 0.0 < a < b
    ensures Square(a) < Square(b)
  {
    assert (b - a) * (b + a) > 0.0;
  }

  /** Sample i of a block mixed with constant rotation `rot`, after `turns` earlier rotations. */
  function Mixed(x: Complex, turns: seq<Complex>, rot: Complex, i: nat): Complex {
    Scale(Gain(turns + Repeat(rot, i + 1)), Mul(x, Mul(Product(turns), Pow(rot, i + 1))))
  }

  /** Mixing scales the power of a sample by at most 2.5% down and 0.5% up, however long the stream has run. */
  lemma MixedPower(x: Complex, turns: seq<Complex>, rot: Complex, i: nat)
    requires NearlyUnit(turns + Repeat(rot, i + 1))
    ensures 0.975 * NormSq(x) <= NormSq(Mixed(x, turns, rot, i)) <= 1.005 * NormSq(x)
  {
    hide NormSq, Mul, Scale, Mixed, NearlyUnit;
    var all := turns + Repeat(rot, i + 1);
    var vec := Scale(Gain(all), Product(all));
    StaysNormalised(vec, all);
    MixedIs(x, vec, turns, rot, i);
    NormSqMul(x, vec);
    NormNonNegative(x);
    PowerBounds(NormSq(x), NormSq(vec), NormSq(Mul(x, vec)));
  }

  lemma NormNonNegative(x: Complex)
    ensures NormSq(x) >= 0.0
  {
  }

  lemma PowerBounds(p: real, m: real, r: real)
    requires p >= 0.0 && 0.975 <= m <= 1.005 && r == p * m
    ensures 0.975 * p <= r <= 1.005 * p
  {
    assert p * (m - 0.975) >= 0.0 && p * (1.005 - m) >= 0.0;
  }

  /** Lines 349-359: the mixing loop; `vec` is carried to the next block. */
  method FineTune(dest: array<Complex>, start: Complex, rot: Complex, ghost turns: seq<Complex>) returns (vec: Complex)
    requires Tuned(start, turns)
    modifies dest
    ensures Tuned(vec, turns + Repeat(rot, dest.Length))
    ensures forall i: nat :: i < dest.Length ==> dest[i] == Mixed(old(dest[i]), turns, rot, i)
  {
    hide Tuned, Mixed, Mul, Rotate;
    vec := start;
    assert turns + Repeat(rot, 0) == turns;
    for i := 0 to dest.Length
      invariant Tuned(vec, turns + Repeat(rot, i))
      invariant forall p: nat :: p < i ==> dest[p] == Mixed(old(dest[p]), turns, rot, p)
      invariant forall p: nat :: i <= p < dest.Length ==> dest[p] == old(dest[p])
    {
      RotateTuned(vec, turns + Repeat(rot, i), rot);
      assert turns + Repeat(rot, i) + [rot] == turns + Repeat(rot, i + 1);
      vec := Rotate(vec, rot);
      MixedIs(dest[i], vec, turns, rot, i);
      dest[i] := Mul(dest[i], vec);
    }
  }

  lemma MixedIs(x: Complex, vec: Complex, turns: seq<Complex>, rot: Complex, i: nat)
    requires Tuned(vec, turns + Repeat(rot, i + 1))
    ensures Mul(x, vec) == Mixed(x, turns, rot, i)
  {
    hide Mul, Scale;
    ProductRepeat(turns, rot, i + 1);
    ScaleMul(Gain(turns + Repeat(rot, i + 1)), x, Mul(Product(turns), Pow(rot, i + 1)));
  }
}
