/** What is assumed of `cos` and `sin`, that the stage roots computed with them are what the transform proofs need
    (libairspyhf/src/iqbalancer.c:159-160), and what powers of a point of the unit circle are. */
module Trigonometry {
  import opened ComplexNumbers
  import opened BitReversal
  import opened DiscreteFourier

  datatype Trig = Trig(pi: real, cos: real -> real, sin: real -> real)

  ghost predicate OnUnitCircle(t: Trig) {
    forall a: real :: t.cos(a) * t.cos(a) + t.sin(a) * t.sin(a) == 1.0
  }

  /** The addition theorems, and the values at a half and at a quarter turn. */
  ghost predicate Adds(t: Trig) {
    && (forall a: real, b: real :: AddsAt(t, a, b))
    && t.cos(t.pi) == -1.0 && t.sin(t.pi) == 0.0 && t.cos(t.pi / 2.0) == 0.0 && t.sin(t.pi / 2.0) == 1.0
  }

  ghost predicate AddsAt(t: Trig, a: real, b: real) {
    && t.cos(a + b) == t.cos(a) * t.cos(b) - t.sin(a) * t.sin(b)
    && t.sin(a + b) == t.sin(a) * t.cos(b) + t.cos(a) * t.sin(b)
  }

  /** The point of the unit circle at angle a. */
  function Point(t: Trig, a: real): Complex {
    Complex(t.cos(a), t.sin(a))
  }

  lemma PointAdds(t: Trig, a: real, b: real)
    requires Adds(t)
    ensures Point(t, a + b) == Mul(Point(t, a), Point(t, b))
  {
    assert AddsAt(t, a, b);
  }

  /** n steps of angle a from `phase`. */
  function Angle(phase: real, a: real, n: nat): real {
    phase + n as real * a
  }

  lemma AngleSteps(phase: real, a: real, n: nat)
    ensures Angle(phase, a, n + 1) == Angle(phase, a, n) + a && Angle(phase, a, 0) == phase
  {
    assert (n + 1) as real == n as real + 1.0;
  }

  /** De Moivre: the steps are powers. */
  lemma {:induction false} PointSteps(t: Trig, phase: real, a: real, n: nat)
    requires Adds(t)
    ensures Point(t, Angle(phase, a, n)) == Mul(Point(t, phase), Pow(Point(t, a), n))
  {
    hide Point, Mul, Adds, Angle;
    if n == 0 {
      AngleSteps(phase, a, 0);
      MulOne(Point(t, phase));
    } else {
      var p, q := Point(t, a), Pow(Point(t, a), n - 1);
      PointSteps(t, phase, a, n - 1);
      AngleSteps(phase, a, n - 1);
      PointAdds(t, Angle(phase, a, n - 1), a);
      assert Pow(p, n) == Mul(p, q);
      MulAssoc(Point(t, phase), q, p);
      MulComm(q, p);
    }
  }

  /** The root of stage l: half the circle divided by le2 = 2^(l-1), turning clockwise. */
  function StageRoot(t: Trig, l: nat): Complex {
    if l == 0 then ONE
    else
      var angle := t.pi / Pow2(l - 1) as real;
      Complex(t.cos(angle), -t.sin(angle))
  }

  /** These roots satisfy the hypotheses of the transform, and the quarter turn is -i: the transform is the forward one. */
  lemma StageRootsAre(t: Trig)
    requires OnUnitCircle(t) && Adds(t)
    ensures Twiddles((l: nat) => StageRoot(t, l)) && UnitModulus((l: nat) => StageRoot(t, l))
    ensures StageRoot(t, 2) == Complex(0.0, -1.0)
  {
    var tw := (l: nat) => StageRoot(t, l);
    assert t.pi / 1.0 == t.pi;
    assert Pow2(0) == 1 && Pow2(1) == 2;
    forall l: nat | l >= 2
      ensures SquaresDown(tw, l)
    {
      RootSquares(t, l);
    }
    forall l: nat
      ensures NormSq(tw(l)) == 1.0
    {
      RootUnit(t, l);
    }
  }

  lemma RootSquares(t: Trig, l: nat)
    requires Adds(t) && l >= 2
    ensures Mul(StageRoot(t, l), StageRoot(t, l)) == StageRoot(t, l - 1)
  {
    var p := Pow2(l - 2) as real;
    assert Pow2(l - 1) as real == 2.0 * p;
    var a := t.pi / (2.0 * p);
    assert a + a == t.pi / p;
    assert AddsAt(t, a, a);
    var c, s := t.cos(a), t.sin(a);
    assert Mul(Complex(c, -s), Complex(c, -s)) == Complex(c * c - s * s, -(2.0 * s * c));
  }

  lemma RootUnit(t: Trig, l: nat)
    requires OnUnitCircle(t)
    ensures NormSq(StageRoot(t, l)) == 1.0
  {
    if l > 0 {
      var angle := t.pi / Pow2(l - 1) as real;
      assert t.cos(angle) * t.cos(angle) + t.sin(angle) * t.sin(angle) == 1.0;
    }
  }
}
