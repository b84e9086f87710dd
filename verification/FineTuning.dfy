/** The rotation of the fine-tuning mixer (libairspyhf/src/airspyhf.c:343-359) and what it is for: a tone at `freq_shift`
    comes out standing still. */
module FineTuning {
  import opened ComplexNumbers
  import opened Trigonometry
  import Phasor

  /** What a frequency turns by from one sample to the next, in radians. */
  function Advance(t: Trig, hz: real, samplerate: int): real
    requires samplerate > 0
  {
    2.0 * t.pi * hz / samplerate as real
  }

  /** Lines 345-350. */
  function Rotation(t: Trig, freqShift: real, samplerate: int): Complex
    requires samplerate > 0
  {
    var angle := Advance(t, freqShift, samplerate);
    Complex(t.cos(angle), -t.sin(angle))
  }

  lemma RotationUnit(t: Trig, freqShift: real, samplerate: int)
    requires samplerate > 0 && OnUnitCircle(t)
    ensures NormSq(Rotation(t, freqShift, samplerate)) == 1.0
  {
    hide Advance;
    var angle := Advance(t, freqShift, samplerate);
    assert t.cos(angle) * t.cos(angle) + t.sin(angle) * t.sin(angle) == 1.0;
  }

  /** The mixer turns back exactly as far as `freq_shift` turns forward: 2 pi times its share of the sample rate. */
  lemma RotationUndoes(t: Trig, hz: real, samplerate: int)
    requires samplerate > 0 && OnUnitCircle(t)
    ensures var a := Advance(t, hz, samplerate);
            && a * samplerate as real == 2.0 * t.pi * hz
            && Mul(Rotation(t, hz, samplerate), Complex(t.cos(a), t.sin(a))) == ONE
  {
    Quotient(2.0 * t.pi * hz, samplerate as real);
    hide Advance;
    var c, s := t.cos(Advance(t, hz, samplerate)), t.sin(Advance(t, hz, samplerate));
    assert c * c + s * s == 1.0;
    TurnedBack(c, s);
  }

  lemma Quotient(x: real, y: real)
    requires y != 0.0
    ensures x / y * y == x
  {
  }

  lemma TurnedBack(c: real, s: real)
    requires c * c + s * s == 1.0
    ensures Mul(Complex(c, -s), Complex(c, s)) == ONE
  {
  }

  /** Sample n of a tone of the given frequency, strength and starting phase. */
  function Tone(t: Trig, hz: real, samplerate: int, strength: real, phase: real, n: nat): Complex
    requires samplerate > 0
  {
    var angle := Angle(phase, Advance(t, hz, samplerate), n);
    Complex(strength * t.cos(angle), strength * t.sin(angle))
  }

  lemma ToneIs(t: Trig, hz: real, samplerate: int, strength: real, phase: real, n: nat)
    requires samplerate > 0 && Adds(t)
    ensures Tone(t, hz, samplerate, strength, phase, n)
            == Scale(strength, Mul(Point(t, phase), Pow(Point(t, Advance(t, hz, samplerate)), n)))
  {
    PointSteps(t, phase, Advance(t, hz, samplerate), n);
    hide Mul, Pow, Adds, Angle, Advance;
  }

  /** Sample i of a block that is a tone at `freq_shift`, after any earlier rotations: only the gain still depends on i. */
  lemma ToneStopped(t: Trig, hz: real, samplerate: int, strength: real, phase: real, turns: seq<Complex>, i: nat)
    requires samplerate > 0 && Adds(t) && OnUnitCircle(t)
    ensures var rot := Rotation(t, hz, samplerate);
            Phasor.Mixed(Tone(t, hz, samplerate, strength, phase, i), turns, rot, i)
            == Scale(Phasor.Gain(turns + Phasor.Repeat(rot, i + 1)),
                     Scale(strength, Mul(Complex(t.cos(phase), t.sin(phase)), Mul(Phasor.Product(turns), rot))))
  {
    var rot, u, p, q := Rotation(t, hz, samplerate), Point(t, Advance(t, hz, samplerate)), Point(t, phase), Phasor.Product(turns);
    ToneIs(t, hz, samplerate, strength, phase, i);
    RotationUndoes(t, hz, samplerate);
    hide Mul, Scale, Rotation, Tone, Advance, Phasor.Product, Phasor.Gain;
    Cancelled(p, u, q, rot, i);
    Phasor.ScaleMul(strength, Mul(p, Pow(u, i)), Mul(q, Pow(rot, i + 1)));
    ScaleLeft(strength, Mul(p, Pow(u, i)), Mul(q, Pow(rot, i + 1)));
  }

  lemma ScaleLeft(r: real, a: Complex, b: Complex)
    ensures Mul(Scale(r, a), b) == Scale(r, Mul(a, b))
  {
  }

  lemma Cancelled(p: Complex, u: Complex, q: Complex, rot: Complex, i: nat)
    requires Mul(rot, u) == ONE
    ensures Mul(Mul(p, Pow(u, i)), Mul(q, Pow(rot, i + 1))) == Mul(p, Mul(q, rot))
  {
    hide Mul;
    var ui, ri := Pow(u, i), Pow(rot, i);
    PowMulBase(rot, u, i);
    PowOne(i);
    assert Pow(rot, i + 1) == Mul(rot, ri);
    MulAssoc(q, rot, ri);
    MulAssoc(p, ui, Mul(Mul(q, rot), ri));
    MulComm(ui, Mul(Mul(q, rot), ri));
    MulAssoc(Mul(q, rot), ri, ui);
    MulOne(Mul(q, rot));
  }

  /** In a stream mixed with one rotation from its start, every sample of the tone comes out as the same point, at 0.99 to
      1 times its strength. */
  lemma ToneStands(t: Trig, hz: real, samplerate: int, strength: real, phase: real, n: nat, i: nat)
    requires samplerate > 0 && Adds(t) && OnUnitCircle(t)
    ensures var rot := Rotation(t, hz, samplerate);
            var gain := Phasor.Gain(Phasor.Repeat(rot, n) + Phasor.Repeat(rot, i + 1));
            && Phasor.Mixed(Tone(t, hz, samplerate, strength, phase, n + i), Phasor.Repeat(rot, n), rot, i)
               == Scale(gain, Scale(strength, Mul(Complex(t.cos(phase), t.sin(phase)), rot)))
            && 0.99 <= gain <= 1.0
  {
    hide *;
    var rot, a := Rotation(t, hz, samplerate), Advance(t, hz, samplerate);
    RotationUnit(t, hz, samplerate);
    RotationUndoes(t, hz, samplerate);
    LaterTone(t, hz, samplerate, strength, phase, n, i);
    PointSteps(t, phase, a, n);
    ToneStopped(t, hz, samplerate, strength, Angle(phase, a, n), Phasor.Repeat(rot, n), i);
    RepeatedUnit(rot, n, i + 1);
    PointIs(t, phase);
    PointIs(t, a);
    PointIs(t, Angle(phase, a, n));
    Undone(Point(t, phase), Point(t, a), rot, n);
  }

  lemma PointIs(t: Trig, a: real)
    ensures Point(t, a) == Complex(t.cos(a), t.sin(a))
  {
  }

  lemma RepeatedUnit(rot: Complex, n: nat, k: nat)
    requires NormSq(rot) == 1.0
    ensures 0.99 <= Phasor.Gain(Phasor.Repeat(rot, n) + Phasor.Repeat(rot, k)) <= 1.0
  {
    Phasor.GainSettles(Phasor.Repeat(rot, n) + Phasor.Repeat(rot, k));
  }

  lemma Undone(p: Complex, u: Complex, rot: Complex, n: nat)
    requires Mul(rot, u) == ONE
    ensures Mul(Mul(p, Pow(u, n)), Mul(Phasor.Product(Phasor.Repeat(rot, n)), rot)) == Mul(p, rot)
  {
    FromRest(rot, n);
    hide *;
    Cancelled(p, u, ONE, rot, n);
    PowStep(rot, n);
  }

  lemma FromRest(rot: Complex, n: nat)
    ensures Phasor.Product(Phasor.Repeat(rot, n)) == Pow(rot, n)
  {
    hide Mul, Pow;
    NoTurns();
    hide Phasor.Product;
    Phasor.ProductRepeat([], rot, n);
    assert [] + Phasor.Repeat(rot, n) == Phasor.Repeat(rot, n);
    MulOne(Pow(rot, n));
  }

  lemma NoTurns()
    ensures Phasor.Product([]) == ONE
  {
  }

  lemma PowStep(rot: Complex, n: nat)
    ensures Mul(Pow(rot, n), rot) == Mul(ONE, Pow(rot, n + 1)) && Mul(ONE, rot) == rot
  {
    assert Pow(rot, n + 1) == Mul(rot, Pow(rot, n));
    hide Mul, Pow;
    MulOne(Pow(rot, n + 1));
    MulOne(rot);
    MulComm(rot, Pow(rot, n));
  }

  lemma LaterTone(t: Trig, hz: real, samplerate: int, strength: real, phase: real, n: nat, i: nat)
    requires samplerate > 0
    ensures Tone(t, hz, samplerate, strength, phase, n + i)
            == Tone(t, hz, samplerate, strength, Angle(phase, Advance(t, hz, samplerate), n), i)
  {
    AngleSum(phase, Advance(t, hz, samplerate), n, i);
    hide Angle, Advance;
  }

  lemma AngleSum(phase: real, a: real, n: nat, i: nat)
    ensures Angle(phase, a, n + i) == Angle(Angle(phase, a, n), a, i)
  {
    assert (n + i) as real == n as real + i as real;
    assert (n + i) as real * a == n as real * a + i as real * a;
  }
}
