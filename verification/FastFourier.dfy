/** `fft` (libairspyhf/src/iqbalancer.c:114-195): bit reversal, butterfly stages with a running twiddle, half swap,
    all in place, proved equal to the textbook transform for every power-of-two length. */
module FastFourier {
  import opened ComplexNumbers
  import opened BitReversal
  import opened Arith
  import opened DiscreteFourier

  ghost function Log2(n: int): (m: nat)
    requires IsPowerOfTwo(n)
    ensures n == Pow2(m)
  {
    var m: nat :| n == Pow2(m);
    m
  }

  /** The transform of a buffer, bin by bin. */
  ghost function Transform(x: seq<Complex>, tw: nat -> Complex): (s: seq<Complex>)
    requires IsPowerOfTwo(|x|)
    ensures |s| == |x|
  {
    seq(|x|, k requires 0 <= k => Dft(|x|, tw(Log2(|x|)), At(x), k))
  }

  /** The half swap: bin 0 moves to the middle. */
  ghost function Centred(s: seq<Complex>): (c: seq<Complex>)
    ensures |c| == |s|
  {
    seq(|s|, i requires 0 <= i < |s| => s[(i + |s| / 2) % |s|])
  }

  // ---------------------------------------------------------------- intermediate states

  ghost function Stride(y: nat -> Complex, c: nat, s: nat): nat -> Complex {
    (t: nat) => y(c + t * s)
  }

  /** What position p holds after stage l: one bin of the 2^l-point transform of a strided subsequence. */
  ghost function Partial(tw: nat -> Complex, y: nat -> Complex, m: nat, l: nat, p: nat): Complex
    requires l <= m && p < Pow2(m)
  {
    BlockIndex(m, l, p);
    Dft(Pow2(l), tw(l), Stride(y, Rev(m - l, p / Pow2(l)), Pow2(m - l)), p % Pow2(l))
  }

  lemma BlockIndex(m: nat, l: nat, p: nat)
    requires l <= m && p < Pow2(m)
    ensures 0 <= p / Pow2(l) < Pow2(m - l)
    ensures Pow2(m) == Pow2(m - l) * Pow2(l) && Pow2(m) % Pow2(l) == 0
  {
    hide Pow2;
    var n, w, k := Pow2(m), Pow2(l), Pow2(m - l);
    Pow2Add(m - l, l);
    assert n == k * w + 0;
    DivModUnique(n, w, k, 0);
    BlockFits(p, w, n);
    DivMod(p, w);
  }

  /** Before the first stage position p holds sample Rev(p). */
  lemma PartialStart(tw: nat -> Complex, y: nat -> Complex, m: nat, p: nat)
    requires p < Pow2(m)
    ensures Partial(tw, y, m, 0, p) == y(Rev(m, p))
  {
    hide Dft;
    assert Pow2(0) == 1;
    DivModUnique(p, 1, p, 0);
    OnePoint(tw(0), Stride(y, Rev(m, p), Pow2(m)), 0);
  }

  /** After the last stage position p holds bin p. */
  lemma PartialEnd(tw: nat -> Complex, y: nat -> Complex, m: nat, p: nat)
    requires p < Pow2(m)
    ensures Partial(tw, y, m, m, p) == Dft(Pow2(m), tw(m), y, p)
  {
    hide Dft;
    DivModUnique(p, Pow2(m), 0, p);
    assert Pow2(0) == 1 && Rev(0, 0) == 0;
    DftCongruence(Pow2(m), tw(m), Stride(y, 0, 1), y, p);
  }

  /** Where the two inputs of a butterfly sit: same offset, neighbouring half blocks. */
  lemma PairIndices(m: nat, l: nat, i: nat)
    requires 1 <= l <= m && i < Pow2(m) && i % Pow2(l) < Pow2(l - 1)
    ensures var h, b, k := Pow2(l - 1), i / Pow2(l), i % Pow2(l);
            && Pow2(l) == 2 * h
            && i + h < Pow2(m)
            && i / h == 2 * b && i % h == k
            && (i + h) / h == 2 * b + 1 && (i + h) % h == k
            && (i + h) / Pow2(l) == b && (i + h) % Pow2(l) == k + h
  {
    BlockIndex(m, l, i);
    PairOffsets(i, Pow2(l - 1), Pow2(m));
  }

  /** The starting samples of the two half blocks are one stride apart. */
  lemma PairOrigins(n: nat, b: nat)
    requires b < Pow2(n)
    ensures 2 * b + 1 < Pow2(n + 1) && Pow2(n + 1) == 2 * Pow2(n)
    ensures Rev(n + 1, 2 * b) == Rev(n, b) && Rev(n + 1, 2 * b + 1) == Rev(n, b) + Pow2(n)
  {
    RevStep(n + 1, 2 * b);
    RevStep(n + 1, 2 * b + 1);
  }

  /** One butterfly turns a pair of stage l-1 values into the pair of stage l values at the same positions. */
  lemma PartialStep(tw: nat -> Complex, y: nat -> Complex, m: nat, l: nat, i: nat)
    requires Twiddles(tw) && 1 <= l <= m && i < Pow2(m) && i % Pow2(l) < Pow2(l - 1)
    ensures i + Pow2(l - 1) < Pow2(m)
    ensures var h, r := Pow2(l - 1), Pow(tw(l), i % Pow2(l));
            var e, o := Partial(tw, y, m, l - 1, i), Partial(tw, y, m, l - 1, i + h);
            && Partial(tw, y, m, l, i) == Add(e, Mul(r, o))
            && Partial(tw, y, m, l, i + h) == Sub(e, Mul(r, o))
  {
    hide Dft, Pow, Mul, Rev, Pow2, Twiddles, Add, Sub, Stride, Even, Odd;
    var h, b, k := Pow2(l - 1), i / Pow2(l), i % Pow2(l);
    BlockIndex(m, l, i);
    PairIndices(m, l, i);
    PairOrigins(m - l, b);
    var c, s := Rev(m - l, b), Pow2(m - l);
    Butterfly(tw, l, Stride(y, c, s), k);
    StrideHalves(y, c, s);
    DftCongruence(h, tw(l - 1), Even(Stride(y, c, s)), Stride(y, c, 2 * s), k);
    DftCongruence(h, tw(l - 1), Odd(Stride(y, c, s)), Stride(y, c + s, 2 * s), k);
  }

  lemma StrideHalves(y: nat -> Complex, c: nat, s: nat)
    ensures forall t: nat :: Even(Stride(y, c, s))(t) == Stride(y, c, 2 * s)(t)
    ensures forall t: nat :: Odd(Stride(y, c, s))(t) == Stride(y, c + s, 2 * s)(t)
  {
    forall t: nat
      ensures Even(Stride(y, c, s))(t) == Stride(y, c, 2 * s)(t)
      ensures Odd(Stride(y, c, s))(t) == Stride(y, c + s, 2 * s)(t)
    {
      assert (2 * t) * s == t * (2 * s) && (2 * t + 1) * s == s + t * (2 * s);
    }
  }

  // ---------------------------------------------------------------- the three phases in place

  ghost function Reordered(x: seq<Complex>, m: nat): (s: seq<Complex>)
    requires |x| == Pow2(m)
    ensures |s| == |x|
  {
    seq(|x|, p requires 0 <= p < |x| => x[Rev(m, p)])
  }

  /** The content while the reordering loop stands at i: the pairs with a member below i are exchanged. */
  ghost predicate ReorderedBelow(s: seq<Complex>, x: seq<Complex>, m: nat, i: nat)
    requires |s| == |x| == Pow2(m)
  {
    forall p: nat :: p < |x| ==> s[p] == if p < i || Rev(m, p) < i then x[Rev(m, p)] else x[p]
  }

  lemma ReorderStart(x: seq<Complex>, m: nat)
    requires |x| == Pow2(m)
    ensures ReorderedBelow(x, x, m, 1)
  {
    RevEnds(m);
    forall p: nat | p < |x| && Rev(m, p) < 1
      ensures Rev(m, p) == p
    {
      RevInvolution(m, p);
    }
  }

  lemma ReorderSwap(s: seq<Complex>, x: seq<Complex>, m: nat, i: nat)
    requires |s| == |x| == Pow2(m) && i < Pow2(m) && ReorderedBelow(s, x, m, i)
    ensures var j := Rev(m, i);
            ReorderedBelow(if i < j then s[j := s[i]][i := s[j]] else s, x, m, i + 1)
  {
    var j := Rev(m, i);
    RevInvolution(m, i);
    forall p: nat | p < |x|
      ensures Rev(m, p) == i ==> p == j
    {
      RevInvolution(m, p);
    }
  }

  lemma ReorderEnd(s: seq<Complex>, x: seq<Complex>, m: nat, i: nat)
    requires |s| == |x| == Pow2(m) && i + 1 >= |x| && ReorderedBelow(s, x, m, i)
    ensures s == Reordered(x, m)
  {
    RevEnds(m);
    forall p: nat | p < |x|
      ensures s[p] == x[Rev(m, p)]
    {
      if p >= i {
        assert p == |x| - 1;
      }
    }
  }

  /** Lines 140-148: the carry of the reversed counter. `q` and `c` name the suffix of the counter it has reached. */
  method NextReversed(j0: nat, nd2: nat, ghost m: nat, ghost i: nat) returns (j: nat)
    requires m >= 1 && i + 1 < Pow2(m) && j0 == Rev(m, i) && nd2 == Pow2(m - 1)
    ensures j == Rev(m, i + 1)
  {
    j := j0;
    var k := nd2;
    ghost var q: nat, c: nat := m, i;
    while k <= j
      invariant q >= 1 && k == Pow2(q - 1) && c + 1 < Pow2(q)
      invariant j == Rev(q, c) && Rev(q, c + 1) == Rev(m, i + 1)
      decreases q
    {
      RevSuccessor(q, c);
      j := j - k;
      k := k / 2;
      q, c := q - 1, c / 2;
    }
    RevSuccessor(q, c);
    j := j + k;
  }

  /** Lines 129-149: the reordering loop. */
  method BitReverse(buffer: array<Complex>, ghost m: nat)
    requires buffer.Length == Pow2(m)
    modifies buffer
    ensures buffer[..] == Reordered(old(buffer[..]), m)
  {
    hide ReorderedBelow, Reordered, Rev;
    ghost var x := buffer[..];
    var nm1, nd2 := buffer.Length - 1, buffer.Length / 2;
    var j: nat := nd2;
    var i: nat := 1;
    ReorderStart(x, m);
    if m >= 1 {
      RevSuccessorOfZero(m);
    }
    while i < nm1
      invariant 1 <= i && (m >= 1 ==> i <= nm1 && j == Rev(m, i))
      invariant ReorderedBelow(buffer[..], x, m, i)
    {
      RevSuccessorBound(m, i);
      ReorderSwap(buffer[..], x, m, i);
      ghost var s := buffer[..];
      if i < j {
        var t := buffer[j];
        buffer[j] := buffer[i];
        buffer[i] := t;
      }
      assert buffer[..] == if i < j then s[j := s[i]][i := s[j]] else s;
      j := NextReversed(j, nd2, m, i);
      i := i + 1;
    }
    ReorderEnd(buffer[..], x, m, i);
  }

  lemma RevSuccessorOfZero(m: nat)
    requires m >= 1
    ensures 1 < Pow2(m) && Rev(m, 1) == Pow2(m) / 2
  {
    RevEnds(m);
    RevSuccessor(m, 0);
  }

  lemma RevSuccessorBound(m: nat, i: nat)
    requires m >= 1 && i < Pow2(m)
    ensures Rev(m, i) < Pow2(m) && Pow2(m - 1) == Pow2(m) / 2
  {
  }

  /** What one stage leaves at position p, from the content before the stage. */
  ghost function StageValue(prev: seq<Complex>, r: Complex, h: nat, p: nat): Complex
    requires h > 0 && p < |prev|
  {
    if (p / h) % 2 == 0 && p + h < |prev| then Add(prev[p], Mul(Pow(r, p % h), prev[p + h]))
    else if p >= h then Sub(prev[p - h], Mul(Pow(r, p % h), prev[p]))
    else prev[p]
  }

  /** The pairs already combined when the loops stand at offset o and position i. */
  ghost predicate Combined(p: nat, h: nat, o: nat, i: nat)
    requires h > 0
  {
    p % h < o || (p % h == o && p < i)
  }

  ghost predicate StagePartly(s: seq<Complex>, prev: seq<Complex>, r: Complex, h: nat, o: nat, i: nat)
    requires |s| == |prev| && h > 0
  {
    forall p: nat :: p < |s| ==> s[p] == if Combined(p, h, o, i) then StageValue(prev, r, h, p) else prev[p]
  }

  /** One pass of the inner loop combines exactly the pair (i, i + h). */
  lemma CombinePair(s: seq<Complex>, prev: seq<Complex>, r: Complex, h: nat, o: nat, i: nat)
    requires |s| == |prev| && h > 0 && |s| % (2 * h) == 0 && o < h && i < |s| && i % (2 * h) == o
    requires StagePartly(s, prev, r, h, o, i)
    ensures i + h < |s| && (i + 2 * h) % (2 * h) == o
    ensures var t := Mul(Pow(r, o), s[i + h]);
            StagePartly(s[i + h := Sub(s[i], t)][i := Add(s[i], t)], prev, r, h, o, i + 2 * h)
  {
    hide Add, Sub, Mul, Pow;
    PairOffsets(i, h, |s|);
    AddPeriod(i, 2 * h);
    var t := Mul(Pow(r, o), s[i + h]);
    var s' := s[i + h := Sub(s[i], t)][i := Add(s[i], t)];
    assert s[i] == prev[i] && s[i + h] == prev[i + h];
    assert s'[i] == StageValue(prev, r, h, i);
    assert s'[i + h] == StageValue(prev, r, h, i + h);
    CombinedNext(|s|, h, o, i);
    hide Combined, StageValue;
  }

  /** The set of combined positions grows by the pair. */
  lemma CombinedNext(n: nat, h: nat, o: nat, i: nat)
    requires h > 0 && i % h == o && i + h < n
    ensures Combined(i, h, o, i + 2 * h) && Combined(i + h, h, o, i + 2 * h)
    ensures forall p: nat :: p < n && p != i && p != i + h ==> Combined(p, h, o, i + 2 * h) == Combined(p, h, o, i)
  {
    SameAfterPeriod(i, h);
    forall p: nat | p < n && p != i && p != i + h
      ensures Combined(p, h, o, i + 2 * h) == Combined(p, h, o, i)
    {
      if p % h == o && i <= p < i + 2 * h {
        SameRemainder(p, i, h);
      }
    }
  }

  lemma SameAfterPeriod(i: nat, h: nat)
    requires h > 0
    ensures (i + h) % h == i % h
  {
    AddPeriod(i, h);
  }

  /** Running off the end of the buffer at offset o is starting offset o + 1. */
  lemma NextOffset(s: seq<Complex>, prev: seq<Complex>, r: Complex, h: nat, o: nat, i: nat)
    requires |s| == |prev| && h > 0 && o < h && i >= |s|
    requires StagePartly(s, prev, r, h, o, i)
    ensures StagePartly(s, prev, r, h, o + 1, o + 1)
  {
    forall p: nat | p < |s|
      ensures Combined(p, h, o + 1, o + 1) == Combined(p, h, o, i)
    {
      DivMod(p, h);
      if p % h == o + 1 {
        assert p >= o + 1;
      }
    }
  }

  /** Lines 166-178: the butterflies of one offset, all with the same twiddle u. */
  method Butterflies(buffer: array<Complex>, le: nat, u: Complex, jm1: nat, ghost prev: seq<Complex>, ghost r: Complex)
    requires le > 1 && le % 2 == 0 && buffer.Length % le == 0 && jm1 < le / 2 && u == Pow(r, jm1)
    requires |prev| == buffer.Length && StagePartly(buffer[..], prev, r, le / 2, jm1, jm1)
    modifies buffer
    ensures StagePartly(buffer[..], prev, r, le / 2, jm1 + 1, jm1 + 1)
  {
    hide StagePartly, Pow, Mul, Add, Sub;
    var nm1 := buffer.Length - 1;
    var le2 := le / 2;
    var i := jm1;
    SmallRemainder(jm1, le);
    while i <= nm1
      invariant 0 <= i && i % le == jm1
      invariant StagePartly(buffer[..], prev, r, le2, jm1, i)
      decreases buffer.Length - i
    {
      CombinePair(buffer[..], prev, r, le2, jm1, i);
      var ip := i + le2;
      var t := Complex(u.re * buffer[ip].re - u.im * buffer[ip].im, u.im * buffer[ip].re + u.re * buffer[ip].im);
      ProductParts(u, buffer[ip]);
      DifferenceParts(buffer[i], t);
      ghost var s := buffer[..];
      buffer[ip] := Complex(buffer[i].re - t.re, buffer[i].im - t.im);
      buffer[i] := Complex(buffer[i].re + t.re, buffer[i].im + t.im);
      assert t == Mul(Pow(r, jm1), s[i + le2]);
      assert buffer[..] == s[i + le2 := Sub(s[i], t)][i := Add(s[i], t)];
      assert StagePartly(buffer[..], prev, r, le2, jm1, i + 2 * le2);
      i := i + le;
    }
    NextOffset(buffer[..], prev, r, le2, jm1, i);
  }

  lemma ProductParts(a: Complex, b: Complex)
    ensures Complex(a.re * b.re - a.im * b.im, a.im * b.re + a.re * b.im) == Mul(a, b)
  {
  }

  lemma DifferenceParts(a: Complex, b: Complex)
    ensures Complex(a.re - b.re, a.im - b.im) == Sub(a, b) && Complex(a.re + b.re, a.im + b.im) == Add(a, b)
  {
  }

  /** Lines 153-185: stage l, with the running twiddle u = r^(j-1). */
  method Stage(buffer: array<Complex>, le: nat, r: Complex)
    requires le > 1 && le % 2 == 0 && buffer.Length % le == 0
    modifies buffer
    ensures forall p: nat :: p < buffer.Length ==> buffer[p] == StageValue(old(buffer[..]), r, le / 2, p)
  {
    hide StageValue, StagePartly, Pow, Mul;
    ghost var prev := buffer[..];
    var le2 := le / 2;
    var u := ONE;
    PowZero(r);
    NothingCombined(prev, r, le2);
    var j := 1;
    while j <= le2
      invariant 1 <= j <= le2 + 1 && u == Pow(r, j - 1)
      invariant StagePartly(buffer[..], prev, r, le2, j - 1, j - 1)
    {
      Butterflies(buffer, le, u, j - 1, prev, r);
      PowNext(r, j - 1);
      ProductParts(u, r);
      u := Complex(u.re * r.re - u.im * r.im, u.im * r.re + u.re * r.im);
      j := j + 1;
    }
    EverythingCombined(buffer[..], prev, r, le2);
  }

  lemma PowZero(r: Complex)
    ensures Pow(r, 0) == ONE
  {
  }

  lemma PowNext(r: Complex, e: nat)
    ensures Pow(r, e + 1) == Mul(Pow(r, e), r)
  {
    MulComm(r, Pow(r, e));
  }

  lemma SmallRemainder(o: nat, b: nat)
    requires o < b
    ensures o % b == o
  {
  }

  lemma NothingCombined(prev: seq<Complex>, r: Complex, h: nat)
    requires h > 0
    ensures StagePartly(prev, prev, r, h, 0, 0)
  {
  }

  lemma EverythingCombined(s: seq<Complex>, prev: seq<Complex>, r: Complex, h: nat)
    requires |s| == |prev| && h > 0 && StagePartly(s, prev, r, h, h, h)
    ensures forall p: nat :: p < |s| ==> s[p] == StageValue(prev, r, h, p)
  {
    forall p: nat | p < |s|
      ensures Combined(p, h, h, h)
    {
      DivMod(p, h);
    }
  }

  /** A stage applied to the partial transforms of level l-1 gives those of level l. */
  lemma StageRefines(prev: seq<Complex>, s: seq<Complex>, tw: nat -> Complex, y: nat -> Complex, m: nat, l: nat)
    requires Twiddles(tw) && 1 <= l <= m && |prev| == |s| == Pow2(m)
    requires forall p: nat :: p < |prev| ==> prev[p] == Partial(tw, y, m, l - 1, p)
    requires forall p: nat :: p < |s| ==> s[p] == StageValue(prev, tw(l), Pow2(l - 1), p)
    ensures forall p: nat :: p < |s| ==> s[p] == Partial(tw, y, m, l, p)
  {
    forall p: nat | p < |s|
      ensures s[p] == Partial(tw, y, m, l, p)
    {
      StageRefinesAt(prev, tw, y, m, l, p);
    }
  }

  lemma StageRefinesAt(prev: seq<Complex>, tw: nat -> Complex, y: nat -> Complex, m: nat, l: nat, p: nat)
    requires Twiddles(tw) && 1 <= l <= m && |prev| == Pow2(m) && p < Pow2(m)
    requires forall p: nat :: p < |prev| ==> prev[p] == Partial(tw, y, m, l - 1, p)
    ensures StageValue(prev, tw(l), Pow2(l - 1), p) == Partial(tw, y, m, l, p)
  {
    var h := Pow2(l - 1);
    assert Pow2(l) == 2 * h;
    hide Partial, Add, Sub, Mul, Pow, Twiddles, Pow2;
    HalfBlock(p, h);
    DivMod(p, h);
    if (p / h) % 2 == 0 {
      PairIndices(m, l, p);
      PartialStep(tw, y, m, l, p);
    } else {
      LowerPartner(p, h);
      PairIndices(m, l, p - h);
      PartialStep(tw, y, m, l, p - h);
    }
  }

  lemma LowerPartner(p: nat, h: nat)
    requires h > 0 && (p / h) % 2 == 1
    ensures p >= h && (p - h) % (2 * h) == p % h && ((p - h) + h) / h == p / h
  {
    DivMod(p, h);
    MulMono(1, p / h, h);
    assert (p / h - 1) * h == (p / h) * h - h;
    DivModUnique(p - h, h, p / h - 1, p % h);
    HalfBlock(p - h, h);
  }

  /** Where position p's content comes from once the first i pairs are exchanged. */
  function Partner(p: nat, h: nat, i: nat): nat {
    if p < i then p + h else if h <= p < h + i then p - h else p
  }

  ghost predicate HalvesSwapped(c: seq<Complex>, s: seq<Complex>, i: nat) {
    |c| == |s| && forall p: nat :: p < |c| && Partner(p, |s| / 2, i) < |s| ==> c[p] == s[Partner(p, |s| / 2, i)]
  }

  lemma SwapPair(c: seq<Complex>, s: seq<Complex>, i: nat)
    requires HalvesSwapped(c, s, i) && i < |s| / 2
    ensures var j := |s| / 2 + i;
            HalvesSwapped(c[i := c[j]][j := c[i]], s, i + 1)
  {
    var h := |s| / 2;
    assert Partner(i, h, i) == i && Partner(h + i, h, i) == h + i;
  }

  lemma AllSwapped(c: seq<Complex>, s: seq<Complex>)
    requires HalvesSwapped(c, s, |s| / 2) && (|s| == 1 || |s| % 2 == 0)
    ensures c == Centred(s)
  {
    forall p: nat | p < |s|
      ensures c[p] == Centred(s)[p]
    {
      HalfTurn(p, |s|);
      assert Partner(p, |s| / 2, |s| / 2) == (p + |s| / 2) % |s|;
    }
  }

  /** Lines 188-194. */
  method HalfSwap(buffer: array<Complex>)
    requires buffer.Length == 1 || buffer.Length % 2 == 0
    modifies buffer
    ensures buffer[..] == Centred(old(buffer[..]))
  {
    hide HalvesSwapped, Centred;
    ghost var s := buffer[..];
    var nd2 := buffer.Length / 2;
    var i := 0;
    NoneSwapped(s);
    while i < nd2
      invariant 0 <= i <= nd2 && HalvesSwapped(buffer[..], s, i)
    {
      SwapPair(buffer[..], s, i);
      ghost var c := buffer[..];
      var j := nd2 + i;
      var t := buffer[i];
      buffer[i] := buffer[j];
      buffer[j] := t;
      assert buffer[..] == c[i := c[j]][j := c[i]];
      i := i + 1;
    }
    AllSwapped(buffer[..], s);
  }

  lemma NoneSwapped(s: seq<Complex>)
    ensures HalvesSwapped(s, s, 0)
  {
  }

  lemma HalfTurn(p: nat, n: nat)
    requires p < n && (n == 1 || n % 2 == 0)
    ensures (p + n / 2) % n == if p < n / 2 then p + n / 2 else if n == 1 then p else p - n / 2
  {
    if p < n / 2 || n == 1 {
      SmallRemainder(p + n / 2, n);
    } else {
      AddPeriod(p - n / 2, n);
      SmallRemainder(p - n / 2, n);
    }
  }

  /** The whole transform: every power-of-two length, every input. */
  method Fft(buffer: array<Complex>, tw: nat -> Complex)
    requires IsPowerOfTwo(buffer.Length)
    requires Twiddles(tw)
    modifies buffer
    ensures buffer[..] == Centred(Transform(old(buffer[..]), tw))
  {
    hide Partial, StageValue, Reordered, Dft, Twiddles, Pow, At;
    var length := buffer.Length;
    ghost var top := Log2(length);
    ghost var x := buffer[..];
    var m := StageCount(length, top);
    BitReverse(buffer, top);
    ReorderedPartial(x, buffer[..], tw, top);
    var l := 1;
    while l <= m
      invariant 1 <= l <= m + 1
      invariant forall p: nat :: p < length ==> buffer[p] == Partial(tw, At(x), top, l - 1, p)
    {
      StageShape(top, l);
      ghost var prev := buffer[..];
      Stage(buffer, Pow2(l), tw(l));
      StageRefines(prev, buffer[..], tw, At(x), top, l);
      l := l + 1;
    }
    PartialTransform(x, buffer[..], tw);
    StageShape0(top);
    HalfSwap(buffer);
  }

  /** Lines 121-127. */
  method StageCount(length: nat, ghost top: nat) returns (m: nat)
    requires length == Pow2(top)
    ensures m == top
  {
    m := 0;
    var i := length;
    while i > 1
      invariant m <= top && i == Pow2(top - m)
    {
      m := m + 1;
      i := i / 2;
    }
  }

  lemma ReorderedPartial(x: seq<Complex>, s: seq<Complex>, tw: nat -> Complex, m: nat)
    requires |x| == Pow2(m) && s == Reordered(x, m)
    ensures forall p: nat :: p < |s| ==> s[p] == Partial(tw, At(x), m, 0, p)
  {
    forall p: nat | p < |s|
      ensures s[p] == Partial(tw, At(x), m, 0, p)
    {
      PartialStart(tw, At(x), m, p);
    }
  }

  lemma PartialTransform(x: seq<Complex>, s: seq<Complex>, tw: nat -> Complex)
    requires IsPowerOfTwo(|x|) && |s| == |x|
    requires forall p: nat :: p < |s| ==> s[p] == Partial(tw, At(x), Log2(|x|), Log2(|x|), p)
    ensures s == Transform(x, tw)
  {
    hide Partial, Dft;
    forall p: nat | p < |s|
      ensures s[p] == Transform(x, tw)[p]
    {
      PartialEnd(tw, At(x), Log2(|x|), p);
    }
  }

  lemma StageShape(m: nat, l: nat)
    requires 1 <= l <= m
    ensures Pow2(l) > 1 && Pow2(l) % 2 == 0 && Pow2(l) / 2 == Pow2(l - 1) && Pow2(m) % Pow2(l) == 0
  {
    hide Pow2;
    BlockIndex(m, l, 0);
    DoublePow(l);
    var h := Pow2(l - 1);
    assert (2 * h) / 2 == h && (2 * h) % 2 == 0;
  }

  lemma DoublePow(l: nat)
    requires l >= 1
    ensures Pow2(l) == 2 * Pow2(l - 1)
  {
  }

  lemma StageShape0(m: nat)
    ensures Pow2(m) == 1 || Pow2(m) % 2 == 0
  {
  }
}
