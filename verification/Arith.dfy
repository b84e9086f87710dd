/** Arithmetic shared by the other modules, above all division with a variable divisor, kept apart from the proofs that
    use it. */
module Arith {

  function Magnitude(x: real): real {
    if x < 0.0 then -x else x
  }

  lemma DivModUnique(a: int, b: int, q: int, r: int)
    requires b > 0 && a == q * b + r && 0 <= r < b
    ensures a / b == q && a % b == r
  {
    var q', r' := a / b, a % b;
    assert a == q' * b + r';
    var d := q - q';
    assert d * b == r' - r;
    if d >= 1 {
      MulMono(1, d, b);
    } else if d <= -1 {
      MulMono(d, -1, b);
    }
  }

  lemma MulMono(x: int, y: int, b: int)
    requires x <= y && b >= 0
    ensures x * b <= y * b
  {
  }

  lemma DivMod(a: nat, b: nat)
    requires b > 0
    ensures a == (a / b) * b + a % b && 0 <= a % b < b && a / b >= 0
  {
  }

  /** Adding one period moves the quotient and keeps the remainder. */
  lemma AddPeriod(a: nat, b: nat)
    requires b > 0
    ensures (a + b) / b == a / b + 1 && (a + b) % b == a % b
  {
    DivMod(a, b);
    assert (a / b + 1) * b == (a / b) * b + b;
    DivModUnique(a + b, b, a / b + 1, a % b);
  }

  /** Splitting a block of width 2h into its halves. */
  lemma HalfBlock(p: nat, h: nat)
    requires h > 0
    ensures p / (2 * h) == (p / h) / 2
    ensures p % (2 * h) == p % h + (if (p / h) % 2 == 0 then 0 else h)
  {
    DivMod(p, h);
    var q := p / h;
    var c := q % 2;
    assert q == 2 * (q / 2) + c;
    assert q * h == (q / 2) * (2 * h) + c * h;
    assert c * h == if c == 0 then 0 else h;
    DivModUnique(p, 2 * h, q / 2, c * h + p % h);
  }

  /** Numbers with the same remainder lie a whole number of periods apart. */
  lemma SameRemainder(p: nat, i: nat, h: nat)
    requires h > 0 && p % h == i % h && i <= p < i + 2 * h
    ensures p == i || p == i + h
  {
    DivMod(p, h);
    DivMod(i, h);
    var d := p / h - i / h;
    Difference(p / h, i / h, h);
    assert p - i == d * h;
    if d >= 2 {
      MulMono(2, d, h);
    } else if d < 0 {
      MulMono(d, -1, h);
    }
  }

  /** A multiple of b that exceeds a leaves room for the rest of a's block. */
  lemma BlockFits(a: nat, b: nat, n: nat)
    requires b > 0 && n % b == 0 && a < n
    ensures a - a % b + b <= n
    ensures a / b < n / b
  {
    DivMod(a, b);
    DivMod(n, b);
    if a / b >= n / b {
      MulMono(n / b, a / b, b);
    }
    MulMono(a / b + 1, n / b, b);
    assert (a / b + 1) * b == (a / b) * b + b;
  }

  /** Two positions h apart in the two halves of one block of width 2h. */
  lemma PairOffsets(i: nat, h: nat, n: nat)
    requires h > 0 && n % (2 * h) == 0 && i < n && i % (2 * h) < h
    ensures var b, k := i / (2 * h), i % (2 * h);
            && i + h < n
            && i / h == 2 * b && i % h == k
            && (i + h) / h == 2 * b + 1 && (i + h) % h == k
            && (i + h) / (2 * h) == b && (i + h) % (2 * h) == k + h
  {
    var w := 2 * h;
    var b, k := i / w, i % w;
    BlockFits(i, w, n);
    DivMod(i, w);
    Halves(b, h);
    DivModUnique(i, h, 2 * b, k);
    DivModUnique(i + h, h, 2 * b + 1, k);
    DivModUnique(i + h, w, b, k + h);
  }

  lemma Difference(a: int, b: int, h: int)
    ensures (a - b) * h == a * h - b * h
  {
  }

  lemma Halves(b: int, h: int)
    ensures (2 * b) * h == b * (2 * h) && (2 * b + 1) * h == b * (2 * h) + h
  {
  }
}
