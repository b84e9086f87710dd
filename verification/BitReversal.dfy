/** Powers of two and the bit-reversal permutation. */
module BitReversal {

  function Pow2(n: nat): (p: nat)
    ensures p >= 1
  {
    if n == 0 then 1 else 2 * Pow2(n - 1)
  }

  ghost predicate IsPowerOfTwo(n: int) {
    exists m: nat :: n == Pow2(m)
  }

  lemma {:induction false} Pow2Add(a: nat, b: nat)
    ensures Pow2(a + b) == Pow2(a) * Pow2(b)
  {
    if a > 0 {
      Pow2Add(a - 1, b);
      assert Pow2(a + b) == 2 * Pow2((a - 1) + b);
    }
  }

  /** The m-bit reversal of i. */
  function Rev(m: nat, i: nat): (r: nat)
    requires i < Pow2(m)
    ensures r < Pow2(m)
  {
    if m == 0 then 0 else (if i % 2 == 0 then 0 else Pow2(m - 1)) + Rev(m - 1, i / 2)
  }

  /** Reversing is also peeling the top bit and putting it at the bottom. */
  lemma {:induction false} RevTop(m: nat, i: nat)
    requires m > 0 && i < Pow2(m - 1)
    ensures Rev(m, i) == 2 * Rev(m - 1, i)
    ensures Rev(m, i + Pow2(m - 1)) == 2 * Rev(m - 1, i) + 1
  {
    if m == 1 {
      assert Pow2(0) == 1 && i == 0;
    } else {
      hide Rev;
      var h := Pow2(m - 2);
      assert Pow2(m - 1) == 2 * h && Pow2(m) == 4 * h;
      hide Pow2;
      HalfShift(i, h);
      RevTop(m - 1, i / 2);
      RevStep(m, i);
      RevStep(m - 1, i);
      RevStep(m, i + 2 * h);
    }
  }

  lemma RevStep(m: nat, i: nat)
    requires m > 0 && i < Pow2(m)
    ensures i / 2 < Pow2(m - 1)
    ensures Rev(m, i) == (if i % 2 == 0 then 0 else Pow2(m - 1)) + Rev(m - 1, i / 2)
  {
  }

  lemma HalfShift(i: nat, h: nat)
    ensures (i + 2 * h) / 2 == i / 2 + h && (i + 2 * h) % 2 == i % 2
  {
  }

  /** Bit reversal is an involution, hence a permutation. */
  lemma {:induction false} RevInvolution(m: nat, i: nat)
    requires i < Pow2(m)
    ensures Rev(m, Rev(m, i)) == i
  {
    if m > 0 {
      var r := Rev(m - 1, i / 2);
      RevInvolution(m - 1, i / 2);
      RevTop(m, r);
      if i % 2 == 0 {
        assert Rev(m, i) == r;
      } else {
        assert Rev(m, i) == r + Pow2(m - 1);
      }
    }
  }

  lemma {:induction false} RevEnds(m: nat)
    ensures Rev(m, 0) == 0
    ensures Rev(m, Pow2(m) - 1) == Pow2(m) - 1
  {
    if m > 0 {
      RevEnds(m - 1);
      var n := Pow2(m) - 1;
      assert n % 2 == 1 && n / 2 == Pow2(m - 1) - 1;
    }
  }

  /** The carry step of the reversed counter: an even number gains the top bit, an odd one hands the carry down. */
  lemma RevSuccessor(m: nat, i: nat)
    requires m > 0 && i + 1 < Pow2(m)
    ensures i % 2 == 0 ==> Rev(m, i) < Pow2(m - 1) && Rev(m, i + 1) == Rev(m, i) + Pow2(m - 1)
    ensures i % 2 == 1 ==> Rev(m, i) >= Pow2(m - 1) && i / 2 + 1 < Pow2(m - 1)
                           && Rev(m - 1, i / 2) == Rev(m, i) - Pow2(m - 1) && Rev(m, i + 1) == Rev(m - 1, i / 2 + 1)
  {
    if i % 2 == 0 {
      assert (i + 1) / 2 == i / 2 && (i + 1) % 2 == 1;
    } else {
      assert (i + 1) / 2 == i / 2 + 1 && (i + 1) % 2 == 0;
    }
  }
}
