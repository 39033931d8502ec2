/** Powers of two and their sums of exponents. */
module Powers {

  function Pow2(k: nat): (p: nat)
    ensures p >= 1
  {
    if k == 0 then 1 else 2 * Pow2(k - 1)
  }

  lemma {:induction false} Pow2Add(j: nat, k: nat)
    ensures Pow2(j + k) == Pow2(j) * Pow2(k)
  {
    if k > 0 {
      Pow2Add(j, k - 1);
    }
  }

  lemma {:induction false} Pow2Monotone(j: nat, k: nat)
    requires j <= k
    ensures Pow2(j) <= Pow2(k)
  {
    if j < k {
      Pow2Monotone(j, k - 1);
    }
  }

  lemma Pow2Double(k: nat, p: nat)
    requires Pow2(k) == p
    ensures Pow2(k + k) == p * p
  {
    Pow2Add(k, k);
  }

  /** 2^64 and 2^384; the exponents are variables so that they are not unfolded. */
  lemma Pow2Radix(word: nat, radix: nat)
    requires word == 64 && radix == 384
    ensures Pow2(word) == 0x1_0000_0000_0000_0000
    ensures Pow2(radix) == 0x1_0000_0000_0000_0000_0000_0000_0000_0000_0000_0000_0000_0000_0000_0000_0000_0000_0000_0000_0000_0000_0000_0000_0000_0000
  {
    var one: nat := 1;
    Pow2Double(one, 2);
    Pow2Double(one + one, 4);
    var four := 4 * one;
    Pow2Double(four, 0x10);
    Pow2Double(2 * four, 0x100);
    Pow2Double(4 * four, 0x1_0000);
    Pow2Double(8 * four, 0x1_0000_0000);
    Pow2Double(word, 0x1_0000_0000_0000_0000);
    Pow2Add(word + word, word);
    Pow2Double(3 * word, 0x1_0000_0000_0000_0000_0000_0000_0000_0000_0000_0000_0000_0000);
  }

  /** e >> i of a big.Int */
  function Shr(e: nat, i: nat): (r: nat)
  {
    if i == 0 then e else Shr(e, i - 1) / 2
  }

  /** big.Int.Bit */
  function Bit(e: nat, i: nat): (b: nat)
    ensures b <= 1 && Shr(e, i) == 2 * Shr(e, i + 1) + b
  {
    Shr(e, i) % 2
  }

  /** big.Int.BitLen */
  function BitLen(e: nat): (l: nat)
  {
    if e == 0 then 0 else 1 + BitLen(e / 2)
  }

  lemma {:induction false} ShrHalf(e: nat, i: nat)
    ensures Shr(e, i + 1) == Shr(e / 2, i)
  {
    if i > 0 {
      ShrHalf(e, i - 1);
    }
  }

  /** Nothing is left above the top bit. */
  lemma {:induction false} ShrTop(e: nat)
    ensures Shr(e, BitLen(e)) == 0 && Shr(e, BitLen(e) + 1) == 0
  {
    if e != 0 {
      ShrTop(e / 2);
      ShrHalf(e, BitLen(e / 2));
    }
  }

  lemma {:induction false} ShrAbove(e: nat, i: nat)
    requires i >= BitLen(e)
    ensures Shr(e, i) == 0
  {
    if i == BitLen(e) {
      ShrTop(e);
    } else {
      ShrAbove(e, i - 1);
    }
  }
}
