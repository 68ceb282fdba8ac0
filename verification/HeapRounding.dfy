/** The mask of `alloc_block` rounds up to the alignment, and only wrap-around breaks that. */
module HeapRounding {
  import opened HeapSpec

  lemma {:induction false} HalvedRemainder(x: nat, p: nat)
    requires p > 0
    ensures x % (2 * p) == 2 * ((x / 2) % p) + x % 2
  {
    var q, r := (x / 2) / p, (x / 2) % p;
    assert x / 2 == p * q + r;
    assert x == 2 * (p * q + r) + x % 2;
    assert x == (2 * p) * q + (2 * r + x % 2);
    RemainderUnique(x, 2 * p, q, 2 * r + x % 2);
  }

  lemma RemainderUnique(x: nat, d: nat, q: nat, r: nat)
    requires d > 0 && r < d && x == d * q + r
    ensures x % d == r && x / d == q
  {
    var q', r' := x / d, x % d;
    assert x == d * q' + r';
    MultiplesApart(d, q, q');
    MultiplesApart(d, q', q);
  }

  lemma MultiplesApart(d: nat, q: nat, q': nat)
    ensures q < q' ==> d * q + d <= d * q'
  {
    if q < q' {
      assert d * q + d + d * (q' - q - 1) == d * q';
    }
  }

  /** Masking with 2^w - 2^k clears the low k bits. */
  lemma {:induction false} MaskClearsLowBits(x: nat, w: nat, k: nat)
    requires k <= w && x < Pow2(w)
    ensures Pow2(k) <= Pow2(w)
    ensures BitAnd(x, Pow2(w) - Pow2(k)) == x - x % Pow2(k)
  {
    if w == 0 {
    } else if k == 0 {
      MaskClearsLowBits(x / 2, w - 1, 0);
    } else {
      MaskClearsLowBits(x / 2, w - 1, k - 1);
      HalvedRemainder(x, Pow2(k - 1));
    }
  }

  lemma WordIsPow2()
    ensures Pow2(WORD_BITS) == WORD
  {
    assert Pow2(8) == 0x100;
    assert Pow2(16) == 0x1_0000 by { assert Pow2(12) == 0x1000; }
    assert Pow2(24) == 0x100_0000 by { assert Pow2(20) == 0x10_0000; }
    assert Pow2(28) == 0x1000_0000;
  }

  lemma {:induction false} Pow2Monotone(k: nat, w: nat)
    requires k <= w
    ensures Pow2(k) <= Pow2(w)
    decreases w
  {
    if k < w { Pow2Monotone(k, w - 1); }
  }

  /** Rounding before the mask is taken apart. */
  lemma RoundedIsMultiple(num: nat, alignment: nat)
    requires PowerOfTwo(alignment)
    ensures 0 < alignment <= WORD
    ensures var x := (num + alignment - 1) % WORD; RoundedSize(num, alignment) == x - x % alignment
  {
    var k: nat :| k < WORD_BITS && alignment == Pow2(k);
    WordIsPow2();
    Pow2Monotone(k, WORD_BITS);
    MaskClearsLowBits((num + alignment - 1) % WORD, WORD_BITS, k);
  }

  lemma RoundDown(x: nat, alignment: nat)
    requires alignment > 0
    ensures (x - x % alignment) % alignment == 0
    ensures x - alignment < x - x % alignment <= x
  {
    RemainderUnique(x - x % alignment, alignment, x / alignment, 0);
  }

  /** The rounded size is a multiple of the alignment below num + alignment; it still covers
      the request exactly when `num + alignment - 1` does not wrap around. */
  lemma RoundingCoversRequest(num: nat, alignment: nat)
    requires PowerOfTwo(alignment) && num < WORD
    ensures 0 < alignment <= WORD
    ensures var r := RoundedSize(num, alignment);
      && r % alignment == 0 && r < num + alignment
      && (r >= num <==> num + alignment <= WORD)
  {
    RoundedIsMultiple(num, alignment);
    var total := num + alignment - 1;
    var x := total % WORD;
    assert x == if total < WORD then total else total - WORD;
    RoundDown(x, alignment);
  }
}
