// Machine words of the 32-bit soft-core, as bounded naturals.
//
// The firmware's masks and counters are `usize` (32 bits). Where the code only
// tests, shifts and scans bits, the model keeps the word as a natural number
// below 2^32, so that bit `i` is the remainder of a repeated halving.

module Words {

  const WORD: int := 0x1_0000_0000

  /** A 32-bit unsigned word. */
  type u32 = x: int | 0 <= x < WORD

  /** 64-bit counters of the timer block. */
  const WORD64: int := 0x1_0000_0000_0000_0000

  type u64 = x: int | 0 <= x < WORD64

  /** `a - b` on two u64 values: the exact difference when b <= a, and the
      difference wrapped modulo 2^64 when the counter has wrapped. */
  function Sub64(a: u64, b: u64): (d: u64)
    ensures b <= a ==> d == a - b
    ensures a < b ==> d == a - b + WORD64
  {
    (a - b) % WORD64
  }

  /** Bytes and half-words of the serial protocol and the GPIO registers. */
  type u8 = x: int | 0 <= x < 0x100

  type u16 = x: int | 0 <= x < 0x1_0000

  function Pow2(k: nat): (r: nat)
    ensures r >= 1
  {
    if k == 0 then 1 else 2 * Pow2(k - 1)
  }

  lemma {:induction false} Pow2Add(a: nat, b: nat)
    ensures Pow2(a + b) == Pow2(a) * Pow2(b)
  {
    if a > 0 {
      Pow2Add(a - 1, b);
      assert Pow2(a + b) == 2 * Pow2(a - 1 + b);
    }
  }

  lemma Pow2Values()
    ensures Pow2(8) == 0x100 && Pow2(16) == 0x1_0000 && Pow2(32) == WORD
    ensures Pow2(31) == WORD / 2
  {
    assert Pow2(4) == 16 by {
      assert Pow2(1) == 2;
      assert Pow2(2) == 4;
      assert Pow2(3) == 8;
    }
    Pow2Add(4, 4);
    Pow2Add(8, 8);
    Pow2Add(16, 16);
  }

  /** The word shifted right by `k` bits. */
  function Shr(x: nat, k: nat): nat
  {
    if k == 0 then x else Shr(x, k - 1) / 2
  }

  /** Bit `i` of `x`. */
  predicate BitSet(x: nat, i: nat)
  {
    Shr(x, i) % 2 == 1
  }

  /** The 32 bits of a word, least significant first. */
  function BitsOf(x: u32): (b: seq<bool>)
    ensures |b| == 32 && forall i :: 0 <= i < 32 ==> b[i] == BitSet(x, i)
  {
    seq(32, i requires 0 <= i < 32 => BitSet(x, i))
  }

  lemma {:induction false} ShrBelow(x: nat, k: nat)
    requires x < WORD && k <= 32
    ensures Shr(x, k) * Pow2(k) < WORD
  {
    if k == 0 {
    } else {
      ShrBelow(x, k - 1);
      var y := Shr(x, k - 1);
      assert Shr(x, k) == y / 2;
      assert (y / 2) * (2 * Pow2(k - 1)) <= y * Pow2(k - 1);
    }
  }

  /** A 32-bit word has no bits at position 32 and above. */
  lemma ShrPastWord(x: nat, k: nat)
    requires x < WORD && k >= 32
    ensures Shr(x, k) == 0
    decreases k
  {
    if k == 32 {
      ShrBelow(x, 32);
      Pow2Values();
    } else {
      ShrPastWord(x, k - 1);
    }
  }

  /** `k` is the index of the lowest set bit of `x`. */
  predicate IsLowestSetBit(x: nat, k: nat)
  {
    k < 32 && BitSet(x, k) && forall j :: 0 <= j < k ==> !BitSet(x, j)
  }

  /** The bit scan from bit `k` on: the first set bit, or 31 if bits
      k..30 are all clear. */
  function LowestSetBitFrom(x: u32, k: nat): (r: nat)
    requires k < 32
    ensures k <= r < 32
    decreases 32 - k
  {
    if k == 31 || BitSet(x, k) then k else LowestSetBitFrom(x, k + 1)
  }

  /** For a non-zero word whose bits below `k` are clear, the scan from `k`
      finds the lowest set bit. */
  lemma {:induction false} LowestSetBitFromSpec(x: u32, k: nat)
    requires x != 0 && k < 32
    requires forall j :: 0 <= j < k ==> !BitSet(x, j)
    ensures IsLowestSetBit(x, LowestSetBitFrom(x, k))
    decreases 32 - k
  {
    if k == 31 || BitSet(x, k) {
      TopBitOfNonZero(x, k);
    } else {
      LowestSetBitFromSpec(x, k + 1);
    }
  }

  /** A non-zero word whose bits 0..30 are clear has bit 31 set. */
  lemma TopBitOfNonZero(x: u32, k: nat)
    requires x != 0 && k < 32
    requires forall j :: 0 <= j < k ==> !BitSet(x, j)
    ensures k == 31 ==> BitSet(x, 31)
  {
    if k == 31 && !BitSet(x, 31) {
      ShrPastWord(x, 32);
      NoBitsMeansZero(x, 32);
    }
  }

  /** The index of the lowest set bit of a non-zero word. */
  function LowestSetBit(x: u32): (r: nat)
    requires x != 0
    ensures r < 32
  {
    LowestSetBitFrom(x, 0)
  }

  /** LowestSetBit names the lowest set bit, and no other index does. */
  lemma LowestSetBitSpec(x: u32)
    requires x != 0
    ensures IsLowestSetBit(x, LowestSetBit(x))
    ensures forall k :: IsLowestSetBit(x, k) ==> k == LowestSetBit(x)
  {
    LowestSetBitFromSpec(x, 0);
    forall k | IsLowestSetBit(x, k) ensures k == LowestSetBit(x) {
      LowestSetBitUnique(x, k, LowestSetBit(x));
    }
  }

  /** A word whose bits 0..k-1 are clear and whose bits from k on are
      clear is zero. */
  lemma {:induction false} NoBitsMeansZero(x: u32, k: nat)
    requires k <= 32
    requires forall j :: 0 <= j < k ==> !BitSet(x, j)
    ensures Shr(x, k) == 0 ==> x == 0
  {
    if k > 0 && Shr(x, k) == 0 {
      assert !BitSet(x, k - 1);
      NoBitsMeansZero(x, k - 1);
    }
  }

  /** Only one index can be the lowest set bit. */
  lemma LowestSetBitUnique(x: nat, j: nat, k: nat)
    requires IsLowestSetBit(x, j) && IsLowestSetBit(x, k)
    ensures j == k
  {
  }

  /** The bitwise complement of a word (see Not32Bits). */
  function Not32(x: u32): (r: u32)
    ensures r + x == WORD - 1
  {
    WORD - 1 - x
  }

  /** The complement flips every one of the 32 bits. */
  lemma Not32Bits(x: u32)
    ensures forall i :: 0 <= i < 32 ==> (BitSet(Not32(x), i) <==> !BitSet(x, i))
  {
    forall i | 0 <= i < 32 ensures BitSet(WORD - 1 - x, i) <==> !BitSet(x, i) {
      ShrComplement(x, i);
      assert Pow2(32 - i) == 2 * Pow2(32 - i - 1);
    }
  }

  /** After `k` halvings, a word and its complement still add up to all
      ones within the remaining 32 - k bits. */
  lemma {:induction false} ShrComplement(x: u32, k: nat)
    requires k <= 32
    ensures Shr(WORD - 1 - x, k) + Shr(x, k) == Pow2(32 - k) - 1
  {
    if k == 0 {
      Pow2Values();
    } else {
      ShrComplement(x, k - 1);
      assert Pow2(32 - (k - 1)) == 2 * Pow2(32 - k);
    }
  }

  /** Complementing twice gives the word back. */
  lemma NotNot(x: u32)
    ensures Not32(Not32(x)) == x
  {
  }

  /** 2^k for k < 32 is at most 2^31 and so fits a word with room for one
      more bit. */
  lemma Pow2InWord(k: nat)
    requires k < 32
    ensures Pow2(k) <= WORD / 2
  {
    Pow2Mono(k, 31);
    Pow2Values();
  }

  lemma {:induction false} Pow2Mono(a: nat, b: nat)
    requires a <= b
    ensures Pow2(a) <= Pow2(b)
    decreases b
  {
    if a < b {
      Pow2Mono(a, b - 1);
    }
  }

  /** Shifting by a then by b is shifting by a + b. */
  lemma {:induction false} ShrAdd(x: nat, a: nat, b: nat)
    ensures Shr(Shr(x, a), b) == Shr(x, a + b)
  {
    if b > 0 {
      ShrAdd(x, a, b - 1);
    }
  }

  lemma {:induction false} ShrZero(k: nat)
    ensures Shr(0, k) == 0
  {
    if k > 0 {
      ShrZero(k - 1);
    }
  }

  /** 2^k has bit k set and no other bit. */
  lemma Pow2Bits(k: nat, i: nat)
    ensures BitSet(Pow2(k), i) <==> i == k
  {
    if i <= k {
      ShrPow2(k, i);
      if i < k {
        assert Pow2(k - i) == 2 * Pow2(k - i - 1);
      }
    } else {
      ShrPow2(k, k);
      ShrAdd(Pow2(k), k, i - k);
      ShrAdd(1, 1, i - k - 1);
      ShrZero(i - k - 1);
    }
  }

  /** 2^k + 1, for k >= 1, has bits 0 and k set and no other bit. */
  lemma Pow2PlusOneBits(k: nat, i: nat)
    requires k >= 1
    ensures BitSet(Pow2(k) + 1, i) <==> i == 0 || i == k
  {
    if i > 0 {
      assert Shr(Pow2(k) + 1, 1) == Pow2(k - 1);
      ShrAdd(Pow2(k) + 1, 1, i - 1);
      Pow2Bits(k - 1, i - 1);
    }
  }

  lemma {:induction false} ShrPow2(k: nat, j: nat)
    requires j <= k
    ensures Shr(Pow2(k), j) == Pow2(k - j)
  {
    if j > 0 {
      ShrPow2(k, j - 1);
      assert Pow2(k - (j - 1)) == 2 * Pow2(k - j);
    }
  }

  /** Quotient and remainder are unique. */
  lemma ModUnique(x: int, q: int, m: int, n: int)
    requires 0 <= m < n && x == q * n + m
    ensures x % n == m && x / n == q
  {
    var d := q - x / n;
    assert d * n == x % n - m;
    MultipleBounds(d, n);
  }

  lemma MultipleBounds(d: int, n: int)
    requires n > 0
    ensures d >= 1 ==> d * n >= n
    ensures d <= -1 ==> d * n <= -n
  {
  }
}
