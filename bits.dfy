// Narrow memory-mapped registers as vectors of bits.
//
// The drivers only ever combine register values with the C bit operators, so
// a register of width w is modelled as its w bits, least significant first,
// and each operator acts bit by bit. A shift whose amount reaches the width
// drops every bit, as storing a wider C int into the register would.

module Bits {

  import opened Words

  /** A register value: bit j is element j. */
  type Bits = seq<bool>

  /** The all-zero register of width `w`. */
  function Zero(w: nat): (r: Bits)
    ensures |r| == w && forall j :: 0 <= j < w ==> !r[j]
  {
    seq(w, j => false)
  }

  /** `1 << k` in a register of width `w`. */
  function Single(w: nat, k: nat): (r: Bits)
    ensures |r| == w && forall j :: 0 <= j < w ==> (r[j] <==> j == k)
  {
    seq(w, j => j == k)
  }

  /** `a & b`. */
  function And(a: Bits, b: Bits): (r: Bits)
    requires |a| == |b|
    ensures |r| == |a| && forall j :: 0 <= j < |a| ==> (r[j] <==> a[j] && b[j])
  {
    seq(|a|, j requires 0 <= j < |a| => a[j] && b[j])
  }

  /** `a | b`. */
  function Or(a: Bits, b: Bits): (r: Bits)
    requires |a| == |b|
    ensures |r| == |a| && forall j :: 0 <= j < |a| ==> (r[j] <==> a[j] || b[j])
  {
    seq(|a|, j requires 0 <= j < |a| => a[j] || b[j])
  }

  /** `~a`. */
  function Not(a: Bits): (r: Bits)
    ensures |r| == |a| && forall j :: 0 <= j < |a| ==> (r[j] <==> !a[j])
  {
    seq(|a|, j requires 0 <= j < |a| => !a[j])
  }

  /** `a << k`, keeping the width. */
  function ShiftLeft(a: Bits, k: nat): (r: Bits)
    ensures |r| == |a| && forall j :: 0 <= j < |a| ==> (r[j] <==> k <= j && a[j - k])
  {
    seq(|a|, j requires 0 <= j < |a| => k <= j && a[j - k])
  }

  /** `a >> k` (logical). */
  function ShiftRight(a: Bits, k: nat): (r: Bits)
    ensures |r| == |a| && forall j :: 0 <= j < |a| ==> (r[j] <==> j + k < |a| && a[j + k])
  {
    seq(|a|, j requires 0 <= j < |a| => j + k < |a| && a[j + k])
  }

  /** The value as a C condition: true iff some bit is set. */
  predicate NonZero(a: Bits) {
    exists j :: 0 <= j < |a| && a[j]
  }

  /** Masking with `1 << k` leaves a non-zero value exactly when bit k
      exists and is set. */
  lemma TestBit(a: Bits, k: nat)
    ensures NonZero(And(a, Single(|a|, k))) <==> k < |a| && a[k]
  {
    if k < |a| && a[k] {
      assert And(a, Single(|a|, k))[k];
    }
  }

  /** The natural number a register holds. */
  function ToNat(a: Bits): (n: nat)
    ensures n < Pow2(|a|)
  {
    if |a| == 0 then 0 else (if a[0] then 1 else 0) + 2 * ToNat(a[1..])
  }

  /** The low `w` bits of a natural number. */
  function FromNat(n: nat, w: nat): (r: Bits)
    ensures |r| == w
  {
    if w == 0 then [] else [n % 2 == 1] + FromNat(n / 2, w - 1)
  }

  /** Reading back the bits of a number that fits gives the number. */
  lemma {:induction false} ToNatFromNat(n: nat, w: nat)
    requires n < Pow2(w)
    ensures ToNat(FromNat(n, w)) == n
  {
    if w > 0 {
      ToNatFromNat(n / 2, w - 1);
      assert FromNat(n, w)[1..] == FromNat(n / 2, w - 1);
    }
  }

  /** Writing out the bits of a register value gives the value back. */
  lemma {:induction false} FromNatToNat(a: Bits)
    ensures FromNat(ToNat(a), |a|) == a
  {
    if |a| > 0 {
      FromNatToNat(a[1..]);
      var n := ToNat(a);
      assert n / 2 == ToNat(a[1..]);
      assert (n % 2 == 1) == a[0];
      assert FromNat(n, |a|) == [a[0]] + a[1..];
    }
  }
}
