// put_num of bootloader/src/optiboot.c: a number written out in a base,
// most significant digit first, with 'A'.. for digit values from ten on and
// zero padding to 8 digits in base 2 and 2 digits in base 16.
//
// The digits go into a character buffer least significant first, are padded,
// and the buffer is reversed in place before the terminating NUL is stored.
// The buffer is declared with 32 characters; a base-2 number with its top bit
// set has 32 digits, so the NUL lands one past the end (TerminatorPastBuffer).
// PutNum uses a buffer one character longer.

module Numerals {
  import opened Words

  /** The character buffer put_num declares. */
  const PUT_NUM_BUFFER: nat := 32

  /** Digit values of `n`, least significant first, as the do-while loop
      produces them: 0 has the single digit 0. */
  function LowDigits(n: nat, base: nat): (ds: seq<nat>)
    requires base >= 2
    ensures |ds| >= 1 && forall i :: 0 <= i < |ds| ==> ds[i] < base
    decreases n
  {
    if n < base then [n]
    else
      DivShrinks(n, base);
      [n % base] + LowDigits(n / base, base)
  }

  lemma DivShrinks(n: nat, base: nat)
    requires base >= 2 && n >= 1
    ensures n / base < n
  {
    var q, r := n / base, n % base;
    assert n == q * base + r;
    var k: nat := base - 2;
    assert q * base == 2 * q + q * k;
  }

  /** The least number of digits put_num writes in `base`. */
  function MinDigits(base: nat): nat
  {
    if base == 2 then 8 else if base == 16 then 2 else 0
  }

  /** The digits after padding, least significant first. */
  function Padded(n: nat, base: nat): (ds: seq<nat>)
    requires base >= 2
    ensures |ds| >= MinDigits(base) && |ds| >= |LowDigits(n, base)|
    ensures forall i :: 0 <= i < |ds| ==> ds[i] < base
  {
    var low := LowDigits(n, base);
    if |low| >= MinDigits(base) then low
    else low + seq(MinDigits(base) - |low|, _ => 0)
  }

  /** The character for a digit value: '0'..'9', then 'A'... */
  function DigitChar(a: nat): (c: char)
    requires a < 36
    ensures a < 10 ==> '0' <= c <= '9'
    ensures a >= 10 ==> 'A' <= c <= 'Z'
  {
    if a < 10 then ('0' as int + a) as char else ('A' as int + a - 10) as char
  }

  /** The digit value of a character DigitChar produces. */
  function CharDigit(c: char): nat
  {
    if '0' <= c <= '9' then c as int - '0' as int
    else if 'A' <= c <= 'Z' then c as int - 'A' as int + 10
    else 0
  }

  lemma CharDigitOfDigitChar(a: nat)
    requires a < 36
    ensures CharDigit(DigitChar(a)) == a
  {
  }

  /** The characters of a digit sequence given least significant first,
      written most significant first. */
  function MsbChars(ds: seq<nat>): (text: seq<char>)
    requires forall i :: 0 <= i < |ds| ==> ds[i] < 36
    ensures |text| == |ds|
  {
    if |ds| == 0 then [] else MsbChars(ds[1..]) + [DigitChar(ds[0])]
  }

  lemma {:induction false} MsbCharsAt(ds: seq<nat>, k: nat)
    requires forall i :: 0 <= i < |ds| ==> ds[i] < 36
    requires k < |ds|
    ensures MsbChars(ds)[k] == DigitChar(ds[|ds| - 1 - k])
  {
    if k < |ds| - 1 {
      MsbCharsAt(ds[1..], k);
    }
  }

  /** The text put_num sends, most significant digit first. */
  function Numeral(n: nat, base: nat): (text: seq<char>)
    requires 2 <= base <= 36
    ensures |text| == |Padded(n, base)|
  {
    MsbChars(Padded(n, base))
  }

  /** The index at which put_num stores the terminating NUL. */
  function TerminatorIndex(n: nat, base: nat): (d: nat)
    requires 2 <= base <= 36
    ensures d == |Numeral(n, base)|
  {
    |Padded(n, base)|
  }

  // ---------------------------------------------------------------------
  // Reading a numeral back

  /** The value of a digit sequence given least significant first. */
  function LowValue(ds: seq<nat>, base: nat): nat
  {
    if |ds| == 0 then 0 else ds[0] + base * LowValue(ds[1..], base)
  }

  /** The value of a text read most significant digit first. */
  function Parse(text: seq<char>, base: nat): nat
  {
    if |text| == 0 then 0
    else Parse(text[.. |text| - 1], base) * base + CharDigit(text[|text| - 1])
  }

  lemma {:induction false} LowDigitsValue(n: nat, base: nat)
    requires base >= 2
    ensures LowValue(LowDigits(n, base), base) == n
    decreases n
  {
    if n >= base {
      var q, r := n / base, n % base;
      var ds := LowDigits(n, base);
      DivStep(n, base);
      assert ds == [r] + LowDigits(q, base);
      assert ds[1..] == LowDigits(q, base);
      LowDigitsValue(q, base);
      assert LowValue(ds, base) == r + base * q;
      DivModSplit(n, base);
    }
  }

  lemma DivModSplit(n: nat, b: nat)
    requires b > 0
    ensures n == n % b + b * (n / b)
  {
  }

  lemma {:induction false} LeadingZerosValue(ds: seq<nat>, k: nat, base: nat)
    ensures LowValue(ds + seq(k, _ => 0), base) == LowValue(ds, base)
    decreases |ds| + k
  {
    var zs: seq<nat> := seq(k, _ => 0);
    if |ds| == 0 {
      if k > 0 {
        assert (ds + zs)[1..] == [] + seq(k - 1, _ => 0);
        LeadingZerosValue([], k - 1, base);
      }
    } else {
      assert (ds + zs)[1..] == ds[1..] + zs;
      LeadingZerosValue(ds[1..], k, base);
    }
  }

  /** Reading back the characters of a digit sequence gives its value. */
  lemma {:induction false} ParseMsbChars(ds: seq<nat>, base: nat)
    requires 2 <= base <= 36 && forall i :: 0 <= i < |ds| ==> ds[i] < base
    ensures Parse(MsbChars(ds), base) == LowValue(ds, base)
  {
    if |ds| > 0 {
      var text := MsbChars(ds);
      assert text[.. |text| - 1] == MsbChars(ds[1..]);
      ParseMsbChars(ds[1..], base);
      CharDigitOfDigitChar(ds[0]);
      assert Parse(text, base) == LowValue(ds[1..], base) * base + ds[0];
    }
  }

  /** put_num's text read back in the same base is the number. */
  lemma NumeralRoundTrip(n: nat, base: nat)
    requires 2 <= base <= 36
    ensures Parse(Numeral(n, base), base) == n
  {
    var low := LowDigits(n, base);
    LowDigitsValue(n, base);
    if |low| < MinDigits(base) {
      LeadingZerosValue(low, MinDigits(base) - |low|, base);
    }
    ParseMsbChars(Padded(n, base), base);
  }

  // ---------------------------------------------------------------------
  // Lengths

  lemma {:induction false} LowDigitsBound(n: nat, base: nat, k: nat)
    requires base >= 2 && 1 <= k && n < Pow2(k)
    ensures |LowDigits(n, base)| <= k
    decreases k
  {
    if n >= base {
      var q := n / base;
      assert q * base <= n;
      assert q * 2 <= q * base;
      assert Pow2(k) == 2 * Pow2(k - 1);
      LowDigitsBound(q, base, k - 1);
    }
  }

  /** The number 2^k has k + 1 binary digits. */
  lemma {:induction false} PowerOfTwoDigits(k: nat)
    ensures |LowDigits(Pow2(k), 2)| == k + 1
  {
    if k > 0 {
      assert Pow2(k) / 2 == Pow2(k - 1);
      PowerOfTwoDigits(k - 1);
    }
  }

  /** In base 2, 2^31 fills all 32 characters of put_num's buffer, so the
      NUL is stored one past its end. */
  lemma TerminatorPastBuffer()
    ensures TerminatorIndex(Pow2(31), 2) == PUT_NUM_BUFFER
  {
    PowerOfTwoDigits(31);
  }

  /** Every 32-bit number fits the buffer with its NUL in the bases the
      bootloader passes (10 and 16), indeed in every base from 4 on. */
  lemma {:induction false} TerminatorInsideBuffer(n: u32, base: nat)
    requires 4 <= base <= 36
    ensures TerminatorIndex(n, base) < PUT_NUM_BUFFER
  {
    Pow2Values();
    QuaternaryBound(n, base, 16);
  }

  lemma {:induction false} QuaternaryBound(n: nat, base: nat, k: nat)
    requires base >= 4 && 1 <= k && n < Pow2(2 * k)
    ensures |LowDigits(n, base)| <= k
    decreases k
  {
    if n >= base {
      var q := n / base;
      assert q * base <= n;
      assert q * 4 <= q * base;
      assert Pow2(2 * k) == 4 * Pow2(2 * (k - 1));
      QuaternaryBound(q, base, k - 1);
    }
  }

  // ---------------------------------------------------------------------
  // The formatter

  /** A 32-bit number has at most 32 digits after padding in any base. */
  lemma DigitsFit(n: u32, base: nat)
    requires 2 <= base <= 36
    ensures |Padded(n, base)| <= PUT_NUM_BUFFER
  {
    Pow2Values();
    LowDigitsBound(n, base, 32);
  }

  lemma DivStep(n: nat, b: nat)
    requires b >= 2
    ensures n >= b ==> 0 < n / b < n
    ensures n < b ==> n / b == 0 && n % b == n
  {
  }

  lemma PaddedShape(n: nat, base: nat)
    requires 2 <= base <= 36
    ensures var low, p := LowDigits(n, base), Padded(n, base);
      && |p| == (if MinDigits(base) > |low| then MinDigits(base) else |low|)
      && (forall i :: 0 <= i < |low| ==> p[i] == low[i])
      && (forall i :: |low| <= i < |p| ==> p[i] == 0)
  {
  }

  /** The do-while loop of put_num: the digits of `number`, least
      significant first, from the start of `buffer`. */
  method FillDigits(buffer: array<char>, number: nat, base: nat) returns (d: nat)
    requires 2 <= base <= 36 && |LowDigits(number, base)| <= buffer.Length
    modifies buffer
    ensures d == |LowDigits(number, base)|
    ensures forall i :: 0 <= i < d ==> buffer[i] == DigitChar(LowDigits(number, base)[i])
  {
    ghost var all := LowDigits(number, base);
    var n: nat := number;
    d := 0;
    while true
      invariant d < |all| && all[d..] == LowDigits(n, base)
      invariant forall i :: 0 <= i < d ==> buffer[i] == DigitChar(all[i])
      decreases n
    {
      ghost var digits := LowDigits(n, base);
      var q, r := n / base, n % base;
      DivStep(n, base);
      assert all[d] == digits[0] == r;
      buffer[d] := DigitChar(r);
      d := d + 1;
      if q == 0 {
        break;
      }
      assert all[d..] == digits[1..] == LowDigits(q, base);
      n := q;
    }
  }

  /** put_num's padding loop: zeros up to `width` digits. */
  method PadZeros(buffer: array<char>, d: nat, width: nat, ghost ds: seq<nat>) returns (e: nat)
    requires d <= |ds| <= buffer.Length && |ds| == if width > d then width else d
    requires forall i :: d <= i < |ds| ==> ds[i] == 0
    requires forall i :: 0 <= i < |ds| ==> ds[i] < 36
    requires forall i :: 0 <= i < d ==> buffer[i] == DigitChar(ds[i])
    modifies buffer
    ensures e == |ds|
    ensures forall i :: 0 <= i < e ==> buffer[i] == DigitChar(ds[i])
  {
    e := d;
    while e < width
      invariant d <= e <= |ds|
      invariant forall i :: 0 <= i < e ==> buffer[i] == DigitChar(ds[i])
    {
      buffer[e] := '0';
      e := e + 1;
    }
  }

  /** put_num's reversal of the first `d` characters of `buffer`. */
  method Reverse(buffer: array<char>, d: nat)
    requires d <= buffer.Length
    modifies buffer
    ensures forall k :: 0 <= k < d ==> buffer[k] == old(buffer[d - 1 - k])
    ensures forall k :: d <= k < buffer.Length ==> buffer[k] == old(buffer[k])
  {
    var i := 0;
    while i < d / 2
      invariant i <= d / 2
      invariant forall k :: 0 <= k < i ==> buffer[k] == old(buffer[d - 1 - k]) && buffer[d - 1 - k] == old(buffer[k])
      invariant forall k :: i <= k < d - i ==> buffer[k] == old(buffer[k])
      invariant forall k :: d <= k < buffer.Length ==> buffer[k] == old(buffer[k])
    {
      var c := buffer[i];
      buffer[i] := buffer[d - i - 1];
      buffer[d - i - 1] := c;
      i := i + 1;
    }
  }

  lemma ReversedDigits(text: seq<char>, ds: seq<nat>)
    requires |text| == |ds| && forall i :: 0 <= i < |ds| ==> ds[i] < 36
    requires forall k :: 0 <= k < |text| ==> text[k] == DigitChar(ds[|ds| - 1 - k])
    ensures text == MsbChars(ds)
  {
    forall k | 0 <= k < |text|
      ensures text[k] == MsbChars(ds)[k]
    {
      MsbCharsAt(ds, k);
    }
  }

  /** put_num: the digits least significant first, the zero padding, the
      in-place reversal and the NUL, in a buffer of PUT_NUM_BUFFER + 1
      characters. The result is the text before the NUL. */
  method PutNum(number: u32, base: nat) returns (text: seq<char>)
    requires 2 <= base <= 36
    ensures text == Numeral(number, base)
  {
    var buffer := new char[PUT_NUM_BUFFER + 1];
    ghost var padded := Padded(number, base);
    DigitsFit(number, base);
    PaddedShape(number, base);
    var d := FillDigits(buffer, number, base);
    if base == 2 {
      d := PadZeros(buffer, d, 8, padded);
    } else if base == 16 {
      d := PadZeros(buffer, d, 2, padded);
    }
    assert d == |padded|;
    Reverse(buffer, d);
    buffer[d] := '\0';
    text := buffer[.. d];
    ReversedDigits(text, padded);
  }
}
