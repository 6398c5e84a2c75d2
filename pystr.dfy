// The Python string built-ins the build scripts rely on: whitespace
// stripping, int() of a string and the decimal text of an integer.

module PyStr {
  import opened PyDict

  /** str.isspace(). */
  predicate IsSpace(c: char)
  {
    var x := c as int;
    x == 0x20 || 0x09 <= x <= 0x0D || 0x1C <= x <= 0x1F || x == 0x85 || x == 0xA0 || x == 0x1680
    || 0x2000 <= x <= 0x200A || x == 0x2028 || x == 0x2029 || x == 0x202F || x == 0x205F || x == 0x3000
  }

  /** str.rstrip(): the string without its trailing whitespace. */
  function RStrip(s: seq<char>): (r: seq<char>)
    ensures |r| <= |s| && r == s[.. |r|] && (r != [] ==> !IsSpace(r[|r| - 1]))
    ensures forall j :: |r| <= j < |s| ==> IsSpace(s[j])
  {
    if s != [] && IsSpace(s[|s| - 1]) then RStrip(s[.. |s| - 1]) else s
  }

  /** str.lstrip(). */
  function LStrip(s: seq<char>): (r: seq<char>)
    ensures |r| <= |s| && r == s[|s| - |r| ..] && (r != [] ==> !IsSpace(r[0]))
    ensures forall j :: 0 <= j < |s| - |r| ==> IsSpace(s[j])
  {
    if s != [] && IsSpace(s[0]) then LStrip(s[1..]) else s
  }

  /** `s.lstrip().rstrip()`, which is str.strip(). */
  function Strip(s: seq<char>): (r: seq<char>)
    ensures r != [] ==> !IsSpace(r[0]) && !IsSpace(r[|r| - 1])
  {
    RStrip(LStrip(s))
  }

  // ---------------------------------------------------------------------
  // int()

  predicate IsDigit(c: char)
  {
    '0' <= c <= '9'
  }

  /** Decimal digits, an underscore allowed only between two digits. */
  predicate DigitGroups(s: seq<char>)
  {
    && |s| > 0 && IsDigit(s[0])
    && forall j :: 0 <= j < |s| ==> IsDigit(s[j]) || (s[j] == '_' && j + 1 < |s| && IsDigit(s[j + 1]))
  }

  /** The value of the digits, underscores skipped. */
  function DecValue(s: seq<char>): nat
  {
    if s == [] then 0
    else if s[|s| - 1] == '_' then DecValue(s[.. |s| - 1])
    else DecValue(s[.. |s| - 1]) * 10 + (if IsDigit(s[|s| - 1]) then s[|s| - 1] as int - '0' as int else 0)
  }

  /** int() of a stripped string: an optional sign and digit groups; None
      where int() raises ValueError. */
  function ParseInt(s: seq<char>): Option<int>
  {
    if |s| > 0 && (s[0] == '+' || s[0] == '-') then
      var v: int := if s[0] == '-' then -(DecValue(s[1..]) as int) else DecValue(s[1..]);
      if DigitGroups(s[1..]) then Some(v) else None
    else if DigitGroups(s) then Some(DecValue(s))
    else None
  }

  /** The shortest decimal text of n. */
  function Decimal(n: nat): (s: seq<char>)
    ensures |s| > 0 && forall j :: 0 <= j < |s| ==> IsDigit(s[j])
  {
    if n < 10 then [('0' as int + n) as char] else Decimal(n / 10) + [('0' as int + n % 10) as char]
  }

  /** int() reads back the decimal text of every integer, either sign. */
  lemma {:induction false} ParseDecimal(n: nat)
    ensures ParseInt(Decimal(n)) == Some(n)
    ensures ParseInt(['-'] + Decimal(n)) == Some(-(n as int))
    ensures ParseInt(['+'] + Decimal(n)) == Some(n)
  {
    DecimalValue(n);
    assert (['-'] + Decimal(n))[1..] == Decimal(n);
    assert (['+'] + Decimal(n))[1..] == Decimal(n);
  }

  lemma {:induction false} DecimalValue(n: nat)
    ensures DecValue(Decimal(n)) == n
  {
    var s := Decimal(n);
    if n >= 10 {
      DecimalValue(n / 10);
      assert s[.. |s| - 1] == Decimal(n / 10);
    } else {
      assert s[.. |s| - 1] == [];
    }
  }

  /** `'{}'.format(n)` for an int: its decimal text, with a minus sign when
      negative. */
  function IntText(n: int): (s: seq<char>)
    ensures |s| > 0
  {
    if n < 0 then ['-'] + Decimal(-n) else Decimal(n)
  }

  /** int() reads back the text format() gives an int. */
  lemma ParseIntText(n: int)
    ensures ParseInt(IntText(n)) == Some(n)
    ensures Strip(IntText(n)) == IntText(n)
  {
    if n < 0 {
      ParseDecimal(-n);
    } else {
      ParseDecimal(n);
    }
    IntTextUnpadded(n);
    StripUnpadded(IntText(n));
  }

  /** The text of an int starts with a sign or digit and ends with a digit. */
  lemma IntTextUnpadded(n: int)
    ensures !IsSpace(IntText(n)[0]) && !IsSpace(IntText(n)[|IntText(n)| - 1])
  {
    var s := IntText(n);
    if n < 0 {
      var d := Decimal(-n);
      assert s[|s| - 1] == d[|d| - 1];
    }
  }

  /** Stripping leaves a text alone that starts and ends with no blank. */
  lemma StripUnpadded(s: seq<char>)
    requires s != [] && !IsSpace(s[0]) && !IsSpace(s[|s| - 1])
    ensures Strip(s) == s
  {
    assert LStrip(s) == s;
  }
}
