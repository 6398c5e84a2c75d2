// The memory-image converter (firmware/makehex.py): a binary read as
// little-endian 32-bit words becomes a text file with one word per line, in
// hexadecimal, padded with "0" lines up to the requested word count.
//
// The file contents are the parameter `bindata`, the word count the integer
// `nwords`, and what is written to the output file the result `text`.

module MakeHex {
  import opened Words

  const NEWLINE: char := '\n'

  /** A lowercase hexadecimal digit. */
  function HexDigit(v: nat): (c: char)
    requires v < 16
    ensures c != NEWLINE && DigitValue(c) == v
  {
    if v < 10 then ('0' as int + v) as char else ('a' as int + v - 10) as char
  }

  /** The value of a lowercase hexadecimal digit. */
  function DigitValue(c: char): nat
  {
    if '0' <= c <= '9' then c as int - '0' as int
    else if 'a' <= c <= 'f' then c as int - 'a' as int + 10
    else 0
  }

  /** The value of a string of hexadecimal digits, most significant first. */
  function HexValue(s: seq<char>): nat
  {
    if s == [] then 0 else HexValue(s[.. |s| - 1]) * 16 + DigitValue(s[|s| - 1])
  }

  /** `"%02x" % b`. */
  function Hex2(b: u8): (s: seq<char>)
    ensures |s| == 2 && NEWLINE !in s && HexValue(s) == b
  {
    var s := [HexDigit(b / 16), HexDigit(b % 16)];
    assert s[.. 1] == [s[0]] && [s[0]][.. 0] == [];
    assert HexValue([s[0]]) == b / 16;
    assert HexValue(s) == (b / 16) * 16 + b % 16;
    s
  }

  /** Appending two digits multiplies the value so far by 256. */
  lemma HexValueAppend2(a: seq<char>, b: seq<char>)
    requires |b| == 2
    ensures HexValue(a + b) == HexValue(a) * 256 + HexValue(b)
  {
    var ab := a + b;
    assert ab[.. |ab| - 1] == a + [b[0]];
    assert (a + [b[0]])[.. |a|] == a;
    assert b[.. 1] == [b[0]] && [b[0]][.. 0] == [];
    assert HexValue(a + [b[0]]) == HexValue(a) * 16 + DigitValue(b[0]);
    assert HexValue([b[0]]) == DigitValue(b[0]);
    assert HexValue(b) == DigitValue(b[0]) * 16 + DigitValue(b[1]);
    assert HexValue(ab) == HexValue(a + [b[0]]) * 16 + DigitValue(b[1]);
  }

  /** The little-endian value of word i: bytes 4i to 4i + 3. */
  function WordValue(data: seq<u8>, i: nat): nat
    requires 4 * i + 4 <= |data|
  {
    data[4 * i] as int + 0x100 * data[4 * i + 1] as int + 0x1_0000 * data[4 * i + 2] as int
      + 0x100_0000 * data[4 * i + 3] as int
  }

  /** The number of whole words in the data; one to three trailing bytes
      make no word. */
  function WordCount(data: seq<u8>): (n: nat)
    ensures 4 * n <= |data| < 4 * n + 4
  {
    |data| / 4
  }

  /** Line i of the output, without its newline: word i printed most
      significant byte first, or "0" past the data. */
  function HexLine(data: seq<u8>, i: nat): (line: seq<char>)
    ensures NEWLINE !in line
  {
    if i < WordCount(data) then
      Hex2(data[4 * i + 3]) + Hex2(data[4 * i + 2]) + Hex2(data[4 * i + 1]) + Hex2(data[4 * i])
    else "0"
  }

  /** Parsing a line as hexadecimal gives the little-endian value of its
      word, and 0 past the data. */
  lemma HexLineValue(data: seq<u8>, i: nat)
    ensures i < WordCount(data) ==> |HexLine(data, i)| == 8 && HexValue(HexLine(data, i)) == WordValue(data, i)
    ensures i >= WordCount(data) ==> HexValue(HexLine(data, i)) == 0
  {
    if i < WordCount(data) {
      var b3, b2, b1, b0 := Hex2(data[4 * i + 3]), Hex2(data[4 * i + 2]), Hex2(data[4 * i + 1]), Hex2(data[4 * i]);
      HexValueAppend2(b3, b2);
      HexValueAppend2(b3 + b2, b1);
      HexValueAppend2(b3 + b2 + b1, b0);
    } else {
      assert "0"[.. 0] == [];
    }
  }

  /** Only whole words matter: dropping the trailing bytes changes no
      line. */
  lemma TrailingBytesIgnored(data: seq<u8>, i: nat)
    ensures HexLine(data, i) == HexLine(data[.. 4 * WordCount(data)], i)
  {
    assert WordCount(data[.. 4 * WordCount(data)]) == WordCount(data);
  }

  /** Lines, each followed by a newline. */
  function Join(lines: seq<seq<char>>): (text: seq<char>)
  {
    if lines == [] then [] else lines[0] + [NEWLINE] + Join(lines[1..])
  }

  lemma {:induction false} JoinSnoc(lines: seq<seq<char>>, line: seq<char>)
    ensures Join(lines + [line]) == Join(lines) + line + [NEWLINE]
  {
    if lines != [] {
      assert (lines + [line])[1..] == lines[1..] + [line];
      JoinSnoc(lines[1..], line);
    }
  }

  /** The position of the first newline, or the length when there is
      none. */
  function FirstNewline(text: seq<char>): (k: nat)
    ensures k <= |text| && NEWLINE !in text[.. k] && (k < |text| ==> text[k] == NEWLINE)
  {
    if text == [] then 0
    else if text[0] == NEWLINE then 0
    else
      var k := 1 + FirstNewline(text[1..]);
      assert text[.. k] == [text[0]] + text[1..][.. k - 1];
      k
  }

  /** Reading a text back as lines, each ended by a newline (a last line
      without one is kept as well). */
  function ReadLines(text: seq<char>): seq<seq<char>>
    decreases |text|
  {
    if text == [] then []
    else
      var k := FirstNewline(text);
      if k == |text| then [text] else [text[.. k]] + ReadLines(text[k + 1 ..])
  }

  lemma FirstNewlineOf(line: seq<char>, rest: seq<char>)
    requires NEWLINE !in line
    ensures FirstNewline(line + [NEWLINE] + rest) == |line|
  {
    var t := line + [NEWLINE] + rest;
    assert t[|line|] == NEWLINE;
  }

  /** Lines free of newlines are read back exactly as they were joined. */
  lemma {:induction false} ReadJoin(lines: seq<seq<char>>)
    requires forall j :: 0 <= j < |lines| ==> NEWLINE !in lines[j]
    ensures ReadLines(Join(lines)) == lines
  {
    if lines != [] {
      var rest := Join(lines[1..]);
      FirstNewlineOf(lines[0], rest);
      var t := lines[0] + [NEWLINE] + rest;
      assert t[.. |lines[0]|] == lines[0];
      assert t[|lines[0]| + 1 ..] == rest;
      ReadJoin(lines[1..]);
    }
  }

  /** Lines 0 .. n - 1. */
  function HexLines(data: seq<u8>, n: nat): (lines: seq<seq<char>>)
    ensures |lines| == n && forall i :: 0 <= i < n ==> lines[i] == HexLine(data, i)
  {
    seq(n, i requires 0 <= i < n => HexLine(data, i))
  }

  lemma HexLinesSnoc(data: seq<u8>, n: nat)
    ensures HexLines(data, n + 1) == HexLines(data, n) + [HexLine(data, n)]
  {
    assert forall i :: 0 <= i < n ==> HexLines(data, n + 1)[i] == HexLines(data, n)[i];
  }

  /** The file for `nwords` requested words (range() of a negative count is
      empty). */
  function HexFile(data: seq<u8>, nwords: int): seq<char>
  {
    Join(HexLines(data, if nwords < 0 then 0 else nwords))
  }

  /** The file holds exactly `nwords` lines (none for a negative count),
      line i being HexLine(data, i). */
  lemma HexFileLines(data: seq<u8>, nwords: int)
    ensures var lines := ReadLines(HexFile(data, nwords));
      && |lines| == (if nwords < 0 then 0 else nwords)
      && forall i :: 0 <= i < |lines| ==> lines[i] == HexLine(data, i)
  {
    ReadJoin(HexLines(data, if nwords < 0 then 0 else nwords));
  }

  /** The script's loop. */
  method Convert(bindata: seq<u8>, nwords: int) returns (text: seq<char>)
    ensures text == HexFile(bindata, nwords)
  {
    text := [];
    var i := 0;
    while i < nwords
      invariant 0 <= i && (nwords >= 0 ==> i <= nwords) && (nwords < 0 ==> i == 0)
      invariant text == Join(HexLines(bindata, i))
    {
      var hexStr := WordLine(bindata, i);
      JoinSnoc(HexLines(bindata, i), hexStr);
      HexLinesSnoc(bindata, i);
      text := text + hexStr + [NEWLINE];
      i := i + 1;
    }
    assert i == if nwords < 0 then 0 else nwords;
  }

  /** The loop body's line for word i: its four bytes, most significant
      first, or "0" past the data. */
  method WordLine(bindata: seq<u8>, i: nat) returns (hexStr: seq<char>)
    ensures hexStr == HexLine(bindata, i)
  {
    if i < |bindata| / 4 {
      var w := bindata[4 * i .. 4 * i + 4];
      hexStr := Hex2(w[3]) + Hex2(w[2]) + Hex2(w[1]) + Hex2(w[0]);
    } else {
      hexStr := "0";
    }
  }
}
