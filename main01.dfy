// The first stand-alone firmware (firmware/01_main.c): its own register
// accessors and a UART line reader, written directly against the
// memory-mapped registers.
//
// UART0 is modelled as `rx`, the bytes that will still arrive (a byte is
// ready when `rx` is not empty, and reading it takes it), and `tx`, the bytes
// written to the transmit register.

module Main01 {
  import opened Words
  import opened Bits
  import HalGpio
  import GpioLegacy

  type Reg8 = GpioLegacy.Reg8
  type Reg16 = HalGpio.Reg16
  type DigitalState = HalGpio.DigitalState
  type Button = HalGpio.Button

  const NEWLINE: u8 := 0x0A
  const NUL: u8 := 0x00

  /** The line getstr stores from the bytes `rx`: up to the first newline
      or `max` characters, whichever comes first. */
  function Line(rx: seq<u8>, max: nat): (line: seq<u8>)
    requires Available(rx, max)
    ensures |line| <= max && |line| <= |rx|
    decreases max
  {
    if max == 0 || rx[0] == NEWLINE then []
    else [rx[0]] + Line(rx[1..], max - 1)
  }

  /** The line is the input up to the first newline, cut at `max`
      characters: it holds no newline, and it ends before `max` only at a
      newline. */
  lemma {:induction false} LineSpec(rx: seq<u8>, max: nat)
    requires Available(rx, max)
    ensures var line := Line(rx, max);
      && line == rx[.. |line|]
      && NEWLINE !in line
      && (|line| < max ==> rx[|line|] == NEWLINE)
    decreases max
  {
    if max > 0 && rx[0] != NEWLINE {
      LineSpec(rx[1..], max - 1);
    }
  }

  /** Enough input for getstr to return: `max` bytes, or a newline. */
  predicate Available(rx: seq<u8>, max: nat)
  {
    max <= |rx| || NEWLINE in rx
  }

  /** How many bytes getstr takes: the line, and the newline that ended it
      if it ended before `max`. */
  function Consumed(rx: seq<u8>, max: nat): (n: nat)
    requires Available(rx, max)
    ensures n <= |rx|
  {
    LineSpec(rx, max);
    var k := |Line(rx, max)|;
    if k < max then k + 1 else k
  }

  /** The buffer after getstr stored `line` at its start, followed by a NUL
      when the line is shorter than `max`. */
  function Stored(buffer: seq<u8>, line: seq<u8>, max: nat): (r: seq<u8>)
    requires |line| <= max <= |buffer|
    ensures |r| == |buffer| && r[.. |line|] == line
    ensures |line| < max ==> r[|line|] == NUL && r[|line| + 1 ..] == buffer[|line| + 1 ..]
    ensures |line| == max ==> r[|line| ..] == buffer[|line| ..]
  {
    if |line| < max then line + [NUL] + buffer[|line| + 1 ..] else line + buffer[|line| ..]
  }

  /** Storing the next character over the unwritten rest of a buffer. */
  lemma StoreNext(stored: seq<u8>, rest: seq<u8>, c: u8)
    requires |rest| > 0
    ensures (stored + rest)[|stored| := c] == stored + [c] + rest[1..]
  {
  }

  /** While no newline has come and fewer than `max` characters are
      stored, another byte arrives. */
  lemma MoreInput(rx: seq<u8>, max: nat, i: nat)
    requires Available(rx, max) && i < max && i <= |rx| && NEWLINE !in rx[.. i]
    ensures i < |rx|
  {
    assert forall k :: 0 <= k < i ==> rx[.. i][k] == rx[k];
  }

  /** The line is exactly the bytes before the point where getstr stops:
      `max` characters with no newline, or the bytes before a newline. */
  lemma {:induction false} LineEndsAt(rx: seq<u8>, max: nat, j: nat)
    requires Available(rx, max) && j <= max && j <= |rx| && NEWLINE !in rx[.. j]
    requires j == max || (j < |rx| && rx[j] == NEWLINE)
    ensures Line(rx, max) == rx[.. j]
    decreases max
  {
    if max > 0 && j > 0 {
      assert rx[0] in rx[.. j];
      assert rx[1..][.. j - 1] == rx[.. j][1..];
      LineEndsAt(rx[1..], max - 1, j - 1);
    }
  }

  class Board {
    var led: Reg8
    var hex: u16
    var segm: u32
    /** Switches in bits 0-7, buttons in bits 8-12 (read-only input). */
    var btnSw: Reg16
    var rx: seq<u8>
    var tx: seq<u8>

    constructor (inputs: Reg16, input: seq<u8>)
      ensures led == Zero(GpioLegacy.REG8) && btnSw == inputs && rx == input && tx == []
    {
      led := Zero(GpioLegacy.REG8);
      hex := 0;
      segm := 0;
      btnSw := inputs;
      rx := input;
      tx := [];
    }

    /** putled: `__gpio_led &= 1 << index`; the state is ignored, LED
        `index` keeps its value and every other LED goes dark. */
    method PutLed(index: nat, state: DigitalState)
      modifies this`led
      ensures led == GpioLegacy.LedAfter(old(led), index)
    {
      led := And(led, Single(GpioLegacy.REG8, index % 32));
    }

    method PutHex(value: u16)
      modifies this`hex
      ensures hex == value
    {
      hex := value;
    }

    method Put7Segm(value: u32)
      modifies this`segm
      ensures segm == value
    {
      segm := value;
    }

    /** getbtn: the same expression as the older driver's get_btn, testing
        bit `button + 8` with the button's mask value. */
    function GetBtn(button: Button): (s: DigitalState)
      reads this
      ensures s == GpioLegacy.ButtonState(btnSw, button)
    {
      GpioLegacy.ButtonState(btnSw, button)
    }

    /** getsw: the same expression as the older driver's get_sw. */
    function GetSw(index: nat): (s: DigitalState)
      reads this
      ensures s == GpioLegacy.SwitchState(btnSw, index)
    {
      GpioLegacy.SwitchState(btnSw, index)
    }

    method PutCh(c: u8)
      modifies this`tx
      ensures tx == old(tx) + [c]
    {
      tx := tx + [c];
    }

    /** getch: when a byte is ready, stores it and returns true; otherwise
        returns false and leaves the character as it was. */
    method GetCh(character: u8) returns (got: bool, c: u8)
      modifies this`rx
      ensures got <==> |old(rx)| > 0
      ensures got ==> c == old(rx[0]) && rx == old(rx[1..])
      ensures !got ==> c == character && rx == old(rx)
    {
      if |rx| > 0 {
        c := rx[0];
        rx := rx[1..];
        got := true;
      } else {
        c := character;
        got := false;
      }
    }

    /** putstr: the first `length` characters, in order. */
    method PutStr(s: array<u8>, length: nat)
      requires length <= s.Length
      modifies this`tx
      ensures tx == old(tx) + s[.. length]
    {
      var i := 0;
      while i < length
        invariant i <= length && tx == old(tx) + s[.. i]
      {
        tx := tx + [s[i]];
        i := i + 1;
      }
    }

    /** getstr's loop: stores characters from the start of `s` until a
        newline (taken but not stored) or `maxLength` characters. */
    method ReadLine(s: array<u8>, maxLength: nat) returns (i: nat)
      requires maxLength <= s.Length && Available(rx, maxLength)
      modifies this`rx, s
      ensures i == |Line(old(rx), maxLength)|
      ensures s[..] == Line(old(rx), maxLength) + old(s[..])[i ..]
      ensures rx == old(rx)[Consumed(old(rx), maxLength) ..]
    {
      i := 0;
      while i < maxLength
        invariant i <= maxLength && i <= |old(rx)| && rx == old(rx)[i ..]
        invariant NEWLINE !in old(rx)[.. i]
        invariant s[..] == old(rx)[.. i] + old(s[..])[i ..]
      {
        MoreInput(old(rx), maxLength, i);
        var c := rx[0];
        rx := rx[1..];
        if c == NEWLINE {
          LineEndsAt(old(rx), maxLength, i);
          return;
        }
        ghost var before := s[..];
        s[i] := c;
        assert s[..] == before[i := c];
        StoreNext(old(rx)[.. i], old(s[..])[i ..], c);
        assert old(rx)[.. i + 1] == old(rx)[.. i] + [c];
        assert old(s[..])[i ..][1..] == old(s[..])[i + 1 ..];
        i := i + 1;
      }
      LineEndsAt(old(rx), maxLength, i);
    }

    /** getstr: the line from the start of `s`, NUL-terminated when there is
        room; returns its length. */
    method GetStr(s: array<u8>, maxLength: nat) returns (count: nat)
      requires maxLength <= s.Length && Available(rx, maxLength)
      modifies this`rx, s
      ensures count == |Line(old(rx), maxLength)|
      ensures s[..] == Stored(old(s[..]), Line(old(rx), maxLength), maxLength)
      ensures rx == old(rx)[Consumed(old(rx), maxLength) ..]
    {
      count := ReadLine(s, maxLength);
      if count < maxLength {
        s[count] := NUL;
      }
    }
  }
}
