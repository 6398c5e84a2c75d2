// The seven-segment example (firmware/examples/03_seven_segm_custom.c):
// each loop lights a single segment, then moves it one place up, coming back
// to the first segment after the last.

module Seg03 {
  import opened Words
  import HalGpio

  /** The symbol after one loop: shifted left in 32 bits, and 1 again once
      the bit has been shifted out. */
  function Next(s: u32): (r: u32)
  {
    var shifted := (2 * s) % WORD;
    if shifted == 0 then 1 else shifted
  }

  /** The symbol before loop k (from 0), starting at 1. */
  function Shown(k: nat): (r: u32)
  {
    if k == 0 then 1 else Next(Shown(k - 1))
  }

  /** Loop k shows bit k mod 32 alone: the symbol always has exactly one
      bit set, and the sequence repeats with period 32. */
  lemma {:induction false} ShownValue(k: nat)
    ensures Shown(k) == Pow2(k % 32)
  {
    if k > 0 {
      ShownValue(k - 1);
      NextOfPow2((k - 1) % 32);
      ModSucc(k);
    }
  }

  /** Shifting bit p moves it to bit p + 1, and the top bit back to bit 0. */
  lemma NextOfPow2(p: nat)
    requires p < 32
    ensures Pow2(p) < WORD && Next(Pow2(p)) == Pow2((p + 1) % 32)
  {
    Pow2Values();
    Pow2InWord(p);
    if p < 31 {
      Pow2InWord(p + 1);
      ModUnique(2 * Pow2(p), 0, Pow2(p + 1), WORD);
      ModUnique(p + 1, 0, p + 1, 32);
    } else {
      ModUnique(2 * Pow2(p), 1, 0, WORD);
    }
  }

  lemma ModSucc(k: nat)
    requires k > 0
    ensures k % 32 == ((k - 1) % 32 + 1) % 32
  {
    var p := (k - 1) % 32;
    ModUnique(k - 1, (k - 1) / 32, p, 32);
    if p < 31 {
      ModUnique(k, (k - 1) / 32, p + 1, 32);
      ModUnique(p + 1, 0, p + 1, 32);
    } else {
      ModUnique(k, (k - 1) / 32 + 1, 0, 32);
    }
  }

  lemma ShownSingleBit(k: nat)
    ensures exists j :: 0 <= j < 32 && Shown(k) == Pow2(j)
    ensures Shown(k + 32) == Shown(k)
  {
    ShownValue(k);
    ShownValue(k + 32);
    ModUnique(k + 32, k / 32 + 1, k % 32, 32);
  }

  class Example {
    /** The static `symbol`. */
    var symbol: u32
    const gpio: HalGpio.Gpio

    constructor (board: HalGpio.Gpio)
      ensures symbol == 1 && gpio == board
    {
      symbol := 1;
      gpio := board;
    }

    /** loop: show the symbol, then shift it. */
    method Loop()
      modifies this`symbol, gpio`segm
      ensures gpio.segm == old(symbol)
      ensures symbol == Next(old(symbol))
    {
      gpio.Set7Segm(symbol);
      symbol := (symbol * 2) % WORD;
      if symbol == 0 {
        symbol := 1;
      }
    }
  }
}
