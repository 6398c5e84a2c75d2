// The hexadecimal display example (firmware/examples/02_seven_segm_hex.c):
// each loop shows a counter on the hex display, then counts it up, going
// from 9 back to 1.

module Seg02 {
  import opened Words
  import HalGpio

  /** The counter after one loop: incremented as a u16, reset to 1 when it
      reaches 10. */
  function Next(c: u16): (r: u16)
  {
    var inc := (c + 1) % 0x1_0000;
    if inc == 10 then 1 else inc
  }

  /** The counter before loop k (from 0), starting at 1. */
  function Shown(k: nat): (r: u16)
  {
    if k == 0 then 1 else Next(Shown(k - 1))
  }

  /** Loop k shows 1 + k mod 9: every value shown lies in 1..9, and the
      sequence repeats with period 9. */
  lemma {:induction false} ShownValue(k: nat)
    ensures Shown(k) == 1 + k % 9
  {
    if k > 0 {
      ShownValue(k - 1);
      var p := (k - 1) % 9;
      ModUnique(k - 1, (k - 1) / 9, p, 9);
      if p < 8 {
        ModUnique(k, (k - 1) / 9, p + 1, 9);
      } else {
        ModUnique(k, (k - 1) / 9 + 1, 0, 9);
      }
    }
  }

  lemma ShownPeriodic(k: nat)
    ensures 1 <= Shown(k) <= 9
    ensures Shown(k + 9) == Shown(k)
  {
    ShownValue(k);
    ShownValue(k + 9);
    ModUnique(k + 9, k / 9 + 1, k % 9, 9);
  }

  class Example {
    /** The static `counter`. */
    var counter: u16
    const gpio: HalGpio.Gpio

    constructor (board: HalGpio.Gpio)
      ensures counter == 1 && gpio == board
    {
      counter := 1;
      gpio := board;
    }

    /** loop: show the counter, then step it. */
    method Loop()
      modifies this`counter, gpio`hex
      ensures gpio.hex == old(counter)
      ensures counter == Next(old(counter))
    {
      gpio.SetHex(counter);
      counter := (counter + 1) % 0x1_0000;
      if counter == 10 {
        counter := 1;
      }
    }
  }
}
