// The older timer driver (firmware/src/timer.c): separate enable and
// disable calls, and millisecond and microsecond readings cut to 32 bits.
// It drives the same registers as the HAL timer block.

module TimerLegacy {

  import opened Words
  import opened Bits
  import HalTime

  type TimerId = HalTime.TimerId
  type Reg8 = HalTime.Reg8

  class Timers {
    var reset: Reg8
    var select: nat
    var interval: u32
    var millisCounter: u64
    var microsCounter: u64
    var nanosCounter: u64

    constructor (reset0: Reg8, ms: u64, us: u64, ns: u64)
      ensures reset == reset0 && select == 0 && interval == 0
      ensures millisCounter == ms && microsCounter == us && nanosCounter == ns
    {
      reset := reset0;
      select := 0;
      interval := 0;
      millisCounter := ms;
      microsCounter := us;
      nanosCounter := ns;
    }

    /** millis and micros return the low 32 bits of the 64-bit counters. */
    function Millis(): (r: u32)
      reads this
      ensures r < WORD && (r - millisCounter) % WORD == 0
      ensures millisCounter < WORD ==> r == millisCounter
    {
      millisCounter % WORD
    }

    function Micros(): (r: u32)
      reads this
      ensures r < WORD && (r - microsCounter) % WORD == 0
      ensures microsCounter < WORD ==> r == microsCounter
    {
      microsCounter % WORD
    }

    /** nanos keeps all 64 bits. */
    function Nanos(): (r: u64)
      reads this
      ensures r == nanosCounter
    {
      nanosCounter
    }

    /** timer_enable: clears only bit `t` of the reset register. */
    method Enable(t: TimerId)
      modifies this`reset
      ensures !reset[t]
      ensures forall j :: 0 <= j < HalTime.REG8 && j != t ==> reset[j] == old(reset[j])
    {
      reset := And(reset, Not(Single(HalTime.REG8, t)));
    }

    /** timer_disable: sets only bit `t` of the reset register. */
    method Disable(t: TimerId)
      modifies this`reset
      ensures reset[t]
      ensures forall j :: 0 <= j < HalTime.REG8 && j != t ==> reset[j] == old(reset[j])
    {
      reset := Or(And(reset, Not(Single(HalTime.REG8, t))), Single(HalTime.REG8, t));
    }

    /** timer_set_interval: selects the timer, then writes the interval cut
        to 32 bits. */
    method SetInterval(t: TimerId, intervalUs: u64)
      modifies this`select, this`interval
      ensures select == t
      ensures interval == intervalUs % WORD
    {
      select := t;
      interval := intervalUs % WORD;
    }
  }

  /** Disabling and then enabling a timer leaves its bit clear and every
      other bit as it was before the disable. */
  lemma DisableThenEnable(reg: Reg8, t: TimerId)
    ensures HalTime.ResetAfter(HalTime.ResetAfter(reg, t, false), t, true)
      == HalTime.ResetAfter(reg, t, true)
  {
    var a := HalTime.ResetAfter(HalTime.ResetAfter(reg, t, false), t, true);
    var b := HalTime.ResetAfter(reg, t, true);
    assert forall j :: 0 <= j < HalTime.REG8 ==> a[j] == b[j];
  }
}
