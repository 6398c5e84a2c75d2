// Timer block of the hardware abstraction layer (firmware/src/hal/time.c).
//
// Four interval timers share an 8-bit reset register (a set bit holds that
// timer in reset, i.e. disabled), an 8-bit select register and a 32-bit
// interval register. Free-running 64-bit counters give the time since
// power-on.

module HalTime {

  import opened Words
  import opened Bits

  /** The four timers, numbered as in the hardware. */
  type TimerId = t: nat | t < 4

  const TIMER0: TimerId := 0
  const TIMER1: TimerId := 1
  const TIMER2: TimerId := 2
  const TIMER3: TimerId := 3

  /** Width of the reset and select registers. */
  const REG8: nat := 8

  /** An 8-bit register. */
  type Reg8 = b: Bits | |b| == REG8 witness Zero(REG8)

  /** The reset register after timer_set_enabled(t, enabled): enabling
      clears the timer's bit, disabling clears it and then sets it. */
  function ResetAfter(reg: Reg8, t: TimerId, enabled: bool): (r: Reg8)
    ensures r[t] == !enabled
    ensures forall j :: 0 <= j < REG8 && j != t ==> r[j] == reg[j]
  {
    if enabled then And(reg, Not(Single(REG8, t)))
    else Or(And(reg, Not(Single(REG8, t))), Single(REG8, t))
  }

  /** timer_get_enabled: a timer runs while its reset bit is clear. */
  function IsEnabled(reg: Reg8, t: TimerId): (b: bool)
    ensures b <==> !reg[t]
  {
    TestBit(ShiftRight(reg, t), 0);
    !NonZero(And(ShiftRight(reg, t), Single(REG8, 0)))
  }

  /** Reading the state back gives the state last written. */
  lemma GetAfterSet(reg: Reg8, t: TimerId, enabled: bool)
    ensures IsEnabled(ResetAfter(reg, t, enabled), t) == enabled
  {
  }

  /** Setting one timer's state does not change any other timer's state. */
  lemma SetLeavesOthers(reg: Reg8, t: TimerId, u: TimerId, enabled: bool)
    requires t != u
    ensures IsEnabled(ResetAfter(reg, t, enabled), u) == IsEnabled(reg, u)
  {
  }

  /** Writing the same state twice is the same as writing it once. */
  lemma SetIdempotent(reg: Reg8, t: TimerId, enabled: bool)
    ensures ResetAfter(ResetAfter(reg, t, enabled), t, enabled) == ResetAfter(reg, t, enabled)
  {
    var once := ResetAfter(reg, t, enabled);
    var twice := ResetAfter(once, t, enabled);
    assert forall j :: 0 <= j < REG8 ==> twice[j] == once[j];
  }

  class Timers {
    /** The reset register: bit t set holds timer t disabled. */
    var reset: Reg8
    /** The timer whose interval the next interval write sets. */
    var select: nat
    /** The interval register, in microseconds. */
    var interval: u32
    /** The free-running counters, read as inputs. */
    var millisCounter: u64
    var microsCounter: u64
    var nanosCounter: u64

    constructor (reset0: Reg8, ms: u64, us: u64, ns: u64)
      ensures reset == reset0 && select == 0 && interval == 0
      ensures millisCounter == ms && microsCounter == us && nanosCounter == ns
    {
      reset := reset0;
      select := 0;
      interval := 0;
      millisCounter := ms;
      microsCounter := us;
      nanosCounter := ns;
    }

    /** millis, micros and nanos return the full 64-bit counters. */
    function Millis(): (r: u64)
      reads this
      ensures r == millisCounter
    {
      millisCounter
    }

    function Micros(): (r: u64)
      reads this
      ensures r == microsCounter
    {
      microsCounter
    }

    function Nanos(): (r: u64)
      reads this
      ensures r == nanosCounter
    {
      nanosCounter
    }

    /** timer_set_enabled: clears (enables) or sets (disables) bit t of the
        reset register and leaves the other bits alone. */
    method SetEnabled(t: TimerId, enabled: bool)
      modifies this`reset
      ensures reset == ResetAfter(old(reset), t, enabled)
      ensures GetEnabled(t) == enabled
      ensures forall u: TimerId :: u != t ==> GetEnabled(u) == old(GetEnabled(u))
    {
      if enabled {
        reset := And(reset, Not(Single(REG8, t)));
      } else {
        reset := Or(And(reset, Not(Single(REG8, t))), Single(REG8, t));
      }
    }

    /** timer_get_enabled. */
    function GetEnabled(t: TimerId): bool
      reads this
    {
      IsEnabled(reset, t)
    }

    /** timer_set_interval: selects the timer, then writes the interval,
        truncated to the 32-bit interval register. */
    method SetInterval(t: TimerId, intervalUs: u64)
      modifies this`select, this`interval
      ensures select == t
      ensures interval == intervalUs % WORD
      ensures intervalUs < WORD ==> interval == intervalUs
    {
      select := t;
      interval := intervalUs % WORD;
    }
  }
}
