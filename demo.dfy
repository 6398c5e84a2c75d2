// Two interrupt handlers of the demo firmware (firmware/src/demo.c): a
// counter on the hex display driven by timer 1 and the buttons, and a traffic
// light on the semaphore LEDs driven by timer 2.
//
// The handlers receive the whole mask of pending sources (the dispatcher in
// firmware/src/hal/irq.c passes `irqs` to every handler it calls), and compare
// it with single sources. The source numbers are those of
// firmware/include/irq.h; the HAL's own interrupt header is not part of this
// model. millis() is the parameter `now`, read once per interrupt.

module Demo {
  import opened Words
  import HalGpio

  type DigitalState = HalGpio.DigitalState

  const IRQ_TIMER0: u32 := 0x1
  const IRQ_TIMER1: u32 := 0x2
  const IRQ_TIMER2: u32 := 0x4
  const IRQ_BUTTON_EVENT: u32 := 0x4000_0000

  /** A button event is accepted only more than this many milliseconds after
      the last accepted one. */
  const DEBOUNCE_MS: nat := 100

  // ---------------------------------------------------------------------
  // update_counter

  /** update_counter's statics. `counter` is a usize. */
  datatype Counter = Counter(debounce: u64, running: bool, counter: u32)

  const INITIAL: Counter := Counter(0, true, 1)

  /** The statics after update_counter runs for the pending mask `irq`, at
      time `now`, with the center, up and down buttons reading as given. */
  function Update(c: Counter, irq: u32, now: u64, center: DigitalState, up: DigitalState, down: DigitalState): Counter
  {
    if irq == IRQ_TIMER1 then
      if c.running then c.(counter := (c.counter + 1) % WORD) else c
    else if irq == IRQ_BUTTON_EVENT && Sub64(now, c.debounce) > DEBOUNCE_MS then
      var d := c.(debounce := now);
      if center == HalGpio.HIGH then d.(running := !d.running)
      else if up == HalGpio.HIGH then d.(counter := (d.counter + 1) % WORD)
      else if down == HalGpio.HIGH then d.(counter := (d.counter - 1) % WORD)
      else d
    else c
  }

  /** Timer 1 alone counts up (modulo 2^32) while running and does nothing
      while stopped; it never touches the debounce time or the run flag. */
  lemma TimerTick(c: Counter, now: u64, center: DigitalState, up: DigitalState, down: DigitalState)
    ensures var n := Update(c, IRQ_TIMER1, now, center, up, down);
      && n.debounce == c.debounce && n.running == c.running
      && (c.running && c.counter < WORD - 1 ==> n.counter == c.counter + 1)
      && (c.running && c.counter == WORD - 1 ==> n.counter == 0)
      && (!c.running ==> n.counter == c.counter)
  {
  }

  /** Any other mask is ignored: in particular timer 1 together with another
      pending source, which then loses its tick. */
  lemma OtherMasksIgnored(c: Counter, irq: u32, now: u64, center: DigitalState, up: DigitalState, down: DigitalState)
    requires irq != IRQ_TIMER1 && irq != IRQ_BUTTON_EVENT
    ensures Update(c, irq, now, center, up, down) == c
    ensures Update(c, IRQ_TIMER1 + IRQ_TIMER2, now, center, up, down) == c
  {
  }

  /** A button event within 100 ms of the last accepted one changes
      nothing. */
  lemma ButtonBounce(c: Counter, now: u64, center: DigitalState, up: DigitalState, down: DigitalState)
    requires Sub64(now, c.debounce) <= DEBOUNCE_MS
    ensures Update(c, IRQ_BUTTON_EVENT, now, center, up, down) == c
  {
  }

  /** An accepted button event records the time, then the first pressed
      button in the order center, up, down acts: center toggles running, up
      counts up, down counts down (modulo 2^32); no button pressed changes
      only the time. */
  lemma ButtonPriority(c: Counter, now: u64, center: DigitalState, up: DigitalState, down: DigitalState)
    requires Sub64(now, c.debounce) > DEBOUNCE_MS
    ensures var n := Update(c, IRQ_BUTTON_EVENT, now, center, up, down);
      && n.debounce == now
      && (center == HalGpio.HIGH ==> n.running == !c.running && n.counter == c.counter)
      && (center == HalGpio.LOW && up == HalGpio.HIGH ==> n.running == c.running && (n.counter - c.counter - 1) % WORD == 0)
      && (center == HalGpio.LOW && up == HalGpio.LOW && down == HalGpio.HIGH ==>
            n.running == c.running && (n.counter - c.counter + 1) % WORD == 0)
      && (center == HalGpio.LOW && up == HalGpio.LOW && down == HalGpio.LOW ==> n == c.(debounce := now))
  {
  }

  /** Pressing up and then down, both accepted, restores the counter, also
      across the 32-bit wrap. */
  lemma UpThenDown(c: Counter, t1: u64, t2: u64)
    requires Sub64(t1, c.debounce) > DEBOUNCE_MS && Sub64(t2, t1) > DEBOUNCE_MS
    ensures var up := Update(c, IRQ_BUTTON_EVENT, t1, HalGpio.LOW, HalGpio.HIGH, HalGpio.LOW);
      Update(up, IRQ_BUTTON_EVENT, t2, HalGpio.LOW, HalGpio.LOW, HalGpio.HIGH).counter == c.counter
  {
    var n := (c.counter + 1) % WORD;
    if c.counter < WORD - 1 {
      assert n == c.counter + 1;
    } else {
      assert n == 0;
    }
  }

  // ---------------------------------------------------------------------
  // semaphore

  /** The lamps lit. */
  datatype Lamps = Lamps(red: bool, yellow: bool, green: bool)

  /** The lights semaphore shows in each state. */
  function LampsFor(state: nat): (l: Lamps)
    requires state < 4
  {
    match state
    case 0 => Lamps(true, false, false)
    case 1 => Lamps(true, true, false)
    case 2 => Lamps(false, false, true)
    case _ => Lamps(false, true, false)
  }

  /** The state after one call: `(state + 1) & 0b11`. */
  function NextState(state: u8): (r: u8)
    ensures r < 4 && (state < 3 ==> r == state + 1) && (state == 3 ==> r == 0)
  {
    (state + 1) % 4
  }

  /** The state after k calls from the initial 0. */
  function StateAfter(k: nat): (r: u8)
  {
    if k == 0 then 0 else NextState(StateAfter(k - 1))
  }

  /** The state cycles 0, 1, 2, 3, 0, ...: after k calls it is k mod 4. */
  lemma {:induction false} StateCycle(k: nat)
    ensures StateAfter(k) == k % 4
  {
    if k > 0 {
      StateCycle(k - 1);
      var p := (k - 1) % 4;
      ModUnique(k - 1, (k - 1) / 4, p, 4);
      if p < 3 {
        ModUnique(k, (k - 1) / 4, p + 1, 4);
      } else {
        ModUnique(k, (k - 1) / 4 + 1, 0, 4);
      }
    }
  }

  /** Along the cycle red and green are never lit together, green follows
      red with yellow, and red follows yellow alone. */
  lemma LightsSafe(k: nat)
    ensures var l := LampsFor(StateAfter(k));
      && !(l.red && l.green)
      && (l.green ==> LampsFor(StateAfter(k - 1)) == Lamps(true, true, false))
      && (k > 0 && l == Lamps(true, false, false) ==> LampsFor(StateAfter(k - 1)) == Lamps(false, true, false))
  {
    StateCycle(k);
    if k > 0 {
      StateCycle(k - 1);
      var p := (k - 1) % 4;
      ModUnique(k - 1, (k - 1) / 4, p, 4);
      if p < 3 {
        ModUnique(k, (k - 1) / 4, p + 1, 4);
      } else {
        ModUnique(k, (k - 1) / 4 + 1, 0, 4);
      }
    }
  }

  class Handlers {
    /** update_counter's statics. */
    var debounce: u64
    var running: bool
    var counter: u32
    /** semaphore's static state. */
    var state: u8
    const gpio: HalGpio.Gpio

    constructor (board: HalGpio.Gpio)
      ensures Counter(debounce, running, counter) == INITIAL && state == 0 && gpio == board
    {
      debounce, running, counter := 0, true, 1;
      state := 0;
      gpio := board;
    }

    /** update_counter: the statics step as Update says, then the display
        shows the counter truncated to 16 bits and LED 0 shows whether the
        counter runs. */
    method UpdateCounter(irq: u32, now: u64)
      modifies this`debounce, this`running, this`counter, gpio`hex, gpio`ledSem
      ensures Counter(debounce, running, counter) == Update(old(Counter(debounce, running, counter)), irq, now,
        old(gpio.GetBtn(HalGpio.BtnCenter)), old(gpio.GetBtn(HalGpio.BtnUp)), old(gpio.GetBtn(HalGpio.BtnDown)))
      ensures gpio.hex == counter % 0x1_0000
      ensures gpio.ledSem[0] == running
      ensures forall j :: 0 < j < HalGpio.REG16 ==> gpio.ledSem[j] == old(gpio.ledSem[j])
    {
      StepCounter(irq, now);
      gpio.SetHex(counter % 0x1_0000);
      gpio.SetLed(0, if running then HalGpio.HIGH else HalGpio.LOW);
    }

    /** update_counter's branches on the interrupt and the buttons, which
        change only the statics. */
    method StepCounter(irq: u32, now: u64)
      modifies this`debounce, this`running, this`counter
      ensures Counter(debounce, running, counter) == Update(old(Counter(debounce, running, counter)), irq, now,
        gpio.GetBtn(HalGpio.BtnCenter), gpio.GetBtn(HalGpio.BtnUp), gpio.GetBtn(HalGpio.BtnDown))
    {
      if irq == IRQ_TIMER1 {
        if running {
          counter := (counter + 1) % WORD;
        }
      } else if irq == IRQ_BUTTON_EVENT && (now - debounce) % WORD64 > DEBOUNCE_MS {
        debounce := now;
        if gpio.GetBtn(HalGpio.BtnCenter) == HalGpio.HIGH {
          running := !running;
        } else if gpio.GetBtn(HalGpio.BtnUp) == HalGpio.HIGH {
          counter := (counter + 1) % WORD;
        } else if gpio.GetBtn(HalGpio.BtnDown) == HalGpio.HIGH {
          counter := (counter - 1) % WORD;
        }
      }
    }

    /** semaphore: lights the lamps of the current state, each lamp by its
        own bit, and moves to the next state. */
    method Semaphore()
      modifies this`state, gpio`ledSem
      ensures state == NextState(old(state))
      ensures old(state) < 4 ==> var l := LampsFor(old(state));
        && gpio.ledSem[(HalGpio.SemRed).Bit()] == l.red
        && gpio.ledSem[(HalGpio.SemYellow).Bit()] == l.yellow
        && gpio.ledSem[(HalGpio.SemGreen).Bit()] == l.green
      ensures forall j :: 0 <= j < HalGpio.REG16 && j !in {8, 9, 10} ==> gpio.ledSem[j] == old(gpio.ledSem[j])
      ensures old(state) >= 4 ==> gpio.ledSem == old(gpio.ledSem)
    {
      if state == 0 {
        gpio.SetSem(HalGpio.SemRed, HalGpio.HIGH);
        gpio.SetSem(HalGpio.SemYellow, HalGpio.LOW);
        gpio.SetSem(HalGpio.SemGreen, HalGpio.LOW);
      } else if state == 1 {
        gpio.SetSem(HalGpio.SemRed, HalGpio.HIGH);
        gpio.SetSem(HalGpio.SemYellow, HalGpio.HIGH);
        gpio.SetSem(HalGpio.SemGreen, HalGpio.LOW);
      } else if state == 2 {
        gpio.SetSem(HalGpio.SemRed, HalGpio.LOW);
        gpio.SetSem(HalGpio.SemYellow, HalGpio.LOW);
        gpio.SetSem(HalGpio.SemGreen, HalGpio.HIGH);
      } else if state == 3 {
        gpio.SetSem(HalGpio.SemRed, HalGpio.LOW);
        gpio.SetSem(HalGpio.SemYellow, HalGpio.HIGH);
        gpio.SetSem(HalGpio.SemGreen, HalGpio.LOW);
      }
      state := (state + 1) % 4;
    }
  }
}
