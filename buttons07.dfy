// The button example (firmware/examples/07_interrupt_handlers.c): on every
// button interrupt each of the five buttons is sampled, debounced over
// 10 ms, and a line is printed when its state has changed. The main loop
// meanwhile rotates one lit segment over the four seven-segment digits.
//
// millis() is the parameter `now`; the handler is taken to read the clock
// once, so every call in one interrupt sees the same time. The text printf
// writes is appended to `out`.

module Buttons07 {
  import opened Words
  import HalGpio

  type DigitalState = HalGpio.DigitalState
  type Button = HalGpio.Button

  const BTN_COUNT: nat := 5
  const DEBOUNCE_TIMEOUT: nat := 10

  /** print_event's names, indexed by button number. */
  const BTN_NAME: seq<seq<char>> := ["UP", "DOWN", "LEFT", "RIGHT", "CENTER"]

  /** `(enum BUTTON)1 << button`: the button whose mask is bit `b`. */
  function ButtonOf(b: nat): (button: Button)
    requires b < BTN_COUNT
    ensures button.Index() == b && button.Value() == Pow2(b)
  {
    if b == 0 then HalGpio.BtnUp
    else if b == 1 then HalGpio.BtnDown
    else if b == 2 then HalGpio.BtnLeft
    else if b == 3 then HalGpio.BtnRight
    else HalGpio.BtnCenter
  }

  /** print_event: "Button <name> released" for LOW, "... pressed" for
      HIGH, and a newline. */
  function PrintEvent(button: nat, state: DigitalState): (text: seq<char>)
    requires button < BTN_COUNT
    ensures |text| > 15 && text[.. 7] == "Button "
    ensures text[7 .. 7 + |BTN_NAME[button]|] == BTN_NAME[button]
    ensures state == HalGpio.HIGH <==> text[|text| - 8 ..] == "pressed\n"
    ensures state == HalGpio.LOW <==> text[|text| - 9 ..] == "released\n"
  {
    var tail := if state == HalGpio.LOW then " released\n" else " pressed\n";
    var text := "Button " + BTN_NAME[button] + tail;
    assert text[|text| - 8 ..] == tail[|tail| - 8 ..];
    assert text[|text| - 9 ..] == tail[|tail| - 9 ..];
    assert tail[|tail| - 8] == if state == HalGpio.LOW then 'e' else 'p';
    text
  }

  /** One button's two static slots: the time of its last accepted sample
      and the state last reported. */
  datatype Slot = Slot(debounce: u64, state: DigitalState)

  /** process_button on one slot, given the time and the sampled state: the
      new slot and the text printed. */
  function Process(button: nat, s: Slot, now: u64, sample: DigitalState): (r: (Slot, seq<char>))
    requires button < BTN_COUNT
  {
    if Sub64(now, s.debounce) < DEBOUNCE_TIMEOUT then (s, [])
    else if s.state == sample then (Slot(now, s.state), [])
    else (Slot(now, sample), PrintEvent(button, sample))
  }

  /** Within the timeout nothing changes; past it the time is recorded
      whether or not the state changed, the stored state follows the sample,
      and a line is printed exactly when the stored state changes, naming the
      new state. */
  lemma ProcessSpec(button: nat, s: Slot, now: u64, sample: DigitalState)
    requires button < BTN_COUNT
    ensures var r := Process(button, s, now, sample);
      && (Sub64(now, s.debounce) < DEBOUNCE_TIMEOUT ==> r == (s, []))
      && (Sub64(now, s.debounce) >= DEBOUNCE_TIMEOUT ==> r.0 == Slot(now, sample))
      && (r.1 != [] <==> r.0.state != s.state)
      && (r.1 != [] ==> r.1 == PrintEvent(button, r.0.state))
  {
  }

  /** Once a sample is accepted, a second interrupt less than 10 ms later
      (without the clock wrapping) changes nothing and prints nothing, whatever
      the button then reads. */
  lemma BounceIgnored(button: nat, s: Slot, now: u64, sample: DigitalState, later: u64, bounce: DigitalState)
    requires button < BTN_COUNT
    requires Sub64(now, s.debounce) >= DEBOUNCE_TIMEOUT
    requires now <= later < now + DEBOUNCE_TIMEOUT
    ensures var first := Process(button, s, now, sample).0;
      Process(button, first, later, bounce) == (first, [])
  {
  }

  /** The states of the five buttons on the board `g`, by button number. */
  function Samples(g: HalGpio.Gpio): (r: seq<DigitalState>)
    reads g
    ensures |r| == BTN_COUNT
    ensures forall b :: 0 <= b < BTN_COUNT ==> r[b] == g.GetBtn(ButtonOf(b))
  {
    [g.GetBtn(HalGpio.BtnUp), g.GetBtn(HalGpio.BtnDown), g.GetBtn(HalGpio.BtnLeft),
     g.GetBtn(HalGpio.BtnRight), g.GetBtn(HalGpio.BtnCenter)]
  }

  /** The text printed while processing buttons 0 .. k - 1 in order. */
  function Events(slots: seq<Slot>, now: u64, samples: seq<DigitalState>, k: nat): (text: seq<char>)
    requires k <= BTN_COUNT && |slots| == BTN_COUNT && |samples| == BTN_COUNT
  {
    if k == 0 then [] else Events(slots, now, samples, k - 1) + Process(k - 1, slots[k - 1], now, samples[k - 1]).1
  }

  /** A button interrupt prints nothing exactly when no button's stored
      state changes. */
  lemma {:induction false} EventsQuiet(slots: seq<Slot>, now: u64, samples: seq<DigitalState>, k: nat)
    requires k <= BTN_COUNT && |slots| == BTN_COUNT && |samples| == BTN_COUNT
    ensures Events(slots, now, samples, k) == [] <==>
      forall b :: 0 <= b < k ==> Process(b, slots[b], now, samples[b]).0.state == slots[b].state
  {
    if k > 0 {
      EventsQuiet(slots, now, samples, k - 1);
      ProcessSpec(k - 1, slots[k - 1], now, samples[k - 1]);
    }
  }

  /** The slots of the static arrays, by button number. */
  function Zip(debounce: seq<u64>, state: seq<DigitalState>): (r: seq<Slot>)
    requires |debounce| == |state|
    ensures |r| == |debounce|
    ensures forall b :: 0 <= b < |r| ==> r[b] == Slot(debounce[b], state[b])
  {
    if |debounce| == 0 then [] else [Slot(debounce[0], state[0])] + Zip(debounce[1..], state[1..])
  }

  lemma AppendEvent(a: seq<char>, b: seq<char>, c: seq<char>)
    ensures a + b + c == a + (b + c)
  {
  }

  class Handler {
    /** The static arrays of process_button. */
    const debounce: array<u64>
    const btnState: array<DigitalState>
    const gpio: HalGpio.Gpio
    /** Everything printed so far. */
    var out: seq<char>

    ghost predicate Valid()
      reads this
    {
      debounce.Length == BTN_COUNT && btnState.Length == BTN_COUNT
    }

    /** Both static arrays start zeroed: time 0 and LOW. */
    constructor (board: HalGpio.Gpio)
      ensures Valid() && gpio == board && out == []
      ensures fresh(debounce) && fresh(btnState)
      ensures forall b :: 0 <= b < BTN_COUNT ==> debounce[b] == 0 && btnState[b] == HalGpio.LOW
    {
      debounce := new u64[BTN_COUNT](_ => 0);
      btnState := new DigitalState[BTN_COUNT](_ => HalGpio.LOW);
      gpio := board;
      out := [];
    }

    /** process_button: only this button's slots change. */
    method ProcessButton(button: nat, now: u64)
      requires Valid() && button < BTN_COUNT
      modifies debounce, btnState, this`out
      ensures var r := Process(button, old(Slot(debounce[button], btnState[button])), now, gpio.GetBtn(ButtonOf(button)));
        debounce[button] == r.0.debounce && btnState[button] == r.0.state && out == old(out) + r.1
      ensures forall b :: 0 <= b < BTN_COUNT && b != button ==>
        debounce[b] == old(debounce[b]) && btnState[b] == old(btnState[b])
    {
      if (now - debounce[button]) % WORD64 < DEBOUNCE_TIMEOUT {
        return;
      }
      debounce[button] := now;
      var newState := gpio.GetBtn(ButtonOf(button));
      if btnState[button] == newState {
        return;
      }
      btnState[button] := newState;
      out := out + PrintEvent(button, newState);
    }

    /** button_event: process_button for buttons 0 to 4 in order. */
    method ButtonEvent(now: u64)
      requires Valid()
      modifies debounce, btnState, this`out
      ensures forall b :: 0 <= b < BTN_COUNT ==>
        Slot(debounce[b], btnState[b]) == Process(b, old(Slot(debounce[b], btnState[b])), now, Samples(gpio)[b]).0
      ensures out == old(out) + Events(Zip(old(debounce[..]), old(btnState[..])), now, Samples(gpio), BTN_COUNT)
    {
      ghost var slots := Zip(debounce[..], btnState[..]);
      ghost var samples := Samples(gpio);
      var i := 0;
      while i < BTN_COUNT
        invariant i <= BTN_COUNT
        invariant forall b :: 0 <= b < i ==> Slot(debounce[b], btnState[b]) == Process(b, slots[b], now, samples[b]).0
        invariant forall b :: i <= b < BTN_COUNT ==> Slot(debounce[b], btnState[b]) == slots[b]
        invariant out == old(out) + Events(slots, now, samples, i)
      {
        ghost var r := Process(i, slots[i], now, samples[i]);
        assert slots[i] == Slot(debounce[i], btnState[i]) && samples[i] == gpio.GetBtn(ButtonOf(i));
        ProcessButton(i, now);
        AppendEvent(old(out), Events(slots, now, samples, i), r.1);
        i := i + 1;
      }
    }
  }

  // ---------------------------------------------------------------------
  // loop: one lit segment rotating over the four digits

  /** `(digit + 1) & 0b11`: the next digit, back to 0 after digit 3. */
  function NextDigit(d: nat): (r: nat)
    ensures r < 4 && r == (d + 1) % 4
  {
    (d + 1) % 4
  }

  /** `0b00000001 << (digit << 3)`: the lowest segment of digit `d`, which
      is bit 8 * d of the display register. */
  function DigitSegment(d: nat): (r: u32)
    requires d < 4
    ensures r == Pow2(8 * d)
  {
    Pow2InWord(8 * d);
    Pow2(8 * d)
  }

  /** The digit before loop k (from 0), starting at 0. */
  function DigitAt(k: nat): (d: nat)
  {
    if k == 0 then 0 else NextDigit(DigitAt(k - 1))
  }

  /** Loop k lights digit k mod 4: the lit segment visits the four digits in
      turn and comes back every fourth loop. */
  lemma {:induction false} DigitCycle(k: nat)
    ensures DigitAt(k) == k % 4
    ensures DigitAt(k + 4) == DigitAt(k)
  {
    if k > 0 {
      DigitCycle(k - 1);
      ModUnique(k - 1, (k - 1) / 4, (k - 1) % 4, 4);
      if (k - 1) % 4 < 3 {
        ModUnique(k, (k - 1) / 4, (k - 1) % 4 + 1, 4);
      } else {
        ModUnique(k, (k - 1) / 4 + 1, 0, 4);
      }
    }
    ModUnique(k + 4, k / 4 + 1, k % 4, 4);
    DigitAtShift(k);
  }

  /** Four more loops come back to the same digit. */
  lemma {:induction false} DigitAtShift(k: nat)
    ensures DigitAt(k + 4) == DigitAt(k)
  {
    if k == 0 {
      assert DigitAt(4) == 0 by {
        assert DigitAt(1) == 1 && DigitAt(2) == 2 && DigitAt(3) == 3;
      }
    } else {
      DigitAtShift(k - 1);
      assert DigitAt(k + 4) == NextDigit(DigitAt(k + 3));
    }
  }

  /** The segment loop k shows: a single bit, the lowest of digit k mod 4. */
  lemma SegmentAt(k: nat)
    ensures DigitAt(k) < 4 && DigitSegment(DigitAt(k)) == Pow2(8 * (k % 4))
  {
    DigitCycle(k);
  }

  class Spinner {
    /** loop's static `digit`. */
    var digit: nat
    const gpio: HalGpio.Gpio

    ghost predicate Valid()
      reads this
    {
      digit < 4
    }

    constructor (board: HalGpio.Gpio)
      ensures Valid() && digit == 0 && gpio == board
    {
      digit := 0;
      gpio := board;
    }

    /** loop: light the digit's lowest segment, then move to the next digit.
        The 250 ms sleep between them only waits. */
    method Loop()
      requires Valid()
      modifies this`digit, gpio`segm
      ensures Valid()
      ensures gpio.segm == DigitSegment(old(digit))
      ensures digit == NextDigit(old(digit))
    {
      gpio.Set7Segm(DigitSegment(digit));
      digit := (digit + 1) % 4;
    }
  }
}
