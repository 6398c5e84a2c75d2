// General-purpose I/O of the hardware abstraction layer
// (firmware/src/hal/gpio.c): eight LEDs and the traffic-light lamps share a
// 16-bit register, the seven-segment displays have their own registers, and
// a read-only 16-bit register holds the switches (bits 0-7) and the five
// push buttons (bits 8-12).

module HalGpio {

  import opened Words
  import opened Bits

  const REG16: nat := 16

  /** A 16-bit register. */
  type Reg16 = b: Bits | |b| == REG16 witness Zero(REG16)

  datatype DigitalState = LOW | HIGH

  /** The traffic-light lamps; each is one bit of the LED register. */
  datatype Semaphore = SemRed | SemYellow | SemGreen {
    /** The lamp's bit: red 10, yellow 9, green 8. */
    function Bit(): (b: nat)
      ensures 8 <= b <= 10
    {
      match this
      case SemRed => 10
      case SemYellow => 9
      case SemGreen => 8
    }

    /** The lamp's mask, `1 << Bit()`. */
    function Mask(): (m: Reg16)
      ensures forall j :: 0 <= j < REG16 ==> (m[j] <==> j == Bit())
    {
      Single(REG16, Bit())
    }
  }

  /** The push buttons. */
  datatype Button = BtnUp | BtnDown | BtnLeft | BtnRight | BtnCenter {
    /** The position of the button's bit within its mask. */
    function Index(): (i: nat)
      ensures i < 5
    {
      match this
      case BtnUp => 0
      case BtnDown => 1
      case BtnLeft => 2
      case BtnRight => 3
      case BtnCenter => 4
    }

    /** The numeric mask value of the enumeration constant. */
    function Value(): (v: nat)
      ensures v == Pow2(Index())
    {
      match this
      case BtnUp => 1
      case BtnDown => 2
      case BtnLeft => 4
      case BtnRight => 8
      case BtnCenter => 16
    }

    /** The mask as a register value. */
    function Mask(): (m: Reg16)
      ensures forall j :: 0 <= j < REG16 ==> (m[j] <==> j == Index())
    {
      Single(REG16, Index())
    }
  }

  class Gpio {
    /** LEDs in bits 0-7, traffic-light lamps in bits 8-10. */
    var ledSem: Reg16
    /** The hexadecimal display. */
    var hex: nat
    /** The raw seven-segment display. */
    var segm: u32
    /** Switches in bits 0-7, buttons in bits 8-12 (read-only input). */
    var btnSw: Reg16

    constructor (btnSw0: Reg16)
      ensures ledSem == Zero(REG16) && hex == 0 && segm == 0 && btnSw == btnSw0
    {
      ledSem := Zero(REG16);
      hex := 0;
      segm := 0;
      btnSw := btnSw0;
    }

    /** set_led: for index < 8 sets bit `index` to the state and keeps the
        other bits; a larger index changes nothing. */
    method SetLed(index: nat, state: DigitalState)
      modifies this`ledSem
      ensures index < 8 ==> ledSem[index] == (state == HIGH)
      ensures forall j :: 0 <= j < REG16 && j != index ==> ledSem[j] == old(ledSem[j])
      ensures index >= 8 ==> ledSem == old(ledSem)
    {
      if index < 8 {
        var mask := Single(REG16, index);
        var high := if state == HIGH then Single(REG16, 0) else Zero(REG16);
        ledSem := Or(And(ledSem, Not(mask)), ShiftLeft(high, index));
      }
    }

    /** set_sem: sets or clears exactly the lamp's bit. */
    method SetSem(color: Semaphore, state: DigitalState)
      modifies this`ledSem
      ensures ledSem[color.Bit()] == (state == HIGH)
      ensures forall j :: 0 <= j < REG16 && j != color.Bit() ==> ledSem[j] == old(ledSem[j])
    {
      ledSem := Or(And(ledSem, Not(color.Mask())), if state == HIGH then color.Mask() else Zero(REG16));
    }

    /** set_hex: stores the value verbatim. */
    method SetHex(value: nat)
      requires value < 0x1_0000
      modifies this`hex
      ensures hex == value
    {
      hex := value;
    }

    /** set_7segm: stores the value verbatim. */
    method Set7Segm(value: u32)
      modifies this`segm
      ensures segm == value
    {
      segm := value;
    }

    /** get_btn: HIGH iff the button's bit, eight places up, is set. */
    function GetBtn(button: Button): (s: DigitalState)
      reads this
      ensures s == HIGH <==> btnSw[8 + button.Index()]
    {
      var shifted := ShiftRight(btnSw, 8);
      TestBit(shifted, button.Index());
      if NonZero(And(shifted, button.Mask())) then HIGH else LOW
    }

    /** get_sw: HIGH iff bit `index` is set. The mask `1 << index` is a
        32-bit int, so the amount is taken modulo 32 as the RISC-V shift
        does, and bits 16 and up of the register are zero. */
    function GetSw(index: nat): (s: DigitalState)
      reads this
      ensures s == HIGH <==> index % 32 < REG16 && btnSw[index % 32]
    {
      TestBit(btnSw, index % 32);
      if NonZero(And(btnSw, Single(REG16, index % 32))) then HIGH else LOW
    }
  }
}
