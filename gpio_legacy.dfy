// The older GPIO driver (firmware/src/gpio.c): an 8-bit LED register and
// the same seven-segment and button/switch registers as the HAL driver.

module GpioLegacy {

  import opened Bits
  import HalGpio

  const REG8: nat := 8

  /** The 8-bit LED register. */
  type Reg8 = b: Bits | |b| == REG8 witness Zero(REG8)

  type Reg16 = HalGpio.Reg16
  type DigitalState = HalGpio.DigitalState
  type Button = HalGpio.Button

  class Gpio {
    /** The eight LEDs. */
    var led: Reg8
    var hex: nat
    var segm: nat
    /** Switches in bits 0-7, buttons in bits 8-12 (read-only input). */
    var btnSw: Reg16

    constructor (btnSw0: Reg16)
      ensures led == Zero(REG8) && hex == 0 && segm == 0 && btnSw == btnSw0
    {
      led := Zero(REG8);
      hex := 0;
      segm := 0;
      btnSw := btnSw0;
    }

    /** set_led as written: ANDs the register with `1 << index` (a 32-bit
        int, amount modulo 32) and ignores `state`. LED `index` keeps its
        value and every other LED goes dark. */
    method SetLed(index: nat, state: DigitalState)
      modifies this`led
      ensures led == LedAfter(old(led), index)
    {
      led := And(led, Single(REG8, index % 32));
    }

    method SetHex(value: nat)
      requires value < 0x1_0000
      modifies this`hex
      ensures hex == value
    {
      hex := value;
    }

    method Set7Segm(value: nat)
      requires value < 0x1_0000_0000
      modifies this`segm
      ensures segm == value
    {
      segm := value;
    }

    /** get_btn, on the input register. */
    function GetBtn(button: Button): (s: DigitalState)
      reads this
      ensures s == ButtonState(btnSw, button)
    {
      ButtonState(btnSw, button)
    }

    /** get_sw, on the input register. */
    function GetSw(index: nat): (s: DigitalState)
      reads this
      ensures s == SwitchState(btnSw, index)
    {
      SwitchState(btnSw, index)
    }
  }

  /** get_btn as written: tests bit `value + 8` of the input register, where
      `value` is the button's mask value rather than its bit position. */
  function ButtonState(btnSw: Reg16, button: Button): (s: DigitalState)
    ensures s == HalGpio.HIGH <==> button.Value() + 8 < HalGpio.REG16 && btnSw[button.Value() + 8]
  {
    var k := (button.Value() + 8) % 32;
    TestBit(btnSw, k);
    if NonZero(And(btnSw, Single(HalGpio.REG16, k))) then HalGpio.HIGH else HalGpio.LOW
  }

  /** get_sw: HIGH iff bit `index` (the shift taken modulo 32) of the input
      register is set. */
  function SwitchState(btnSw: Reg16, index: nat): (s: DigitalState)
    ensures s == HalGpio.HIGH <==> index % 32 < HalGpio.REG16 && btnSw[index % 32]
  {
    TestBit(btnSw, index % 32);
    if NonZero(And(btnSw, Single(HalGpio.REG16, index % 32))) then HalGpio.HIGH else HalGpio.LOW
  }

  /** The LED register set_led leaves behind, whatever the requested
      state: LED `index` keeps its value and every other LED is dark. */
  function LedAfter(led: Reg8, index: nat): (r: Reg8)
    ensures index % 32 < REG8 ==> r[index % 32] == led[index % 32]
    ensures forall j :: 0 <= j < REG8 && j != index % 32 ==> !r[j]
  {
    And(led, Single(REG8, index % 32))
  }

  /** Switching a dark LED on leaves every LED dark: set_led(1, HIGH) with
      only LED 0 lit turns LED 0 off and never lights LED 1. */
  lemma SetLedNeverLights(led: Reg8, index: nat)
    requires index < REG8 && !led[index]
    ensures LedAfter(led, index) == Zero(REG8)
  {
  }

  /** The right and centre buttons test bits 16 and 24 of a 16-bit register
      and so read LOW even with every input high. */
  lemma RightAndCenterNeverPressed(g: Gpio)
    ensures g.GetBtn(HalGpio.BtnRight) == HalGpio.LOW
    ensures g.GetBtn(HalGpio.BtnCenter) == HalGpio.LOW
  {
  }

  /** With only the up button's input (bit 8) high, the legacy driver
      reports up released while the HAL driver reports it pressed. */
  lemma UpButtonMisread(g: Gpio, h: HalGpio.Gpio)
    requires g.btnSw == h.btnSw == Single(HalGpio.REG16, 8)
    ensures g.GetBtn(HalGpio.BtnUp) == HalGpio.LOW
    ensures h.GetBtn(HalGpio.BtnUp) == HalGpio.HIGH
  {
  }

  /** Every button's reading agrees with the HAL driver's only by accident:
      the left button reads the centre button's input. */
  lemma LeftReadsCenter(g: Gpio, h: HalGpio.Gpio)
    requires g.btnSw == h.btnSw
    ensures g.GetBtn(HalGpio.BtnLeft) == h.GetBtn(HalGpio.BtnCenter)
  {
  }
}
