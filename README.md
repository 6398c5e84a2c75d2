# ftn-riscv-mcu in Dafny

This project models the parts of the MAX1000 RISC-V microcontroller repository that hold actual logic, and proves properties of each one. It covers the firmware library, the example programs, the two STK500 bootloaders and the host-side build scripts. The hardware registers are modelled as class fields. UART traffic is modelled as byte sequences: `rx` holds the bytes still to arrive and `tx` the bytes sent so far. The clock is a parameter. Every operation that the C or Python code performs step by step is a method with loop invariants. Each such method is proved against a specification function, and the properties the code promises are lemmas about those functions.

Modules, one per source file or shared concept:

- `Threads`: the thread runtime of the concurrent-threads example. It covers:
  - the slot table and the first-free and round-robin scans;
  - thread creation, which seeds the saved frame;
  - the guard that frees a finished thread's slot;
  - the four-case `context_switch`;
  - the mode-dependent `yield` and critical-section masks;
  - the bookkeeping of the turn-based mutex;
  - the `rand` generator and the recursive `factorial`, both in 32-bit wrapping arithmetic.
  
  Saved frames live in one flattened array of 32-word frames. A word of a frame is addressed by its register index (0 is the pc, k is xk).
- `IrqTable`, `HalIrq` and `IrqLegacy`: the interrupt handler table, registration at the lowest set bit, and the in-order dispatch of `__isr`. They also cover the active-low enable mask of both interrupt drivers.
- `Stk500`, `Optiboot`, `SdramOptiboot` and `Numerals`:
  - `Stk500` holds the protocol constants and a reference definition of a whole STK500 session as a function of the bytes received.
  - `Optiboot` and `SdramOptiboot` are the bootloader's BRAM handler and the firmware's word-addressed SDRAM handler. Each is proved to produce that session's replies and memory.
  - `Numerals` is the `put_num` radix formatter.
- `Memory`: the RAM-zeroing loops of the bootloader.
- `HalGpio`, `GpioLegacy`, `HalTime` and `TimerLegacy`: the register drivers. `Bits` models a narrow register as its bits and `Words` models a 32-bit machine word.
- `HalLibc`, `LegacyLibc` and `Main01`: the newlib system calls and the first stand-alone firmware's UART line reader.
- `Clock08`, `Buttons07`, `Demo`, `Seg02` and `Seg03`: the state machines of the example programs.
- `MakeHex`, `ArduinoCfg`, `CommonWaf` and `Avrdude`: the host-side build scripts. `PyStr` and `PyDict` model the Python string built-ins and insertion-ordered dictionaries they rely on.

Where the code differs from the documented intent, the model follows the code:

- In the older GPIO driver, `set_led` ANDs the register with the LED's bit, and `get_btn` tests the wrong bit.
- In the Arduino config parser, `'false'` parses to True.
- `expand_app` returns before its last lines (common/scripts/common_waf/__init__.py:160-167), so they are not modelled.
- `context_switch` reads slot -1 when a current thread exists but no slot is used. This case is modelled as an explicit outcome that reads the frame words stored just before the table, passed in as a parameter. No precondition excludes it.

Several headers are not part of this model: firmware/include/hal/irq.h, the STK500 command header, and the header that defines TIMEOUT_MS. The ECALL interrupt bit is a constant whose only known facts are that it is a single bit and is not timer 0's bit. The STK500 codes are those of Atmel application note AVR061. The bootloader's timeout is a constructor parameter.

## Model

| member | source | states |
|---|---|---|
| HalGpio.Semaphore.Bit | firmware/include/hal/gpio.h:20-24 | each traffic-light lamp owns one bit of the LED register, in the range 8 to 10 |
| HalGpio.Semaphore.Mask | firmware/include/hal/gpio.h:20-24 | the lamp's mask has exactly the lamp's bit set |
| HalGpio.Button.Value | firmware/include/hal/gpio.h:26-32 | each button constant is a power of two, two to the button's bit position |
| HalGpio.Button.Mask | firmware/include/hal/gpio.h:26-32 | the button's mask has exactly the button's bit set |
| HalGpio.Gpio.SetLed | firmware/src/hal/gpio.c:12-17 | for an index below 8 only that LED bit changes, to the requested state; a larger index changes nothing |
| HalGpio.Gpio.SetSem | firmware/src/hal/gpio.c:19-21 | only the lamp's bit changes, to the requested state |
| HalGpio.Gpio.SetHex | firmware/src/hal/gpio.c:23 | the hexadecimal display register holds the value written |
| HalGpio.Gpio.Set7Segm | firmware/src/hal/gpio.c:25 | the raw seven-segment register holds the value written |
| HalGpio.Gpio.GetBtn | firmware/src/hal/gpio.c:27-30 | a button reads HIGH exactly when its input bit, eight places above its position, is set |
| HalGpio.Gpio.GetSw | firmware/src/hal/gpio.c:32-34 | a switch reads HIGH exactly when its bit is set, with the shift amount taken modulo 32 and bits above 15 reading zero |
| GpioLegacy.Gpio.SetLed | firmware/src/gpio.c:3-5 | as written: the register becomes LedAfter of the old register, whatever the state argument |
| GpioLegacy.LedAfter | firmware/src/gpio.c:3-5 | the `&=` result: LED `index` keeps its value and every other LED is dark |
| GpioLegacy.SetLedNeverLights | firmware/src/gpio.c:3-5 | switching a dark LED on leaves all eight LEDs dark |
| GpioLegacy.Gpio.SetHex | firmware/src/gpio.c:7 | the hexadecimal display register holds the value written |
| GpioLegacy.Gpio.Set7Segm | firmware/src/gpio.c:9 | the raw seven-segment register holds the value written |
| GpioLegacy.Gpio.GetBtn | firmware/src/gpio.c:11-13 | as written: the button reads ButtonState of the input register |
| GpioLegacy.Gpio.GetSw | firmware/src/gpio.c:15-17 | the switch reads SwitchState of the input register |
| GpioLegacy.ButtonState | firmware/src/gpio.c:11-13 | as written: a button reads the input bit at its mask value plus 8, and LOW when that is beyond the 16-bit register |
| GpioLegacy.SwitchState | firmware/src/gpio.c:15-17 | a switch reads HIGH exactly when its bit is set |
| GpioLegacy.RightAndCenterNeverPressed | firmware/src/gpio.c:11-13 | the right and centre buttons read LOW whatever the inputs are |
| GpioLegacy.UpButtonMisread | firmware/src/gpio.c:11-13 | with only the up button's input high, the legacy driver reads the up button as released and the HAL driver reads it as pressed |
| GpioLegacy.LeftReadsCenter | firmware/src/gpio.c:11-13 | the legacy driver's left button reads the input the HAL driver reads for the centre button |
| HalTime.ResetAfter | firmware/src/hal/time.c:17-23 | enabling a timer clears its reset bit, disabling sets it, and every other bit keeps its value |
| HalTime.IsEnabled | firmware/src/hal/time.c:25-27 | a timer is enabled exactly when its reset bit is clear |
| HalTime.GetAfterSet | firmware/src/hal/time.c:17-27 | reading a timer's state back gives the state last written |
| HalTime.SetLeavesOthers | firmware/src/hal/time.c:17-27 | setting one timer's state leaves every other timer's state unchanged |
| HalTime.SetIdempotent | firmware/src/hal/time.c:17-23 | writing the same state twice leaves the register as writing it once |
| HalTime.Timers.Millis | firmware/src/hal/time.c:11 | millis returns the whole 64-bit millisecond counter |
| HalTime.Timers.Micros | firmware/src/hal/time.c:13 | micros returns the whole 64-bit microsecond counter |
| HalTime.Timers.Nanos | firmware/src/hal/time.c:15 | nanos returns the whole 64-bit nanosecond counter |
| HalTime.Timers.SetEnabled | firmware/src/hal/time.c:17-23 | the timer then reads back the state written and every other timer keeps its state |
| HalTime.Timers.SetInterval | firmware/src/hal/time.c:29-32 | the timer is selected and the interval register holds the interval cut to 32 bits, unchanged when it fits |
| TimerLegacy.Timers.Millis | firmware/src/timer.c:3 | the result is the millisecond counter cut to its low 32 bits |
| TimerLegacy.Timers.Micros | firmware/src/timer.c:5 | the result is the microsecond counter cut to its low 32 bits |
| TimerLegacy.Timers.Nanos | firmware/src/timer.c:7 | the result is the whole 64-bit nanosecond counter |
| TimerLegacy.Timers.Enable | firmware/src/timer.c:9-11 | only the timer's reset bit changes, and it is cleared |
| TimerLegacy.Timers.Disable | firmware/src/timer.c:13-15 | only the timer's reset bit changes, and it is set |
| TimerLegacy.Timers.SetInterval | firmware/src/timer.c:17-20 | the timer is selected and the interval register holds the interval cut to 32 bits |
| TimerLegacy.DisableThenEnable | firmware/src/timer.c:9-15 | disabling and then enabling a timer gives the same register as enabling it alone |
| HalLibc.FdToUart | firmware/src/hal/libc.c:7-19 | descriptors 0, 1 and 2 map to UART1 and every other descriptor to the no-port value -1 |
| HalLibc.Advance | firmware/src/hal/libc.c:28-32 | the new break is the old one moved by the increment, modulo the 32-bit address space |
| HalLibc.Breaks | firmware/src/hal/libc.c:28-32 | a run of _sbrk calls returns one address per call |
| HalLibc.BreaksAdjacent | firmware/src/hal/libc.c:28-32 | while the break stays in the address space, the k-th _sbrk call returns the start plus the sum of the earlier increments, so successive regions are adjacent |
| HalLibc.Close | firmware/src/hal/libc.c:34 | _close always fails with -1 |
| HalLibc.Fstat | firmware/src/hal/libc.c:36-39 | _fstat reports every descriptor as a character device and succeeds |
| HalLibc.Isatty | firmware/src/hal/libc.c:41 | every descriptor is a terminal |
| HalLibc.Lseek | firmware/src/hal/libc.c:43 | seeking always answers position 0 |
| HalLibc.Getpid | firmware/src/hal/libc.c:49 | the process id is always -1 |
| HalLibc.Libc.InitBrk | firmware/src/hal/libc.c:23-26 | the break starts at the start of SDRAM |
| HalLibc.SendBytes | firmware/src/hal/libc.c:55-58 | the bytes sent grow by the buffer's first `len` bytes in order, and by nothing for a negative length |
| HalLibc.ReceiveBytes | firmware/src/hal/libc.c:66-69 | the buffer's first `len` bytes are the next `len` bytes received, the rest of the buffer is unchanged, and those bytes are consumed |
| HalLibc.Libc.Sbrk | firmware/src/hal/libc.c:28-32 | returns the old break and moves the break by the increment |
| HalLibc.Libc.Write | firmware/src/hal/libc.c:51-60 | an invalid descriptor sends nothing and returns -1; a valid one sends the first `len` bytes in order and returns `len` |
| HalLibc.Libc.Read | firmware/src/hal/libc.c:62-71 | an invalid descriptor reads nothing and returns -1; a valid one fills the buffer's first `len` bytes with the next bytes received, leaves the rest of the buffer alone and returns `len` |
| LegacyLibc.Libc.Sbrk | firmware/src/libc.c:22-28 | returns the old heap pointer and moves it by the increment |
| LegacyLibc.Libc.Write | firmware/src/libc.c:47-56 | as the hardware-abstraction _write: -1 for an invalid descriptor, otherwise the first `len` bytes sent and `len` returned |
| LegacyLibc.Libc.Read | firmware/src/libc.c:58-67 | as the hardware-abstraction _read: -1 for an invalid descriptor, otherwise the next `len` bytes received stored and `len` returned |
| Main01.Line | firmware/01_main.c:38-54 | the line getstr stores is at most `max` long and no longer than the input |
| Main01.LineSpec | firmware/01_main.c:40-49 | the stored line is a prefix of the input holding no newline, and it is shorter than `max` only when a newline ended it |
| Main01.LineEndsAt | firmware/01_main.c:40-49 | the line is exactly the input before the point where getstr stops, at `max` characters or at a newline |
| Main01.Stored | firmware/01_main.c:47-52 | the buffer holds the line at its start, then a NUL when the line is shorter than `max`, and is otherwise unchanged |
| Main01.Consumed | firmware/01_main.c:40-49 | getstr takes no more bytes than have arrived |
| Main01.Board.PutLed | firmware/01_main.c:5-7 | as written: the register becomes LedAfter of the old register (LED `index` keeps its value, every other LED goes dark), whatever the state |
| Main01.Board.PutHex | firmware/01_main.c:9 | the hexadecimal display holds the value written |
| Main01.Board.Put7Segm | firmware/01_main.c:11 | the raw seven-segment display holds the value written |
| Main01.Board.GetBtn | firmware/01_main.c:13-15 | as written: the button reads ButtonState of the input register, the bit at its mask value plus 8 |
| Main01.Board.GetSw | firmware/01_main.c:17-19 | the switch reads SwitchState of the input register: HIGH exactly when its bit is set |
| Main01.Board.PutCh | firmware/01_main.c:21 | the character is appended to what the UART has sent |
| Main01.Board.GetCh | firmware/01_main.c:23-30 | when a byte is ready it is taken and true returned; otherwise false is returned and nothing changes |
| Main01.Board.PutStr | firmware/01_main.c:32-36 | the first `length` characters are sent in order |
| Main01.Board.ReadLine | firmware/01_main.c:39-49 | the loop stores exactly the specified line from the buffer's start, leaves the rest of the buffer alone and takes exactly the bytes getstr consumes |
| Main01.Board.GetStr | firmware/01_main.c:38-54 | returns the line's length; the buffer holds the line, NUL-terminated when there is room; the consumed input is gone |
| Clock08.IntervalsFit | firmware/examples/08_timers.c:10-12 | the four intervals setup writes are 2 s, 1 s, 1 min and 1 h in microseconds, and each fits the 32-bit interval register unchanged |
| Clock08.TickIsModular | firmware/examples/08_timers.c:22-28 | a counter in range steps to its successor modulo its limit and stays in range |
| Clock08.TickCount | firmware/examples/08_timers.c:22-44 | from zero, k steps of a counter with limit n leave it at k modulo n |
| Clock08.Clock.IncrementSeconds | firmware/examples/08_timers.c:22-28 | the seconds step to the next second, 59 wrapping to 0, and stay in range; minutes and hours are untouched |
| Clock08.Clock.IncrementMinutes | firmware/examples/08_timers.c:30-36 | the minutes step to the next minute, 59 wrapping to 0, and stay in range |
| Clock08.Clock.IncrementHours | firmware/examples/08_timers.c:38-44 | the hours step to the next hour, 23 wrapping to 0, and stay in range |
| Clock08.Clock.PrintClock | firmware/examples/08_timers.c:18-20 | the text is "Current time is ", then the hours, minutes and seconds as two decimal digits each, each pair reading back as its counter, with ':' between them and a newline at the end |
| Clock08.TwoDigits | firmware/examples/08_timers.c:19 | the two characters of `%02i` are decimal digits that read back as the value |
| Clock08.ReadTwoRoundTrip | firmware/examples/08_timers.c:19 | any two decimal digits are the `%02i` of the value they read as, so the printed form and the value determine each other |
| Buttons07.ButtonOf | firmware/examples/07_interrupt_handlers.c:28 | `1 << button` names the button whose mask is that power of two |
| Buttons07.PrintEvent | firmware/examples/07_interrupt_handlers.c:9-19 | the text starts "Button " and the button's name, and ends "pressed" and a newline exactly for HIGH, "released" and a newline exactly for LOW |
| Buttons07.ProcessSpec | firmware/examples/07_interrupt_handlers.c:21-34 | within the timeout nothing changes; after it the time is recorded, the stored state follows the sample, and a line naming the new state is printed exactly when the stored state changes |
| Buttons07.BounceIgnored | firmware/examples/07_interrupt_handlers.c:24-27 | once a sample is accepted, another interrupt under 10 ms later changes nothing and prints nothing, whatever the button reads |
| Buttons07.Samples | firmware/examples/07_interrupt_handlers.c:28 | one reading per button, each the board's state of that button |
| Buttons07.EventsQuiet | firmware/examples/07_interrupt_handlers.c:36-40 | an interrupt prints nothing exactly when no button's stored state changes |
| Buttons07.Zip | firmware/examples/07_interrupt_handlers.c:22-23 | button b's slot holds the b-th entry of each static array |
| Buttons07.Handler.ProcessButton | firmware/examples/07_interrupt_handlers.c:21-34 | the button's two slots and the output move as the process step says, and no other button's slots change |
| Buttons07.NextDigit | firmware/examples/07_interrupt_handlers.c:51 | `(digit + 1) & 0b11` is the next digit modulo 4, always below 4 |
| Buttons07.DigitSegment | firmware/examples/07_interrupt_handlers.c:49 | `1 << (digit << 3)` is the single bit 8 * digit: the lowest segment of that digit |
| Buttons07.DigitCycle | firmware/examples/07_interrupt_handlers.c:47-52 | before loop k the static digit is k mod 4, so it comes back every fourth loop |
| Buttons07.DigitAtShift | firmware/examples/07_interrupt_handlers.c:47-52 | four more loops return to the same digit |
| Buttons07.SegmentAt | firmware/examples/07_interrupt_handlers.c:47-52 | loop k lights only bit 8 * (k mod 4), one segment rotating over the four digits |
| Buttons07.Spinner.Loop | firmware/examples/07_interrupt_handlers.c:47-52 | the display register takes the current digit's segment and the digit moves to the next, staying below 4 |
| Buttons07.Spinner.constructor | firmware/examples/07_interrupt_handlers.c:48 | the static digit starts at 0 |
| Buttons07.Handler.ButtonEvent | firmware/examples/07_interrupt_handlers.c:36-40 | every button's slots move as the process step says for its own reading, and the output is the events of buttons 0 to 4 in order |
| Demo.TimerTick | firmware/src/demo.c:20-23 | timer 1 alone counts up by one modulo 2^32 while running, leaves the counter alone while stopped, and never touches the debounce time or the run flag |
| Demo.OtherMasksIgnored | firmware/src/demo.c:20-33 | any other pending mask leaves the statics unchanged, including timer 1 pending together with timer 2 |
| Demo.ButtonBounce | firmware/src/demo.c:24 | a button event within 100 ms of the last accepted one changes nothing |
| Demo.ButtonPriority | firmware/src/demo.c:24-33 | an accepted button event records the time; centre toggles running, else up counts up, else down counts down, modulo 2^32; no button changes only the time |
| Demo.UpThenDown | firmware/src/demo.c:28-31 | an accepted up press followed by an accepted down press restores the counter, across the 32-bit wrap too |
| Demo.NextState | firmware/src/demo.c:62 | the state steps 0 to 1 to 2 to 3 and back to 0 |
| Demo.StateCycle | firmware/src/demo.c:39-62 | after k calls the semaphore is in state k modulo 4 |
| Demo.LightsSafe | firmware/src/demo.c:40-62 | red and green are never lit together; green is lit only right after red with yellow, and red alone only right after yellow alone |
| Demo.Handlers.UpdateCounter | firmware/src/demo.c:16-36 | the statics step as the update says, the display shows the counter cut to 16 bits, LED 0 shows the run flag, and no other LED or lamp changes |
| Demo.Handlers.StepCounter | firmware/src/demo.c:20-33 | the statics step as the update says for the current button readings |
| Demo.Handlers.Semaphore | firmware/src/demo.c:38-63 | the three lamps show the current state's lights, no other bit changes, and the state moves to the next |
| Seg02.ShownValue | firmware/examples/02_seven_segm_hex.c:4-15 | loop k shows 1 + k mod 9 |
| Seg02.ShownPeriodic | firmware/examples/02_seven_segm_hex.c:4-15 | every value shown lies in 1 to 9, and the display repeats every 9 loops |
| Seg02.Example.Loop | firmware/examples/02_seven_segm_hex.c:8-15 | the display shows the old counter and the counter takes its next value |
| Seg03.ShownValue | firmware/examples/03_seven_segm_custom.c:4-15 | loop k lights segment bit k mod 32 alone |
| Seg03.NextOfPow2 | firmware/examples/03_seven_segm_custom.c:11-14 | shifting moves bit p to bit p + 1 and the top bit back to bit 0 |
| Seg03.ShownSingleBit | firmware/examples/03_seven_segm_custom.c:4-15 | every symbol shown has exactly one bit set, and the display repeats every 32 loops |
| Seg03.Example.Loop | firmware/examples/03_seven_segm_custom.c:8-15 | the display shows the old symbol and the symbol takes its next value |
| Memory.Zeroed | bootloader/src/memory.c:3-15 | zeroing a range keeps the memory's size |
| Memory.ZeroedWords | bootloader/src/memory.c:3-15 | every word in the range becomes zero and every word outside it keeps its value |
| Memory.ZeroedExtend | bootloader/src/memory.c:5-7 | one more loop step zeroes exactly one more word |
| Memory.ZeroedEmpty | bootloader/src/memory.c:5 | a range whose end is not past its start changes nothing |
| Memory.ZeroedTwice | bootloader/src/memory.c:17-20 | zeroing twice from the same start zeroes up to the farther end |
| Memory.Ram.ZeroWords | bootloader/src/memory.c:4-7 | the pointer loop zeroes exactly the words of the range |
| Memory.Ram.ZeroInitBram | bootloader/src/memory.c:3-8 | zeroes from the start of SDRAM up to the end of the firmware, and nothing when that range is empty |
| Memory.Ram.ZeroInitSdram | bootloader/src/memory.c:10-15 | zeroes from the start to the end of SDRAM |
| Memory.Ram.InitRam | bootloader/src/memory.c:17-20 | zeroes from the start of SDRAM up to the farther of the firmware end and the SDRAM end |
| Numerals.LowDigits | bootloader/src/optiboot.c:53-58 | the do-while loop yields at least one digit, each below the base |
| Numerals.LowDigitsValue | bootloader/src/optiboot.c:53-58 | the digits, least significant first, are worth the number |
| Numerals.Padded | bootloader/src/optiboot.c:59-72 | the padded digits are at least as many as the loop's and as the base's minimum width, each below the base |
| Numerals.PaddedShape | bootloader/src/optiboot.c:59-72 | padding keeps the loop's digits and adds zeros up to 8 digits in base 2 and 2 in base 16 |
| Numerals.DigitChar | bootloader/src/optiboot.c:55 | digit values below 10 become '0' to '9' and larger ones 'A' onwards |
| Numerals.CharDigitOfDigitChar | bootloader/src/optiboot.c:55 | each digit character reads back as its digit value |
| Numerals.MsbCharsAt | bootloader/src/optiboot.c:73-77 | character k of the text is the digit k places from the most significant end |
| Numerals.ParseMsbChars | bootloader/src/optiboot.c:53-77 | reading the characters back gives the digits' value |
| Numerals.NumeralRoundTrip | bootloader/src/optiboot.c:49-80 | the text put_num produces, read back in the same base, is the number |
| Numerals.TerminatorIndex | bootloader/src/optiboot.c:78 | the NUL goes right after the text |
| Numerals.LowDigitsBound | bootloader/src/optiboot.c:53-58 | a number below 2^k has at most k digits in any base |
| Numerals.PowerOfTwoDigits | bootloader/src/optiboot.c:53-58 | 2^k has k + 1 binary digits |
| Numerals.TerminatorPastBuffer | bootloader/src/optiboot.c:50-78 | as written: in base 2 the number 2^31 fills all 32 characters and the NUL lands one past the buffer |
| Numerals.TerminatorInsideBuffer | bootloader/src/optiboot.c:50-78 | in every base from 4 on, including the 10 and 16 the bootloader uses, every 32-bit number leaves room for the NUL |
| Numerals.QuaternaryBound | bootloader/src/optiboot.c:53-58 | a number below 4^k has at most k digits in any base of 4 or more |
| Numerals.DigitsFit | bootloader/src/optiboot.c:50-72 | a 32-bit number has at most 32 digits after padding in any base |
| Numerals.FillDigits | bootloader/src/optiboot.c:53-58 | the loop stores the digit characters least significant first and counts them |
| Numerals.PadZeros | bootloader/src/optiboot.c:59-72 | the padding loops add '0' characters up to the width and keep the digits already stored |
| Numerals.Reverse | bootloader/src/optiboot.c:73-77 | the first d characters are reversed in place and the rest are untouched |
| Numerals.ReversedDigits | bootloader/src/optiboot.c:73-77 | the reversed least-significant-first characters are the most-significant-first text |
| Numerals.PutNum | bootloader/src/optiboot.c:49-80 | with a buffer one character longer, the text before the NUL is the padded numeral of the number |
| Stk500.LittleEndian | bootloader/src/optiboot.c:117-123 | the address's low byte is the first byte received and its high byte the second |
| Stk500.AddressBytes | bootloader/src/optiboot.c:117-123 | a host sends an address as two bytes |
| Stk500.LoadAddressRoundTrip | bootloader/src/optiboot.c:117-123 | loading the two bytes of an address gives that address back, and every byte pair is the encoding of the address it loads |
| Stk500.PageLength | bootloader/src/optiboot.c:82-87 | the first length byte, shifted into a u8, is lost: the length is the second byte |
| Stk500.ParameterReply | bootloader/src/optiboot.c:103-115 | the major-version query answers 0x09 (8 plus the custom 1); the minor-version query and every other parameter answer 0x03 |
| Stk500.WritePage | bootloader/src/optiboot.c:130-149 | the page's bytes are stored from the page start and every other cell keeps its value |
| Stk500.PageBytes | bootloader/src/optiboot.c:151-161 | a page read sends `length` bytes, each the low byte of the cell at that offset from the page start |
| Stk500.WritePageExtend | bootloader/src/optiboot.c:138-140 | storing one more received byte extends the page write by that byte |
| Stk500.ReadAfterWrite | bootloader/src/optiboot.c:130-161 | reading a page back after programming it yields the programmed bytes |
| Stk500.ArgsSize | bootloader/src/optiboot.c:178-229 | every command reads at least one byte after the command byte, and a page write reads four plus its length |
| Stk500.Step | bootloader/src/optiboot.c:178-229 | every reply starts with INSYNC and ends with OK; only a load changes the address and only a page write changes memory |
| Stk500.ProgPageStep | bootloader/src/optiboot.c:130-149 | a complete page write stores the bytes between the memory-type byte and the final CRC_EOP at twice the loaded address and replies INSYNC OK |
| Stk500.Session | bootloader/src/optiboot.c:170-230 | a whole session keeps the memory's size |
| Stk500.SessionUnfold | bootloader/src/optiboot.c:178-229 | a session whose first command is not a leave continues from the state that command leaves, after its reply |
| Stk500.Resume | bootloader/src/optiboot.c:228 | prepending replies changes only the output |
| Stk500.SessionAdvance | bootloader/src/optiboot.c:178-229 | after one complete command the rest of the session continues with that command's reply already sent |
| Stk500.SessionCommand | bootloader/src/optiboot.c:178-229 | a session starting with a complete command other than a leave sends that command's reply and goes on with the bytes after it |
| Stk500.LeaveEndsSession | bootloader/src/optiboot.c:192-197 | STK_LEAVE_PROGMODE replies INSYNC OK and ends the session; nothing after it is read |
| Stk500.LoadAddressSession | bootloader/src/optiboot.c:198-203 | loading an address replies INSYNC OK and sets the address for every later command |
| Stk500.ProgPageSession | bootloader/src/optiboot.c:208-213 | programming a page replies INSYNC OK and stores the data at twice the loaded address |
| Stk500.ReadPageSession | bootloader/src/optiboot.c:214-219 | reading a page replies INSYNC, the page's bytes and OK, and changes nothing |
| Stk500.ReadThenLeave | bootloader/src/optiboot.c:192-219 | reading back the page just written and then leaving replies with the written bytes and ends the session |
| Stk500.ProgramThenRead | bootloader/src/optiboot.c:170-230 | load, program, read back and leave ends by leaving, at the loaded address, with the data programmed and the reply carrying the same data with each command framed by INSYNC and OK |
| Optiboot.Bootloader.Receive | bootloader/src/optiboot.c:35-36 | the first byte received is returned and removed, and the timeout is disarmed |
| Optiboot.Bootloader.GetCh | bootloader/src/optiboot.c:28-37 | with a byte ready it is taken and the timeout disarmed; otherwise nothing changes, except that an armed and expired timeout ends the bootloader |
| Optiboot.Bootloader.PutCh | bootloader/src/optiboot.c:22-26 | the byte is appended to what UART0 has sent |
| Optiboot.Bootloader.VerifySpace | bootloader/src/optiboot.c:89-94 | one byte is consumed and INSYNC is sent, whether or not the byte was CRC_EOP |
| Optiboot.Bootloader.GetNCh | bootloader/src/optiboot.c:96-101 | `count` bytes are skipped, one more is consumed and INSYNC is sent |
| Optiboot.Bootloader.GetLength | bootloader/src/optiboot.c:82-87 | two bytes are consumed and the length is the second |
| Optiboot.Bootloader.GetParameter | bootloader/src/optiboot.c:103-115 | two bytes are consumed and INSYNC and the parameter's reply are sent |
| Optiboot.Bootloader.LoadAddress | bootloader/src/optiboot.c:117-123 | the address becomes the two bytes received, low byte first, and INSYNC is sent |
| Optiboot.Bootloader.Universal | bootloader/src/optiboot.c:125-128 | five bytes are consumed and INSYNC and a zero byte are sent |
| Optiboot.Bootloader.ProgPage | bootloader/src/optiboot.c:130-149 | the page's data bytes are stored from twice the loaded address, nothing else in memory changes, all the command's bytes are consumed and INSYNC is sent |
| Optiboot.Bootloader.StorePage | bootloader/src/optiboot.c:138-147 | the next `length` bytes received are stored from the page start |
| Optiboot.Bootloader.ReadPage | bootloader/src/optiboot.c:151-161 | four bytes are consumed and INSYNC then the page's bytes from twice the loaded address are sent |
| Optiboot.Bootloader.ReadSign | bootloader/src/optiboot.c:163-168 | one byte is consumed and INSYNC then the three signature bytes 1E 95 0F are sent |
| Optiboot.Bootloader.Dispatch | bootloader/src/optiboot.c:179-228 | one pass of the switch changes memory, the address and the output exactly as the command's step says, consumes exactly its bytes, and reports a leave exactly for STK_LEAVE_PROGMODE |
| Optiboot.Bootloader.DispatchPage | bootloader/src/optiboot.c:198-219 | the load, program and read cases act exactly as the command's step says |
| Optiboot.Bootloader.Run | bootloader/src/optiboot.c:170-230 | the whole bootloader run ends with the memory, address, output and exit of the reference session, with the timeout armed at start |
| SdramOptiboot.SdramBootloader.GetCh | firmware/src/optiboot.c:97 | the first byte received is returned and removed |
| SdramOptiboot.SdramBootloader.PutCh | firmware/src/optiboot.c:109 | the byte is appended to what has been sent |
| SdramOptiboot.SdramBootloader.VerifySpace | firmware/src/optiboot.c:13-18 | one byte is consumed and INSYNC is sent, whether or not the byte was CRC_EOP |
| SdramOptiboot.SdramBootloader.GetNCh | firmware/src/optiboot.c:20-25 | `count` bytes are skipped, one more is consumed and INSYNC is sent |
| SdramOptiboot.SdramBootloader.GetLength | firmware/src/optiboot.c:6-11 | two bytes are consumed and the length is the second |
| SdramOptiboot.SdramBootloader.InitSdram | firmware/src/optiboot.c:27-32 | SDRAM is zeroed from the static pointer to the end and the pointer stays at the end, so a second call zeroes nothing |
| SdramOptiboot.SdramBootloader.GetParameter | firmware/src/optiboot.c:34-46 | two bytes are consumed and INSYNC and the parameter's reply are sent |
| SdramOptiboot.SdramBootloader.LoadAddress | firmware/src/optiboot.c:48-54 | the address becomes the two bytes received, low byte first, and INSYNC is sent |
| SdramOptiboot.SdramBootloader.Universal | firmware/src/optiboot.c:56-59 | five bytes are consumed and INSYNC and a zero byte are sent |
| SdramOptiboot.SdramBootloader.ProgPage | firmware/src/optiboot.c:61-71 | each data byte goes into its own word from twice the loaded address, nothing else changes, and INSYNC is sent |
| SdramOptiboot.SdramBootloader.StorePage | firmware/src/optiboot.c:66-69 | the next `length` bytes received are stored one per word from the page start |
| SdramOptiboot.SdramBootloader.ReadPage | firmware/src/optiboot.c:73-83 | four bytes are consumed and INSYNC then the low byte of each word of the page are sent |
| SdramOptiboot.SdramBootloader.ReadSign | firmware/src/optiboot.c:85-90 | one byte is consumed and INSYNC then the three signature bytes are sent |
| SdramOptiboot.SdramBootloader.Dispatch | firmware/src/optiboot.c:97-129 | one pass of the switch acts exactly as the command's step says and reports a leave exactly for STK_LEAVE_PROGMODE |
| SdramOptiboot.SdramBootloader.DispatchPage | firmware/src/optiboot.c:111-122 | the load, program and read cases act exactly as the command's step says |
| SdramOptiboot.SdramBootloader.Run | firmware/src/optiboot.c:92-131 | after zeroing SDRAM the run ends as the reference session on the zeroed memory, and never by timeout |
| MakeHex.HexDigit | firmware/makehex.py:23 | each hexadecimal digit character reads back as its value and is not a newline |
| MakeHex.Hex2 | firmware/makehex.py:23 | `%02x` of a byte is two digits whose value is the byte |
| MakeHex.HexValueAppend2 | firmware/makehex.py:23 | appending two more digits multiplies the value so far by 256 and adds theirs |
| MakeHex.WordCount | firmware/makehex.py:21 | the number of whole four-byte words; up to three trailing bytes make no word |
| MakeHex.HexLine | firmware/makehex.py:20-26 | no line holds a newline |
| MakeHex.HexLineValue | firmware/makehex.py:21-25 | a line within the data is 8 digits whose value is the word read little-endian; a line past the data reads as 0 |
| MakeHex.TrailingBytesIgnored | firmware/makehex.py:21 | bytes after the last whole word change no line |
| MakeHex.FirstNewline | firmware/makehex.py:26 | the position found holds the first newline, and nothing before it is one |
| MakeHex.ReadJoin | firmware/makehex.py:26 | lines free of newlines, each written with a newline after it, read back exactly |
| MakeHex.HexLines | firmware/makehex.py:20-26 | line i of the first n lines is the line for word i |
| MakeHex.HexFileLines | firmware/makehex.py:19-26 | the file holds exactly the requested number of lines (none for a negative count), line i being the line for word i |
| MakeHex.Convert | firmware/makehex.py:19-26 | the loop writes exactly the specified file |
| MakeHex.WordLine | firmware/makehex.py:21-25 | the loop body's text for word i is the specified line |
| PyStr.RStrip | common/scripts/max1000_riscv_waf/arduino.py:33 | `rstrip` removes exactly the trailing whitespace and keeps the rest |
| PyStr.LStrip | common/scripts/max1000_riscv_waf/arduino.py:44 | `lstrip` removes exactly the leading whitespace and keeps the rest |
| PyStr.Strip | common/scripts/max1000_riscv_waf/arduino.py:44 | a stripped non-empty value starts and ends with a non-blank |
| PyStr.Decimal | common/scripts/max1000_riscv_waf/arduino.py:52 | the decimal text of a number is a non-empty run of digits |
| PyStr.ParseDecimal | common/scripts/max1000_riscv_waf/arduino.py:52 | `int()` reads back the decimal text of a number, with a minus sign, a plus sign or no sign |
| PyStr.DecimalValue | common/scripts/max1000_riscv_waf/arduino.py:52 | the digits of the decimal text are worth the number |
| PyStr.ParseIntText | common/scripts/max1000_riscv_waf/arduino.py:52 | `int()` reads back the text of every integer, and that text is already stripped |
| PyStr.IntTextUnpadded | common/scripts/max1000_riscv_waf/arduino.py:44 | the text of an integer neither starts nor ends with a blank |
| PyStr.StripUnpadded | common/scripts/max1000_riscv_waf/arduino.py:44 | stripping leaves alone a text with no blank at either end |
| PyDict.Empty | common/scripts/max1000_riscv_waf/arduino.py:30 | the empty dictionary has no keys |
| PyDict.Put | common/scripts/max1000_riscv_waf/arduino.py:55 | assigning a key updates its value; a new key is appended to the insertion order, an existing key keeps its place |
| PyDict.Assign | common/scripts/max1000_riscv_waf/arduino.py:30-55 | a run of assignments gives a well-formed dictionary |
| PyDict.AssignNext | common/scripts/max1000_riscv_waf/arduino.py:32-55 | one more line assigns its pair or leaves the dictionary alone |
| PyDict.AssignLookup | common/scripts/max1000_riscv_waf/arduino.py:30-55 | a key is present exactly when some step assigned it, and holds the value of the last such step |
| PyDict.AssignHas | common/scripts/max1000_riscv_waf/arduino.py:30-55 | a key is present exactly when some step assigned it |
| PyDict.AssignLast | common/scripts/max1000_riscv_waf/arduino.py:30-55 | a key holds the value of the last step that assigned it |
| ArduinoCfg.KeyRun | common/scripts/max1000_riscv_waf/arduino.py:42 | the run taken is all key characters and stops at the first other character |
| ArduinoCfg.UntilNewline | common/scripts/max1000_riscv_waf/arduino.py:42 | `.*` takes the text up to but not including the first newline |
| ArduinoCfg.Convert | common/scripts/max1000_riscv_waf/arduino.py:46-54 | an empty value is None; "true" and "false" both become True; text `int()` accepts becomes that integer; anything else stays text |
| ArduinoCfg.ClassifySpec | common/scripts/max1000_riscv_waf/arduino.py:33-45 | blank and comment lines are skipped; a line is an entry exactly when a run of key characters is followed by '=', the key being the whole run; any other line raises |
| ArduinoCfg.Steps | common/scripts/max1000_riscv_waf/arduino.py:32-55 | each entry line assigns its key and value and every other line assigns nothing |
| ArduinoCfg.FirstNoMatch | common/scripts/max1000_riscv_waf/arduino.py:42-43 | the position of the first line that raises, or the number of lines |
| ArduinoCfg.CfgOf | common/scripts/max1000_riscv_waf/arduino.py:28-56 | parsing fails exactly when some line raises, and then at the first such line |
| ArduinoCfg.CfgLookup | common/scripts/max1000_riscv_waf/arduino.py:28-56 | a key is in the configuration exactly when some line sets it, and it holds the value of the last line that does |
| ArduinoCfg.ParseLine | common/scripts/max1000_riscv_waf/arduino.py:33-54 | the loop body skips, raises on, or assigns exactly as the line's classification says |
| ArduinoCfg.ParseArduinoCfg | common/scripts/max1000_riscv_waf/arduino.py:28-56 | the loop's outcome is the specified one: the first raising line, or the dictionary of every entry |
| ArduinoCfg.PastGoodLine | common/scripts/max1000_riscv_waf/arduino.py:42-43 | a line that does not raise, at or before the first that does, lies before it |
| ArduinoCfg.LastNameAt | common/scripts/max1000_riscv_waf/arduino.py:62 | the greedy group ends at the last position where ".name" follows |
| ArduinoCfg.BoardKey | common/scripts/max1000_riscv_waf/arduino.py:62-64 | the board key is the key up to its last ".name" with at least one character before it, and there is none exactly when no such ".name" occurs |
| ArduinoCfg.Rest | common/scripts/max1000_riscv_waf/arduino.py:69 | the rest skips the prefix and one more character, and is empty when the key is not that long |
| ArduinoCfg.BoardSteps | common/scripts/max1000_riscv_waf/arduino.py:67-72 | every key starting with the board key assigns its rest and value, and no other key assigns anything |
| ArduinoCfg.BoardLookup | common/scripts/max1000_riscv_waf/arduino.py:65-72 | a board holds a setting exactly when some key with the board key as prefix has that rest, with the value of the last such key |
| ArduinoCfg.BoardsSteps | common/scripts/max1000_riscv_waf/arduino.py:61-73 | each key matching the board pattern assigns its board under the board's name (the value of its `name` setting), and no other key assigns anything |
| ArduinoCfg.Canon | common/scripts/max1000_riscv_waf/arduino.py:73 | the value a dictionary key is compared by: True is 1, False is 0, any other value is itself |
| ArduinoCfg.FindKey | common/scripts/max1000_riscv_waf/arduino.py:73 | the position of the first stored key equal to the name under `==`, or -1 when none is |
| ArduinoCfg.Get | common/scripts/max1000_riscv_waf/arduino.py:73 | `boards_cfg[name]` finds a board exactly when some stored key equals the name |
| ArduinoCfg.PutBoard | common/scripts/max1000_riscv_waf/arduino.py:73 | `boards_cfg[name] = board`: the name then finds the board, other names find what they found before, an equal stored key keeps its place and object, and a new name is appended |
| ArduinoCfg.AssignBoardsLookup | common/scripts/max1000_riscv_waf/arduino.py:61-73 | after a run of assignments a name is found exactly when some step assigned an equal name; it finds the last such step's board under the first such step's key |
| ArduinoCfg.BoardsOf | common/scripts/max1000_riscv_waf/arduino.py:58-74 | the boards dictionary holds no two keys equal under `==`, and a board for every key |
| ArduinoCfg.TrueAndOneMerge | common/scripts/max1000_riscv_waf/arduino.py:73 | a board named true followed by a board named 1 give one entry: both names find the later board, stored under the key True |
| ArduinoCfg.BoardsLookup | common/scripts/max1000_riscv_waf/arduino.py:58-74 | a name is present exactly when some matching key leads to a board whose name equals it under Python's `==` (True and 1 being one name); it holds the board of the last such key, stored under the name of the first |
| ArduinoCfg.ParseArduinoBoardCfg | common/scripts/max1000_riscv_waf/arduino.py:58-74 | the loops' outcome is the specified dictionary of boards, keyed under Python's `==`, or the configuration's error |
| ArduinoCfg.BoardConfig | common/scripts/max1000_riscv_waf/arduino.py:65-72 | the inner loop collects exactly the board's settings and its name |
| CommonWaf.ExpandPortSpec | common/scripts/common_waf/__init__.py:116-130 | a port `int()` rejects is returned unchanged; a numeric port becomes the platform's device prefix followed by a number that reads back as the port's value |
| CommonWaf.SplitExtSpec | common/scripts/common_waf/__init__.py:142 | root and extension make up the name again; the extension is empty or a dot followed by no further dot, and a name of only dots before that dot has none |
| CommonWaf.LastDot | common/scripts/common_waf/__init__.py:142 | the position found is the last dot before the end, or -1 when there is none |
| CommonWaf.Programs | common/scripts/common_waf/__init__.py:138-144 | there are no more programs than directory entries |
| CommonWaf.ProgramsSpec | common/scripts/common_waf/__init__.py:138-144 | the programs are exactly the names of the listed regular files whose extension is empty, .exe or .elf |
| CommonWaf.ProgramsNext | common/scripts/common_waf/__init__.py:139-144 | one more entry adds its name exactly when it is such a program |
| CommonWaf.Hits | common/scripts/common_waf/__init__.py:148-149 | a program matches no more times than there are prefixes |
| CommonWaf.HitsSpec | common/scripts/common_waf/__init__.py:148-149 | a program matches exactly when it starts with one of the prefixes followed by the app |
| CommonWaf.HitsNext | common/scripts/common_waf/__init__.py:148-149 | one more prefix adds one hit exactly when the program starts with it followed by the app |
| CommonWaf.Copies | common/scripts/common_waf/__init__.py:148-152 | n copies of a root, each equal to it |
| CommonWaf.SpellsPrefix | common/scripts/common_waf/__init__.py:147-152 | whether a program spells the app does not depend on the programs after it |
| CommonWaf.CandidatesMembers | common/scripts/common_waf/__init__.py:146-152 | the candidates are the roots of the programs that spell the app, and there are none exactly when no program does |
| CommonWaf.CandidatesFirst | common/scripts/common_waf/__init__.py:146-152 | the first candidate is the root of the first program that spells the app |
| CommonWaf.CandidatesNext | common/scripts/common_waf/__init__.py:147-152 | one more program adds its root once per prefix that makes it spell the app |
| CommonWaf.Choose | common/scripts/common_waf/__init__.py:154-157 | the choice is the app itself or one of the candidates |
| CommonWaf.ExpandAppKeeps | common/scripts/common_waf/__init__.py:133-159 | the app is kept exactly when no program spells it or some program that does has the app as its root |
| CommonWaf.ExpandAppFirst | common/scripts/common_waf/__init__.py:154-157 | otherwise the result is the root of the first program that spells the app |
| CommonWaf.ExpandApp | common/scripts/common_waf/__init__.py:133-159 | the method returns the specified choice among the candidates of the listed programs |
| CommonWaf.PossibleApps | common/scripts/common_waf/__init__.py:146-152 | the outer loop collects exactly the candidates |
| CommonWaf.AddRoots | common/scripts/common_waf/__init__.py:148-152 | the inner loop appends the program's root once per matching prefix |
| CommonWaf.BasenameSpec | common/scripts/common_waf/__init__.py:112 | the base name is the tail after the last '/', or the whole path when it has none |
| CommonWaf.Kept | common/scripts/common_waf/__init__.py:110-113 | no more files are kept than were listed |
| CommonWaf.KeptSpec | common/scripts/common_waf/__init__.py:110-113 | the kept files are exactly the listed files whose base name starts with a digit |
| CommonWaf.KeptIdempotent | common/scripts/common_waf/__init__.py:110-113 | filtering twice keeps the same files as filtering once |
| CommonWaf.KeptAppend | common/scripts/common_waf/__init__.py:108-113 | filtering two listings one after the other is filtering their concatenation |
| CommonWaf.KeptNext | common/scripts/common_waf/__init__.py:110-113 | one more file is kept exactly when the filter matches it |
| CommonWaf.GlobAppsSrcs | common/scripts/common_waf/__init__.py:100-114 | the result is the matching C files followed by the matching C++ files |
| CommonWaf.AppendKept | common/scripts/common_waf/__init__.py:110-113 | the inner loop appends exactly the kept files of one listing |
| Avrdude.PartName | common/scripts/avrwaf/avrdude.py:38-40 | the attiny13a is passed as attiny13 and every other part by its own name |
| Avrdude.Configure | common/scripts/avrwaf/avrdude.py:38-46 | AVRDUDEFLAGS gains the part option and the part name |
| Avrdude.PairsLookup | common/scripts/avrwaf/avrdude.py:63-75 | each of the -c, -b and -P options reads back as the value given, or as absent |
| Avrdude.PairLookup | common/scripts/avrwaf/avrdude.py:63-75 | an option pair at the front answers for its option, and the rest of the list answers for the others |
| Avrdude.ProgrammerOption | common/scripts/avrwaf/avrdude.py:50-63 | -c is present exactly when a programmer is set, naming stk500v1 for arduino_as_isp and the programmer itself otherwise |
| Avrdude.SpeedOption | common/scripts/avrwaf/avrdude.py:50-66 | -b is present exactly when a speed is set or forced to 19200 by arduino_as_isp, and its text reads back as that speed |
| Avrdude.PortOption | common/scripts/avrwaf/avrdude.py:68-75 | -P names the port when one is set, or the default serial port for an Arduino programmer |
| Avrdude.ProgrammerFlagsStable | common/scripts/avrwaf/avrdude.py:48-83 | the speed and port the call stores do not change the options a later call makes |
| Avrdude.GenProgrammerCmd | common/scripts/avrwaf/avrdude.py:48-83 | the command is AVRDUDE extended in place by the flags and the programmer options, and the stored speed and port are updated |
| Avrdude.ReadFuses | common/scripts/avrwaf/avrdude.py:86-94 | the bare programmer command runs and run returns its status |
| Avrdude.Hex | common/scripts/avrwaf/avrdude.py:120 | the hexadecimal text has at least one digit |
| Avrdude.DigitRoundTrip | common/scripts/avrwaf/avrdude.py:120 | each hexadecimal digit reads back as its value |
| Avrdude.HexRoundTrip | common/scripts/avrwaf/avrdude.py:120 | the text `{:x}` writes reads back as the number |
| Avrdude.FuseArgsSpec | common/scripts/avrwaf/avrdude.py:117-126 | the chip is erased when asked for and each set fuse is written, and nothing else is added |
| Avrdude.FuseWrittenIffSet | common/scripts/avrwaf/avrdude.py:117-126 | a fuse is written exactly when it is set, and the chip erased exactly when asked |
| Avrdude.NotErase | common/scripts/avrwaf/avrdude.py:119-126 | a fuse argument is never the erase option |
| Avrdude.FuseArgNe | common/scripts/avrwaf/avrdude.py:119-126 | arguments for different fuses differ |
| Avrdude.FuseArgValue | common/scripts/avrwaf/avrdude.py:119-126 | a fuse argument is -U, the memory, :w:0x, hexadecimal digits reading back as the value, and :m |
| Avrdude.WriteFuses | common/scripts/avrwaf/avrdude.py:104-136 | with no fuse set nothing runs and run returns 0; with a fuse set and no `erase_chip` on the task generator, the programmer flags are already added and the AttributeError ends the task before anything runs; otherwise the programmer command with the fuse arguments runs and run returns its status |
| Avrdude.AppendFuseArgs | common/scripts/avrwaf/avrdude.py:117-126 | the appends add exactly the fuse arguments |
| Avrdude.Upload | common/scripts/avrwaf/avrdude.py:145-159 | only the first input is uploaded, with the lock byte when set; nothing runs without input; the status is the command's, or 0 when errors are ignored |
| Avrdude.FlashArgSpec | common/scripts/avrwaf/avrdude.py:148-152 | the flash argument names the file, with v when only verifying and w otherwise, and the Intel HEX format |
| IrqTable.DispatchedSound | firmware/src/hal/irq.c:43-51 | every call made is for a pending source with a registered handler, carrying that handler and the argument |
| IrqTable.DispatchedComplete | firmware/src/hal/irq.c:43-51 | every pending source with a registered handler is called |
| IrqTable.DispatchedIndicesFrom | firmware/src/hal/irq.c:45 | the calls made from index `from` on have indices at or above it |
| IrqTable.DispatchedAscending | firmware/src/hal/irq.c:45-50 | the calls are in strictly ascending index order |
| IrqTable.DispatchedExactly | firmware/src/hal/irq.c:43-51 | one trap calls exactly the registered handlers of the pending bits, each once, in ascending bit order, all with the same argument |
| IrqTable.AscendingOnce | firmware/src/hal/irq.c:45-50 | ascending order means no source is called twice |
| IrqTable.ScanLowestSetBit | firmware/src/hal/irq.c:28-33 | the shift-and-count loop stops at the lowest set bit of a nonzero word |
| IrqTable.SetHandlerIn | firmware/src/hal/irq.c:27-35 | only the entry at the lowest set bit changes, to the handler |
| IrqTable.ZeroScanNeverStops | firmware/src/hal/irq.c:29-32 | no bit of the mask 0 is ever set, so the shift-and-count loop never stops for it |
| IrqTable.SetHandlerChecked | firmware/src/hal/irq.c:27-35 | corrected: a zero mask registers nothing, and a nonzero one changes only the entry at its lowest set bit, to the handler |
| IrqTable.ClearTable | firmware/src/hal/irq.c:37-41 | every entry becomes IRQ_UNSET |
| IrqTable.DispatchFrom | firmware/src/hal/irq.c:45-50 | the dispatch loop makes exactly the calls of Dispatched on the pending bits of `irqs` |
| IrqTable.DispatchPending | firmware/src/hal/irq.c:45-50 | the loop over unpacked pending bits makes exactly the calls of Dispatched |
| HalIrq.EcallMaskBits | firmware/src/hal/irq.c:19 | the ECALL mask has exactly its own bit set and that bit is its lowest |
| HalIrq.EcallTimerMaskBits | firmware/examples/09_concurrent_threads.c:39 | the union of IRQ_ECALL and IRQ_TIMER0 has exactly the two sources' bits |
| HalIrq.Timer0Lowest | firmware/examples/09_concurrent_threads.c:162 | timer 0 registers at index 0 |
| HalIrq.Controller.Enabled | firmware/src/hal/irq.c:14 | irq_get_enabled is the bitwise complement of the mask register |
| HalIrq.EnabledBits | firmware/src/hal/irq.c:14 | a source is enabled exactly when its mask bit is clear |
| HalIrq.Controller.constructor | firmware/src/hal/irq.c:10 | the static table starts zero-filled |
| HalIrq.Controller.SetEnabled | firmware/src/hal/irq.c:12 | afterwards exactly `mask` is enabled, and the result is the previously enabled set |
| HalIrq.Controller.Ecall | firmware/src/hal/irq.c:18-25 | traps and returns true exactly when the ECALL source is not masked |
| HalIrq.Controller.SetHandler | firmware/src/hal/irq.c:27-35 | only the entry at the lowest set bit of a nonzero `irq` changes, to the handler |
| HalIrq.Controller.Init | firmware/src/hal/irq.c:37-41 | every entry becomes IRQ_UNSET |
| HalIrq.Controller.Isr | firmware/src/hal/irq.c:43-51 | the calls made are Dispatched for the pending bits, each passed the full mask and the same frame |
| HalIrq.RegisteredHandlerCalled | firmware/src/hal/irq.c:27-51 | a handler registered for a source is called, with the full mask and frame, on every trap with that source pending |
| IrqLegacy.Controller.constructor | firmware/src/irq.c:5 | the static table starts zero-filled |
| IrqLegacy.Controller.Enable | firmware/src/irq.c:7 | the mask register becomes the complement of `mask` (exactly the bits not enabled), and the result has a bit set exactly where the old mask bit was clear |
| IrqLegacy.Controller.SetHandler | firmware/src/irq.c:11-19 | only the entry at the lowest set bit of a nonzero `irq` changes |
| IrqLegacy.Controller.Init | firmware/src/irq.c:21-26 | the display shows 0xb005 and every entry becomes IRQ_UNSET |
| IrqLegacy.Controller.Isr | firmware/src/irq.c:28-36 | the calls made are Dispatched for the pending bits, each passed the full mask |
| IrqLegacy.TwoHandlersInOrder | firmware/src/irq.c:28-36 | two registered pending handlers are both called, the lower bit first |
| Threads.FirstFree | firmware/examples/09_concurrent_threads.c:45-52 | NO_THREAD exactly when every slot is used; otherwise an unused slot with every lower slot used (the lowest free slot) |
| Threads.Runtime.NewId | firmware/examples/09_concurrent_threads.c:45-52 | threads_new_id's loop returns FirstFree of the current table |
| Threads.ScanSlotMod | firmware/examples/09_concurrent_threads.c:56 | the probe computed with 32-bit unsigned wrap-around is (current + t) mod MAX_THREADS, NO_THREAD included |
| Threads.NextUsedFromSpec | firmware/examples/09_concurrent_threads.c:55-61 | the scan from step t answers a used slot reached at the first step whose slot is used, or NO_THREAD exactly when no probed slot is used |
| Threads.NextUsedSpec | firmware/examples/09_concurrent_threads.c:54-62 | threads_next_id returns a used slot, the first in probe order current+1 .. current+MAX_THREADS, or NO_THREAD exactly when none of the probed slots is used |
| Threads.Runtime.NextId | firmware/examples/09_concurrent_threads.c:54-62 | the loop returns NextUsed of the current table and current id |
| Threads.ScanCovers | firmware/examples/09_concurrent_threads.c:55-56 | every slot is probed by some step 1..MAX_THREADS |
| Threads.ScanInjective | firmware/examples/09_concurrent_threads.c:55-56 | distinct probe steps visit distinct slots |
| Threads.Steps | firmware/examples/09_concurrent_threads.c:55-56 | the step count from the current id to a slot lies in 1..MAX_THREADS and that step probes the slot |
| Threads.NextUsedNone | firmware/examples/09_concurrent_threads.c:54-62 | the scheduler finds no thread exactly when no slot is used |
| Threads.CurrentChosenLast | firmware/examples/09_concurrent_threads.c:54-62 | the current thread is chosen again exactly when it is the only used slot |
| Threads.NoCurrentStartsAtZero | firmware/examples/09_concurrent_threads.c:54-62 | with no current thread the wrapped scan starts at slot 0, so the lowest used slot is chosen |
| Threads.NextUsedApproaches | firmware/examples/09_concurrent_threads.c:54-62 | for every used slot, the choice is that slot or a position strictly fewer probe steps from it than the current one |
| Threads.StepsShift | firmware/examples/09_concurrent_threads.c:55-56 | from the slot reached in k steps, the slot reached in ks steps is ks - k steps further on |
| Threads.EveryThreadScheduled | firmware/examples/09_concurrent_threads.c:131-153 | no starvation: over an unchanged table every used slot becomes current within Steps(current, s) context switches |
| Threads.FrameOf | firmware/examples/09_concurrent_threads.c:11-15 | a slot's saved frame is the 32 words of that slot in the frame table |
| Threads.Splice | firmware/examples/09_concurrent_threads.c:93-129 | the frame run at `at` becomes f and every word outside it is kept |
| Threads.SpliceOtherSlots | firmware/examples/09_concurrent_threads.c:146-151 | writing one slot's frame leaves every other slot's frame unchanged |
| Threads.FrameCopy | firmware/examples/09_concurrent_threads.c:93-129 | thread_frame_copy: the destination's 32 frame words (pc, x1..x31) become the source's and nothing else in the destination changes |
| Threads.LeaveMaskBits | firmware/examples/09_concurrent_threads.c:37-43 | the mask critical_section_leave enables has exactly the ECALL bit, plus bit 0 (timer 0) unless the mode is COOPERATIVE |
| Threads.Runtime.constructor | firmware/examples/09_concurrent_threads.c:24-26 | static storage: every slot unused and zeroed, no current thread |
| Threads.Runtime.Yield | firmware/examples/09_concurrent_threads.c:28-33 | yield traps exactly when the mode is not PREEMPTIVE |
| Threads.Runtime.CriticalSectionEnter | firmware/examples/09_concurrent_threads.c:35 | every interrupt source is disabled |
| Threads.Runtime.CriticalSectionLeave | firmware/examples/09_concurrent_threads.c:37-43 | the enabled set becomes LeaveMask(mode), whatever it was before entry |
| Threads.Runtime.Guard | firmware/examples/09_concurrent_threads.c:64-71 | after the entry function returns only the thread's own `used` flag is cleared, then it traps |
| Threads.Runtime.Create | firmware/examples/09_concurrent_threads.c:73-91 | returns FirstFree; on a full table nothing changes; otherwise exactly that slot becomes used and its frame gets pc = thread_guard, a0 = id, a1 = entry, a2 = argument, sp = top of its stack, other words kept; interrupts end as LeaveMask |
| Threads.Runtime.SeedFrame | firmware/examples/09_concurrent_threads.c:84-89 | only the five frame words of the new slot change |
| Threads.CreatedFrame | firmware/examples/09_concurrent_threads.c:84-89 | the seeded frame reads back the guard, id, entry, argument and stack pointer, and every other register is unchanged |
| Threads.StackTopInsideStack | firmware/examples/09_concurrent_threads.c:88-89 | the initial sp is the 32-bit byte address of the slot's last stack word, inside that slot's stack and one word below its end |
| Threads.StacksDisjoint | firmware/examples/09_concurrent_threads.c:88-89 | two slots' stacks do not overlap, and their initial stack pointers differ |
| Threads.Runtime.ContextSwitch | firmware/examples/09_concurrent_threads.c:131-153 | the four cases: idle (nothing changes), resume the chosen slot (frame loaded, current set), keep (nothing changes), switch (trap frame saved into the current slot, next slot's frame loaded, current = next), plus the flagged case of a current thread with an empty table, where slot -1 is read |
| Threads.Runtime.SwitchOut | firmware/examples/09_concurrent_threads.c:146-152 | the current slot's frame becomes the trap frame, then the trap frame becomes the next slot's old frame (or the words before the table) |
| Threads.Runtime.Initialize | firmware/examples/09_concurrent_threads.c:155-168 | mode recorded, every slot unused, frames and current id kept, context_switch installed at the ECALL bit (and bit 0 unless COOPERATIVE), enabled set LeaveMask(mode), timer 0 interval TIME_SLICE unless COOPERATIVE |
| Threads.Runtime.FreeAll | firmware/examples/09_concurrent_threads.c:157-159 | every slot is unused afterwards |
| Threads.Runtime.Start | firmware/examples/09_concurrent_threads.c:170-175 | unless COOPERATIVE, timer 0 is enabled by the timer driver's reset-register update and every other timer bit is kept; under COOPERATIVE the register is untouched; then yield traps exactly when not PREEMPTIVE |
| Threads.FreedNeverSelected | firmware/examples/09_concurrent_threads.c:54-71 | a slot freed by thread_guard is never chosen by threads_next_id |
| Threads.TwoThreadsAlternate | firmware/examples/09_concurrent_threads.c:54-62 | with exactly two used slots the scheduler goes from either to the other |
| Threads.Mutex.constructor | firmware/examples/09_concurrent_threads.c:19-22 | a zeroed mutex: no flag raised and turn 0 |
| Threads.Mutex.Init | firmware/examples/09_concurrent_threads.c:177-182 | every wants_to_enter flag cleared and turn = 0 |
| Threads.Mutex.Unlock | firmware/examples/09_concurrent_threads.c:200-203 | turn = caller and only the caller's flag is cleared |
| Threads.Mutex.LockStart | firmware/examples/09_concurrent_threads.c:184-198 | only the caller's flag is raised, and the step is FirstContender of the new flags |
| Threads.FirstContender | firmware/examples/09_concurrent_threads.c:186-197 | Entered exactly when no other thread's flag is raised; otherwise the lowest other thread whose flag is raised |
| Threads.UncontendedLockEnters | firmware/examples/09_concurrent_threads.c:184-198 | with no other flag raised, mutex_lock enters at once |
| Threads.Rng.constructor | firmware/examples/09_concurrent_threads.c:232 | the static seed starts at 0 |
| Threads.Rng.Rand | firmware/examples/09_concurrent_threads.c:228-238 | an empty range gives 0 and keeps the seed; otherwise the seed takes one generator step and the result lies in [start, end], equal to start + seed mod size when the size does not wrap |
| Threads.NextSeed | firmware/examples/09_concurrent_threads.c:236 | the 32-bit wrapping step equals (A * seed + C) mod 2^31 and stays below 2^31 |
| Threads.WrapThenReduce | firmware/examples/09_concurrent_threads.c:236 | reducing mod 2^32 before mod 2^31 changes nothing |
| Threads.FactorialWraps | firmware/examples/09_concurrent_threads.c:240-245 | the 32-bit recursive factorial is n! mod 2^32 |
| Threads.FactorialExactUpTo12 | firmware/examples/09_concurrent_threads.c:240-245 | factorial is exact up to 12 |
| Threads.FactorialWrapsAt13 | firmware/examples/09_concurrent_threads.c:240-245 | factorial(13) differs from 13! |
| Words.LowestSetBitSpec | firmware/src/hal/irq.c:28-33 | the index the handler registration finds is the lowest set bit of the mask, and no other index is |
| Words.Not32Bits | firmware/src/hal/irq.c:12 | the complement `~` flips every one of the 32 bits |
| Words.NotNot | firmware/src/hal/irq.c:12 | complementing twice gives the word back, so irq_set_enabled's two complements cancel |
| Words.Sub64 | firmware/examples/07_interrupt_handlers.c:24 | the 64-bit `now - last`: the plain difference when the clock has not wrapped, the difference plus 2^64 when it has |
| Bits.TestBit | firmware/src/hal/gpio.c:33 | masking with `1 << k` leaves a non-zero value exactly when bit k exists and is set |
| Threads.FirstFreeFrom | firmware/examples/09_concurrent_threads.c:46-51 | the scan from slot t answers the first unused slot at or after t, and NO_THREAD exactly when all of them are used |
| Threads.ScanSlot | firmware/examples/09_concurrent_threads.c:56 | every probed slot is a valid slot index |
| Numerals.Numeral | bootloader/src/optiboot.c:49-80 | the text has one character per padded digit |
| Buttons07.Handler.constructor | firmware/examples/07_interrupt_handlers.c:22-23 | both static arrays start zeroed: every button at time 0 and LOW |
| Clock08.Clock.constructor | firmware/examples/08_timers.c:14-16 | the clock starts at 00:00:00 |
| Demo.Handlers.constructor | firmware/src/demo.c:17-19 | the counter statics start at time 0, running, counter 1, and the semaphore in state 0 |
| Seg02.Example.constructor | firmware/examples/02_seven_segm_hex.c:4 | the counter starts at 1 |
| Seg03.Example.constructor | firmware/examples/03_seven_segm_custom.c:4 | the symbol starts at bit 0 alone |
| LegacyLibc.Libc.constructor | firmware/src/libc.c:24 | the heap pointer starts at the start of SDRAM |

## Left out

- Trap entry and return, `__ecall`, `__irq_set_mask`, `__irq_wait`, `__reset` and `__exit` are assembly. Writing the mask register is the `maskReg` field, and a trap is an outcome the methods report.
- HalIrq.Controller.SetHandler and IrqLegacy.Controller.SetHandler: these require a nonzero mask, because irq_set_handler never returns for the mask 0. The non-termination is not modelled; it is shown by IrqTable.ZeroScanNeverStops and listed under Findings, and IrqTable.SetHandlerChecked is the corrected registration that these methods call.
- irq_wait, sleep, flash_led, await and the get_ch/put_ch polling loops: they wait on hardware and the clock. The clock is an input value.
- mutex_lock's contended spin: its point is interleaving. Only the flag update and the first contender it would wait on are modelled (Threads.Mutex.LockStart).
- The workers, printing and `setup` of the concurrent-threads example only sequence runtime calls.
- Threads.Runtime.ContextSwitch: the model has no separate "at most one current thread" invariant. The current id is a single field, so it can name at most one slot.
- Frames, linker symbols and handlers are abstract indices. The thread table's address is a parameter, not the linker's placement. The initial stack pointer is the 32-bit byte address of the slot's last stack word, computed from that table address (Threads.StackTopAt).
- Main01.Board.GetStr and Main01.Board.ReadLine require the bytes of the line to arrive, since getstr waits for them indefinitely. A read that never completes is not modelled.
- Optiboot.Bootloader and SdramOptiboot.SdramBootloader: a command cut off because the input ran out ends the session with the Stalled outcome. That outcome's memory is the memory from before the cut-off command. So the bytes a cut-off STK_PROG_PAGE has already stored are not in it.
- The debug text `put_dbg` of bootloader/src/optiboot.c is not modelled. `put_num`, which it uses, is.
- Numerals.Numeral: bases above 36, whose digits run past 'Z', have no reading-back lemma.
- The main function of firmware/01_main.c only calls the modelled board operations in a fixed order: puthex, putled, getstr, getsw and putstr.
- The `setup` bodies of examples 07 and 08 and of firmware/src/demo.c only register handlers, set timer intervals and enable timers and interrupts. This wiring is not modelled.
- The loop of example 08 is empty. The loop of firmware/src/demo.c prints the uptime read from millis() and sleeps until the next second. That is output and waiting, so it is not modelled.
- `redraw_led_matrix` (firmware/src/demo.c:5-14) computes a moving pixel pattern from millis() and writes it to the 8×8 display. The display is not modelled.
- Buttons07.Spinner.Loop leaves out the 250 ms sleep of example 07's loop, which only waits.
- Demo.Handlers.UpdateCounter reads the clock once (the parameter `now`). firmware/src/demo.c:24-25 calls millis() twice, once for the debounce test and once for the time recorded, so the recorded time can be later than the tested one.
- Buttons07.Handler.ButtonEvent reads the clock once per interrupt (the parameter `now`). The source calls millis() up to twice for each button.
- The 8×8 pixel display, firmware/src/uart.c and the printf/puts text of the handlers: they are output only. The printed lines of 07 and 08 are modelled as strings.
- LegacyLibc.Libc.constructor: the static initialiser of `heap` stands in for the link-time value `__sdram_start`.
- `_exit` and `_kill` of both libc layers end or signal the program, which the model does not represent.
- The regular expressions `\w` and `\d` and Python's `int()` accept Unicode letters and digits. The model accepts only ASCII ones.
- ArduinoCfg, CommonWaf and MakeHex: file contents, `readlines`, `glob` and `ant_glob` listings are parameters. The `filter_regex` of glob_apps_srcs is fixed at its default.
- Avrdude: `find_program` and the PATH search are replaced by the found program as a parameter. `exec_command` is replaced by its exit status as a parameter. Messages printed are not modelled.
- The configure/build/_search_for_libs parts of arduino.py, the waf task-generator hooks, and the pre- and post-upload tasks of avrdude.py are toolchain wiring.
- Avrdude.Env: the programmer speed is an integer with 0 meaning unset, as the script's falsy test treats it.
- firmware/src/main.c is a superseded bootloader and is not part of this model.
- Header files not part of this model: firmware/include/hal/irq.h, the STK500 command header, and the TIMEOUT_MS definition. The constants they define are taken as described above.

## Findings

| source | as written | input that shows it | evidently intended | confidence | as-written member | corrected member |
|---|---|---|---|---|---|---|
| firmware/src/gpio.c:11-13 | get_btn tests bit `button + 8`, where `button` is the mask value, not the bit position | only the up button's input (bit 8) high: the legacy driver reads BTN_UP (mask 1) at bit 9, so up reads released | test `(register >> 8) & button` as the HAL driver does | high, not executed | GpioLegacy.UpButtonMisread | HalGpio.Gpio.GetBtn |
| firmware/src/gpio.c:3-5 | set_led ANDs the register with `1 << index` and ignores the state | set_led(1, HIGH) with only LED 0 lit leaves every LED dark | set bit `index` to the state and keep the other LEDs | high, not executed | GpioLegacy.SetLedNeverLights | HalGpio.Gpio.SetLed |
| firmware/src/hal/irq.c:27-35 | irq_set_handler shifts the mask right until its low bit is set; the mask 0 never has a set bit (firmware/src/irq.c:11-19 is the same) | irq_set_handler(0, f) loops forever | register nothing for an empty mask | high, not executed | IrqTable.ZeroScanNeverStops | IrqTable.SetHandlerChecked |
| bootloader/src/optiboot.c:50-78 | the buffer holds 32 characters, and the NUL goes right after the digits | put_num(2^31, 2) writes 32 digits, then the NUL at index 32, one past the buffer | a buffer of 33 characters, with room for the NUL | medium, not executed | Numerals.TerminatorPastBuffer | Numerals.PutNum |
