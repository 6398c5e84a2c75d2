// The older interrupt driver (firmware/src/irq.c): one mask argument per
// handler, a single enable call, and a start-up marker on the hex display.

module IrqLegacy {

  import opened Words
  import opened IrqTable

  /** Sources named by the driver's header, as masks. */
  const IRQ_ALL_DISABLED: u32 := 0
  const IRQ_TIMER0: u32 := 1
  const IRQ_TIMER1: u32 := 2
  const IRQ_TIMER2: u32 := 4
  const IRQ_TIMER3: u32 := 8
  const IRQ_UART_RX_READY: u32 := 0x10
  const IRQ_BUTTON_EVENT: u32 := 0x4000_0000
  const IRQ_SWITCH_EVENT: u32 := 0x8000_0000
  const IRQ_ALL_ENABLED: u32 := 0xFFFF_FFFF

  /** The value __irq_init shows on the hexadecimal display. */
  const BOOT_MARK: nat := 0xb005

  class Controller {
    /** The hardware mask register: a set bit disables that source. */
    var maskReg: u32
    /** The 16-bit hexadecimal display register. */
    var hexDisplay: nat
    /** The handler table, indexed by bit position. */
    const vector: array<u32>

    ghost predicate Valid()
      reads this
    {
      vector.Length == IRQ_COUNT
    }

    constructor (mask: u32, display: nat)
      requires display < 0x1_0000
      ensures Valid() && fresh(vector) && maskReg == mask && hexDisplay == display
      ensures forall i :: 0 <= i < IRQ_COUNT ==> vector[i] == 0
    {
      maskReg := mask;
      hexDisplay := display;
      vector := new u32[IRQ_COUNT](_ => 0);
    }

    /** irq_enable: writes the complement of `mask` to the register and
        returns the complement of the value it held, i.e. the previously
        enabled set. */
    method Enable(mask: u32) returns (previous: u32)
      modifies this`maskReg
      ensures maskReg == Not32(mask)
      ensures forall i :: 0 <= i < 32 ==> (BitSet(maskReg, i) <==> !BitSet(mask, i))
      ensures forall i :: 0 <= i < 32 ==> (BitSet(previous, i) <==> !BitSet(old(maskReg), i))
    {
      Not32Bits(mask);
      Not32Bits(maskReg);
      var oldMask := maskReg;
      maskReg := Not32(mask);
      previous := Not32(oldMask);
    }

    /** irq_set_handler: stores the handler at the lowest set bit of `irq`
        only. A zero `irq` loops forever. */
    method SetHandler(irq: u32, handler: u32)
      requires Valid() && irq != 0
      modifies vector
      ensures vector[..] == old(vector[..])[LowestSetBit(irq) := handler]
    {
      SetHandlerChecked(vector, irq, handler);
    }

    /** __irq_init: shows 0xb005 on the hex display and unsets every entry. */
    method Init()
      requires Valid()
      modifies this`hexDisplay, vector
      ensures hexDisplay == BOOT_MARK
      ensures forall i :: 0 <= i < IRQ_COUNT ==> vector[i] == IRQ_UNSET
    {
      hexDisplay := BOOT_MARK;
      ClearTable(vector);
    }

    /** __isr: calls each registered pending handler once, in ascending bit
        order, with the full pending mask. */
    method Isr(irqs: u32) returns (calls: seq<Call<u32>>)
      requires Valid()
      ensures calls == Dispatched(BitsOf(irqs), irqs, vector[..], 0)
    {
      calls := DispatchFrom(vector, irqs, irqs);
    }
  }

  /** Two handlers registered for different sources are both called when
      both sources are pending, the lower-numbered one first. */
  lemma TwoHandlersInOrder(table: seq<u32>, irqs: u32, i: nat, j: nat)
    requires |table| == IRQ_COUNT && i < j < IRQ_COUNT
    requires BitSet(irqs, i) && BitSet(irqs, j)
    requires table[i] != IRQ_UNSET && table[j] != IRQ_UNSET
    ensures exists k, l ::
              0 <= k < l < |Dispatched(BitsOf(irqs), irqs, table, 0)|
              && Dispatched(BitsOf(irqs), irqs, table, 0)[k] == Call(i, table[i], irqs)
              && Dispatched(BitsOf(irqs), irqs, table, 0)[l] == Call(j, table[j], irqs)
  {
    var calls := Dispatched(BitsOf(irqs), irqs, table, 0);
    DispatchedExactly(irqs, irqs, table);
    var ci :| ci in calls && ci.index == i;
    var cj :| cj in calls && cj.index == j;
    assert ci == Call(i, table[i], irqs) && cj == Call(j, table[j], irqs);
    var k :| 0 <= k < |calls| && calls[k] == ci;
    var l :| 0 <= l < |calls| && calls[l] == cj;
    assert k != l && k < l;
  }
}
