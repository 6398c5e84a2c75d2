// Interrupt driver of the hardware abstraction layer (firmware/src/hal/irq.c).
//
// The hardware mask register is active-low: a set bit masks (disables) its
// source, so the driver complements masks on the way in and on the way out.
// The assembly helpers that read and write the register are modelled by the
// `maskReg` field: writing returns the previous register value.

module HalIrq {

  import opened Words
  import opened IrqTable

  /** The empty set of sources. */
  const IRQ_NONE: u32 := 0

  /** Timer 0 expiry is bit 0. */
  const IRQ_TIMER0: u32 := 1

  /** The environment call source is a single bit other than timer 0's. Its
      position is fixed by the HAL's interrupt header, which is not part of
      this model, so it is left symbolic. */
  type EcallBit = b: nat | 0 < b < 32 witness 1

  const ECALL_BIT: EcallBit

  /** The environment-call source as a mask. */
  function EcallMask(): (m: u32)
    ensures m == Pow2(ECALL_BIT)
  {
    Pow2InWord(ECALL_BIT);
    Pow2(ECALL_BIT)
  }

  /** The environment-call mask has exactly its own bit set. */
  lemma EcallMaskBits()
    ensures forall i :: 0 <= i < 32 ==> (BitSet(EcallMask(), i) <==> i == ECALL_BIT)
    ensures EcallMask() != 0 && LowestSetBit(EcallMask()) == ECALL_BIT
  {
    forall i | 0 <= i < 32 ensures BitSet(Pow2(ECALL_BIT), i) <==> i == ECALL_BIT {
      Pow2Bits(ECALL_BIT, i);
    }
    LowestSetBitSpec(EcallMask());
  }

  /** `IRQ_ECALL | IRQ_TIMER0`: the two bits are distinct, so the union is
      the sum (see EcallTimerMaskBits). */
  function EcallTimerMask(): (m: u32)
    ensures m == EcallMask() + IRQ_TIMER0
  {
    Pow2InWord(ECALL_BIT);
    EcallMask() + IRQ_TIMER0
  }

  /** `IRQ_ECALL | IRQ_TIMER0` has exactly the two sources' bits set. */
  lemma EcallTimerMaskBits()
    ensures forall i :: 0 <= i < 32 ==> (BitSet(EcallTimerMask(), i) <==> i == ECALL_BIT || i == 0)
  {
    var m := EcallTimerMask();
    forall i | 0 <= i < 32 ensures BitSet(m, i) <==> i == ECALL_BIT || i == 0 {
      Pow2PlusOneBits(ECALL_BIT, i);
    }
  }

  /** Timer 0's mask has bit 0 as its lowest set bit. */
  lemma Timer0Lowest()
    ensures LowestSetBit(IRQ_TIMER0) == 0
  {
    LowestSetBitSpec(IRQ_TIMER0);
  }

  /** What a handler of this driver receives: the pending mask and the
      address of the interrupted thread's saved register frame. */
  datatype HandlerArg = HandlerArg(irqs: u32, frame: nat)

  class Controller {
    /** The hardware mask register: a set bit disables that source. */
    var maskReg: u32
    /** The handler table, indexed by bit position. */
    const vector: array<u32>

    ghost predicate Valid()
      reads this
    {
      vector.Length == IRQ_COUNT
    }

    /** irq_get_enabled: the complement of the mask register, so that the
        enabled sources are the clear bits (see EnabledBits). */
    function Enabled(): (r: u32)
      reads this
      ensures r + maskReg == WORD - 1
    {
      Not32(maskReg)
    }

    /** The table before __irq_init runs is the zero-filled static array. */
    constructor (mask: u32)
      ensures Valid() && fresh(vector) && maskReg == mask
      ensures forall i :: 0 <= i < IRQ_COUNT ==> vector[i] == 0
    {
      maskReg := mask;
      vector := new u32[IRQ_COUNT](_ => 0);
    }

    /** irq_set_enabled: enables exactly `mask` and reports the previously
        enabled set. */
    method SetEnabled(mask: u32) returns (previous: u32)
      modifies this`maskReg
      ensures Enabled() == mask
      ensures previous == old(Enabled())
    {
      var oldMask := maskReg;
      maskReg := Not32(mask);
      NotNot(mask);
      previous := Not32(oldMask);
    }

    /** irq_ecall: returns false without trapping when the environment call
        source is masked; otherwise traps and returns true. */
    method Ecall() returns (trapped: bool)
      ensures trapped <==> BitSet(Enabled(), ECALL_BIT)
    {
      Not32Bits(maskReg);
      if BitSet(maskReg, ECALL_BIT) {
        trapped := false;
      } else {
        trapped := true;
      }
    }

    /** irq_set_handler: stores the handler at the index of the lowest set
        bit of `irq` and leaves every other entry unchanged. A zero `irq`
        makes the scan run forever, so callers must name a source. */
    method SetHandler(irq: u32, handler: u32)
      requires Valid() && irq != 0
      modifies vector
      ensures vector[..] == old(vector[..])[LowestSetBit(irq) := handler]
    {
      SetHandlerChecked(vector, irq, handler);
    }

    /** __irq_init: every entry becomes unset. */
    method Init()
      requires Valid()
      modifies vector
      ensures forall i :: 0 <= i < IRQ_COUNT ==> vector[i] == IRQ_UNSET
    {
      ClearTable(vector);
    }

    /** __isr: the handler invocations made for one trap entry with pending
        mask `irqs` and saved frame `frame`, in the order they are made. */
    method Isr(irqs: u32, frame: nat) returns (calls: seq<Call<HandlerArg>>)
      requires Valid()
      ensures calls == Dispatched(BitsOf(irqs), HandlerArg(irqs, frame), vector[..], 0)
    {
      calls := DispatchFrom(vector, irqs, HandlerArg(irqs, frame));
    }
  }

  /** A source is enabled exactly when its mask bit is clear. */
  lemma EnabledBits(c: Controller)
    ensures forall i :: 0 <= i < 32 ==> (BitSet(c.Enabled(), i) <==> !BitSet(c.maskReg, i))
  {
    Not32Bits(c.maskReg);
  }

  /** Registering one handler and then dispatching calls that handler for
      every trap whose mask has the registered bit set. */
  lemma RegisteredHandlerCalled(table: seq<u32>, irq: u32, handler: u32, irqs: u32, frame: nat)
    requires |table| == IRQ_COUNT && irq != 0 && handler != IRQ_UNSET
    requires BitSet(irqs, LowestSetBit(irq))
    ensures Call(LowestSetBit(irq), handler, HandlerArg(irqs, frame))
      in Dispatched(BitsOf(irqs), HandlerArg(irqs, frame), table[LowestSetBit(irq) := handler], 0)
  {
    var t := table[LowestSetBit(irq) := handler];
    DispatchedExactly(irqs, HandlerArg(irqs, frame), t);
  }
}
