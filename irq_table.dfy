// The interrupt handler table shared by both interrupt drivers
// (firmware/src/hal/irq.c and the older firmware/src/irq.c).
//
// The table holds one handler address per interrupt source, indexed by the
// source's bit position in the pending mask. Handlers are kept as opaque
// 32-bit addresses; a dispatch is recorded as the sequence of calls made.

module IrqTable {

  import opened Words

  /** Number of interrupt sources, one per bit of a machine word. */
  const IRQ_COUNT: nat := 32

  /** The sentinel stored in an empty table entry. */
  const IRQ_UNSET: u32 := 0xFFFF_FFFF

  /** One handler invocation: the table index, the handler found there and
      the argument it is passed. */
  datatype Call<A> = Call(index: nat, handler: u32, arg: A)

  /** The invocations the dispatch loop makes for table indices `from` and
      up, given the pending bits (least significant first). */
  function Dispatched<A>(pending: seq<bool>, arg: A, table: seq<u32>, from: nat): seq<Call<A>>
    requires |pending| == IRQ_COUNT && |table| == IRQ_COUNT && from <= IRQ_COUNT
    decreases IRQ_COUNT - from
  {
    if from == IRQ_COUNT then []
    else
      (if pending[from] && table[from] != IRQ_UNSET
       then [Call(from, table[from], arg)] else [])
      + Dispatched(pending, arg, table, from + 1)
  }

  /** The calls are made in strictly increasing index order. */
  predicate Ascending<A>(calls: seq<Call<A>>) {
    forall k, l :: 0 <= k < l < |calls| ==> calls[k].index < calls[l].index
  }

  /** Every call made from index `from` on is for a pending source with a
      registered handler, and carries that handler and the argument. */
  lemma {:induction false} DispatchedSound<A>(pending: seq<bool>, arg: A, table: seq<u32>, from: nat)
    requires |pending| == IRQ_COUNT && |table| == IRQ_COUNT && from <= IRQ_COUNT
    ensures forall c :: c in Dispatched(pending, arg, table, from) ==>
      from <= c.index < IRQ_COUNT && pending[c.index] && table[c.index] != IRQ_UNSET
      && c.handler == table[c.index] && c.arg == arg
    decreases IRQ_COUNT - from
  {
    if from < IRQ_COUNT {
      DispatchedSound(pending, arg, table, from + 1);
    }
  }

  /** Every pending source at index `from` or above with a registered
      handler is called. */
  lemma {:induction false} DispatchedComplete<A>(pending: seq<bool>, arg: A, table: seq<u32>, from: nat)
    requires |pending| == IRQ_COUNT && |table| == IRQ_COUNT && from <= IRQ_COUNT
    ensures forall i :: from <= i < IRQ_COUNT && pending[i] && table[i] != IRQ_UNSET ==>
      exists c :: c in Dispatched(pending, arg, table, from) && c.index == i
    decreases IRQ_COUNT - from
  {
    if from < IRQ_COUNT {
      DispatchedComplete(pending, arg, table, from + 1);
      var rest := Dispatched(pending, arg, table, from + 1);
      var all := Dispatched(pending, arg, table, from);
      if pending[from] && table[from] != IRQ_UNSET {
        assert all == [Call(from, table[from], arg)] + rest;
        assert all[0].index == from;
        forall i | from < i < IRQ_COUNT && pending[i] && table[i] != IRQ_UNSET
          ensures exists c :: c in all && c.index == i
        {
          var c :| c in rest && c.index == i;
          assert c in all;
        }
      } else {
        assert all == rest;
      }
    }
  }

  /** The calls made from index `from` on have indices at or above `from`. */
  lemma {:induction false} DispatchedIndicesFrom<A>(pending: seq<bool>, arg: A, table: seq<u32>, from: nat)
    requires |pending| == IRQ_COUNT && |table| == IRQ_COUNT && from <= IRQ_COUNT
    ensures forall m :: 0 <= m < |Dispatched(pending, arg, table, from)| ==>
      from <= Dispatched(pending, arg, table, from)[m].index
    decreases IRQ_COUNT - from
  {
    if from < IRQ_COUNT {
      DispatchedIndicesFrom(pending, arg, table, from + 1);
    }
  }

  /** The calls made from index `from` on are in ascending index order. */
  lemma {:induction false} DispatchedAscending<A>(pending: seq<bool>, arg: A, table: seq<u32>, from: nat)
    requires |pending| == IRQ_COUNT && |table| == IRQ_COUNT && from <= IRQ_COUNT
    ensures Ascending(Dispatched(pending, arg, table, from))
    decreases IRQ_COUNT - from
  {
    if from < IRQ_COUNT {
      DispatchedAscending(pending, arg, table, from + 1);
      DispatchedIndicesFrom(pending, arg, table, from + 1);
      var rest := Dispatched(pending, arg, table, from + 1);
      var all := Dispatched(pending, arg, table, from);
      if pending[from] && table[from] != IRQ_UNSET {
        assert all == [Call(from, table[from], arg)] + rest;
        forall k, l | 0 <= k < l < |all| ensures all[k].index < all[l].index {
          assert all[l] == rest[l - 1];
          if k > 0 {
            assert all[k] == rest[k - 1];
          }
        }
      } else {
        assert all == rest;
      }
    }
  }

  /** One dispatch with pending mask `irqs` calls exactly the registered
      handlers of the sources whose bit is set in `irqs`, each exactly once,
      in ascending bit order, all with the same argument. */
  lemma DispatchedExactly<A>(irqs: u32, arg: A, table: seq<u32>)
    requires |table| == IRQ_COUNT
    ensures forall c :: c in Dispatched(BitsOf(irqs), arg, table, 0) ==>
      c.index < IRQ_COUNT && BitSet(irqs, c.index) && table[c.index] != IRQ_UNSET
      && c.handler == table[c.index] && c.arg == arg
    ensures forall i :: 0 <= i < IRQ_COUNT && BitSet(irqs, i) && table[i] != IRQ_UNSET ==>
      exists c :: c in Dispatched(BitsOf(irqs), arg, table, 0) && c.index == i
    ensures Ascending(Dispatched(BitsOf(irqs), arg, table, 0))
  {
    var pending := BitsOf(irqs);
    DispatchedSound(pending, arg, table, 0);
    DispatchedComplete(pending, arg, table, 0);
    DispatchedAscending(pending, arg, table, 0);
  }

  /** Ascending order means no index is called twice. */
  lemma AscendingOnce<A>(calls: seq<Call<A>>, k: nat, l: nat)
    requires Ascending(calls) && k < |calls| && l < |calls| && calls[k].index == calls[l].index
    ensures k == l
  {
  }

  /** The bit scan of irq_set_handler: shift the word right until its low bit
      is set, counting the shifts. A zero word would be scanned forever. */
  method ScanLowestSetBit(irq: u32) returns (index: nat)
    requires irq != 0
    ensures index == LowestSetBit(irq)
  {
    var bitmap: nat := irq;
    index := 0;
    while bitmap % 2 == 0
      invariant bitmap != 0 && bitmap == Shr(irq, index)
      invariant forall j :: 0 <= j < index ==> !BitSet(irq, j)
      decreases bitmap
    {
      bitmap := bitmap / 2;
      index := index + 1;
    }
    if index >= 32 {
      ShrPastWord(irq, index);
    }
    assert BitSet(irq, index);
    LowestSetBitSpec(irq);
    assert IsLowestSetBit(irq, index);
  }

  /** Stores `handler` at the lowest set bit of `irq`. */
  method SetHandlerIn(vector: array<u32>, irq: u32, handler: u32)
    requires vector.Length == IRQ_COUNT && irq != 0
    modifies vector
    ensures vector[..] == old(vector[..])[LowestSetBit(irq) := handler]
  {
    var index := ScanLowestSetBit(irq);
    vector[index] := handler;
  }

  /** The scan as written, on a zero mask: no shift of 0 has its low bit
      set, so `while (!(bitmap & 1))` never exits and irq_set_handler(0, f)
      does not return. */
  lemma ZeroScanNeverStops()
    ensures forall k: nat :: !BitSet(0, k)
  {
    forall k: nat
      ensures !BitSet(0, k)
    {
      ShrZero(k);
    }
  }

  /** irq_set_handler as evidently intended: a zero mask names no source and
      registers nothing; any other mask stores the handler at its lowest set
      bit. */
  method SetHandlerChecked(vector: array<u32>, irq: u32, handler: u32)
    requires vector.Length == IRQ_COUNT
    modifies vector
    ensures irq == 0 ==> vector[..] == old(vector[..])
    ensures irq != 0 ==> vector[..] == old(vector[..])[LowestSetBit(irq) := handler]
  {
    if irq != 0 {
      SetHandlerIn(vector, irq, handler);
    }
  }

  /** Sets every table entry to IRQ_UNSET. */
  method ClearTable(vector: array<u32>)
    requires vector.Length == IRQ_COUNT
    modifies vector
    ensures forall i :: 0 <= i < IRQ_COUNT ==> vector[i] == IRQ_UNSET
  {
    var i := 0;
    while i < IRQ_COUNT
      invariant i <= IRQ_COUNT
      invariant forall j :: 0 <= j < i ==> vector[j] == IRQ_UNSET
    {
      vector[i] := IRQ_UNSET;
      i := i + 1;
    }
  }

  /** The dispatch loop: for i = 0 .. 31, call entry i with `arg` when bit i
      of `irqs` is set and the entry is registered. */
  method DispatchFrom<A>(vector: array<u32>, irqs: u32, arg: A) returns (calls: seq<Call<A>>)
    requires vector.Length == IRQ_COUNT
    ensures calls == Dispatched(BitsOf(irqs), arg, vector[..], 0)
  {
    var pending := BitsOf(irqs);
    calls := DispatchPending(vector, pending, arg);
  }

  /** The loop of DispatchFrom, over the pending bits already unpacked. */
  method DispatchPending<A>(vector: array<u32>, pending: seq<bool>, arg: A) returns (calls: seq<Call<A>>)
    requires vector.Length == IRQ_COUNT && |pending| == IRQ_COUNT
    ensures calls == Dispatched(pending, arg, vector[..], 0)
  {
    calls := [];
    ghost var table := vector[..];
    ghost var total := Dispatched(pending, arg, table, 0);
    var i := 0;
    while i < IRQ_COUNT
      invariant i <= IRQ_COUNT
      invariant calls + Dispatched(pending, arg, table, i) == total
    {
      ghost var rest := Dispatched(pending, arg, table, i + 1);
      ghost var before := calls;
      if pending[i] && vector[i] != IRQ_UNSET {
        assert Dispatched(pending, arg, table, i) == [Call(i, vector[i], arg)] + rest;
        calls := calls + [Call(i, vector[i], arg)];
        assert calls + rest == before + ([Call(i, vector[i], arg)] + rest);
      } else {
        assert Dispatched(pending, arg, table, i) == rest;
      }
      i := i + 1;
    }
  }
}
