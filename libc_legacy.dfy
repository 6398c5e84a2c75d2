// The older newlib system-call layer (firmware/src/libc.c). The descriptor
// map and the constant stubs are the same as in HalLibc and are shared with
// it; the difference is the heap break, a static pointer that starts at
// __sdram_start without an init call.
//
// The UART header that this file's own include path names declares a
// one-argument put_ch and no UART_PORT; the calls here are modelled as the
// two-argument calls of the hardware abstraction layer, which only ever
// reach UART1.

module LegacyLibc {
  import opened Words
  import opened HalLibc

  class Libc {
    /** The static `heap` pointer, as an address. */
    var heap: u32
    var rx: seq<u8>
    var tx: seq<u8>

    /** The static initialiser: `heap` starts at __sdram_start. */
    constructor (sdramStart: u32, input: seq<u8>)
      ensures heap == sdramStart && rx == input && tx == []
    {
      heap := sdramStart;
      rx := input;
      tx := [];
    }

    /** _sbrk: returns the old heap pointer and moves it by `incr`. */
    method Sbrk(incr: i32) returns (last: u32)
      modifies this`heap
      ensures last == old(heap) && heap == Advance(old(heap), incr)
    {
      last := heap;
      heap := (heap + incr) % WORD;
    }

    /** _write, as in the hardware abstraction layer. */
    method Write(file: i32, ptr: array<u8>, len: i32) returns (r: i32)
      requires len <= ptr.Length
      modifies this`tx
      ensures FdToUart(file) == NO_PORT ==> r == -1 && tx == old(tx)
      ensures FdToUart(file) != NO_PORT ==> r == len
      ensures FdToUart(file) != NO_PORT && len >= 0 ==> tx == old(tx) + ptr[.. len]
      ensures FdToUart(file) != NO_PORT && len < 0 ==> tx == old(tx)
    {
      var port := FdToUart(file);
      if port == NO_PORT {
        return -1;
      }
      tx := SendBytes(tx, ptr, len);
      return len;
    }

    /** _read, as in the hardware abstraction layer. */
    method Read(file: i32, ptr: array<u8>, len: i32) returns (r: i32)
      requires len <= ptr.Length && (FdToUart(file) != NO_PORT ==> len <= |rx|)
      modifies this`rx, ptr
      ensures FdToUart(file) == NO_PORT ==> r == -1 && rx == old(rx) && ptr[..] == old(ptr[..])
      ensures FdToUart(file) != NO_PORT ==> r == len
      ensures FdToUart(file) != NO_PORT && len >= 0 ==>
        && ptr[.. len] == old(rx[.. len]) && ptr[len ..] == old(ptr[len ..])
        && rx == old(rx[len ..])
      ensures FdToUart(file) != NO_PORT && len < 0 ==> rx == old(rx) && ptr[..] == old(ptr[..])
    {
      var port := FdToUart(file);
      if port == NO_PORT {
        return -1;
      }
      rx := ReceiveBytes(rx, ptr, len);
      return len;
    }
  }
}
