// The newlib system-call layer of the hardware abstraction layer
// (firmware/src/hal/libc.c).
//
// File descriptors 0, 1 and 2 go to UART1; every other descriptor is
// invalid. The heap break is a byte pointer in the 32-bit address space that
// __libc_init_brk sets to __sdram_start and _sbrk moves by a signed
// increment. UART1 is modelled as `rx`, the bytes still to arrive, and `tx`,
// the bytes sent; no descriptor reaches UART0.

module HalLibc {
  import opened Words

  /** A C `int`. */
  type i32 = x: int | -0x8000_0000 <= x < 0x8000_0000

  /** The values of `enum UART_PORT`, and the -1 that marks no port. */
  const UART0: int := 0
  const UART1: int := 1
  const NO_PORT: int := -1

  /** newlib's S_IFCHR: a character device. */
  const S_IFCHR: int := 0x2000

  /** __fd_to_uart. */
  function FdToUart(file: i32): (port: int)
    ensures port == UART1 <==> 0 <= file <= 2
    ensures port == NO_PORT <==> !(0 <= file <= 2)
  {
    if file == 0 then UART1
    else if file == 1 then UART1
    else if file == 2 then UART1
    else NO_PORT
  }

  /** The break after moving it by `incr` bytes in the 32-bit address
      space. */
  function Advance(brk: u32, incr: i32): (r: u32)
    ensures (r - brk - incr) % WORD == 0
  {
    (brk + incr) % WORD
  }

  /** The values a run of _sbrk calls returns, starting from `brk`. */
  function Breaks(brk: u32, incrs: seq<i32>): (r: seq<u32>)
    ensures |r| == |incrs|
    decreases |incrs|
  {
    if |incrs| == 0 then [] else [brk] + Breaks(Advance(brk, incrs[0]), incrs[1..])
  }

  function Sum(xs: seq<i32>): int
  {
    if |xs| == 0 then 0 else xs[0] + Sum(xs[1..])
  }

  /** While the break stays inside the address space, successive _sbrk calls
      return adjacent regions: the k-th call returns the start plus the sum of
      the increments before it. */
  lemma {:induction false} BreaksAdjacent(brk: u32, incrs: seq<i32>, k: nat)
    requires k < |incrs|
    requires forall j :: 0 <= j <= |incrs| ==> 0 <= brk + Sum(incrs[.. j]) < WORD
    ensures Breaks(brk, incrs)[k] == brk + Sum(incrs[.. k])
    decreases k
  {
    if k > 0 {
      var next := Advance(brk, incrs[0]);
      assert incrs[.. 1] == [incrs[0]];
      assert 0 <= brk + Sum(incrs[.. 1]) < WORD;
      assert next == brk + incrs[0];
      forall j | 0 <= j <= |incrs[1..]|
        ensures 0 <= next + Sum(incrs[1..][.. j]) < WORD
      {
        SumSplit(incrs, j);
      }
      BreaksAdjacent(next, incrs[1..], k - 1);
      SumSplit(incrs, k - 1);
    }
  }

  lemma SumSplit(xs: seq<i32>, j: nat)
    requires 0 < |xs| && j < |xs|
    ensures Sum(xs[.. j + 1]) == xs[0] + Sum(xs[1..][.. j])
  {
    assert xs[.. j + 1][1..] == xs[1..][.. j];
  }

  // ---------------------------------------------------------------------
  // The constant stubs

  function Close(file: i32): (r: i32)
    ensures r == -1
  {
    -1
  }

  /** The part of `struct stat` _fstat fills in. */
  datatype Stat = Stat(mode: int)

  /** _fstat: marks every descriptor a character device and succeeds. */
  function Fstat(file: i32, st: Stat): (r: (Stat, i32))
    ensures r.0.mode == S_IFCHR && r.1 == 0
  {
    (st.(mode := S_IFCHR), 0)
  }

  function Isatty(file: i32): (r: i32)
    ensures r == 1
  {
    1
  }

  function Lseek(file: i32, ptr: i32, dir: i32): (r: i32)
    ensures r == 0
  {
    0
  }

  function Getpid(): (r: i32)
    ensures r == -1
  {
    -1
  }

  // ---------------------------------------------------------------------
  // The stateful calls

  /** The loop of _write: put_ch of ptr[0], ..., ptr[len - 1] on the UART,
      appending them to what it has sent; a negative `len` sends nothing. */
  method SendBytes(sent: seq<u8>, ptr: array<u8>, len: i32) returns (tx: seq<u8>)
    requires len <= ptr.Length
    ensures len >= 0 ==> tx == sent + ptr[.. len]
    ensures len < 0 ==> tx == sent
  {
    tx := sent;
    var i := 0;
    while i < len
      invariant 0 <= i <= (if len >= 0 then len else 0)
      invariant tx == sent + ptr[.. i]
    {
      tx := tx + [ptr[i]];
      i := i + 1;
    }
  }

  /** The loop of _read: get_ch stores the next `len` bytes received into
      ptr[0 .. len - 1], leaving the rest of `ptr` and taking them from the
      input; a negative `len` reads nothing. */
  method ReceiveBytes(input: seq<u8>, ptr: array<u8>, len: i32) returns (rx: seq<u8>)
    requires len <= ptr.Length && len <= |input|
    modifies ptr
    ensures len >= 0 ==> ptr[.. len] == input[.. len] && ptr[len ..] == old(ptr[len ..]) && rx == input[len ..]
    ensures len < 0 ==> rx == input && ptr[..] == old(ptr[..])
  {
    rx := input;
    var i := 0;
    while i < len
      invariant 0 <= i <= (if len >= 0 then len else 0)
      invariant ptr[.. i] == input[.. i] && ptr[i ..] == old(ptr[i ..])
      invariant rx == input[i ..]
    {
      ptr[i] := rx[0];
      rx := rx[1..];
      i := i + 1;
    }
  }

  class Libc {
    /** The static `brk`, as an address. */
    var brk: u32
    /** The address of __sdram_start. */
    const sdramStart: u32
    var rx: seq<u8>
    var tx: seq<u8>

    constructor (sdram: u32, input: seq<u8>)
      ensures sdramStart == sdram && rx == input && tx == []
    {
      sdramStart := sdram;
      brk := 0;
      rx := input;
      tx := [];
    }

    /** __libc_init_brk. */
    method InitBrk()
      modifies this`brk
      ensures brk == sdramStart
    {
      brk := sdramStart;
    }

    /** _sbrk: returns the old break and moves it by `incr`. */
    method Sbrk(incr: i32) returns (last: u32)
      modifies this`brk
      ensures last == old(brk) && brk == Advance(old(brk), incr)
    {
      last := brk;
      brk := (brk + incr) % WORD;
    }

    /** _write: -1 and nothing sent for an invalid descriptor; otherwise the
        first `len` bytes of `ptr` are sent in order and `len` returned (a
        negative `len` sends nothing and is returned as it is). */
    method Write(file: i32, ptr: array<u8>, len: i32) returns (r: i32)
      requires len <= ptr.Length
      modifies this`tx
      ensures FdToUart(file) == NO_PORT ==> r == -1 && tx == old(tx)
      ensures FdToUart(file) != NO_PORT ==> r == len
      ensures FdToUart(file) != NO_PORT && len >= 0 ==> tx == old(tx) + ptr[.. len]
      ensures FdToUart(file) != NO_PORT && len < 0 ==> tx == old(tx)
    {
      var port := FdToUart(file);
      if port == NO_PORT {
        return -1;
      }
      tx := SendBytes(tx, ptr, len);
      return len;
    }

    /** _read: -1 and nothing read for an invalid descriptor; otherwise the
        next `len` bytes received fill `ptr` from the start and `len` is
        returned. get_ch waits for each byte, so all of them must arrive. */
    method Read(file: i32, ptr: array<u8>, len: i32) returns (r: i32)
      requires len <= ptr.Length && (FdToUart(file) != NO_PORT ==> len <= |rx|)
      modifies this`rx, ptr
      ensures FdToUart(file) == NO_PORT ==> r == -1 && rx == old(rx) && ptr[..] == old(ptr[..])
      ensures FdToUart(file) != NO_PORT ==> r == len
      ensures FdToUart(file) != NO_PORT && len >= 0 ==>
        && ptr[.. len] == old(rx[.. len]) && ptr[len ..] == old(ptr[len ..])
        && rx == old(rx[len ..])
      ensures FdToUart(file) != NO_PORT && len < 0 ==> rx == old(rx) && ptr[..] == old(ptr[..])
    {
      var port := FdToUart(file);
      if port == NO_PORT {
        return -1;
      }
      rx := ReceiveBytes(rx, ptr, len);
      return len;
    }
  }
}
