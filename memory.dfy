// RAM initialisation of the bootloader (bootloader/src/memory.c).
//
// Memory is a word array indexed from address 0 in words; the linker symbols
// __sdram_start, __sdram_end and __fw_end are word indices into it. Each
// loop walks a word pointer from __sdram_start up to (excluding) its end
// symbol, storing zero.

module Memory {
  import opened Words

  /** `mem` with every word in [from, to) set to zero. */
  function Zeroed(mem: seq<int>, from: nat, to: nat): (r: seq<int>)
    requires to <= |mem|
    ensures |r| == |mem|
  {
    seq(|mem|, i requires 0 <= i < |mem| => if from <= i < to then 0 else mem[i])
  }

  /** Zeroing one more word extends the zeroed range by that word. */
  lemma ZeroedExtend(mem: seq<int>, from: nat, to: nat)
    requires from <= to < |mem|
    ensures Zeroed(mem, from, to + 1) == Zeroed(mem, from, to)[to := 0]
  {
  }

  /** An empty range changes nothing. */
  lemma ZeroedEmpty(mem: seq<int>, from: nat, to: nat)
    requires to <= |mem| && to <= from
    ensures Zeroed(mem, from, to) == mem
  {
  }

  /** Zeroing twice from the same start zeroes up to the farther end. */
  lemma ZeroedTwice(mem: seq<int>, from: nat, to1: nat, to2: nat)
    requires to1 <= |mem| && to2 <= |mem|
    ensures Zeroed(Zeroed(mem, from, to1), from, to2) == Zeroed(mem, from, if to1 < to2 then to2 else to1)
  {
  }

  /** The memory map: word indices of the linker symbols. */
  class Ram {
    const mem: array<u32>
    const sdramStart: nat
    const sdramEnd: nat
    const fwEnd: nat

    ghost predicate Valid()
    {
      sdramEnd <= mem.Length && fwEnd <= mem.Length
    }

    constructor (memory: array<u32>, sdramStartWord: nat, sdramEndWord: nat, fwEndWord: nat)
      requires sdramEndWord <= memory.Length && fwEndWord <= memory.Length
      ensures Valid() && mem == memory
      ensures sdramStart == sdramStartWord && sdramEnd == sdramEndWord && fwEnd == fwEndWord
    {
      mem := memory;
      sdramStart := sdramStartWord;
      sdramEnd := sdramEndWord;
      fwEnd := fwEndWord;
    }

    /** The shared pointer loop: zero every word from `from` up to `to`. */
    method ZeroWords(from: nat, to: nat)
      requires to <= mem.Length
      modifies mem
      ensures mem[..] == Zeroed(old(mem[..]), from, to)
    {
      var p := from;
      if to <= p {
        ZeroedEmpty(mem[..], from, to);
        return;
      }
      while p < to
        invariant from <= p <= to
        invariant mem[..] == Zeroed(old(mem[..]), from, p)
      {
        ZeroedExtend(old(mem[..]), from, p);
        mem[p] := 0;
        p := p + 1;
      }
    }

    /** zero_init_bram: zeroes [__sdram_start, __fw_end), in spite of its
        name starting at __sdram_start; nothing when __fw_end is not past
        __sdram_start. */
    method ZeroInitBram()
      requires Valid()
      modifies mem
      ensures mem[..] == Zeroed(old(mem[..]), sdramStart, fwEnd)
    {
      ZeroWords(sdramStart, fwEnd);
    }

    /** zero_init_sdram: zeroes [__sdram_start, __sdram_end). */
    method ZeroInitSdram()
      requires Valid()
      modifies mem
      ensures mem[..] == Zeroed(old(mem[..]), sdramStart, sdramEnd)
    {
      ZeroWords(sdramStart, sdramEnd);
    }

    /** init_ram: the bram pass, then the sdram pass. Together they zero from
        __sdram_start up to the farther of __fw_end and __sdram_end. */
    method InitRam()
      requires Valid()
      modifies mem
      ensures mem[..] == Zeroed(old(mem[..]), sdramStart, if fwEnd < sdramEnd then sdramEnd else fwEnd)
    {
      ZeroInitBram();
      ZeroInitSdram();
      ZeroedTwice(old(mem[..]), sdramStart, fwEnd, sdramEnd);
    }
  }

  /** What the zeroing does, word by word: the range becomes zero and every
      word outside it keeps its value. */
  lemma ZeroedWords(mem: seq<int>, from: nat, to: nat, i: nat)
    requires to <= |mem| && i < |mem|
    ensures from <= i < to ==> Zeroed(mem, from, to)[i] == 0
    ensures !(from <= i < to) ==> Zeroed(mem, from, to)[i] == mem[i]
  {
  }
}
