// The firmware's STK500 command handler (firmware/src/optiboot.c), which
// loads a program into SDRAM instead of the bootloader's BRAM.
//
// The protocol is the one Stk500.Step describes, with three differences:
// SDRAM is addressed in words (`sdram` is a `usize *`), so page byte k is
// stored in the whole word 2 * address + k and a page read sends the low byte
// of each of those words; init_sdram zeroes SDRAM once, through a static
// cursor; and get_ch has no timeout. The UART is modelled as in Optiboot:
// `rx` is the bytes still to arrive and `tx` the bytes sent. get_ch returns a
// plain `char`, which is unsigned on RISC-V, so stored words are 0..255.

module SdramOptiboot {
  import opened Words
  import opened Stk500
  import opened Memory

  class SdramBootloader {
    var rx: seq<u8>
    var tx: seq<u8>
    /** SDRAM, word-addressed from __sdram_start. */
    const sdram: array<u32>
    /** The number of words in [__sdram_start, __sdram_end). */
    const sdramWords: nat
    /** init_sdram's static pointer, as a word index. */
    var cursor: nat
    /** optiboot's static `address`. */
    var address: u16

    ghost predicate Valid()
      reads this
    {
      sdram.Length >= SPAN && sdramWords <= sdram.Length
    }

    constructor (input: seq<u8>, memory: array<u32>, words: nat)
      requires memory.Length >= SPAN && words <= memory.Length
      ensures Valid() && rx == input && tx == [] && sdram == memory && sdramWords == words
      ensures cursor == 0 && address == 0
    {
      rx := input;
      tx := [];
      sdram := memory;
      sdramWords := words;
      cursor := 0;
      address := 0;
    }

    /** get_ch once a byte is ready. */
    method GetCh() returns (b: u8)
      requires |rx| > 0
      modifies this`rx
      ensures b == old(rx[0]) && rx == old(rx[1..])
    {
      b := rx[0];
      rx := rx[1..];
    }

    method PutCh(b: u8)
      modifies this`tx
      ensures tx == old(tx) + [b]
    {
      tx := tx + [b];
    }

    /** verify_space: one byte consumed, STK_INSYNC sent, whatever the byte. */
    method VerifySpace()
      requires |rx| >= 1
      modifies this`rx, this`tx
      ensures rx == old(rx[1..]) && tx == old(tx) + [STK_INSYNC]
    {
      var _ := GetCh();
      PutCh(STK_INSYNC);
    }

    /** get_n_ch: `count` bytes skipped, then verify_space. */
    method GetNCh(count: nat)
      requires |rx| >= count + 1
      modifies this`rx, this`tx
      ensures rx == old(rx[count + 1 ..]) && tx == old(tx) + [STK_INSYNC]
    {
      var i := 0;
      while i < count
        invariant i <= count && rx == old(rx[i..]) && tx == old(tx)
      {
        var _ := GetCh();
        i := i + 1;
      }
      VerifySpace();
    }

    /** get_length: the static u8 keeps only the second byte. */
    method GetLength() returns (length: u8)
      requires |rx| >= 2
      modifies this`rx
      ensures length == PageLength(old(rx[0]), old(rx[1])) && rx == old(rx[2..])
    {
      var first := GetCh();
      length := (first as int * 0x100) % 0x100;
      var second := GetCh();
      length := length + second;
    }

    /** init_sdram: zeroes from the cursor to __sdram_end and leaves the
        cursor there, so only the first call zeroes anything. */
    method InitSdram()
      requires Valid()
      modifies sdram, this`cursor
      ensures sdram[..] == Zeroed(old(sdram[..]), old(cursor), sdramWords)
      ensures cursor == if old(cursor) < sdramWords then sdramWords else old(cursor)
    {
      ghost var from := cursor;
      if sdramWords <= cursor {
        ZeroedEmpty(sdram[..], from, sdramWords);
        return;
      }
      while cursor < sdramWords
        invariant from <= cursor <= sdramWords
        invariant sdram[..] == Zeroed(old(sdram[..]), from, cursor)
      {
        ZeroedExtend(old(sdram[..]), from, cursor);
        sdram[cursor] := 0;
        cursor := cursor + 1;
      }
    }

    method GetParameter()
      requires |rx| >= 2
      modifies this`rx, this`tx
      ensures rx == old(rx[2..]) && tx == old(tx) + [STK_INSYNC, ParameterReply(old(rx[0]))]
    {
      var which := GetCh();
      VerifySpace();
      var version := Version();
      if which == STK_SW_MINOR {
        PutCh(version % 0x100);
      } else if which == STK_SW_MAJOR {
        PutCh((version / 0x100) % 0x100);
      } else {
        PutCh(0x03);
      }
    }

    /** stk_load_address: lo | hi << 8. */
    method LoadAddress()
      requires |rx| >= 3
      modifies this`rx, this`tx, this`address
      ensures address == LittleEndian(old(rx[0]), old(rx[1]))
      ensures rx == old(rx[3..]) && tx == old(tx) + [STK_INSYNC]
    {
      var lo := GetCh();
      var hi := GetCh();
      address := lo as int + hi as int * 0x100;
      VerifySpace();
    }

    method Universal()
      requires |rx| >= 5
      modifies this`rx, this`tx
      ensures rx == old(rx[5..]) && tx == old(tx) + [STK_INSYNC, 0x00]
    {
      GetNCh(4);
      PutCh(0x00);
    }

    /** stk_prog_page: each data byte into its own word from word index
        2 * address. */
    method ProgPage()
      requires Valid() && |rx| >= 2 && |rx| >= 4 + rx[1] as int
      modifies this`rx, this`tx, sdram
      ensures sdram[..] == WritePage(old(sdram[..]), 2 * address as int, old(rx[3 .. 3 + rx[1] as int]))
      ensures rx == old(rx[4 + rx[1] as int ..]) && tx == old(tx) + [STK_INSYNC]
    {
      var length := GetLength();
      var _ := GetCh();
      var pageStart := 2 * address as int;
      StorePage(pageStart, length);
      VerifySpace();
    }

    /** stk_prog_page's loop: the next `length` bytes received are stored,
        one per word, from word index `pageStart`. */
    method StorePage(pageStart: nat, length: u8)
      requires Valid() && |rx| >= length as int && pageStart + length as int <= sdram.Length
      modifies this`rx, sdram
      ensures sdram[..] == WritePage(old(sdram[..]), pageStart, old(rx[.. length]))
      ensures rx == old(rx[length..])
    {
      ghost var data := rx[.. length];
      var byte := 0;
      while byte < length
        invariant byte <= length && rx == old(rx[byte..])
        invariant sdram[..] == WritePage(old(sdram[..]), pageStart, data[.. byte])
      {
        ghost var before := sdram[..];
        var b := GetCh();
        sdram[pageStart + byte] := b;
        assert sdram[..] == before[pageStart + byte := b];
        WritePageExtend(old(sdram[..]), pageStart, data, byte as nat);
        byte := byte + 1;
      }
      assert data[.. byte] == data;
    }

    /** stk_read_page: the low byte of each word from word index
        2 * address. */
    method ReadPage()
      requires Valid() && |rx| >= 4
      modifies this`rx, this`tx
      ensures rx == old(rx[4..])
      ensures tx == old(tx) + [STK_INSYNC] + PageBytes(sdram[..], 2 * address as int, old(rx[1]))
    {
      var length := GetLength();
      var _ := GetCh();
      VerifySpace();
      var pageStart := 2 * address as int;
      ghost var start := tx;
      var byte := 0;
      while byte < length
        invariant byte <= length && tx == start + PageBytes(sdram[..], pageStart, byte)
        invariant rx == old(rx[4..])
      {
        PutCh(sdram[pageStart + byte] % 0x100);
        byte := byte + 1;
        assert PageBytes(sdram[..], pageStart, byte)
          == PageBytes(sdram[..], pageStart, byte - 1) + [sdram[pageStart + byte - 1] % 0x100];
      }
    }

    method ReadSign()
      requires |rx| >= 1
      modifies this`rx, this`tx
      ensures rx == old(rx[1..]) && tx == old(tx) + [STK_INSYNC] + SIGNATURE
    {
      VerifySpace();
      PutCh(SIGNATURE[0]);
      PutCh(SIGNATURE[1]);
      PutCh(SIGNATURE[2]);
    }

    /** One pass of optiboot's switch, STK_OK included, once all of the
        command's bytes have arrived. */
    method Dispatch(cmd: u8) returns (leave: bool)
      requires Valid() && |rx| >= ArgsSize(cmd, rx)
      modifies this`rx, this`tx, this`address, sdram
      ensures var e := Step(old(sdram[..]), old(address), cmd, old(rx)[.. ArgsSize(cmd, old(rx))]);
        sdram[..] == e.mem && address == e.address && tx == old(tx) + e.out
      ensures rx == old(rx)[ArgsSize(cmd, old(rx)) ..]
      ensures leave <==> cmd == STK_LEAVE_PROGMODE
    {
      if cmd == STK_LOAD_ADDRESS || cmd == STK_PROG_PAGE || cmd == STK_READ_PAGE {
        DispatchPage(cmd);
        return false;
      }
      leave := false;
      if cmd == STK_GET_PARAMETER {
        GetParameter();
      } else if cmd == STK_SET_DEVICE {
        GetNCh(20);
      } else if cmd == STK_SET_DEVICE_EXT {
        GetNCh(5);
      } else if cmd == STK_LEAVE_PROGMODE {
        VerifySpace();
        leave := true;
      } else if cmd == STK_UNIVERSAL {
        Universal();
      } else if cmd == STK_READ_SIGN {
        ReadSign();
      } else {
        VerifySpace();
      }
      PutCh(STK_OK);
    }

    /** The cases of the switch that use the loaded address. */
    method DispatchPage(cmd: u8)
      requires Valid() && |rx| >= ArgsSize(cmd, rx)
      requires cmd == STK_LOAD_ADDRESS || cmd == STK_PROG_PAGE || cmd == STK_READ_PAGE
      modifies this`rx, this`tx, this`address, sdram
      ensures var e := Step(old(sdram[..]), old(address), cmd, old(rx)[.. ArgsSize(cmd, old(rx))]);
        sdram[..] == e.mem && address == e.address && tx == old(tx) + e.out
      ensures rx == old(rx)[ArgsSize(cmd, old(rx)) ..]
    {
      if cmd == STK_LOAD_ADDRESS {
        LoadAddress();
      } else if cmd == STK_PROG_PAGE {
        ProgPageStep(old(sdram[..]), old(address), old(rx));
        ProgPage();
      } else {
        ReadPage();
      }
      PutCh(STK_OK);
    }

    /** optiboot: init_sdram, then commands until STK_LEAVE_PROGMODE. With
        no timeout, running out of input means waiting forever. The result is
        the reference Session on the memory init_sdram leaves. */
    method Run() returns (exit: Exit)
      requires Valid()
      modifies this`rx, this`tx, this`address, this`cursor, sdram
      ensures var o := Session(Zeroed(old(sdram[..]), old(cursor), sdramWords), old(address), old(rx), false);
        sdram[..] == o.mem && address == o.address && tx == old(tx) + o.out && exit == o.exit
      ensures exit != TimedOut
    {
      InitSdram();
      ghost var goal := Session(sdram[..], address, rx, false);
      while true
        invariant Resume(tx, Session(sdram[..], address, rx, false)) == Resume(old(tx), goal)
        decreases |rx|
      {
        if |rx| == 0 {
          return Stalled;
        }
        ghost var m, a, r, t := sdram[..], address, rx, tx;
        var cmd := GetCh();
        if |rx| < ArgsSize(cmd, rx) {
          return Stalled;
        }
        var leave := Dispatch(cmd);
        if leave {
          return Left;
        }
        SessionAdvance(m, a, r, false, t);
      }
    }
  }
}
