// The bootloader's STK500 command handler (bootloader/src/optiboot.c).
//
// UART0 is modelled as two byte sequences: `rx`, the bytes that will still
// arrive, and `tx`, the bytes sent so far. get_ch blocks until a byte is
// ready, so a handler is modelled for the case where all the bytes it reads
// arrive; the dispatcher loop handles the input running out. The firmware
// region from __fw_start is a byte array covering every offset a page
// command can reach. Debug text on UART1 (put_dbg) is not modelled, except
// the number formatting of put_num.

module Optiboot {
  import opened Words
  import opened Stk500

  /** get_ch's start-up timeout: armed, and at least `limit` milliseconds
      have passed since `start` on the wrapping 64-bit millisecond counter. */
  predicate Expired(armed: bool, start: u64, now: u64, limit: nat)
  {
    armed && (now - start) % WORD64 >= limit
  }

  class Bootloader {
    /** Bytes still to arrive on UART0, in order. */
    var rx: seq<u8>
    /** Bytes sent on UART0 so far. */
    var tx: seq<u8>
    /** The firmware region, byte-addressed from __fw_start. */
    const mem: array<u8>
    /** optiboot's `address`, kept from one command to the next. */
    var address: u16
    var timeoutEnabled: bool
    var timeStart: u64
    /** TIMEOUT_MS, defined outside the files of this model. */
    const timeoutMs: nat
    /** Set when get_ch gives up and calls __exit. */
    var timedOut: bool

    ghost predicate Valid()
      reads this
    {
      mem.Length >= SPAN
    }

    constructor (input: seq<u8>, memory: array<u8>, limit: nat)
      requires memory.Length >= SPAN
      ensures Valid() && rx == input && tx == [] && mem == memory && timeoutMs == limit
      ensures !timeoutEnabled && !timedOut
    {
      rx := input;
      tx := [];
      mem := memory;
      address := 0;
      timeoutEnabled := false;
      timeStart := 0;
      timeoutMs := limit;
      timedOut := false;
    }

    /** get_ch once a byte is ready: the first byte received disarms the
        timeout. */
    method Receive() returns (b: u8)
      requires |rx| > 0
      modifies this`rx, this`timeoutEnabled
      ensures b == old(rx[0]) && rx == old(rx[1..]) && !timeoutEnabled
    {
      b := rx[0];
      rx := rx[1..];
      timeoutEnabled := false;
    }

    /** One call of get_ch observing the millisecond counter at `now` while
        no byte is ready: it gives up (flashes the LED and exits) when the
        timeout is armed and has expired; otherwise it keeps waiting, which
        is reported as `received` false with nothing changed. */
    method GetCh(now: u64) returns (b: u8, received: bool)
      modifies this`rx, this`timeoutEnabled, this`timedOut
      ensures received <==> |old(rx)| > 0
      ensures received ==> b == old(rx[0]) && rx == old(rx[1..]) && !timeoutEnabled && timedOut == old(timedOut)
      ensures !received ==> rx == old(rx) && timeoutEnabled == old(timeoutEnabled)
      ensures !received ==> timedOut == (old(timedOut) || Expired(timeoutEnabled, timeStart, now, timeoutMs))
    {
      if |rx| > 0 {
        b := Receive();
        received := true;
      } else {
        b, received := 0, false;
        if timeoutEnabled && (now - timeStart) % WORD64 >= timeoutMs {
          timedOut := true;
        }
      }
    }

    method PutCh(b: u8)
      modifies this`tx
      ensures tx == old(tx) + [b]
    {
      tx := tx + [b];
    }

    /** verify_space: consumes one byte and answers STK_INSYNC whether or
        not that byte was CRC_EOP (a wrong byte only costs a 16 ms sleep). */
    method VerifySpace()
      requires |rx| >= 1
      modifies this`rx, this`timeoutEnabled, this`tx
      ensures rx == old(rx[1..]) && tx == old(tx) + [STK_INSYNC] && !timeoutEnabled
    {
      var _ := Receive();
      PutCh(STK_INSYNC);
    }

    /** get_n_ch: skips `count` bytes, then verify_space. */
    method GetNCh(count: nat)
      requires |rx| >= count + 1
      modifies this`rx, this`timeoutEnabled, this`tx
      ensures rx == old(rx[count + 1 ..]) && tx == old(tx) + [STK_INSYNC] && !timeoutEnabled
    {
      var i := 0;
      while i < count
        invariant i <= count && rx == old(rx[i..]) && tx == old(tx)
      {
        var _ := Receive();
        i := i + 1;
      }
      VerifySpace();
    }

    /** get_length: the length is the second of the two bytes. */
    method GetLength() returns (length: u8)
      requires |rx| >= 2
      modifies this`rx, this`timeoutEnabled
      ensures length == old(rx[1]) && rx == old(rx[2..]) && !timeoutEnabled
    {
      var first := Receive();
      length := (first as int * 0x100) % 0x100;
      var second := Receive();
      length := length + second;
    }

    /** stk_get_parameter: the parameter byte, INSYNC, then the reply. */
    method GetParameter()
      requires |rx| >= 2
      modifies this`rx, this`timeoutEnabled, this`tx
      ensures rx == old(rx[2..]) && tx == old(tx) + [STK_INSYNC, ParameterReply(old(rx[0]))]
      ensures !timeoutEnabled
    {
      var which := Receive();
      VerifySpace();
      var version := Version();
      if which == STK_SW_MINOR {
        PutCh(version % 0x100);
      } else if which == STK_SW_MAJOR {
        PutCh((version / 0x100) % 0x100);
      } else {
        PutCh(0x03);
      }
    }

    /** stk_load_address: low byte first. */
    method LoadAddress()
      requires |rx| >= 3
      modifies this`rx, this`timeoutEnabled, this`tx, this`address
      ensures address == LittleEndian(old(rx[0]), old(rx[1]))
      ensures rx == old(rx[3..]) && tx == old(tx) + [STK_INSYNC] && !timeoutEnabled
    {
      var lo := Receive();
      var hi := Receive();
      address := lo as int + hi as int * 0x100;
      VerifySpace();
    }

    /** stk_univeral: four bytes skipped, INSYNC, then a zero byte. */
    method Universal()
      requires |rx| >= 5
      modifies this`rx, this`timeoutEnabled, this`tx
      ensures rx == old(rx[5..]) && tx == old(tx) + [STK_INSYNC, 0x00] && !timeoutEnabled
    {
      GetNCh(4);
      PutCh(0x00);
    }

    /** stk_prog_page: length, memory type, `length` data bytes stored from
        byte offset 2 * address, then verify_space. */
    method ProgPage()
      requires Valid() && |rx| >= 2 && |rx| >= 4 + rx[1] as int
      modifies this`rx, this`timeoutEnabled, this`tx, mem
      ensures mem[..] == WritePage(old(mem[..]), 2 * address as int, old(rx[3 .. 3 + rx[1] as int]))
      ensures rx == old(rx[4 + rx[1] as int ..]) && tx == old(tx) + [STK_INSYNC] && !timeoutEnabled
    {
      var length := GetLength();
      var _ := Receive();
      var pageStart := 2 * address as int;
      StorePage(pageStart, length);
      VerifySpace();
    }

    /** stk_prog_page's loop: the next `length` bytes received are stored
        from byte offset `pageStart`. */
    method StorePage(pageStart: nat, length: u8)
      requires Valid() && |rx| >= length as int && pageStart + length as int <= mem.Length && !timeoutEnabled
      modifies this`rx, this`timeoutEnabled, mem
      ensures mem[..] == WritePage(old(mem[..]), pageStart, old(rx[.. length]))
      ensures rx == old(rx[length..]) && !timeoutEnabled
    {
      ghost var data := rx[.. length];
      var byte := 0;
      while byte < length
        invariant byte <= length && rx == old(rx[byte..]) && !timeoutEnabled
        invariant mem[..] == WritePage(old(mem[..]), pageStart, data[.. byte])
      {
        ghost var before := mem[..];
        var b := Receive();
        mem[pageStart + byte] := b;
        assert mem[..] == before[pageStart + byte := b];
        WritePageExtend(old(mem[..]), pageStart, data, byte as nat);
        byte := byte + 1;
      }
      assert data[.. byte] == data;
    }

    /** stk_read_page: length, memory type, verify_space, then the bytes
        from byte offset 2 * address. */
    method ReadPage()
      requires Valid() && |rx| >= 4
      modifies this`rx, this`timeoutEnabled, this`tx
      ensures rx == old(rx[4..]) && !timeoutEnabled
      ensures tx == old(tx) + [STK_INSYNC] + PageBytes(mem[..], 2 * address as int, old(rx[1]))
    {
      var length := GetLength();
      var _ := Receive();
      VerifySpace();
      var pageStart := 2 * address as int;
      ghost var start := tx;
      var byte := 0;
      while byte < length
        invariant byte <= length && tx == start + PageBytes(mem[..], pageStart, byte)
        invariant rx == old(rx[4..]) && !timeoutEnabled
      {
        PutCh(mem[pageStart + byte]);
        byte := byte + 1;
        assert PageBytes(mem[..], pageStart, byte)
          == PageBytes(mem[..], pageStart, byte - 1) + [mem[pageStart + byte - 1]];
      }
    }

    /** stk_read_sign: INSYNC, then the three signature bytes. */
    method ReadSign()
      requires |rx| >= 1
      modifies this`rx, this`timeoutEnabled, this`tx
      ensures rx == old(rx[1..]) && tx == old(tx) + [STK_INSYNC] + SIGNATURE && !timeoutEnabled
    {
      VerifySpace();
      PutCh(SIGNATURE[0]);
      PutCh(SIGNATURE[1]);
      PutCh(SIGNATURE[2]);
    }

    /** One pass of optiboot's switch for command byte `cmd`, including the
        STK_OK that ends every reply, once all of the command's bytes have
        arrived. It acts as Step says; `leave` is set for
        STK_LEAVE_PROGMODE, after which optiboot returns. */
    method Dispatch(cmd: u8) returns (leave: bool)
      requires Valid() && |rx| >= ArgsSize(cmd, rx)
      modifies this`rx, this`timeoutEnabled, this`tx, this`address, mem
      ensures var e := Step(old(mem[..]), old(address), cmd, old(rx)[.. ArgsSize(cmd, old(rx))]);
        mem[..] == e.mem && address == e.address && tx == old(tx) + e.out
      ensures rx == old(rx)[ArgsSize(cmd, old(rx)) ..]
      ensures leave <==> cmd == STK_LEAVE_PROGMODE
      ensures !timeoutEnabled
    {
      if cmd == STK_LOAD_ADDRESS || cmd == STK_PROG_PAGE || cmd == STK_READ_PAGE {
        DispatchPage(cmd);
        return false;
      }
      leave := false;
      if cmd == STK_GET_PARAMETER {
        GetParameter();
      } else if cmd == STK_SET_DEVICE {
        GetNCh(20);
      } else if cmd == STK_SET_DEVICE_EXT {
        GetNCh(5);
      } else if cmd == STK_LEAVE_PROGMODE {
        VerifySpace();
        leave := true;
      } else if cmd == STK_UNIVERSAL {
        Universal();
      } else if cmd == STK_READ_SIGN {
        ReadSign();
      } else {
        VerifySpace();
      }
      PutCh(STK_OK);
    }

    /** The cases of the switch that use the loaded address. */
    method DispatchPage(cmd: u8)
      requires Valid() && |rx| >= ArgsSize(cmd, rx)
      requires cmd == STK_LOAD_ADDRESS || cmd == STK_PROG_PAGE || cmd == STK_READ_PAGE
      modifies this`rx, this`timeoutEnabled, this`tx, this`address, mem
      ensures var e := Step(old(mem[..]), old(address), cmd, old(rx)[.. ArgsSize(cmd, old(rx))]);
        mem[..] == e.mem && address == e.address && tx == old(tx) + e.out
      ensures rx == old(rx)[ArgsSize(cmd, old(rx)) ..]
      ensures !timeoutEnabled
    {
      if cmd == STK_LOAD_ADDRESS {
        LoadAddress();
      } else if cmd == STK_PROG_PAGE {
        ProgPageStep(old(mem[..]), old(address), old(rx));
        ProgPage();
      } else {
        ReadPage();
      }
      PutCh(STK_OK);
    }

    /** optiboot: arms the start-up timeout at `now`, then serves commands
        until STK_LEAVE_PROGMODE. When the input runs out it either times
        out (no byte ever arrived, and the counter keeps running) or waits
        forever. The result is the reference Session. */
    method Run(now: u64) returns (exit: Exit)
      requires Valid()
      modifies this`rx, this`timeoutEnabled, this`tx, this`address, this`timeStart, mem
      ensures var o := Session(old(mem[..]), old(address), old(rx), true);
        mem[..] == o.mem && address == o.address && tx == old(tx) + o.out && exit == o.exit
      ensures timeStart == now
    {
      timeStart := now;
      timeoutEnabled := true;
      ghost var goal := Session(mem[..], address, rx, true);
      while true
        invariant Resume(tx, Session(mem[..], address, rx, timeoutEnabled)) == Resume(old(tx), goal)
        invariant timeStart == now
        decreases |rx|
      {
        if |rx| == 0 {
          exit := if timeoutEnabled then TimedOut else Stalled;
          return;
        }
        ghost var m, a, r, w, t := mem[..], address, rx, timeoutEnabled, tx;
        var cmd := Receive();
        if |rx| < ArgsSize(cmd, rx) {
          return Stalled;
        }
        var leave := Dispatch(cmd);
        if leave {
          return Left;
        }
        SessionAdvance(m, a, r, w, t);
      }
    }
  }
}
