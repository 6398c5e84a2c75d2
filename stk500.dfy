// The STK500 version 1 serial protocol as both Optiboot variants speak it:
// command and reply bytes, the framing of each command, and a reference
// definition of a whole session as a function of the bytes received.
//
// The command codes are those of Atmel application note AVR061 ("STK500
// Communication Protocol"); the header that defines them in the repository
// is not part of this model.

module Stk500 {
  import opened Words

  const STK_OK: u8 := 0x10
  const STK_INSYNC: u8 := 0x14
  const CRC_EOP: u8 := 0x20

  const STK_GET_PARAMETER: u8 := 0x41
  const STK_SET_DEVICE: u8 := 0x42
  const STK_SET_DEVICE_EXT: u8 := 0x45
  const STK_LEAVE_PROGMODE: u8 := 0x51
  const STK_LOAD_ADDRESS: u8 := 0x55
  const STK_UNIVERSAL: u8 := 0x56
  const STK_PROG_PAGE: u8 := 0x64
  const STK_READ_PAGE: u8 := 0x74
  const STK_READ_SIGN: u8 := 0x75

  const STK_SW_MAJOR: u8 := 0x81
  const STK_SW_MINOR: u8 := 0x82

  /** The memory-type byte AVR061 uses for flash pages. */
  const FLASH: u8 := 0x46

  const OPTIBOOT_MAJVER: nat := 8
  const OPTIBOOT_MINVER: nat := 3
  const OPTIBOOT_CUSTOMVER: nat := 1

  /** The Arduino UNO signature the bootloaders impersonate. */
  const SIGNATURE: seq<u8> := [0x1E, 0x95, 0x0F]

  /** Offsets from the start of the program memory that a page command can
      reach: twice the largest address plus the largest length. */
  const SPAN: nat := 2 * 0xFFFF + 0xFF + 1

  // ---------------------------------------------------------------------
  // Single fields

  /** stk_load_address: `lo | hi << 8` in 16 bits. The two bytes occupy
      disjoint bits, so the or is a sum. */
  function LittleEndian(lo: u8, hi: u8): (a: u16)
    ensures a % 0x100 == lo && a / 0x100 == hi
  {
    lo + hi * 0x100
  }

  /** The two bytes a host sends to load `a`, low byte first. */
  function AddressBytes(a: u16): (b: seq<u8>)
    ensures |b| == 2
  {
    [a % 0x100, a / 0x100]
  }

  /** Loading the bytes of an address gives that address back, and every
      pair of bytes is the encoding of the address it loads. */
  lemma LoadAddressRoundTrip(a: u16, lo: u8, hi: u8)
    ensures LittleEndian(AddressBytes(a)[0], AddressBytes(a)[1]) == a
    ensures AddressBytes(LittleEndian(lo, hi)) == [lo, hi]
  {
  }

  /** get_length: `get_ch() << 8` is stored in a u8, which keeps none of its
      bits, and the second byte is or-ed in: the length is the second byte. */
  function PageLength(first: u8, second: u8): (n: u8)
    ensures n == second
  {
    (first * 0x100) % 0x100 + second
  }

  /** The version word of stk_get_parameter. */
  function Version(): nat
  {
    256 * (OPTIBOOT_MAJVER + OPTIBOOT_CUSTOMVER) + OPTIBOOT_MINVER
  }

  /** stk_get_parameter's reply byte: the low byte of the version for the
      minor version, the high byte for the major version, 0x03 otherwise. */
  function ParameterReply(which: u8): (r: u8)
    ensures which == STK_SW_MAJOR ==> r == 0x09
    ensures which != STK_SW_MAJOR ==> r == 0x03
  {
    if which == STK_SW_MINOR then Version() % 0x100
    else if which == STK_SW_MAJOR then (Version() / 0x100) % 0x100
    else 0x03
  }

  // ---------------------------------------------------------------------
  // Pages

  /** Memory after stk_prog_page stores `data` from offset `at`. */
  function WritePage(mem: seq<int>, at: nat, data: seq<u8>): (r: seq<int>)
    requires at + |data| <= |mem|
    ensures |r| == |mem|
    ensures forall i :: 0 <= i < |data| ==> r[at + i] == data[i]
    ensures forall i :: 0 <= i < |mem| && !(at <= i < at + |data|) ==> r[i] == mem[i]
  {
    mem[.. at] + data + mem[at + |data| ..]
  }

  /** The bytes stk_read_page sends: the low byte of each cell from `at`. */
  function PageBytes(mem: seq<int>, at: nat, length: nat): (r: seq<u8>)
    requires at + length <= |mem|
    ensures |r| == length
    ensures forall i :: 0 <= i < length ==> r[i] == mem[at + i] % 0x100
  {
    seq(length, i requires 0 <= i < length => mem[at + i] % 0x100)
  }

  /** Writing one more byte of a page extends the write by that byte. */
  lemma WritePageExtend(mem: seq<int>, at: nat, data: seq<u8>, k: nat)
    requires k < |data| && at + |data| <= |mem|
    ensures WritePage(mem, at, data[.. k + 1]) == WritePage(mem, at, data[.. k])[at + k := data[k]]
  {
    var l := WritePage(mem, at, data[.. k + 1]);
    var r := WritePage(mem, at, data[.. k])[at + k := data[k]];
    assert forall i :: 0 <= i < |mem| ==> l[i] == r[i];
  }

  /** Reading a page back after programming it yields the programmed bytes. */
  lemma ReadAfterWrite(mem: seq<int>, at: nat, data: seq<u8>)
    requires at + |data| <= |mem|
    ensures PageBytes(WritePage(mem, at, data), at, |data|) == data
  {
    var r := PageBytes(WritePage(mem, at, data), at, |data|);
    assert forall i :: 0 <= i < |data| ==> r[i] == data[i];
  }

  // ---------------------------------------------------------------------
  // Commands

  /** How many bytes follow command byte `cmd` before its handler returns,
      given the bytes `args` received after it. A page write cut off before
      its length byte counts as needing more than has arrived. */
  function ArgsSize(cmd: u8, args: seq<u8>): (n: nat)
    ensures n >= 1
    ensures cmd == STK_PROG_PAGE && |args| >= 2 ==> n == 4 + args[1] as int
  {
    if cmd == STK_GET_PARAMETER then 2
    else if cmd == STK_SET_DEVICE then 21
    else if cmd == STK_SET_DEVICE_EXT then 6
    else if cmd == STK_LOAD_ADDRESS then 3
    else if cmd == STK_UNIVERSAL then 5
    else if cmd == STK_PROG_PAGE then (if |args| >= 2 then 4 + args[1] as int else 2)
    else if cmd == STK_READ_PAGE then 4
    else 1
  }

  /** What one command does to the program memory, the loaded address and
      the reply, once its `args` have all arrived. */
  datatype Effect = Effect(mem: seq<int>, address: u16, out: seq<u8>)

  function Step(mem: seq<int>, address: u16, cmd: u8, args: seq<u8>): (e: Effect)
    requires |mem| >= SPAN && |args| == ArgsSize(cmd, args)
    ensures |e.mem| == |mem|
    ensures |e.out| >= 2 && e.out[0] == STK_INSYNC && e.out[|e.out| - 1] == STK_OK
    ensures cmd != STK_LOAD_ADDRESS ==> e.address == address
    ensures cmd != STK_PROG_PAGE ==> e.mem == mem
  {
    if cmd == STK_GET_PARAMETER then
      Effect(mem, address, [STK_INSYNC, ParameterReply(args[0]), STK_OK])
    else if cmd == STK_LOAD_ADDRESS then
      Effect(mem, LittleEndian(args[0], args[1]), [STK_INSYNC, STK_OK])
    else if cmd == STK_UNIVERSAL then
      Effect(mem, address, [STK_INSYNC, 0x00, STK_OK])
    else if cmd == STK_PROG_PAGE then
      Effect(WritePage(mem, 2 * address, args[3 .. 3 + PageLength(args[0], args[1])]), address,
        [STK_INSYNC, STK_OK])
    else if cmd == STK_READ_PAGE then
      Effect(mem, address, [STK_INSYNC] + PageBytes(mem, 2 * address, PageLength(args[0], args[1])) + [STK_OK])
    else if cmd == STK_READ_SIGN then
      Effect(mem, address, [STK_INSYNC] + SIGNATURE + [STK_OK])
    else
      Effect(mem, address, [STK_INSYNC, STK_OK])
  }

  /** A page write whose bytes have all arrived stores the bytes between
      the memory-type byte and the trailing CRC_EOP. */
  lemma ProgPageStep(mem: seq<int>, address: u16, rx: seq<u8>)
    requires |mem| >= SPAN && |rx| >= 2 && |rx| >= 4 + rx[1] as int
    ensures var args := rx[.. 4 + rx[1] as int];
      |args| == ArgsSize(STK_PROG_PAGE, args) &&
      Step(mem, address, STK_PROG_PAGE, args)
        == Effect(WritePage(mem, 2 * address, rx[3 .. 3 + rx[1] as int]), address, [STK_INSYNC, STK_OK])
  {
    var args := rx[.. 4 + rx[1] as int];
    assert args[1] == rx[1];
    assert args[3 .. 3 + PageLength(args[0], args[1]) as int] == rx[3 .. 3 + rx[1] as int];
  }

  // ---------------------------------------------------------------------
  // Sessions

  /** How the dispatcher loop ends: after STK_LEAVE_PROGMODE, by the start-up
      timeout (no byte ever arrived), or waiting forever for a byte. */
  datatype Exit = Left | TimedOut | Stalled

  datatype Outcome = Outcome(mem: seq<int>, address: u16, out: seq<u8>, exit: Exit)

  /** The dispatcher run on the bytes `rx`. `waiting` says whether the
      start-up timeout is still armed, i.e. no byte has arrived yet. */
  function Session(mem: seq<int>, address: u16, rx: seq<u8>, waiting: bool): (o: Outcome)
    requires |mem| >= SPAN
    ensures |o.mem| == |mem|
    decreases |rx|
  {
    if |rx| == 0 then Outcome(mem, address, [], if waiting then TimedOut else Stalled)
    else
      var cmd, rest := rx[0], rx[1..];
      var n := ArgsSize(cmd, rest);
      if |rest| < n then Outcome(mem, address, [], Stalled)
      else
        var e := Step(mem, address, cmd, rest[.. n]);
        if cmd == STK_LEAVE_PROGMODE then Outcome(e.mem, e.address, e.out, Left)
        else
          var o := Session(e.mem, e.address, rest[n ..], false);
          Outcome(o.mem, o.address, e.out + o.out, o.exit)
  }

  /** A session that does not end at its first command continues from the
      state that command leaves. */
  lemma SessionUnfold(mem: seq<int>, address: u16, rx: seq<u8>, waiting: bool)
    requires |mem| >= SPAN && |rx| > 0 && |rx| - 1 >= ArgsSize(rx[0], rx[1..])
    requires rx[0] != STK_LEAVE_PROGMODE
    ensures var n := ArgsSize(rx[0], rx[1..]);
      var e := Step(mem, address, rx[0], rx[1..][.. n]);
      var o := Session(e.mem, e.address, rx[1..][n ..], false);
      Session(mem, address, rx, waiting) == Outcome(o.mem, o.address, e.out + o.out, o.exit)
  {
  }

  /** A session's outcome with the bytes `sent` before it prepended. */
  function Resume(sent: seq<u8>, o: Outcome): (r: Outcome)
    ensures r.mem == o.mem && r.address == o.address && r.exit == o.exit
    ensures |r.out| == |sent| + |o.out|
  {
    Outcome(o.mem, o.address, sent + o.out, o.exit)
  }

  /** After one complete command other than STK_LEAVE_PROGMODE, the rest of
      the session continues with that command's reply already sent. */
  lemma SessionAdvance(mem: seq<int>, address: u16, rx: seq<u8>, waiting: bool, sent: seq<u8>)
    requires |mem| >= SPAN && |rx| > 0 && |rx| - 1 >= ArgsSize(rx[0], rx[1..])
    requires rx[0] != STK_LEAVE_PROGMODE
    ensures var n := ArgsSize(rx[0], rx[1..]);
      var e := Step(mem, address, rx[0], rx[1..][.. n]);
      Resume(sent + e.out, Session(e.mem, e.address, rx[1..][n ..], false))
        == Resume(sent, Session(mem, address, rx, waiting))
  {
    var n := ArgsSize(rx[0], rx[1..]);
    var e := Step(mem, address, rx[0], rx[1..][.. n]);
    var o := Session(e.mem, e.address, rx[1..][n ..], false);
    SessionUnfold(mem, address, rx, waiting);
    assert sent + e.out + o.out == sent + (e.out + o.out);
  }

  /** A session that starts with a complete command `cmd` and its `args`,
      other than STK_LEAVE_PROGMODE, sends that command's reply and goes on
      with the bytes after it. */
  lemma SessionCommand(mem: seq<int>, address: u16, cmd: u8, args: seq<u8>, rest: seq<u8>, waiting: bool)
    requires |mem| >= SPAN && cmd != STK_LEAVE_PROGMODE
    requires |args| == ArgsSize(cmd, args) == ArgsSize(cmd, args + rest)
    ensures var e := Step(mem, address, cmd, args);
      Session(mem, address, [cmd] + args + rest, waiting)
        == Resume(e.out, Session(e.mem, e.address, rest, false))
  {
    var rx := [cmd] + args + rest;
    assert rx[0] == cmd && rx[1..] == args + rest;
    assert rx[1..][.. |args|] == args && rx[1..][|args| ..] == rest;
  }

  /** The bytes a host sends for each command. */
  function LoadAddressCommand(a: u16): seq<u8>
  {
    [STK_LOAD_ADDRESS] + AddressBytes(a) + [CRC_EOP]
  }

  function ProgPageCommand(data: seq<u8>): seq<u8>
    requires |data| < 0x100
  {
    [STK_PROG_PAGE, 0, |data|, FLASH] + data + [CRC_EOP]
  }

  function ReadPageCommand(length: u8): seq<u8>
  {
    [STK_READ_PAGE, 0, length, FLASH, CRC_EOP]
  }

  const LEAVE_COMMAND: seq<u8> := [STK_LEAVE_PROGMODE, CRC_EOP]

  /** Whatever follows STK_LEAVE_PROGMODE is never read. */
  lemma LeaveEndsSession(mem: seq<int>, address: u16, rest: seq<u8>, waiting: bool)
    requires |mem| >= SPAN
    ensures Session(mem, address, LEAVE_COMMAND + rest, waiting)
      == Outcome(mem, address, [STK_INSYNC, STK_OK], Left)
  {
    var rx := LEAVE_COMMAND + rest;
    assert rx[0] == STK_LEAVE_PROGMODE && rx[1..][..1] == [CRC_EOP];
  }

  /** Loading an address replies INSYNC OK and sets the address for every
      later command. */
  lemma LoadAddressSession(mem: seq<int>, address: u16, a: u16, rest: seq<u8>, waiting: bool)
    requires |mem| >= SPAN
    ensures var o := Session(mem, address, LoadAddressCommand(a) + rest, waiting);
      var p := Session(mem, a, rest, false);
      o == Outcome(p.mem, p.address, [STK_INSYNC, STK_OK] + p.out, p.exit)
  {
    var args := AddressBytes(a) + [CRC_EOP];
    assert LoadAddressCommand(a) + rest == [STK_LOAD_ADDRESS] + args + rest;
    SessionCommand(mem, address, STK_LOAD_ADDRESS, args, rest, waiting);
    LoadAddressRoundTrip(a, 0, 0);
  }

  /** Programming a page replies INSYNC OK and stores the data at twice the
      loaded address. */
  lemma ProgPageSession(mem: seq<int>, address: u16, data: seq<u8>, rest: seq<u8>, waiting: bool)
    requires |mem| >= SPAN && |data| < 0x100
    ensures var o := Session(mem, address, ProgPageCommand(data) + rest, waiting);
      var p := Session(WritePage(mem, 2 * address, data), address, rest, false);
      o == Outcome(p.mem, p.address, [STK_INSYNC, STK_OK] + p.out, p.exit)
  {
    var args := [0, |data| as u8, FLASH] + data + [CRC_EOP];
    assert ProgPageCommand(data) + rest == [STK_PROG_PAGE] + args + rest;
    assert args[1] == |data| as u8 && args[3 .. 3 + |data|] == data;
    SessionCommand(mem, address, STK_PROG_PAGE, args, rest, waiting);
  }

  /** Reading a page replies INSYNC, the page's bytes and OK, and changes
      nothing. */
  lemma ReadPageSession(mem: seq<int>, address: u16, length: u8, rest: seq<u8>, waiting: bool)
    requires |mem| >= SPAN
    ensures var o := Session(mem, address, ReadPageCommand(length) + rest, waiting);
      var p := Session(mem, address, rest, false);
      o == Outcome(p.mem, p.address,
        [STK_INSYNC] + PageBytes(mem, 2 * address, length) + [STK_OK] + p.out, p.exit)
  {
    var args := [0, length, FLASH, CRC_EOP];
    assert ReadPageCommand(length) + rest == [STK_READ_PAGE] + args + rest;
    SessionCommand(mem, address, STK_READ_PAGE, args, rest, waiting);
  }

  /** The round trip a host performs to check an upload: load an address,
      program a page, read the same page back and leave. The reply carries
      the programmed bytes, and every command is framed by INSYNC and OK. */
  lemma ProgramThenRead(mem: seq<int>, address: u16, a: u16, data: seq<u8>, waiting: bool)
    requires |mem| >= SPAN && |data| < 0x100
    ensures var o := Session(mem, address,
        LoadAddressCommand(a) + ProgPageCommand(data) + ReadPageCommand(|data|) + LEAVE_COMMAND, waiting);
      o.exit == Left && o.address == a
      && o.mem == WritePage(mem, 2 * a, data)
      && o.out == [STK_INSYNC, STK_OK, STK_INSYNC, STK_OK, STK_INSYNC] + data
        + [STK_OK, STK_INSYNC, STK_OK]
  {
    var m := WritePage(mem, 2 * a, data);
    var tail := ReadPageCommand(|data|) + LEAVE_COMMAND;
    var page := ProgPageCommand(data) + tail;
    ReadThenLeave(mem, a, data);
    var read := Session(m, a, tail, false);
    ProgPageSession(mem, a, data, tail, false);
    var prog := Session(mem, a, page, false);
    assert prog == Outcome(m, a, [STK_INSYNC, STK_OK] + read.out, Left);
    LoadAddressSession(mem, address, a, page, waiting);
    assert LoadAddressCommand(a) + ProgPageCommand(data) + ReadPageCommand(|data|) + LEAVE_COMMAND
      == LoadAddressCommand(a) + page;
    ReplyRegroup(data);
  }

  /** The last two commands of ProgramThenRead: the page just written is
      read back, then the session is left. */
  lemma ReadThenLeave(mem: seq<int>, a: u16, data: seq<u8>)
    requires |mem| >= SPAN && |data| < 0x100
    ensures var m := WritePage(mem, 2 * a, data);
      Session(m, a, ReadPageCommand(|data|) + LEAVE_COMMAND, false)
        == Outcome(m, a, [STK_INSYNC] + data + [STK_OK] + [STK_INSYNC, STK_OK], Left)
  {
    var m := WritePage(mem, 2 * a, data);
    LeaveEndsSession(m, a, [], false);
    assert LEAVE_COMMAND + [] == LEAVE_COMMAND;
    ReadPageSession(m, a, |data|, LEAVE_COMMAND, false);
    ReadAfterWrite(mem, 2 * a, data);
  }

  lemma ReplyRegroup(data: seq<u8>)
    ensures [STK_INSYNC, STK_OK] + ([STK_INSYNC, STK_OK] + ([STK_INSYNC] + data + [STK_OK] + [STK_INSYNC, STK_OK]))
      == [STK_INSYNC, STK_OK, STK_INSYNC, STK_OK, STK_INSYNC] + data + [STK_OK, STK_INSYNC, STK_OK]
  {
    var l := [STK_INSYNC, STK_OK] + ([STK_INSYNC, STK_OK] + ([STK_INSYNC] + data + [STK_OK] + [STK_INSYNC, STK_OK]));
    var r := [STK_INSYNC, STK_OK, STK_INSYNC, STK_OK, STK_INSYNC] + data + [STK_OK, STK_INSYNC, STK_OK];
    assert |l| == |r|;
    forall i | 0 <= i < |l| ensures l[i] == r[i] {
      if i >= 5 && i < 5 + |data| {
        assert l[i] == data[i - 5];
      }
    }
  }
}
