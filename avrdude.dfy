// The avrdude command lines the AVR build tool makes
// (common/scripts/avrwaf/avrdude.py): the part number added at configure
// time, the programmer options, and the fuse-writing and flash-upload
// tasks.
//
// The build environment is the class Env. Running a command is not
// modelled: each task returns the command it would run and takes the exit
// status that command gives as a parameter. An unset option is the empty
// string, an unset number is 0, which is how Python's truth test treats
// them.

module Avrdude {
  import opened PyDict
  import opened PyStr

  type Arg = seq<char>

  /** The configuration values the build steps read and write. */
  class Env {
    /** AVRDUDE: the program found at configure time; the list the commands
        are built in. */
    var avrdude: seq<Arg>
    var avrdudeFlags: seq<Arg>
    var mcu: seq<char>
    var programmer: seq<char>
    var programmerSpeed: int
    var programmerPort: seq<char>
    var lock: int
    var lfuse: int
    var hfuse: int
    var efuse: int

    constructor (avrdude: seq<Arg>, mcu: seq<char>, programmer: seq<char>, speed: int, port: seq<char>,
                 lock: int, lfuse: int, hfuse: int, efuse: int)
      ensures this.avrdude == avrdude && avrdudeFlags == [] && this.mcu == mcu
      ensures this.programmer == programmer && programmerSpeed == speed && programmerPort == port
      ensures this.lock == lock && this.lfuse == lfuse && this.hfuse == hfuse && this.efuse == efuse
    {
      this.avrdude := avrdude;
      avrdudeFlags := [];
      this.mcu := mcu;
      this.programmer := programmer;
      programmerSpeed := speed;
      programmerPort := port;
      this.lock := lock;
      this.lfuse := lfuse;
      this.hfuse := hfuse;
      this.efuse := efuse;
    }
  }

  // ---------------------------------------------------------------------
  // configure

  /** avrdude knows the ATtiny13A under the ATtiny13's name. */
  function PartName(mcu: seq<char>): (p: seq<char>)
    ensures mcu == "attiny13a" ==> p == "attiny13"
    ensures mcu != "attiny13a" ==> p == mcu
  {
    if mcu == "attiny13a" then "attiny13" else mcu
  }

  /** configure: adds the part option to AVRDUDEFLAGS. */
  method Configure(env: Env)
    modifies env`avrdudeFlags
    ensures env.avrdudeFlags == old(env.avrdudeFlags) + ["-p", PartName(env.mcu)]
  {
    var mcu := env.mcu;
    if mcu == "attiny13a" {
      mcu := "attiny13";
    }
    env.avrdudeFlags := env.avrdudeFlags + ["-p", mcu];
  }

  // ---------------------------------------------------------------------
  // gen_programmer_cmd

  const ARDUINO_AS_ISP_SPEED := 19200

  /** The programmer avrdude is told to use. */
  function ProgrammerId(programmer: seq<char>): seq<char>
  {
    if programmer == "arduino_as_isp" then "stk500v1" else programmer
  }

  /** PROGRAMMER_SPEED after the call: the Arduino-as-ISP sketch talks at a
      fixed speed. */
  function SpeedAfter(programmer: seq<char>, speed: int): int
  {
    if programmer == "arduino_as_isp" then ARDUINO_AS_ISP_SPEED else speed
  }

  /** PROGRAMMER_PORT after the call: an Arduino with no port set is looked
      for on the first USB serial port. */
  function PortAfter(programmer: seq<char>, port: seq<char>, linux: bool): seq<char>
  {
    if port == [] && programmer == "arduino" then (if linux then "/dev/ttyUSB0" else "COM2") else port
  }

  /** An option and its value, or nothing when the value is unset. */
  function Pair(opt: Arg, v: Option<Arg>): seq<Arg>
  {
    if v.Some? then [opt, v.value] else []
  }

  /** The programmer options, given the environment before the call. */
  function ProgrammerFlags(programmer: seq<char>, speed: int, port: seq<char>, linux: bool): seq<Arg>
  {
    var speed' := SpeedAfter(programmer, speed);
    var port' := PortAfter(programmer, port, linux);
    Pair("-c", if programmer != [] then Some(ProgrammerId(programmer)) else None)
    + Pair("-b", if speed' != 0 then Some(IntText(speed')) else None)
    + Pair("-P", if port' != [] then Some(port') else None)
  }

  /** The value that follows option `opt` in a list of option/value pairs. */
  function OptionValue(args: seq<Arg>, opt: Arg): Option<Arg>
    decreases |args|
  {
    if |args| < 2 then None
    else if args[0] == opt then Some(args[1])
    else OptionValue(args[2..], opt)
  }

  /** Three pairs for three different options: each option's value reads
      back. */
  lemma PairsLookup(c: Option<Arg>, b: Option<Arg>, p: Option<Arg>)
    ensures var args := Pair("-c", c) + Pair("-b", b) + Pair("-P", p);
      && |args| % 2 == 0
      && OptionValue(args, "-c") == c && OptionValue(args, "-b") == b && OptionValue(args, "-P") == p
  {
    var last := Pair("-P", p);
    var rest := Pair("-b", b) + last;
    assert Pair("-c", c) + Pair("-b", b) + last == Pair("-c", c) + rest;
    assert "-c"[1] != "-b"[1] && "-c"[1] != "-P"[1] && "-b"[1] != "-P"[1];
    PairLookup("-P", p, [], "-P");
    PairLookup("-P", p, [], "-b");
    PairLookup("-P", p, [], "-c");
    assert last + [] == last;
    PairLookup("-b", b, last, "-c");
    PairLookup("-b", b, last, "-b");
    PairLookup("-b", b, last, "-P");
    PairLookup("-c", c, rest, "-c");
    PairLookup("-c", c, rest, "-b");
    PairLookup("-c", c, rest, "-P");
  }

  /** Looking up an option in a list that starts with one optional pair. */
  lemma PairLookup(opt: Arg, v: Option<Arg>, rest: seq<Arg>, key: Arg)
    ensures OptionValue(Pair(opt, v) + rest, key)
      == if v.Some? && opt == key then v else OptionValue(rest, key)
  {
    if v.Some? {
      assert (Pair(opt, v) + rest)[2..] == rest;
    } else {
      assert Pair(opt, v) + rest == rest;
    }
  }

  /** -c names the programmer when one is set. */
  lemma ProgrammerOption(programmer: seq<char>, speed: int, port: seq<char>, linux: bool)
    ensures var flags := ProgrammerFlags(programmer, speed, port, linux);
      && |flags| % 2 == 0
      && OptionValue(flags, "-c") == (if programmer != [] then Some(ProgrammerId(programmer)) else None)
  {
    var speed' := SpeedAfter(programmer, speed);
    var port' := PortAfter(programmer, port, linux);
    PairsLookup(if programmer != [] then Some(ProgrammerId(programmer)) else None,
                if speed' != 0 then Some(IntText(speed')) else None,
                if port' != [] then Some(port') else None);
  }

  /** -b is there exactly when a speed is set, and avrdude reads its value
      back as that speed. */
  lemma SpeedOption(programmer: seq<char>, speed: int, port: seq<char>, linux: bool)
    ensures var flags := ProgrammerFlags(programmer, speed, port, linux);
      && (OptionValue(flags, "-b").Some? <==> SpeedAfter(programmer, speed) != 0)
      && (OptionValue(flags, "-b").Some? ==>
            ParseInt(OptionValue(flags, "-b").value) == Some(SpeedAfter(programmer, speed)))
  {
    var speed' := SpeedAfter(programmer, speed);
    var port' := PortAfter(programmer, port, linux);
    PairsLookup(if programmer != [] then Some(ProgrammerId(programmer)) else None,
                if speed' != 0 then Some(IntText(speed')) else None,
                if port' != [] then Some(port') else None);
    if speed' != 0 {
      ParseIntText(speed');
    }
  }

  /** -P names the port when one is set or defaulted. */
  lemma PortOption(programmer: seq<char>, speed: int, port: seq<char>, linux: bool)
    ensures var flags := ProgrammerFlags(programmer, speed, port, linux);
      OptionValue(flags, "-P") == (if PortAfter(programmer, port, linux) != [] then Some(PortAfter(programmer, port, linux)) else None)
  {
    var speed' := SpeedAfter(programmer, speed);
    var port' := PortAfter(programmer, port, linux);
    PairsLookup(if programmer != [] then Some(ProgrammerId(programmer)) else None,
                if speed' != 0 then Some(IntText(speed')) else None,
                if port' != [] then Some(port') else None);
  }

  /** The call's own updates to PROGRAMMER_SPEED and PROGRAMMER_PORT do not
      change the options a later call makes. */
  lemma ProgrammerFlagsStable(programmer: seq<char>, speed: int, port: seq<char>, linux: bool)
    ensures ProgrammerFlags(programmer, SpeedAfter(programmer, speed), PortAfter(programmer, port, linux), linux)
         == ProgrammerFlags(programmer, speed, port, linux)
  {
  }

  /** gen_programmer_cmd. The command is AVRDUDE extended in place, so the
      options of every call stay in AVRDUDE and the next call's command
      starts with them. */
  method GenProgrammerCmd(env: Env, linux: bool) returns (cmd: seq<Arg>)
    modifies env`avrdude, env`programmerSpeed, env`programmerPort
    ensures env.programmerSpeed == SpeedAfter(env.programmer, old(env.programmerSpeed))
    ensures env.programmerPort == PortAfter(env.programmer, old(env.programmerPort), linux)
    ensures cmd == env.avrdude
    ensures env.avrdude == old(env.avrdude) + env.avrdudeFlags
      + ProgrammerFlags(env.programmer, old(env.programmerSpeed), old(env.programmerPort), linux)
  {
    ghost var speed0, port0 := env.programmerSpeed, env.programmerPort;
    var flags: seq<Arg> := [];
    if env.programmer != [] {
      var p;
      if env.programmer == "arduino_as_isp" {
        p := "stk500v1";
        env.programmerSpeed := 19200;
      } else {
        p := env.programmer;
      }
      flags := flags + ["-c", p];
    }
    ghost var c := Pair("-c", if env.programmer != [] then Some(ProgrammerId(env.programmer)) else None);
    assert flags == c && env.programmerSpeed == SpeedAfter(env.programmer, speed0);
    if env.programmerSpeed != 0 {
      flags := flags + ["-b", IntText(env.programmerSpeed)];
    }
    ghost var b := Pair("-b", if env.programmerSpeed != 0 then Some(IntText(env.programmerSpeed)) else None);
    assert flags == c + b;
    if env.programmerPort == [] {
      if env.programmer == "arduino" {
        if linux {
          env.programmerPort := "/dev/ttyUSB0";
        } else {
          env.programmerPort := "COM2";
        }
      }
    }
    assert env.programmerPort == PortAfter(env.programmer, port0, linux);
    if env.programmerPort != [] {
      flags := flags + ["-P", env.programmerPort];
    }
    assert flags == ProgrammerFlags(env.programmer, speed0, port0, linux);
    env.avrdude := env.avrdude + env.avrdudeFlags;
    env.avrdude := env.avrdude + flags;
    cmd := env.avrdude;
  }

  // ---------------------------------------------------------------------
  // avrdude_read_fuses, avrdude_write_fuses, avrdude_upload

  /** avrdude_read_fuses.run: runs the bare programmer command; the status
      is the command's. */
  method ReadFuses(env: Env, linux: bool, status: int) returns (ret: int, ran: seq<Arg>)
    modifies env`avrdude, env`programmerSpeed, env`programmerPort
    ensures ran == env.avrdude
    ensures env.avrdude == old(env.avrdude) + env.avrdudeFlags
      + ProgrammerFlags(env.programmer, old(env.programmerSpeed), old(env.programmerPort), linux)
    ensures ret == status
  {
    ran := GenProgrammerCmd(env, linux);
    ret := status;
  }

  /** Lower-case hexadecimal digits of n, most significant first. */
  function Hex(n: nat): (s: seq<char>)
    ensures |s| > 0
  {
    if n < 16 then [HexDigit(n)] else Hex(n / 16) + [HexDigit(n % 16)]
  }

  function HexDigit(d: nat): char
    requires d < 16
  {
    "0123456789abcdef"[d]
  }

  /** The value of one lower-case hexadecimal digit. */
  function DigitValue(c: char): nat
  {
    if '0' <= c <= '9' then c as int - '0' as int
    else if 'a' <= c <= 'f' then c as int - 'a' as int + 10
    else 0
  }

  lemma DigitRoundTrip(d: nat)
    requires d < 16
    ensures DigitValue(HexDigit(d)) == d
  {
    if d < 10 {
      assert HexDigit(d) as int == '0' as int + d;
    } else {
      assert HexDigit(d) as int == 'a' as int + d - 10;
    }
  }

  /** The value of lower-case hexadecimal digits. */
  function HexValue(s: seq<char>): nat
  {
    if s == [] then 0 else HexValue(s[.. |s| - 1]) * 16 + DigitValue(s[|s| - 1])
  }

  /** avrdude reads back the value that '{:x}' writes. */
  lemma {:induction false} HexRoundTrip(n: nat)
    ensures HexValue(Hex(n)) == n
    decreases n
  {
    var s := Hex(n);
    DigitRoundTrip(n % 16);
    if n >= 16 {
      HexRoundTrip(n / 16);
      assert s[.. |s| - 1] == Hex(n / 16);
    } else {
      assert s[.. |s| - 1] == [];
    }
  }

  /** '{:x}' of an int: a minus sign before the digits of a negative one. */
  function HexText(v: int): seq<char>
  {
    if v < 0 then ['-'] + Hex(-v) else Hex(v)
  }

  /** The memory operation that writes one fuse byte. */
  function FuseArg(memory: seq<char>, v: int): Arg
  {
    "-U" + memory + ":w:0x" + HexText(v) + ":m"
  }

  /** The fuse arguments after the programmer command: an erase when asked
      for, then each fuse that is set, in the order lock, low, high,
      extended. */
  function FuseArgs(erase: bool, lock: int, lfuse: int, hfuse: int, efuse: int): seq<Arg>
  {
    (if erase then ["-e"] else [])
    + (if lock != 0 then [FuseArg("lock", lock)] else [])
    + (if lfuse != 0 then [FuseArg("lfuse", lfuse)] else [])
    + (if hfuse != 0 then [FuseArg("hfuse", hfuse)] else [])
    + (if efuse != 0 then [FuseArg("efuse", efuse)] else [])
  }

  /** Each set fuse is written, the chip is erased when asked to, and
      nothing else is added: one argument per set fuse. */
  lemma FuseArgsSpec(erase: bool, lock: int, lfuse: int, hfuse: int, efuse: int)
    ensures var args := FuseArgs(erase, lock, lfuse, hfuse, efuse);
      && (erase ==> "-e" in args)
      && (lock != 0 ==> FuseArg("lock", lock) in args)
      && (lfuse != 0 ==> FuseArg("lfuse", lfuse) in args)
      && (hfuse != 0 ==> FuseArg("hfuse", hfuse) in args)
      && (efuse != 0 ==> FuseArg("efuse", efuse) in args)
      && (forall a :: a in args ==>
            || (erase && a == "-e")
            || (lock != 0 && a == FuseArg("lock", lock))
            || (lfuse != 0 && a == FuseArg("lfuse", lfuse))
            || (hfuse != 0 && a == FuseArg("hfuse", hfuse))
            || (efuse != 0 && a == FuseArg("efuse", efuse)))
      && |args| == (if erase then 1 else 0) + (if lock != 0 then 1 else 0) + (if lfuse != 0 then 1 else 0)
                   + (if hfuse != 0 then 1 else 0) + (if efuse != 0 then 1 else 0)
  {
  }

  /** So a fuse is written exactly when it is set, and the chip erased
      exactly when asked to. */
  lemma FuseWrittenIffSet(erase: bool, lock: int, lfuse: int, hfuse: int, efuse: int)
    ensures var args := FuseArgs(erase, lock, lfuse, hfuse, efuse);
      && ("-e" in args <==> erase)
      && (FuseArg("lock", lock) in args <==> lock != 0)
      && (FuseArg("lfuse", lfuse) in args <==> lfuse != 0)
      && (FuseArg("hfuse", hfuse) in args <==> hfuse != 0)
      && (FuseArg("efuse", efuse) in args <==> efuse != 0)
  {
    FuseArgsSpec(erase, lock, lfuse, hfuse, efuse);
    NotErase("lock", lock);
    NotErase("lfuse", lfuse);
    NotErase("hfuse", hfuse);
    NotErase("efuse", efuse);
    FuseArgNe("lock", "lfuse", lock, lfuse);
    FuseArgNe("lock", "hfuse", lock, hfuse);
    FuseArgNe("lock", "efuse", lock, efuse);
    FuseArgNe("lfuse", "hfuse", lfuse, hfuse);
    FuseArgNe("lfuse", "efuse", lfuse, efuse);
    FuseArgNe("hfuse", "efuse", hfuse, efuse);
  }

  /** A fuse argument is never the erase option. */
  lemma NotErase(memory: seq<char>, v: int)
    ensures FuseArg(memory, v) != "-e"
  {
    assert FuseArg(memory, v)[1] == 'U';
  }

  /** Fuse arguments for memories whose names start differently differ, so
      a fuse that is not set is not written. */
  lemma FuseArgNe(m1: seq<char>, m2: seq<char>, v: int, w: int)
    requires |m1| >= 2 && |m2| >= 2 && (m1[0] != m2[0] || m1[1] != m2[1])
    ensures FuseArg(m1, v) != FuseArg(m2, w)
  {
    var a := FuseArg(m1, v);
    var b := FuseArg(m2, w);
    assert a[2] == m1[0] && a[3] == m1[1] && b[2] == m2[0] && b[3] == m2[1];
  }

  /** The value in a fuse argument reads back as the fuse's value. */
  lemma FuseArgValue(memory: seq<char>, v: nat)
    ensures var a := FuseArg(memory, v);
      var k := |memory| + 7;
      && k <= |a| - 2 && a[.. k] == "-U" + memory + ":w:0x" && a[|a| - 2 ..] == ":m"
      && HexValue(a[k .. |a| - 2]) == v
  {
    var a := FuseArg(memory, v);
    var k := |memory| + 7;
    assert a[k .. |a| - 2] == Hex(v);
    HexRoundTrip(v);
  }

  /** How a task's run ends: with a status, or by raising AttributeError. */
  datatype RunResult = Status(code: int) | AttributeError

  /** avrdude_write_fuses.run. `eraseChip` is the task's `erase_chip`
      attribute: the feature copies it from the task generator only when the
      generator has one, and the task class declares no default, so it may
      be missing (None).
      - With no fuse set nothing runs and run returns 0.
      - Otherwise the programmer command is built (extending AVRDUDE and
        updating the speed and port). When `erase_chip` is missing, reading
        it raises and no command runs. When it is present, the command with
        the erase option and the fuse arguments runs and run returns its
        status. */
  method WriteFuses(env: Env, linux: bool, eraseChip: Option<bool>, status: int)
    returns (ret: RunResult, ran: Option<seq<Arg>>)
    modifies env`avrdude, env`programmerSpeed, env`programmerPort
    ensures env.lock == 0 && env.lfuse == 0 && env.hfuse == 0 && env.efuse == 0 ==>
      ret == Status(0) && ran == None && unchanged(env)
    ensures !(env.lock == 0 && env.lfuse == 0 && env.hfuse == 0 && env.efuse == 0) ==>
      && env.programmerSpeed == SpeedAfter(env.programmer, old(env.programmerSpeed))
      && env.programmerPort == PortAfter(env.programmer, old(env.programmerPort), linux)
    ensures !(env.lock == 0 && env.lfuse == 0 && env.hfuse == 0 && env.efuse == 0) && eraseChip.None? ==>
      && ret == AttributeError
      && ran == None
      && env.avrdude == old(env.avrdude) + env.avrdudeFlags
           + ProgrammerFlags(env.programmer, old(env.programmerSpeed), old(env.programmerPort), linux)
    ensures !(env.lock == 0 && env.lfuse == 0 && env.hfuse == 0 && env.efuse == 0) && eraseChip.Some? ==>
      && ret == Status(status)
      && ran == Some(env.avrdude)
      && env.avrdude == old(env.avrdude) + env.avrdudeFlags
           + ProgrammerFlags(env.programmer, old(env.programmerSpeed), old(env.programmerPort), linux)
           + FuseArgs(eraseChip.value, env.lock, env.lfuse, env.hfuse, env.efuse)
  {
    if !(env.lock != 0 || env.lfuse != 0 || env.hfuse != 0 || env.efuse != 0) {
      return Status(0), None;
    }
    var cmd := GenProgrammerCmd(env, linux);
    if eraseChip.None? {
      return AttributeError, None;
    }
    cmd := AppendFuseArgs(cmd, eraseChip.value, env.lock, env.lfuse, env.hfuse, env.efuse);
    // The list is AVRDUDE itself, so the appends land there as well.
    env.avrdude := cmd;
    ret, ran := Status(status), Some(cmd);
  }

  /** The appends write_fuses makes after the programmer command. */
  method AppendFuseArgs(base: seq<Arg>, eraseChip: bool, lock: int, lfuse: int, hfuse: int, efuse: int)
    returns (cmd: seq<Arg>)
    ensures cmd == base + FuseArgs(eraseChip, lock, lfuse, hfuse, efuse)
  {
    cmd := base;
    if eraseChip {
      cmd := cmd + ["-e"];
    }
    ghost var e: seq<Arg> := if eraseChip then ["-e"] else [];
    assert cmd == base + e;
    if lock != 0 {
      cmd := cmd + [FuseArg("lock", lock)];
    }
    ghost var l: seq<Arg> := if lock != 0 then [FuseArg("lock", lock)] else [];
    assert cmd == base + e + l;
    Assoc(base, e, l);
    if lfuse != 0 {
      cmd := cmd + [FuseArg("lfuse", lfuse)];
    }
    ghost var lf: seq<Arg> := if lfuse != 0 then [FuseArg("lfuse", lfuse)] else [];
    assert cmd == base + (e + l) + lf;
    Assoc(base, e + l, lf);
    if hfuse != 0 {
      cmd := cmd + [FuseArg("hfuse", hfuse)];
    }
    ghost var hf: seq<Arg> := if hfuse != 0 then [FuseArg("hfuse", hfuse)] else [];
    assert cmd == base + (e + l + lf) + hf;
    Assoc(base, e + l + lf, hf);
    if efuse != 0 {
      cmd := cmd + [FuseArg("efuse", efuse)];
    }
    ghost var ef: seq<Arg> := if efuse != 0 then [FuseArg("efuse", efuse)] else [];
    assert cmd == base + (e + l + lf + hf) + ef;
    Assoc(base, e + l + lf + hf, ef);
  }

  lemma Assoc(a: seq<Arg>, b: seq<Arg>, c: seq<Arg>)
    ensures a + b + c == a + (b + c)
  {
  }

  /** The memory operation that writes or, when only verifying, checks the
      flash against an Intel HEX file. */
  function FlashArg(verifyOnly: bool, src: seq<char>): Arg
  {
    "-Uflash:" + (if verifyOnly then "v" else "w") + ":" + src + ":i"
  }

  /** avrdude_upload.run: only the first input is handed to avrdude, since
      the loop returns after it; with no input nothing runs. The status is
      the command's, or 0 when errors are ignored. */
  method Upload(env: Env, linux: bool, inputs: seq<seq<char>>, verifyOnly: bool, lock: int, ignoreError: bool,
                status: int) returns (ret: int, ran: Option<seq<Arg>>)
    modifies env`avrdude, env`programmerSpeed, env`programmerPort
    ensures inputs == [] ==> ret == 0 && ran == None && unchanged(env)
    ensures inputs != [] ==>
      && ret == (if ignoreError then 0 else status)
      && ran == Some(env.avrdude)
      && env.avrdude == old(env.avrdude) + env.avrdudeFlags
           + ProgrammerFlags(env.programmer, old(env.programmerSpeed), old(env.programmerPort), linux)
           + [FlashArg(verifyOnly, inputs[0])]
           + (if lock != 0 then [FuseArg("lock", lock)] else [])
  {
    if inputs == [] {
      return 0, None;
    }
    var src := inputs[0];
    var cmd := GenProgrammerCmd(env, linux);
    var u := if verifyOnly then "v" else "w";
    cmd := cmd + ["-Uflash:" + u + ":" + src + ":i"];
    if lock != 0 {
      cmd := cmd + [FuseArg("lock", lock)];
    }
    env.avrdude := cmd;
    ran := Some(cmd);
    if ignoreError {
      ret := 0;
    } else {
      ret := status;
    }
  }

  /** The flash argument names the file and whether avrdude writes or only
      verifies. */
  lemma FlashArgSpec(verifyOnly: bool, src: seq<char>)
    ensures var a := FlashArg(verifyOnly, src);
      && a[.. 8] == "-Uflash:" && (a[8] == 'v' <==> verifyOnly) && (a[8] == 'w' <==> !verifyOnly)
      && a[10 .. |a| - 2] == src && a[|a| - 2 ..] == ":i"
  {
  }
}
