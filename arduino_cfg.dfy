// The Arduino configuration readers of the build scripts
// (common/scripts/max1000_riscv_waf/arduino.py): parse_arduino_cfg turns
// `key=value` lines into a dictionary of typed values, and
// parse_arduino_board_cfg regroups that dictionary by board.
//
// The file is the parameter `lines`, as readlines() returns it. The regular
// expressions and int() are library calls, modelled as functions; the
// AttributeError raised on a line the key pattern does not match is the
// result Err(index of that line).

module ArduinoCfg {
  import opened PyDict
  import opened PyStr

  /** The Python values a setting can take. */
  datatype Value = VNone | VBool(b: bool) | VInt(i: int) | VStr(s: seq<char>)

  datatype Result<T> = Ok(value: T) | Err(line: nat)

  type Cfg = Dict<seq<char>, Value>

  // ---------------------------------------------------------------------
  // The key pattern

  /** A character of `[\w\.]`. */
  predicate KeyChar(c: char)
  {
    'a' <= c <= 'z' || 'A' <= c <= 'Z' || '0' <= c <= '9' || c == '_' || c == '.'
  }

  /** The length of the leading run of key characters. */
  function KeyRun(s: seq<char>): (n: nat)
    ensures n <= |s| && (forall j :: 0 <= j < n ==> KeyChar(s[j])) && (n < |s| ==> !KeyChar(s[n]))
  {
    if s != [] && KeyChar(s[0]) then 1 + KeyRun(s[1..]) else 0
  }

  /** What `.*` matches: everything up to the first newline. */
  function UntilNewline(s: seq<char>): (r: seq<char>)
    ensures |r| <= |s| && r == s[.. |r|] && '\n' !in r && (|r| < |s| ==> s[|r|] == '\n')
  {
    if s == [] || s[0] == '\n' then [] else [s[0]] + UntilNewline(s[1..])
  }

  // ---------------------------------------------------------------------
  // Lines

  /** The value parse_arduino_cfg stores for a stripped raw value. */
  function Convert(raw: seq<char>): (v: Value)
    ensures v == VNone <==> raw == []
    ensures v.VBool? <==> raw == "true" || raw == "false"
    ensures v.VBool? ==> v.b
    ensures v.VInt? <==> raw != [] && raw != "true" && raw != "false" && ParseInt(raw).Some?
    ensures v.VInt? ==> Some(v.i) == ParseInt(raw)
    ensures v.VStr? ==> v.s == raw
  {
    if raw == [] then VNone
    else if raw == "true" || raw == "false" then VBool(true)
    else match ParseInt(raw)
      case Some(n) => VInt(n)
      case None => VStr(raw)
  }

  datatype LineKind = Skip | Entry(key: seq<char>, value: Value) | NoMatch

  /** What parse_arduino_cfg does with one line. */
  function Classify(line: seq<char>): LineKind
  {
    var line2 := RStrip(line);
    if |line2| > 0 && line2[0] == '#' then Skip
    else if line2 == [] then Skip
    else
      var n := KeyRun(line2);
      if 0 < n < |line2| && line2[n] == '=' then
        Entry(line2[.. n], Convert(Strip(UntilNewline(line2[n + 1 ..]))))
      else NoMatch
  }

  /** Blank lines and comments are skipped. A line is an entry exactly when
      it starts with a run of key characters followed by '=' (the key being
      the whole run), and raises otherwise. */
  lemma ClassifySpec(line: seq<char>)
    ensures var line2 := RStrip(line);
      && (Classify(line).Skip? <==> line2 == [] || line2[0] == '#')
      && (Classify(line).Entry? ==>
            var k := Classify(line).key;
            && |k| > 0 && |k| < |line2| && line2[.. |k|] == k && line2[|k|] == '='
            && forall j :: 0 <= j < |k| ==> KeyChar(k[j]))
      && (Classify(line).NoMatch? <==>
            && line2 != [] && line2[0] != '#'
            && forall n :: 0 < n < |line2| && (forall j :: 0 <= j < n ==> KeyChar(line2[j])) ==> line2[n] != '=')
  {
    ClassifyEntry(line);
    ClassifyNoMatch(line);
  }

  lemma ClassifyEntry(line: seq<char>)
    ensures var line2 := RStrip(line);
      Classify(line).Entry? ==>
        var k := Classify(line).key;
        && |k| > 0 && |k| < |line2| && line2[.. |k|] == k && line2[|k|] == '='
        && forall j :: 0 <= j < |k| ==> KeyChar(k[j])
  {
  }

  lemma ClassifyNoMatch(line: seq<char>)
    ensures var line2 := RStrip(line);
      Classify(line).NoMatch? <==>
        && line2 != [] && line2[0] != '#'
        && forall n :: 0 < n < |line2| && (forall j :: 0 <= j < n ==> KeyChar(line2[j])) ==> line2[n] != '='
  {
    var line2 := RStrip(line);
    if line2 != [] && line2[0] != '#' {
      var m := KeyRun(line2);
      forall n | 0 < n < |line2| && (forall j :: 0 <= j < n ==> KeyChar(line2[j])) && line2[n] == '='
        ensures m == n
      {
        KeyRunStopsAt(line2, n);
      }
    }
  }

  /** A run of key characters followed by '=' is the whole leading run. */
  lemma KeyRunStopsAt(s: seq<char>, n: nat)
    requires n < |s| && (forall j :: 0 <= j < n ==> KeyChar(s[j])) && s[n] == '='
    ensures KeyRun(s) == n
  {
  }

  /** The assignment each line makes. */
  function Steps(lines: seq<seq<char>>): (steps: seq<Option<(seq<char>, Value)>>)
    ensures |steps| == |lines|
    ensures forall i :: 0 <= i < |lines| ==>
      steps[i] == if Classify(lines[i]).Entry? then Some((Classify(lines[i]).key, Classify(lines[i]).value)) else None
  {
    seq(|lines|, i requires 0 <= i < |lines| =>
      if Classify(lines[i]).Entry? then Some((Classify(lines[i]).key, Classify(lines[i]).value)) else None)
  }

  /** The index of the first line that raises, or the number of lines. */
  function FirstNoMatch(lines: seq<seq<char>>): (b: nat)
    ensures b <= |lines| && (b < |lines| ==> Classify(lines[b]).NoMatch?)
    ensures forall j :: 0 <= j < b ==> !Classify(lines[j]).NoMatch?
  {
    if lines == [] then 0
    else if Classify(lines[0]).NoMatch? then 0
    else 1 + FirstNoMatch(lines[1..])
  }

  /** parse_arduino_cfg's outcome: the error at the first line that raises,
      or the dictionary of every entry in order. */
  function CfgOf(lines: seq<seq<char>>): (r: Result<Cfg>)
    ensures r.Err? <==> exists i :: 0 <= i < |lines| && Classify(lines[i]).NoMatch?
    ensures r.Err? ==> (r.line < |lines| && Classify(lines[r.line]).NoMatch?
      && forall j :: 0 <= j < r.line ==> !Classify(lines[j]).NoMatch?)
  {
    var b := FirstNoMatch(lines);
    if b < |lines| then Err(b) else Ok(Assign(Steps(lines)))
  }

  /** Line i sets `key`. */
  ghost predicate Sets(lines: seq<seq<char>>, i: int, key: seq<char>)
  {
    0 <= i < |lines| && Classify(lines[i]).Entry? && Classify(lines[i]).key == key
  }

  /** A key is in the configuration exactly when some line sets it, and it
      holds the value of the last line that does. */
  lemma CfgLookup(lines: seq<seq<char>>, key: seq<char>)
    requires CfgOf(lines).Ok?
    ensures key in CfgOf(lines).value.values <==> exists i :: Sets(lines, i, key)
    ensures forall i :: Sets(lines, i, key) && (forall j :: i < j < |lines| ==> !Sets(lines, j, key)) ==>
      CfgOf(lines).value.values[key] == Classify(lines[i]).value
  {
    var steps := Steps(lines);
    AssignLookup(steps, key);
    assert forall i :: Assigns(steps, i, key) <==> Sets(lines, i, key);
  }

  /** The body of parse_arduino_cfg's loop for one line: skip it, raise on
      it, or the key and value it sets. */
  method ParseLine(line: seq<char>) returns (kind: LineKind)
    ensures kind == Classify(line)
  {
    var line2 := RStrip(line);
    if |line2| > 0 && line2[0] == '#' {
      return Skip;
    }
    if line2 == [] {
      return Skip;
    }
    var n := KeyRun(line2);
    if !(0 < n < |line2| && line2[n] == '=') {
      return NoMatch;
    }
    var keyPath := line2[.. n];
    var rawValue := Strip(UntilNewline(line2[n + 1 ..]));
    return Entry(keyPath, Convert(rawValue));
  }

  /** parse_arduino_cfg. */
  method ParseArduinoCfg(lines: seq<seq<char>>) returns (r: Result<Cfg>)
    ensures r == CfgOf(lines)
  {
    ghost var steps := Steps(lines);
    ghost var bad := FirstNoMatch(lines);
    var cfg := Empty();
    var i := 0;
    while i < |lines|
      invariant i <= bad && cfg == Assign(steps[.. i])
    {
      AssignNext(steps, i);
      var kind := ParseLine(lines[i]);
      if kind.NoMatch? {
        return Err(i);
      }
      if kind.Entry? {
        assert steps[i] == Some((kind.key, kind.value));
        cfg := Put(cfg, kind.key, kind.value);
      } else {
        assert steps[i] == None;
      }
      PastGoodLine(lines, i);
      i := i + 1;
    }
    assert steps[.. i] == steps;
    r := Ok(cfg);
  }

  /** A line that does not raise, at or before the first that does, is
      before it. */
  lemma PastGoodLine(lines: seq<seq<char>>, i: nat)
    requires i < |lines| && i <= FirstNoMatch(lines) && !Classify(lines[i]).NoMatch?
    ensures i < FirstNoMatch(lines)
  {
  }

  // ---------------------------------------------------------------------
  // Boards

  /** `re.match('(.+)\.name', key)` succeeds with group 1 ending at p. */
  predicate NameAt(key: seq<char>, p: int)
  {
    1 <= p && p + 5 <= |key| && key[p .. p + 5] == ".name" && '\n' !in key[.. p]
  }

  /** The greedy group: the last p, at or below `from`, where the pattern
      matches. */
  function LastNameAt(key: seq<char>, from: int): (p: int)
    ensures (p >= 1 ==> p <= from && NameAt(key, p)) && (p < 1 ==> p == 0)
    ensures forall q :: p < q <= from ==> !NameAt(key, q)
    decreases from
  {
    if from < 1 then 0 else if NameAt(key, from) then from else LastNameAt(key, from - 1)
  }

  /** Group 1 of the board pattern: the key up to its last ".name" that has
      at least one character before it (the pattern is not anchored at the
      end, so anything may follow). */
  function BoardKey(key: seq<char>): (r: Option<seq<char>>)
    ensures r.Some? ==> (NameAt(key, |r.value|) && r.value == key[.. |r.value|]
      && forall q :: |r.value| < q ==> !NameAt(key, q))
    ensures r.None? ==> forall q :: !NameAt(key, q)
  {
    var p := LastNameAt(key, |key| - 5);
    if p >= 1 then Some(key[.. p]) else None
  }

  predicate StartsWith(s: seq<char>, prefix: seq<char>)
  {
    |prefix| <= |s| && s[.. |prefix|] == prefix
  }

  /** `key2[len(board_key)+1:]`: one character past the prefix dropped,
      empty when the key is not that long. */
  function Rest(key: seq<char>, prefix: seq<char>): (r: seq<char>)
    ensures |prefix| + 1 <= |key| ==> r == key[|prefix| + 1 ..]
    ensures |key| <= |prefix| + 1 ==> r == []
  {
    if |prefix| + 1 <= |key| then key[|prefix| + 1 ..] else []
  }

  /** The assignments the inner loop makes for one board key. */
  function BoardSteps(cfg: Cfg, prefix: seq<char>): (steps: seq<Option<(seq<char>, Value)>>)
    requires Valid(cfg)
    ensures |steps| == |cfg.keys|
    ensures forall j :: 0 <= j < |cfg.keys| ==>
      steps[j] == if StartsWith(cfg.keys[j], prefix) then Some((Rest(cfg.keys[j], prefix), cfg.values[cfg.keys[j]])) else None
  {
    seq(|cfg.keys|, j requires 0 <= j < |cfg.keys| =>
      if StartsWith(cfg.keys[j], prefix) then Some((Rest(cfg.keys[j], prefix), cfg.values[cfg.keys[j]])) else None)
  }

  /** One board's settings. */
  function BoardOf(cfg: Cfg, prefix: seq<char>): (board: Cfg)
    requires Valid(cfg)
  {
    Assign(BoardSteps(cfg, prefix))
  }

  /** board_name: the value of the board's "name" entry, None without
      one. */
  function NameOf(board: Cfg): Value
  {
    if "name" in board.values then board.values["name"] else VNone
  }

  /** A board holds `rest` exactly when some key starts with the board key
      and has that rest, with the value of the last such key; the board name
      is therefore the value of the last key whose rest is "name". */
  lemma BoardLookup(cfg: Cfg, prefix: seq<char>, rest: seq<char>)
    requires Valid(cfg)
    ensures rest in BoardOf(cfg, prefix).values <==>
      exists j :: 0 <= j < |cfg.keys| && StartsWith(cfg.keys[j], prefix) && Rest(cfg.keys[j], prefix) == rest
    ensures forall j :: (0 <= j < |cfg.keys| && StartsWith(cfg.keys[j], prefix) && Rest(cfg.keys[j], prefix) == rest
      && (forall m :: j < m < |cfg.keys| ==> !(StartsWith(cfg.keys[m], prefix) && Rest(cfg.keys[m], prefix) == rest))) ==>
      BoardOf(cfg, prefix).values[rest] == cfg.values[cfg.keys[j]]
  {
    var steps := BoardSteps(cfg, prefix);
    AssignLookup(steps, rest);
    assert forall j :: Assigns(steps, j, rest) <==>
      0 <= j < |cfg.keys| && StartsWith(cfg.keys[j], prefix) && Rest(cfg.keys[j], prefix) == rest;
  }

  /** The assignments the outer loop makes: one board per key that matches
      the board pattern, under that board's name. */
  function BoardsSteps(cfg: Cfg): (steps: seq<Option<(Value, Cfg)>>)
    requires Valid(cfg)
    ensures |steps| == |cfg.keys|
    ensures forall i :: 0 <= i < |cfg.keys| ==>
      steps[i] == match BoardKey(cfg.keys[i])
        case Some(p) => Some((NameOf(BoardOf(cfg, p)), BoardOf(cfg, p)))
        case None => None
  {
    seq(|cfg.keys|, i requires 0 <= i < |cfg.keys| =>
      match BoardKey(cfg.keys[i])
      case Some(p) => Some((NameOf(BoardOf(cfg, p)), BoardOf(cfg, p)))
      case None => None)
  }

  // ---------------------------------------------------------------------
  // The board dictionary, keyed by board names under Python's `==`

  /** The value Python compares a name by: bool is a subclass of int, so
      True equals 1 and False equals 0 (and they hash alike); any other
      value is equal only to itself. */
  function Canon(v: Value): (c: Value)
    ensures !c.VBool?
    ensures v.VBool? ==> c == VInt(if v.b then 1 else 0)
    ensures !v.VBool? ==> c == v
  {
    if v.VBool? then VInt(if v.b then 1 else 0) else v
  }

  /** boards_cfg: its keys are the key objects stored, no two of them equal
      under `==`. */
  type Boards = Dict<Value, Cfg>

  ghost predicate BoardsValid(d: Boards)
  {
    && (forall i, j :: 0 <= i < j < |d.keys| ==> Canon(d.keys[i]) != Canon(d.keys[j]))
    && (forall k :: k in d.values <==> k in d.keys)
  }

  /** The position of the stored key equal to `name`, or -1. */
  function FindKey(keys: seq<Value>, name: Value): (i: int)
    ensures -1 <= i < |keys|
    ensures i >= 0 ==> Canon(keys[i]) == Canon(name) && forall j :: 0 <= j < i ==> Canon(keys[j]) != Canon(name)
    ensures i < 0 ==> forall j :: 0 <= j < |keys| ==> Canon(keys[j]) != Canon(name)
  {
    if keys == [] then -1
    else if Canon(keys[0]) == Canon(name) then 0
    else
      var p := FindKey(keys[1..], name);
      if p < 0 then -1 else p + 1
  }

  /** `boards_cfg[name]`: the board stored under the key equal to `name`. */
  function Get(d: Boards, name: Value): (r: Option<Cfg>)
    requires BoardsValid(d)
    ensures r.Some? <==> exists i :: 0 <= i < |d.keys| && Canon(d.keys[i]) == Canon(name)
  {
    var i := FindKey(d.keys, name);
    if i < 0 then None else Some(d.values[d.keys[i]])
  }

  /** `boards_cfg[name] = board`: when a key equal to `name` is stored it
      keeps its place and its own object and takes the new board; otherwise
      `name` is appended. */
  function PutBoard(d: Boards, name: Value, board: Cfg): (r: Boards)
    requires BoardsValid(d)
    ensures BoardsValid(r)
    ensures Get(r, name) == Some(board)
    ensures forall n :: Canon(n) != Canon(name) ==> Get(r, n) == Get(d, n)
    ensures FindKey(d.keys, name) >= 0 ==> r.keys == d.keys
    ensures FindKey(d.keys, name) < 0 ==> r.keys == d.keys + [name]
  {
    var i := FindKey(d.keys, name);
    if i >= 0 then
      var r := Dict(d.keys, d.values[d.keys[i] := board]);
      FindKeyDistinct(d.keys, i);
      r
    else
      var r := Dict(d.keys + [name], d.values[name := board]);
      FindKeyAppend(d.keys, name);
      r
  }

  /** The first position whose key equals `name`, or -1 when none does,
      is what FindKey returns. */
  lemma FindKeyIs(keys: seq<Value>, name: Value, i: int)
    requires -1 <= i < |keys|
    requires i >= 0 ==> Canon(keys[i]) == Canon(name) && forall j :: 0 <= j < i ==> Canon(keys[j]) != Canon(name)
    requires i < 0 ==> forall j :: 0 <= j < |keys| ==> Canon(keys[j]) != Canon(name)
    ensures FindKey(keys, name) == i
  {
  }

  /** In keys pairwise unequal under `==`, FindKey finds each key at its
      own position. */
  lemma FindKeyDistinct(keys: seq<Value>, i: nat)
    requires i < |keys| && forall p, q :: 0 <= p < q < |keys| ==> Canon(keys[p]) != Canon(keys[q])
    ensures FindKey(keys, keys[i]) == i
  {
    FindKeyIs(keys, keys[i], i);
  }

  /** After appending a new name, FindKey finds it at the end and every
      other name where it was. */
  lemma FindKeyAppend(keys: seq<Value>, name: Value)
    requires FindKey(keys, name) < 0
    ensures FindKey(keys + [name], name) == |keys|
    ensures forall n :: Canon(n) != Canon(name) ==> FindKey(keys + [name], n) == FindKey(keys, n)
  {
    FindKeyAppendNew(keys, name);
    forall n | Canon(n) != Canon(name)
      ensures FindKey(keys + [name], n) == FindKey(keys, n)
    {
      FindKeyAppendOther(keys, name, n);
    }
  }

  lemma FindKeyAppendNew(keys: seq<Value>, name: Value)
    requires FindKey(keys, name) < 0
    ensures FindKey(keys + [name], name) == |keys|
  {
    var ks := keys + [name];
    assert forall j :: 0 <= j < |keys| ==> ks[j] == keys[j];
    FindKeyIs(ks, name, |keys|);
  }

  lemma FindKeyAppendOther(keys: seq<Value>, name: Value, n: Value)
    requires Canon(n) != Canon(name)
    ensures FindKey(keys + [name], n) == FindKey(keys, n)
  {
    var ks := keys + [name];
    assert forall j :: 0 <= j < |keys| ==> ks[j] == keys[j];
    FindKeyIs(ks, n, FindKey(keys, n));
  }

  /** The dictionary built by a run of board assignments. */
  function AssignBoards(steps: seq<Option<(Value, Cfg)>>): (d: Boards)
    ensures BoardsValid(d)
  {
    if steps == [] then Dict([], map[])
    else
      var d := AssignBoards(steps[.. |steps| - 1]);
      match steps[|steps| - 1]
      case None => d
      case Some(nb) => PutBoard(d, nb.0, nb.1)
  }

  /** Step i assigns a name equal to `name`. */
  ghost predicate AssignsName(steps: seq<Option<(Value, Cfg)>>, i: int, name: Value)
  {
    0 <= i < |steps| && steps[i].Some? && Canon(steps[i].value.0) == Canon(name)
  }

  /** A name is found exactly when some step assigned an equal name; it finds
      the board of the last such step, and the key object stored for it is
      the name of the first such step. */
  lemma AssignBoardsLookup(steps: seq<Option<(Value, Cfg)>>, name: Value)
    ensures Get(AssignBoards(steps), name).Some? <==> exists i :: AssignsName(steps, i, name)
    ensures forall i :: AssignsName(steps, i, name) && (forall j :: i < j < |steps| ==> !AssignsName(steps, j, name)) ==>
      Get(AssignBoards(steps), name) == Some(steps[i].value.1)
    ensures forall i :: AssignsName(steps, i, name) && (forall j :: 0 <= j < i ==> !AssignsName(steps, j, name)) ==>
      FindKey(AssignBoards(steps).keys, name) >= 0 &&
      AssignBoards(steps).keys[FindKey(AssignBoards(steps).keys, name)] == steps[i].value.0
  {
    AssignBoardsHas(steps, name);
    forall i | AssignsName(steps, i, name) && (forall j :: i < j < |steps| ==> !AssignsName(steps, j, name))
      ensures Get(AssignBoards(steps), name) == Some(steps[i].value.1)
    {
      AssignBoardsLast(steps, name, i);
    }
    forall i | AssignsName(steps, i, name) && (forall j :: 0 <= j < i ==> !AssignsName(steps, j, name))
      ensures FindKey(AssignBoards(steps).keys, name) >= 0 &&
        AssignBoards(steps).keys[FindKey(AssignBoards(steps).keys, name)] == steps[i].value.0
    {
      AssignBoardsFirst(steps, name, i);
    }
  }

  /** The dictionary after one more step. */
  lemma AssignBoardsNext(steps: seq<Option<(Value, Cfg)>>)
    requires steps != []
    ensures AssignBoards(steps) == match steps[|steps| - 1]
      case None => AssignBoards(steps[.. |steps| - 1])
      case Some(nb) => PutBoard(AssignBoards(steps[.. |steps| - 1]), nb.0, nb.1)
  {
  }

  /** Whether step j assigns `name` is the same in the run and in the run
      without its last step. */
  lemma AssignsNameInit(steps: seq<Option<(Value, Cfg)>>, init: seq<Option<(Value, Cfg)>>, name: Value)
    requires steps != [] && init == steps[.. |steps| - 1]
    ensures forall j :: 0 <= j < |init| ==> (AssignsName(steps, j, name) <==> AssignsName(init, j, name))
    ensures (exists j :: AssignsName(steps, j, name)) <==>
      (exists j :: AssignsName(init, j, name)) || AssignsName(steps, |init|, name)
  {
    assert forall j :: 0 <= j < |init| ==> steps[j] == init[j];
    if exists j :: AssignsName(steps, j, name) {
      var j :| AssignsName(steps, j, name);
      if j < |init| {
        assert AssignsName(init, j, name);
      }
    }
    if exists j :: AssignsName(init, j, name) {
      var j :| AssignsName(init, j, name);
      assert AssignsName(steps, j, name);
    }
  }

  lemma {:induction false} AssignBoardsHas(steps: seq<Option<(Value, Cfg)>>, name: Value)
    ensures Get(AssignBoards(steps), name).Some? <==> exists i :: AssignsName(steps, i, name)
  {
    if steps != [] {
      var init := steps[.. |steps| - 1];
      AssignBoardsHas(init, name);
      AssignsNameInit(steps, init, name);
      AssignBoardsNext(steps);
      var last := steps[|steps| - 1];
      if last.Some? {
        PutBoardGet(AssignBoards(init), last.value.0, last.value.1, name);
      }
    }
  }

  lemma {:induction false} AssignBoardsLast(steps: seq<Option<(Value, Cfg)>>, name: Value, i: nat)
    requires AssignsName(steps, i, name) && forall j :: i < j < |steps| ==> !AssignsName(steps, j, name)
    ensures Get(AssignBoards(steps), name) == Some(steps[i].value.1)
  {
    var init := steps[.. |steps| - 1];
    var last := steps[|steps| - 1];
    AssignBoardsNext(steps);
    AssignsNameInit(steps, init, name);
    if i < |steps| - 1 {
      AssignBoardsLast(init, name, i);
      assert !AssignsName(steps, |steps| - 1, name);
      if last.Some? {
        PutBoardGet(AssignBoards(init), last.value.0, last.value.1, name);
      }
    } else {
      PutBoardGet(AssignBoards(init), last.value.0, last.value.1, name);
    }
  }

  lemma {:induction false} AssignBoardsFirst(steps: seq<Option<(Value, Cfg)>>, name: Value, i: nat)
    requires AssignsName(steps, i, name) && forall j :: 0 <= j < i ==> !AssignsName(steps, j, name)
    ensures FindKey(AssignBoards(steps).keys, name) >= 0
    ensures AssignBoards(steps).keys[FindKey(AssignBoards(steps).keys, name)] == steps[i].value.0
  {
    var init := steps[.. |steps| - 1];
    var last := steps[|steps| - 1];
    AssignBoardsNext(steps);
    AssignsNameInit(steps, init, name);
    if i < |steps| - 1 {
      AssignBoardsFirst(init, name, i);
      if last.Some? {
        PutBoardKeepsKey(AssignBoards(init), last.value.0, last.value.1, name);
      }
    } else {
      AssignBoardsHas(init, name);
      PutBoardNewKey(AssignBoards(init), last.value.0, last.value.1, name);
    }
  }

  /** FindKey, and so Get, sees a name only through its value under `==`. */
  lemma FindKeyCanon(keys: seq<Value>, a: Value, b: Value)
    requires Canon(a) == Canon(b)
    ensures FindKey(keys, a) == FindKey(keys, b)
  {
    FindKeyIs(keys, b, FindKey(keys, a));
  }

  /** A lookup after an assignment: the assigned board for an equal name,
      the earlier entry for any other. */
  lemma PutBoardGet(d: Boards, name: Value, board: Cfg, n: Value)
    requires BoardsValid(d)
    ensures Get(PutBoard(d, name, board), n) == if Canon(name) == Canon(n) then Some(board) else Get(d, n)
  {
    if Canon(name) == Canon(n) {
      FindKeyCanon(PutBoard(d, name, board).keys, name, n);
    }
  }

  /** A name already stored keeps its key object and position. */
  lemma PutBoardKeepsKey(d: Boards, name: Value, board: Cfg, n: Value)
    requires BoardsValid(d) && FindKey(d.keys, n) >= 0
    ensures FindKey(PutBoard(d, name, board).keys, n) == FindKey(d.keys, n)
  {
    if Canon(n) == Canon(name) {
      FindKeyCanon(d.keys, name, n);
    } else {
      FindKeyAppendOther(d.keys, name, n);
    }
  }

  /** A name not yet stored, when assigned, is stored as the name given. */
  lemma PutBoardNewKey(d: Boards, name: Value, board: Cfg, n: Value)
    requires BoardsValid(d) && Get(d, n).None? && Canon(name) == Canon(n)
    ensures FindKey(PutBoard(d, name, board).keys, n) >= 0
    ensures PutBoard(d, name, board).keys[FindKey(PutBoard(d, name, board).keys, n)] == name
  {
    FindKeyCanon(d.keys, name, n);
    FindKeyAppendNew(d.keys, name);
    FindKeyCanon(d.keys + [name], name, n);
  }

  function BoardsOf(cfg: Cfg): (d: Boards)
    requires Valid(cfg)
    ensures BoardsValid(d)
  {
    AssignBoards(BoardsSteps(cfg))
  }

  /** parse_arduino_board_cfg's outcome. */
  function BoardCfgOf(lines: seq<seq<char>>): Result<Boards>
  {
    match CfgOf(lines)
    case Err(i) => Err(i)
    case Ok(cfg) => Ok(BoardsOf(cfg))
  }

  /** Key i of the configuration names a board whose name is equal to
      `name` under `==`. */
  ghost predicate NamesBoard(cfg: Cfg, i: int, name: Value)
    requires Valid(cfg)
  {
    0 <= i < |cfg.keys| && BoardKey(cfg.keys[i]).Some? && Canon(NameOf(BoardOf(cfg, BoardKey(cfg.keys[i]).value))) == Canon(name)
  }

  /** boards_cfg[name] exists exactly when some key matching the board
      pattern leads to a board whose name equals `name` (True and 1 being
      one name); it is the board of the last such key, stored under the name
      of the first. */
  lemma BoardsLookup(cfg: Cfg, name: Value)
    requires Valid(cfg)
    ensures Get(BoardsOf(cfg), name).Some? <==> exists i :: NamesBoard(cfg, i, name)
    ensures forall i :: NamesBoard(cfg, i, name) && (forall j :: i < j < |cfg.keys| ==> !NamesBoard(cfg, j, name)) ==>
      Get(BoardsOf(cfg), name) == Some(BoardOf(cfg, BoardKey(cfg.keys[i]).value))
    ensures forall i :: NamesBoard(cfg, i, name) && (forall j :: 0 <= j < i ==> !NamesBoard(cfg, j, name)) ==>
      FindKey(BoardsOf(cfg).keys, name) >= 0 &&
      BoardsOf(cfg).keys[FindKey(BoardsOf(cfg).keys, name)] == NameOf(BoardOf(cfg, BoardKey(cfg.keys[i]).value))
  {
    var steps := BoardsSteps(cfg);
    AssignBoardsLookup(steps, name);
    BoardsStepsNames(cfg, steps, name);
  }

  /** A step of BoardsSteps assigns `name` exactly when its key names a
      board equal to `name`, and it assigns that board. */
  lemma BoardsStepsNames(cfg: Cfg, steps: seq<Option<(Value, Cfg)>>, name: Value)
    requires Valid(cfg) && steps == BoardsSteps(cfg)
    ensures forall i :: AssignsName(steps, i, name) <==> NamesBoard(cfg, i, name)
    ensures forall i :: AssignsName(steps, i, name) ==>
      steps[i].value == (NameOf(BoardOf(cfg, BoardKey(cfg.keys[i]).value)), BoardOf(cfg, BoardKey(cfg.keys[i]).value))
  {
    forall i
      ensures AssignsName(steps, i, name) <==> NamesBoard(cfg, i, name)
    {
      if 0 <= i < |steps| {
        var m := BoardKey(cfg.keys[i]);
        assert m.Some? ==> steps[i] == Some((NameOf(BoardOf(cfg, m.value)), BoardOf(cfg, m.value)));
        assert m.None? ==> steps[i] == None;
      }
    }
  }

  /** A board named true (key i) and a later one named 1 (key j) share one
      entry: it holds the later board, under the key True. */
  lemma TrueAndOneMerge(cfg: Cfg, i: nat, j: nat)
    requires Valid(cfg) && i < j < |cfg.keys|
    requires BoardKey(cfg.keys[i]).Some? && NameOf(BoardOf(cfg, BoardKey(cfg.keys[i]).value)) == VBool(true)
    requires BoardKey(cfg.keys[j]).Some? && NameOf(BoardOf(cfg, BoardKey(cfg.keys[j]).value)) == VInt(1)
    requires forall k :: 0 <= k < i ==> !NamesBoard(cfg, k, VInt(1))
    requires forall k :: j < k < |cfg.keys| ==> !NamesBoard(cfg, k, VInt(1))
    ensures Get(BoardsOf(cfg), VBool(true)) == Get(BoardsOf(cfg), VInt(1)) == Some(BoardOf(cfg, BoardKey(cfg.keys[j]).value))
    ensures FindKey(BoardsOf(cfg).keys, VInt(1)) >= 0 && BoardsOf(cfg).keys[FindKey(BoardsOf(cfg).keys, VInt(1))] == VBool(true)
  {
    var d := BoardsOf(cfg);
    assert NamesBoard(cfg, i, VInt(1)) && NamesBoard(cfg, j, VInt(1));
    BoardsLookup(cfg, VInt(1));
    FindKeyIs(d.keys, VBool(true), FindKey(d.keys, VInt(1)));
  }

  /** parse_arduino_board_cfg. */
  method ParseArduinoBoardCfg(lines: seq<seq<char>>) returns (r: Result<Boards>)
    ensures r == BoardCfgOf(lines)
  {
    var parsed := ParseArduinoCfg(lines);
    if parsed.Err? {
      return Err(parsed.line);
    }
    var cfg := parsed.value;
    var boardsCfg: Boards := Dict([], map[]);
    var i := 0;
    while i < |cfg.keys|
      invariant i <= |cfg.keys| && boardsCfg == AssignBoards(BoardsSteps(cfg)[.. i])
    {
      assert BoardsSteps(cfg)[.. i + 1][.. i] == BoardsSteps(cfg)[.. i];
      var m := BoardKey(cfg.keys[i]);
      if m.Some? {
        var boardKey := m.value;
        var boardCfg, boardName := BoardConfig(cfg, boardKey);
        boardsCfg := PutBoard(boardsCfg, boardName, boardCfg);
      }
      i := i + 1;
    }
    assert BoardsSteps(cfg)[.. i] == BoardsSteps(cfg);
    return Ok(boardsCfg);
  }

  /** The inner loop of parse_arduino_board_cfg: the settings of the keys
      starting with `boardKey`, and the board's name. */
  method BoardConfig(cfg: Cfg, boardKey: seq<char>) returns (boardCfg: Cfg, boardName: Value)
    requires Valid(cfg)
    ensures boardCfg == BoardOf(cfg, boardKey) && boardName == NameOf(boardCfg)
  {
    boardCfg := Empty();
    boardName := VNone;
    var j := 0;
    while j < |cfg.keys|
      invariant j <= |cfg.keys| && boardCfg == Assign(BoardSteps(cfg, boardKey)[.. j])
      invariant boardName == NameOf(boardCfg)
    {
      assert BoardSteps(cfg, boardKey)[.. j + 1][.. j] == BoardSteps(cfg, boardKey)[.. j];
      var key2 := cfg.keys[j];
      var value2 := cfg.values[key2];
      if StartsWith(key2, boardKey) {
        var keyRest := Rest(key2, boardKey);
        boardCfg := Put(boardCfg, keyRest, value2);
        if keyRest == "name" {
          boardName := value2;
        }
      }
      j := j + 1;
    }
    assert BoardSteps(cfg, boardKey)[.. j] == BoardSteps(cfg, boardKey);
  }
}
