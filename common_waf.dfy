// Helpers of the shared build scripts (common/scripts/common_waf/__init__.py):
// expanding a serial port number to a device name, choosing the program a
// command refers to, and picking the application sources of a directory.
//
// The platform is the parameter `win32`; the directory listings that glob and
// ant_glob make are parameters, in the order those calls return them.

module CommonWaf {
  import opened PyDict
  import opened PyStr

  // ---------------------------------------------------------------------
  // expand_port

  function PortPrefix(win32: bool): seq<char>
  {
    if win32 then "COM" else "/dev/ttyUSB"
  }

  /** expand_port: a port int() accepts becomes the platform's device
      prefix followed by that integer; any other port is returned as it
      is. */
  function ExpandPort(port: seq<char>, win32: bool): seq<char>
  {
    match ParseInt(Strip(port))
    case None => port
    case Some(n) => PortPrefix(win32) + IntText(n)
  }

  /** A numeric port names the device whose number is the port's value, so
      leading zeros and surrounding blanks disappear and reading the number
      back gives the port's value; a non-numeric port is left alone. */
  lemma ExpandPortSpec(port: seq<char>, win32: bool)
    ensures ParseInt(Strip(port)).None? ==> ExpandPort(port, win32) == port
    ensures ParseInt(Strip(port)).Some? ==>
      var prefix := PortPrefix(win32);
      var r := ExpandPort(port, win32);
      StartsWith(r, prefix) && ParseInt(r[|prefix| ..]) == ParseInt(Strip(port))
  {
    var v := ParseInt(Strip(port));
    if v.Some? {
      var r := PortPrefix(win32) + IntText(v.value);
      assert ExpandPort(port, win32) == r;
      assert r[|PortPrefix(win32)| ..] == IntText(v.value);
      ParseIntText(v.value);
    }
  }

  // ---------------------------------------------------------------------
  // expand_app

  /** os.path.splitext of a base name: the extension runs from the last
      dot, unless only dots come before that dot. */
  function SplitExt(b: seq<char>): (seq<char>, seq<char>)
  {
    var d := LastDot(b, |b|);
    if d >= 0 && exists j :: 0 <= j < d && b[j] != '.' then (b[.. d], b[d..]) else (b, [])
  }

  /** The root and the extension make up the name again; an extension is
      a dot and no further dot, and it never takes a name whose other
      characters are all dots. */
  lemma SplitExtSpec(b: seq<char>)
    ensures var (root, ext) := SplitExt(b);
      && root + ext == b
      && (ext == [] || (ext[0] == '.' && '.' !in ext[1..] && exists j :: 0 <= j < |root| && root[j] != '.'))
  {
    var d := LastDot(b, |b|);
    if d >= 0 && exists j :: 0 <= j < d && b[j] != '.' {
      assert b[.. d] + b[d..] == b;
      assert b[d..][1..] == b[d + 1 ..];
    }
  }

  /** The index of the last dot before `end`, or -1. */
  function LastDot(b: seq<char>, end: nat): (d: int)
    requires end <= |b|
    ensures -1 <= d < end && (d >= 0 ==> b[d] == '.')
    ensures forall j :: d < j < end ==> b[j] != '.'
  {
    if end == 0 then -1 else if b[end - 1] == '.' then end - 1 else LastDot(b, end - 1)
  }

  const SUFFIXES: seq<seq<char>> := ["", ".exe", ".elf"]
  const PREFIXES: seq<seq<char>> := ["", "app_", "example_", "test_"]

  /** An entry of the build directory: its name and whether it is a regular
      file. */
  datatype Entry = Entry(name: seq<char>, isFile: bool)

  // Listing every name under build/ skips the names that start with a dot.
  predicate Listed(e: Entry)
  {
    !(|e.name| > 0 && e.name[0] == '.')
  }

  predicate IsProgram(e: Entry)
  {
    Listed(e) && e.isFile && SplitExt(e.name).1 in SUFFIXES
  }

  /** The first loop's `programs`. */
  function Programs(entries: seq<Entry>): (ps: seq<seq<char>>)
    ensures |ps| <= |entries|
  {
    if entries == [] then []
    else
      var e := entries[|entries| - 1];
      Programs(entries[.. |entries| - 1]) + (if IsProgram(e) then [e.name] else [])
  }

  /** The programs are the names of the listed regular files whose
      extension is one of the suffixes. */
  lemma {:induction false} ProgramsSpec(entries: seq<Entry>)
    ensures forall p :: p in Programs(entries) <==> exists e :: e in entries && IsProgram(e) && e.name == p
  {
    if entries != [] {
      var e := entries[|entries| - 1];
      assert entries == entries[.. |entries| - 1] + [e];
      ProgramsSpec(entries[.. |entries| - 1]);
    }
  }

  lemma ProgramsNext(entries: seq<Entry>, i: nat)
    requires i < |entries|
    ensures Programs(entries[.. i + 1])
      == Programs(entries[.. i]) + (if IsProgram(entries[i]) then [entries[i].name] else [])
  {
    assert entries[.. i + 1][.. i] == entries[.. i];
  }

  predicate StartsWith(s: seq<char>, prefix: seq<char>)
  {
    |prefix| <= |s| && s[.. |prefix|] == prefix
  }

  /** How many of `prefixes` make the program name spell the app. */
  function Hits(p: seq<char>, app: seq<char>, prefixes: seq<seq<char>>): (n: nat)
    ensures n <= |prefixes|
  {
    if prefixes == [] then 0
    else
      var last := prefixes[|prefixes| - 1];
      Hits(p, app, prefixes[.. |prefixes| - 1]) + (if StartsWith(p, last + app) then 1 else 0)
  }

  /** A program has hits exactly when it starts with a prefix followed by
      the app. */
  lemma {:induction false} HitsSpec(p: seq<char>, app: seq<char>, prefixes: seq<seq<char>>)
    ensures Hits(p, app, prefixes) > 0 <==> exists q :: q in prefixes && StartsWith(p, q + app)
  {
    if prefixes != [] {
      var last := prefixes[|prefixes| - 1];
      assert prefixes == prefixes[.. |prefixes| - 1] + [last];
      HitsSpec(p, app, prefixes[.. |prefixes| - 1]);
    }
  }

  /** n copies of x. */
  function Copies(x: seq<char>, n: nat): (r: seq<seq<char>>)
    ensures |r| == n && forall j :: 0 <= j < n ==> r[j] == x
  {
    if n == 0 then [] else Copies(x, n - 1) + [x]
  }

  /** The second loop's `possible_a`: the root of each program once per
      prefix that makes it spell the app. */
  function Candidates(programs: seq<seq<char>>, app: seq<char>): seq<seq<char>>
  {
    if programs == [] then []
    else
      var p := programs[|programs| - 1];
      Candidates(programs[.. |programs| - 1], app) + Copies(SplitExt(p).0, Hits(p, app, PREFIXES))
  }

  /** Program i spells the app after one of the prefixes. */
  predicate Spells(programs: seq<seq<char>>, i: int, app: seq<char>)
  {
    0 <= i < |programs| && Hits(programs[i], app, PREFIXES) > 0
  }

  /** Program i of `programs` spells the app as it does in any longer list. */
  lemma SpellsPrefix(programs: seq<seq<char>>, n: nat, app: seq<char>)
    requires n <= |programs|
    ensures forall j :: 0 <= j < n ==> (Spells(programs[.. n], j, app) <==> Spells(programs, j, app))
  {
    forall j | 0 <= j < n ensures Spells(programs[.. n], j, app) <==> Spells(programs, j, app) {
      assert programs[.. n][j] == programs[j];
    }
  }

  /** The candidates are the roots of the programs that spell the app;
      there are none exactly when no program does. */
  lemma {:induction false} CandidatesMembers(programs: seq<seq<char>>, app: seq<char>)
    ensures forall x :: x in Candidates(programs, app) <==>
      exists i :: Spells(programs, i, app) && x == SplitExt(programs[i]).0
    ensures Candidates(programs, app) == [] <==> forall i :: !Spells(programs, i, app)
  {
    if programs != [] {
      var n := |programs| - 1;
      var init := programs[.. n];
      var p := programs[n];
      CandidatesMembers(init, app);
      SpellsPrefix(programs, n, app);
      var head := Candidates(init, app);
      var tail := Copies(SplitExt(p).0, Hits(p, app, PREFIXES));
      assert Candidates(programs, app) == head + tail;
      forall x | x in head + tail
        ensures exists i :: Spells(programs, i, app) && x == SplitExt(programs[i]).0
      {
        if x in head {
          var i :| Spells(init, i, app) && x == SplitExt(init[i]).0;
          assert Spells(programs, i, app) && init[i] == programs[i];
        } else {
          assert Spells(programs, n, app);
        }
      }
      forall x | exists i :: Spells(programs, i, app) && x == SplitExt(programs[i]).0
        ensures x in head + tail
      {
        var i :| Spells(programs, i, app) && x == SplitExt(programs[i]).0;
        if i < n {
          assert Spells(init, i, app) && init[i] == programs[i];
        } else {
          assert tail[0] == x;
        }
      }
      if Candidates(programs, app) != [] {
        var x := Candidates(programs, app)[0];
        assert x in head + tail;
      }
    }
  }

  /** The first candidate is the root of the first program that spells
      the app. */
  lemma {:induction false} CandidatesFirst(programs: seq<seq<char>>, app: seq<char>, i: int)
    requires Spells(programs, i, app)
    requires forall j :: 0 <= j < i ==> !Spells(programs, j, app)
    ensures |Candidates(programs, app)| > 0 && Candidates(programs, app)[0] == SplitExt(programs[i]).0
  {
    var n := |programs| - 1;
    var init := programs[.. n];
    var p := programs[n];
    SpellsPrefix(programs, n, app);
    var head := Candidates(init, app);
    var tail := Copies(SplitExt(p).0, Hits(p, app, PREFIXES));
    assert Candidates(programs, app) == head + tail;
    if i < n {
      CandidatesFirst(init, app, i);
    } else {
      CandidatesMembers(init, app);
    }
  }

  lemma HitsNext(p: seq<char>, app: seq<char>, k: nat)
    requires k < |PREFIXES|
    ensures Hits(p, app, PREFIXES[.. k + 1])
      == Hits(p, app, PREFIXES[.. k]) + (if StartsWith(p, PREFIXES[k] + app) then 1 else 0)
  {
    assert PREFIXES[.. k + 1][.. k] == PREFIXES[.. k];
  }

  lemma CandidatesNext(programs: seq<seq<char>>, app: seq<char>, i: nat)
    requires i < |programs|
    ensures Candidates(programs[.. i + 1], app)
      == Candidates(programs[.. i], app) + Copies(SplitExt(programs[i]).0, Hits(programs[i], app, PREFIXES))
  {
    assert programs[.. i + 1][.. i] == programs[.. i];
  }

  /** expand_app's choice: the app itself when nothing spells it or it is
      itself a candidate, otherwise the first candidate. */
  function Choose(app: seq<char>, candidates: seq<seq<char>>): (a: seq<char>)
    ensures a == app || a in candidates
  {
    if |candidates| == 0 || app in candidates then app else candidates[0]
  }

  /** expand_app keeps the app exactly when no program spells it or one
      that does has the app as its root. */
  lemma ExpandAppKeeps(app: seq<char>, entries: seq<Entry>)
    ensures var programs := Programs(entries);
      (Choose(app, Candidates(programs, app)) == app <==>
        (forall i :: !Spells(programs, i, app))
        || exists i :: Spells(programs, i, app) && SplitExt(programs[i]).0 == app)
  {
    CandidatesMembers(Programs(entries), app);
  }

  /** Otherwise it is the root of the first program that spells the app. */
  lemma ExpandAppFirst(app: seq<char>, entries: seq<Entry>, i: int)
    requires Spells(Programs(entries), i, app)
    requires forall j :: 0 <= j < i ==> !Spells(Programs(entries), j, app)
    ensures var a := Choose(app, Candidates(Programs(entries), app));
      a == app || a == SplitExt(Programs(entries)[i]).0
  {
    CandidatesFirst(Programs(entries), app, i);
  }

  /** expand_app. */
  method ExpandApp(app: seq<char>, entries: seq<Entry>) returns (a: seq<char>)
    ensures a == Choose(app, Candidates(Programs(entries), app))
  {
    var programs := [];
    var i := 0;
    while i < |entries|
      invariant i <= |entries| && programs == Programs(entries[.. i])
    {
      ProgramsNext(entries, i);
      var g := entries[i];
      if Listed(g) && g.isFile {
        var b := g.name;
        var split := SplitExt(b);
        if split.1 in SUFFIXES {
          programs := programs + [b];
        }
      }
      i := i + 1;
    }
    assert entries[.. i] == entries;
    var possible := PossibleApps(programs, app);
    if |possible| == 0 || app in possible {
      a := app;
    } else {
      a := possible[0];
    }
  }

  /** expand_app's outer loop over the programs. */
  method PossibleApps(programs: seq<seq<char>>, app: seq<char>) returns (possible: seq<seq<char>>)
    ensures possible == Candidates(programs, app)
  {
    possible := [];
    var i := 0;
    while i < |programs|
      invariant i <= |programs| && possible == Candidates(programs[.. i], app)
    {
      CandidatesNext(programs, app, i);
      possible := AddRoots(possible, programs[i], app);
      i := i + 1;
    }
    assert programs[.. i] == programs;
  }

  /** expand_app's inner loop over the prefixes for one program. */
  method AddRoots(before: seq<seq<char>>, p: seq<char>, app: seq<char>) returns (possible: seq<seq<char>>)
    ensures possible == before + Copies(SplitExt(p).0, Hits(p, app, PREFIXES))
  {
    possible := before;
    var k := 0;
    while k < |PREFIXES|
      invariant k <= |PREFIXES|
      invariant possible == before + Copies(SplitExt(p).0, Hits(p, app, PREFIXES[.. k]))
    {
      HitsNext(p, app, k);
      if StartsWith(p, PREFIXES[k] + app) {
        var root := SplitExt(p).0;
        assert possible + [root] == before + (Copies(root, Hits(p, app, PREFIXES[.. k])) + [root]);
        possible := possible + [root];
      }
      k := k + 1;
    }
    assert PREFIXES[.. k] == PREFIXES;
  }

  // ---------------------------------------------------------------------
  // glob_apps_srcs

  /** os.path.basename: what follows the last '/'. */
  function Basename(path: seq<char>): seq<char>
  {
    if path == [] then []
    else if path[|path| - 1] == '/' then []
    else Basename(path[.. |path| - 1]) + [path[|path| - 1]]
  }

  /** The base name is the tail of the path after its last '/', or the
      whole path when it has none. */
  lemma {:induction false} BasenameSpec(path: seq<char>)
    ensures var b := Basename(path);
      && '/' !in b && |b| <= |path| && b == path[|path| - |b| ..]
      && (|b| < |path| ==> path[|path| - |b| - 1] == '/')
  {
    if path != [] && path[|path| - 1] != '/' {
      var init := path[.. |path| - 1];
      BasenameSpec(init);
      var b := Basename(init);
      var c := path[|path| - 1];
      assert Basename(path) == b + [c];
      assert path[|path| - |b| - 1 ..] == init[|init| - |b| ..] + [c];
      if |b| < |init| {
        assert path[|path| - |b| - 2] == init[|init| - |b| - 1];
      }
    }
  }

  /** The default filter `^\d+_*` matches exactly the names that start with
      a digit. */
  predicate AppSource(path: seq<char>)
  {
    var b := Basename(path);
    |b| > 0 && IsDigit(b[0])
  }

  /** The files kept from one listing, in order. */
  function Kept(files: seq<seq<char>>): (r: seq<seq<char>>)
    ensures |r| <= |files|
  {
    if files == [] then []
    else
      var f := files[|files| - 1];
      Kept(files[.. |files| - 1]) + (if AppSource(f) then [f] else [])
  }

  /** The kept files are the listed files the filter matches. */
  lemma {:induction false} KeptSpec(files: seq<seq<char>>)
    ensures forall f :: f in Kept(files) <==> f in files && AppSource(f)
  {
    if files != [] {
      var f := files[|files| - 1];
      assert files == files[.. |files| - 1] + [f];
      KeptSpec(files[.. |files| - 1]);
    }
  }

  /** Keeping is a filter: it keeps the order, and keeping twice keeps the
      same files. */
  lemma {:induction false} KeptIdempotent(files: seq<seq<char>>)
    ensures Kept(Kept(files)) == Kept(files)
  {
    if files != [] {
      var init := files[.. |files| - 1];
      var f := files[|files| - 1];
      KeptIdempotent(init);
      KeptAppend(Kept(init), if AppSource(f) then [f] else []);
    }
  }

  lemma {:induction false} KeptAppend(a: seq<seq<char>>, b: seq<seq<char>>)
    ensures Kept(a + b) == Kept(a) + Kept(b)
    decreases |b|
  {
    if b != [] {
      var bi := b[.. |b| - 1];
      assert (a + b)[.. |a + b| - 1] == a + bi;
      KeptAppend(a, bi);
    } else {
      assert a + b == a;
    }
  }

  /** glob_apps_srcs with the default filter: the matching C files, then
      the matching C++ files. */
  method GlobAppsSrcs(cFiles: seq<seq<char>>, cppFiles: seq<seq<char>>) returns (appsSrcs: seq<seq<char>>)
    ensures appsSrcs == Kept(cFiles) + Kept(cppFiles)
  {
    appsSrcs := [];
    appsSrcs := AppendKept(appsSrcs, cFiles);
    appsSrcs := AppendKept(appsSrcs, cppFiles);
  }

  lemma KeptNext(fs: seq<seq<char>>, i: nat)
    requires i < |fs|
    ensures Kept(fs[.. i + 1]) == Kept(fs[.. i]) + (if AppSource(fs[i]) then [fs[i]] else [])
  {
    assert fs[.. i + 1][.. i] == fs[.. i];
  }

  /** The inner loop over one listing. */
  method AppendKept(srcs: seq<seq<char>>, fs: seq<seq<char>>) returns (r: seq<seq<char>>)
    ensures r == srcs + Kept(fs)
  {
    r := srcs;
    var i := 0;
    while i < |fs|
      invariant i <= |fs| && r == srcs + Kept(fs[.. i])
    {
      KeptNext(fs, i);
      if AppSource(fs[i]) {
        r := r + [fs[i]];
      }
      i := i + 1;
    }
    assert fs[.. i] == fs;
  }
}
