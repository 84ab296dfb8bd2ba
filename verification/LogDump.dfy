/**
 The dump of the log levels as a program (debug/src/logger.c, logger_dump), and
 what running that program from all-clear flags restores.
 */
module LogDump {
  import opened SeqFacts
  import opened LogFlags

  datatype Line = Line2(module2: string, level2: string) | Line3(module3: string, sub3: string, level3: string)

  /** A submodule whose messages come out at a level comes out at all levels below. */
  ghost predicate Closed(row: Row) {
    && |row| == LEVELS
    && (forall l :: 0 <= l < LEVELS ==> row[l] <= AllSubs())
    && (forall l :: 0 <= l < LEVELS - 1 ==> Next(row, l) <= row[l])
  }

  function Next(row: Row, l: int): Mask
    requires 0 <= l < |row| - 1
  {
    row[l + 1]
  }

  ghost predicate AllClosed(x: Matrix) {
    ValidMatrix(x) && forall m :: 0 <= m < MODULES ==> Closed(x[m])
  }

  // ---- Every command keeps the matrix closed. ----

  lemma MaskKeepsClosed(row: Row, level: int, mask: Mask)
    requires Closed(row) && mask <= AllSubs()
    ensures Closed(RowMask(row, level, mask))
  {
    hide AllSubs;
    var r := RowMask(row, level, mask);
    forall l | 0 <= l < LEVELS - 1
      ensures Next(r, l) <= r[l]
    {
      assert Next(row, l) <= row[l];
    }
  }

  lemma LevelKeepsClosed(row: Row, level: int, mask: Mask)
    requires Closed(row) && mask <= AllSubs()
    ensures Closed(RowLevel(row, level, mask))
  {
    hide AllSubs;
    var r := RowLevel(row, level, mask);
    forall l | 0 <= l < LEVELS - 1
      ensures Next(r, l) <= r[l]
    {
      assert Next(row, l) <= row[l];
    }
  }

  lemma OffKeepsClosed(row: Row, s: int)
    requires Closed(row)
    ensures Closed(RowOff(row, s)) && Closed(Cleared())
  {
    hide AllSubs;
    var r := RowOff(row, s);
    forall l | 0 <= l < LEVELS - 1
      ensures Next(r, l) <= r[l]
    {
      assert Next(row, l) <= row[l];
    }
  }

  lemma Set3KeepsClosed(x: Matrix, n: Names, a: string, b: string, c: string)
    requires AllClosed(x) && ValidNames(n)
    ensures AllClosed(Exec3(x, n, a, b, c))
  {
    hide FindIn, FindLevel, AllSubs, RowLevel, RowOff, Closed;
    var swap := FindLevel(c) < 0;
    var m, l := FindIn(n.modules, if swap then c else a, 0), FindLevel(if swap then a else c);
    if m >= 0 {
      var s := FindIn(n.subs[m], b, 0);
      OffKeepsClosed(x[m], s);
      if s >= 0 {
        LevelKeepsClosed(x[m], l, {s});
      }
    }
  }

  lemma Set2KeepsClosed(x: Matrix, n: Names, a: string, b: string)
    requires AllClosed(x) && ValidNames(n)
    ensures AllClosed(Exec2(x, n, a, b))
  {
    hide FindIn, FindLevel, AllSubs, RowMask, Cleared, Closed;
    var swap := FindLevel(b) < 0;
    var m, l := FindIn(n.modules, if swap then b else a, 0), FindLevel(if swap then a else b);
    if m >= 0 {
      OffKeepsClosed(x[m], 0);
      MaskKeepsClosed(x[m], l, AllSubs());
    }
  }

  lemma Set1KeepsClosed(x: Matrix, a: string)
    requires AllClosed(x)
    ensures AllClosed(Exec1(x, a, MODULES))
  {
    hide FindLevel, AllSubs, RowMask, Cleared, Closed;
    forall m | 0 <= m < MODULES
      ensures Closed(Exec1(x, a, MODULES)[m])
    {
      OffKeepsClosed(x[m], 0);
      MaskKeepsClosed(x[m], FindLevel(a), AllSubs());
    }
  }

  // ---- The dump. ----

  /** The line for a whole module: its highest level that is on for all submodules, or "off". */
  function Header(row: Row, mod: Name, l: int): seq<Line>
    requires |row| == LEVELS && l < LEVELS
    decreases l + 1
  {
    if l < 0 then []
    else if row[l] == AllSubs() && mod.Named? then [Line2(mod.text, LEVEL_NAMES[l].text)]
    else if l == 0 && row[l] == {} && mod.Named? then [Line2(mod.text, "off")]
    else Header(row, mod, l - 1)
  }

  /** Submodule i is on at level l, but not at the next. */
  predicate Ends(row: Row, l: int, i: int)
    requires |row| == LEVELS && 0 <= l < LEVELS
  {
    i in row[l] && !(l < 7 && i in row[l + 1])
  }

  function Detail(row: Row, mod: Name, sub: Name, l: int, i: int): seq<Line>
    requires |row| == LEVELS && 0 <= l < LEVELS
  {
    if Ends(row, l, i) && mod.Named? && sub.Named? then [Line3(mod.text, sub.text, LEVEL_NAMES[l].text)] else []
  }

  /** The lines for single submodules, from level l and submodule i on. */
  function Details(row: Row, mod: Name, subs: seq<Name>, l: nat, i: nat): seq<Line>
    requires |row| == LEVELS && |subs| == SUBMODULES && l <= LEVELS && i <= SUBMODULES
    decreases LEVELS - l, SUBMODULES - i
  {
    if l == LEVELS then []
    else if row[l] == AllSubs() || i == SUBMODULES then Details(row, mod, subs, l + 1, 0)
    else Detail(row, mod, subs[i], l, i) + Details(row, mod, subs, l, i + 1)
  }

  function Headers(x: Matrix, n: Names, m: nat): seq<Line>
    requires ValidMatrix(x) && ValidNames(n) && m <= MODULES
    decreases MODULES - m
  {
    if m == MODULES then [] else Header(x[m], n.modules[m], LEVELS - 1) + Headers(x, n, m + 1)
  }

  function AllDetails(x: Matrix, n: Names, m: nat): seq<Line>
    requires ValidMatrix(x) && ValidNames(n) && m <= MODULES
    decreases MODULES - m
  {
    if m == MODULES then [] else Details(x[m], n.modules[m], n.subs[m], 0, 0) + AllDetails(x, n, m + 1)
  }

  function DumpOf(x: Matrix, n: Names): seq<Line>
    requires ValidMatrix(x) && ValidNames(n)
  {
    Headers(x, n, 0) + AllDetails(x, n, 0)
  }

  lemma HeadersStep(x: Matrix, n: Names, m: nat)
    requires ValidMatrix(x) && ValidNames(n) && m < MODULES
    ensures Headers(x, n, m) == Header(x[m], n.modules[m], LEVELS - 1) + Headers(x, n, m + 1)
  {
    hide Header;
  }

  lemma HeadersEnd(x: Matrix, n: Names)
    requires ValidMatrix(x) && ValidNames(n)
    ensures forall lines: seq<Line> :: lines + Headers(x, n, MODULES) == lines
  {
    assert Headers(x, n, MODULES) == [];
  }

  lemma AllDetailsStep(x: Matrix, n: Names, m: nat)
    requires ValidMatrix(x) && ValidNames(n) && m < MODULES
    ensures AllDetails(x, n, m) == Details(x[m], n.modules[m], n.subs[m], 0, 0) + AllDetails(x, n, m + 1)
  {
    hide Details;
  }

  lemma AllDetailsEnd(x: Matrix, n: Names)
    requires ValidMatrix(x) && ValidNames(n)
    ensures forall lines: seq<Line> :: lines + AllDetails(x, n, MODULES) == lines
  {
    assert AllDetails(x, n, MODULES) == [];
  }

  /** logger_dump. */
  method Dump(g: Logger, n: Names) returns (lines: seq<Line>)
    requires g.Valid() && ValidNames(n)
    ensures lines == DumpOf(g.Contents(), n)
  {
    hide Headers, AllDetails;
    var heads := DumpHeaders(g, n);
    var rest := DumpAllDetails(g, n);
    lines := heads + rest;
  }

  method DumpHeaders(g: Logger, n: Names) returns (lines: seq<Line>)
    requires g.Valid() && ValidNames(n)
    ensures lines == Headers(g.Contents(), n, 0)
  {
    hide Header, AllSubs, Headers;
    ghost var x := g.Contents();
    lines := [];
    assert lines + Headers(x, n, 0) == Headers(x, n, 0);
    var m := 0;
    while m < MODULES
      invariant 0 <= m <= MODULES && lines + Headers(x, n, m) == Headers(x, n, 0)
    {
      var head := DumpHeader(g, m, n.modules[m]);
      HeadersStep(x, n, m);
      JoinInThree(lines, head, Headers(x, n, m + 1));
      lines := lines + head;
      m := m + 1;
    }
    HeadersEnd(x, n);
  }

  method DumpAllDetails(g: Logger, n: Names) returns (lines: seq<Line>)
    requires g.Valid() && ValidNames(n)
    ensures lines == AllDetails(g.Contents(), n, 0)
  {
    hide Details, AllSubs, AllDetails;
    ghost var x := g.Contents();
    lines := [];
    assert lines + AllDetails(x, n, 0) == AllDetails(x, n, 0);
    var m := 0;
    while m < MODULES
      invariant 0 <= m <= MODULES && lines + AllDetails(x, n, m) == AllDetails(x, n, 0)
    {
      var rest := DumpDetails(g, m, n.modules[m], n.subs[m]);
      AllDetailsStep(x, n, m);
      JoinInThree(lines, rest, AllDetails(x, n, m + 1));
      lines := lines + rest;
      m := m + 1;
    }
    AllDetailsEnd(x, n);
  }

  /** The inner loop of the first part. */
  method DumpHeader(g: Logger, m: nat, mod: Name) returns (lines: seq<Line>)
    requires g.Valid() && m < MODULES
    ensures lines == Header(g.Contents()[m], mod, LEVELS - 1)
  {
    ghost var row := g.Contents()[m];
    g.Cells();
    lines := [];
    var l := LEVELS - 1;
    while l >= 0
      invariant -1 <= l < LEVELS && lines == []
      invariant Header(row, mod, l) == Header(row, mod, LEVELS - 1)
    {
      if g.flags[m, l] == AllSubs() && mod.Named? {
        lines := [Line2(mod.text, LEVEL_NAMES[l].text)];
        break;
      }
      if l == 0 && g.flags[m, l] == {} && mod.Named? {
        lines := [Line2(mod.text, "off")];
        break;
      }
      l := l - 1;
    }
  }

  /** The lines so far and those from level l on are all the lines of the module. */
  ghost predicate UpTo(lines: seq<Line>, row: Row, mod: Name, subs: seq<Name>, l: nat)
    requires |row| == LEVELS && |subs| == SUBMODULES && l <= LEVELS
  {
    lines + Details(row, mod, subs, l, 0) == Details(row, mod, subs, 0, 0)
  }

  lemma NoneSoFar(row: Row, mod: Name, subs: seq<Name>)
    requires |row| == LEVELS && |subs| == SUBMODULES
    ensures UpTo([], row, mod, subs, 0)
  {
    hide Details;
  }

  /** A level that is on for all has no lines of its own. */
  lemma FullLevel(lines: seq<Line>, row: Row, mod: Name, subs: seq<Name>, l: nat)
    requires |row| == LEVELS && |subs| == SUBMODULES && l < LEVELS && row[l] == AllSubs() && UpTo(lines, row, mod, subs, l)
    ensures UpTo(lines, row, mod, subs, l + 1)
  {
    DetailsStep(row, mod, subs, l, 0);
    hide Details, AllSubs;
  }

  lemma OneLevel(lines: seq<Line>, some: seq<Line>, row: Row, mod: Name, subs: seq<Name>, l: nat)
    requires |row| == LEVELS && |subs| == SUBMODULES && l < LEVELS && UpTo(lines, row, mod, subs, l)
    requires some + Details(row, mod, subs, l + 1, 0) == Details(row, mod, subs, l, 0)
    ensures UpTo(lines + some, row, mod, subs, l + 1)
  {
    hide Details;
    JoinInThree(lines, some, Details(row, mod, subs, l + 1, 0));
  }

  lemma AllLevels(lines: seq<Line>, row: Row, mod: Name, subs: seq<Name>)
    requires |row| == LEVELS && |subs| == SUBMODULES && UpTo(lines, row, mod, subs, LEVELS)
    ensures lines == Details(row, mod, subs, 0, 0)
  {
    DetailsEnd(row, mod, subs);
  }

  /** The inner loops of the second part. */
  method DumpDetails(g: Logger, m: nat, mod: Name, subs: seq<Name>) returns (lines: seq<Line>)
    requires g.Valid() && m < MODULES && |subs| == SUBMODULES
    ensures lines == Details(g.Contents()[m], mod, subs, 0, 0)
  {
    hide AllSubs, Details, UpTo;
    ghost var row := g.Contents()[m];
    g.Cells();
    lines := [];
    NoneSoFar(row, mod, subs);
    var l := 0;
    while l < LEVELS
      invariant 0 <= l <= LEVELS && UpTo(lines, row, mod, subs, l)
    {
      if g.flags[m, l] == AllSubs() {
        FullLevel(lines, row, mod, subs, l);
        l := l + 1;
        continue;
      }
      var some := DumpLevel(g, m, mod, subs, l);
      OneLevel(lines, some, row, mod, subs, l);
      lines := lines + some;
      l := l + 1;
    }
    AllLevels(lines, row, mod, subs);
  }

  method DumpLevel(g: Logger, m: nat, mod: Name, subs: seq<Name>, l: nat) returns (lines: seq<Line>)
    requires g.Valid() && m < MODULES && |subs| == SUBMODULES && l < LEVELS && g.Contents()[m][l] != AllSubs()
    ensures var row := g.Contents()[m];
            lines + Details(row, mod, subs, l + 1, 0) == Details(row, mod, subs, l, 0)
  {
    hide AllSubs, Details;
    ghost var row := g.Contents()[m];
    g.Cells();
    lines := [];
    var i := 0;
    while i < SUBMODULES
      invariant 0 <= i <= SUBMODULES && lines + Details(row, mod, subs, l, i) == Details(row, mod, subs, l, 0)
    {
      DetailsStep(row, mod, subs, l, i);
      ghost var one, rest := Detail(row, mod, subs[i], l, i), Details(row, mod, subs, l, i + 1);
      assert lines + (one + rest) == (lines + one) + rest;
      ghost var next := lines + one;
      if i in g.flags[m, l] && mod.Named? && subs[i].Named? {
        if !(l < 7 && i in g.flags[m, l + 1]) {
          lines := lines + [Line3(mod.text, subs[i].text, LEVEL_NAMES[l].text)];
        }
      }
      assert lines == next;
      i := i + 1;
    }
    DetailsStep(row, mod, subs, l, SUBMODULES);
  }

  lemma DetailsStep(row: Row, mod: Name, subs: seq<Name>, l: nat, i: nat)
    requires |row| == LEVELS && |subs| == SUBMODULES && l < LEVELS && i <= SUBMODULES
    ensures Details(row, mod, subs, l, i) ==
            if row[l] == AllSubs() || i == SUBMODULES then Details(row, mod, subs, l + 1, 0)
            else Detail(row, mod, subs[i], l, i) + Details(row, mod, subs, l, i + 1)
  {
  }

  lemma DetailsEnd(row: Row, mod: Name, subs: seq<Name>)
    requires |row| == LEVELS && |subs| == SUBMODULES
    ensures Details(row, mod, subs, LEVELS, 0) == []
  {
  }
}
