/**
 Running the dump as a program (debug/src/logger.c): from all-clear flags the lines
 of logger_dump bring back exactly those modules whose partly enabled submodules
 all have a name that finds them.
 */
module LogReplay {
  import opened LogFlags
  import opened LogDump

  function Exec(x: Matrix, n: Names, line: Line): Matrix
    requires ValidMatrix(x) && ValidNames(n)
  {
    match line
    case Line2(m, l) => Exec2(x, n, m, l)
    case Line3(m, s, l) => Exec3(x, n, m, s, l)
  }

  lemma ExecValid(x: Matrix, n: Names, line: Line)
    requires ValidMatrix(x) && ValidNames(n)
    ensures ValidMatrix(Exec(x, n, line))
  {
    hide FindIn, FindLevel;
  }

  function Replay(x: Matrix, n: Names, lines: seq<Line>): (r: Matrix)
    requires ValidMatrix(x) && ValidNames(n)
    ensures ValidMatrix(r)
    decreases |lines|
  {
    if lines == [] then x
    else
      ExecValid(x, n, lines[0]);
      Replay(Exec(x, n, lines[0]), n, lines[1..])
  }

  lemma {:induction false} ReplayJoins(x: Matrix, n: Names, a: seq<Line>, b: seq<Line>)
    requires ValidMatrix(x) && ValidNames(n)
    ensures Replay(x, n, a + b) == Replay(Replay(x, n, a), n, b)
    decreases |a|
  {
    hide Exec;
    if a == [] {
      assert a + b == b;
    } else {
      ExecValid(x, n, a[0]);
      assert (a + b)[1..] == a[1..] + b;
      ReplayJoins(Exec(x, n, a[0]), n, a[1..], b);
    }
  }

  lemma ReplayOne(x: Matrix, n: Names, line: Line)
    requires ValidMatrix(x) && ValidNames(n)
    ensures Replay(x, n, [line]) == Exec(x, n, line)
  {
    ExecValid(x, n, line);
    assert [line][1..] == [];
  }

  // ---- The names of the levels. ----

  lemma Differ(a: string, b: string, k: nat)
    requires k < |b| && (k >= |a| || LowerChar(a[k]) != LowerChar(b[k]))
    ensures !Matches(a, b)
  {
  }

  lemma LevelFound(l: nat)
    requires l < LEVELS
    ensures FindLevel(LEVEL_NAMES[l].text) == l
  {
    var name := LEVEL_NAMES[l].text;
    assert name[..3][0] == 'L';
    forall j | 0 <= j < l
      ensures !Matches(LEVEL_NAMES[j].text, name)
    {
      if l == 6 && j == 5 {
        Differ("LOG_DEBUG", "LOG_DEBUG_M", 9);
      } else if l == 7 && j == 5 {
        Differ("LOG_DEBUG", "LOG_DEBUG_H", 9);
      } else if l == 7 && j == 6 {
        Differ("LOG_DEBUG_M", "LOG_DEBUG_H", 10);
      } else {
        Differ(LEVEL_NAMES[j].text, name, 4);
      }
    }
    FoundExactly(LEVEL_NAMES, l);
  }

  lemma OffFound()
    ensures FindLevel("off") == OFF
  {
    assert "off"[..3] == "off";
  }

  // ---- How high a submodule is on. ----

  /** The first level, from l on, at which submodule s is off. */
  function Height(row: Row, s: int, l: nat): (h: nat)
    requires |row| == LEVELS && l <= LEVELS
    ensures l <= h <= LEVELS
    decreases LEVELS - l
  {
    if l == LEVELS || s !in row[l] then l else Height(row, s, l + 1)
  }

  function H(row: Row, s: int): (h: nat)
    requires |row| == LEVELS
    ensures h <= LEVELS
  {
    Height(row, s, 0)
  }

  lemma {:induction false} ClosedBelow(row: Row, s: int, k: nat, l: nat)
    requires Closed(row) && k <= l < LEVELS && s in row[l]
    ensures s in row[k]
    decreases l - k
  {
    if k < l {
      assert Next(row, l - 1) <= row[l - 1];
      ClosedBelow(row, s, k, l - 1);
    }
  }

  lemma {:induction false} HeightIs(row: Row, s: int, l: nat)
    requires |row| == LEVELS && l <= LEVELS
    ensures forall k :: l <= k < Height(row, s, l) ==> s in row[k]
    ensures Height(row, s, l) < LEVELS ==> s !in row[Height(row, s, l)]
    decreases LEVELS - l
  {
    if l < LEVELS && s in row[l] {
      HeightIs(row, s, l + 1);
    }
  }

  /** In a closed row the height says all. */
  lemma HeightSays(row: Row, s: int, k: nat)
    requires Closed(row) && k < LEVELS
    ensures s in row[k] <==> k < H(row, s)
  {
    HeightIs(row, s, 0);
    if s in row[k] && H(row, s) <= k {
      ClosedBelow(row, s, H(row, s), k);
    }
  }

  /** Levels, from l down, that are on for all submodules. */
  function Full(row: Row, l: int): (f: nat)
    requires |row| == LEVELS && l < LEVELS
    ensures f <= l + 1 || f == 0
    decreases l + 1
  {
    if l < 0 then 0 else if row[l] == AllSubs() then l + 1 else Full(row, l - 1)
  }

  function F(row: Row): (f: nat)
    requires |row| == LEVELS
    ensures f <= LEVELS
  {
    Full(row, LEVELS - 1)
  }

  lemma {:induction false} FullIs(row: Row, l: int, k: nat)
    requires |row| == LEVELS && l < LEVELS
    ensures Full(row, l) > 0 ==> row[Full(row, l) - 1] == AllSubs()
    ensures Full(row, l) <= k <= l ==> row[k] != AllSubs()
    decreases l + 1
  {
    hide AllSubs;
    if l >= 0 && row[l] != AllSubs() {
      FullIs(row, l - 1, k);
    }
  }

  /** A level is full exactly below F; every submodule is at least that high. */
  lemma FullSays(row: Row, k: nat, s: int)
    requires Closed(row) && k < LEVELS && s in AllSubs()
    ensures row[k] == AllSubs() <==> k < F(row)
    ensures F(row) <= H(row, s)
  {
    hide AllSubs, Full, Height;
    FullIs(row, LEVELS - 1, k);
    if F(row) > 0 {
      HeightSays(row, s, F(row) - 1);
      if k < F(row) {
        forall t | t in AllSubs()
          ensures t in row[k]
        {
          ClosedBelow(row, t, k, F(row) - 1);
        }
        assert row[k] == AllSubs();
      }
    }
  }

  // ---- First part: whole modules. ----

  /** All submodules on below level f, all off above. */
  function Based(f: nat): (row: Row)
    ensures |row| == LEVELS
  {
    seq(LEVELS, k => if k < f then AllSubs() else {})
  }

  /** Only submodules there are. */
  ghost predicate Proper(row: Row) {
    |row| == LEVELS && forall k :: 0 <= k < LEVELS ==> row[k] <= AllSubs()
  }

  /** The row of a named module after the line for the whole module, if there is one from level l down. */
  function AfterHeader(row: Row, l: int, was: Row): (r: Row)
    requires |row| == LEVELS == |was| && l < LEVELS
    ensures |r| == LEVELS
  {
    if Full(row, l) > 0 || (l >= 0 && row[0] == {}) then Based(Full(row, l)) else was
  }

  lemma HeaderFrom(y: Matrix, n: Names, row: Row, m: nat, l: int)
    requires ValidMatrix(y) && ValidNames(n) && |row| == LEVELS && m < MODULES && l < LEVELS
    requires Findable(n.modules, m) && Proper(y[m])
    ensures Replay(y, n, Header(row, n.modules[m], l)) == y[m := AfterHeader(row, l, y[m])]
    decreases l + 1
  {
    FoundExactly(n.modules, m);
    NotNone();
    hide AllSubs, FindIn, FindLevel, Findable, Proper;
    BasedNone();
    if l < 0 {
      assert y[m := y[m]] == y;
    } else if row[l] == AllSubs() {
      LevelFound(l);
      ReplayOne(y, n, Line2(n.modules[m].text, LEVEL_NAMES[l].text));
      MaskOnAny(y[m], l);
    } else if l == 0 && row[l] == {} {
      OffFound();
      ReplayOne(y, n, Line2(n.modules[m].text, "off"));
    } else {
      HeaderFrom(y, n, row, m, l - 1);
    }
  }

  lemma NotNone()
    ensures AllSubs() != {}
  {
    assert 0 in AllSubs();
  }

  lemma MaskOnAny(row: Row, l: nat)
    requires Proper(row) && l < LEVELS
    ensures RowMask(row, l, AllSubs()) == Based(l + 1)
  {
    hide AllSubs;
    forall k | 0 <= k < LEVELS
      ensures row[k] + AllSubs() == AllSubs() && row[k] - AllSubs() == {}
    {
    }
  }

  lemma BasedNone()
    ensures Based(0) == Cleared()
  {
  }

  lemma NoHeader(row: Row, l: int)
    requires |row| == LEVELS && l < LEVELS
    ensures Header(row, NoName, l) == []
    decreases l + 1
  {
  }

  /** Named modules are found by their names. */
  ghost predicate ModulesFindable(n: Names)
    requires ValidNames(n)
  {
    forall m :: 0 <= m < MODULES && n.modules[m].Named? ==> Findable(n.modules, m)
  }

  function Clear(): (x: Matrix)
    ensures ValidMatrix(x)
  {
    seq(MODULES, _ => Cleared())
  }

  /** The row of module m then; `was` is what it was. */
  ghost function BasedRow(row: Row, was: Row, mod: Name, m: nat, k: nat): (r: Row)
    requires |row| == LEVELS == |was|
    ensures |r| == LEVELS
  {
    if m < k && mod.Named? then AfterHeader(row, LEVELS - 1, was) else was
  }

  /** The matrix after the lines for the first k modules. */
  ghost function BasedUpto(x: Matrix, w: Matrix, n: Names, k: nat): (r: Matrix)
    requires ValidMatrix(x) && ValidMatrix(w) && ValidNames(n)
    ensures ValidMatrix(r)
  {
    seq(MODULES, m requires 0 <= m < MODULES => BasedRow(x[m], w[m], n.modules[m], m, k))
  }

  ghost predicate AllProper(w: Matrix) {
    |w| == MODULES && forall m :: 0 <= m < MODULES ==> Proper(w[m])
  }

  lemma HeaderOf(x: Matrix, w: Matrix, n: Names, m: nat)
    requires ValidMatrix(x) && ValidMatrix(w) && AllProper(w) && ValidNames(n) && ModulesFindable(n) && m < MODULES
    ensures Replay(BasedUpto(x, w, n, m), n, Header(x[m], n.modules[m], LEVELS - 1)) == BasedUpto(x, w, n, m + 1)
  {
    hide Header, Replay, Findable, AfterHeader, Proper;
    var y := BasedUpto(x, w, n, m);
    if n.modules[m].Named? {
      HeaderFrom(y, n, x[m], m, LEVELS - 1);
      assert BasedUpto(x, w, n, m + 1) == y[m := AfterHeader(x[m], LEVELS - 1, w[m])];
    } else {
      NoHeader(x[m], LEVELS - 1);
      ReplayNone(y, n);
      assert BasedUpto(x, w, n, m + 1) == y;
    }
  }

  lemma ReplayNone(x: Matrix, n: Names)
    requires ValidMatrix(x) && ValidNames(n)
    ensures Replay(x, n, []) == x
  {
  }

  lemma {:induction false} HeadersReplayed(x: Matrix, w: Matrix, n: Names, m: nat)
    requires ValidMatrix(x) && ValidMatrix(w) && AllProper(w) && ValidNames(n) && ModulesFindable(n) && m <= MODULES
    ensures Replay(BasedUpto(x, w, n, m), n, Headers(x, n, m)) == BasedUpto(x, w, n, MODULES)
    decreases MODULES - m
  {
    hide Header, Replay, ModulesFindable, BasedUpto, AllProper;
    if m == MODULES {
      ReplayNone(BasedUpto(x, w, n, m), n);
    } else {
      HeaderOf(x, w, n, m);
      HeadersReplayed(x, w, n, m + 1);
      ReplayJoins(BasedUpto(x, w, n, m), n, Header(x[m], n.modules[m], LEVELS - 1), Headers(x, n, m + 1));
    }
  }

  // ---- Second part: single submodules. ----

  /** Submodule s has had its line, when the lines from level l and submodule i on are still to come. */
  ghost predicate Lined(row: Row, subs: seq<Name>, s: int, l: nat, i: nat)
    requires |row| == LEVELS && |subs| == SUBMODULES && 0 <= s < SUBMODULES
  {
    F(row) < H(row, s) && subs[s].Named? && (H(row, s) - 1 < l || (H(row, s) - 1 == l && s < i))
  }

  /** How high submodule s is on by then. */
  ghost function Reached(row: Row, subs: seq<Name>, s: int, l: nat, i: nat): nat
    requires |row| == LEVELS && |subs| == SUBMODULES && 0 <= s < SUBMODULES
  {
    if Lined(row, subs, s, l, i) then H(row, s) else F(row)
  }

  ghost predicate IsAt(r: Row, row: Row, subs: seq<Name>, s: int, k: nat, l: nat, i: nat)
    requires |row| == LEVELS == |r| && |subs| == SUBMODULES && 0 <= s < SUBMODULES && k < LEVELS
  {
    s in r[k] <==> k < Reached(row, subs, s, l, i)
  }

  /** The row of the replay by then. */
  ghost predicate Mid(r: Row, row: Row, subs: seq<Name>, l: nat, i: nat)
    requires |row| == LEVELS && |subs| == SUBMODULES
  {
    && |r| == LEVELS
    && (forall k :: 0 <= k < LEVELS ==> r[k] <= AllSubs())
    && (forall s, k :: 0 <= s < SUBMODULES && 0 <= k < LEVELS ==> IsAt(r, row, subs, s, k, l, i))
  }

  lemma MidStart(row: Row, subs: seq<Name>)
    requires |row| == LEVELS && |subs| == SUBMODULES
    ensures Mid(Based(F(row)), row, subs, 0, 0)
  {
    hide Full, Height;
  }

  /** A level whose lines are all done, or a full one that has none. */
  lemma MidNextLevel(r: Row, row: Row, subs: seq<Name>, l: nat, i: nat)
    requires Closed(row) && |subs| == SUBMODULES && l < LEVELS && i <= SUBMODULES && Mid(r, row, subs, l, i)
    requires row[l] == AllSubs() || i == SUBMODULES
    ensures Mid(r, row, subs, l + 1, 0)
  {
    hide Full, Height, AllSubs;
    var next := l + 1;
    forall s, k | 0 <= s < SUBMODULES && 0 <= k < LEVELS
      ensures IsAt(r, row, subs, s, k, next, 0)
    {
      assert IsAt(r, row, subs, s, k, l, i);
      FullSays(row, l, s);
    }
  }

  lemma SameReach(row: Row, subs: seq<Name>, s: int, l: nat, i: nat)
    requires |row| == LEVELS && |subs| == SUBMODULES && 0 <= s < SUBMODULES
    requires s == i ==> !(H(row, s) == l + 1 && subs[s].Named?)
    ensures Reached(row, subs, s, l, i + 1) == Reached(row, subs, s, l, i)
  {
    hide F, H;
  }

  /** A submodule that has no line at this level. */
  lemma MidNoLine(r: Row, row: Row, subs: seq<Name>, l: nat, i: nat)
    requires Closed(row) && |subs| == SUBMODULES && l < LEVELS && i < SUBMODULES && Mid(r, row, subs, l, i)
    requires row[l] != AllSubs() && !(Ends(row, l, i) && subs[i].Named?)
    ensures Mid(r, row, subs, l, i + 1)
  {
    EndsAtHeight(row, l, i);
    hide Full, Height, AllSubs, Ends, Closed, F, H, Reached;
    var next := i + 1;
    forall s, k | 0 <= s < SUBMODULES && 0 <= k < LEVELS
      ensures IsAt(r, row, subs, s, k, l, next)
    {
      SameReach(row, subs, s, l, i);
      assert IsAt(r, row, subs, s, k, l, i);
    }
  }

  lemma EndsAtHeight(row: Row, l: nat, i: nat)
    requires Closed(row) && l < LEVELS && i < SUBMODULES
    ensures Ends(row, l, i) <==> H(row, i) == l + 1
  {
    HeightSays(row, i, l);
    if l < 7 {
      HeightSays(row, i, l + 1);
    }
  }

  /** A line brings its submodule to its height. */
  lemma MidLine(r: Row, row: Row, subs: seq<Name>, l: nat, i: nat)
    requires Closed(row) && |subs| == SUBMODULES && l < LEVELS && i < SUBMODULES && Mid(r, row, subs, l, i)
    requires row[l] != AllSubs() && Ends(row, l, i) && subs[i].Named?
    ensures Mid(RowLevel(r, l, {i}), row, subs, l, i + 1)
  {
    EndsAtHeight(row, l, i);
    FullSays(row, l, i);
    hide Full, Height, AllSubs, Ends;
    var v, next := RowLevel(r, l, {i}), i + 1;
    forall s, k | 0 <= s < SUBMODULES && 0 <= k < LEVELS
      ensures IsAt(v, row, subs, s, k, l, next)
    {
      assert IsAt(r, row, subs, s, k, l, i);
      assert v[k] == LevelAt(r[k], k, l, {i});
    }
    forall k | 0 <= k < LEVELS
      ensures v[k] <= AllSubs()
    {
      assert v[k] == LevelAt(r[k], k, l, {i});
    }
  }

  /** Submodules that need a line are found by their names. */
  ghost predicate SubsFindable(row: Row, subs: seq<Name>)
    requires |row| == LEVELS && |subs| == SUBMODULES
  {
    forall s :: 0 <= s < SUBMODULES && subs[s].Named? && F(row) < H(row, s) ==> Findable(subs, s)
  }

  lemma {:induction false} DetailsReplayed(y: Matrix, n: Names, row: Row, m: nat, l: nat, i: nat)
    requires ValidMatrix(y) && ValidNames(n) && Closed(row) && m < MODULES && l <= LEVELS && i <= SUBMODULES
    requires Findable(n.modules, m) && SubsFindable(row, n.subs[m]) && Mid(y[m], row, n.subs[m], l, i)
    requires l == LEVELS ==> i == 0
    ensures var z := Replay(y, n, Details(row, n.modules[m], n.subs[m], l, i));
            Mid(z[m], row, n.subs[m], LEVELS, 0) && z == y[m := z[m]]
    decreases LEVELS - l, SUBMODULES - i
  {
    hide Replay, Mid, Details, AllSubs, Ends, Findable, SubsFindable;
    var mod, subs := n.modules[m], n.subs[m];
    if l == LEVELS {
      DetailsEnd(row, mod, subs);
      ReplayNone(y, n);
    } else {
      DetailsStep(row, mod, subs, l, i);
      if row[l] == AllSubs() || i == SUBMODULES {
        MidNextLevel(y[m], row, subs, l, i);
        DetailsReplayed(y, n, row, m, l + 1, 0);
      } else {
        var z := Replay(y, n, Detail(row, mod, subs[i], l, i));
        DetailReplayed(y, n, row, m, l, i);
        DetailsReplayed(z, n, row, m, l, i + 1);
        ReplayJoins(y, n, Detail(row, mod, subs[i], l, i), Details(row, mod, subs, l, i + 1));
      }
    }
  }

  lemma DetailReplayed(y: Matrix, n: Names, row: Row, m: nat, l: nat, i: nat)
    requires ValidMatrix(y) && ValidNames(n) && Closed(row) && m < MODULES && l < LEVELS && i < SUBMODULES
    requires Findable(n.modules, m) && SubsFindable(row, n.subs[m]) && Mid(y[m], row, n.subs[m], l, i)
    requires row[l] != AllSubs()
    ensures var z := Replay(y, n, Detail(row, n.modules[m], n.subs[m][i], l, i));
            Mid(z[m], row, n.subs[m], l, i + 1) && z == y[m := z[m]]
  {
    var mod, subs := n.modules[m], n.subs[m];
    FoundExactly(n.modules, m);
    if Ends(row, l, i) && subs[i].Named? {
      SubFound(row, subs, l, i);
      LevelFound(l);
      hide FindIn, FindLevel, Mid, AllSubs, Findable, Ends;
      ReplayOne(y, n, Line3(mod.text, subs[i].text, LEVEL_NAMES[l].text));
      MidLine(y[m], row, subs, l, i);
    } else {
      hide FindIn, FindLevel, Mid, AllSubs, Findable, Ends;
      ReplayNone(y, n);
      MidNoLine(y[m], row, subs, l, i);
    }
  }

  lemma SubFound(row: Row, subs: seq<Name>, l: nat, i: nat)
    requires Closed(row) && |subs| == SUBMODULES && SubsFindable(row, subs)
    requires l < LEVELS && i < SUBMODULES && row[l] != AllSubs() && Ends(row, l, i) && subs[i].Named?
    ensures FindIn(subs, subs[i].text, 0) == i
  {
    EndsAtHeight(row, l, i);
    FullSays(row, l, i);
    FoundExactly(subs, i);
  }

  /** The row is restored exactly when every submodule that is on above the full levels has a name. */
  lemma MidEnd(r: Row, row: Row, subs: seq<Name>)
    requires Closed(row) && |subs| == SUBMODULES && Mid(r, row, subs, LEVELS, 0)
    ensures r == row <==> AllNamed(row, subs)
  {
    hide Full, Height, AllSubs;
    if AllNamed(row, subs) {
      forall k | 0 <= k < LEVELS
        ensures r[k] == row[k]
      {
        forall s | s in AllSubs()
          ensures s in r[k] <==> s in row[k]
        {
          assert IsAt(r, row, subs, s, k, LEVELS, 0);
          HeightSays(row, s, k);
          FullSays(row, k, s);
        }
      }
    } else {
      var s :| 0 <= s < SUBMODULES && NeedsName(row, s) && subs[s] == NoName;
      var k := F(row);
      assert IsAt(r, row, subs, s, k, LEVELS, 0);
      HeightSays(row, s, k);
    }
  }

  /** Submodule s is on at some level that is not on for all. */
  ghost predicate NeedsName(row: Row, s: int)
    requires |row| == LEVELS
  {
    F(row) < H(row, s)
  }

  ghost predicate AllNamed(row: Row, subs: seq<Name>)
    requires |row| == LEVELS && |subs| == SUBMODULES
  {
    forall s :: 0 <= s < SUBMODULES && NeedsName(row, s) ==> subs[s].Named?
  }

  // ---- Submodules that are not found by their names. ----

  /** An entry's own text finds the entry, or an earlier one. */
  lemma {:induction false} FoundSome(names: seq<Name>, i: nat, j: nat)
    requires i < |names| && names[i].Named? && j <= i
    ensures j <= FindIn(names, names[i].text, j) <= i
    decreases i - j
  {
    if j < i {
      FoundSome(names, i, j + 1);
    }
  }

  /** No line of the dump reaches submodule s: each is found as another one. */
  ghost predicate Lost(row: Row, subs: seq<Name>, s: int)
    requires |row| == LEVELS && |subs| == SUBMODULES
  {
    forall t :: 0 <= t < SUBMODULES && NeedsName(row, t) && subs[t].Named? ==> FindIn(subs, subs[t].text, 0) != s
  }

  /** Submodule s needs a line and has no name, or its name finds another. */
  ghost predicate Bad(row: Row, subs: seq<Name>, s: int)
    requires |row| == LEVELS && |subs| == SUBMODULES && 0 <= s < SUBMODULES
  {
    NeedsName(row, s) && !(subs[s].Named? && Findable(subs, s))
  }

  /** The last bad one is lost: a name only ever finds its own entry or an earlier one. */
  lemma {:induction false} BadIsLost(row: Row, subs: seq<Name>, s: nat) returns (u: nat)
    requires |row| == LEVELS && |subs| == SUBMODULES && s < SUBMODULES && Bad(row, subs, s)
    ensures u < SUBMODULES && Lost(row, subs, u) && NeedsName(row, u)
    decreases SUBMODULES - s
  {
    hide FindIn, Findable, NeedsName;
    if t: nat :| s < t < SUBMODULES && Bad(row, subs, t) {
      u := BadIsLost(row, subs, t);
    } else {
      u := s;
      forall t | 0 <= t < SUBMODULES && NeedsName(row, t) && subs[t].Named?
        ensures FindIn(subs, subs[t].text, 0) != s
      {
        FoundSome(subs, t, 0);
        FoundExactly(subs, t);
        assert s < t ==> !Bad(row, subs, t);
      }
    }
  }

  /** Submodule s is on just below the first level that is not full. */
  ghost predicate Stays(r: Row, row: Row, s: int)
    requires |row| == LEVELS == |r|
  {
    forall k :: 0 <= k < LEVELS ==> (s in r[k] <==> k < F(row))
  }

  ghost predicate AllLostStay(r: Row, row: Row, subs: seq<Name>)
    requires |row| == LEVELS == |r| && |subs| == SUBMODULES
  {
    forall s :: 0 <= s < SUBMODULES && Lost(row, subs, s) ==> Stays(r, row, s)
  }

  lemma LevelKeepsOthers(r: Row, row: Row, subs: seq<Name>, l: int, j: int)
    requires |row| == LEVELS == |r| && |subs| == SUBMODULES && AllLostStay(r, row, subs)
    requires !Lost(row, subs, j)
    ensures AllLostStay(RowLevel(r, l, {j}), row, subs)
  {
    hide Lost;
    forall s | 0 <= s < SUBMODULES && Lost(row, subs, s)
      ensures Stays(RowLevel(r, l, {j}), row, s)
    {
      assert Stays(r, row, s);
      forall k | 0 <= k < LEVELS
        ensures s in RowLevel(r, l, {j})[k] <==> k < F(row)
      {
        assert RowLevel(r, l, {j})[k] == LevelAt(r[k], k, l, {j});
      }
    }
  }

  lemma DetailMisses(y: Matrix, n: Names, row: Row, m: nat, l: nat, i: nat)
    requires ValidMatrix(y) && ValidNames(n) && Closed(row) && m < MODULES && l < LEVELS && i < SUBMODULES
    requires Findable(n.modules, m) && AllLostStay(y[m], row, n.subs[m]) && row[l] != AllSubs()
    ensures var z := Replay(y, n, Detail(row, n.modules[m], n.subs[m][i], l, i));
            z == y[m := z[m]] && AllLostStay(z[m], row, n.subs[m])
  {
    var mod, subs := n.modules[m], n.subs[m];
    FoundExactly(n.modules, m);
    if Ends(row, l, i) && subs[i].Named? {
      EndsAtHeight(row, l, i);
      FullSays(row, l, i);
      FoundSome(subs, i, 0);
      LevelFound(l);
      hide FindIn, FindLevel, AllSubs, Findable, Ends, AllLostStay, Closed, Full, Height;
      ReplayOne(y, n, Line3(mod.text, subs[i].text, LEVEL_NAMES[l].text));
      LevelKeepsOthers(y[m], row, subs, l, FindIn(subs, subs[i].text, 0));
    } else {
      ReplayNone(y, n);
    }
  }

  lemma {:induction false} DetailsMiss(y: Matrix, n: Names, row: Row, m: nat, l: nat, i: nat)
    requires ValidMatrix(y) && ValidNames(n) && Closed(row) && m < MODULES && l <= LEVELS && i <= SUBMODULES
    requires Findable(n.modules, m) && AllLostStay(y[m], row, n.subs[m]) && (l == LEVELS ==> i == 0)
    ensures var z := Replay(y, n, Details(row, n.modules[m], n.subs[m], l, i));
            z == y[m := z[m]] && AllLostStay(z[m], row, n.subs[m])
    decreases LEVELS - l, SUBMODULES - i
  {
    hide Replay, Details, AllSubs, Ends, Findable, AllLostStay;
    var mod, subs := n.modules[m], n.subs[m];
    if l == LEVELS {
      DetailsEnd(row, mod, subs);
      ReplayNone(y, n);
    } else {
      DetailsStep(row, mod, subs, l, i);
      if row[l] == AllSubs() || i == SUBMODULES {
        DetailsMiss(y, n, row, m, l + 1, 0);
      } else {
        var z := Replay(y, n, Detail(row, mod, subs[i], l, i));
        DetailMisses(y, n, row, m, l, i);
        DetailsMiss(z, n, row, m, l, i + 1);
        ReplayJoins(y, n, Detail(row, mod, subs[i], l, i), Details(row, mod, subs, l, i + 1));
      }
    }
  }

  lemma LostStayAtFirst(r: Row, row: Row, subs: seq<Name>)
    requires |row| == LEVELS && |subs| == SUBMODULES && Mid(r, row, subs, 0, 0)
    ensures AllLostStay(r, row, subs)
  {
    hide Lost, Full, Height;
    forall s | 0 <= s < SUBMODULES && Lost(row, subs, s)
      ensures Stays(r, row, s)
    {
      forall k | 0 <= k < LEVELS
        ensures s in r[k] <==> k < F(row)
      {
        assert IsAt(r, row, subs, s, k, 0, 0);
      }
    }
  }

  /** What the second part leaves of a module. */
  ghost predicate Ended(r: Row, row: Row, subs: seq<Name>)
    requires |row| == LEVELS == |r| && |subs| == SUBMODULES
  {
    AllLostStay(r, row, subs) && (SubsFindable(row, subs) ==> Mid(r, row, subs, LEVELS, 0))
  }

  /** The module is restored if and only if every submodule that needs a line has a name that finds it. */
  lemma EndedRestores(r: Row, row: Row, subs: seq<Name>)
    requires Closed(row) && |r| == LEVELS && |subs| == SUBMODULES && Ended(r, row, subs)
    ensures r == row <==> AllNamed(row, subs) && SubsFindable(row, subs)
  {
    if SubsFindable(row, subs) {
      MidEnd(r, row, subs);
    } else {
      hide Findable, Mid, FindIn;
      var s :| 0 <= s < SUBMODULES && subs[s].Named? && F(row) < H(row, s) && !Findable(subs, s);
      hide Full, Height;
      var u := BadIsLost(row, subs, s);
      assert Stays(r, row, u);
      HeightSays(row, u, F(row));
    }
  }

  // ---- All modules. ----

  lemma {:induction false} NoDetails(row: Row, subs: seq<Name>, l: nat, i: nat)
    requires |row| == LEVELS && |subs| == SUBMODULES && l <= LEVELS && i <= SUBMODULES
    ensures Details(row, NoName, subs, l, i) == []
    decreases LEVELS - l, SUBMODULES - i
  {
    hide AllSubs;
    if l < LEVELS {
      if row[l] == AllSubs() || i == SUBMODULES {
        NoDetails(row, subs, l + 1, 0);
      } else {
        NoDetails(row, subs, l, i + 1);
      }
    }
  }

  /** What the second part makes of module j, when the lines of the modules from m on are run. */
  ghost predicate Outcome(y: Matrix, z: Matrix, x: Matrix, n: Names, m: int, j: int)
    requires ValidMatrix(x) && ValidMatrix(y) && ValidMatrix(z) && ValidNames(n) && 0 <= j < MODULES
  {
    if m <= j && n.modules[j].Named? then Ended(z[j], x[j], n.subs[j]) else z[j] == y[j]
  }

  ghost predicate AllOutcomes(y: Matrix, z: Matrix, x: Matrix, n: Names, m: int)
    requires ValidMatrix(x) && ValidMatrix(y) && ValidMatrix(z) && ValidNames(n)
  {
    forall j :: 0 <= j < MODULES ==> Outcome(y, z, x, n, m, j)
  }

  ghost predicate Ready(y: Matrix, x: Matrix, n: Names, j: int)
    requires ValidMatrix(x) && ValidMatrix(y) && ValidNames(n) && 0 <= j < MODULES
  {
    n.modules[j].Named? ==> Mid(y[j], x[j], n.subs[j], 0, 0)
  }

  lemma DetailsOfModule(y: Matrix, x: Matrix, n: Names, m: nat)
    requires AllClosed(x) && ValidMatrix(y) && ValidNames(n) && m < MODULES
    requires ModulesFindable(n) && Ready(y, x, n, m)
    ensures var z := Replay(y, n, Details(x[m], n.modules[m], n.subs[m], 0, 0));
            && z == y[m := z[m]]
            && if n.modules[m].Named? then Ended(z[m], x[m], n.subs[m]) else z[m] == y[m]
  {
    hide Mid, Details, Replay, SubsFindable, Findable, Closed, AllLostStay;
    if n.modules[m].Named? {
      LostStayAtFirst(y[m], x[m], n.subs[m]);
      DetailsMiss(y, n, x[m], m, 0, 0);
      if SubsFindable(x[m], n.subs[m]) {
        DetailsReplayed(y, n, x[m], m, 0, 0);
      }
    } else {
      NoDetails(x[m], n.subs[m], 0, 0);
      ReplayNone(y, n);
    }
  }

  lemma {:induction false} AllDetailsReplayed(y: Matrix, x: Matrix, n: Names, m: nat)
    requires AllClosed(x) && ValidMatrix(y) && ValidNames(n) && m <= MODULES
    requires ModulesFindable(n)
    requires forall j :: m <= j < MODULES ==> Ready(y, x, n, j)
    ensures AllOutcomes(y, Replay(y, n, AllDetails(x, n, m)), x, n, m)
    decreases MODULES - m
  {
    hide Mid, Ended, Details, Replay, ModulesFindable, Closed;
    if m == MODULES {
      ReplayNone(y, n);
    } else {
      var first := Details(x[m], n.modules[m], n.subs[m], 0, 0);
      var v := Replay(y, n, first);
      DetailsOfModule(y, x, n, m);
      forall j | m + 1 <= j < MODULES
        ensures Ready(v, x, n, j)
      {
        assert Ready(y, x, n, j);
      }
      AllDetailsReplayed(v, x, n, m + 1);
      ReplayJoins(y, n, first, AllDetails(x, n, m + 1));
      var z, next := Replay(v, n, AllDetails(x, n, m + 1)), m + 1;
      forall j | 0 <= j < MODULES
        ensures Outcome(y, z, x, n, m, j)
      {
        assert Outcome(v, z, x, n, next, j);
      }
    }
  }

  /** The dump has a line for the whole module, so what the flags were before does not matter; or they were clear. */
  ghost predicate Starts(x: Matrix, w: Matrix, n: Names, m: int)
    requires ValidMatrix(x) && ValidMatrix(w) && ValidNames(n) && 0 <= m < MODULES
  {
    n.modules[m].Named? ==> F(x[m]) > 0 || x[m][0] == {} || w[m] == Cleared()
  }

  /** The levels of module m come back. */
  ghost predicate Restored(x: Matrix, w: Matrix, z: Matrix, n: Names, m: int)
    requires ValidMatrix(x) && ValidMatrix(w) && ValidMatrix(z) && ValidNames(n) && 0 <= m < MODULES
  {
    if n.modules[m].Named? then z[m] == x[m] <==> AllNamed(x[m], n.subs[m]) && SubsFindable(x[m], n.subs[m])
    else z[m] == w[m]
  }

  lemma ReadyForDetails(x: Matrix, w: Matrix, n: Names, m: nat)
    requires AllClosed(x) && ValidMatrix(w) && ValidNames(n) && m < MODULES && Starts(x, w, n, m)
    ensures Ready(BasedUpto(x, w, n, MODULES), x, n, m)
  {
    hide Mid, Based, Full, Closed;
    MidStart(x[m], n.subs[m]);
    BasedNone();
  }

  /**
   From all-clear flags the dump restores exactly the named modules whose partly
   enabled submodules all have names, none of them the beginning of an earlier one.
   So it does from any other flags, if each named module that was not clear then is
   now off or on for all submodules at its lowest level.
   */
  lemma DumpRestores(x: Matrix, w: Matrix, n: Names)
    requires AllClosed(x) && ValidNames(n) && ModulesFindable(n)
    requires ValidMatrix(w) && AllProper(w) && forall m :: 0 <= m < MODULES ==> Starts(x, w, n, m)
    ensures forall m :: 0 <= m < MODULES ==> Restored(x, w, Replay(w, n, DumpOf(x, n)), n, m)
  {
    hide Mid, Ended, Replay, ModulesFindable, Closed, Headers, AllDetails, AfterHeader, AllNamed, SubsFindable, AllProper, Starts;
    var y := BasedUpto(x, w, n, MODULES);
    assert BasedUpto(x, w, n, 0) == w;
    HeadersReplayed(x, w, n, 0);
    forall j | 0 <= j < MODULES
      ensures Ready(y, x, n, j)
    {
      ReadyForDetails(x, w, n, j);
    }
    AllDetailsReplayed(y, x, n, 0);
    ReplayJoins(w, n, Headers(x, n, 0), AllDetails(x, n, 0));
    var z := Replay(y, n, AllDetails(x, n, 0));
    forall m | 0 <= m < MODULES
      ensures Restored(x, w, z, n, m)
    {
      assert Outcome(y, z, x, n, 0, m);
      if n.modules[m].Named? {
        EndedRestores(z[m], x[m], n.subs[m]);
      }
    }
  }

  /** All clear is such a start. */
  lemma ClearStarts(x: Matrix, n: Names)
    requires AllClosed(x) && ValidNames(n)
    ensures AllProper(Clear()) && forall m :: 0 <= m < MODULES ==> Starts(x, Clear(), n, m)
  {
    hide Full, AllSubs;
  }
}
