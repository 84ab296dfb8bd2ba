/**
 The log-level matrix (debug/src/logger.c): for every module and level the
 submodules whose messages come out, and the commands that set and clear it. A
 32-bit mask is the set of its submodules, bit 5 + i being submodule i; its low five
 bits hold the level or the module and are never stored.
 */
module LogFlags {

  const MODULES := 32
  const SUBMODULES := 27
  const LEVELS := 8

  type Mask = set<int>

  function AllSubs(): (all: Mask)
    ensures forall i :: i in all <==> 0 <= i < SUBMODULES
  {
    {0, 1, 2, 3, 4, 5, 6, 7, 8, 9, 10, 11, 12, 13, 14, 15, 16, 17, 18, 19, 20, 21, 22, 23, 24, 25, 26}
  }

  datatype Name = NoName | Named(text: string)

  /** One row of masks, by level. */
  type Row = seq<Mask>

  /** logger_enable_module_level on the mask of one level; an empty mask clears the level and those above. */
  function LevelAt(f: Mask, l: int, level: int, mask: Mask): Mask {
    if mask == {} then (if l >= level then {} else f)
    else if l <= level then f + mask else f - mask
  }

  function RowLevel(row: Row, level: int, mask: Mask): (r: Row)
    ensures |r| == |row|
  {
    seq(|row|, l requires 0 <= l < |row| => LevelAt(row[l], l, level, mask))
  }

  /** logger_enable_module_mask on the mask of one level. */
  function MaskAt(f: Mask, l: int, level: int, mask: Mask): Mask {
    if l <= level then f + mask else f - mask
  }

  function RowMask(row: Row, level: int, mask: Mask): (r: Row)
    ensures |r| == |row|
  {
    seq(|row|, l requires 0 <= l < |row| => MaskAt(row[l], l, level, mask))
  }

  function Cleared(): (r: Row)
    ensures |r| == LEVELS
  {
    seq(LEVELS, _ => {})
  }

  /** Submodule s off at all levels. */
  function RowOff(row: Row, s: int): (r: Row)
    ensures |r| == |row|
  {
    seq(|row|, l requires 0 <= l < |row| => row[l] - {s})
  }

  function LowerChar(c: char): char {
    if 'A' <= c <= 'Z' then c - 'A' + 'a' else c
  }

  /** strncasecmp(entry, name, strlen(name)) == 0. */
  predicate Matches(entry: string, name: string) {
    |name| <= |entry| && forall k :: 0 <= k < |name| ==> LowerChar(entry[k]) == LowerChar(name[k])
  }

  /** The first entry that the name is the beginning of; minus the number of entries when there is none. */
  function FindIn(names: seq<Name>, name: string, i: nat): (r: int)
    requires i <= |names| && names != []
    ensures r < |names| && (r >= 0 ==> i <= r)
    decreases |names| - i
  {
    if i == |names| then 0 - i
    else if names[i].Named? && Matches(names[i].text, name) then i
    else FindIn(names, name, i + 1)
  }

  /** An entry is found by its own text exactly when that is not the beginning of an earlier entry. */
  predicate Findable(names: seq<Name>, i: nat) {
    i < |names| && names[i].Named? && forall j :: 0 <= j < i && names[j].Named? ==> !Matches(names[j].text, names[i].text)
  }

  lemma {:induction false} FoundFrom(names: seq<Name>, i: nat, j: nat)
    requires i < |names| && names[i].Named? && j <= i
    ensures FindIn(names, names[i].text, j) == i <==>
            forall k :: j <= k < i && names[k].Named? ==> !Matches(names[k].text, names[i].text)
    decreases i - j
  {
    if j < i {
      FoundFrom(names, i, j + 1);
    }
  }

  lemma FoundExactly(names: seq<Name>, i: nat)
    requires i < |names| && names[i].Named?
    ensures FindIn(names, names[i].text, 0) == i <==> Findable(names, i)
  {
    FoundFrom(names, i, 0);
  }

  const LEVEL_NAMES: seq<Name> := [Named("LOG_CRIT"), Named("LOG_ERR"), Named("LOG_WARNING"), Named("LOG_NOTICE"),
                                   Named("LOG_INFO"), Named("LOG_DEBUG"), Named("LOG_DEBUG_M"), Named("LOG_DEBUG_H")]

  const OFF := 999

  /** logger_find_level. */
  function FindLevel(name: string): int {
    if |name| >= 3 && name[..3] == "off" then OFF else FindIn(LEVEL_NAMES, name, 0)
  }

  /** The names the commands go by. */
  datatype Names = Names(modules: seq<Name>, subs: seq<seq<Name>>)

  ghost predicate ValidNames(n: Names) {
    |n.modules| == MODULES && |n.subs| == MODULES && forall m :: 0 <= m < MODULES ==> |n.subs[m]| == SUBMODULES
  }

  type Matrix = seq<Row>

  ghost predicate ValidMatrix(x: Matrix) {
    |x| == MODULES && forall m :: 0 <= m < MODULES ==> |x[m]| == LEVELS
  }

  /** logger_set_3 after the arguments are read, possibly in the other order. */
  function Exec3(x: Matrix, n: Names, module0: string, sub: string, level0: string): Matrix
    requires ValidMatrix(x) && ValidNames(n)
  {
    var swap := FindLevel(level0) < 0;
    var m := FindIn(n.modules, if swap then level0 else module0, 0);
    var l := FindLevel(if swap then module0 else level0);
    if m < 0 then x
    else
      var s := FindIn(n.subs[m], sub, 0);
      if s < 0 || l < 0 then x
      else if l == OFF then x[m := RowOff(x[m], s)]
      else x[m := RowLevel(x[m], l, {s})]
  }

  /** logger_set_2. */
  function Exec2(x: Matrix, n: Names, module0: string, level0: string): Matrix
    requires ValidMatrix(x) && ValidNames(n)
  {
    var swap := FindLevel(level0) < 0;
    var m := FindIn(n.modules, if swap then level0 else module0, 0);
    var l := FindLevel(if swap then module0 else level0);
    if m < 0 || l < 0 then x
    else if l == OFF then x[m := Cleared()]
    else x[m := RowMask(x[m], l, AllSubs())]
  }

  /** One module under logger_set_1, when it is the turn of the first k. */
  function Exec1Row(row: Row, l: int, k: nat, m: nat): (r: Row)
    ensures |row| == LEVELS ==> |r| == LEVELS
  {
    if l < 0 || m >= k then row else if l == OFF then Cleared() else RowMask(row, l, AllSubs())
  }

  /** logger_set_1, for the first k modules. */
  function Exec1(x: Matrix, level: string, k: nat): (r: Matrix)
    requires ValidMatrix(x) && k <= MODULES
    ensures ValidMatrix(r)
  {
    var l := FindLevel(level);
    seq(MODULES, m requires 0 <= m < MODULES => Exec1Row(x[m], l, k, m))
  }

  // ---- What the commands mean. ----

  /** The same letter as a capital and as a small one. */
  predicate CaseOf(capital: char, small: char) {
    'A' <= capital <= 'Z' && small as int == capital as int + 32
  }

  predicate SameLetters(a: string, b: string) {
    |a| == |b| && forall k :: 0 <= k < |a| ==> a[k] == b[k] || CaseOf(a[k], b[k]) || CaseOf(b[k], a[k])
  }

  /** A name matches what it is the beginning of, capital letters or small. */
  lemma MatchesBeginnings(entry: string, name: string)
    ensures Matches(entry, name) <==> |name| <= |entry| && SameLetters(entry[..|name|], name)
  {
    assert forall c: char, d: char :: LowerChar(c) == LowerChar(d) <==> c == d || CaseOf(c, d) || CaseOf(d, c);
  }

  /** "off" in small letters, whatever follows, is off; anything else is a level or the beginning of its name. */
  lemma OffExactly(name: string)
    ensures FindLevel(name) == OFF <==> "off" <= name
  {
    if |name| >= 3 {
      assert "off" <= name <==> name[..3] == "off";
    }
  }

  /** A name stands for the first entry that it is the beginning of. */
  lemma {:induction false} FindsFirst(names: seq<Name>, name: string, i: nat)
    requires i <= |names| && names != []
    ensures var r := FindIn(names, name, i);
            if r >= 0 then names[r].Named? && Matches(names[r].text, name)
                           && forall k :: i <= k < r && names[k].Named? ==> !Matches(names[k].text, name)
            else forall k :: i <= k < |names| && names[k].Named? ==> !Matches(names[k].text, name)
    decreases |names| - i
  {
    hide Matches;
    if i < |names| {
      FindsFirst(names, name, i + 1);
    }
  }

  /** The messages of submodule s of module m come out at level l. */
  predicate On(x: Matrix, m: nat, s: int, l: nat)
    requires ValidMatrix(x) && m < MODULES && l < LEVELS
  {
    s in x[m][l]
  }

  /** What a level asks for: on up to the level and off above it, raised or lowered, and "off" is off everywhere. */
  predicate Asked(level: int, l: nat) {
    level != OFF && l <= level
  }

  /** logger_set_3 sets one submodule; all others stay as they are. */
  lemma Set3Says(x: Matrix, n: Names, module0: string, sub: string, level0: string, m: nat, s: int, l: nat)
    requires ValidMatrix(x) && ValidNames(n) && FindLevel(level0) >= 0 && m < MODULES && 0 <= s < SUBMODULES && l < LEVELS
    ensures var t, m0 := Exec3(x, n, module0, sub, level0), FindIn(n.modules, module0, 0);
            && ValidMatrix(t)
            && (On(t, m, s, l) <==>
                if m == m0 && s == FindIn(n.subs[m], sub, 0) then Asked(FindLevel(level0), l) else On(x, m, s, l))
  {
    hide FindIn, FindLevel, Matches;
    LevelRange(level0);
  }

  /** logger_set_2 sets all submodules of a module; the other modules stay as they are. */
  lemma Set2Says(x: Matrix, n: Names, module0: string, level0: string, m: nat, s: int, l: nat)
    requires ValidMatrix(x) && ValidNames(n) && FindLevel(level0) >= 0 && m < MODULES && 0 <= s < SUBMODULES && l < LEVELS
    ensures var t := Exec2(x, n, module0, level0);
            && ValidMatrix(t)
            && (On(t, m, s, l) <==>
                if m == FindIn(n.modules, module0, 0) then Asked(FindLevel(level0), l) else On(x, m, s, l))
  {
    hide FindIn, FindLevel, AllSubs;
    LevelRange(level0);
  }

  /** logger_set_1 sets all submodules of all modules. */
  lemma Set1Says(x: Matrix, level: string, m: nat, s: int, l: nat)
    requires ValidMatrix(x) && FindLevel(level) >= 0 && m < MODULES && 0 <= s < SUBMODULES && l < LEVELS
    ensures On(Exec1(x, level, MODULES), m, s, l) <==> Asked(FindLevel(level), l)
  {
    hide FindLevel, AllSubs;
    LevelRange(level);
  }

  /** The two arguments may come in either order, and what names no module or no level changes nothing. */
  lemma OrderDoesNotMatter(x: Matrix, n: Names, a: string, sub: string, b: string)
    requires ValidMatrix(x) && ValidNames(n)
    ensures (FindLevel(a) >= 0) != (FindLevel(b) >= 0) ==>
              Exec2(x, n, a, b) == Exec2(x, n, b, a) && Exec3(x, n, a, sub, b) == Exec3(x, n, b, sub, a)
    ensures FindLevel(a) < 0 && FindLevel(b) < 0 ==> Exec2(x, n, a, b) == x && Exec3(x, n, a, sub, b) == x
    ensures FindIn(n.modules, a, 0) < 0 && FindIn(n.modules, b, 0) < 0 ==> Exec2(x, n, a, b) == x && Exec3(x, n, a, sub, b) == x
  {
    hide FindIn, FindLevel, AllSubs, RowMask, RowLevel, RowOff, Cleared;
  }

  /** logger_enable_module_level with an empty mask: nothing from the level up, below as before. */
  lemma EmptyMaskSays(row: Row, level: int, s: int, l: nat)
    requires l < |row|
    ensures s in RowLevel(row, level, {})[l] <==> l < level && s in row[l]
  {
  }

  class Logger {
    const flags: array2<Mask>

    ghost predicate Valid() {
      flags.Length0 == MODULES && flags.Length1 == LEVELS
    }

    ghost function RowOf(m: nat): (r: Row)
      requires Valid() && m < MODULES
      reads flags
      ensures |r| == LEVELS
    {
      seq(LEVELS, l requires 0 <= l < LEVELS reads flags => flags[m, l])
    }

    ghost function Contents(): (x: Matrix)
      requires Valid()
      reads flags
      ensures ValidMatrix(x)
    {
      seq(MODULES, m requires 0 <= m < MODULES reads flags => RowOf(m))
    }

    constructor ()
      ensures Valid() && fresh(flags) && Contents() == seq(MODULES, _ => Cleared())
    {
      flags := new Mask[MODULES, LEVELS]((_, _) => {});
      new;
      forall m | 0 <= m < MODULES
        ensures RowOf(m) == Cleared()
      {
      }
    }

    /** Only the row of module m differs from `was`. */
    ghost predicate Elsewhere(was: Matrix, m: nat)
      requires Valid() && ValidMatrix(was)
      reads flags
    {
      forall i, l :: 0 <= i < MODULES && 0 <= l < LEVELS && i != m ==> flags[i, l] == was[i][l]
    }

    lemma OneRow(was: Matrix, m: nat, row: Row)
      requires Valid() && ValidMatrix(was) && m < MODULES && |row| == LEVELS && Elsewhere(was, m)
      requires forall l :: 0 <= l < LEVELS ==> flags[m, l] == row[l]
      ensures Contents() == was[m := row]
    {
      forall i | 0 <= i < MODULES
        ensures Contents()[i] == was[m := row][i]
      {
        if i == m {
          assert RowOf(m) == row;
        } else {
          assert RowOf(i) == was[i];
        }
      }
    }

    /** What Contents() says of each mask. */
    lemma Cells()
      requires Valid()
      ensures forall i, l :: 0 <= i < MODULES && 0 <= l < LEVELS ==> Contents()[i][l] == flags[i, l]
    {
      forall i, l | 0 <= i < MODULES && 0 <= l < LEVELS
        ensures Contents()[i][l] == flags[i, l]
      {
        assert Contents()[i] == RowOf(i);
      }
    }

    /** logger_clear_module. */
    method ClearModule(m0: nat)
      requires Valid()
      modifies flags
      ensures Contents() == old(Contents())[m0 % 32 := Cleared()]
    {
      ghost var was := Contents();
      Cells();
      var m := m0 % 32;
      var l := 0;
      while l < LEVELS
        invariant 0 <= l <= LEVELS
        invariant forall k :: 0 <= k < l ==> flags[m, k] == {}
        invariant Elsewhere(was, m)
      {
        flags[m, l] := {};
        l := l + 1;
      }
      OneRow(was, m, Cleared());
    }

    /** logger_enable_module_mask. */
    method EnableMask(m: nat, mask: Mask, level0: nat)
      requires Valid() && m < MODULES
      modifies flags
      ensures Contents() == old(Contents())[m := RowMask(old(Contents())[m], level0 % 8, mask)]
    {
      ghost var was := Contents();
      Cells();
      var level := level0 % 8;
      var l := 0;
      while l <= level
        invariant 0 <= l <= level + 1
        invariant forall k :: 0 <= k < l ==> flags[m, k] == was[m][k] + mask
        invariant forall k :: l <= k < LEVELS ==> flags[m, k] == was[m][k]
        invariant Elsewhere(was, m)
      {
        flags[m, l] := flags[m, l] + mask;
        l := l + 1;
      }
      l := level + 1;
      while l < LEVELS
        invariant level + 1 <= l <= LEVELS
        invariant forall k :: 0 <= k < l ==> flags[m, k] == MaskAt(was[m][k], k, level, mask)
        invariant forall k :: l <= k < LEVELS ==> flags[m, k] == was[m][k]
        invariant Elsewhere(was, m)
      {
        flags[m, l] := flags[m, l] - mask;
        l := l + 1;
      }
      OneRow(was, m, RowMask(was[m], level, mask));
    }

    /** logger_enable_module_level. */
    method EnableLevel(m0: nat, level0: nat, mask0: Mask)
      requires Valid()
      modifies flags
      ensures Contents() == old(Contents())[m0 % 32 := RowLevel(old(Contents())[m0 % 32], level0 % 8, mask0)]
    {
      ghost var was := Contents();
      Cells();
      var level, m, mask := level0 % 8, m0 % 32, mask0;
      var l := 0;
      if mask != {} {
        while l <= level
          invariant 0 <= l <= level + 1
          invariant forall k :: 0 <= k < l ==> flags[m, k] == was[m][k] + mask
          invariant forall k :: l <= k < LEVELS ==> flags[m, k] == was[m][k]
          invariant Elsewhere(was, m)
        {
          flags[m, l] := flags[m, l] + mask;
          l := l + 1;
        }
        l := level + 1;
        ClearFrom(m, l, mask, was);
      } else {
        l := level;
        ClearAbove(m, l, was);
      }
      OneRow(was, m, RowLevel(was[m], level, mask0));
    }

    /** The second loop: the mask off from level `from` up. */
    method ClearFrom(m: nat, from: nat, mask: Mask, ghost was: Matrix)
      requires Valid() && ValidMatrix(was) && m < MODULES && from <= LEVELS && Elsewhere(was, m)
      requires forall k :: from <= k < LEVELS ==> flags[m, k] == was[m][k]
      modifies flags
      ensures Elsewhere(was, m) && forall k :: 0 <= k < from ==> flags[m, k] == old(flags[m, k])
      ensures forall k :: from <= k < LEVELS ==> flags[m, k] == was[m][k] - mask
    {
      var l := from;
      while l < LEVELS
        invariant from <= l <= LEVELS
        invariant forall k :: 0 <= k < from ==> flags[m, k] == old(flags[m, k])
        invariant forall k :: from <= k < LEVELS ==> flags[m, k] == if k < l then was[m][k] - mask else was[m][k]
        invariant Elsewhere(was, m)
      {
        flags[m, l] := flags[m, l] - mask;
        l := l + 1;
      }
    }

    /** The same loop with the mask 0xffffffff. */
    method ClearAbove(m: nat, from: nat, ghost was: Matrix)
      requires Valid() && ValidMatrix(was) && m < MODULES && from <= LEVELS && Elsewhere(was, m)
      requires forall k :: 0 <= k < LEVELS ==> flags[m, k] == was[m][k]
      modifies flags
      ensures Elsewhere(was, m)
      ensures forall k :: 0 <= k < LEVELS ==> flags[m, k] == if k >= from then {} else was[m][k]
    {
      var l := from;
      while l < LEVELS
        invariant from <= l <= LEVELS
        invariant forall k :: 0 <= k < LEVELS ==> flags[m, k] == if from <= k < l then {} else was[m][k]
        invariant Elsewhere(was, m)
      {
        flags[m, l] := {};
        l := l + 1;
      }
    }

    /** The loop of "off" for one submodule. */
    method SubmoduleOff(m: nat, sub: int)
      requires Valid() && m < MODULES
      modifies flags
      ensures Contents() == old(Contents())[m := RowOff(old(Contents())[m], sub)]
    {
      ghost var was := Contents();
      Cells();
      var l := 0;
      while l < LEVELS
        invariant 0 <= l <= LEVELS
        invariant forall k :: 0 <= k < l ==> flags[m, k] == was[m][k] - {sub}
        invariant forall k :: l <= k < LEVELS ==> flags[m, k] == was[m][k]
        invariant Elsewhere(was, m)
      {
        flags[m, l] := flags[m, l] - {sub};
        l := l + 1;
      }
      OneRow(was, m, RowOff(was[m], sub));
    }

    /** logger_set_3. */
    method Set3(n: Names, arg1: string, sub: string, arg3: string)
      requires Valid() && ValidNames(n)
      modifies flags
      ensures Contents() == Exec3(old(Contents()), n, arg1, sub, arg3)
    {
      hide FindIn, FindLevel, Contents;
      var m, l := FindIn(n.modules, arg1, 0), FindLevel(arg3);
      LevelRange(arg3);
      if l < 0 {
        m, l := FindIn(n.modules, arg3, 0), FindLevel(arg1);
        LevelRange(arg1);
      }
      if m < 0 {
        return;
      }
      var s := FindIn(n.subs[m], sub, 0);
      if s < 0 || l < 0 {
        return;
      }
      if l == OFF {
        SubmoduleOff(m, s);
      } else {
        EnableLevel(m, l, {s});
      }
    }

    /** logger_set_2. */
    method Set2(n: Names, arg1: string, arg2: string)
      requires Valid() && ValidNames(n)
      modifies flags
      ensures Contents() == Exec2(old(Contents()), n, arg1, arg2)
    {
      hide FindIn, FindLevel, Contents, AllSubs;
      var m, l := FindIn(n.modules, arg1, 0), FindLevel(arg2);
      LevelRange(arg2);
      if l < 0 {
        m, l := FindIn(n.modules, arg2, 0), FindLevel(arg1);
        LevelRange(arg1);
      }
      if m < 0 || l < 0 {
        return;
      }
      if l == OFF {
        ClearModule(m);
      } else {
        EnableMask(m, AllSubs(), l);
      }
    }

    /** logger_set_1. */
    method Set1(level: string)
      requires Valid()
      modifies flags
      ensures Contents() == Exec1(old(Contents()), level, MODULES)
    {
      hide FindLevel, Contents, AllSubs, Exec1, RowMask;
      var l := FindLevel(level);
      LevelRange(level);
      ghost var was := Contents();
      if l < 0 {
        NotALevel(was, level, MODULES);
        return;
      }
      NotYet(was, level);
      var i := 0;
      while i < MODULES
        invariant 0 <= i <= MODULES && Contents() == Exec1(was, level, i)
      {
        OneMoreModule(was, level, i);
        if l == OFF {
          ClearModule(i);
        } else {
          EnableMask(i, AllSubs(), l);
        }
        i := i + 1;
      }
    }
  }

  lemma NotALevel(x: Matrix, level: string, k: nat)
    requires ValidMatrix(x) && k <= MODULES && FindLevel(level) < 0
    ensures Exec1(x, level, k) == x
  {
    hide FindLevel;
  }

  lemma NotYet(x: Matrix, level: string)
    requires ValidMatrix(x)
    ensures Exec1(x, level, 0) == x
  {
    hide FindLevel;
  }

  lemma OneMoreModule(x: Matrix, level: string, i: nat)
    requires ValidMatrix(x) && i < MODULES && FindLevel(level) >= 0
    ensures var y, l := Exec1(x, level, i), FindLevel(level);
            Exec1(x, level, i + 1) == y[i := if l == OFF then Cleared() else RowMask(y[i], l, AllSubs())]
  {
    hide FindLevel, AllSubs, RowMask, Cleared;
  }

  lemma LevelRange(name: string)
    ensures FindLevel(name) == OFF || FindLevel(name) < LEVELS
  {
  }
}
