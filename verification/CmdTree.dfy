/**
 The tree of commands (cmd/src/cmd_cmd.c): registering a command under the path of
 its parent, and looking one up, with paths given as one string, one space between
 names. `id` stands for the address of a node.
 */
module CmdTree {
  import opened SeqFacts

  datatype Cmd = Cmd(name: string, hasProc: bool, id: int, subs: seq<Cmd>)

  datatype Option<T> = None | Some(value: T)

  const SPACE := ' '

  predicate NameChar(c: char) {
    'a' <= c <= 'z' || '0' <= c <= '9' || c == '_'
  }

  /** [a-z0-9_]+ */
  predicate ValidName(s: string) {
    s != "" && forall k :: 0 <= k < |s| ==> NameChar(s[k])
  }

  // ---- Paths. ----

  /** The place of the first space; the length if there is none. */
  function FirstSpace(s: string): (k: nat)
    ensures k <= |s| && (k < |s| ==> s[k] == SPACE) && forall j :: 0 <= j < k ==> s[j] != SPACE
  {
    if s == "" || s[0] == SPACE then 0 else 1 + FirstSpace(s[1..])
  }

  /** The names of a path. */
  function Split(s: string): (names: seq<string>)
    ensures names != []
    decreases |s|
  {
    var k := FirstSpace(s);
    if k == |s| then [s] else [s[..k]] + Split(s[k + 1..])
  }

  function Join(names: seq<string>): string
    requires names != []
  {
    if |names| == 1 then names[0] else names[0] + [SPACE] + Join(names[1..])
  }

  predicate NoSpace(s: string) {
    forall k :: 0 <= k < |s| ==> s[k] != SPACE
  }

  lemma SpaceAt(a: string, b: string)
    requires NoSpace(a)
    ensures FirstSpace(a) == |a| && FirstSpace(a + [SPACE] + b) == |a|
  {
    var s := a + [SPACE] + b;
    assert s[|a|] == SPACE;
    assert forall j :: 0 <= j < |a| ==> s[j] == a[j];
  }

  /** Splitting what was joined gives the names back ... */
  lemma {:induction false} SplitOfJoin(names: seq<string>)
    requires names != [] && forall k :: 0 <= k < |names| ==> NoSpace(names[k])
    ensures Split(Join(names)) == names
    decreases |names|
  {
    hide FirstSpace, NoSpace;
    if |names| == 1 {
      SpaceAt(names[0], "");
      SplitAtFirst(names[0]);
    } else {
      var rest := Join(names[1..]);
      SpaceAt(names[0], rest);
      SplitOfJoin(names[1..]);
      SplitAtFirst(Join(names));
      hide Split, Join;
      assert Join(names)[..|names[0]|] == names[0] && Join(names)[|names[0]| + 1..] == rest;
    }
  }

  lemma JoinCons(first: string, rest: seq<string>)
    requires rest != []
    ensures Join([first] + rest) == first + [SPACE] + Join(rest)
  {
    assert ([first] + rest)[1..] == rest;
  }

  lemma CutAtSpace(s: string, k: nat)
    requires k < |s| && s[k] == SPACE
    ensures s == s[..k] + [SPACE] + s[k + 1..]
  {
  }

  lemma NoSpaceCons(first: string, rest: seq<string>)
    requires NoSpace(first) && forall k :: 0 <= k < |rest| ==> NoSpace(rest[k])
    ensures forall k :: 0 <= k < |[first] + rest| ==> NoSpace(([first] + rest)[k])
  {
    hide NoSpace;
  }

  /** What splitting does at the first space. */
  lemma SplitOnce(s: string)
    ensures var k := FirstSpace(s);
            && NoSpace(s[..k])
            && (k == |s| ==> s[..k] == s && Split(s) == [s])
            && (k < |s| ==> Split(s) == [s[..k]] + Split(s[k + 1..]))
  {
    BeforeSpace(s);
    hide FirstSpace, NoSpace;
  }

  lemma BeforeSpace(s: string)
    ensures NoSpace(s[..FirstSpace(s)])
  {
    hide FirstSpace;
  }

  /** ... and joining what was split gives the path back; no name has a space in it. */
  lemma {:induction false} JoinOfSplit(s: string)
    ensures Join(Split(s)) == s && forall k :: 0 <= k < |Split(s)| ==> NoSpace(Split(s)[k])
    decreases |s|
  {
    var k := FirstSpace(s);
    SplitOnce(s);
    hide Split, FirstSpace, NoSpace;
    if k < |s| {
      var rest := Split(s[k + 1..]);
      JoinOfSplit(s[k + 1..]);
      CutAtSpace(s, k);
      JoinCons(s[..k], rest);
      NoSpaceCons(s[..k], rest);
    }
  }

  /** strchr(s + from, ' '), as an index; the length of s if there is none. */
  method FindSpace(s: string, from: nat) returns (p: nat)
    requires from <= |s|
    ensures p == from + FirstSpace(s[from..])
  {
    p := from;
    while p < |s| && s[p] != SPACE
      invariant from <= p <= |s| && from + FirstSpace(s[from..]) == p + FirstSpace(s[p..])
    {
      assert s[p..][1..] == s[p + 1..];
      p := p + 1;
    }
  }

  /** The two loops of _find_cmdpath: count the names, then cut them out. */
  method SplitPath(path: string) returns (names: seq<string>)
    ensures names == Split(path)
  {
    var num := CountNames(path);
    names := CutNames(path, num);
  }

  method CountNames(path: string) returns (num: nat)
    ensures num == |Split(path)|
  {
    hide Split, FirstSpace;
    num := 1;
    var p1 := 0;
    assert path[0..] == path;
    while p1 < |path|
      invariant 0 <= p1 <= |path| && num - 1 + |Split(path[p1..])| == |Split(path)|
      decreases |path| - p1
    {
      var p2 := FindSpace(path, p1);
      SplitStep(path, p1, p2);
      if p2 == |path| {
        return;
      }
      num := num + 1;
      p1 := p2 + 1;
    }
    SplitStep(path, p1, p1);
    EmptyHasNoSpace(path, p1);
  }

  lemma EmptyHasNoSpace(path: string, p1: nat)
    requires p1 == |path|
    ensures FirstSpace(path[p1..]) == 0 && Split(path[p1..]) == [path[p1..]]
  {
    SplitStep(path, p1, p1);
  }

  method CutNames(path: string, num: nat) returns (names: seq<string>)
    requires num == |Split(path)|
    ensures names == Split(path)
  {
    hide Split, FirstSpace;
    names := [];
    var p1 := 0;
    var n := 0;
    assert path[0..] == path;
    while n + 1 < num
      invariant 0 <= n < num && |names| == n && 0 <= p1 <= |path| && names + Split(path[p1..]) == Split(path)
    {
      var p2 := FindSpace(path, p1);
      SplitStep(path, p1, p2);
      SpaceInside(path, p1, p2);
      assert names + ([path[p1..p2]] + Split(path[p2 + 1..])) == (names + [path[p1..p2]]) + Split(path[p2 + 1..]);
      names := names + [path[p1..p2]];
      p1 := p2 + 1;
      n := n + 1;
    }
    SplitCount(path, p1);
    names := names + [path[p1..]];
  }

  lemma SpaceInside(path: string, p1: nat, p2: nat)
    requires p1 <= |path| && p2 == p1 + FirstSpace(path[p1..]) && |Split(path[p1..])| > 1
    ensures p2 < |path|
  {
    SplitStep(path, p1, p2);
  }

  /** One name is cut off at a space. */
  lemma SplitStep(path: string, p1: nat, p2: nat)
    requires p1 <= |path| && p2 == p1 + FirstSpace(path[p1..])
    ensures p2 < |path| ==> Split(path[p1..]) == [path[p1..p2]] + Split(path[p2 + 1..])
    ensures p2 == |path| ==> Split(path[p1..]) == [path[p1..]]
  {
    SplitOnce(path[p1..]);
    if p2 < |path| {
      SliceOfSlice(path, p1, p2);
    }
    hide Split, FirstSpace, NoSpace;
  }

  lemma SplitCount(path: string, p1: nat)
    requires p1 <= |path|
    ensures |Split(path[p1..])| == 1 <==> FirstSpace(path[p1..]) == |path| - p1
    ensures |Split(path[p1..])| == 1 ==> Split(path[p1..]) == [path[p1..]]
  {
    SplitStep(path, p1, p1 + FirstSpace(path[p1..]));
  }

  // ---- The tree. ----

  /** The place of the command with that name; the length of the list if there is none. No name is empty. */
  function Place(list: seq<Cmd>, name: string): (i: nat)
    ensures i <= |list| && (i < |list| ==> list[i].name == name && name != "")
    ensures forall j :: 0 <= j < i && name != "" ==> list[j].name != name
  {
    if name == "" then |list|
    else if list == [] || list[0].name == name then 0 else 1 + Place(list[1..], name)
  }

  /** cmd_cmd_find_cmd. */
  function Lookup(list: seq<Cmd>, names: seq<string>): (c: Option<Cmd>)
    decreases |names|
  {
    if names == [] then None
    else
      var i := Place(list, names[0]);
      if i == |list| then None
      else if |names| == 1 then Some(list[i]) else Lookup(list[i].subs, names[1..])
  }

  /** Sibling names are distinct, everywhere in the tree. */
  ghost predicate Tidy(list: seq<Cmd>)
    decreases list
  {
    && (forall i, j :: 0 <= i < j < |list| ==> list[i].name != list[j].name)
    && (forall i :: 0 <= i < |list| ==> ValidName(list[i].name) && Tidy(list[i].subs))
  }

  /** The tree with a new command below the one that `names` leads to. */
  function AddBelow(list: seq<Cmd>, names: seq<string>, c: Cmd): (out: seq<Cmd>)
    requires Lookup(list, names).Some?
    ensures |out| == |list|
    ensures forall k :: 0 <= k < |list| ==> out[k].name == list[k].name && out[k].id == list[k].id && out[k].hasProc == list[k].hasProc
    decreases |names|
  {
    var i := Place(list, names[0]);
    var subs := if |names| == 1 then list[i].subs + [c] else AddBelow(list[i].subs, names[1..], c);
    list[i := list[i].(subs := subs)]
  }

  /** A node as its own registration made it: its address, and whether it has a procedure. */
  datatype Node = Node(id: int, hasProc: bool)

  /** What a path leads to. */
  function NodeAt(list: seq<Cmd>, names: seq<string>): Option<Node> {
    var c := Lookup(list, names);
    if c == None then None else Some(Node(c.value.id, c.value.hasProc))
  }

  lemma {:induction false} PlaceSame(a: seq<Cmd>, b: seq<Cmd>, name: string)
    requires |a| == |b| && forall k :: 0 <= k < |a| ==> a[k].name == b[k].name
    ensures Place(a, name) == Place(b, name)
  {
    if a != [] && name != "" && a[0].name != name {
      PlaceSame(a[1..], b[1..], name);
    }
  }

  lemma {:induction false} PlaceAtEnd(list: seq<Cmd>, c: Cmd, name: string)
    ensures Place(list + [c], name) ==
            if Place(list, name) < |list| then Place(list, name)
            else if name == c.name && name != "" then |list| else |list| + 1
  {
    if list != [] && name != "" && list[0].name != name {
      PlaceAtEnd(list[1..], c, name);
      assert (list + [c])[1..] == list[1..] + [c];
    } else if list == [] {
      assert list + [c] == [c] && [c][1..] == [];
    }
  }

  /** A new top-level command is found under its name, and nothing else is found otherwise than before. */
  lemma TopAdded(list: seq<Cmd>, c: Cmd, q: seq<string>)
    requires ValidName(c.name) && Place(list, c.name) == |list| && c.subs == []
    ensures NodeAt(list + [c], q) == if q == [c.name] then Some(Node(c.id, c.hasProc)) else NodeAt(list, q)
  {
    if q != [] {
      PlaceAtEnd(list, c, q[0]);
      if q[0] == c.name && |q| > 1 {
        NothingBelow(q[1..]);
      }
    }
  }

  lemma NothingBelow(q: seq<string>)
    ensures Lookup([], q) == None
  {
  }

  /** So is a new subcommand, under the path of its parent and its name. */
  lemma {:induction false} SubAdded(list: seq<Cmd>, names: seq<string>, c: Cmd, q: seq<string>)
    requires Lookup(list, names).Some? && ValidName(c.name) && c.subs == []
    requires Place(Lookup(list, names).value.subs, c.name) == |Lookup(list, names).value.subs|
    ensures NodeAt(AddBelow(list, names, c), q) == if q == names + [c.name] then Some(Node(c.id, c.hasProc)) else NodeAt(list, q)
    decreases |names|
  {
    hide ValidName, Place;
    var out := AddBelow(list, names, c);
    if q != [] {
      PlaceSame(list, out, q[0]);
      var i := Place(list, names[0]);
      if q[0] == names[0] && |q| > 1 {
        var subs := out[i].subs;
        assert NodeAt(out, q) == NodeAt(subs, q[1..]) && NodeAt(list, q) == NodeAt(list[i].subs, q[1..]);
        SamePath(names, c.name, q);
        if |names| == 1 {
          TopAdded(list[i].subs, c, q[1..]);
        } else {
          SubAdded(list[i].subs, names[1..], c, q[1..]);
        }
      }
    }
  }

  lemma SamePath(names: seq<string>, last: string, q: seq<string>)
    requires names != [] && |q| > 1 && q[0] == names[0]
    ensures q == names + [last] <==> q[1..] == names[1..] + [last]
    ensures |names| == 1 ==> names[1..] + [last] == [last]
  {
    assert q == [q[0]] + q[1..] && names + [last] == [names[0]] + (names[1..] + [last]);
    if q == names + [last] {
      assert (names + [last])[1..] == names[1..] + [last];
    }
  }

  lemma TidyAtEnd(list: seq<Cmd>, c: Cmd)
    requires Tidy(list) && ValidName(c.name) && Place(list, c.name) == |list| && c.subs == []
    ensures Tidy(list + [c])
  {
    hide ValidName;
    assert c.name != "" by {
      NotEmpty(c.name);
    }
    forall i | 0 <= i < |list + [c]|
      ensures ValidName((list + [c])[i].name) && Tidy((list + [c])[i].subs)
    {
    }
  }

  lemma NotEmpty(s: string)
    requires ValidName(s)
    ensures s != ""
  {
  }

  lemma {:induction false} TidyBelow(list: seq<Cmd>, names: seq<string>, c: Cmd)
    requires Tidy(list) && Lookup(list, names).Some? && ValidName(c.name) && c.subs == []
    requires Place(Lookup(list, names).value.subs, c.name) == |Lookup(list, names).value.subs|
    ensures Tidy(AddBelow(list, names, c))
    decreases |names|
  {
    hide ValidName;
    var i := Place(list, names[0]);
    if |names| == 1 {
      TidyAtEnd(list[i].subs, c);
    } else {
      TidyBelow(list[i].subs, names[1..], c);
    }
  }

  // ---- The registry. ----

  /** _findproc; minus one when the name is not there. */
  method FindProc(list: seq<Cmd>, name: string) returns (i: int)
    ensures i == if Place(list, name) < |list| then Place(list, name) else -1
  {
    if name == "" {
      return -1;
    }
    i := 0;
    assert list[0..] == list;
    while i < |list|
      invariant 0 <= i <= |list| && Place(list, name) == i + Place(list[i..], name)
    {
      assert list[i..][0] == list[i] && list[i..][1..] == list[i + 1..];
      if list[i].name == name {
        return i;
      }
      i := i + 1;
    }
    assert list[i..] == [];
    i := -1;
  }

  /** cmd_cmd_find_cmd. */
  method FindCmd(cmds: seq<Cmd>, names: seq<string>) returns (cmd: Option<Cmd>)
    ensures cmd == Lookup(cmds, names)
  {
    cmd := None;
    var n, list := 0, cmds;
    assert names[0..] == names;
    while n < |names|
      invariant 0 <= n <= |names|
      invariant n == 0 ==> cmd == None && list == cmds
      invariant n > 0 ==> cmd.Some? && list == cmd.value.subs
      invariant Lookup(cmds, names) == if n > 0 && n == |names| then cmd else Lookup(list, names[n..])
    {
      assert names[n..][0] == names[n] && names[n..][1..] == names[n + 1..];
      var i := FindProc(list, names[n]);
      if i < 0 {
        return None;
      }
      cmd := Some(list[i]);
      list := list[i].subs;
      n := n + 1;
    }
  }

  /** The last space, or none. */
  function LastSpace(s: string): (k: int)
    ensures -1 <= k < |s| && (k >= 0 ==> s[k] == SPACE) && forall j :: k < j < |s| ==> s[j] != SPACE
    decreases |s|
  {
    if s == "" then -1 else if s[|s| - 1] == SPACE then |s| - 1 else LastSpace(s[..|s| - 1])
  }

  lemma SplitAtFirst(s: string)
    ensures FirstSpace(s) < |s| ==> Split(s) == [s[..FirstSpace(s)]] + Split(s[FirstSpace(s) + 1..])
    ensures FirstSpace(s) == |s| ==> Split(s) == [s]
  {
    hide FirstSpace;
  }

  /** Cutting at the last space takes the last name off. */
  lemma {:induction false} LastNameOff(s: string)
    ensures LastSpace(s) < 0 ==> Split(s) == [s]
    ensures LastSpace(s) >= 0 ==> Split(s) == Split(s[..LastSpace(s)]) + [s[LastSpace(s) + 1..]]
    decreases |s|
  {
    hide Split, FirstSpace, LastSpace;
    var f, k := FirstSpace(s), LastSpace(s);
    SplitAtFirst(s);
    if f < |s| {
      LastIs(s[f + 1..], k - f - 1);
      LastNameOff(s[f + 1..]);
      FirstIs(s[..k], f);
      SplitAtFirst(s[..k]);
      if k > f {
        LastNameStep(s, f, k);
      } else {
        assert s[..k] == s[..f];
      }
    }
  }

  lemma LastNameStep(s: string, f: nat, k: nat)
    requires f < k < |s| && Split(s) == [s[..f]] + Split(s[f + 1..])
    requires Split(s[f + 1..]) == Split(s[f + 1..][..k - f - 1]) + [s[f + 1..][k - f..]]
    requires Split(s[..k]) == [s[..k][..f]] + Split(s[..k][f + 1..])
    ensures Split(s) == Split(s[..k]) + [s[k + 1..]]
  {
    hide Split;
    assert s[..k][..f] == s[..f];
    assert s[..k][f + 1..] == s[f + 1..][..k - f - 1];
    assert s[k + 1..] == s[f + 1..][k - f..];
    Regroup([s[..f]], Split(s[..k][f + 1..]), [s[k + 1..]]);
  }

  lemma Regroup(a: seq<string>, b: seq<string>, c: seq<string>)
    ensures a + (b + c) == (a + b) + c
  {
  }

  lemma FirstIs(s: string, f: nat)
    requires f <= |s| && (f < |s| ==> s[f] == SPACE) && forall j :: 0 <= j < f ==> s[j] != SPACE
    ensures FirstSpace(s) == f
  {
  }

  lemma LastIs(s: string, k: int)
    requires -1 <= k < |s| && (k >= 0 ==> s[k] == SPACE) && forall j :: k < j < |s| ==> s[j] != SPACE
    ensures LastSpace(s) == k
  {
  }

  /** A command can be registered under these names. */
  predicate CanRegister(cmds: seq<Cmd>, names: seq<string>)
    requires names != []
  {
    var last, parent := names[|names| - 1], names[..|names| - 1];
    ValidName(last) &&
    if parent == [] then Place(cmds, last) == |cmds|
    else
      var c := Lookup(cmds, parent);
      c.Some? && !c.value.hasProc && Place(c.value.subs, last) == |c.value.subs|
  }

  function Registered(cmds: seq<Cmd>, names: seq<string>, hasProc: bool, id: int): seq<Cmd>
    requires names != [] && CanRegister(cmds, names)
  {
    var last, parent := names[|names| - 1], names[..|names| - 1];
    var c := Cmd(last, hasProc, id, []);
    if parent == [] then cmds + [c] else AddBelow(cmds, parent, c)
  }

  /** After a registration the path leads to the new command, and every other path leads where it led before. */
  lemma RegisteredIsFound(cmds: seq<Cmd>, names: seq<string>, hasProc: bool, id: int, q: seq<string>)
    requires names != [] && CanRegister(cmds, names)
    ensures NodeAt(Registered(cmds, names, hasProc, id), q) == if q == names then Some(Node(id, hasProc)) else NodeAt(cmds, q)
  {
    var last, parent := names[|names| - 1], names[..|names| - 1];
    var c := Cmd(last, hasProc, id, []);
    assert names == parent + [last];
    hide ValidName, Place, Lookup, AddBelow;
    if parent == [] {
      TopAdded(cmds, c, q);
    } else {
      SubAdded(cmds, parent, c, q);
    }
  }

  /** Sibling names stay distinct. */
  lemma RegisteredStaysTidy(cmds: seq<Cmd>, names: seq<string>, hasProc: bool, id: int)
    requires names != [] && CanRegister(cmds, names) && Tidy(cmds)
    ensures Tidy(Registered(cmds, names, hasProc, id))
  {
    var last, parent := names[|names| - 1], names[..|names| - 1];
    var c := Cmd(last, hasProc, id, []);
    hide ValidName, Tidy;
    if parent == [] {
      TidyAtEnd(cmds, c);
    } else {
      TidyBelow(cmds, parent, c);
    }
  }

  // ---- Registrations in a row. ----

  datatype Registration = Registration(path: string, hasProc: bool, id: int)

  /** cmd_register on the tree: refused registrations change nothing. */
  function Try(cmds: seq<Cmd>, r: Registration): seq<Cmd> {
    if CanRegister(cmds, Split(r.path)) then Registered(cmds, Split(r.path), r.hasProc, r.id) else cmds
  }

  function TryAll(cmds: seq<Cmd>, rs: seq<Registration>): seq<Cmd> {
    if rs == [] then cmds else Try(TryAll(cmds, rs[..|rs| - 1]), rs[|rs| - 1])
  }

  /** The commands there are, by path. */
  type Book = map<seq<string>, Node>

  /** A path is free when it is new, its last name is valid, and the rest of it is a command without a procedure. */
  predicate Free(book: Book, names: seq<string>)
    requires names != []
  {
    var last, parent := names[|names| - 1], names[..|names| - 1];
    ValidName(last) && names !in book && (parent != [] ==> parent in book && !book[parent].hasProc)
  }

  function Enter(book: Book, r: Registration): Book {
    var names := Split(r.path);
    if Free(book, names) then book[names := Node(r.id, r.hasProc)] else book
  }

  function EnterAll(book: Book, rs: seq<Registration>): Book {
    if rs == [] then book else Enter(EnterAll(book, rs[..|rs| - 1]), rs[|rs| - 1])
  }

  ghost predicate Agree(cmds: seq<Cmd>, book: Book) {
    forall q :: NodeAt(cmds, q) == if q in book then Some(book[q]) else None
  }

  /** The last name is new at its place exactly when the path leads nowhere. */
  lemma {:induction false} NewBelow(list: seq<Cmd>, parent: seq<string>, last: string)
    requires Lookup(list, parent).Some? && last != ""
    ensures var subs := Lookup(list, parent).value.subs;
            Place(subs, last) == |subs| <==> Lookup(list, parent + [last]) == None
    decreases |parent|
  {
    hide Place;
    assert (parent + [last])[0] == parent[0] && (parent + [last])[1..] == parent[1..] + [last];
    if |parent| == 1 {
      assert parent[1..] + [last] == [last];
    } else {
      NewBelow(list[Place(list, parent[0])].subs, parent[1..], last);
    }
  }

  lemma FreeExactly(cmds: seq<Cmd>, book: Book, names: seq<string>)
    requires names != [] && Agree(cmds, book)
    ensures CanRegister(cmds, names) <==> Free(book, names)
  {
    var last, parent := names[|names| - 1], names[..|names| - 1];
    hide Place, ValidName, Lookup;
    assert names == parent + [last];
    assert NodeAt(cmds, names) == if names in book then Some(book[names]) else None;
    assert NodeAt(cmds, parent) == if parent in book then Some(book[parent]) else None;
    if ValidName(last) {
      NotEmpty(last);
      if parent == [] {
        NewOnTop(cmds, last);
      } else if Lookup(cmds, parent).Some? {
        NewBelow(cmds, parent, last);
      }
    }
  }

  lemma NewOnTop(cmds: seq<Cmd>, name: string)
    ensures Place(cmds, name) == |cmds| <==> Lookup(cmds, [name]) == None
  {
    hide Place;
  }

  lemma TryAgrees(cmds: seq<Cmd>, book: Book, r: Registration)
    requires Agree(cmds, book)
    ensures Agree(Try(cmds, r), Enter(book, r))
  {
    var names := Split(r.path);
    hide CanRegister, Registered, Free, NodeAt, Split;
    FreeExactly(cmds, book, names);
    if CanRegister(cmds, names) {
      forall q {
        RegisteredIsFound(cmds, names, r.hasProc, r.id, q);
      }
    }
  }

  /**
   Whatever is registered in whatever order: a registration succeeds exactly
   when its path is free by what succeeded before it, and every path leads to
   the node that its own registration made, with the flag given there.
   */
  lemma {:induction false} TreeIsBook(rs: seq<Registration>)
    ensures Agree(TryAll([], rs), EnterAll(map[], rs))
    ensures forall r: Registration :: CanRegister(TryAll([], rs), Split(r.path)) <==> Free(EnterAll(map[], rs), Split(r.path))
    decreases |rs|
  {
    hide Try, Enter, CanRegister, Free, Split;
    var cmds, book := TryAll([], rs), EnterAll(map[], rs);
    if rs == [] {
      forall q {
        NothingBelow(q);
      }
    } else {
      var front := rs[..|rs| - 1];
      TreeIsBook(front);
      TryAgrees(TryAll([], front), EnterAll(map[], front), rs[|rs| - 1]);
    }
    forall r: Registration
      ensures CanRegister(cmds, Split(r.path)) <==> Free(book, Split(r.path))
    {
      FreeExactly(cmds, book, Split(r.path));
    }
  }

  class Registry {
    var cmds: seq<Cmd>
    var count: nat

    constructor ()
      ensures cmds == [] && count == 0
    {
      cmds, count := [], 0;
    }

    /** cmd_register_cmd. */
    method RegisterCmd(name: string, hasProc: bool, id: int) returns (code: int)
      modifies this
      ensures code == if CanRegister(old(cmds), [name]) then 0 else -1
      ensures cmds == if code == 0 then Registered(old(cmds), [name], hasProc, id) else old(cmds)
      ensures count == if code == 0 then old(count) + 1 else old(count)
    {
      assert [name][..0] == [];
      var found := FindProc(cmds, name);
      if !ValidName(name) || found >= 0 {
        return -1;
      }
      cmds := cmds + [Cmd(name, hasProc, id, [])];
      count := count + 1;
      code := 0;
    }

    /** cmd_register_subcmd. */
    method RegisterSub(path: string, sub: string, hasProc: bool, id: int) returns (code: int)
      modifies this`cmds
      ensures code == if CanRegister(old(cmds), Split(path) + [sub]) then 0 else -1
      ensures cmds == if code == 0 then Registered(old(cmds), Split(path) + [sub], hasProc, id) else old(cmds)
    {
      hide ValidName, Place, Lookup, Split;
      assert (Split(path) + [sub])[..|Split(path)|] == Split(path);
      var names := SplitPath(path);
      var cmd := FindCmd(cmds, names);
      if cmd == None || cmd.value.hasProc {
        return -1;
      }
      var found := FindProc(cmd.value.subs, sub);
      PlaceBound(cmd.value.subs, sub);
      if !ValidName(sub) || found >= 0 {
        return -1;
      }
      cmds := AddBelow(cmds, names, Cmd(sub, hasProc, id, []));
      code := 0;
    }

    /** cmd_register. */
    method Register(path: string, hasProc: bool, id: int) returns (code: int)
      modifies this
      ensures code == if CanRegister(old(cmds), Split(path)) then 0 else -1
      ensures cmds == if code == 0 then Registered(old(cmds), Split(path), hasProc, id) else old(cmds)
    {
      hide Split, CanRegister, LastSpace, Registered;
      if path == "" {
        EmptyPath(cmds);
        return -1;
      }
      var space := FindLastSpace(path);
      if space >= 0 {
        CutLast(path, space);
        code := RegisterSub(path[..space], path[space + 1..], hasProc, id);
      } else {
        CutLast(path, space);
        code := RegisterCmd(path, hasProc, id);
      }
    }
  }

  lemma CutLast(path: string, k: int)
    requires k == LastSpace(path)
    ensures k < 0 ==> Split(path) == [path]
    ensures k >= 0 ==> Split(path) == Split(path[..k]) + [path[k + 1..]]
  {
    LastNameOff(path);
  }

  lemma PlaceBound(list: seq<Cmd>, name: string)
    ensures Place(list, name) <= |list|
  {
  }

  lemma EmptyPath(cmds: seq<Cmd>)
    ensures !CanRegister(cmds, Split(""))
  {
  }

  /** strrchr(s, ' '). */
  method FindLastSpace(s: string) returns (k: int)
    ensures k == LastSpace(s)
  {
    k := |s| - 1;
    assert s[..|s|] == s;
    while k >= 0 && s[k] != SPACE
      invariant -1 <= k < |s| && LastSpace(s[..k + 1]) == LastSpace(s)
    {
      assert s[..k + 1][..k] == s[..k];
      k := k - 1;
    }
    LastIs(s[..k + 1], k);
  }
}
