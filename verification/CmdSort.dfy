/**
 The sorted chain of top-level commands (cmd/src/cmd_cmd.c: _find_next, _sort): a
 selection sort that threads the commands by their `sort` pointers.
 */
module CmdSort {

  /** strcmp(a, b) < 0. */
  predicate Less(a: string, b: string)
    decreases |a|
  {
    b != [] && (a == [] || a[0] < b[0] || (a[0] == b[0] && Less(a[1..], b[1..])))
  }

  /** The strings differ first at k, where a ends or has the smaller character. */
  predicate LessAt(a: string, b: string, k: nat) {
    k <= |a| && k < |b| && a[..k] == b[..k] && (k == |a| || a[k] < b[k])
  }

  /** What strcmp orders by. */
  lemma {:induction false} LessExactly(a: string, b: string)
    ensures Less(a, b) <==> exists k: nat :: LessAt(a, b, k)
    decreases |a|
  {
    if a == [] || b == [] || a[0] != b[0] {
      assert b != [] && (a == [] || a[0] < b[0]) ==> LessAt(a, b, 0);
      assert forall k: nat :: LessAt(a, b, k) && k > 0 ==> a[..k][0] == b[..k][0];
    } else {
      LessExactly(a[1..], b[1..]);
      if k: nat :| LessAt(a, b, k) {
        LessLater(a, b, k - 1);
        assert LessAt(a[1..], b[1..], k - 1);
      } else if k: nat :| LessAt(a[1..], b[1..], k) {
        LessLater(a, b, k);
      }
    }
  }

  lemma LessLater(a: string, b: string, k: nat)
    requires a != [] && b != [] && a[0] == b[0]
    ensures LessAt(a, b, k + 1) <==> LessAt(a[1..], b[1..], k)
  {
    if k + 1 <= |a| && k + 1 <= |b| {
      assert a[..k + 1] == [a[0]] + a[1..][..k] && b[..k + 1] == [b[0]] + b[1..][..k];
    }
  }

  lemma {:induction false} LessTotal(a: string, b: string)
    ensures a == b || Less(a, b) || Less(b, a)
    ensures !(Less(a, b) && Less(b, a)) && !Less(a, a)
    decreases |a|
  {
    if a != [] {
      LessTotal(a[1..], a[1..]);
      if b != [] && a[0] == b[0] {
        LessTotal(a[1..], b[1..]);
        if a[1..] == b[1..] {
          assert a == [a[0]] + a[1..] && b == [b[0]] + b[1..];
        }
      }
    }
  }

  lemma {:induction false} LessTrans(a: string, b: string, c: string)
    requires Less(a, b) && Less(b, c)
    ensures Less(a, c)
    decreases |a|
  {
    if a != [] && a[0] == b[0] && b[0] == c[0] {
      LessTrans(a[1..], b[1..], c[1..]);
    }
  }

  class TopCmd {
    const name: string
    var sort: TopCmd?

    constructor (n: string)
      ensures name == n && sort == null
    {
      name, sort := n, null;
    }
  }

  /** Greater than ref; everything is when there is none. */
  predicate Above(name: string, ref: TopCmd?) {
    ref != null ==> Less(ref.name, name)
  }

  /** The command with the least name above ref; null when there is none. */
  ghost predicate IsNext(list: seq<TopCmd>, ref: TopCmd?, next: TopCmd?) {
    if next == null then forall c :: c in list ==> !Above(c.name, ref)
    else next in list && Above(next.name, ref) &&
         forall c :: c in list && Above(c.name, ref) ==> c.name == next.name || Less(next.name, c.name)
  }

  /** _find_next. */
  method FindNext(list: seq<TopCmd>, ref: TopCmd?) returns (min: TopCmd?)
    ensures IsNext(list, ref, min)
  {
    hide Less;
    min := null;
    var i := 0;
    while i < |list|
      invariant 0 <= i <= |list| && IsNext(list[..i], ref, min)
    {
      var was := min;
      if (min == null || Less(list[i].name, min.name)) && (ref == null || Less(ref.name, list[i].name)) {
        min := list[i];
      }
      NextStep(list, i, ref, was, min);
      i := i + 1;
    }
    assert list[..|list|] == list;
  }

  lemma NextStep(list: seq<TopCmd>, i: nat, ref: TopCmd?, was: TopCmd?, min: TopCmd?)
    requires i < |list| && IsNext(list[..i], ref, was)
    requires min == if (was == null || Less(list[i].name, was.name)) && Above(list[i].name, ref) then list[i] else was
    ensures IsNext(list[..i + 1], ref, min)
  {
    assert forall c :: c in list[..i + 1] <==> c in list[..i] || c == list[i];
    if was != null {
      LessTotal(list[i].name, was.name);
      if Less(list[i].name, was.name) && Above(list[i].name, ref) {
        forall c | c in list[..i] && Above(c.name, ref) && c.name != was.name
          ensures Less(min.name, c.name)
        {
          LessTrans(min.name, was.name, c.name);
        }
      }
    }
  }

  ghost predicate DistinctNames(list: seq<TopCmd>) {
    forall i, j :: 0 <= i < j < |list| ==> list[i].name != list[j].name
  }

  lemma SameName(list: seq<TopCmd>, a: TopCmd, b: TopCmd)
    requires DistinctNames(list) && a in list && b in list && a.name == b.name
    ensures a == b
  {
    var i :| 0 <= i < |list| && list[i] == a;
    var j :| 0 <= j < |list| && list[j] == b;
  }

  /** How many of the names are above ref. */
  function CountAbove(list: seq<TopCmd>, ref: TopCmd?): nat {
    if list == [] then 0 else (if Above(list[0].name, ref) then 1 else 0) + CountAbove(list[1..], ref)
  }

  lemma {:induction false} FewerAbove(list: seq<TopCmd>, ref: TopCmd?, next: TopCmd)
    requires Above(next.name, ref)
    ensures CountAbove(list, next) <= CountAbove(list, ref)
    ensures next in list ==> CountAbove(list, next) < CountAbove(list, ref)
    decreases |list|
  {
    hide Less;
    if list != [] {
      FewerAbove(list[1..], ref, next);
      LessTotal(next.name, next.name);
      if Less(next.name, list[0].name) && ref != null {
        LessTrans(ref.name, next.name, list[0].name);
      }
    }
  }

  /** The chain runs from `first` along the sort pointers through exactly these commands. */
  ghost predicate Chained(first: TopCmd?, chain: seq<TopCmd>)
    reads chain
  {
    if chain == [] then first == null
    else first == chain[0] && Linked(chain) && chain[|chain| - 1].sort == null
  }

  ghost predicate Linked(chain: seq<TopCmd>)
    reads chain
  {
    forall i :: 0 <= i < |chain| - 1 ==> LinkedAt(chain, i)
  }

  ghost predicate LinkedAt(chain: seq<TopCmd>, i: nat)
    requires i < |chain| - 1
    reads chain
  {
    chain[i].sort == chain[i + 1]
  }

  /** Strictly ascending, so every command is in the chain at most once. */
  ghost predicate Ascending(chain: seq<TopCmd>) {
    forall i, j :: 0 <= i < j < |chain| ==> Less(chain[i].name, chain[j].name)
  }

  ghost predicate Covers(list: seq<TopCmd>, chain: seq<TopCmd>, ref: TopCmd?) {
    && (forall c :: c in chain ==> c in list)
    && (forall c :: c in list ==> c in chain || Above(c.name, ref))
  }

  lemma CoversMore(list: seq<TopCmd>, chain: seq<TopCmd>, ref: TopCmd?, next: TopCmd)
    requires DistinctNames(list) && Covers(list, chain, ref) && IsNext(list, ref, next)
    ensures Covers(list, chain + [next], next)
  {
    hide Less;
    forall c | c in list
      ensures c in chain + [next] || Above(c.name, next)
    {
      if c !in chain && c.name == next.name {
        SameName(list, c, next);
      }
    }
  }

  lemma AscendsMore(chain: seq<TopCmd>, next: TopCmd)
    requires Ascending(chain) && (chain != [] ==> Above(next.name, chain[|chain| - 1]))
    ensures Ascending(chain + [next])
  {
    hide Less;
    var longer := chain + [next];
    forall i, j | 0 <= i < j < |longer|
      ensures Less(longer[i].name, longer[j].name)
    {
      if j == |chain| && i < |chain| - 1 {
        LessTrans(chain[i].name, chain[|chain| - 1].name, next.name);
      }
    }
  }

  lemma LastOnce(chain: seq<TopCmd>, i: nat)
    requires Ascending(chain) && i < |chain| - 1
    ensures chain[i] != chain[|chain| - 1]
  {
    hide Less;
    assert Less(chain[i].name, chain[|chain| - 1].name);
    LessTotal(chain[i].name, chain[i].name);
  }

  /** The last command of the chain is linked to the next. */
  method LinkNext(ghost chain: seq<TopCmd>, ref: TopCmd, next: TopCmd)
    requires Ascending(chain) && Linked(chain) && chain != [] && chain[|chain| - 1] == ref
    modifies ref
    ensures Linked(chain + [next])
  {
    hide Ascending, Less;
    ref.sort := next;
    forall i | 0 <= i < |chain|
      ensures LinkedAt(chain + [next], i)
    {
      if i < |chain| - 1 {
        LastOnce(chain, i);
        assert old(LinkedAt(chain, i));
      }
    }
  }

  /** The chain ends. */
  method LinkEnd(ghost chain: seq<TopCmd>, ref: TopCmd)
    requires Ascending(chain) && Linked(chain) && chain != [] && chain[|chain| - 1] == ref
    modifies ref
    ensures Chained(chain[0], chain)
  {
    hide Ascending, Less;
    ref.sort := null;
    forall i | 0 <= i < |chain| - 1
      ensures LinkedAt(chain, i)
    {
      LastOnce(chain, i);
      assert old(LinkedAt(chain, i));
    }
  }

  /** _sort: from then on the chain visits every command once, in strictly ascending order of names. */
  method Sort(list: seq<TopCmd>) returns (sorted: TopCmd?, ghost chain: seq<TopCmd>)
    requires DistinctNames(list)
    modifies list
    ensures Chained(sorted, chain) && Ascending(chain)
    ensures forall c :: c in chain <==> c in list
  {
    hide Less, DistinctNames, Linked;
    var ref := FindNext(list, null);
    sorted := ref;
    if ref == null {
      chain := [];
      return;
    }
    chain := [ref];
    CoversMore(list, [], null, ref);
    LinkedAlone(ref);
    assert [] + [ref] == [ref];
    var next := FindNext(list, ref);
    while next != null
      invariant ref != null && IsNext(list, ref, next) && Covers(list, chain, ref) && Ascending(chain) && Linked(chain)
      invariant chain != [] && chain[|chain| - 1] == ref && sorted == chain[0] && ref in list
      decreases CountAbove(list, ref)
    {
      FewerAbove(list, ref, next);
      LinkNext(chain, ref, next);
      CoversMore(list, chain, ref, next);
      AscendsMore(chain, next);
      chain := chain + [next];
      ref := next;
      next := FindNext(list, ref);
    }
    LinkEnd(chain, ref);
  }

  lemma LinkedAlone(c: TopCmd)
    ensures Linked([c])
  {
  }
}
