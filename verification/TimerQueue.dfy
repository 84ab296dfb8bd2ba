/**
 The delta queue of the millisecond timers (delay/src/timerdelay.c), on values.

 One hardware timer serves a list of timers.  Each node stores only how long
 after its predecessor it is due, in a 32-bit field.  `Arm`, `CancelAt` and
 `Pop` are what the source does to the fields, with its 32-bit subtractions
 and additions; `Deadlines` is what the list means.  The lemmas say that every
 operation is the obvious operation on the list of deadlines.
 */
module TimerQueue {

  const TWO32: int := 0x1_0000_0000

  /** Unsigned 32-bit addition and subtraction. */
  function Add32(a: int, b: int): int {
    (a + b) % 0x1_0000_0000
  }

  function Sub32(a: int, b: int): int {
    (a - b) % 0x1_0000_0000
  }

  /** A queued timer and its delay after the timer before it. */
  datatype Node<T> = Node(timer: T, delta: int)

  /** A timer and the moment it is due. */
  datatype Due<T> = Due(timer: T, at: int)

  /** Every field is a 32-bit number. */
  predicate Fits<T>(q: seq<Node<T>>)
    decreases |q|
  {
    q == [] || (0 <= q[0].delta < TWO32 && Fits(q[1..]))
  }

  function Timers<T>(q: seq<Node<T>>): (ts: seq<T>)
    ensures |ts| == |q| && forall i :: 0 <= i < |q| ==> ts[i] == q[i].timer
  {
    seq(|q|, i requires 0 <= i < |q| => q[i].timer)
  }

  // ---------------------------------------------------------------- what the list means

  /** The deadlines of a queue whose head has been counted down since `started`. */
  function Deadlines<T>(q: seq<Node<T>>, started: int): (ds: seq<Due<T>>)
    ensures |ds| == |q|
    decreases |q|
  {
    if q == [] then []
    else [Due(q[0].timer, started + q[0].delta)] + Deadlines(q[1..], started + q[0].delta)
  }

  predicate Sorted<T>(ds: seq<Due<T>>) {
    forall i, j :: 0 <= i < j < |ds| ==> ds[i].at <= ds[j].at
  }

  /** Every deadline is in [from, from + span). */
  predicate Within<T>(ds: seq<Due<T>>, from: int, span: int) {
    forall i :: 0 <= i < |ds| ==> from <= ds[i].at < from + span
  }

  /** Files a deadline after all those not later than it. */
  function InsertDue<T>(ds: seq<Due<T>>, d: Due<T>): (r: seq<Due<T>>)
    ensures |r| == |ds| + 1
  {
    if ds == [] || d.at < ds[0].at then [d] + ds
    else [ds[0]] + InsertDue(ds[1..], d)
  }

  /** How many deadlines a new one is filed behind. */
  function RankOf<T>(ds: seq<Due<T>>, at: int): (k: nat)
    ensures k <= |ds|
  {
    if ds == [] || at < ds[0].at then 0 else 1 + RankOf(ds[1..], at)
  }

  lemma {:induction false} InsertDueAt<T>(ds: seq<Due<T>>, d: Due<T>)
    ensures InsertDue(ds, d) == ds[..RankOf(ds, d.at)] + [d] + ds[RankOf(ds, d.at)..]
  {
    if ds != [] && d.at >= ds[0].at {
      var k := RankOf(ds[1..], d.at);
      InsertDueAt(ds[1..], d);
      assert ds[..k + 1] == [ds[0]] + ds[1..][..k];
      assert ds[k + 1..] == ds[1..][k..];
    }
  }

  lemma {:induction false} RankSplits<T>(ds: seq<Due<T>>, at: int)
    requires Sorted(ds)
    ensures forall i :: 0 <= i < |ds| ==> (i < RankOf(ds, at) <==> ds[i].at <= at)
  {
    if ds != [] && at >= ds[0].at {
      RankSplits(ds[1..], at);
      forall i | 0 <= i < |ds|
        ensures i < RankOf(ds, at) <==> ds[i].at <= at
      {
        if i > 0 {
          assert ds[i] == ds[1..][i - 1];
        }
      }
    }
  }

  /** The others keep their deadlines and their order; equal deadlines keep arming order. */
  lemma InsertDueIsStable<T>(ds: seq<Due<T>>, d: Due<T>) returns (k: nat)
    requires Sorted(ds)
    ensures k <= |ds| && InsertDue(ds, d) == ds[..k] + [d] + ds[k..]
    ensures forall i :: 0 <= i < |ds| ==> (i < k <==> ds[i].at <= d.at)
    ensures Sorted(InsertDue(ds, d))
  {
    k := RankOf(ds, d.at);
    InsertDueAt(ds, d);
    RankSplits(ds, d.at);
    SortedWith(ds, d, k);
  }

  lemma SortedWith<T>(ds: seq<Due<T>>, d: Due<T>, k: nat)
    requires Sorted(ds) && k <= |ds| && forall i :: 0 <= i < |ds| ==> (i < k <==> ds[i].at <= d.at)
    ensures Sorted(ds[..k] + [d] + ds[k..])
  {
    var r := ds[..k] + [d] + ds[k..];
    forall i, j | 0 <= i < j < |r|
      ensures r[i].at <= r[j].at
    {
      assert r[i] == if i < k then ds[i] else if i == k then d else ds[i - 1];
      assert r[j] == if j < k then ds[j] else if j == k then d else ds[j - 1];
    }
  }

  lemma {:induction false} InsertDueWithin<T>(ds: seq<Due<T>>, d: Due<T>, from: int, span: int)
    requires Within(ds, from, span) && from <= d.at < from + span
    ensures Within(InsertDue(ds, d), from, span)
  {
    if ds != [] && d.at >= ds[0].at {
      InsertDueWithin(ds[1..], d, from, span);
    }
  }

  /** Deadlines of a fitting queue never decrease along it, and none precedes the count. */
  lemma {:induction false} DeadlinesSorted<T>(q: seq<Node<T>>, started: int)
    requires Fits(q)
    ensures Sorted(Deadlines(q, started))
    ensures forall i :: 0 <= i < |q| ==> started <= Deadlines(q, started)[i].at
    decreases |q|
  {
    if q != [] {
      assert Fits(q[1..]);
      DeadlinesSorted(q[1..], started + q[0].delta);
    }
  }

  lemma DeadlinesCons<T>(x: Node<T>, q: seq<Node<T>>, started: int)
    ensures Deadlines([x] + q, started) == [Due(x.timer, started + x.delta)] + Deadlines(q, started + x.delta)
  {
    assert ([x] + q)[1..] == q;
  }

  // ---------------------------------------------------------------- arming

  /** The walk past the head: `rest` follows the node reached, `ticks` is left over. */
  function Place<T>(rest: seq<Node<T>>, timer: T, ticks: int): seq<Node<T>>
    decreases |rest|
  {
    if rest == [] then [Node(timer, ticks)]
    else if ticks < rest[0].delta then
      [Node(timer, ticks), rest[0].(delta := Sub32(rest[0].delta, ticks))] + rest[1..]
    else [rest[0]] + Place(rest[1..], timer, Sub32(ticks, rest[0].delta))
  }

  /** The new timer is due before the present head. */
  predicate GoesFirst<T>(q: seq<Node<T>>, ticks: int, done: int) {
    q == [] || Sub32(q[0].delta, done) > ticks
  }

  /** The queue after arming; `done` ticks of the head's delay have been counted. */
  function Arm<T>(q: seq<Node<T>>, timer: T, ticks: int, done: int): seq<Node<T>> {
    if q == [] then [Node(timer, ticks)]
    else if GoesFirst(q, ticks, done) then
      [Node(timer, ticks), q[0].(delta := Sub32(q[0].delta, Add32(ticks, done)))] + q[1..]
    else [q[0]] + Place(q[1..], timer, Sub32(Add32(ticks, done), q[0].delta))
  }

  lemma FitsCons<T>(x: Node<T>, q: seq<Node<T>>)
    requires 0 <= x.delta < TWO32 && Fits(q)
    ensures Fits([x] + q)
  {
    assert ([x] + q)[1..] == q;
  }

  lemma {:induction false} FitsFrom<T>(q: seq<Node<T>>, n: nat)
    requires Fits(q) && n <= |q|
    ensures Fits(q[n..])
    decreases n
  {
    if n > 0 {
      FitsFrom(q[1..], n - 1);
      assert q[n..] == q[1..][n - 1..];
    } else {
      assert q[0..] == q;
    }
  }

  lemma NoWrap(a: int)
    requires 0 <= a < TWO32
    ensures a % 0x1_0000_0000 == a
  {
  }

  /** Filing past the first node. */
  lemma PastFirst<T>(x: Node<T>, q: seq<Node<T>>, q': seq<Node<T>>, d: Due<T>, started: int)
    requires started + x.delta <= d.at
    requires Deadlines(q', started + x.delta) == InsertDue(Deadlines(q, started + x.delta), d)
    ensures Deadlines([x] + q', started) == InsertDue(Deadlines([x] + q, started), d)
  {
    DeadlinesCons(x, q, started);
    DeadlinesCons(x, q', started);
  }

  /** Filing before the first node, which then waits that much less. */
  lemma BeforeFirst<T>(x: Node<T>, q: seq<Node<T>>, timer: T, ticks: int, started: int)
    requires 0 <= ticks < x.delta < TWO32 && Fits(q)
    ensures Fits([Node(timer, ticks), x.(delta := x.delta - ticks)] + q)
    ensures Deadlines([Node(timer, ticks), x.(delta := x.delta - ticks)] + q, started) ==
            InsertDue(Deadlines([x] + q, started), Due(timer, started + ticks))
  {
    var y := x.(delta := x.delta - ticks);
    DeadlinesCons(x, q, started);
    DeadlinesCons(y, q, started + ticks);
    DeadlinesCons(Node(timer, ticks), [y] + q, started);
    FitsCons(y, q);
    FitsCons(Node(timer, ticks), [y] + q);
    assert [Node(timer, ticks), y] + q == [Node(timer, ticks)] + ([y] + q);
  }

  lemma PlaceBefore<T>(x: Node<T>, q: seq<Node<T>>, timer: T, ticks: int)
    requires 0 <= ticks < x.delta < TWO32
    ensures Place([x] + q, timer, ticks) == [Node(timer, ticks), x.(delta := x.delta - ticks)] + q
  {
    NoWrap(x.delta - ticks);
    assert ([x] + q)[1..] == q;
  }

  lemma PlacePast<T>(x: Node<T>, q: seq<Node<T>>, timer: T, ticks: int)
    requires 0 <= x.delta <= ticks < TWO32
    ensures Place([x] + q, timer, ticks) == [x] + Place(q, timer, ticks - x.delta)
  {
    NoWrap(ticks - x.delta);
    assert ([x] + q)[1..] == q;
  }

  lemma {:induction false} PlaceRefines<T>(rest: seq<Node<T>>, timer: T, ticks: int, from: int)
    requires Fits(rest) && 0 <= ticks < TWO32
    ensures Fits(Place(rest, timer, ticks))
    ensures Deadlines(Place(rest, timer, ticks), from) ==
            InsertDue(Deadlines(rest, from), Due(timer, from + ticks))
    decreases |rest|
  {
    if rest == [] {
    } else {
      var x, q := rest[0], rest[1..];
      assert rest == [x] + q;
      if ticks < x.delta {
        PlaceBefore(x, q, timer, ticks);
        BeforeFirst(x, q, timer, ticks, from);
      } else {
        PlacePast(x, q, timer, ticks);
        PlaceRefines(q, timer, ticks - x.delta, from + x.delta);
        FitsCons(x, Place(q, timer, ticks - x.delta));
        PastFirst(x, q, Place(q, timer, ticks - x.delta), Due(timer, from + ticks), from);
      }
    }
  }

  /** Counting some of the head's delay moves no deadline. */
  lemma Recount<T>(x: Node<T>, q: seq<Node<T>>, started: int, done: int)
    ensures Deadlines([x.(delta := x.delta - done)] + q, started + done) == Deadlines([x] + q, started)
  {
    DeadlinesCons(x, q, started);
    DeadlinesCons(x.(delta := x.delta - done), q, started + done);
  }

  lemma ArmFirst<T>(x: Node<T>, q: seq<Node<T>>, timer: T, ticks: int, started: int, done: int)
    requires 0 <= x.delta < TWO32 && 0 <= ticks && 0 <= done && ticks + done < x.delta
    ensures Arm([x] + q, timer, ticks, done) == [Node(timer, ticks), x.(delta := x.delta - done - ticks)] + q
    ensures GoesFirst([x] + q, ticks, done)
  {
    NoWrap(x.delta - done);
    NoWrap(ticks + done);
    NoWrap(x.delta - done - ticks);
    assert ([x] + q)[1..] == q;
  }

  /** Past the head the two 32-bit wraps, if any, cancel out. */
  lemma ArmLater<T>(x: Node<T>, q: seq<Node<T>>, timer: T, ticks: int, started: int, done: int)
    requires 0 <= x.delta < TWO32 && 0 <= ticks < TWO32 && 0 <= done <= x.delta <= ticks + done
    ensures Arm([x] + q, timer, ticks, done) == [x] + Place(q, timer, ticks + done - x.delta)
    ensures !GoesFirst([x] + q, ticks, done) && 0 <= ticks + done - x.delta < TWO32
  {
    NoWrap(x.delta - done);
    assert Sub32(Add32(ticks, done), x.delta) == ticks + done - x.delta;
    assert ([x] + q)[1..] == q;
  }

  /**
   Arming at any moment of the head's countdown files the new deadline, exactly
   `ticks` after that moment, and changes no other; no field wraps round.
   */
  lemma ArmRefines<T>(q: seq<Node<T>>, timer: T, ticks: int, started: int, done: int)
    requires Fits(q) && 0 <= ticks < TWO32 && 0 <= done && (q != [] ==> done <= q[0].delta)
    ensures Fits(Arm(q, timer, ticks, done))
    ensures Deadlines(Arm(q, timer, ticks, done), if GoesFirst(q, ticks, done) then started + done else started) ==
            InsertDue(Deadlines(q, started), Due(timer, started + done + ticks))
  {
    if q != [] {
      assert q == [q[0]] + q[1..];
      if ticks + done < q[0].delta {
        ArmFirstRefines(q[0], q[1..], timer, ticks, started, done);
      } else {
        ArmLaterRefines(q[0], q[1..], timer, ticks, started, done);
      }
    }
  }

  lemma ArmFirstRefines<T>(x: Node<T>, q: seq<Node<T>>, timer: T, ticks: int, started: int, done: int)
    requires 0 <= x.delta < TWO32 && Fits(q) && 0 <= ticks && 0 <= done && ticks + done < x.delta
    ensures GoesFirst([x] + q, ticks, done) && Fits(Arm([x] + q, timer, ticks, done))
    ensures Deadlines(Arm([x] + q, timer, ticks, done), started + done) ==
            InsertDue(Deadlines([x] + q, started), Due(timer, started + done + ticks))
  {
    ArmFirst(x, q, timer, ticks, started, done);
    Recount(x, q, started, done);
    BeforeFirst(x.(delta := x.delta - done), q, timer, ticks, started + done);
  }

  lemma ArmLaterRefines<T>(x: Node<T>, q: seq<Node<T>>, timer: T, ticks: int, started: int, done: int)
    requires 0 <= x.delta < TWO32 && Fits(q) && 0 <= ticks < TWO32 && 0 <= done <= x.delta <= ticks + done
    ensures !GoesFirst([x] + q, ticks, done) && Fits(Arm([x] + q, timer, ticks, done))
    ensures Deadlines(Arm([x] + q, timer, ticks, done), started) ==
            InsertDue(Deadlines([x] + q, started), Due(timer, started + done + ticks))
  {
    var left := ticks + done - x.delta;
    ArmLater(x, q, timer, ticks, started, done);
    PlaceRefines(q, timer, left, started + x.delta);
    FitsCons(x, Place(q, timer, left));
    PastFirst(x, q, Place(q, timer, left), Due(timer, started + done + ticks), started);
  }

  // ---------------------------------------------------------------- cancelling

  function Without<A>(s: seq<A>, i: nat): seq<A>
    requires i < |s|
  {
    s[..i] + s[i + 1..]
  }

  /** Takes out node i, giving its delay to the node behind it. */
  function TakeOut<T>(q: seq<Node<T>>, i: nat): (r: seq<Node<T>>)
    requires i < |q|
    ensures |r| == |q| - 1
    decreases i
  {
    if i > 0 then [q[0]] + TakeOut(q[1..], i - 1)
    else if |q| == 1 then []
    else [q[1].(delta := Add32(q[1].delta, q[0].delta))] + q[2..]
  }

  /** The head is about to expire: leave it to the expiry. */
  predicate TooLate<T>(q: seq<Node<T>>, i: nat, done: int) {
    i == 0 && q != [] && Sub32(q[0].delta, done) <= 1
  }

  /** The queue after a request to cancel node i, with `done` ticks counted. */
  function CancelAt<T>(q: seq<Node<T>>, i: nat, done: int): (r: seq<Node<T>>)
    requires i < |q|
  {
    if TooLate(q, i, done) then q
    else if i == 0 then TakeOut(q[0 := q[0].(delta := Sub32(q[0].delta, done))], 0)
    else TakeOut(q, i)
  }

  lemma WithoutCons<A>(x: A, s: seq<A>, i: nat)
    requires 0 < i <= |s|
    ensures Without([x] + s, i) == [x] + Without(s, i - 1)
  {
  }

  lemma TailWithin<T>(q: seq<Node<T>>, started: int, from: int)
    requires q != [] && Fits(q) && Within(Deadlines(q, started), from, TWO32) && from <= started + q[0].delta
    ensures Within(Deadlines(q[1..], started + q[0].delta), started + q[0].delta, TWO32)
  {
    var rest := Deadlines(q[1..], started + q[0].delta);
    DeadlinesSorted(q[1..], started + q[0].delta);
    assert forall k :: 0 <= k < |rest| ==> rest[k] == Deadlines(q, started)[k + 1];
  }

  lemma WithoutFirst<A>(s: seq<A>)
    requires s != []
    ensures Without(s, 0) == s[1..]
  {
  }

  /** The head of a list of two or more, and its follower. */
  lemma SecondDue<T>(q: seq<Node<T>>, started: int)
    requires |q| > 1
    ensures q[1..] == [q[1]] + q[2..]
    ensures Deadlines(q, started)[1].at == started + q[0].delta + q[1].delta
  {
  }

  lemma TakeOutHead<T>(q: seq<Node<T>>, started: int)
    requires q != [] && Fits(q) && Within(Deadlines(q, started), started, TWO32)
    ensures Fits(TakeOut(q, 0))
    ensures Deadlines(TakeOut(q, 0), started) == Deadlines(q[1..], started + q[0].delta)
    ensures Deadlines(TakeOut(q, 0), started) == Without(Deadlines(q, started), 0)
  {
    WithoutFirst(Deadlines(q, started));
    assert Deadlines(q, started)[1..] == Deadlines(q[1..], started + q[0].delta);
    if |q| > 1 {
      SecondDue(q, started);
      FitsFrom(q, 1);
      FitsFrom(q, 2);
      hide Deadlines, Without;
      HandOver(q[1], q[2..], q[0].delta, started);
    }
  }

  /** A node that takes over its predecessor's delay keeps its deadline. */
  lemma HandOver<T>(x: Node<T>, q: seq<Node<T>>, delta: int, started: int)
    requires 0 <= delta && 0 <= x.delta && delta + x.delta < TWO32 && Fits(q)
    ensures Fits([x.(delta := Add32(x.delta, delta))] + q)
    ensures Deadlines([x.(delta := Add32(x.delta, delta))] + q, started) == Deadlines([x] + q, started + delta)
  {
    NoWrap(x.delta + delta);
    FitsCons(x.(delta := x.delta + delta), q);
    Recount(x, q, started + delta, -delta);
  }

  lemma {:induction false} TakeOutRefines<T>(q: seq<Node<T>>, i: nat, started: int)
    requires i < |q| && Fits(q) && Within(Deadlines(q, started), started, TWO32)
    ensures Fits(TakeOut(q, i))
    ensures Deadlines(TakeOut(q, i), started) == Without(Deadlines(q, started), i)
    decreases i
  {
    if i == 0 {
      TakeOutHead(q, started);
    } else {
      TailWithin(q, started, started);
      TakeOutRefines(q[1..], i - 1, started + q[0].delta);
      TakeOutCons(q, i, started);
    }
  }

  lemma TakeOutCons<T>(q: seq<Node<T>>, i: nat, started: int)
    requires 0 < i < |q| && Fits(q) && Fits(TakeOut(q[1..], i - 1))
    requires Deadlines(TakeOut(q[1..], i - 1), started + q[0].delta) ==
             Without(Deadlines(q[1..], started + q[0].delta), i - 1)
    ensures Fits(TakeOut(q, i))
    ensures Deadlines(TakeOut(q, i), started) == Without(Deadlines(q, started), i)
  {
    DeadlinesCons(q[0], TakeOut(q[1..], i - 1), started);
    WithoutCons(Due(q[0].timer, started + q[0].delta), Deadlines(q[1..], started + q[0].delta), i);
  }

  lemma {:induction false} TakeOutTimers<T>(q: seq<Node<T>>, i: nat)
    requires i < |q|
    ensures Timers(TakeOut(q, i)) == Without(Timers(q), i)
    decreases i
  {
    if i > 0 {
      TakeOutTimers(q[1..], i - 1);
      assert Timers(TakeOut(q, i))[1..] == Timers(TakeOut(q[1..], i - 1));
      assert Timers(q)[1..] == Timers(q[1..]);
    }
  }

  /** Cancelling takes out one deadline and changes no other. */
  lemma CancelRefines<T>(q: seq<Node<T>>, i: nat, started: int, done: int)
    requires i < |q| && Fits(q) && 0 <= done <= q[0].delta
    requires Within(Deadlines(q, started), started + done, TWO32)
    ensures Fits(CancelAt(q, i, done))
    ensures !TooLate(q, i, done) ==>
              Deadlines(CancelAt(q, i, done), if i == 0 then started + done else started) ==
              Without(Deadlines(q, started), i)
  {
    hide Deadlines, TakeOut, Without, Fits, Within;
    if i == 0 {
      if !TooLate(q, 0, done) {
        CancelHeadRefines(q, started, done);
      }
    } else {
      CancelTailRefines(q, i, started, done);
    }
  }

  lemma CancelTailRefines<T>(q: seq<Node<T>>, i: nat, started: int, done: int)
    requires 0 < i < |q| && Fits(q) && 0 <= done <= q[0].delta && Within(Deadlines(q, started), started + done, TWO32)
    ensures Fits(TakeOut(q, i)) && Deadlines(TakeOut(q, i), started) == Without(Deadlines(q, started), i)
  {
    FitsFrom(q, 1);
    TailWithin(q, started, started + done);
    hide Deadlines, TakeOut, Without, Fits, Within;
    TakeOutRefines(q[1..], i - 1, started + q[0].delta);
    TakeOutCons(q, i, started);
  }

  /** The head, with the ticks already counted taken off first. */
  lemma CancelHeadIs<T>(x: Node<T>, rest: seq<Node<T>>, done: int)
    requires 0 <= done <= x.delta < TWO32 && !TooLate([x] + rest, 0, done)
    ensures CancelAt([x] + rest, 0, done) == TakeOut([x.(delta := x.delta - done)] + rest, 0)
  {
    NoWrap(x.delta - done);
    assert ([x] + rest)[0 := x.(delta := x.delta - done)] == [x.(delta := x.delta - done)] + rest;
  }

  lemma TakeOutFirst<T>(y: Node<T>, rest: seq<Node<T>>, started: int)
    requires Fits([y] + rest) && Within(Deadlines([y] + rest, started), started, TWO32)
    ensures Fits(TakeOut([y] + rest, 0))
    ensures Deadlines(TakeOut([y] + rest, 0), started) == Without(Deadlines([y] + rest, started), 0)
  {
    hide Deadlines, TakeOut, Without, Fits, Within;
    TakeOutHead([y] + rest, started);
  }

  lemma CancelHeadCons<T>(x: Node<T>, rest: seq<Node<T>>, started: int, done: int)
    requires 0 <= done <= x.delta < TWO32 && Fits(rest) && !TooLate([x] + rest, 0, done)
    requires Within(Deadlines([x] + rest, started), started + done, TWO32)
    ensures Fits(CancelAt([x] + rest, 0, done))
    ensures Deadlines(CancelAt([x] + rest, 0, done), started + done) == Without(Deadlines([x] + rest, started), 0)
  {
    var y := x.(delta := x.delta - done);
    FitsCons(y, rest);
    hide Deadlines, TakeOut, Without, CancelAt, TooLate, Fits, Within;
    CancelHeadIs(x, rest, done);
    Recount(x, rest, started, done);
    TakeOutFirst(y, rest, started + done);
  }

  lemma CancelHeadRefines<T>(q: seq<Node<T>>, started: int, done: int)
    requires q != [] && Fits(q) && 0 <= done <= q[0].delta && !TooLate(q, 0, done)
    requires Within(Deadlines(q, started), started + done, TWO32)
    ensures Fits(CancelAt(q, 0, done))
    ensures Deadlines(CancelAt(q, 0, done), started + done) == Without(Deadlines(q, started), 0)
  {
    FitsFrom(q, 1);
    hide Deadlines, TakeOut, Without, CancelAt, TooLate, Within;
    assert q == [q[0]] + q[1..];
    CancelHeadCons(q[0], q[1..], started, done);
  }

  // ---------------------------------------------------------------- expiry

  /** How many nodes behind an expired head are within `budget` more ticks. */
  function Coalesce<T>(q: seq<Node<T>>, budget: nat): (k: nat)
    ensures k <= |q|
    decreases |q|
  {
    if q == [] || q[0].delta > budget || q[0].delta < 0 then 0
    else 1 + Coalesce(q[1..], budget - q[0].delta)
  }

  /** Sum of the delays. */
  function Total<T>(q: seq<Node<T>>): int
    decreases |q|
  {
    if q == [] then 0 else q[0].delta + Total(q[1..])
  }

  const WINDOW: nat := 3

  lemma {:induction false} DeadlinesFrom<T>(q: seq<Node<T>>, started: int, k: nat)
    requires k <= |q|
    ensures Deadlines(q[k..], started + Total(q[..k])) == Deadlines(q, started)[k..]
    decreases k
  {
    if k > 0 {
      DeadlinesFrom(q[1..], started + q[0].delta, k - 1);
      assert q[..k][1..] == q[1..][..k - 1] && q[1..][k - 1..] == q[k..];
      assert Deadlines(q, started)[1..] == Deadlines(q[1..], started + q[0].delta);
      assert Deadlines(q, started)[k..] == Deadlines(q, started)[1..][k - 1..];
    } else {
      assert q[..0] == [] && q[0..] == q;
    }
  }

  /** Exactly the deadlines in the window are coalesced, and they fit the budget. */
  lemma {:induction false} CoalesceIsWindow<T>(q: seq<Node<T>>, now: int, budget: nat)
    requires Fits(q)
    ensures var k := Coalesce(q, budget);
            forall i :: 0 <= i < |q| ==> (i < k <==> Deadlines(q, now)[i].at <= now + budget)
    ensures 0 <= Total(q[..Coalesce(q, budget)]) <= budget
    ensures Coalesce(q, budget) > 0 ==>
              Deadlines(q, now)[Coalesce(q, budget) - 1].at == now + Total(q[..Coalesce(q, budget)])
    decreases |q|
  {
    var k := Coalesce(q, budget);
    if q == [] {
    } else if k == 0 {
      DeadlinesSorted(q, now);
      assert Deadlines(q, now)[0].at == now + q[0].delta;
      assert q[..0] == [];
    } else {
      var rest := Deadlines(q[1..], now + q[0].delta);
      FitsFrom(q, 1);
      TotalFirst(q, k);
      FirstDue(q, now);
      CoalesceIsWindow(q[1..], now + q[0].delta, budget - q[0].delta);
      hide Deadlines, Total, Fits;
      forall i | 0 <= i < |q|
        ensures i < k <==> Deadlines(q, now)[i].at <= now + budget
      {
        if i > 0 {
          assert Deadlines(q, now)[i] == rest[i - 1];
        }
      }
    }
  }

  lemma TotalFirst<T>(q: seq<Node<T>>, k: nat)
    requires 0 < k <= |q|
    ensures Total(q[..k]) == q[0].delta + Total(q[1..][..k - 1])
  {
    assert q[..k][1..] == q[1..][..k - 1];
  }

  lemma FirstDue<T>(q: seq<Node<T>>, now: int)
    requires q != []
    ensures Deadlines(q, now) == [Due(q[0].timer, now + q[0].delta)] + Deadlines(q[1..], now + q[0].delta)
  {
  }
}
