/**
 What the delay manager promises over every run (delay/src/delay_mgr.c): nobody is
 told early, whoever is due is told at the next timeout, one-shots are told
 successfully once and leave, repeating ones stay, and the order is kept.
 */
module DelayPromises {
  import opened SeqFacts
  import opened DelayTable
  import opened DelayRuns

  /** What remains agrees with when it is due; a one-shot in the table has not been told. */
  predicate GoodOne(t: Tracked, last: int) {
    && 0 < t.sub.requested && 0 <= t.sub.remaining
    && (if t.sub.remaining > 0 then t.due == last + t.sub.remaining else t.due <= last)
    && (!t.sub.repeating ==> t.told == 0)
  }

  predicate Good(ts: seq<Tracked>, last: int) {
    ts == [] || (GoodOne(ts[0], last) && Good(ts[1..], last))
  }

  /** The table is in the order of registration. */
  predicate Ascending(ts: seq<Tracked>, lo: int, hi: int) {
    ts == [] || (lo <= ts[0].id < hi && Ascending(ts[1..], ts[0].id + 1, hi))
  }

  /** Those that left by firing were one-shots, told successfully once. */
  predicate FiredOnce(ts: seq<Tracked>) {
    ts == [] || (!ts[0].sub.repeating && ts[0].told == 1 && FiredOnce(ts[1..]))
  }

  predicate DroppedBefore(ts: seq<Tracked>) {
    ts == [] || ((!ts[0].sub.repeating ==> ts[0].told == 0) && DroppedBefore(ts[1..]))
  }

  /** Nobody is told before the ticks asked for have passed. */
  predicate NeverEarly(log: seq<Sent>) {
    log == [] || (log[0].due <= log[0].at && NeverEarly(log[1..]))
  }

  /** Successful notices to registration number id. */
  function OkCount(log: seq<Sent>, id: int): nat {
    if log == [] then 0 else (if log[0].id == id && log[0].notice.ok then 1 else 0) + OkCount(log[1..], id)
  }

  /** `told` counts the successful notices in the log. */
  predicate Truth(ts: seq<Tracked>, log: seq<Sent>) {
    ts == [] || (ts[0].told == OkCount(log, ts[0].id) && Truth(ts[1..], log))
  }

  function IdList(ts: seq<Tracked>): (ids: seq<int>) {
    if ts == [] then [] else [ts[0].id] + IdList(ts[1..])
  }

  function Ids(ts: seq<Tracked>): multiset<int> {
    multiset(IdList(ts))
  }

  function Upto(n: nat): multiset<int> {
    if n == 0 then multiset{} else Upto(n - 1) + multiset{n - 1}
  }

  /** Every registration is in the table, has fired, or was unregistered; one of the three. */
  predicate Placed(w: World) {
    Ids(w.table) + Ids(w.fired) + Ids(w.dropped) == Upto(w.next)
  }

  predicate Inv(w: World) {
    && Good(w.table, w.last) && Ascending(w.table, 0, w.next)
    && FiredOnce(w.fired) && DroppedBefore(w.dropped) && NeverEarly(w.log) && Placed(w)
    && Truth(w.table, w.log) && Truth(w.fired, w.log) && Truth(w.dropped, w.log)
  }

  // ---- Ageing. ----

  lemma {:induction false} AgedGood(ts: seq<Tracked>, last: int, now: int)
    requires Good(ts, last) && last <= now
    ensures Good(AllAgedT(ts, now - last), now)
    decreases |ts|
  {
    if ts != [] {
      AgedGood(ts[1..], last, now);
    }
  }

  lemma {:induction false} AgedSame(ts: seq<Tracked>, elapsed: int, lo: int, hi: int, log: seq<Sent>)
    requires Ascending(ts, lo, hi) && Truth(ts, log)
    ensures Ascending(AllAgedT(ts, elapsed), lo, hi) && Truth(AllAgedT(ts, elapsed), log)
    ensures IdList(AllAgedT(ts, elapsed)) == IdList(ts) && Ids(AllAgedT(ts, elapsed)) == Ids(ts)
    decreases |ts|
  {
    if ts != [] {
      AgedSame(ts[1..], elapsed, ts[0].id + 1, hi, log);
    }
  }

  // ---- Lists put together. ----

  lemma {:induction false} IdListJoins(a: seq<Tracked>, b: seq<Tracked>)
    ensures IdList(a + b) == IdList(a) + IdList(b)
  {
    if a == [] {
      assert a + b == b;
    } else {
      IdListJoins(a[1..], b);
      TailOfJoin(a, b);
      JoinInThree([a[0].id], IdList(a[1..]), IdList(b));
    }
  }

  lemma IdsJoin(a: seq<Tracked>, b: seq<Tracked>)
    ensures Ids(a + b) == Ids(a) + Ids(b)
  {
    IdListJoins(a, b);
  }

  lemma FourSums(a: multiset<int>, b: multiset<int>, c: multiset<int>, d: multiset<int>)
    ensures (a + b) + (c + d) == (a + c) + (b + d)
  {
  }

  lemma {:induction false} GoodJoins(a: seq<Tracked>, b: seq<Tracked>, last: int)
    requires Good(a, last) && Good(b, last)
    ensures Good(a + b, last)
  {
    if a == [] {
      assert a + b == b;
    } else {
      GoodJoins(a[1..], b, last);
      assert (a + b)[1..] == a[1..] + b;
    }
  }

  lemma {:induction false} FiredJoins(a: seq<Tracked>, b: seq<Tracked>)
    requires FiredOnce(a) && FiredOnce(b)
    ensures FiredOnce(a + b)
  {
    if a == [] {
      assert a + b == b;
    } else {
      FiredJoins(a[1..], b);
      assert (a + b)[1..] == a[1..] + b;
    }
  }

  lemma {:induction false} DroppedJoins(a: seq<Tracked>, b: seq<Tracked>)
    requires DroppedBefore(a) && DroppedBefore(b)
    ensures DroppedBefore(a + b)
  {
    if a == [] {
      assert a + b == b;
    } else {
      DroppedJoins(a[1..], b);
      assert (a + b)[1..] == a[1..] + b;
    }
  }

  lemma {:induction false} TruthJoins(a: seq<Tracked>, b: seq<Tracked>, log: seq<Sent>)
    ensures Truth(a + b, log) <==> Truth(a, log) && Truth(b, log)
  {
    if a == [] {
      assert a + b == b;
    } else {
      TruthJoins(a[1..], b, log);
      assert (a + b)[1..] == a[1..] + b;
    }
  }

  lemma {:induction false} NeverEarlyJoins(a: seq<Sent>, b: seq<Sent>)
    requires NeverEarly(a) && NeverEarly(b)
    ensures NeverEarly(a + b)
  {
    if a == [] {
      assert a + b == b;
    } else {
      NeverEarlyJoins(a[1..], b);
      assert (a + b)[1..] == a[1..] + b;
    }
  }

  lemma {:induction false} OkCountJoins(a: seq<Sent>, b: seq<Sent>, id: int)
    ensures OkCount(a + b, id) == OkCount(a, id) + OkCount(b, id)
  {
    if a == [] {
      assert a + b == b;
    } else {
      OkCountJoins(a[1..], b, id);
      assert (a + b)[1..] == a[1..] + b;
    }
  }

  // ---- The loops of a timeout. ----

  lemma OneGood(t: Tracked, now: int, ok: bool)
    requires GoodOne(t, now)
    ensures Good(KeptOne(t, now, ok), now) && FiredOnce(FiredOne(t, now, ok)) && NeverEarly(LogOne(t, now, ok))
  {
    var told := Told(t, now, ok);
    assert [told][1..] == [] && [t][1..] == [];
    assert t.sub.remaining == 0 ==> LogOne(t, now, ok)[1..] == [];
  }

  lemma {:induction false} KeptGood(ts: seq<Tracked>, now: int, oks: seq<bool>)
    requires |ts| <= |oks| && Good(ts, now)
    ensures Good(Kept(ts, now, oks), now) && FiredOnce(Fired(ts, now, oks)) && NeverEarly(Log(ts, now, oks))
    decreases |ts|
  {
    if ts != [] {
      KeptGood(ts[1..], now, oks[1..]);
      OneGood(ts[0], now, oks[0]);
      hide KeptOne, FiredOne, LogOne, GoodOne, Ids;
      GoodJoins(KeptOne(ts[0], now, oks[0]), Kept(ts[1..], now, oks[1..]), now);
      FiredJoins(FiredOne(ts[0], now, oks[0]), Fired(ts[1..], now, oks[1..]));
      NeverEarlyJoins(LogOne(ts[0], now, oks[0]), Log(ts[1..], now, oks[1..]));
    }
  }

  lemma OneId(t: Tracked, now: int, ok: bool)
    ensures Ids(KeptOne(t, now, ok)) + Ids(FiredOne(t, now, ok)) == multiset{t.id}
  {
    var told := Told(t, now, ok);
    assert [told][1..] == [] && [t][1..] == [];
  }

  lemma {:induction false} KeptIds(ts: seq<Tracked>, now: int, oks: seq<bool>)
    requires |ts| <= |oks|
    ensures Ids(Kept(ts, now, oks)) + Ids(Fired(ts, now, oks)) == Ids(ts)
    decreases |ts|
  {
    if ts != [] {
      KeptIds(ts[1..], now, oks[1..]);
      OneId(ts[0], now, oks[0]);
      hide KeptOne, FiredOne;
      var k, f := KeptOne(ts[0], now, oks[0]), FiredOne(ts[0], now, oks[0]);
      IdsJoin(k, Kept(ts[1..], now, oks[1..]));
      IdsJoin(f, Fired(ts[1..], now, oks[1..]));
      FourSums(Ids(k), Ids(Kept(ts[1..], now, oks[1..])), Ids(f), Ids(Fired(ts[1..], now, oks[1..])));
    }
  }

  lemma {:induction false} AscendingFrom(ts: seq<Tracked>, lo: int, lo2: int, hi: int)
    requires Ascending(ts, lo, hi) && lo2 <= lo
    ensures Ascending(ts, lo2, hi)
  {
  }

  lemma {:induction false} KeptAscends(ts: seq<Tracked>, now: int, oks: seq<bool>, lo: int, hi: int)
    requires |ts| <= |oks| && Ascending(ts, lo, hi)
    ensures Ascending(Kept(ts, now, oks), lo, hi)
    decreases |ts|
  {
    if ts != [] {
      var rest := Kept(ts[1..], now, oks[1..]);
      KeptAscends(ts[1..], now, oks[1..], ts[0].id + 1, hi);
      if Leaves(ts[0], oks[0]) {
        assert [] + rest == rest;
        AscendingFrom(rest, ts[0].id + 1, lo, hi);
      } else {
        assert (KeptOne(ts[0], now, oks[0]) + rest)[1..] == rest;
      }
    }
  }

  // ---- The log and the counts. ----

  lemma OwnCount(t: Tracked, now: int, ok: bool, id: int)
    ensures OkCount(LogOne(t, now, ok), id) == if id == t.id && t.sub.remaining == 0 && ok then 1 else 0
  {
    if t.sub.remaining == 0 {
      assert LogOne(t, now, ok)[1..] == [];
    }
  }

  lemma {:induction false} NotInLog(ts: seq<Tracked>, now: int, oks: seq<bool>, id: int)
    requires |ts| <= |oks| && id !in IdList(ts)
    ensures OkCount(Log(ts, now, oks), id) == 0
    decreases |ts|
  {
    if ts != [] {
      NotInLog(ts[1..], now, oks[1..], id);
      OwnCount(ts[0], now, oks[0], id);
      OkCountJoins(LogOne(ts[0], now, oks[0]), Log(ts[1..], now, oks[1..]), id);
    }
  }

  /** Notices to others do not change a count. */
  lemma {:induction false} TruthGrows(ts: seq<Tracked>, log: seq<Sent>, more: seq<Sent>)
    requires Truth(ts, log) && forall id :: id in IdList(ts) ==> OkCount(more, id) == 0
    ensures Truth(ts, log + more)
    decreases |ts|
  {
    if ts != [] {
      OkCountJoins(log, more, ts[0].id);
      TruthGrows(ts[1..], log, more);
    }
  }

  lemma {:induction false} IdsAscend(ts: seq<Tracked>, lo: int, hi: int)
    requires Ascending(ts, lo, hi)
    ensures forall id :: id in IdList(ts) ==> lo <= id < hi
    decreases |ts|
  {
    if ts != [] {
      IdsAscend(ts[1..], ts[0].id + 1, hi);
    }
  }

  /** Each subscription's count in the log after the loop. */
  predicate Counted(ts: seq<Tracked>, oks: seq<bool>, log: seq<Sent>)
    requires |ts| <= |oks|
  {
    ts == [] ||
    (OkCount(log, ts[0].id) == ts[0].told + (if ts[0].sub.remaining == 0 && oks[0] then 1 else 0)
     && Counted(ts[1..], oks[1..], log))
  }

  /** The head's notice does not count for the others ... */
  lemma OthersUntold(ts: seq<Tracked>, now: int, oks: seq<bool>, log: seq<Sent>, lo: int, hi: int)
    requires 0 < |ts| <= |oks| && Truth(ts, log) && Ascending(ts, lo, hi)
    ensures Truth(ts[1..], log + LogOne(ts[0], now, oks[0]))
  {
    hide OkCount, LogOne;
    IdsAscend(ts[1..], ts[0].id + 1, hi);
    forall id | id in IdList(ts[1..])
      ensures OkCount(LogOne(ts[0], now, oks[0]), id) == 0
    {
      OwnCount(ts[0], now, oks[0], id);
    }
    TruthGrows(ts[1..], log, LogOne(ts[0], now, oks[0]));
  }

  /** ... nor theirs for the head. */
  lemma HeadCounts(ts: seq<Tracked>, now: int, oks: seq<bool>, log: seq<Sent>, lo: int, hi: int)
    requires 0 < |ts| <= |oks| && Truth(ts, log) && Ascending(ts, lo, hi)
    ensures OkCount(log + Log(ts, now, oks), ts[0].id) ==
            ts[0].told + (if ts[0].sub.remaining == 0 && oks[0] then 1 else 0)
  {
    hide OkCount, LogOne;
    IdsAscend(ts[1..], ts[0].id + 1, hi);
    OkCountJoins(log, Log(ts, now, oks), ts[0].id);
    OkCountJoins(LogOne(ts[0], now, oks[0]), Log(ts[1..], now, oks[1..]), ts[0].id);
    OwnCount(ts[0], now, oks[0], ts[0].id);
    NotInLog(ts[1..], now, oks[1..], ts[0].id);
  }

  lemma {:induction false} LogCounts(ts: seq<Tracked>, now: int, oks: seq<bool>, log: seq<Sent>, lo: int, hi: int)
    requires |ts| <= |oks| && Truth(ts, log) && Ascending(ts, lo, hi)
    ensures Counted(ts, oks, log + Log(ts, now, oks))
    decreases |ts|
  {
    hide OkCount, LogOne, Truth;
    if ts != [] {
      var own := LogOne(ts[0], now, oks[0]);
      OthersUntold(ts, now, oks, log, lo, hi);
      HeadCounts(ts, now, oks, log, lo, hi);
      LogCounts(ts[1..], now, oks[1..], log + own, ts[0].id + 1, hi);
      assert log + Log(ts, now, oks) == (log + own) + Log(ts[1..], now, oks[1..]);
    }
  }

  lemma OneTrue(t: Tracked, now: int, ok: bool, log: seq<Sent>)
    requires OkCount(log, t.id) == t.told + (if t.sub.remaining == 0 && ok then 1 else 0)
    ensures Truth(KeptOne(t, now, ok), log) && Truth(FiredOne(t, now, ok), log)
  {
    var told := Told(t, now, ok);
    assert [told][1..] == [] && [t][1..] == [];
  }

  lemma {:induction false} CountedIsTruth(ts: seq<Tracked>, now: int, oks: seq<bool>, log: seq<Sent>)
    requires |ts| <= |oks| && Counted(ts, oks, log)
    ensures Truth(Kept(ts, now, oks), log) && Truth(Fired(ts, now, oks), log)
    decreases |ts|
  {
    if ts != [] {
      CountedIsTruth(ts[1..], now, oks[1..], log);
      OneTrue(ts[0], now, oks[0], log);
      hide KeptOne, FiredOne, Truth;
      TruthJoins(KeptOne(ts[0], now, oks[0]), Kept(ts[1..], now, oks[1..]), log);
      TruthJoins(FiredOne(ts[0], now, oks[0]), Fired(ts[1..], now, oks[1..]), log);
    }
  }

  // ---- Who is where. ----

  lemma {:induction false} UptoOnce(n: nat, id: int)
    ensures Upto(n)[id] == if 0 <= id < n then 1 else 0
  {
    if n > 0 {
      UptoOnce(n - 1, id);
    }
  }

  /** An id that has left the table is not in it. */
  lemma LeftIsGone(w: World, gone: seq<Tracked>)
    requires Placed(w) && (gone == w.fired || gone == w.dropped)
    ensures forall id :: id in IdList(gone) ==> id !in IdList(w.table)
  {
    hide IdList, Upto;
    forall id | id in IdList(gone)
      ensures id !in IdList(w.table)
    {
      UptoOnce(w.next, id);
      assert Ids(gone)[id] >= 1 && (id in IdList(w.table) ==> Ids(w.table)[id] >= 1);
      assert (Ids(w.table) + Ids(w.fired) + Ids(w.dropped))[id] <= 1;
    }
  }

  // ---- Steps. ----

  lemma MessageKeeps(w: World, now: int)
    requires Inv(w) && w.last <= now
    ensures Inv(Next(w, Message(now)))
  {
    hide Good, Ascending, FiredOnce, DroppedBefore, NeverEarly, Truth, IdList, AllAgedT;
    AgedGood(w.table, w.last, now);
    AgedSame(w.table, now - w.last, 0, w.next, w.log);
  }

  /** The lists of those that left stay true when the table's notices are logged. */
  lemma GoneStaysTrue(w: World, aged: seq<Tracked>, gone: seq<Tracked>, now: int, oks: seq<bool>)
    requires Placed(w) && (gone == w.fired || gone == w.dropped) && Truth(gone, w.log)
    requires IdList(aged) == IdList(w.table) && |aged| <= |oks|
    ensures Truth(gone, w.log + Log(aged, now, oks))
  {
    hide IdList, Truth, Log, Placed, OkCount;
    LeftIsGone(w, gone);
    forall id | id in IdList(gone)
      ensures OkCount(Log(aged, now, oks), id) == 0
    {
      NotInLog(aged, now, oks, id);
    }
    TruthGrows(gone, w.log, Log(aged, now, oks));
  }

  lemma PlacedAfter(w: World, kept: seq<Tracked>, fired: seq<Tracked>)
    requires Placed(w) && Ids(kept) + Ids(fired) == Ids(w.table)
    ensures Ids(kept) + Ids(w.fired + fired) + Ids(w.dropped) == Upto(w.next)
  {
    IdsJoin(w.fired, fired);
    hide Ids;
    ThreeSums(Ids(kept), Ids(w.fired), Ids(fired));
  }

  lemma ThreeSums(a: multiset<int>, b: multiset<int>, c: multiset<int>)
    ensures a + (b + c) == (a + c) + b
  {
  }

  lemma TimeoutKeeps(w: World, now: int, oks: seq<bool>)
    requires Inv(w) && Enabled(w, Timeout(now, oks))
    ensures Inv(Next(w, Timeout(now, oks)))
  {
    hide Good, Ascending, FiredOnce, DroppedBefore, NeverEarly, Truth, Ids, Kept, Fired, Log;
    var aged := AllAgedT(w.table, now - w.last);
    AgedLength(w.table, now - w.last);
    AgedGood(w.table, w.last, now);
    AgedSame(w.table, now - w.last, 0, w.next, w.log);
    KeptGood(aged, now, oks);
    KeptIds(aged, now, oks);
    KeptAscends(aged, now, oks, 0, w.next);
    LogCounts(aged, now, oks, w.log, 0, w.next);
    CountedIsTruth(aged, now, oks, w.log + Log(aged, now, oks));
    GoneStaysTrue(w, aged, w.fired, now, oks);
    GoneStaysTrue(w, aged, w.dropped, now, oks);
    NeverEarlyJoins(w.log, Log(aged, now, oks));
    FiredJoins(w.fired, Fired(aged, now, oks));
    PlacedAfter(w, Kept(aged, now, oks), Fired(aged, now, oks));
    TruthJoins(w.fired, Fired(aged, now, oks), w.log + Log(aged, now, oks));
  }

  /** Nothing in the log is about a registration that has not been made. */
  predicate LogBelow(log: seq<Sent>, n: int) {
    log == [] || (log[0].id < n && LogBelow(log[1..], n))
  }

  lemma {:induction false} BelowUntold(log: seq<Sent>, n: int, id: int)
    requires LogBelow(log, n) && n <= id
    ensures OkCount(log, id) == 0
    decreases |log|
  {
    if log != [] {
      BelowUntold(log[1..], n, id);
    }
  }

  lemma {:induction false} BelowJoins(a: seq<Sent>, b: seq<Sent>, n: int)
    requires LogBelow(a, n) && LogBelow(b, n)
    ensures LogBelow(a + b, n)
  {
    if a == [] {
      assert a + b == b;
    } else {
      BelowJoins(a[1..], b, n);
      assert (a + b)[1..] == a[1..] + b;
    }
  }

  lemma {:induction false} LogIsBelow(ts: seq<Tracked>, now: int, oks: seq<bool>, lo: int, hi: int)
    requires |ts| <= |oks| && Ascending(ts, lo, hi)
    ensures LogBelow(Log(ts, now, oks), hi)
    decreases |ts|
  {
    if ts != [] {
      LogIsBelow(ts[1..], now, oks[1..], ts[0].id + 1, hi);
      assert ts[0].sub.remaining == 0 ==> LogOne(ts[0], now, oks[0])[1..] == [];
      BelowJoins(LogOne(ts[0], now, oks[0]), Log(ts[1..], now, oks[1..]), hi);
    }
  }

  lemma {:induction false} BelowMore(log: seq<Sent>, n: int, m: int)
    requires LogBelow(log, n) && n <= m
    ensures LogBelow(log, m)
    decreases |log|
  {
    if log != [] {
      BelowMore(log[1..], n, m);
    }
  }

  predicate Promise(w: World) {
    Inv(w) && LogBelow(w.log, w.next)
  }

  lemma {:induction false} AscendsPast(ts: seq<Tracked>, lo: int, hi: int, t: Tracked)
    requires Ascending(ts, lo, hi) && lo <= hi <= t.id
    ensures Ascending(ts + [t], lo, t.id + 1)
    decreases |ts|
  {
    if ts == [] {
      assert ts + [t] == [t] && [t][1..] == [];
    } else {
      AscendsPast(ts[1..], ts[0].id + 1, hi, t);
      assert (ts + [t])[1..] == ts[1..] + [t];
    }
  }

  lemma Single(t: Tracked, last: int, log: seq<Sent>)
    requires GoodOne(t, last) && t.told == OkCount(log, t.id)
    ensures Good([t], last) && Truth([t], log) && IdList([t]) == [t.id]
  {
    assert [t][1..] == [];
  }

  lemma PlacedOneMore(w: World, aged: seq<Tracked>, t: Tracked)
    requires Placed(w) && IdList(aged) == IdList(w.table) && IdList([t]) == [w.next]
    ensures Ids(aged + [t]) + Ids(w.fired) + Ids(w.dropped) == Upto(w.next + 1)
  {
    IdsJoin(aged, [t]);
    assert Ids(aged) == Ids(w.table) && Ids([t]) == multiset{w.next};
    hide Ids;
    MoreSums(Ids(aged), multiset{w.next}, Ids(w.fired), Ids(w.dropped));
  }

  lemma MoreSums(a: multiset<int>, x: multiset<int>, f: multiset<int>, d: multiset<int>)
    ensures (a + x) + f + d == (a + f + d) + x
  {
  }

  /** The table with a new subscription at its end. */
  lemma TableGrows(w: World, now: int, t: Tracked)
    requires Promise(w) && w.last <= now && GoodOne(t, now) && t.id == w.next && t.told == 0
    ensures var table := AllAgedT(w.table, now - w.last) + [t];
            && Good(table, now) && Ascending(table, 0, w.next + 1) && Truth(table, w.log)
            && Ids(table) + Ids(w.fired) + Ids(w.dropped) == Upto(w.next + 1)
  {
    hide Good, Ascending, FiredOnce, DroppedBefore, NeverEarly, Truth, IdList, LogBelow, OkCount, AllAgedT, Ids, Upto,
         GoodOne, Placed;
    var aged := AllAgedT(w.table, now - w.last);
    BelowUntold(w.log, w.next, w.next);
    Single(t, now, w.log);
    AgedGood(w.table, w.last, now);
    AgedSame(w.table, now - w.last, 0, w.next, w.log);
    GoodJoins(aged, [t], now);
    TruthJoins(aged, [t], w.log);
    AscendsPast(aged, 0, w.next, t);
    PlacedOneMore(w, aged, t);
  }

  lemma RegisterKeeps(w: World, now: int, modID: int, ticks: int, repeating: bool, param: int)
    requires Promise(w) && Enabled(w, Register(now, modID, ticks, repeating, param))
    ensures Promise(Next(w, Register(now, modID, ticks, repeating, param)))
  {
    hide Good, Ascending, FiredOnce, DroppedBefore, NeverEarly, Truth, LogBelow, AllAgedT, Ids, Upto;
    if |w.table| < MAX_SUBSCRIPTIONS {
      TableGrows(w, now, Tracked(Sub(modID, ticks, repeating, param, ticks), w.next, now + ticks, 0));
      BelowMore(w.log, w.next, w.next + 1);
    }
  }

  lemma {:induction false} AscendsWithout(ts: seq<Tracked>, i: nat, lo: int, hi: int)
    requires Ascending(ts, lo, hi) && i < |ts|
    ensures Ascending(ts[..i] + ts[i + 1..], lo, hi)
    decreases |ts|
  {
    if i == 0 {
      assert ts[..0] + ts[1..] == ts[1..];
      AscendingFrom(ts[1..], ts[0].id + 1, lo, hi);
    } else {
      AscendsWithout(ts[1..], i - 1, ts[0].id + 1, hi);
      assert (ts[..i] + ts[i + 1..])[1..] == ts[1..][..i - 1] + ts[1..][i..];
    }
  }

  lemma {:induction false} GoodParts(a: seq<Tracked>, b: seq<Tracked>, last: int)
    requires Good(a + b, last)
    ensures Good(a, last) && Good(b, last)
    decreases |a|
  {
    if a == [] {
      assert a + b == b;
    } else {
      assert (a + b)[1..] == a[1..] + b;
      GoodParts(a[1..], b, last);
    }
  }

  /** What is known of one entry and of the table without it. */
  lemma TableShrinks(w: World, i: nat)
    requires Inv(w) && i < |w.table|
    ensures var rest, x := w.table[..i] + w.table[i + 1..], [w.table[i]];
            && Good(rest, w.last) && Truth(rest, w.log) && Ascending(rest, 0, w.next)
            && DroppedBefore(x) && Truth(x, w.log)
  {
    var a, x, b := w.table[..i], [w.table[i]], w.table[i + 1..];
    CutAt(w.table, i);
    GoodAt(w.table, w.last, i);
    OneDropped(w.table[i], w.last);
    hide Ascending, FiredOnce, DroppedBefore, NeverEarly, Truth, IdList, Good;
    GoodParts(a, x + b, w.last);
    GoodParts(x, b, w.last);
    GoodJoins(a, b, w.last);
    AscendsWithout(w.table, i, 0, w.next);
    TruthJoins(a, x + b, w.log);
    TruthJoins(x, b, w.log);
    TruthJoins(a, b, w.log);
  }

  lemma OneDropped(t: Tracked, last: int)
    requires GoodOne(t, last)
    ensures DroppedBefore([t])
  {
    assert [t][1..] == [];
  }

  lemma UnregisterKeeps(w: World, modID: int, param: int)
    requires Promise(w)
    ensures Promise(Next(w, Unregister(modID, param)))
  {
    var i := Find(Subs(w.table), modID, param);
    if i < |w.table| {
      var a, x, b := w.table[..i], [w.table[i]], w.table[i + 1..];
      TableShrinks(w, i);
      CutAt(w.table, i);
      hide Good, Ascending, FiredOnce, DroppedBefore, NeverEarly, Truth, IdList, LogBelow, Find, Subs;
      TruthJoins(w.dropped, x, w.log);
      DroppedJoins(w.dropped, x);
      IdsMove(w, a, x, b);
    }
  }

  lemma IdsMove(w: World, a: seq<Tracked>, x: seq<Tracked>, b: seq<Tracked>)
    requires Placed(w) && w.table == a + (x + b)
    ensures Ids(a + b) + Ids(w.fired) + Ids(w.dropped + x) == Upto(w.next)
  {
    IdsJoin(a, x + b);
    IdsJoin(x, b);
    IdsJoin(a, b);
    IdsJoin(w.dropped, x);
    hide Ids;
    FiveSums(Ids(a), Ids(x), Ids(b), Ids(w.fired), Ids(w.dropped));
  }

  lemma FiveSums(a: multiset<int>, x: multiset<int>, b: multiset<int>, f: multiset<int>, d: multiset<int>)
    ensures (a + b) + f + (d + x) == (a + (x + b)) + f + d
  {
  }

  lemma TimeoutLogsBelow(w: World, now: int, oks: seq<bool>)
    requires Promise(w) && Enabled(w, Timeout(now, oks))
    ensures LogBelow(Next(w, Timeout(now, oks)).log, w.next)
  {
    var aged := AllAgedT(w.table, now - w.last);
    hide Good, Ascending, FiredOnce, DroppedBefore, NeverEarly, Truth, IdList, LogBelow, AllAgedT, Placed, Log;
    AgedLength(w.table, now - w.last);
    AgedSame(w.table, now - w.last, 0, w.next, w.log);
    LogIsBelow(aged, now, oks, 0, w.next);
    BelowJoins(w.log, Log(aged, now, oks), w.next);
  }

  lemma NextKeeps(w: World, e: Event)
    requires Promise(w) && Enabled(w, e)
    ensures Promise(Next(w, e))
  {
    hide Inv, LogBelow;
    match e
    case Timeout(now, oks) =>
      TimeoutKeeps(w, now, oks);
      TimeoutLogsBelow(w, now, oks);
    case Message(now) => MessageKeeps(w, now);
    case Register(now, modID, ticks, repeating, param) => RegisterKeeps(w, now, modID, ticks, repeating, param);
    case Unregister(modID, param) => UnregisterKeeps(w, modID, param);
  }

  predicate AllEnabled(w: World, es: seq<Event>)
    decreases |es|
  {
    es == [] || (Enabled(w, es[0]) && AllEnabled(Next(w, es[0]), es[1..]))
  }

  function Run(w: World, es: seq<Event>): World
    requires AllEnabled(w, es)
    decreases |es|
  {
    if es == [] then w else Run(Next(w, es[0]), es[1..])
  }

  function Start(now: int): World {
    World([], now, 0, [], [], [])
  }

  lemma {:induction false} RunKeeps(w: World, es: seq<Event>)
    requires Promise(w) && AllEnabled(w, es)
    ensures Promise(Run(w, es))
    decreases |es|
  {
    if es != [] {
      hide Promise, Enabled;
      NextKeeps(w, es[0]);
      RunKeeps(Next(w, es[0]), es[1..]);
    }
  }

  /**
   Over every run: no notice is sent before it is due; a one-shot still in the table has not been told, one that
   fired was told successfully exactly once; every registration is in one place; the table is in order.
   */
  lemma EveryRunKeepsItsPromises(now: int, es: seq<Event>)
    requires AllEnabled(Start(now), es)
    ensures Promise(Run(Start(now), es))
  {
    RunKeeps(Start(now), es);
  }

  // ---- Who is told by a timeout. ----

  /** The notice that a timeout at tick `now` sends to one (aged) subscription. */
  function NoticeTo(t: Tracked, now: int, ok: bool): Sent {
    Sent(t.id, now, t.due, Notice(t.sub.modID, t.sub.param, ok))
  }

  lemma {:induction false} LogFrom(ts: seq<Tracked>, now: int, oks: seq<bool>, lo: int, hi: int)
    requires |ts| <= |oks| && Ascending(ts, lo, hi)
    ensures forall x :: x in Log(ts, now, oks) ==> lo <= x.id
    decreases |ts|
  {
    if ts != [] {
      LogFrom(ts[1..], now, oks[1..], ts[0].id + 1, hi);
    }
  }

  /** In the loop of a timeout subscription i is told once if it is at zero, and not otherwise. */
  lemma {:induction false} LogTells(ts: seq<Tracked>, now: int, oks: seq<bool>, i: nat, lo: int, hi: int)
    requires |ts| <= |oks| && Ascending(ts, lo, hi) && i < |ts|
    ensures lo <= ts[i].id
    ensures NoticeTo(ts[i], now, oks[i]) in Log(ts, now, oks) <==> ts[i].sub.remaining == 0
    ensures forall x :: x in Log(ts, now, oks) && x.id == ts[i].id ==> x == NoticeTo(ts[i], now, oks[i])
    decreases i
  {
    if i == 0 {
      LogFrom(ts[1..], now, oks[1..], ts[0].id + 1, hi);
    } else {
      LogTells(ts[1..], now, oks[1..], i - 1, ts[0].id + 1, hi);
    }
  }

  lemma {:induction false} AgedAt(ts: seq<Tracked>, elapsed: int, i: nat)
    requires i < |ts|
    ensures |AllAgedT(ts, elapsed)| == |ts| && AllAgedT(ts, elapsed)[i] == AgedT(ts[i], elapsed)
  {
    AgedLength(ts, elapsed);
    if i > 0 {
      AgedAt(ts[1..], elapsed, i - 1);
    }
  }

  /**
   A timeout tells a subscription if and only if it is due, also when a message or a
   registration had driven it to zero before: with the right notice, and no other.
   */
  lemma TimeoutTellsTheDue(w: World, now: int, oks: seq<bool>, i: nat)
    requires Promise(w) && Enabled(w, Timeout(now, oks)) && i < |w.table|
    ensures var news, x := Next(w, Timeout(now, oks)).log, NoticeTo(w.table[i], now, oks[i]);
            && w.log <= news
            && (x in news[|w.log|..] <==> w.table[i].due <= now)
            && forall y :: y in news[|w.log|..] && y.id == w.table[i].id ==> y == x
  {
    var aged := AllAgedT(w.table, now - w.last);
    GoodAt(w.table, w.last, i);
    AgedAt(w.table, now - w.last, i);
    AgedSame(w.table, now - w.last, 0, w.next, w.log);
    LogTells(aged, now, oks, i, 0, w.next);
    assert (w.log + Log(aged, now, oks))[|w.log|..] == Log(aged, now, oks);
  }

  /** Registration id is in the table, due at that tick. */
  ghost predicate Waits(ts: seq<Tracked>, id: int, due: int) {
    exists i :: 0 <= i < |ts| && ts[i].id == id && ts[i].due == due
  }

  /** Only a timeout and its own unregistration touch what a subscription waits for. */
  lemma StaysWaiting(w: World, e: Event, id: int, due: int)
    requires Enabled(w, e) && !e.Timeout? && (Waits(w.table, id, due) || Waits(w.dropped, id, due))
    ensures Waits(Next(w, e).table, id, due) || Waits(Next(w, e).dropped, id, due)
  {
    var v := Next(w, e);
    if Waits(w.dropped, id, due) {
      var i :| 0 <= i < |w.dropped| && w.dropped[i].id == id && w.dropped[i].due == due;
      assert v.dropped[i] == w.dropped[i];
    } else {
      var i :| 0 <= i < |w.table| && w.table[i].id == id && w.table[i].due == due;
      StaysInTable(w, e, i);
    }
  }

  lemma StaysInTable(w: World, e: Event, i: nat)
    requires Enabled(w, e) && !e.Timeout? && i < |w.table|
    ensures var v, t := Next(w, e), w.table[i]; Waits(v.table, t.id, t.due) || Waits(v.dropped, t.id, t.due)
  {
    hide AllAgedT, Find;
    var v := Next(w, e);
    match e
    case Message(now) =>
      AgedAt(w.table, now - w.last, i);
      assert v.table[i].id == w.table[i].id;
    case Register(now, _, _, _, _) =>
      AgedAt(w.table, now - w.last, i);
      assert v.table[i].id == w.table[i].id;
    case Unregister(modID, param) =>
      var k := Find(Subs(w.table), modID, param);
      if k == i {
        assert v.dropped[|w.dropped|] == w.table[i];
      } else {
        assert v.table[if k < i then i - 1 else i] == w.table[i];
      }
  }

  lemma {:induction false} StaysWaitingLong(w: World, es: seq<Event>, id: int, due: int)
    requires AllEnabled(w, es) && (forall k :: 0 <= k < |es| ==> !es[k].Timeout?)
    requires Waits(w.table, id, due) || Waits(w.dropped, id, due)
    ensures var v := Run(w, es); Waits(v.table, id, due) || Waits(v.dropped, id, due)
    decreases |es|
  {
    if es != [] {
      hide Waits, Enabled;
      StaysWaiting(w, es[0], id, due);
      StaysWaitingLong(Next(w, es[0]), es[1..], id, due);
    }
  }

  /**
   However many messages, registrations and unregistrations come first: the next
   timeout tells a subscription that is due by then, unless it was unregistered.
   */
  lemma NextTimeoutTells(w: World, es: seq<Event>, now: int, oks: seq<bool>, i: nat)
    requires Promise(w) && AllEnabled(w, es) && (forall k :: 0 <= k < |es| ==> !es[k].Timeout?)
    requires i < |w.table| && w.table[i].due <= now && Enabled(Run(w, es), Timeout(now, oks))
    ensures var v, t := Run(w, es), w.table[i];
            || Waits(v.dropped, t.id, t.due)
            || exists x :: x in Next(v, Timeout(now, oks)).log[|v.log|..] && x.id == t.id && x.due == t.due && x.at == now
  {
    hide Promise, AllEnabled, Run, Enabled;
    var v, t := Run(w, es), w.table[i];
    RunKeeps(w, es);
    StaysWaitingLong(w, es, t.id, t.due);
    if !Waits(v.dropped, t.id, t.due) {
      var k :| 0 <= k < |v.table| && v.table[k].id == t.id && v.table[k].due == t.due;
      TableFits(v, now, oks);
      TimeoutTellsTheDue(v, now, oks, k);
      assert NoticeTo(v.table[k], now, oks[k]) in Next(v, Timeout(now, oks)).log[|v.log|..];
    }
  }

  lemma TableFits(w: World, now: int, oks: seq<bool>)
    requires Enabled(w, Timeout(now, oks))
    ensures |w.table| <= |oks|
  {
  }

  lemma {:induction false} GoodAt(ts: seq<Tracked>, last: int, i: nat)
    requires Good(ts, last) && i < |ts|
    ensures GoodOne(ts[i], last)
    decreases i
  {
    if i > 0 {
      GoodAt(ts[1..], last, i - 1);
    }
  }

  /** When someone is due already, the wait for the next timeout is over at once. */
  lemma NoWaitForTheDue(ts: seq<Tracked>, last: int)
    requires Good(ts, last)
    ensures Wait(Subs(ts)) == 0 <==> exists i :: 0 <= i < |ts| && ts[i].due <= last
  {
    hide Good, Wait;
    WaitIsLeast(Subs(ts));
    forall i | 0 <= i < |ts|
      ensures Subs(ts)[i] == ts[i].sub && GoodOne(ts[i], last)
    {
      SubsAt(ts, i);
      GoodAt(ts, last, i);
    }
    if Wait(Subs(ts)) == 0 {
      var i :| 0 <= i < |ts| && Subs(ts)[i].remaining == 0;
      assert ts[i].due <= last;
    }
  }

  lemma {:induction false} TruthAt(ts: seq<Tracked>, log: seq<Sent>, i: nat)
    requires Truth(ts, log) && i < |ts|
    ensures ts[i].told == OkCount(log, ts[i].id)
    decreases i
  {
    if i > 0 {
      TruthAt(ts[1..], log, i - 1);
    }
  }

  lemma {:induction false} FiredAt(ts: seq<Tracked>, i: nat)
    requires FiredOnce(ts) && i < |ts|
    ensures !ts[i].sub.repeating && ts[i].told == 1
    decreases i
  {
    if i > 0 {
      FiredAt(ts[1..], i - 1);
    }
  }

  lemma {:induction false} EarlyAt(log: seq<Sent>, i: nat)
    requires NeverEarly(log) && i < |log|
    ensures log[i].due <= log[i].at
    decreases i
  {
    if i > 0 {
      EarlyAt(log[1..], i - 1);
    }
  }

  /** The promises, read off the log. */
  lemma WhatTheLogSays(w: World)
    requires Promise(w)
    ensures forall i :: 0 <= i < |w.log| ==> w.log[i].due <= w.log[i].at
    ensures forall i :: 0 <= i < |w.fired| ==> !w.fired[i].sub.repeating && OkCount(w.log, w.fired[i].id) == 1
    ensures forall i :: 0 <= i < |w.table| && !w.table[i].sub.repeating ==> OkCount(w.log, w.table[i].id) == 0
  {
    hide OkCount, Good, Ascending, FiredOnce, DroppedBefore, NeverEarly, Truth, LogBelow, Placed;
    forall i | 0 <= i < |w.log|
      ensures w.log[i].due <= w.log[i].at
    {
      EarlyAt(w.log, i);
    }
    forall i | 0 <= i < |w.fired|
      ensures !w.fired[i].sub.repeating && OkCount(w.log, w.fired[i].id) == 1
    {
      FiredAt(w.fired, i);
      TruthAt(w.fired, w.log, i);
    }
    forall i | 0 <= i < |w.table| && !w.table[i].sub.repeating
      ensures OkCount(w.log, w.table[i].id) == 0
    {
      GoodAt(w.table, w.last, i);
      TruthAt(w.table, w.log, i);
    }
  }
}
