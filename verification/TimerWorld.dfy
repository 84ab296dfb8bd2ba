/**
 The timer service of delay/src/timerdelay.c as a state machine on values: the
 active list, the free list, the records out with their callers, the hardware
 countdown and the messages between callers and the delay manager's thread.
 */
module TimerWorld {
  import opened TimerQueue

  /** Longest delay a caller can ask for: whole milliseconds, 10 ticks each, in 32 bits. */
  const MAX_TICKS: int := 4294967290

  /** How a timer record is used by the caller that took it. */
  datatype Use = Use(blocking: bool, repeating: bool, orig: int)

  /**
   `taken` are records a caller has and has not armed, `woken` are blocking
   records whose caller has been woken and has not yet given them back;
   `canceled` are the records whose flag is set.  The hardware was started at
   `started` to count `count` ticks; `now` is its present reading.
   */
  datatype World<!T> = World(
    active: seq<Node<T>>,
    free: seq<T>,
    taken: multiset<T>,
    woken: multiset<T>,
    uses: map<T, Use>,
    canceled: set<T>,
    started: int,
    count: int,
    now: int
  )

  /** timer_get_count. */
  function Done<T>(w: World<T>): int {
    if w.active == [] then 0 else w.now - w.started
  }

  function Program<T>(w: World<T>, active: seq<Node<T>>): World<T> {
    w.(active := active, started := w.now, count := if active == [] then 0 else active[0].delta)
  }

  /** Queues a timer now, restarting the hardware if it goes first. */
  function StartTimer<T>(w: World<T>, t: T, ticks: int): World<T> {
    var q := Arm(w.active, t, ticks, Done(w));
    if GoesFirst(w.active, ticks, Done(w)) then Program(w, q) else w.(active := q)
  }

  function IndexOf<T(==)>(s: seq<T>, t: T): (i: nat)
    ensures i <= |s|
    ensures i < |s| ==> s[i] == t
    ensures forall j :: 0 <= j < i ==> s[j] != t
  {
    if s == [] || s[0] == t then 0 else 1 + IndexOf(s[1..], t)
  }

  /** handle_timer_cancel. */
  function HandleCancel<T(==)>(w: World<T>, t: T): World<T> {
    var i := IndexOf(Timers(w.active), t);
    if t !in w.canceled then w
    else if i == |w.active| then w.(free := [t] + w.free)
    else if TooLate(w.active, i, Done(w)) then w
    else
      var v := w.(free := [t] + w.free);
      var q := CancelAt(w.active, i, Done(w));
      if i == 0 then Program(v, q) else v.(active := q)
  }

  // ---------------------------------------------------------------- expiry

  /** Where the fired timers of one expiry have gone so far. */
  datatype Expiry<!T> = Expiry(free: seq<T>, woken: multiset<T>, canceled: set<T>, again: seq<T>, ran: seq<T>)

  /** tickle_pop_timer: wakes or calls back, then frees the record or keeps it for another round. */
  function Tickle<T>(e: Expiry<T>, t: T, use: Use): Expiry<T> {
    if use.blocking then e.(woken := e.woken + multiset{t}, ran := e.ran + [t])
    else if t in e.canceled then e.(canceled := e.canceled - {t}, free := [t] + e.free)
    else if use.repeating then e.(again := [t] + e.again, ran := e.ran + [t])
    else e.(free := [t] + e.free, ran := e.ran + [t])
  }

  function TickleAll<T>(e: Expiry<T>, ts: seq<T>, uses: map<T, Use>): Expiry<T>
    requires forall t :: t in ts ==> t in uses
    decreases |ts|
  {
    if ts == [] then e
    else TickleAll(Tickle(e, ts[0], uses[ts[0]]), ts[1..], uses)
  }

  /** The repeating timers go back on the list, one after the other. */
  function Rearm<T>(q: seq<Node<T>>, again: seq<T>, uses: map<T, Use>): seq<Node<T>>
    requires forall t :: t in again ==> t in uses
    decreases |again|
  {
    if again == [] then q
    else Rearm(Arm(q, again[0], uses[again[0]].orig, 0), again[1..], uses)
  }

  /** How many timers fire when the head expires. */
  function FiredBy<T>(w: World<T>): (n: nat)
    requires w.active != []
    ensures 0 < n <= |w.active|
  {
    1 + Coalesce(w.active[1..], WINDOW)
  }

  function Fired<T>(w: World<T>): seq<T>
    requires w.active != []
  {
    Timers(w.active)[..FiredBy(w)]
  }

  predicate Known<T>(w: World<T>) {
    forall t :: t in Timers(w.active) ==> t in w.uses
  }

  function Fire<T>(w: World<T>): (e: Expiry<T>)
    requires w.active != [] && Known(w)
    ensures forall t :: t in e.again ==> t in w.uses
  {
    var e := Expiry(w.free, w.woken, w.canceled, [], []);
    TickleAllAgain(e, Fired(w), w.uses);
    TickleAll(e, Fired(w), w.uses)
  }

  /** Ticks by which the last timer of the batch fires early. */
  function Slack<T>(w: World<T>): int
    requires w.active != []
  {
    Total(w.active[1..FiredBy(w)])
  }

  function AddSlack<T>(q: seq<Node<T>>, slack: int): seq<Node<T>> {
    if q == [] then q else q[0 := q[0].(delta := Add32(q[0].delta, slack))]
  }

  /** handle_timer_pop. */
  function HandlePop<T>(w: World<T>): World<T>
    requires w.active != [] && Known(w)
  {
    var e := Fire(w);
    var q := Rearm(w.active[FiredBy(w)..], e.again, w.uses);
    Program(w.(free := e.free, woken := e.woken, canceled := e.canceled), AddSlack(q, Slack(w)))
  }

  lemma {:induction false} TickleAllAgain<T>(e: Expiry<T>, ts: seq<T>, uses: map<T, Use>)
    requires forall t :: t in ts ==> t in uses
    ensures forall t :: t in TickleAll(e, ts, uses).again ==> t in e.again || t in ts
    decreases |ts|
  {
    if ts != [] {
      TickleAllAgain(Tickle(e, ts[0], uses[ts[0]]), ts[1..], uses);
    }
  }

  // ---------------------------------------------------------------- what always holds

  /** The hardware counts down exactly the head's delay, and no deadline is out of reach. */
  predicate Counting<T>(w: World<T>) {
    && Fits(w.active)
    && (w.active != [] ==> w.count == w.active[0].delta && w.started <= w.now <= w.started + w.count)
    && Within(Deadlines(w.active, w.started), w.now, MAX_TICKS + WINDOW + 1)
  }

  /** Every record is in exactly one place. */
  predicate Conserved<T>(w: World<T>) {
    multiset(Timers(w.active)) + multiset(w.free) + w.taken + w.woken == multiset(w.uses.Keys)
  }

  predicate Legal<T>(w: World<T>) {
    && Counting(w) && Conserved(w) && Known(w)
    && forall t :: t in w.uses ==> 0 <= w.uses[t].orig <= MAX_TICKS
  }

  // ---------------------------------------------------------------- starting

  lemma StartRefines<T>(w: World<T>, t: T, ticks: int)
    requires Counting(w) && 0 <= ticks <= MAX_TICKS
    ensures var v := StartTimer(w, t, ticks);
            && Deadlines(v.active, v.started) == InsertDue(Deadlines(w.active, w.started), Due(t, w.now + ticks))
            && v == w.(active := v.active, started := v.started, count := v.count)
    ensures Counting(StartTimer(w, t, ticks))
  {
    if w.active == [] {
      StartsAlone(w, t, ticks);
    } else {
      StartsAmong(w, t, ticks);
    }
    StartsCounting(w, t, ticks);
    hide InsertDue, Deadlines, StartTimer, Fits;
    InsertDueWithin(Deadlines(w.active, w.started), Due(t, w.now + ticks), w.now, MAX_TICKS + WINDOW + 1);
  }

  lemma StartsAlone<T>(w: World<T>, t: T, ticks: int)
    requires w.active == [] && 0 <= ticks <= MAX_TICKS
    ensures var v := StartTimer(w, t, ticks);
            Deadlines(v.active, v.started) == InsertDue(Deadlines(w.active, w.started), Due(t, w.now + ticks))
    ensures Fits(StartTimer(w, t, ticks).active)
  {
  }

  lemma StartsAmong<T>(w: World<T>, t: T, ticks: int)
    requires Counting(w) && 0 <= ticks <= MAX_TICKS && w.active != []
    ensures var v := StartTimer(w, t, ticks);
            Deadlines(v.active, v.started) == InsertDue(Deadlines(w.active, w.started), Due(t, w.now + ticks))
    ensures Fits(StartTimer(w, t, ticks).active)
  {
    hide Arm, GoesFirst, InsertDue, Deadlines, Fits, Within;
    ArmRefines(w.active, t, ticks, w.started, Done(w));
  }

  /** Whether or not the hardware is restarted, it then counts the head's delay. */
  lemma StartsCounting<T>(w: World<T>, t: T, ticks: int)
    requires Counting(w) && 0 <= ticks <= MAX_TICKS
    ensures var v := StartTimer(w, t, ticks);
            v.active != [] && v.count == v.active[0].delta && v.started <= v.now <= v.started + v.count
  {
    hide Deadlines, Within;
  }

  // ---------------------------------------------------------------- cancelling

  lemma WithoutWithin<T>(ds: seq<Due<T>>, i: nat, from: int, span: int)
    requires i < |ds| && Within(ds, from, span)
    ensures Within(Without(ds, i), from, span)
  {
  }

  /** Too late is the head alone, when it is due within a tick. */
  lemma TooLateMeans<T>(w: World<T>, i: nat)
    requires Counting(w) && i < |w.active|
    ensures TooLate(w.active, i, Done(w)) <==> i == 0 && Deadlines(w.active, w.started)[0].at <= w.now + 1
  {
  }

  /**
   Whatever becomes of a request, no other record is touched: a flagged record goes
   to the front of the free list, unless it is the head and all but due.
   */
  lemma CancelTouchesOnly<T>(w: World<T>, t: T)
    requires Counting(w)
    ensures var ds, v := Deadlines(w.active, w.started), HandleCancel(w, t);
            var late := ds != [] && ds[0].timer == t && ds[0].at <= w.now + 1;
            && v == w.(active := v.active, started := v.started, count := v.count, free := v.free)
            && v.free == (if t in w.canceled && !late then [t] + w.free else w.free)
            && (t !in Timers(w.active) ==> v.active == w.active)
  {
    if w.active != [] {
      assert Timers(w.active)[0] == w.active[0].timer;
      TooLateMeans(w, 0);
    }
  }

  /** A request for a queued timer takes out its deadline alone, unless the head is all but due. */
  lemma CancelKeepsDeadlines<T>(w: World<T>, t: T)
    requires Counting(w) && t in w.canceled && t in Timers(w.active)
    ensures var i, v := IndexOf(Timers(w.active), t), HandleCancel(w, t);
            && Timers(w.active)[i] == t
            && if TooLate(w.active, i, Done(w)) then v == w
               else Deadlines(v.active, v.started) == Without(Deadlines(w.active, w.started), i)
    ensures Counting(HandleCancel(w, t))
  {
    var i, v := IndexOf(Timers(w.active), t), HandleCancel(w, t);
    CancelRefines(w.active, i, w.started, Done(w));
    if !TooLate(w.active, i, Done(w)) {
      WithoutWithin(Deadlines(w.active, w.started), i, w.now, MAX_TICKS + WINDOW + 1);
    }
  }

  // ---------------------------------------------------------------- expiry

  /** The repeats, each filed under `from` plus its own period. */
  function InsertAll<T>(ds: seq<Due<T>>, again: seq<T>, from: int, uses: map<T, Use>): seq<Due<T>>
    requires forall t :: t in again ==> t in uses
    decreases |again|
  {
    if again == [] then ds
    else InsertAll(InsertDue(ds, Due(again[0], from + uses[again[0]].orig)), again[1..], from, uses)
  }

  predicate Periods<T>(ts: seq<T>, uses: map<T, Use>) {
    forall t :: t in ts ==> t in uses && 0 <= uses[t].orig <= MAX_TICKS
  }

  lemma {:induction false} RearmRefines<T>(q: seq<Node<T>>, again: seq<T>, uses: map<T, Use>, from: int)
    requires Fits(q) && Periods(again, uses)
    ensures Fits(Rearm(q, again, uses))
    ensures Deadlines(Rearm(q, again, uses), from) == InsertAll(Deadlines(q, from), again, from, uses)
    decreases |again|
  {
    if again != [] {
      ArmRefines(q, again[0], uses[again[0]].orig, from, 0);
      RearmRefines(Arm(q, again[0], uses[again[0]].orig, 0), again[1..], uses, from);
    }
  }

  lemma {:induction false} InsertAllWithin<T>(ds: seq<Due<T>>, again: seq<T>, from: int, uses: map<T, Use>, lo: int, span: int)
    requires Periods(again, uses) && Within(ds, lo, span) && lo <= from && from + MAX_TICKS < lo + span
    ensures Within(InsertAll(ds, again, from, uses), lo, span)
    decreases |again|
  {
    if again != [] {
      var d := Due(again[0], from + uses[again[0]].orig);
      InsertDueWithin(ds, d, lo, span);
      InsertAllWithin(InsertDue(ds, d), again[1..], from, uses, lo, span);
    }
  }

  lemma AddSlackRefines<T>(q: seq<Node<T>>, slack: int, now: int)
    requires Fits(q) && 0 <= slack && Within(Deadlines(q, now + slack), now, TWO32)
    ensures Fits(AddSlack(q, slack))
    ensures Deadlines(AddSlack(q, slack), now) == Deadlines(q, now + slack)
  {
    if q != [] {
      assert Deadlines(q, now + slack)[0].at == now + slack + q[0].delta;
      assert AddSlack(q, slack)[1..] == q[1..];
    }
  }

  /** The batch that fires is exactly what is due within the window. */
  lemma BatchIsWindow<T>(w: World<T>)
    requires Counting(w) && w.active != [] && w.now == w.started + w.count
    ensures var ds := Deadlines(w.active, w.started);
            && (forall i :: 0 <= i < |ds| ==> (i < FiredBy(w) <==> ds[i].at <= w.now + 3))
            && 0 <= Slack(w) <= WINDOW && ds[FiredBy(w) - 1].at == w.now + Slack(w)
            && Deadlines(w.active[FiredBy(w)..], w.now + Slack(w)) == ds[FiredBy(w)..]
  {
    var rest, n := w.active[1..], FiredBy(w);
    var ds, tail := Deadlines(w.active, w.started), Deadlines(w.active[1..], w.now);
    assert ds == [Due(w.active[0].timer, w.now)] + tail;
    CoalesceIsWindow(rest, w.now, WINDOW);
    BatchEnd(w, n, Total(rest[..n - 1]));
    forall i | 0 < i < |ds|
      ensures i < n <==> ds[i].at <= w.now + WINDOW
    {
      assert ds[i] == tail[i - 1];
    }
  }

  lemma BatchEnd<T>(w: World<T>, n: nat, slack: int)
    requires Fits(w.active) && 0 < n <= |w.active| && w.started + w.active[0].delta == w.now
    requires slack == Total(w.active[1..][..n - 1])
    ensures Total(w.active[1..n]) == slack
    ensures Deadlines(w.active[n..], w.now + slack) == Deadlines(w.active, w.started)[n..]
  {
    var ds := Deadlines(w.active, w.started);
    SliceOfTail(w.active, n);
    DeadlinesFrom(w.active[1..], w.now, n - 1);
    SliceOfTail(ds, n);
    assert ds[1..] == Deadlines(w.active[1..], w.now);
  }

  lemma SliceOfTail<A>(s: seq<A>, n: nat)
    requires 0 < n <= |s|
    ensures s[1..n] == s[1..][..n - 1] && s[n..] == s[1..][n - 1..]
  {
  }

  /**
   An expiry leaves the deadlines of the timers that do not fire as they were
   and files each repeat under the end of the batch plus its period.
   */
  lemma PopRefines<T>(w: World<T>)
    requires Legal(w) && w.active != [] && w.now == w.started + w.count
    ensures Counting(HandlePop(w))
    ensures var v := HandlePop(w);
            Deadlines(v.active, v.started) ==
            InsertAll(Deadlines(w.active, w.started)[FiredBy(w)..], Fire(w).again, w.now + Slack(w), w.uses)
  {
    BatchIsWindow(w);
    PopRearm(w);
    PopProgram(w, Rearm(w.active[FiredBy(w)..], Fire(w).again, w.uses));
  }

  lemma PopRearm<T>(w: World<T>)
    requires Legal(w) && w.active != [] && 0 <= Slack(w) <= WINDOW
    requires Deadlines(w.active[FiredBy(w)..], w.now + Slack(w)) == Deadlines(w.active, w.started)[FiredBy(w)..]
    ensures var q, from := Rearm(w.active[FiredBy(w)..], Fire(w).again, w.uses), w.now + Slack(w);
            && Fits(q) && Within(Deadlines(q, from), w.now, MAX_TICKS + WINDOW + 1)
            && Deadlines(q, from) ==
               InsertAll(Deadlines(w.active, w.started)[FiredBy(w)..], Fire(w).again, from, w.uses)
  {
    FitsFrom(w.active, FiredBy(w));
    var ds := Deadlines(w.active, w.started)[FiredBy(w)..];
    assert Within(ds, w.now, MAX_TICKS + WINDOW + 1);
    RearmBatch(w.active[FiredBy(w)..], Fire(w).again, w.uses, w.now + Slack(w), w.now);
  }

  lemma RearmBatch<T>(rest: seq<Node<T>>, again: seq<T>, uses: map<T, Use>, from: int, now: int)
    requires Fits(rest) && Periods(again, uses) && now <= from <= now + WINDOW
    requires Within(Deadlines(rest, from), now, MAX_TICKS + WINDOW + 1)
    ensures Fits(Rearm(rest, again, uses))
    ensures Deadlines(Rearm(rest, again, uses), from) == InsertAll(Deadlines(rest, from), again, from, uses)
    ensures Within(Deadlines(Rearm(rest, again, uses), from), now, MAX_TICKS + WINDOW + 1)
  {
    RearmRefines(rest, again, uses, from);
    InsertAllWithin(Deadlines(rest, from), again, from, uses, now, MAX_TICKS + WINDOW + 1);
  }

  lemma PopProgram<T>(w: World<T>, q: seq<Node<T>>)
    requires Known(w) && w.active != [] && 0 <= Slack(w) && Fits(q)
    requires q == Rearm(w.active[FiredBy(w)..], Fire(w).again, w.uses)
    requires Within(Deadlines(q, w.now + Slack(w)), w.now, MAX_TICKS + WINDOW + 1)
    ensures Counting(HandlePop(w))
    ensures Deadlines(HandlePop(w).active, HandlePop(w).started) == Deadlines(q, w.now + Slack(w))
  {
    AddSlackRefines(q, Slack(w), w.now);
  }
}
