/**
 delay/src/timerdelay.c in its own form: timer records updated in place, the
 active and the free list, one hardware countdown.  Every method is proved to
 do to the abstract state what TimerWorld says.
 */
module TimerDelay {
  import opened TimerQueue
  import opened TimerWorld

  class MsecTimer {
    var deltaTicks: int
    var blocking: bool
    var repeating: bool
    var origTicks: int
    var canceled: bool

    constructor ()
      ensures deltaTicks == 0
    {
      deltaTicks, origTicks := 0, 0;
      blocking, repeating, canceled := false, false, false;
    }

    ghost function AsUse(): Use
      reads `blocking, `repeating, `origTicks
    {
      Use(blocking, repeating, origTicks)
    }
  }

  ghost function Nodes(s: seq<MsecTimer>): (q: seq<Node<MsecTimer>>)
    reads s
    ensures |q| == |s| && forall i :: 0 <= i < |s| ==> q[i] == Node(s[i], s[i].deltaTicks)
  {
    seq(|s|, i requires 0 <= i < |s| reads s => Node(s[i], s[i].deltaTicks))
  }

  ghost predicate NoRepeats(s: seq<MsecTimer>) {
    forall i, j :: 0 <= i < j < |s| ==> s[i] != s[j]
  }

  class TimerService {
    var active: seq<MsecTimer>
    var free: seq<MsecTimer>
    var started: int
    var count: int
    var now: int

    ghost var all: set<MsecTimer>
    ghost var taken: multiset<MsecTimer>
    ghost var woken: multiset<MsecTimer>

    ghost function Uses(): map<MsecTimer, Use>
      reads `all, all`blocking, all`repeating, all`origTicks
    {
      map t | t in all :: t.AsUse()
    }

    ghost function Canceled(): set<MsecTimer>
      reads `all, all`canceled
    {
      set t | t in all && t.canceled
    }

    /** Nothing but delays and list membership changed. */
    twostate predicate SameRecords()
      reads this, all
    {
      Uses() == old(Uses()) && Canceled() == old(Canceled())
    }

    ghost predicate Valid()
      reads this
    {
      && (forall t :: t in active ==> t in all)
      && (forall t :: t in free ==> t in all)
      && NoRepeats(active)
    }

    ghost function Abs(): World<MsecTimer>
      requires Valid()
      reads this, all
    {
      World(Nodes(active), free, taken, woken, Uses(), Canceled(), started, count, now)
    }

    /** Starts the hardware for the head of the active list. */
    method TimerOn()
      requires active != []
      modifies `started, `count
      ensures started == now && count == active[0].deltaTicks
    {
      started, count := now, active[0].deltaTicks;
    }

    method TimerOff()
      modifies `started, `count
      ensures started == now && count == 0
    {
      started, count := now, 0;
    }

    method PushFree(timer: MsecTimer)
      modifies `free
      ensures free == [timer] + old(free)
    {
      free := [timer] + free;
    }

    /** A free record, or a new one when none is free. */
    method PopFree() returns (timer: MsecTimer)
      requires Valid()
      modifies `free, `all
      ensures Valid()
      ensures if old(free) != [] then timer == old(free)[0] && free == old(free)[1..] && all == old(all)
              else fresh(timer) && free == [] && all == old(all) + {timer}
      ensures old(Valid()) ==> Nodes(active) == old(Nodes(active))
      ensures Uses() - {timer} == old(Uses()) - {timer}
      ensures Canceled() - {timer} == old(Canceled()) - {timer}
    {
      if free == [] {
        timer := new MsecTimer();
        all := all + {timer};
        PushFree(timer);
      }
      timer := free[0];
      free := free[1..];
    }

    /** The part of delay_msec_timer and delay_msec_timer_non_blocking before the timer is armed. */
    method Take(msec: nat, blocking: bool, repeating: bool) returns (timer: MsecTimer)
      requires Valid() && msec * 10 <= MAX_TICKS
      requires free != [] ==> free[0] !in active
      modifies `free, `all, `taken, all
      ensures Valid() && timer in all
      ensures old(free) == [] ==> timer !in old(all)
      ensures old(free) != [] ==> timer == old(free)[0]
      ensures Abs() == old(Abs()).(free := if old(free) == [] then [] else old(free)[1..],
                                   taken := old(taken) + multiset{timer},
                                   uses := old(Uses())[timer := Use(blocking, repeating, msec * 10)],
                                   canceled := old(Canceled()) - {timer})
    {
      timer := PopFree();
      ghost var before := Uses();
      FillIn(timer, msec * 10, blocking, repeating);
      PutSame(before, old(Uses()), timer, Use(blocking, repeating, msec * 10));
      taken := taken + multiset{timer};
    }

    method FillIn(timer: MsecTimer, origTicks: int, blocking: bool, repeating: bool)
      requires Valid() && timer in all && timer !in active
      modifies timer
      ensures Nodes(active) == old(Nodes(active))
      ensures Uses() == old(Uses())[timer := Use(blocking, repeating, origTicks)]
      ensures Canceled() == old(Canceled()) - {timer}
    {
      timer.origTicks := origTicks;
      timer.blocking := blocking;
      timer.repeating := repeating;
      timer.canceled := false;
    }

    /** Rewrites one delay of the active list. */
    method SetDelta(i: nat, delta: int)
      requires Valid() && i < |active|
      modifies all`deltaTicks
      ensures SameRecords()
      ensures Valid()
      ensures Nodes(active) == old(Nodes(active))[i := Node(active[i], delta)]
    {
      active[i].deltaTicks := delta;
    }

    /** Links a record that is not queued in front of position i. */
    method Link(i: nat, timer: MsecTimer, delta: int)
      requires Valid() && i <= |active| && timer in all && timer !in active
      modifies `active, timer`deltaTicks
      ensures SameRecords()
      ensures Valid()
      ensures active == old(active)[..i] + [timer] + old(active)[i..]
      ensures Nodes(active) == old(Nodes(active))[..i] + [Node(timer, delta)] + old(Nodes(active))[i..]
    {
      timer.deltaTicks := delta;
      active := active[..i] + [timer] + active[i..];
    }

    /** Unlinks position i. */
    method Unlink(i: nat)
      requires Valid() && i < |active|
      modifies `active
      ensures Valid()
      ensures active == Without(old(active), i)
      ensures Nodes(active) == Without(old(Nodes(active)), i)
    {
      active := active[..i] + active[i + 1..];
    }

    /** delay_msec_timer_delay_aux, up to the wait. */
    method DelayAux(ticks0: int, enable: bool, timer: MsecTimer)
      requires Valid() && timer in all && timer !in active
      modifies `active, `started, `count, all`deltaTicks
      ensures SameRecords()
      ensures Valid()
      ensures forall t :: t in active ==> t in old(active) || t == timer
      ensures enable ==> Abs() == StartTimer(old(Abs()), timer, ticks0)
      ensures !enable ==> Abs() == old(Abs()).(active := Arm(old(Nodes(active)), timer, ticks0, 0))
    {
      var done := if enable && active != [] then now - started else 0;
      var startTimer := Queue(ticks0, done, timer);
      if enable && startTimer {
        Reprogram();
      }
    }

    /** The part of delay_msec_timer_delay_aux that rewrites the list. */
    method Queue(ticks0: int, done: int, timer: MsecTimer) returns (startTimer: bool)
      requires Valid() && timer in all && timer !in active
      modifies `active, all`deltaTicks
      ensures SameRecords()
      ensures Valid()
      ensures forall t :: t in active ==> t in old(active) || t == timer
      ensures startTimer <==> GoesFirst(old(Nodes(active)), ticks0, done)
      ensures Abs() == old(Abs()).(active := Arm(old(Nodes(active)), timer, ticks0, done))
    {
      ghost var q := Nodes(active);
      startTimer := false;
      if active == [] {
        Link(0, timer, ticks0);
        startTimer := true;
      } else if Sub32(active[0].deltaTicks, done) > ticks0 {
        ArmAtHead(q, timer, ticks0, done);
        SetDelta(0, Sub32(active[0].deltaTicks, Add32(ticks0, done)));
        Link(0, timer, ticks0);
        startTimer := true;
      } else {
        InsertBehindHead(timer, Sub32(Add32(ticks0, done), active[0].deltaTicks));
      }
      assert Nodes(active) == Arm(q, timer, ticks0, done);
    }

    /** The walk down the list, past every node not later than the timer. */
    method Walk(ghost timer: MsecTimer, left: int) returns (i: nat, ticks: int)
      requires Valid() && active != []
      ensures i < |active| && (i + 1 < |active| ==> ticks < active[i + 1].deltaTicks)
      ensures Nodes(active)[1..i + 1] + Place(Nodes(active)[i + 1..], timer, ticks) == Place(Nodes(active)[1..], timer, left)
    {
      ghost var q := Nodes(active);
      hide Place;
      i, ticks := 0, left;
      assert q[1..1] == [];
      while i + 1 < |active|
        invariant 0 <= i < |active|
        invariant q[1..i + 1] + Place(q[i + 1..], timer, ticks) == Place(q[1..], timer, left)
      {
        if ticks < active[i + 1].deltaTicks {
          break;
        }
        PlaceStep(q, i, timer, ticks);
        i := i + 1;
        ticks := Sub32(ticks, active[i].deltaTicks);
      }
    }

    /** The timer goes behind every node not later than it; the one after it waits that much less. */
    method InsertBehindHead(timer: MsecTimer, left: int)
      requires Valid() && active != [] && timer in all && timer !in active
      modifies `active, all`deltaTicks
      ensures SameRecords()
      ensures Valid()
      ensures forall t :: t in active ==> t in old(active) || t == timer
      ensures Nodes(active) == [old(Nodes(active))[0]] + Place(old(Nodes(active))[1..], timer, left)
    {
      ghost var q := Nodes(active);
      var i, ticks := Walk(timer, left);
      PlaceHere(q, i, timer, ticks);
      hide Place;
      if i + 1 < |active| {
        SetDelta(i + 1, Sub32(active[i + 1].deltaTicks, ticks));
      }
      Link(i + 1, timer, ticks);
    }

    /** delay_msec_timer_cancel: the flag is set at once, the message follows. */
    method Cancel(timer: MsecTimer)
      requires Valid() && timer in all
      modifies timer`canceled
      ensures Abs() == old(Abs()).(canceled := old(Canceled()) + {timer})
    {
      timer.canceled := true;
      assert Canceled() == old(Canceled()) + {timer};
      assert Nodes(active) == old(Nodes(active));
    }

    /** Where the timer is queued, or the length of the list. */
    method Position(timer: MsecTimer) returns (i: nat)
      ensures i == IndexOf(active, timer)
    {
      i := 0;
      while i < |active| && active[i] != timer
        invariant i <= |active|
        invariant IndexOf(active, timer) == i + IndexOf(active[i..], timer)
        decreases |active| - i
      {
        assert active[i..][1..] == active[i + 1..];
        i := i + 1;
      }
    }

    /** handle_timer_cancel. A record that is not queued any more is not found there, but is freed all the same. */
    method HandleTimerCancel(timer: MsecTimer)
      requires Valid() && timer in all
      modifies `active, `free, `started, `count, all`deltaTicks
      ensures Valid()
      ensures Abs() == HandleCancel(old(Abs()), timer)
    {
      ghost var w := Abs();
      assert Timers(w.active) == active;
      CancelsNothing(w, timer);
      hide HandleCancel, TooLate, IndexOf;
      if !timer.canceled {
        return;
      }
      var i := Position(timer);
      if i == |active| {
        PushFree(timer);
      } else if i == 0 {
        var done := now - started;
        if Sub32(timer.deltaTicks, done) <= 1 {
          return;
        }
        CancelsHead(w, timer, done);
        CancelHead(done);
      } else {
        CancelsBehind(w, timer, i);
        CancelBehind(i);
      }
    }

    /** Frees a timer behind the head; the hardware runs on. */
    method CancelBehind(i: nat)
      requires Valid() && 0 < i < |active|
      modifies `active, `free, all`deltaTicks
      ensures SameRecords()
      ensures Valid()
      ensures Abs() == old(Abs()).(free := [old(active)[i]] + old(free), active := TakeOut(old(Nodes(active)), i))
    {
      TakeOutAt(Nodes(active), i);
      var timer := active[i];
      if i + 1 < |active| {
        SetDelta(i + 1, Add32(active[i + 1].deltaTicks, timer.deltaTicks));
      }
      Unlink(i);
      PushFree(timer);
    }

    /** Frees the head with `done` ticks counted and restarts the hardware. */
    method CancelHead(done: int)
      requires Valid() && active != [] && Sub32(active[0].deltaTicks, done) > 1
      modifies `active, `free, `started, `count, all`deltaTicks
      ensures SameRecords()
      ensures Valid()
      ensures Abs() == Program(old(Abs()).(free := [old(active)[0]] + old(free)),
                               CancelAt(old(Nodes(active)), 0, done))
    {
      var timer := active[0];
      UnlinkHead(done);
      Reprogram();
      PushFree(timer);
    }

    method UnlinkHead(done: int)
      requires Valid() && active != [] && Sub32(active[0].deltaTicks, done) > 1
      modifies `active, all`deltaTicks
      ensures SameRecords()
      ensures Valid()
      ensures Abs() == old(Abs()).(active := CancelAt(old(Nodes(active)), 0, done))
    {
      CancelHeadAt(Nodes(active), done);
      if |active| > 1 {
        SetDelta(1, Add32(active[1].deltaTicks, Sub32(active[0].deltaTicks, done)));
      }
      Unlink(0);
    }

    /** Stops the hardware and starts it again for the head, if there is one. */
    method Reprogram()
      requires Valid()
      modifies `started, `count
      ensures Valid()
      ensures Abs() == Program(old(Abs()), old(Nodes(active)))
    {
      TimerOff();
      if active != [] {
        TimerOn();
      }
    }

    // ---------------------------------------------------------------- expiry

    /** tickle_pop_timer; `log` lists the callbacks run and the callers woken. */
    method TicklePopTimer(timer: MsecTimer, again0: seq<MsecTimer>, ghost log0: seq<MsecTimer>)
      returns (again: seq<MsecTimer>, ghost log: seq<MsecTimer>)
      requires Valid() && timer in all
      modifies `free, `woken, timer`canceled
      ensures Valid() && Uses() == old(Uses()) && Nodes(active) == old(Nodes(active))
      ensures Expiry(free, woken, Canceled(), again, log) ==
              Tickle(Expiry(old(free), old(woken), old(Canceled()), again0, log0), timer, timer.AsUse())
      ensures again == again0 || again == [timer] + again0
    {
      again, log := again0, log0;
      if timer.blocking {
        woken := woken + multiset{timer};
        log := log + [timer];
      } else {
        if !timer.canceled {
          log := log + [timer];
        }
        if timer.repeating && !timer.canceled {
          again := [timer] + again;
        } else {
          timer.canceled := false;
          PushFree(timer);
          assert Canceled() == old(Canceled()) - {timer};
        }
      }
    }

    /** handle_timer_pop. */
    method HandleTimerPop() returns (ghost log: seq<MsecTimer>)
      requires Valid() && active != [] && Fits(Nodes(active))
      modifies `active, `free, `woken, `started, `count, all`deltaTicks, all`canceled
      ensures Valid()
      ensures Known(old(Abs())) && Abs() == HandlePop(old(Abs())) && log == Fire(old(Abs())).ran
    {
      ghost var w := Abs();
      assert Known(w);
      TimerOff();
      var again, slack;
      again, slack, log := EmptyBatch(w);
      RearmAll(again);
      Restart(slack);
    }

    /** The loop that puts the repeating timers back. */
    method RearmAll(again0: seq<MsecTimer>)
      requires Valid() && NoRepeats(again0)
      requires forall t :: t in again0 ==> t in all
      requires forall t :: t in again0 ==> t !in active
      modifies `active, `started, `count, all`deltaTicks
      ensures SameRecords()
      ensures Valid()
      ensures Abs() == old(Abs()).(active := Rearm(old(Nodes(active)), again0, old(Uses())))
    {
      var again := again0;
      ghost var uses := Uses();
      while again != []
        invariant Valid() && NoRepeats(again) && SameRecords()
        invariant forall t :: t in again ==> t in all
        invariant forall t :: t in again ==> t !in active
        invariant Rearm(Nodes(active), again, uses) == Rearm(old(Nodes(active)), again0, uses)
        invariant started == old(started) && count == old(count)
        decreases |again|
      {
        var timer := again[0];
        DelayAux(timer.origTicks, false, timer);
        again := again[1..];
      }
    }

    /** The next countdown, longer by the ticks the batch took in advance. */
    method Restart(slack: int)
      requires Valid()
      modifies `started, `count, all`deltaTicks
      ensures SameRecords()
      ensures Valid()
      ensures Abs() == Program(old(Abs()), AddSlack(old(Nodes(active)), slack))
    {
      if active != [] {
        SetDelta(0, Add32(active[0].deltaTicks, slack));
      }
      Reprogram();
    }

    /** Where the records of the batch have gone so far. */
    ghost function Gone(again: seq<MsecTimer>, log: seq<MsecTimer>): Expiry<MsecTimer>
      reads this, all
    {
      Expiry(free, woken, Canceled(), again, log)
    }

    /** Nothing but the active list, the places of the fired records and their flags has changed. */
    ghost predicate During(w: World<MsecTimer>, again: seq<MsecTimer>)
      reads this, all
    {
      && Valid() && Uses() == w.uses
      && NoRepeats(again) && (forall t :: t in again ==> t in all)
      && (forall t :: t in again ==> t !in active)
    }

    /** Takes the head off the list and tickles it. */
    method FireHead(ghost w: World<MsecTimer>, again0: seq<MsecTimer>, ghost log0: seq<MsecTimer>)
      returns (again: seq<MsecTimer>, ghost log: seq<MsecTimer>)
      requires active != [] && During(w, again0)
      modifies `active, `free, `woken, all`canceled
      ensures During(w, again)
      ensures Nodes(active) == old(Nodes(active))[1..]
      ensures Gone(again, log) ==
              Tickle(old(Gone(again0, log0)), old(active[0]), old(active[0].AsUse()))
    {
      var timer := active[0];
      assert timer !in again0;
      NoRepeatsCons(timer, again0);
      Unlink(0);
      again, log := TicklePopTimer(timer, again0, log0);
    }

    /** In the middle of a batch, with so much left of the window and so much slack. */
    ghost predicate AtBatch(w: World<MsecTimer>, again: seq<MsecTimer>, log: seq<MsecTimer>, budget: nat, slack: int)
      reads this, all
    {
      During(w, again) && InBatch(w, Nodes(active), Gone(again, log), budget, slack)
    }

    /** The first timer of a batch. */
    method FireFirst(ghost w: World<MsecTimer>) returns (again: seq<MsecTimer>, ghost log: seq<MsecTimer>)
      requires Valid() && active != [] && Fits(Nodes(active)) && Known(w)
      requires w == Abs().(started := w.started, count := w.count)
      modifies `active, `free, `woken, all`canceled
      ensures AtBatch(w, again, log, WINDOW, 0)
    {
      hide InBatch, Tickle, Fits;
      BatchStart(w);
      again, log := FireHead(w, [], []);
    }

    /** The next timer, when it is within what is left of the window. */
    method FireNext(ghost w: World<MsecTimer>, again0: seq<MsecTimer>, ghost log0: seq<MsecTimer>,
                    ghost maxTicks: nat, ghost slack: int)
      returns (again: seq<MsecTimer>, ghost log: seq<MsecTimer>)
      requires active != [] && active[0].deltaTicks <= maxTicks && AtBatch(w, again0, log0, maxTicks, slack)
      modifies `active, `free, `woken, all`canceled
      ensures 0 <= old(active[0].deltaTicks) && |active| < |old(active)|
      ensures AtBatch(w, again, log, maxTicks - old(active[0].deltaTicks), slack + old(active[0].deltaTicks))
    {
      hide InBatch, Tickle;
      BatchStep(w, Nodes(active), Gone(again0, log0), maxTicks, slack);
      again, log := FireHead(w, again0, log0);
      assert |Nodes(active)| == |active|;
    }

    lemma BatchEnds(w: World<MsecTimer>, again: seq<MsecTimer>, log: seq<MsecTimer>, maxTicks: nat, slack: int)
      requires AtBatch(w, again, log, maxTicks, slack) && (active == [] || active[0].deltaTicks > maxTicks)
      ensures During(w, again) && w.active != [] && Known(w)
      ensures Nodes(active) == w.active[FiredBy(w)..] && slack == Slack(w)
      ensures Gone(again, log) == Fire(w)
    {
      BatchDone(w, Nodes(active), Gone(again, log), maxTicks, slack);
    }

    /** Fires the head and every timer within the window behind it. */
    method EmptyBatch(ghost w: World<MsecTimer>) returns (again: seq<MsecTimer>, slack: int, ghost log: seq<MsecTimer>)
      requires Valid() && active != [] && Fits(Nodes(active)) && Known(w)
      requires w == Abs().(started := w.started, count := w.count)
      modifies `active, `free, `woken, all`canceled
      ensures During(w, again)
      ensures Nodes(active) == w.active[FiredBy(w)..] && slack == Slack(w)
      ensures Gone(again, log) == Fire(w)
    {
      hide AtBatch, Fire, FiredBy, Slack, Gone, During;
      slack := 0;
      again, log := FireFirst(w);
      var maxTicks: nat := 3;
      while active != []
        invariant AtBatch(w, again, log, maxTicks, slack)
        decreases |active|
      {
        var delta := active[0].deltaTicks;
        if delta > maxTicks {
          break;
        }
        again, log := FireNext(w, again, log, maxTicks, slack);
        if delta != 0 {
          maxTicks := maxTicks - delta;
          slack := slack + delta;
        }
      }
      BatchEnds(w, again, log, maxTicks, slack);
    }
  }

  /** Part way through the batch: what is queued, where the fired records went, the window and slack left. */
  predicate InBatch<T(==)>(w: World<T>, rest: seq<Node<T>>, e: Expiry<T>, budget: nat, slack: int) {
    && w.active != [] && Known(w) && Fits(rest)
    && var k := Coalesce(rest, budget);
       && rest[k..] == w.active[FiredBy(w)..]
       && slack + Total(rest[..k]) == Slack(w)
       && (forall t :: t in Timers(rest) ==> t in w.uses)
       && TickleAll(e, Timers(rest)[..k], w.uses) == Fire(w)
  }

  lemma BatchStart<T>(w: World<T>)
    requires w.active != [] && Known(w) && Fits(w.active)
    ensures var t := w.active[0].timer;
            t in w.uses &&
            InBatch(w, w.active[1..], Tickle(Expiry(w.free, w.woken, w.canceled, [], []), t, w.uses[t]), WINDOW, 0)
  {
    var rest, n := w.active[1..], FiredBy(w);
    var e := Expiry(w.free, w.woken, w.canceled, [], []);
    FiredFront(w);
    var t := w.active[0].timer;
    assert TickleAll(e, Fired(w), w.uses) == TickleAll(Tickle(e, t, w.uses[t]), Fired(w)[1..], w.uses);
    assert rest[n - 1..] == w.active[n..] && rest[..n - 1] == w.active[1..n];
  }

  lemma FiredFront<T>(w: World<T>)
    requires w.active != [] && Known(w)
    ensures w.active[0].timer in w.uses && Fired(w)[0] == w.active[0].timer
    ensures forall t :: t in Timers(w.active[1..]) ==> t in w.uses
    ensures Fired(w)[1..] == Timers(w.active[1..])[..FiredBy(w) - 1]
  {
    assert Timers(w.active)[0] == w.active[0].timer;
    assert Timers(w.active[1..]) == Timers(w.active)[1..];
  }

  lemma BatchStep<T>(w: World<T>, rest: seq<Node<T>>, e: Expiry<T>, budget: nat, slack: int)
    requires InBatch(w, rest, e, budget, slack) && rest != [] && rest[0].delta <= budget
    ensures 0 <= rest[0].delta && rest[0].timer in w.uses
    ensures InBatch(w, rest[1..], Tickle(e, rest[0].timer, w.uses[rest[0].timer]),
                    budget - rest[0].delta, slack + rest[0].delta)
  {
    var k := Coalesce(rest, budget);
    assert Timers(rest)[0] == rest[0].timer;
    assert Timers(rest[1..]) == Timers(rest)[1..];
    assert Timers(rest)[..k][1..] == Timers(rest[1..])[..k - 1];
    assert rest[1..][k - 1..] == rest[k..] && rest[..k][1..] == rest[1..][..k - 1];
  }

  lemma BatchDone<T>(w: World<T>, rest: seq<Node<T>>, e: Expiry<T>, budget: nat, slack: int)
    requires InBatch(w, rest, e, budget, slack) && (rest == [] || rest[0].delta > budget)
    ensures rest == w.active[FiredBy(w)..] && slack == Slack(w) && e == Fire(w)
  {
    assert rest[..0] == [] && rest[0..] == rest;
  }

  lemma NoRepeatsCons(t: MsecTimer, s: seq<MsecTimer>)
    requires t !in s && NoRepeats(s)
    ensures NoRepeats([t] + s)
  {
  }

  lemma PutSame<K, V>(a: map<K, V>, b: map<K, V>, k: K, v: V)
    requires a - {k} == b - {k}
    ensures a[k := v] == b[k := v]
  {
    forall x | x in a[k := v] && x != k
      ensures x in b && a[x] == b[x]
    {
      assert x in a - {k};
    }
    forall x | x in b[k := v] && x != k
      ensures x in a
    {
      assert x in b - {k};
    }
  }

  /** What cancelling the head comes to. */
  lemma CancelsHead<T>(w: World<T>, t: T, done: int)
    requires t in w.canceled && w.active != [] && Timers(w.active)[0] == t
    requires done == w.now - w.started && Sub32(w.active[0].delta, done) > 1
    ensures HandleCancel(w, t) == Program(w.(free := [t] + w.free), CancelAt(w.active, 0, done))
  {
    assert IndexOf(Timers(w.active), t) == 0;
  }

  /** The cases in which the queue stays as it is. */
  lemma CancelsNothing<T>(w: World<T>, t: T)
    ensures t !in w.canceled ==> HandleCancel(w, t) == w
    ensures t in w.canceled && IndexOf(Timers(w.active), t) == |w.active| ==> HandleCancel(w, t) == w.(free := [t] + w.free)
    ensures w.active != [] && IndexOf(Timers(w.active), t) == 0 && Sub32(w.active[0].delta, w.now - w.started) <= 1 ==>
              HandleCancel(w, t) == w
  {
  }

  /** What cancelling a later timer comes to. */
  lemma CancelsBehind<T>(w: World<T>, t: T, i: nat)
    requires t in w.canceled && 0 < i < |w.active| && IndexOf(Timers(w.active), t) == i
    ensures HandleCancel(w, t) == w.(free := [t] + w.free, active := TakeOut(w.active, i))
  {
  }

  lemma PlaceStep<T>(q: seq<Node<T>>, i: nat, timer: T, ticks: int)
    requires i + 1 < |q| && ticks >= q[i + 1].delta
    ensures q[1..i + 1] + Place(q[i + 1..], timer, ticks) ==
            q[1..i + 2] + Place(q[i + 2..], timer, Sub32(ticks, q[i + 1].delta))
  {
    assert q[i + 1..][1..] == q[i + 2..];
    assert q[1..i + 2] == q[1..i + 1] + [q[i + 1]];
  }

  /** Arming in front of the head, written with slices. */
  lemma ArmAtHead<T>(q: seq<Node<T>>, timer: T, ticks: int, done: int)
    requires q != [] && GoesFirst(q, ticks, done)
    ensures var r := q[0 := q[0].(delta := Sub32(q[0].delta, Add32(ticks, done)))];
            Arm(q, timer, ticks, done) == r[..0] + [Node(timer, ticks)] + r[0..]
  {
  }

  /** Where the walk stops, written with slices. */
  lemma PlaceHere<T>(q: seq<Node<T>>, i: nat, timer: T, ticks: int)
    requires i < |q| && (i + 1 < |q| ==> ticks < q[i + 1].delta)
    ensures [q[0]] + (q[1..i + 1] + Place(q[i + 1..], timer, ticks)) ==
            var r := if i + 1 == |q| then q
                     else q[i + 1 := q[i + 1].(delta := Sub32(q[i + 1].delta, ticks))];
            r[..i + 1] + [Node(timer, ticks)] + r[i + 1..]
  {
    assert [q[0]] + q[1..i + 1] == q[..i + 1];
  }

  /** Taking out a node, written with slices. */
  lemma {:induction false} TakeOutAt<T>(q: seq<Node<T>>, i: nat)
    requires i < |q|
    ensures TakeOut(q, i) == Without(if i + 1 == |q| then q
                                     else q[i + 1 := q[i + 1].(delta := Add32(q[i + 1].delta, q[i].delta))], i)
    decreases i
  {
    if i > 0 {
      TakeOutAt(q[1..], i - 1);
    }
  }

  lemma CancelHeadAt<T>(q: seq<Node<T>>, done: int)
    requires q != [] && !TooLate(q, 0, done)
    ensures CancelAt(q, 0, done) ==
            Without(if |q| == 1 then q
                    else q[1 := q[1].(delta := Add32(q[1].delta, Sub32(q[0].delta, done)))], 0)
  {
  }
}
