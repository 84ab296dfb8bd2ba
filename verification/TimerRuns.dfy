/**
 Whole runs of the timer service: callers take, arm, cancel and give back
 records while the hardware counts and the delay manager's thread handles
 expiries and cancel messages, in any order.
 */
module TimerRuns {
  import opened TimerQueue
  import opened TimerWorld

  // ---------------------------------------------------------------- records

  lemma TimersCons<T>(x: Node<T>, q: seq<Node<T>>)
    ensures Timers([x] + q) == [x.timer] + Timers(q)
  {
  }

  lemma {:induction false} PlaceTimers<T>(rest: seq<Node<T>>, t: T, ticks: int)
    ensures multiset(Timers(Place(rest, t, ticks))) == multiset(Timers(rest)) + multiset{t}
    decreases |rest|
  {
    if rest == [] {
      assert Timers(Place(rest, t, ticks)) == [t];
    } else {
      assert rest == [rest[0]] + rest[1..];
      TimersCons(rest[0], rest[1..]);
      if ticks < rest[0].delta {
        assert Timers(Place(rest, t, ticks)) == [t] + Timers(rest);
      } else {
        PlaceTimers(rest[1..], t, Sub32(ticks, rest[0].delta));
        TimersCons(rest[0], Place(rest[1..], t, Sub32(ticks, rest[0].delta)));
      }
    }
  }

  lemma ArmFirstTimers<T>(q: seq<Node<T>>, t: T, ticks: int, done: int)
    requires q == [] || GoesFirst(q, ticks, done)
    ensures Timers(Arm(q, t, ticks, done)) == [t] + Timers(q)
  {
  }

  lemma ArmLaterTimers<T>(q: seq<Node<T>>, t: T, ticks: int, done: int)
    requires q != [] && !GoesFirst(q, ticks, done)
    ensures multiset(Timers(Arm(q, t, ticks, done))) == multiset(Timers(q)) + multiset{t}
  {
    var rest, left := q[1..], Sub32(Add32(ticks, done), q[0].delta);
    PlaceTimers(rest, t, left);
    hide Place, Timers;
    TimersCons(q[0], Place(rest, t, left));
    TimersCons(q[0], rest);
    assert q == [q[0]] + rest;
  }

  lemma ArmTimers<T>(q: seq<Node<T>>, t: T, ticks: int, done: int)
    ensures multiset(Timers(Arm(q, t, ticks, done))) == multiset(Timers(q)) + multiset{t}
  {
    hide Arm, Timers, GoesFirst;
    if q == [] || GoesFirst(q, ticks, done) {
      ArmFirstTimers(q, t, ticks, done);
    } else {
      ArmLaterTimers(q, t, ticks, done);
    }
  }

  lemma {:induction false} RearmTimers<T>(q: seq<Node<T>>, again: seq<T>, uses: map<T, Use>)
    requires forall t :: t in again ==> t in uses
    ensures multiset(Timers(Rearm(q, again, uses))) == multiset(Timers(q)) + multiset(again)
    decreases |again|
  {
    if again != [] {
      ArmTimers(q, again[0], uses[again[0]].orig, 0);
      RearmTimers(Arm(q, again[0], uses[again[0]].orig, 0), again[1..], uses);
      assert again == [again[0]] + again[1..];
    }
  }

  /** The records an expiry has dealt with so far, wherever they went. */
  function Dealt<T>(e: Expiry<T>): multiset<T> {
    multiset(e.free) + e.woken + multiset(e.again)
  }

  lemma TicklePlaces<T>(e: Expiry<T>, t: T, use: Use)
    ensures Dealt(Tickle(e, t, use)) == Dealt(e) + multiset{t}
  {
  }

  /** Each fired record goes to one place: its caller, the free list or the repeat list. */
  lemma {:induction false} TickleAllPlaces<T>(e: Expiry<T>, ts: seq<T>, uses: map<T, Use>)
    requires forall t :: t in ts ==> t in uses
    ensures Dealt(TickleAll(e, ts, uses)) == Dealt(e) + multiset(ts)
    decreases |ts|
  {
    hide Tickle, Dealt;
    if ts != [] {
      var first := ts[0];
      TicklePlaces(e, first, uses[first]);
      TickleAllPlaces(Tickle(e, first, uses[first]), ts[1..], uses);
      FirstAndRest(ts);
    }
  }

  lemma FirstAndRest<A>(s: seq<A>)
    requires s != []
    ensures multiset(s) == multiset{s[0]} + multiset(s[1..])
  {
    assert s == [s[0]] + s[1..];
  }

  lemma WithoutMultiset<A>(s: seq<A>, i: nat)
    requires i < |s|
    ensures multiset(Without(s, i)) + multiset{s[i]} == multiset(s)
  {
    assert s == s[..i] + [s[i]] + s[i + 1..];
  }

  lemma PopConserves<T>(w: World<T>)
    requires Conserved(w) && Known(w) && w.active != []
    ensures Conserved(HandlePop(w))
  {
    var e, rest := Fire(w), w.active[FiredBy(w)..];
    PopTimers(w);
    FireDeals(w);
    FiredAndKept(w);
    hide HandlePop, Fire, Fired, FiredBy, Timers, Known;
    Regroup(multiset(Timers(rest)), multiset(Fired(w)), multiset(w.free), w.taken, w.woken,
            multiset(e.free), e.woken, multiset(e.again));
  }

  lemma FiredAndKept<T>(w: World<T>)
    requires w.active != []
    ensures multiset(Timers(w.active)) == multiset(Fired(w)) + multiset(Timers(w.active[FiredBy(w)..]))
  {
    assert Timers(w.active) == Fired(w) + Timers(w.active[FiredBy(w)..]);
  }

  /** What left the queue is in the new places, so the total is the same. */
  lemma Regroup<A>(kept: multiset<A>, fired: multiset<A>, free: multiset<A>, taken: multiset<A>, woken: multiset<A>,
                   free': multiset<A>, woken': multiset<A>, again: multiset<A>)
    requires free' + woken' + again == free + woken + fired
    ensures (kept + again) + free' + taken + woken' == (fired + kept) + free + taken + woken
  {
    assert (kept + again) + free' + taken + woken' == (free' + woken' + again) + kept + taken;
  }

  lemma PopTimers<T>(w: World<T>)
    requires Known(w) && w.active != []
    ensures var v := HandlePop(w);
            && multiset(Timers(v.active)) == multiset(Timers(w.active[FiredBy(w)..])) + multiset(Fire(w).again)
            && v.free == Fire(w).free && v.woken == Fire(w).woken && v.taken == w.taken && v.uses == w.uses
  {
    var rest := w.active[FiredBy(w)..];
    RearmTimers(rest, Fire(w).again, w.uses);
    var q := Rearm(rest, Fire(w).again, w.uses);
    assert Timers(AddSlack(q, Slack(w))) == Timers(q);
  }

  lemma FireDeals<T>(w: World<T>)
    requires Known(w) && w.active != []
    ensures Dealt(Fire(w)) == multiset(w.free) + w.woken + multiset(Fired(w))
  {
    TickleAllPlaces(Expiry(w.free, w.woken, w.canceled, [], []), Fired(w), w.uses);
  }

  lemma CancelConserves<T>(w: World<T>, t: T)
    requires Conserved(w) && (t in w.canceled ==> t in Timers(w.active))
    ensures Conserved(HandleCancel(w, t))
  {
    var i := IndexOf(Timers(w.active), t);
    if t in w.canceled && !TooLate(w.active, i, Done(w)) {
      CancelMoves(w, t);
      hide HandleCancel, Timers;
      var v := HandleCancel(w, t);
      OneMoves(multiset(Timers(v.active)), multiset(w.free), w.taken, w.woken, t);
    }
  }

  /** The record goes from the queue to the free list. */
  lemma CancelMoves<T>(w: World<T>, t: T)
    requires t in w.canceled && t in Timers(w.active) && !TooLate(w.active, IndexOf(Timers(w.active), t), Done(w))
    ensures var v := HandleCancel(w, t);
            && multiset(Timers(v.active)) + multiset{t} == multiset(Timers(w.active))
            && multiset(v.free) == multiset(w.free) + multiset{t}
            && v.taken == w.taken && v.woken == w.woken && v.uses == w.uses
  {
    var i := IndexOf(Timers(w.active), t);
    var q := if i == 0 then w.active[0 := w.active[0].(delta := Sub32(w.active[0].delta, Done(w)))] else w.active;
    assert Timers(q) == Timers(w.active);
    TakeOutTimers(q, i);
    WithoutMultiset(Timers(w.active), i);
  }

  lemma OneMoves<A>(a: multiset<A>, b: multiset<A>, c: multiset<A>, d: multiset<A>, t: A)
    ensures a + (b + multiset{t}) + c + d == (a + multiset{t}) + b + c + d
  {
  }

  lemma OneTooMany<A>(a: multiset<A>, b: multiset<A>, c: multiset<A>, d: multiset<A>, t: A)
    ensures a + (b + multiset{t}) + c + d != a + b + c + d
  {
    assert (a + (b + multiset{t}) + c + d)[t] == (a + b + c + d)[t] + 1;
  }

  /**
   A cancel message is safe exactly when its record is still queued or its flag
   is clear: handled for a record that has already been freed, it frees it twice.
   */
  lemma CancelConservesExactly<T>(w: World<T>, t: T)
    requires Conserved(w)
    ensures Conserved(HandleCancel(w, t)) <==> (t in w.canceled ==> t in Timers(w.active))
  {
    if t in w.canceled && t !in Timers(w.active) {
      var v := HandleCancel(w, t);
      assert IndexOf(Timers(w.active), t) == |w.active|;
      assert v == w.(free := [t] + w.free);
      OneTooMany(multiset(Timers(w.active)), multiset(w.free), w.taken, w.woken, t);
      assert multiset(v.free) == multiset(w.free) + multiset{t};
    } else {
      CancelConserves(w, t);
    }
  }

  // ---------------------------------------------------------------- runs

  /** When the use of a record began, how often it has fired since, whether a cancel was asked for. */
  datatype Plan = Plan(armed: int, fires: nat, asked: bool)

  /** A callback run, or a caller woken: which timer, when, and its plan at that moment. */
  datatype Firing<T> = Firing(timer: T, time: int, use: Use, plan: Plan)

  /** `mail` holds the records whose cancel message has not been handled. */
  datatype Run<!T> = Run(w: World<T>, mail: set<T>, plans: map<T, Plan>, log: seq<Firing<T>>)

  datatype Event<T> =
    | Tick(n: nat)             // the hardware counts
    | Take(t: T, use: Use)     // pop_free_msecTimer
    | Start(t: T)              // delay_msec_timer_delay_aux, by a caller
    | Ask(t: T)                // delay_msec_timer_cancel
    | Cancel(t: T)             // the cancel message is handled
    | Expire                   // the expiry message is handled
    | Return(t: T)             // push_free_msecTimer, by a woken caller

  predicate Enabled<T>(r: Run<T>, e: Event<T>) {
    var w := r.w;
    match e
    case Tick(n) => w.active != [] ==> w.now + n <= w.started + w.count
    case Take(t, use) => (if w.free == [] then t !in w.uses else t == w.free[0]) && 0 <= use.orig <= MAX_TICKS
    case Start(t) => t in w.taken
    case Ask(t) => t in Timers(w.active) && t in w.uses && t in r.plans && !w.uses[t].blocking && t !in r.mail
    case Cancel(t) => t in r.mail
    case Expire => w.active != [] && w.now == w.started + w.count
    case Return(t) => t in w.woken
  }

  function Firings<T>(w: World<T>, plans: map<T, Plan>, ts: seq<T>): (fs: seq<Firing<T>>)
    requires forall t :: t in ts ==> t in w.uses && t in plans
    ensures |fs| == |ts|
    ensures forall i :: 0 <= i < |ts| ==> fs[i] == Firing(ts[i], w.now, w.uses[ts[i]], plans[ts[i]])
  {
    seq(|ts|, i requires 0 <= i < |ts| => Firing(ts[i], w.now, w.uses[ts[i]], plans[ts[i]]))
  }

  /** A repeating timer that fires is one round further on. */
  function NextRound<T>(plans: map<T, Plan>, ts: seq<T>): map<T, Plan> {
    map t | t in plans :: if t in ts then plans[t].(fires := plans[t].fires + 1) else plans[t]
  }

  function Next<T(!new)>(r: Run<T>, e: Event<T>): Run<T>
    requires Good(r) && Enabled(r, e)
  {
    var w := r.w;
    match e
    case Tick(n) => r.(w := w.(now := w.now + n))
    case Take(t, use) =>
      r.(w := w.(free := if w.free == [] then [] else w.free[1..], taken := w.taken + multiset{t},
                 uses := w.uses[t := use], canceled := w.canceled - {t}))
    case Start(t) =>
      TakenIsKnown(r, t);
      var v := w.(taken := w.taken - multiset{t});
      r.(w := StartTimer(v, t, w.uses[t].orig), plans := r.plans[t := Plan(w.now, 0, false)])
    case Ask(t) =>
      r.(w := w.(canceled := w.canceled + {t}), mail := r.mail + {t},
         plans := r.plans[t := r.plans[t].(asked := true)])
    case Cancel(t) => r.(w := HandleCancel(w, t), mail := r.mail - {t})
    case Expire =>
      RanWereQueued(r);
      r.(w := HandlePop(w), plans := NextRound(r.plans, Fire(w).again),
         log := r.log + Firings(w, r.plans, Fire(w).ran))
    case Return(t) => r.(w := w.(free := [t] + w.free, woken := w.woken - multiset{t}))
  }

  // ---------------------------------------------------------------- the invariant

  /** The deadline of the next firing, against the plan made when the timer was armed. */
  predicate OnPlan(at: int, orig: int, p: Plan) {
    var nominal := p.armed + (p.fires + 1) * orig;
    nominal <= at <= nominal + WINDOW * p.fires
  }

  /** Firing number fires + 1: at most WINDOW ticks early, and only if no cancel was asked for. */
  predicate OnTime<T>(f: Firing<T>) {
    var nominal := f.plan.armed + (f.plan.fires + 1) * f.use.orig;
    !f.plan.asked && nominal - WINDOW <= f.time <= nominal + WINDOW * f.plan.fires
  }

  predicate Planned<T>(ds: seq<Due<T>>, uses: map<T, Use>, plans: map<T, Plan>) {
    forall i :: 0 <= i < |ds| ==>
      && ds[i].timer in uses && ds[i].timer in plans
      && OnPlan(ds[i].at, uses[ds[i].timer].orig, plans[ds[i].timer])
  }

  /** The cancelled flags of the queued timers are the cancels asked for. */
  predicate Flagged<T>(w: World<T>, plans: map<T, Plan>) {
    forall t :: t in Timers(w.active) ==>
      && t in w.uses && t in plans
      && (plans[t].asked <==> t in w.canceled)
      && (plans[t].asked ==> !w.uses[t].blocking)
  }

  predicate Good<T(!new)>(r: Run<T>) {
    && Legal(r.w)
    && Planned(Deadlines(r.w.active, r.w.started), r.w.uses, r.plans)
    && Flagged(r.w, r.plans)
    && (forall t :: t in r.mail && t in r.w.canceled ==> t in Timers(r.w.active))
    && (forall t :: t in r.w.taken ==> t !in r.w.canceled)
    && (forall i :: 0 <= i < |r.log| ==> OnTime(r.log[i]))
  }

  // ---------------------------------------------------------------- one place only

  lemma CountTwice<A>(s: seq<A>, i: nat, j: nat)
    requires i < j < |s| && s[i] == s[j]
    ensures multiset(s)[s[i]] >= 2
  {
    assert s == s[..j] + s[j..];
    assert s[i] in s[..j] && s[j] in s[j..];
  }

  lemma QueuedOnce<T>(w: World<T>, i: nat, j: nat)
    requires Conserved(w) && i < j < |w.active|
    ensures w.active[i].timer != w.active[j].timer
  {
    var ts := Timers(w.active);
    assert multiset(ts)[ts[i]] <= multiset(w.uses.Keys)[ts[i]] <= 1;
    if ts[i] == ts[j] {
      CountTwice(ts, i, j);
    }
  }

  lemma OnePlace<T>(w: World<T>, t: T)
    requires Conserved(w)
    ensures t in Timers(w.active) ==> t in w.uses && t !in w.free && t !in w.taken && t !in w.woken
    ensures t in w.free ==> t in w.uses && t !in w.taken && t !in w.woken
    ensures t in w.taken ==> t in w.uses && t !in w.woken
    ensures t in w.woken ==> t in w.uses
  {
    var all := multiset(Timers(w.active)) + multiset(w.free) + w.taken + w.woken;
    assert all[t] == multiset(w.uses.Keys)[t] <= 1;
    if t in Timers(w.active) { assert multiset(Timers(w.active))[t] >= 1; }
    if t in w.free { assert multiset(w.free)[t] >= 1; }
  }

  lemma TakenIsKnown<T(!new)>(r: Run<T>, t: T)
    requires Good(r) && t in r.w.taken
    ensures t in r.w.uses
  {
    OnePlace(r.w, t);
  }

  ghost predicate Distinct<A>(s: seq<A>) {
    forall i, j :: 0 <= i < j < |s| ==> s[i] != s[j]
  }

  lemma FiredDistinct<T>(w: World<T>)
    requires Conserved(w) && w.active != []
    ensures Distinct(Timers(w.active)) && Distinct(Fired(w))
  {
    forall i, j | 0 <= i < j < |w.active|
      ensures Timers(w.active)[i] != Timers(w.active)[j]
    {
      QueuedOnce(w, i, j);
    }
  }

  /** Who runs, who repeats and whose flag is cleared when a batch fires. */
  lemma {:induction false} TickleAllMeans<T(!new)>(e: Expiry<T>, ts: seq<T>, uses: map<T, Use>)
    requires Distinct(ts) && forall t :: t in ts ==> t in uses
    ensures var f := TickleAll(e, ts, uses);
            && (forall t :: t in f.canceled <==> t in e.canceled && !(t in ts && !uses[t].blocking))
            && (forall t :: t in f.ran <==> t in e.ran || (t in ts && (uses[t].blocking || t !in e.canceled)))
            && (forall t :: t in f.again <==>
                  t in e.again || (t in ts && !uses[t].blocking && uses[t].repeating && t !in e.canceled))
    decreases |ts|
  {
    if ts != [] {
      assert forall t :: t in ts <==> t in ts[1..] || t == ts[0];
      TickleAllMeans(Tickle(e, ts[0], uses[ts[0]]), ts[1..], uses);
    }
  }

  // ---------------------------------------------------------------- where the fired timers go

  /** The elements of a sequence that are in a set, in order. */
  function Those<A>(s: seq<A>, wanted: set<A>): seq<A> {
    if s == [] then [] else (if s[0] in wanted then [s[0]] else []) + Those(s[1..], wanted)
  }

  function Backwards<A>(s: seq<A>): seq<A> {
    if s == [] then [] else Backwards(s[1..]) + [s[0]]
  }

  /** Somebody waits for these: they are woken, and give their records back themselves. */
  function Waited<T>(uses: map<T, Use>): set<T> {
    set t | t in uses && uses[t].blocking
  }

  /** These run their callback, or wake their caller. */
  function Heard<T>(uses: map<T, Use>, canceled: set<T>): set<T> {
    set t | t in uses && (uses[t].blocking || t !in canceled)
  }

  /** These go round again. */
  function Repeats<T>(uses: map<T, Use>, canceled: set<T>): set<T> {
    set t | t in uses && !uses[t].blocking && uses[t].repeating && t !in canceled
  }

  /** These are finished: nobody waits for them, and they were cancelled or fire once only. */
  function Spent<T>(uses: map<T, Use>, canceled: set<T>): set<T> {
    set t | t in uses && !uses[t].blocking && (!uses[t].repeating || t in canceled)
  }

  lemma {:induction false} ThoseSame<A>(s: seq<A>, a: set<A>, b: set<A>)
    requires forall t :: t in s ==> (t in a <==> t in b)
    ensures Those(s, a) == Those(s, b)
  {
    if s != [] {
      ThoseSame(s[1..], a, b);
    }
  }

  /** The flag of one timer does not matter to where the others go. */
  lemma OthersSame<T(!new)>(ts: seq<T>, t: T, uses: map<T, Use>, canceled: set<T>)
    requires t !in ts
    ensures Those(ts, Heard(uses, canceled - {t})) == Those(ts, Heard(uses, canceled))
    ensures Those(ts, Repeats(uses, canceled - {t})) == Those(ts, Repeats(uses, canceled))
    ensures Those(ts, Spent(uses, canceled - {t})) == Those(ts, Spent(uses, canceled))
  {
    ThoseSame(ts, Heard(uses, canceled - {t}), Heard(uses, canceled));
    ThoseSame(ts, Repeats(uses, canceled - {t}), Repeats(uses, canceled));
    ThoseSame(ts, Spent(uses, canceled - {t}), Spent(uses, canceled));
  }

  /** Where a batch of timers goes: who is woken, who is freed, who goes round again, and who runs. */
  ghost predicate Sorts<T(!new)>(e: Expiry<T>, ts: seq<T>, uses: map<T, Use>, f: Expiry<T>) {
    && f.woken == e.woken + multiset(Those(ts, Waited(uses)))
    && f.free == Backwards(Those(ts, Spent(uses, e.canceled))) + e.free
    && f.again == Backwards(Those(ts, Repeats(uses, e.canceled))) + e.again
    && f.ran == e.ran + Those(ts, Heard(uses, e.canceled))
  }

  lemma {:induction false} TickleAllSorts<T(!new)>(e: Expiry<T>, ts: seq<T>, uses: map<T, Use>)
    requires Distinct(ts) && forall t :: t in ts ==> t in uses
    ensures Sorts(e, ts, uses, TickleAll(e, ts, uses))
    decreases |ts|
  {
    hide Distinct;
    if ts == [] {
      SortsNone(e, uses);
    } else {
      TailDistinct(ts);
      TickleAllSorts(Tickle(e, ts[0], uses[ts[0]]), ts[1..], uses);
      hide Sorts;
      SortsOne(e, ts[0], ts[1..], uses, TickleAll(e, ts, uses));
      assert ts == [ts[0]] + ts[1..];
    }
  }

  lemma TailDistinct<A>(s: seq<A>)
    requires s != [] && Distinct(s)
    ensures Distinct(s[1..]) && s[0] !in s[1..]
  {
  }

  lemma SortsNone<T(!new)>(e: Expiry<T>, uses: map<T, Use>)
    ensures Sorts(e, [], uses, e)
  {
  }

  lemma ThoseFirst<A>(x: A, s: seq<A>, wanted: set<A>)
    ensures Those([x] + s, wanted) == if x in wanted then [x] + Those(s, wanted) else Those(s, wanted)
    ensures Backwards(Those([x] + s, wanted)) ==
            if x in wanted then Backwards(Those(s, wanted)) + [x] else Backwards(Those(s, wanted))
  {
    assert ([x] + s)[1..] == s;
    assert ([x] + Those(s, wanted))[1..] == Those(s, wanted);
    assert [] + Those(s, wanted) == Those(s, wanted);
  }

  /** In which sets the first timer of a batch is. */
  lemma WhereOne<T(!new)>(t: T, uses: map<T, Use>, canceled: set<T>)
    requires t in uses
    ensures t in Waited(uses) <==> uses[t].blocking
    ensures t in Heard(uses, canceled) <==> uses[t].blocking || t !in canceled
    ensures t in Repeats(uses, canceled) <==> !uses[t].blocking && uses[t].repeating && t !in canceled
    ensures t in Spent(uses, canceled) <==> !uses[t].blocking && (!uses[t].repeating || t in canceled)
  {
  }

  lemma WokenOne<T>(e: Expiry<T>, t: T, use: Use, rest: multiset<T>)
    ensures Tickle(e, t, use).woken + rest == if use.blocking then e.woken + (multiset{t} + rest) else e.woken + rest
  {
  }

  lemma FreeOne<T>(e: Expiry<T>, t: T, use: Use, rest: seq<T>)
    ensures rest + Tickle(e, t, use).free ==
            if !use.blocking && (!use.repeating || t in e.canceled) then rest + [t] + e.free else rest + e.free
  {
  }

  lemma AgainOne<T>(e: Expiry<T>, t: T, use: Use, rest: seq<T>)
    ensures rest + Tickle(e, t, use).again ==
            if !use.blocking && use.repeating && t !in e.canceled then rest + [t] + e.again else rest + e.again
  {
  }

  lemma RanOne<T>(e: Expiry<T>, t: T, use: Use, rest: seq<T>)
    ensures Tickle(e, t, use).ran + rest ==
            if use.blocking || t !in e.canceled then e.ran + ([t] + rest) else e.ran + rest
  {
  }

  /** After the first timer of a batch the others are sorted as they would be anyway. */
  lemma FlagsAfterOne<T(!new)>(e: Expiry<T>, t: T, ts: seq<T>, use: Use, uses: map<T, Use>)
    requires t !in ts
    ensures var c := Tickle(e, t, use).canceled;
            && Those(ts, Heard(uses, c)) == Those(ts, Heard(uses, e.canceled))
            && Those(ts, Repeats(uses, c)) == Those(ts, Repeats(uses, e.canceled))
            && Those(ts, Spent(uses, c)) == Those(ts, Spent(uses, e.canceled))
  {
    OthersSame(ts, t, uses, e.canceled);
    hide Those, Heard, Repeats, Spent;
  }

  lemma MultisetCons<A>(x: A, s: seq<A>)
    ensures multiset([x] + s) == multiset{x} + multiset(s)
  {
  }

  lemma SortsOne<T(!new)>(e: Expiry<T>, t: T, ts: seq<T>, uses: map<T, Use>, f: Expiry<T>)
    requires t in uses && t !in ts && Sorts(Tickle(e, t, uses[t]), ts, uses, f)
    ensures Sorts(e, [t] + ts, uses, f)
  {
    WhereOne(t, uses, e.canceled);
    FlagsAfterOne(e, t, ts, uses[t], uses);
    hide Those, Backwards, Waited, Heard, Repeats, Spent, Tickle;
    ThoseFirst(t, ts, Waited(uses));
    ThoseFirst(t, ts, Spent(uses, e.canceled));
    ThoseFirst(t, ts, Repeats(uses, e.canceled));
    ThoseFirst(t, ts, Heard(uses, e.canceled));
    MultisetCons(t, Those(ts, Waited(uses)));
    WokenOne(e, t, uses[t], multiset(Those(ts, Waited(uses))));
    FreeOne(e, t, uses[t], Backwards(Those(ts, Spent(uses, e.canceled))));
    AgainOne(e, t, uses[t], Backwards(Those(ts, Repeats(uses, e.canceled))));
    RanOne(e, t, uses[t], Those(ts, Heard(uses, e.canceled)));
  }

  /**
   An expiry sorts the fired timers, in queue order: those that block wake their caller
   and are left to him; of the others the cancelled and the one-shots are freed, and the
   repeats go back to the queue, last one first; all but the cancelled run, once each.
   */
  lemma ExpirySorts<T(!new)>(w: World<T>)
    requires Conserved(w) && Known(w) && w.active != []
    ensures var ts, e, v := Timers(w.active)[..FiredBy(w)], Fire(w), HandlePop(w);
            && Distinct(ts)
            && v.woken == w.woken + multiset(Those(ts, Waited(w.uses)))
            && v.free == Backwards(Those(ts, Spent(w.uses, w.canceled))) + w.free
            && e.again == Backwards(Those(ts, Repeats(w.uses, w.canceled)))
            && e.ran == Those(ts, Heard(w.uses, w.canceled))
            && v.canceled == set t | t in w.canceled && !(t in ts && !w.uses[t].blocking)
  {
    FiredDistinct(w);
    FireMeans(w);
    var e := Expiry(w.free, w.woken, w.canceled, [], []);
    TickleAllSorts(e, Fired(w), w.uses);
    PopKeepsSorting(w);
    hide Those, Backwards, Waited, Heard, Repeats, Spent, Distinct, HandlePop, Timers, FiredBy;
    NoneAround(Those(Fired(w), Heard(w.uses, w.canceled)));
    NoneAround(Backwards(Those(Fired(w), Repeats(w.uses, w.canceled))));
  }

  lemma NoneAround<A>(s: seq<A>)
    ensures [] + s == s && s + [] == s
  {
  }

  lemma PopKeepsSorting<T>(w: World<T>)
    requires Known(w) && w.active != []
    ensures var e, v := Fire(w), HandlePop(w); v.woken == e.woken && v.free == e.free && v.canceled == e.canceled
  {
  }

  lemma RanWereQueued<T(!new)>(r: Run<T>)
    requires Good(r) && r.w.active != []
    ensures forall t :: t in Fire(r.w).ran ==> t in r.w.uses && t in r.plans
  {
    var w := r.w;
    FiredDistinct(w);
    TickleAllMeans(Expiry(w.free, w.woken, w.canceled, [], []), Fired(w), w.uses);
    forall t | t in Fired(w)
      ensures t in w.uses && t in r.plans
    {
      var i :| 0 <= i < |Fired(w)| && Fired(w)[i] == t;
      assert w.active[i].timer == t;
    }
  }

  // ---------------------------------------------------------------- each event keeps the invariant

  lemma InsertDuePlanned<T>(ds: seq<Due<T>>, d: Due<T>, uses: map<T, Use>, plans: map<T, Plan>)
    requires Sorted(ds) && Planned(ds, uses, plans) && Planned([d], uses, plans)
    ensures Planned(InsertDue(ds, d), uses, plans)
  {
    var k := InsertDueIsStable(ds, d);
    assert Planned([d], uses, plans) && [d][0] == d;
  }

  lemma {:induction false} InsertAllPlanned<T>(ds: seq<Due<T>>, again: seq<T>, from: int, uses: map<T, Use>, plans: map<T, Plan>)
    requires Sorted(ds) && Planned(ds, uses, plans)
    requires forall t :: t in again ==> t in uses && t in plans && OnPlan(from + uses[t].orig, uses[t].orig, plans[t])
    ensures Planned(InsertAll(ds, again, from, uses), uses, plans)
    decreases |again|
  {
    if again != [] {
      var d := Due(again[0], from + uses[again[0]].orig);
      InsertDuePlanned(ds, d, uses, plans);
      var k := InsertDueIsStable(ds, d);
      InsertAllPlanned(InsertDue(ds, d), again[1..], from, uses, plans);
    }
  }

  /** A repeat filed up to WINDOW ticks after its deadline stays on its plan, one round on. */
  lemma RoundOn(at: int, from: int, orig: int, p: Plan)
    requires OnPlan(at, orig, p) && at <= from <= at + WINDOW
    ensures OnPlan(from + orig, orig, p.(fires := p.fires + 1))
  {
    assert (p.fires + 2) * orig == (p.fires + 1) * orig + orig;
  }

  lemma DeadlineTimers<T>(q: seq<Node<T>>, started: int, i: nat)
    requires i < |q|
    ensures Deadlines(q, started)[i].timer == q[i].timer
    decreases i
  {
    if i > 0 {
      DeadlineTimers(q[1..], started + q[0].delta, i - 1);
    }
  }

  lemma TickGood<T(!new)>(r: Run<T>, n: nat)
    requires Good(r) && Enabled(r, Tick(n))
    ensures Good(Next(r, Tick(n)))
  {
    var w := r.w;
    DeadlinesSorted(w.active, w.started);
    if w.active != [] {
      assert Deadlines(w.active, w.started)[0].at == w.started + w.count;
    }
  }

  lemma TakeConserves<T(!new)>(r: Run<T>, t: T, use: Use)
    requires Good(r) && Enabled(r, Take(t, use))
    ensures Conserved(Next(r, Take(t, use)).w)
    ensures t !in Timers(r.w.active)
  {
    var w, v := r.w, Next(r, Take(t, use)).w;
    OnePlace(w, t);
    if w.free != [] {
      assert w.free == [t] + w.free[1..];
      assert v.uses.Keys == w.uses.Keys;
    } else {
      assert v.uses.Keys == w.uses.Keys + {t};
      assert multiset(w.uses.Keys + {t}) == multiset(w.uses.Keys) + multiset{t};
    }
  }

  /** Plans and uses of other timers do not matter to the queue. */
  lemma PlannedFrame<T>(q: seq<Node<T>>, started: int, t: T,
                        uses: map<T, Use>, plans: map<T, Plan>, uses': map<T, Use>, plans': map<T, Plan>)
    requires Planned(Deadlines(q, started), uses, plans) && t !in Timers(q)
    requires forall x :: x in Timers(q) && x in uses && x != t ==> x in uses' && uses'[x] == uses[x]
    requires forall x :: x in Timers(q) && x in plans && x != t ==> x in plans' && plans'[x] == plans[x]
    ensures Planned(Deadlines(q, started), uses', plans')
  {
    var ds := Deadlines(q, started);
    forall i | 0 <= i < |ds|
      ensures ds[i].timer in Timers(q)
    {
      DeadlineTimers(q, started, i);
      assert Timers(q)[i] == ds[i].timer;
    }
  }

  lemma TakeGood<T(!new)>(r: Run<T>, t: T, use: Use)
    requires Good(r) && Enabled(r, Take(t, use))
    ensures Good(Next(r, Take(t, use)))
  {
    var w := r.w;
    TakeConserves(r, t, use);
    OnePlace(w, t);
    PlannedFrame(w.active, w.started, t, w.uses, r.plans, w.uses[t := use], r.plans);
    var v := Next(r, Take(t, use)).w;
    assert Known(v) && Counting(v);
    forall x | x in v.taken
      ensures x !in v.canceled
    {
      assert x == t || x in w.taken;
    }
  }

  /** One record changes places. */
  lemma MoveOne<A>(to: multiset<A>, rest: multiset<A>, from: multiset<A>, a: A)
    requires a in from
    ensures (to + multiset{a}) + rest + (from - multiset{a}) == to + rest + from
  {
    assert from == (from - multiset{a}) + multiset{a};
  }

  lemma StartConserves<T>(w: World<T>, t: T, ticks: int)
    requires Conserved(w) && t in w.taken
    ensures Conserved(StartTimer(w.(taken := w.taken - multiset{t}), t, ticks))
  {
    ArmTimers(w.active, t, ticks, Done(w));
    MoveOne(multiset(Timers(w.active)), multiset(w.free), w.taken, t);
  }

  lemma StartPlanned<T>(w: World<T>, t: T, orig: int, plans: map<T, Plan>)
    requires Counting(w) && 0 <= orig <= MAX_TICKS && t !in Timers(w.active)
    requires t in w.uses && w.uses[t].orig == orig
    requires Planned(Deadlines(w.active, w.started), w.uses, plans)
    ensures var v := StartTimer(w, t, orig);
            Planned(Deadlines(v.active, v.started), v.uses, plans[t := Plan(w.now, 0, false)])
  {
    var plans' := plans[t := Plan(w.now, 0, false)];
    var ds, d := Deadlines(w.active, w.started), Due(t, w.now + orig);
    StartRefines(w, t, orig);
    DeadlinesSorted(w.active, w.started);
    PlannedFrame(w.active, w.started, t, w.uses, plans, w.uses, plans');
    assert Planned([d], w.uses, plans');
    InsertDuePlanned(ds, d, w.uses, plans');
  }

  lemma StartFlags<T(!new)>(r: Run<T>, t: T)
    requires Good(r) && Enabled(r, Start(t))
    ensures var v := Next(r, Start(t)).w;
            && Known(v) && Flagged(v, r.plans[t := Plan(r.w.now, 0, false)])
            && v.uses == r.w.uses && v.canceled == r.w.canceled
            && (forall x :: x in r.mail && x in v.canceled ==> x in Timers(v.active))
            && (forall x :: x in v.taken ==> x !in v.canceled)
  {
    OnePlace(r.w, t);
    QueueMembers(r.w.(taken := r.w.taken - multiset{t}), t, r.w.uses[t].orig);
  }

  lemma StartGood<T(!new)>(r: Run<T>, t: T)
    requires Good(r) && Enabled(r, Start(t))
    ensures Good(Next(r, Start(t)))
  {
    OnePlace(r.w, t);
    var w, orig := r.w.(taken := r.w.taken - multiset{t}), r.w.uses[t].orig;
    StartConserves(r.w, t, orig);
    StartPlanned(w, t, orig, r.plans);
    StartRefines(w, t, orig);
    StartFlags(r, t);
    assert Legal(StartTimer(w, t, orig));
  }

  /** The queue after arming holds the old timers and the new one. */
  lemma QueueMembers<T(!new)>(v: World<T>, t: T, ticks: int)
    ensures forall x :: x in Timers(StartTimer(v, t, ticks).active) <==> x in Timers(v.active) || x == t
  {
    ArmTimers(v.active, t, ticks, Done(v));
    var before, after := Timers(v.active), Timers(StartTimer(v, t, ticks).active);
    assert multiset(after) == multiset(before) + multiset{t};
    forall x
      ensures x in after <==> x in before || x == t
    {
      assert x in after <==> x in multiset(after);
      assert x in before <==> x in multiset(before);
    }
  }

  lemma AskGood<T(!new)>(r: Run<T>, t: T)
    requires Good(r) && Enabled(r, Ask(t))
    ensures Good(Next(r, Ask(t)))
  {
    OnePlace(r.w, t);
  }

  lemma ReturnGood<T(!new)>(r: Run<T>, t: T)
    requires Good(r) && Enabled(r, Return(t))
    ensures Good(Next(r, Return(t)))
  {
    var w := r.w;
    MoveOne(multiset(Timers(w.active)) + multiset(w.free), w.taken, w.woken, t);
    assert multiset([t] + w.free) == multiset(w.free) + multiset{t};
    assert Conserved(Next(r, Return(t)).w);
  }

  lemma CancelPlanned<T>(w: World<T>, t: T, plans: map<T, Plan>)
    requires Counting(w) && t in w.canceled && t in Timers(w.active)
    requires Planned(Deadlines(w.active, w.started), w.uses, plans)
    ensures var v := HandleCancel(w, t); Planned(Deadlines(v.active, v.started), v.uses, plans)
  {
    CancelKeepsDeadlines(w, t);
  }

  lemma CancelFlags<T(!new)>(r: Run<T>, t: T)
    requires Good(r) && t in r.mail && t in r.w.canceled
    ensures var v := HandleCancel(r.w, t);
            && Known(v) && Flagged(v, r.plans) && v.uses == r.w.uses && v.canceled == r.w.canceled
            && v.taken == r.w.taken
            && forall x :: x in r.mail - {t} && x in v.canceled ==> x in Timers(v.active)
  {
    CancelMembers(r.w, t);
  }

  lemma CancelGood<T(!new)>(r: Run<T>, t: T)
    requires Good(r) && Enabled(r, Cancel(t))
    ensures Good(Next(r, Cancel(t)))
  {
    var w, v := r.w, HandleCancel(r.w, t);
    CancelConserves(w, t);
    if t in w.canceled {
      CancelKeepsDeadlines(w, t);
      CancelPlanned(w, t, r.plans);
      CancelFlags(r, t);
      assert Legal(v);
    } else {
      assert v == w;
    }
  }

  lemma CancelMembers<T>(w: World<T>, t: T)
    requires Counting(w) && t in w.canceled && t in Timers(w.active)
    ensures forall x :: x in Timers(HandleCancel(w, t).active) ==> x in Timers(w.active)
    ensures forall x :: x in Timers(w.active) && x != t ==> x in Timers(HandleCancel(w, t).active)
  {
    var i := IndexOf(Timers(w.active), t);
    if !TooLate(w.active, i, Done(w)) {
      var q := if i == 0 then w.active[0 := w.active[0].(delta := Sub32(w.active[0].delta, Done(w)))] else w.active;
      assert Timers(q) == Timers(w.active);
      TakeOutTimers(q, i);
      assert Timers(HandleCancel(w, t).active) == Without(Timers(w.active), i);
    }
  }

  // ---------------------------------------------------------------- an expiry keeps the invariant

  /** A queued timer fires with this batch or stays, never both. */
  lemma FiredOrKept<T(!new)>(w: World<T>)
    requires Conserved(w) && w.active != []
    ensures var rest := Timers(w.active[FiredBy(w)..]);
            forall t :: (t in Timers(w.active) <==> t in Fired(w) || t in rest) && !(t in Fired(w) && t in rest)
  {
    FiredDistinct(w);
    var ts, n := Timers(w.active), FiredBy(w);
    assert Timers(w.active[n..]) == ts[n..];
    assert ts == ts[..n] + ts[n..];
    assert forall t :: !(t in ts[..n] && t in ts[n..]);
  }

  lemma PopMembers<T(!new)>(w: World<T>)
    requires Known(w) && w.active != []
    ensures forall t :: t in Timers(HandlePop(w).active) <==>
              t in Timers(w.active[FiredBy(w)..]) || t in Fire(w).again
  {
    PopTimers(w);
    var after, kept, again := Timers(HandlePop(w).active), Timers(w.active[FiredBy(w)..]), Fire(w).again;
    forall t
      ensures t in after <==> t in kept || t in again
    {
      assert t in after <==> t in multiset(after);
      assert t in kept <==> t in multiset(kept);
      assert t in again <==> t in multiset(again);
    }
  }

  lemma FireMeans<T(!new)>(w: World<T>)
    requires Conserved(w) && Known(w) && w.active != []
    ensures var f, ts := Fire(w), Fired(w);
            && (forall t :: t in ts ==> t in w.uses)
            && (forall t :: t in f.canceled <==> t in w.canceled && !(t in ts && !w.uses[t].blocking))
            && (forall t :: t in f.ran <==> t in ts && (w.uses[t].blocking || t !in w.canceled))
            && (forall t :: t in f.again <==>
                  t in ts && !w.uses[t].blocking && w.uses[t].repeating && t !in w.canceled)
  {
    FiredDistinct(w);
    TickleAllMeans(Expiry(w.free, w.woken, w.canceled, [], []), Fired(w), w.uses);
  }

  lemma ExpireFlags<T(!new)>(r: Run<T>)
    requires Good(r) && Enabled(r, Expire)
    ensures var v := HandlePop(r.w);
            && Known(v) && Flagged(v, NextRound(r.plans, Fire(r.w).again))
            && (forall t :: t in r.mail && t in v.canceled ==> t in Timers(v.active))
            && (forall t :: t in v.taken ==> t !in v.canceled)
  {
    var w := r.w;
    FireMeans(w);
    FiredOrKept(w);
    PopMembers(w);
    PopTimers(w);
  }

  /** Timer i of the batch, its deadline and its plan. */
  lemma FiredAt<T(!new)>(r: Run<T>, t: T) returns (at: int)
    requires Good(r) && Enabled(r, Expire) && t in Fired(r.w)
    ensures t in r.w.uses && t in r.plans && OnPlan(at, r.w.uses[t].orig, r.plans[t])
    ensures r.w.now <= at <= r.w.now + Slack(r.w) <= r.w.now + WINDOW
  {
    var w := r.w;
    var ds := Deadlines(w.active, w.started);
    var i :| 0 <= i < |Fired(w)| && Fired(w)[i] == t;
    at := ds[i].at;
    BatchIsWindow(w);
    DeadlinesSorted(w.active, w.started);
    DeadlineTimers(w.active, w.started, i);
    assert ds[0].at == w.now;
    assert ds[0].at <= ds[i].at <= ds[FiredBy(w) - 1].at;
  }

  lemma ExpirePlans<T(!new)>(r: Run<T>)
    requires Good(r) && Enabled(r, Expire)
    ensures var v := HandlePop(r.w);
            Planned(Deadlines(v.active, v.started), v.uses, NextRound(r.plans, Fire(r.w).again))
  {
    var w, again := r.w, Fire(r.w).again;
    var from, plans := w.now + Slack(w), NextRound(r.plans, again);
    KeptPlans(r);
    AgainPlans(r);
    InsertAllPlanned(Deadlines(w.active, w.started)[FiredBy(w)..], again, from, w.uses, plans);
    PopRefines(w);
  }

  lemma AgainPlans<T(!new)>(r: Run<T>)
    requires Good(r) && Enabled(r, Expire)
    ensures var w, plans, from := r.w, NextRound(r.plans, Fire(r.w).again), r.w.now + Slack(r.w);
            forall t :: t in Fire(w).again ==>
              t in w.uses && t in plans && OnPlan(from + w.uses[t].orig, w.uses[t].orig, plans[t])
  {
    var w, plans, from := r.w, NextRound(r.plans, Fire(r.w).again), r.w.now + Slack(r.w);
    FireMeans(w);
    forall t | t in Fire(w).again
      ensures t in w.uses && t in plans && OnPlan(from + w.uses[t].orig, w.uses[t].orig, plans[t])
    {
      var at := FiredAt(r, t);
      RoundOn(at, from, w.uses[t].orig, r.plans[t]);
    }
  }

  lemma KeptPlans<T(!new)>(r: Run<T>)
    requires Good(r) && Enabled(r, Expire)
    ensures var ds := Deadlines(r.w.active, r.w.started)[FiredBy(r.w)..];
            Sorted(ds) && Planned(ds, r.w.uses, NextRound(r.plans, Fire(r.w).again))
  {
    var w := r.w;
    var ds, n := Deadlines(w.active, w.started), FiredBy(w);
    FireMeans(w);
    FiredOrKept(w);
    DeadlinesSorted(w.active, w.started);
    forall i | 0 <= i < |ds| - n
      ensures ds[n..][i].timer in w.uses && ds[n..][i].timer in r.plans
      ensures OnPlan(ds[n..][i].at, w.uses[ds[n..][i].timer].orig, r.plans[ds[n..][i].timer])
      ensures ds[n..][i].timer !in Fire(w).again
    {
      KeptTimer(w, i);
      assert ds[n..][i] == ds[n + i];
    }
  }

  lemma KeptTimer<T>(w: World<T>, i: nat)
    requires w.active != [] && FiredBy(w) + i < |w.active|
    ensures Deadlines(w.active, w.started)[FiredBy(w) + i].timer in Timers(w.active[FiredBy(w)..])
  {
    DeadlineTimers(w.active, w.started, FiredBy(w) + i);
    assert Timers(w.active[FiredBy(w)..])[i] == w.active[FiredBy(w) + i].timer;
  }

  lemma ExpireLog<T(!new)>(r: Run<T>)
    requires Good(r) && Enabled(r, Expire)
    ensures forall t :: t in Fire(r.w).ran ==> t in r.w.uses && t in r.plans
    ensures forall t :: t in Fire(r.w).ran ==> OnTime(Firing(t, r.w.now, r.w.uses[t], r.plans[t]))
  {
    var w := r.w;
    RanWereQueued(r);
    FireMeans(w);
    FiredOrKept(w);
    forall t | t in Fire(w).ran
      ensures OnTime(Firing(t, w.now, w.uses[t], r.plans[t]))
    {
      var at := FiredAt(r, t);
    }
  }

  lemma ExpireGood<T(!new)>(r: Run<T>)
    requires Good(r) && Enabled(r, Expire)
    ensures Good(Next(r, Expire))
  {
    PopConserves(r.w);
    PopRefines(r.w);
    ExpireFlags(r);
    ExpirePlans(r);
    ExpireLog(r);
    assert Legal(HandlePop(r.w));
  }

  lemma NextGood<T(!new)>(r: Run<T>, e: Event<T>)
    requires Good(r) && Enabled(r, e)
    ensures Good(Next(r, e))
  {
    match e
    case Tick(n) => TickGood(r, n);
    case Take(t, use) => TakeGood(r, t, use);
    case Start(t) => StartGood(r, t);
    case Ask(t) => AskGood(r, t);
    case Cancel(t) => CancelGood(r, t);
    case Expire => ExpireGood(r);
    case Return(t) => ReturnGood(r, t);
  }

  // ---------------------------------------------------------------- whole runs

  /** The events happen one after the other, each when it can. */
  ghost predicate Happens<T(!new)>(r: Run<T>, es: seq<Event<T>>, last: Run<T>)
    requires Good(r)
    decreases |es|
  {
    if es == [] then last == r
    else Enabled(r, es[0]) && (NextGood(r, es[0]); Happens(Next(r, es[0]), es[1..], last))
  }

  /** The service as init_msecDelayTimer leaves it: nothing queued, some free records. */
  function Initial<T>(records: seq<T>, now: int): Run<T> {
    var uses := map t | t in records :: Use(false, false, 0);
    Run(World([], records, multiset{}, multiset{}, uses, {}, now, 0, now), {}, map[], [])
  }

  /** The record that was given back last goes out first. */
  lemma LastBackFirstOut<T(!new)>(r: Run<T>, t: T, u: T, use: Use)
    requires Good(r) && Enabled(r, Return(t)) && (NextGood(r, Return(t)); Enabled(Next(r, Return(t)), Take(u, use)))
    ensures u == t
  {
  }

  lemma InitialGood<T(!new)>(records: seq<T>, now: int)
    requires Distinct(records)
    ensures Good(Initial(records, now))
  {
    var w := Initial(records, now).w;
    DistinctIsSet(records);
    assert w.uses.Keys == set t | t in records;
  }

  lemma {:induction false} DistinctIsSet<T>(s: seq<T>)
    requires Distinct(s)
    ensures multiset(s) == multiset(set t | t in s)
  {
    if s != [] {
      var rest := s[1..];
      DistinctIsSet(rest);
      assert s == [s[0]] + rest;
      assert s[0] !in rest;
      assert (set t | t in s) == (set t | t in rest) + {s[0]};
    }
  }

  lemma {:induction false} RunGood<T(!new)>(r: Run<T>, es: seq<Event<T>>, last: Run<T>)
    requires Good(r) && Happens(r, es, last)
    ensures Good(last)
    decreases |es|
  {
    if es != [] {
      NextGood(r, es[0]);
      RunGood(Next(r, es[0]), es[1..], last);
    }
  }

  // ---------------------------------------------------------------- cancels asked for too late

  /** What delay_msec_timer_cancel does to the record, queued or not. */
  function AskedFor<T>(w: World<T>, t: T): World<T> {
    w.(canceled := w.canceled + {t})
  }

  /**
   In a state that a run can reach a caller may cancel exactly the timers that are
   still queued. Then no later step loses or doubles a record; and if the timer is
   not queued, handling the message frees it twice.
   */
  lemma AskIsSafeExactly<T(!new)>(r: Run<T>, t: T)
    requires Good(r) && t in r.w.uses && !r.w.uses[t].blocking && t !in r.mail
    ensures t in Timers(r.w.active) <==> Enabled(r, Ask(t))
    ensures t in Timers(r.w.active) <==> Conserved(HandleCancel(AskedFor(r.w, t), t))
    ensures t in Timers(r.w.active) ==>
              (NextGood(r, Ask(t)); forall es, last :: Happens(Next(r, Ask(t)), es, last) ==> Conserved(last.w))
  {
    CancelConservesExactly(AskedFor(r.w, t), t);
    hide HandleCancel;
    if t in Timers(r.w.active) {
      NextGood(r, Ask(t));
      forall es, last | Happens(Next(r, Ask(t)), es, last)
        ensures Conserved(last.w)
      {
        RunGood(Next(r, Ask(t)), es, last);
      }
    }
  }

  lemma HappensFirst<T(!new)>(r: Run<T>, e: Event<T>, es: seq<Event<T>>, last: Run<T>)
    requires Good(r) && Enabled(r, e) && (NextGood(r, e); Happens(Next(r, e), es, last))
    ensures Happens(r, [e] + es, last)
  {
    NextGood(r, e);
    assert ([e] + es)[1..] == es;
  }

  /** The steps of one record that is armed for a single firing: taken, ... */
  lemma OneIsTaken<T(!new)>(t: T, use: Use, now: int)
    requires 0 <= use.orig <= MAX_TICKS && Good(Initial([t], now))
    ensures var r := Initial([t], now);
            Enabled(r, Take(t, use)) &&
            Next(r, Take(t, use)) == Run(World([], [], multiset{t}, multiset{}, map[t := use], {}, now, 0, now), {}, map[], [])
  {
  }

  /** ... armed, ... */
  lemma OneIsArmed<T(!new)>(r: Run<T>, t: T, use: Use, now: int)
    requires Good(r) && r == Run(World([], [], multiset{t}, multiset{}, map[t := use], {}, now, 0, now), {}, map[], [])
    ensures Enabled(r, Start(t))
    ensures Next(r, Start(t)).mail == {}
    ensures Next(r, Start(t)).w == World([Node(t, use.orig)], [], multiset{}, multiset{}, map[t := use], {}, now, use.orig, now)
  {
    TakenIsKnown(r, t);
  }

  /** ... counted down, and fired. */
  lemma OneIsFreed<T(!new)>(r: Run<T>, t: T, use: Use, now: int)
    requires Good(r) && r.mail == {} && 0 <= use.orig && !use.blocking && !use.repeating
    requires r.w == World([Node(t, use.orig)], [], multiset{}, multiset{}, map[t := use], {}, now, use.orig, now)
    ensures Enabled(r, Tick(use.orig)) && Good(Next(r, Tick(use.orig))) && Enabled(Next(r, Tick(use.orig)), Expire)
    ensures var last := Next(Next(r, Tick(use.orig)), Expire);
            Good(last) && last.w.active == [] && last.w.free == [t] && last.w.uses == map[t := use] && last.mail == {}
  {
    hide Good, HandlePop;
    NextGood(r, Tick(use.orig));
    var due := Next(r, Tick(use.orig));
    NextGood(due, Expire);
    OneFires(due.w, t, use);
  }

  lemma OneFires<T(!new)>(w: World<T>, t: T, use: Use)
    requires |w.active| == 1 && w.active[0].timer == t && w.free == [] && w.canceled == {}
    requires w.uses == map[t := use] && !use.blocking && !use.repeating
    ensures Known(w) && HandlePop(w).active == [] && HandlePop(w).free == [t] && HandlePop(w).uses == w.uses
  {
    assert Timers(w.active) == [t];
    assert Fired(w) == [t];
    assert TickleAll(Expiry([], w.woken, {}, [], []), [t], w.uses) ==
           TickleAll(Tickle(Expiry([], w.woken, {}, [], []), t, use), [], w.uses);
  }

  /** So there is a run after which the timer has fired and its record is free. */
  lemma OneShotIsFreed<T(!new)>(t: T, orig: int, now: int) returns (es: seq<Event<T>>, last: Run<T>)
    requires 0 <= orig <= MAX_TICKS
    ensures Good(Initial([t], now)) && Happens(Initial([t], now), es, last) && Good(last)
    ensures last.w.active == [] && last.w.free == [t] && last.w.uses == map[t := Use(false, false, orig)] && last.mail == {}
  {
    hide Good, Enabled, Next, Initial;
    var use, r := Use(false, false, orig), Initial([t], now);
    InitialGood([t], now);
    OneIsTaken(t, use, now);
    NextGood(r, Take(t, use));
    var taken := Next(r, Take(t, use));
    OneIsArmed(taken, t, use, now);
    NextGood(taken, Start(t));
    var armed := Next(taken, Start(t));
    OneIsFreed(armed, t, use, now);
    var due := Next(armed, Tick(orig));
    last := Next(due, Expire);
    es := [Expire];
    HappensFirst(due, Expire, [], last);
    assert [Expire] + [] == es;
    HappensFirst(armed, Tick(orig), es, last);
    es := [Tick(orig)] + es;
    HappensFirst(taken, Start(t), es, last);
    es := [Start(t)] + es;
    HappensFirst(r, Take(t, use), es, last);
    es := [Take(t, use)] + es;
  }

  /** Its caller, who may not know that it has fired, cancels it: the record is then on the free list twice. */
  lemma LateCancelFreesTwice<T(!new)>(t: T, orig: int, now: int) returns (es: seq<Event<T>>, last: Run<T>)
    requires 0 <= orig <= MAX_TICKS
    ensures Good(Initial([t], now)) && Happens(Initial([t], now), es, last)
    ensures HandleCancel(AskedFor(last.w, t), t).free == [t, t]
    ensures !Conserved(HandleCancel(AskedFor(last.w, t), t))
  {
    es, last := OneShotIsFreed(t, orig, now);
    assert last.w.uses[t] == Use(false, false, orig);
    AskIsSafeExactly(last, t);
    assert [t] + [t] == [t, t];
  }

  /**
   Over any run from the initial state: every record is in exactly one place,
   the hardware counts exactly the head's delay, firing number n of a use
   armed at time a with period p happens no sooner than a + n*p - 3 and no
   later than a + n*p + 3*(n-1), and no timer whose cancel was asked for fires.
   */
  lemma TimersKeepTheirPromises<T(!new)>(records: seq<T>, now: int, es: seq<Event<T>>, last: Run<T>)
    requires Distinct(records)
    requires (InitialGood(records, now); Happens(Initial(records, now), es, last))
    ensures Conserved(last.w) && Counting(last.w)
    ensures forall f :: f in last.log ==>
              var n := f.plan.fires + 1;
              && !f.plan.asked
              && f.plan.armed + n * f.use.orig - 3 <= f.time <= f.plan.armed + n * f.use.orig + 3 * (n - 1)
  {
    InitialGood(records, now);
    RunGood(Initial(records, now), es, last);
    forall f | f in last.log
      ensures OnTime(f)
    {
      var i :| 0 <= i < |last.log| && last.log[i] == f;
    }
  }
}
