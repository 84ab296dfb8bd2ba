/**
 Whole runs of the delay manager (delay/src/delay_mgr.c): registrations,
 unregistrations, messages and timeouts in any order. Beside the table each
 subscription carries what a caller cares about: which registration it is, when it
 is due, and how often it has been told.
 */
module DelayRuns {
  import opened SeqFacts
  import opened DelayTable

  /** A subscription; `due` is the tick of its registration, or last notice, plus the ticks it asked for. */
  datatype Tracked = Tracked(sub: Sub, id: int, due: int, told: nat)

  /** A notice sent at tick `at` to the subscription that was due at `due`. */
  datatype Sent = Sent(id: int, at: int, due: int, notice: Notice)

  /** The table, and the history: subscriptions that fired and left, those unregistered, and all notices. */
  datatype World = World(table: seq<Tracked>, last: int, next: nat, fired: seq<Tracked>, dropped: seq<Tracked>,
                         log: seq<Sent>)

  datatype Event =
    | Timeout(now: int, oks: seq<bool>)
    | Message(now: int)
    | Register(now: int, modID: int, ticks: int, repeating: bool, param: int)
    | Unregister(modID: int, param: int)

  function Subs(ts: seq<Tracked>): (ss: seq<Sub>)
    ensures |ss| == |ts|
  {
    if ts == [] then [] else [ts[0].sub] + Subs(ts[1..])
  }

  function AgedT(t: Tracked, elapsed: int): Tracked {
    t.(sub := Aged(t.sub, elapsed))
  }

  function AllAgedT(ts: seq<Tracked>, elapsed: int): seq<Tracked> {
    if ts == [] then [] else [AgedT(ts[0], elapsed)] + AllAgedT(ts[1..], elapsed)
  }

  /** A due subscription at its turn in the notification loop. */
  function Told(t: Tracked, now: int, ok: bool): Tracked {
    var s := Notified(t.sub, ok);
    t.(sub := s, due := if s.remaining == 0 then t.due else now + s.requested, told := if ok then t.told + 1 else t.told)
  }

  predicate Leaves(t: Tracked, ok: bool) {
    t.sub.remaining == 0 && Notified(t.sub, ok).remaining == 0
  }

  /** What is left of one (aged) subscription after the loops of a timeout ... */
  function KeptOne(t: Tracked, now: int, ok: bool): seq<Tracked> {
    if t.sub.remaining != 0 then [t] else if Leaves(t, ok) then [] else [Told(t, now, ok)]
  }

  /** ... what leaves ... */
  function FiredOne(t: Tracked, now: int, ok: bool): seq<Tracked> {
    if Leaves(t, ok) then [Told(t, now, ok)] else []
  }

  /** ... and what is sent to it. */
  function LogOne(t: Tracked, now: int, ok: bool): seq<Sent> {
    if t.sub.remaining == 0 then [Sent(t.id, now, t.due, Notice(t.sub.modID, t.sub.param, ok))] else []
  }

  /** The (aged) table after the loops of a timeout. */
  function Kept(ts: seq<Tracked>, now: int, oks: seq<bool>): seq<Tracked>
    requires |ts| <= |oks|
  {
    if ts == [] then [] else KeptOne(ts[0], now, oks[0]) + Kept(ts[1..], now, oks[1..])
  }

  /** The subscriptions that leave it. */
  function Fired(ts: seq<Tracked>, now: int, oks: seq<bool>): seq<Tracked>
    requires |ts| <= |oks|
  {
    if ts == [] then [] else FiredOne(ts[0], now, oks[0]) + Fired(ts[1..], now, oks[1..])
  }

  function Log(ts: seq<Tracked>, now: int, oks: seq<bool>): seq<Sent>
    requires |ts| <= |oks|
  {
    if ts == [] then [] else LogOne(ts[0], now, oks[0]) + Log(ts[1..], now, oks[1..])
  }

  function NoticesIn(log: seq<Sent>): seq<Notice> {
    if log == [] then [] else [log[0].notice] + NoticesIn(log[1..])
  }

  /** What the source does: time does not run backwards, callers ask for at least one tick. */
  predicate Enabled(w: World, e: Event) {
    match e
    case Timeout(now, oks) => w.last <= now && |w.table| <= |oks|
    case Message(now) => w.last <= now
    case Register(now, _, ticks, _, _) => w.last <= now && 0 < ticks
    case Unregister(_, _) => true
  }

  function Next(w: World, e: Event): World
    requires Enabled(w, e)
  {
    match e
    case Timeout(now, oks) =>
      var aged := AllAgedT(w.table, now - w.last);
      AgedLength(w.table, now - w.last);
      w.(table := Kept(aged, now, oks), last := now, fired := w.fired + Fired(aged, now, oks),
         log := w.log + Log(aged, now, oks))
    case Message(now) => w.(table := AllAgedT(w.table, now - w.last), last := now)
    case Register(now, modID, ticks, repeating, param) =>
      if |w.table| < MAX_SUBSCRIPTIONS then
        w.(table := AllAgedT(w.table, now - w.last) +
                    [Tracked(Sub(modID, ticks, repeating, param, ticks), w.next, now + ticks, 0)],
           last := now, next := w.next + 1)
      else w
    case Unregister(modID, param) =>
      var i := Find(Subs(w.table), modID, param);
      if i < |w.table| then
        w.(table := w.table[..i] + w.table[i + 1..], dropped := w.dropped + [w.table[i]])
      else w
  }

  lemma {:induction false} AgedLength(ts: seq<Tracked>, elapsed: int)
    ensures |AllAgedT(ts, elapsed)| == |ts|
  {
    if ts != [] {
      AgedLength(ts[1..], elapsed);
    }
  }

  // ---- The tracked table is the table. ----

  lemma {:induction false} SubsAt(ts: seq<Tracked>, i: nat)
    requires i < |ts|
    ensures Subs(ts)[i] == ts[i].sub
  {
    if i > 0 {
      SubsAt(ts[1..], i - 1);
    }
  }

  lemma {:induction false} SubsJoin(a: seq<Tracked>, b: seq<Tracked>)
    ensures Subs(a + b) == Subs(a) + Subs(b)
  {
    if a == [] {
      assert a + b == b;
    } else {
      SubsJoin(a[1..], b);
      TailOfJoin(a, b);
      JoinInThree([a[0].sub], Subs(a[1..]), Subs(b));
    }
  }

  lemma {:induction false} AgedSubs(ts: seq<Tracked>, elapsed: int)
    ensures Subs(AllAgedT(ts, elapsed)) == AllAged(Subs(ts), elapsed)
  {
    if ts != [] {
      AgedSubs(ts[1..], elapsed);
      assert AllAged(Subs(ts), elapsed) == [Aged(ts[0].sub, elapsed)] + AllAged(Subs(ts[1..]), elapsed);
    }
  }

  lemma LiveCons(s: Sub, rest: seq<Sub>)
    ensures Live([s] + rest) == (if s.remaining == 0 then [] else [s]) + Live(rest)
  {
    assert ([s] + rest)[1..] == rest;
  }

  lemma {:induction false} NoticesInJoin(a: seq<Sent>, b: seq<Sent>)
    ensures NoticesIn(a + b) == NoticesIn(a) + NoticesIn(b)
  {
    if a == [] {
      assert a + b == b;
    } else {
      NoticesInJoin(a[1..], b);
      assert (a + b)[1..] == a[1..] + b;
    }
  }

  lemma {:induction false} KeptSubs(ts: seq<Tracked>, now: int, oks: seq<bool>)
    requires |ts| <= |oks|
    ensures Subs(Kept(ts, now, oks)) == Live(AllNotified(Subs(ts), oks))
    decreases |ts|
  {
    if ts != [] {
      KeptSubs(ts[1..], now, oks[1..]);
      hide Live;
      LiveCons(Notified(ts[0].sub, oks[0]), AllNotified(Subs(ts[1..]), oks[1..]));
      assert AllNotified(Subs(ts), oks) == [Notified(ts[0].sub, oks[0])] + AllNotified(Subs(ts[1..]), oks[1..]);
      OneKeptSub(ts[0], now, oks[0]);
      hide Subs, KeptOne;
      SubsJoin(KeptOne(ts[0], now, oks[0]), Kept(ts[1..], now, oks[1..]));
    }
  }

  lemma OneKeptSub(t: Tracked, now: int, ok: bool)
    ensures var n := Notified(t.sub, ok); Subs(KeptOne(t, now, ok)) == if n.remaining == 0 then [] else [n]
  {
    var told := Told(t, now, ok);
    assert [told][1..] == [] && [t][1..] == [];
    assert Subs([told]) == [told.sub] && Subs([t]) == [t.sub];
  }

  lemma {:induction false} LogNotices(ts: seq<Tracked>, now: int, oks: seq<bool>)
    requires |ts| <= |oks|
    ensures NoticesIn(Log(ts, now, oks)) == Notices(Subs(ts), oks)
    decreases |ts|
  {
    if ts != [] {
      LogNotices(ts[1..], now, oks[1..]);
      NoticesInJoin(LogOne(ts[0], now, oks[0]), Log(ts[1..], now, oks[1..]));
      OneNotice(ts[0], now, oks[0]);
      hide Notices, NoticesIn, LogOne;
      NoticesCons(ts[0].sub, Subs(ts[1..]), oks[0], oks[1..]);
      assert [oks[0]] + oks[1..] == oks;
    }
  }

  lemma OneNotice(t: Tracked, now: int, ok: bool)
    ensures NoticesIn(LogOne(t, now, ok)) == if t.sub.remaining == 0 then [Notice(t.sub.modID, t.sub.param, ok)] else []
  {
    if t.sub.remaining == 0 {
      assert LogOne(t, now, ok)[1..] == [];
    }
  }

  /** A timeout does to the tracked table, and sends, what the class does and sends. */
  lemma TimeoutIsTableStep(w: World, now: int, oks: seq<bool>)
    requires Enabled(w, Timeout(now, oks))
    ensures var aged, v := AllAged(Subs(w.table), now - w.last), Next(w, Timeout(now, oks));
            && Subs(v.table) == Live(AllNotified(aged, oks))
            && NoticesIn(v.log) == NoticesIn(w.log) + Notices(aged, oks)
  {
    var aged := AllAgedT(w.table, now - w.last);
    AgedLength(w.table, now - w.last);
    AgedSubs(w.table, now - w.last);
    hide AllAgedT, Kept, Fired, Log, NoticesIn, Notices, Live, AllAged, AllNotified, Subs;
    KeptSubs(aged, now, oks);
    LogNotices(aged, now, oks);
    NoticesInJoin(w.log, Log(aged, now, oks));
  }

  /** So do a registration and an unregistration. */
  lemma RegisterIsTableStep(w: World, now: int, modID: int, ticks: int, repeating: bool, param: int)
    requires Enabled(w, Register(now, modID, ticks, repeating, param))
    ensures var v := Next(w, Register(now, modID, ticks, repeating, param));
            if |w.table| == MAX_SUBSCRIPTIONS then v == w
            else |w.table| < MAX_SUBSCRIPTIONS ==>
                   v.last == now && Subs(v.table) == AllAged(Subs(w.table), now - w.last) + [Sub(modID, ticks, repeating, param, ticks)]
  {
    AgedSubs(w.table, now - w.last);
    var x := Tracked(Sub(modID, ticks, repeating, param, ticks), w.next, now + ticks, 0);
    SubsJoin(AllAgedT(w.table, now - w.last), [x]);
    assert Subs([x]) == [x.sub] + Subs([x][1..]);
  }

  /** Any other message ages the table. */
  lemma MessageIsTableStep(w: World, now: int)
    requires Enabled(w, Message(now))
    ensures var v := Next(w, Message(now)); v.last == now && Subs(v.table) == AllAged(Subs(w.table), now - w.last)
  {
    AgedSubs(w.table, now - w.last);
  }

  lemma UnregisterIsTableStep(w: World, modID: int, param: int)
    ensures Subs(Next(w, Unregister(modID, param)).table) == Unregistered(Subs(w.table), modID, param)
  {
    var i := Find(Subs(w.table), modID, param);
    if i < |w.table| {
      SubsWithout(w.table, i);
    }
  }

  lemma SubsOne(t: Tracked)
    ensures Subs([t]) == [t.sub]
  {
    assert [t][1..] == [];
  }

  lemma WithoutJoin(a: seq<Sub>, x: Sub, b: seq<Sub>)
    ensures Without(a + ([x] + b), |a|) == a + b
  {
    var all := a + ([x] + b);
    assert all[..|a|] == a && all[|a| + 1..] == b;
  }

  lemma SubsWithout(ts: seq<Tracked>, i: nat)
    requires i < |ts|
    ensures Subs(ts[..i] + ts[i + 1..]) == Without(Subs(ts), i)
  {
    hide Subs, Without;
    var head, rest := ts[..i], ts[i + 1..];
    CutAt(ts, i);
    SubsJoin(head, [ts[i]] + rest);
    SubsJoin([ts[i]], rest);
    SubsOne(ts[i]);
    SubsJoin(head, rest);
    WithoutJoin(Subs(head), ts[i].sub, Subs(rest));
  }
}
