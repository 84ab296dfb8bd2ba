/**
 The subscription table of the delay manager (delay/src/delay_mgr.c): ageing,
 notifying, compaction in place, registering and unregistering, each proved equal
 to a function of the table's contents.
 */
module DelayTable {

  /** Subscription: `remaining` ticks of `requested` are left. */
  datatype Sub = Sub(modID: int, requested: int, repeating: bool, param: int, remaining: int)

  /** One attempt to send MSG_DELAY_NOTIFY. */
  datatype Notice = Notice(modID: int, param: int, ok: bool)

  const MAX_SUBSCRIPTIONS := 10
  const WAIT_FOREVER := 0xFFFFFFFF

  const UINT_MAX := 0xFFFFFFFF

  /** The ticks since the last count, as the source works them out when the counter may have wrapped. */
  function Transpired(now: int, last: int): int {
    if now >= last then now - last else UINT_MAX - last + now
  }

  /** That is right as long as the counter has not wrapped; when it has, one tick goes missing. */
  lemma TranspiredExactly(now: int, last: int)
    requires 0 <= now <= UINT_MAX && 0 <= last <= UINT_MAX
    ensures Transpired(now, last) == (now - last) % (UINT_MAX + 1) <==> now >= last
    ensures now < last ==> Transpired(now, last) + 1 == (now - last) % (UINT_MAX + 1)
  {
    if now < last {
      assert (now - last) % (UINT_MAX + 1) == now - last + (UINT_MAX + 1);
    }
  }

  /** `elapsed` ticks later. */
  function Aged(s: Sub, elapsed: int): Sub {
    s.(remaining := if s.remaining <= elapsed then 0 else s.remaining - elapsed)
  }

  function AllAged(ss: seq<Sub>, elapsed: int): (r: seq<Sub>)
    ensures |r| == |ss|
  {
    seq(|ss|, i requires 0 <= i < |ss| => Aged(ss[i], elapsed))
  }

  /** After its turn in the notification loop; `ok` is the outcome of the send, if there is one. */
  function Notified(s: Sub, ok: bool): Sub {
    if s.remaining == 0 && (!ok || s.repeating) then s.(remaining := s.requested) else s
  }

  function AllNotified(ss: seq<Sub>, oks: seq<bool>): (r: seq<Sub>)
    requires |ss| <= |oks|
    ensures |r| == |ss|
  {
    seq(|ss|, i requires 0 <= i < |ss| => Notified(ss[i], oks[i]))
  }

  /** The notices that the loop sends, in order. */
  function Notices(ss: seq<Sub>, oks: seq<bool>): seq<Notice>
    requires |ss| <= |oks|
  {
    if ss == [] then []
    else (if ss[0].remaining == 0 then [Notice(ss[0].modID, ss[0].param, oks[0])] else []) + Notices(ss[1..], oks[1..])
  }

  /** The table without the subscriptions that are used up. */
  function Live(ss: seq<Sub>): seq<Sub> {
    if ss == [] then [] else (if ss[0].remaining == 0 then [] else [ss[0]]) + Live(ss[1..])
  }

  /** The place of the first subscription of a module with that parameter; the length if there is none. */
  function Find(ss: seq<Sub>, modID: int, param: int): (i: nat)
    ensures i <= |ss|
  {
    if ss == [] || (ss[0].modID == modID && ss[0].param == param) then 0 else 1 + Find(ss[1..], modID, param)
  }

  lemma {:induction false} FindIs(ss: seq<Sub>, modID: int, param: int)
    ensures var i := Find(ss, modID, param);
            && (i < |ss| ==> ss[i].modID == modID && ss[i].param == param)
            && forall j :: 0 <= j < i ==> ss[j].modID != modID || ss[j].param != param
  {
    if ss != [] && !(ss[0].modID == modID && ss[0].param == param) {
      FindIs(ss[1..], modID, param);
    }
  }

  function Without(ss: seq<Sub>, i: nat): seq<Sub>
    requires i < |ss|
  {
    ss[..i] + ss[i + 1..]
  }

  function Unregistered(ss: seq<Sub>, modID: int, param: int): seq<Sub> {
    var i := Find(ss, modID, param);
    if i < |ss| then Without(ss, i) else ss
  }

  /** How long to wait: the least of what remains. */
  function Wait(ss: seq<Sub>): int {
    if ss == [] then WAIT_FOREVER
    else var w := Wait(ss[..|ss| - 1]);
      if ss[|ss| - 1].remaining < w then ss[|ss| - 1].remaining else w
  }

  lemma {:induction false} WaitIsLeast(ss: seq<Sub>)
    ensures Wait(ss) <= WAIT_FOREVER
    ensures forall i :: 0 <= i < |ss| ==> Wait(ss) <= ss[i].remaining
    ensures Wait(ss) == WAIT_FOREVER || exists i :: 0 <= i < |ss| && Wait(ss) == ss[i].remaining
  {
    if ss != [] {
      var init := ss[..|ss| - 1];
      WaitIsLeast(init);
      if Wait(ss) == Wait(init) && Wait(init) != WAIT_FOREVER {
        var i :| 0 <= i < |init| && Wait(init) == init[i].remaining;
        assert ss[i].remaining == Wait(ss);
      }
    }
  }

  /** The notice to one subscription, if it is due. */
  function NoticeTo(s: Sub, ok: bool): seq<Notice> {
    if s.remaining == 0 then [Notice(s.modID, s.param, ok)] else []
  }

  lemma NoticesCons(s: Sub, rest: seq<Sub>, ok: bool, oks: seq<bool>)
    requires |rest| <= |oks|
    ensures Notices([s] + rest, [ok] + oks) == NoticeTo(s, ok) + Notices(rest, oks)
  {
    assert ([s] + rest)[1..] == rest && ([ok] + oks)[1..] == oks;
  }

  lemma NoticesJoinStep(s: Sub, ok: bool, a: seq<Sub>, b: seq<Sub>, oa: seq<bool>, ob: seq<bool>)
    requires |a| == |oa| && |b| <= |ob| && Notices(a + b, oa + ob) == Notices(a, oa) + Notices(b, ob)
    ensures Notices(([s] + a) + b, ([ok] + oa) + ob) == Notices([s] + a, [ok] + oa) + Notices(b, ob)
  {
    NoticesCons(s, a, ok, oa);
    NoticesCons(s, a + b, ok, oa + ob);
    hide Notices, NoticeTo;
    Regroup([s], a, b);
    Regroup([ok], oa, ob);
    Regroup(NoticeTo(s, ok), Notices(a, oa), Notices(b, ob));
  }

  lemma Regroup<T>(a: seq<T>, b: seq<T>, c: seq<T>)
    ensures (a + b) + c == a + (b + c)
  {
  }

  lemma {:induction false} NoticesJoin(a: seq<Sub>, b: seq<Sub>, oa: seq<bool>, ob: seq<bool>)
    requires |a| == |oa| && |b| <= |ob|
    ensures Notices(a + b, oa + ob) == Notices(a, oa) + Notices(b, ob)
  {
    if a == [] {
      assert a + b == b && oa + ob == ob;
    } else {
      NoticesJoin(a[1..], b, oa[1..], ob);
      NoticesJoinStep(a[0], oa[0], a[1..], b, oa[1..], ob);
      assert a == [a[0]] + a[1..];
      assert oa == [oa[0]] + oa[1..];
    }
  }

  class Table {
    const entries: array<Sub>
    var count: nat
    var lastTick: int
    var waitTicks: int

    ghost predicate Valid()
      reads this
    {
      entries.Length == MAX_SUBSCRIPTIONS && count <= MAX_SUBSCRIPTIONS
    }

    ghost function Contents(): seq<Sub>
      requires Valid()
      reads this, entries
    {
      entries[..count]
    }

    constructor (now: int)
      ensures Valid() && Contents() == [] && lastTick == now && waitTicks == WAIT_FOREVER && fresh(entries)
    {
      entries := new Sub[MAX_SUBSCRIPTIONS](_ => Sub(0, 0, false, 0, 0));
      count, lastTick, waitTicks := 0, now, WAIT_FOREVER;
    }

    /** UpdateTickCountsWhileLockSynchronizer. */
    method UpdateTickCounts(now: int)
      requires Valid()
      modifies this`lastTick, entries
      ensures Valid() && lastTick == now && Contents() == AllAged(old(Contents()), Transpired(now, old(lastTick)))
    {
      var transpired := if now >= lastTick then now - lastTick else UINT_MAX - lastTick + now;
      lastTick := now;
      var i := 0;
      while i < count
        invariant 0 <= i <= count && lastTick == now
        invariant forall k :: 0 <= k < i ==> entries[k] == Aged(old(entries[k]), transpired)
        invariant forall k :: i <= k < count ==> entries[k] == old(entries[k])
      {
        if entries[i].remaining <= transpired {
          entries[i] := entries[i].(remaining := 0);
        } else {
          entries[i] := entries[i].(remaining := entries[i].remaining - transpired);
        }
        i := i + 1;
      }
    }

    /** UpdateWaitInTicksWhileLockSynchronizer. */
    method UpdateWait()
      requires Valid()
      modifies this`waitTicks
      ensures waitTicks == Wait(Contents())
    {
      waitTicks := WAIT_FOREVER;
      var i := 0;
      while i < count
        invariant 0 <= i <= count && waitTicks == Wait(entries[..i])
      {
        assert entries[..i + 1][..i] == entries[..i];
        if entries[i].remaining < waitTicks {
          waitTicks := entries[i].remaining;
        }
        i := i + 1;
      }
    }

    /** The loop that notifies whoever is due; oks[i] tells whether the send for entry i would succeed. */
    method Notify(oks: seq<bool>) returns (sent: seq<Notice>)
      requires Valid() && count <= |oks|
      modifies entries
      ensures sent == Notices(old(Contents()), oks) && Contents() == AllNotified(old(Contents()), oks)
    {
      hide Notices;
      ghost var all := Contents();
      sent := [];
      var i := 0;
      assert all[..0] == [];
      NoticesNone();
      while i < count
        invariant 0 <= i <= count && sent == Notices(all[..i], oks[..i])
        invariant forall k :: 0 <= k < i ==> entries[k] == Notified(all[k], oks[k])
        invariant forall k :: i <= k < count ==> entries[k] == all[k]
      {
        NoticesMore(all, oks, i);
        if entries[i].remaining == 0 {
          sent := sent + [Notice(entries[i].modID, entries[i].param, oks[i])];
          if !oks[i] {
            entries[i] := entries[i].(remaining := entries[i].requested);
          }
          if entries[i].repeating {
            entries[i] := entries[i].(remaining := entries[i].requested);
          }
        }
        i := i + 1;
      }
      assert all[..count] == all;
      NoticesOf(all, oks);
    }

    /** Takes entry i out by moving all later ones down. */
    method Shift(i: nat)
      requires Valid() && i < count
      modifies this`count, entries
      ensures Valid() && count == old(count) - 1 && Contents() == Without(old(Contents()), i)
    {
      var j := i;
      while j < count - 1
        invariant i <= j < count == old(count) && Valid()
        invariant forall k :: 0 <= k < i ==> entries[k] == old(entries[k])
        invariant forall k :: i <= k < j ==> entries[k] == old(entries[k + 1])
        invariant forall k :: j <= k < count ==> entries[k] == old(entries[k])
      {
        entries[j] := entries[j + 1];
        j := j + 1;
      }
      count := count - 1;
      assert Contents() == Without(old(Contents()), i);
    }

    /** The loop that removes the one-shot subscriptions that have fired. */
    method Compact()
      requires Valid()
      modifies this`count, entries
      ensures Valid() && Contents() == Live(old(Contents()))
    {
      hide Live, Without;
      ghost var all := Contents();
      var i := 0;
      assert all[..0] == [] && [] + Live(all) == Live(all);
      while i < count
        invariant Valid() && 0 <= i <= count
        invariant Contents()[..i] + Live(Contents()[i..]) == Live(all)
        decreases count - i
      {
        label Before:
        LiveStep(Contents(), i);
        if entries[i].remaining == 0 {
          Shift(i);
          ShiftKeepsRest(old@Before(Contents()), i);
          i := i - 1;
        }
        i := i + 1;
      }
      assert Contents()[count..] == [] && Contents()[..count] == Contents();
      NothingLives();
    }

    /** The queue wait timed out. */
    method OnTimeout(now: int, oks: seq<bool>) returns (sent: seq<Notice>)
      requires Valid() && count <= |oks|
      modifies this, entries
      ensures Valid() && lastTick == now
      ensures var aged := AllAged(old(Contents()), Transpired(now, old(lastTick)));
              && sent == Notices(aged, oks) && Contents() == Live(AllNotified(aged, oks))
      ensures waitTicks == Wait(Contents())
    {
      UpdateTickCounts(now);
      assert |Contents()| == count;
      sent := Notify(oks);
      Compact();
      UpdateWait();
    }

    /** A message came in. */
    method OnMessage(now: int)
      requires Valid()
      modifies this, entries
      ensures Valid() && lastTick == now && Contents() == AllAged(old(Contents()), Transpired(now, old(lastTick)))
      ensures waitTicks == Wait(Contents())
    {
      UpdateTickCounts(now);
      UpdateWait();
    }

    /** DMNotifyRegister; `posted` tells whether the thread could be told. */
    method Register(now: int, modID: int, ticks: int, repeating: bool, param: int, posted: bool) returns (ok: bool)
      requires Valid()
      modifies this`count, this`lastTick, entries
      ensures Valid() && ok == (|old(Contents())| < MAX_SUBSCRIPTIONS && posted)
      ensures |old(Contents())| < MAX_SUBSCRIPTIONS ==>
                && lastTick == now
                && Contents() == AllAged(old(Contents()), Transpired(now, old(lastTick))) + [Sub(modID, ticks, repeating, param, ticks)]
      ensures |old(Contents())| == MAX_SUBSCRIPTIONS ==> lastTick == old(lastTick) && Contents() == old(Contents())
    {
      if count < MAX_SUBSCRIPTIONS {
        UpdateTickCounts(now);
        ghost var aged := Contents();
        entries[count] := Sub(modID, ticks, repeating, param, ticks);
        count := count + 1;
        assert Contents() == aged + [Sub(modID, ticks, repeating, param, ticks)];
        ok := posted;
      } else {
        ok := false;
      }
    }

    /** DMNotifyUnregister. */
    method Unregister(modID: int, param: int, posted: bool) returns (found: bool)
      requires Valid()
      modifies this`count, entries
      ensures Valid() && Contents() == Unregistered(old(Contents()), modID, param)
      ensures found == (Find(old(Contents()), modID, param) < |old(Contents())| && posted)
    {
      hide Without;
      ghost var all := Contents();
      found := false;
      var i := 0;
      assert all[0..] == all;
      while i < count
        invariant Valid() && 0 <= i <= count && Contents() == all && !found
        invariant Find(all, modID, param) == i + Find(all[i..], modID, param)
        decreases count - i
      {
        assert all[i..][1..] == all[i + 1..] && all[i..][0] == all[i];
        if entries[i].modID == modID && entries[i].param == param {
          Shift(i);
          found := posted;
          return;
        }
        i := i + 1;
      }
      assert all[i..] == [];
    }
  }

  lemma NoticesNone()
    ensures Notices([], []) == []
  {
  }

  lemma NoticesMore(ss: seq<Sub>, oks: seq<bool>, i: nat)
    requires i < |ss| <= |oks|
    ensures Notices(ss[..i + 1], oks[..i + 1]) ==
            Notices(ss[..i], oks[..i]) +
            (if ss[i].remaining == 0 then [Notice(ss[i].modID, ss[i].param, oks[i])] else [])
  {
    NoticesJoin(ss[..i], [ss[i]], oks[..i], [oks[i]]);
    assert ss[..i + 1] == ss[..i] + [ss[i]] && oks[..i + 1] == oks[..i] + [oks[i]];
    assert [ss[i]][1..] == [] && [oks[i]][1..] == [];
  }

  lemma {:induction false} NoticesOf(ss: seq<Sub>, oks: seq<bool>)
    requires |ss| <= |oks|
    ensures Notices(ss, oks) == Notices(ss, oks[..|ss|])
  {
    if ss != [] {
      NoticesOf(ss[1..], oks[1..]);
      assert oks[1..][..|ss[1..]|] == oks[..|ss|][1..];
    }
  }

  lemma LiveStep(ss: seq<Sub>, i: nat)
    requires i < |ss|
    ensures ss[..i] + Live(ss[i..]) == (if ss[i].remaining == 0 then ss[..i] else ss[..i + 1]) + Live(ss[i + 1..])
  {
    assert ss[i..][1..] == ss[i + 1..] && ss[i..][0] == ss[i];
    assert ss[..i] + ([ss[i]] + Live(ss[i + 1..])) == ss[..i + 1] + Live(ss[i + 1..]);
  }

  lemma ShiftKeepsRest(ss: seq<Sub>, i: nat)
    requires i < |ss|
    ensures Without(ss, i)[..i] == ss[..i] && Without(ss, i)[i..] == ss[i + 1..]
  {
  }

  lemma NothingLives()
    ensures Live([]) == []
  {
  }
}
