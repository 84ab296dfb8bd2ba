/**
 The page accounting of the n-up generator thread (generators/src/generator_nup.c,
 gen_nup_task): which of the pages it receives are passed on, and which are freed.
 ID n-up is inactive and no job is cancelled.
 */
module NupPages {
  import opened SeqFacts

  /** A page as its MSG_JOBPAGESTART brings it: its images per sheet, and whether a single one is rotated. */
  datatype Page = Page(id: nat, images: nat, rotateOne: bool)

  datatype Message = PageStart(page: Page) | PageEnd | JobEnd

  datatype Held = Nothing | Holds(id: nat)

  /** The variables of the thread, and what it has passed on and freed so far. */
  datatype State = State(page: Held, count: nat, wanted: nat, nupJob: bool, sent: seq<nat>, freed: seq<nat>)

  function JobStart(s: State): State {
    s.(count := 0)
  }

  /** One message. */
  function Step(s: State, m: Message): State {
    match m
    case PageStart(p) =>
      var freed := if s.page.Holds? then s.freed + [s.page.id] else s.freed;
      if p.images < 2 && !(p.images == 1 && p.rotateOne) then
        // not an n-up job: the page goes straight on
        s.(page := Nothing, count := 0, nupJob := false, freed := freed, sent := s.sent + [p.id])
      else
        s.(page := Holds(p.id), count := s.count + 1, wanted := p.images, nupJob := true, freed := freed)
    case PageEnd =>
      if s.nupJob && s.count == s.wanted && s.page.Holds?
      then s.(page := Nothing, count := 0, sent := s.sent + [s.page.id]) else s
    case JobEnd =>
      if s.nupJob && s.count != 0 && s.page.Holds?
      then s.(page := Nothing, count := 0, sent := s.sent + [s.page.id]) else s.(page := Nothing)
  }

  function Steps(s: State, ms: seq<Message>): State
    decreases |ms|
  {
    if ms == [] then s else Steps(Step(s, ms[0]), ms[1..])
  }

  /** The messages of the pages of a job. */
  function PageMessages(ps: seq<Page>): seq<Message> {
    if ps == [] then [] else [PageStart(ps[0]), PageEnd] + PageMessages(ps[1..])
  }

  function Job(ps: seq<Page>): seq<Message> {
    PageMessages(ps) + [JobEnd]
  }

  /** Every page of the job asks for n images to a page; a single image is to be rotated. */
  predicate NUp(ps: seq<Page>, n: nat) {
    1 <= n && forall k :: 0 <= k < |ps| ==> ps[k].images == n && (n == 1 ==> ps[k].rotateOne)
  }

  /** No page of the job is for the compositor. */
  predicate NotNUp(ps: seq<Page>) {
    forall k :: 0 <= k < |ps| ==> ps[k].images == 0 || (ps[k].images == 1 && !ps[k].rotateOne)
  }

  function Ids(ps: seq<Page>): (ids: seq<nat>)
    ensures |ids| == |ps| && forall k :: 0 <= k < |ps| ==> ids[k] == ps[k].id
  {
    seq(|ps|, k requires 0 <= k < |ps| => ps[k].id)
  }

  /** Between two pages: count pages wait on the sheet, the last of them is held. */
  predicate Between(s: State, n: nat) {
    s.count < n && (s.page.Holds? <==> s.count > 0) && (s.count > 0 ==> s.nupJob && s.wanted == n)
  }

  function HeldIds(s: State): multiset<nat> {
    if s.page.Holds? then multiset{s.page.id} else multiset{}
  }

  /** Every page that came in is with one owner: passed on, freed or held. */
  function Owned(s: State): multiset<nat> {
    multiset(s.sent) + multiset(s.freed) + HeldIds(s)
  }

  lemma {:induction false} StepsInTwo(s: State, ms: seq<Message>, more: seq<Message>)
    ensures Steps(s, ms + more) == Steps(Steps(s, ms), more)
    decreases |ms|
  {
    if ms == [] {
      assert ms + more == more;
    } else {
      assert (ms + more)[0] == ms[0] && (ms + more)[1..] == ms[1..] + more;
      StepsInTwo(Step(s, ms[0]), ms[1..], more);
    }
  }

  lemma TwoSteps(s: State, a: Message, b: Message)
    ensures Steps(s, [a, b]) == Step(Step(s, a), b)
  {
    assert [a, b][1..] == [b];
    assert Steps(Step(s, a), [b]) == Step(Step(s, a), b);
  }

  /** A page that does not fill the sheet stays; one that does is passed on. */
  lemma OnePage(s: State, p: Page, n: nat)
    requires 1 <= n && p.images == n && (n == 1 ==> p.rotateOne) && Between(s, n)
    ensures var t := Steps(s, [PageStart(p), PageEnd]);
            && Between(t, n) && Owned(t) == Owned(s) + multiset{p.id}
            && t.sent == (if s.count + 1 == n then s.sent + [p.id] else s.sent)
            && t.count == (if s.count + 1 == n then 0 else s.count + 1)
            && (t.page.Holds? ==> t.page.id == p.id)
            && Step(s, PageStart(p)).sent == s.sent && Step(s, PageStart(p)).page == Holds(p.id)
  {
    TwoSteps(s, PageStart(p), PageEnd);
  }

  /** A page that asks for a smaller sheet than already waits does not fill it: it stays. */
  lemma LatePage(s: State, p: Page)
    requires NUp([p], p.images) && p.images <= s.count
    ensures var t := Steps(s, [PageStart(p), PageEnd]);
            t.sent == s.sent && t.page == Holds(p.id) && t.count == s.count + 1
  {
    assert [p][0] == p;
    TwoSteps(s, PageStart(p), PageEnd);
  }

  /** The pages passed on, when `count` pages wait: those that fill a sheet. */
  function Fulls(ids: seq<nat>, n: nat, count: nat): seq<nat>
    requires count < n
    decreases |ids|
  {
    if ids == [] then []
    else if count + 1 == n then [ids[0]] + Fulls(ids[1..], n, 0)
    else Fulls(ids[1..], n, count + 1)
  }

  /** What the pages of a job do, in four parts: the shape, the owners, the pages passed on, and their number. */
  lemma {:induction false} PagesKeepShape(s: State, ps: seq<Page>, n: nat)
    requires NUp(ps, n) && Between(s, n)
    ensures Between(Steps(s, PageMessages(ps)), n)
    decreases |ps|
  {
    if ps != [] {
      FirstPage(s, ps, n);
      PagesKeepShape(Steps(s, [PageStart(ps[0]), PageEnd]), ps[1..], n);
    }
  }

  lemma FirstPage(s: State, ps: seq<Page>, n: nat)
    requires NUp(ps, n) && Between(s, n) && ps != []
    ensures Between(Steps(s, [PageStart(ps[0]), PageEnd]), n) && NUp(ps[1..], n)
    ensures Steps(s, PageMessages(ps)) == Steps(Steps(s, [PageStart(ps[0]), PageEnd]), PageMessages(ps[1..]))
    ensures Ids(ps) == [ps[0].id] + Ids(ps[1..])
  {
    OnePage(s, ps[0], n);
    assert Ids(ps) == [ps[0].id] + Ids(ps[1..]);
    assert PageMessages(ps) == [PageStart(ps[0]), PageEnd] + PageMessages(ps[1..]);
    hide Steps, PageMessages, Ids, Owned;
    StepsInTwo(s, [PageStart(ps[0]), PageEnd], PageMessages(ps[1..]));
  }

  lemma {:induction false} PagesHaveOwners(s: State, ps: seq<Page>, n: nat)
    requires NUp(ps, n) && Between(s, n)
    ensures Owned(Steps(s, PageMessages(ps))) == Owned(s) + multiset(Ids(ps))
    decreases |ps|
  {
    hide Owned, Between;
    if ps != [] {
      FirstPage(s, ps, n);
      OnePage(s, ps[0], n);
      PagesHaveOwners(Steps(s, [PageStart(ps[0]), PageEnd]), ps[1..], n);
      assert multiset(Ids(ps)) == multiset{ps[0].id} + multiset(Ids(ps[1..]));
    }
  }

  /** Pages that wait after k more. */
  function Waiting(k: nat, n: nat, count: nat): (w: nat)
    requires count < n
    ensures w < n
  {
    if k == 0 then count else Waiting(k - 1, n, if count + 1 == n then 0 else count + 1)
  }

  lemma FullsFirst(id: nat, ids: seq<nat>, n: nat, count: nat)
    requires count < n
    ensures Fulls([id] + ids, n, count) == if count + 1 == n then [id] + Fulls(ids, n, 0) else Fulls(ids, n, count + 1)
  {
    assert ([id] + ids)[1..] == ids;
  }

  lemma PassedOnStep(sent: seq<nat>, next: seq<nat>, id: nat, ids: seq<nat>, n: nat, count: nat)
    requires count < n && next == if count + 1 == n then sent + [id] else sent
    ensures next + Fulls(ids, n, if count + 1 == n then 0 else count + 1) == sent + Fulls([id] + ids, n, count)
  {
    FullsFirst(id, ids, n, count);
    hide Fulls;
    if count + 1 == n {
      JoinInThree(sent, [id], Fulls(ids, n, 0));
    }
  }

  lemma {:induction false} PagesPassedOn(s: State, ps: seq<Page>, n: nat)
    requires NUp(ps, n) && Between(s, n)
    ensures Steps(s, PageMessages(ps)).sent == s.sent + Fulls(Ids(ps), n, s.count)
    ensures Steps(s, PageMessages(ps)).count == Waiting(|ps|, n, s.count)
    decreases |ps|
  {
    if ps != [] {
      var t, ids := Steps(s, [PageStart(ps[0]), PageEnd]), Ids(ps[1..]);
      FirstPage(s, ps, n);
      OnePage(s, ps[0], n);
      hide Steps, PageMessages, Ids, Owned, NUp;
      PagesPassedOn(t, ps[1..], n);
      PassedOnStep(s.sent, t.sent, ps[0].id, ids, n, s.count);
    }
  }

  /** Pages passed on and pages waiting account for all that came. */
  lemma {:induction false} FullsFill(ids: seq<nat>, n: nat, count: nat)
    requires count < n
    ensures count + |ids| == |Fulls(ids, n, count)| * n + Waiting(|ids|, n, count)
    decreases |ids|
  {
    if ids == [] {
    } else if count + 1 == n {
      FullsFill(ids[1..], n, 0);
      Distributes(|Fulls(ids[1..], n, 0)|, n);
    } else {
      FullsFill(ids[1..], n, count + 1);
    }
  }

  lemma Distributes(q: nat, n: nat)
    ensures (1 + q) * n == n + q * n
  {
  }

  function CeilDiv(k: nat, n: nat): nat
    requires 0 < n
  {
    (k + n - 1) / n
  }

  lemma Ceiling(k: nat, n: nat, q: nat, r: nat)
    requires r < n && k == q * n + r
    ensures CeilDiv(k, n) == if r == 0 then q else q + 1
  {
    if r == 0 {
      QuotientIs(k + n - 1, n, q);
    } else {
      assert (q + 1) * n == q * n + n;
      QuotientIs(k + n - 1, n, q + 1);
    }
  }

  lemma QuotientIs(c: nat, n: nat, q: nat)
    requires 0 < n && q * n <= c < q * n + n
    ensures c / n == q
  {
    var d := c / n;
    if d < q {
      Scaled(d + 1, q, n);
    } else if q < d {
      Scaled(q + 1, d, n);
    }
  }

  lemma Scaled(a: nat, b: nat, n: nat)
    requires a <= b
    ensures a * n <= b * n
  {
  }

  /** A job of k pages, n to a sheet: ceil(k / n) are passed on, all others freed, none kept, none lost. */
  lemma JobBalances(s: State, ps: seq<Page>, n: nat)
    requires NUp(ps, n) && s.page == Nothing
    ensures var t := Steps(JobStart(s), Job(ps));
            && t.page == Nothing && s.sent <= t.sent && |t.sent| - |s.sent| == CeilDiv(|ps|, n)
            && multiset(t.sent) + multiset(t.freed) == multiset(s.sent) + multiset(s.freed) + multiset(Ids(ps))
  {
    var b := JobStart(s);
    var m := Steps(b, PageMessages(ps));
    JobSteps(b, ps);
    PagesKeepShape(b, ps, n);
    PagesHaveOwners(b, ps, n);
    PagesPassedOn(b, ps, n);
    hide Steps, PageMessages, Ids, CeilDiv;
    FullsFill(Ids(ps), n, 0);
    Ceiling(|ps|, n, |Fulls(Ids(ps), n, 0)|, m.count);
    LastSheet(m, n);
  }

  lemma JobSteps(s: State, ps: seq<Page>)
    ensures Steps(s, Job(ps)) == Step(Steps(s, PageMessages(ps)), JobEnd)
  {
    var m := Steps(s, PageMessages(ps));
    StepsInTwo(s, PageMessages(ps), [JobEnd]);
    assert Steps(m, [JobEnd]) == Step(m, JobEnd);
  }

  /** The end of the job passes on the page that is held, if any. */
  lemma LastSheet(m: State, n: nat)
    requires Between(m, n)
    ensures var t := Step(m, JobEnd);
            && t.page == Nothing && m.sent <= t.sent && |t.sent| == |m.sent| + (if m.count == 0 then 0 else 1)
            && multiset(t.sent) + multiset(t.freed) == Owned(m)
  {
  }

  /** A job that is not n-up: every page is passed on at once, in order, and none is freed or held. */
  lemma {:induction false} PlainPages(s: State, ps: seq<Page>)
    requires NotNUp(ps) && s.page == Nothing
    ensures var t := Steps(s, PageMessages(ps));
            t.page == Nothing && t.sent == s.sent + Ids(ps) && t.freed == s.freed
    decreases |ps|
  {
    if ps == [] {
      assert Ids(ps) == [];
    } else {
      var t := Steps(s, [PageStart(ps[0]), PageEnd]);
      TwoSteps(s, PageStart(ps[0]), PageEnd);
      PlainPages(t, ps[1..]);
      StepsInTwo(s, [PageStart(ps[0]), PageEnd], PageMessages(ps[1..]));
      assert s.sent + Ids(ps) == s.sent + [ps[0].id] + Ids(ps[1..]);
    }
  }

  lemma PlainJobPassesOn(s: State, ps: seq<Page>)
    requires NotNUp(ps) && s.page == Nothing
    ensures var t := Steps(JobStart(s), Job(ps));
            t.page == Nothing && t.sent == s.sent + Ids(ps) && t.freed == s.freed
  {
    PlainPages(JobStart(s), ps);
    JobSteps(JobStart(s), ps);
  }

  // ---- Jobs of any pages. ----

  /** A page is held only while pages wait for their sheet. */
  predicate Waits(s: State) {
    s.page.Holds? ==> s.nupJob && s.count > 0
  }

  /** The pages that the messages bring. */
  function Brought(ms: seq<Message>): multiset<nat> {
    if ms == [] then multiset{}
    else (if ms[0].PageStart? then multiset{ms[0].page.id} else multiset{}) + Brought(ms[1..])
  }

  lemma StepOwns(s: State, m: Message)
    requires Waits(s)
    ensures Waits(Step(s, m)) && (m == JobEnd ==> Step(s, m).page == Nothing)
    ensures Owned(Step(s, m)) == Owned(s) + if m.PageStart? then multiset{m.page.id} else multiset{}
  {
    hide Waits, Owned, Step;
    StepWaits(s, m);
    if m.PageStart? {
      StartOwns(s, m.page);
    } else {
      EndOwns(s, m);
    }
  }

  lemma StepWaits(s: State, m: Message)
    requires Waits(s)
    ensures Waits(Step(s, m)) && (m == JobEnd ==> Step(s, m).page == Nothing)
  {
  }

  lemma EndOwns(s: State, m: Message)
    requires Waits(s) && !m.PageStart?
    ensures Owned(Step(s, m)) == Owned(s)
  {
    if s.page.Holds? {
      OneMore(s.sent, s.page.id);
    }
  }

  lemma OneMore(ids: seq<nat>, id: nat)
    ensures multiset(ids + [id]) == multiset(ids) + multiset{id}
  {
  }

  lemma StartOwns(s: State, p: Page)
    ensures Owned(Step(s, PageStart(p))) == Owned(s) + multiset{p.id}
  {
    var t := Step(s, PageStart(p));
    OneMore(s.sent, p.id);
    if s.page.Holds? {
      OneMore(s.freed, s.page.id);
      Exchange(multiset(s.sent), multiset(s.freed), multiset{s.page.id}, multiset{p.id});
    } else {
      Exchange(multiset(s.sent), multiset(s.freed), multiset{}, multiset{p.id});
    }
  }

  lemma Exchange(a: multiset<nat>, b: multiset<nat>, c: multiset<nat>, d: multiset<nat>)
    ensures (a + d) + (b + c) + multiset{} == a + b + c + d && a + (b + c) + d == a + b + c + d
  {
  }

  /** Whatever mixture of pages and page ends comes: each page is passed on, freed or held, and just once; no job end keeps one. */
  lemma {:induction false} NoPageIsLost(s: State, ms: seq<Message>)
    requires Waits(s)
    ensures var t := Steps(s, ms);
            && Waits(t) && Owned(t) == Owned(s) + Brought(ms)
            && (ms != [] && ms[|ms| - 1] == JobEnd ==> t.page == Nothing)
    decreases |ms|
  {
    hide Owned, Waits, Step;
    if ms != [] {
      StepOwns(s, ms[0]);
      NoPageIsLost(Step(s, ms[0]), ms[1..]);
    }
  }
}
