/**
 The protocol around the ring of debug output (debug/src/dbg_outbuf.c): any number
 of producers, one output thread, two flags under a mutex and a condition variable.
 Each step below is one critical section or one call of _send, and the steps of
 different threads interleave in any order.
 */
module DbgDrain {
  import opened SeqFacts
  import opened DbgRing

  /** Where the output thread is; `buf` and `dropped` are its locals. */
  datatype Phase =
    | Waiting                                // for DATA
    | Draining                               // DATA cleared, about to take the ring lock
    | Marking(buf: string, dropped: bool)    // drained, about to set the flags
    | Sending(buf: string, dropped: bool)    // about to call _send
    | Checking(dropped: bool)                // about to test for an overflow
    | Noticing                               // about to send the overflow notice

  /**
   The shared state. `signals` counts the producers between their two critical
   sections. The last five fields record history: characters added to the ring,
   bytes sent from it, overflow notices sent, how many characters had been added
   at the last drain, and how many of those at the drain before NODATA was last set.
   */
  datatype State = State(ring: string, overflow: bool, data: bool, nodata: bool, signals: nat, phase: Phase,
                         added: string, sent: string, notices: nat, drained: nat, mark: nat)

  datatype Action = Add(c: char) | Signal | Output

  function Start(): State {
    State([], false, false, true, 0, Waiting, [], [], 0, 0, 0)
  }

  /** One step of the output thread, when it has one to take. */
  function OutputStep(s: State): State {
    match s.phase
    case Waiting => if s.data then s.(data := false, phase := Draining) else s
    case Draining =>
      var k := Taken(s.ring, 0);
      var buf := Expand(s.ring[..k]);
      var dropped := s.overflow && |buf| < LIMIT;
      s.(ring := s.ring[k..], overflow := s.overflow && !dropped, phase := Marking(buf, dropped),
          drained := |s.added|)
    case Marking(buf, dropped) =>
      if buf != [] then s.(data := true, nodata := false, phase := Sending(buf, dropped))
      else s.(nodata := true, mark := s.drained, phase := Checking(dropped))
    case Sending(buf, dropped) => s.(sent := s.sent + buf, phase := Checking(dropped))
    case Checking(dropped) =>
      if dropped then s.(nodata := true, mark := s.drained, phase := Noticing) else s.(phase := Waiting)
    case Noticing => s.(notices := s.notices + 1, phase := Waiting)
  }

  /** One step of any thread; `size` is the size of the ring. A character that is not let in changes nothing. */
  function Step(s: State, a: Action, size: nat): State {
    match a
    case Add(c) =>
      if !Accepted(c) then s
      else if |s.ring| + 1 < size then s.(ring := s.ring + [c], added := s.added + [c], signals := s.signals + 1)
      else s.(overflow := true, signals := s.signals + 1)
    case Signal => if s.signals == 0 then s else s.(data := true, nodata := false, signals := s.signals - 1)
    case Output => OutputStep(s)
  }

  function Run(s: State, acts: seq<Action>, size: nat): State
    decreases |acts|
  {
    if acts == [] then s else Run(Step(s, acts[0], size), acts[1..], size)
  }

  /** Bytes drained from the ring that have still to be sent. */
  function InHand(s: State): string {
    match s.phase
    case Marking(buf, _) => buf
    case Sending(buf, _) => buf
    case _ => []
  }

  /** Something is left to be sent or noticed. */
  predicate Work(s: State) {
    s.ring != [] || s.overflow
  }

  /** Something will make the output thread look at the ring again. */
  predicate Awake(s: State) {
    s.data || s.signals > 0 || s.phase.Draining? || (s.phase.Marking? && s.phase.buf != [])
  }

  /** Every character added is sent, in hand or in the ring, in order. */
  predicate Accounted(s: State) {
    Expand(s.added) == s.sent + InHand(s) + Expand(s.ring)
  }

  /** Buffers are not overrun, and work has a waker. */
  predicate Guarded(s: State, size: nat) {
    && |s.ring| < size && |InHand(s)| < BUF
    && (Work(s) ==> Awake(s))
    && (s.phase.Sending? ==> s.phase.buf != [])
  }

  /** NODATA will be set without another look at the ring. */
  predicate Settling(s: State) {
    match s.phase
    case Marking(buf, dropped) => buf == [] || dropped
    case Sending(_, dropped) => dropped
    case Checking(dropped) => dropped
    case _ => false
  }

  /** What NODATA stands for: the characters there were at the drain before it was set have been sent. */
  predicate Marked(s: State) {
    && s.drained <= |s.added| && s.mark <= |s.added|
    && (Settling(s) ==> s.sent + InHand(s) == Expand(s.added[..s.drained]))
    && (s.nodata ==> !s.phase.Sending? && s.sent == Expand(s.added[..s.mark]))
  }

  /** Bytes go out in whole line ends. */
  predicate Whole(s: State) {
    AllAccepted(s.ring) && Paired(s.sent) && Paired(InHand(s))
  }

  predicate Inv(s: State, size: nat) {
    Accounted(s) && Guarded(s, size) && AllAccepted(s.added) && Whole(s) && Marked(s)
  }

  lemma StartInv(size: nat)
    requires 1 < size
    ensures Inv(Start(), size)
  {
  }

  lemma AddKeepsBytes(s: State, c: char, size: nat)
    requires Accounted(s)
    ensures Accounted(Step(s, Add(c), size))
  {
    if Accepted(c) && |s.ring| + 1 < size {
      hide Expand;
      ExpandJoins(s.added, [c]);
      ExpandJoins(s.ring, [c]);
      JoinInThree(s.sent + InHand(s), Expand(s.ring), Expand([c]));
    }
  }

  lemma AddKeepsInv(s: State, c: char, size: nat)
    requires Inv(s, size)
    ensures Inv(Step(s, Add(c), size), size)
  {
    hide Expand, Accounted, Paired;
    AddKeepsBytes(s, c, size);
    assert (s.added + [c])[..s.drained] == s.added[..s.drained] && (s.added + [c])[..s.mark] == s.added[..s.mark];
  }

  /** The bytes of the characters added stay accounted for. */
  lemma OutputKeepsBytes(s: State)
    requires Accounted(s)
    ensures Accounted(OutputStep(s))
  {
    hide Expand;
    match s.phase
    case Draining =>
      var k := Taken(s.ring, 0);
      hide Taken;
      ExpandJoins(s.ring[..k], s.ring[k..]);
      assert s.ring == s.ring[..k] + s.ring[k..];
      assert s.sent + [] + Expand(s.ring) == s.sent + Expand(s.ring[..k]) + Expand(s.ring[k..]);
    case Sending(buf, _) =>
      assert s.sent + buf + [] == s.sent + buf;
    case _ =>
  }

  lemma OutputStaysGuarded(s: State, size: nat)
    requires Guarded(s, size)
    ensures Guarded(OutputStep(s), size)
  {
    hide Expand, Taken;
    if s.phase.Draining? {
      TakenFits(s.ring, 0);
      ExpandsToSome(s.ring[..Taken(s.ring, 0)]);
    }
  }

  /** A drain that is followed by NODATA has emptied the ring. */
  lemma DrainMarks(s: State)
    requires s.phase.Draining? && Accounted(s) && Marked(s)
    ensures Marked(OutputStep(s))
  {
    hide Expand, Taken;
    var k, t := Taken(s.ring, 0), OutputStep(s);
    TakenFits(s.ring, 0);
    ExpandsToSome(s.ring[..k]);
    if Settling(t) {
      assert k == |s.ring| && s.ring[..k] == s.ring;
      assert s.added[..|s.added|] == s.added;
      assert s.sent + [] + Expand(s.ring) == s.sent + Expand(s.ring);
    }
  }

  lemma OutputMarks(s: State)
    requires Accounted(s) && Marked(s)
    ensures Marked(OutputStep(s))
  {
    hide Expand, Accounted, Taken;
    if s.phase.Draining? {
      DrainMarks(s);
    } else {
      assert s.sent + [] == s.sent;
      assert s.phase.Sending? ==> s.sent + s.phase.buf + [] == s.sent + s.phase.buf;
    }
  }

  lemma OutputStaysWhole(s: State)
    requires Whole(s)
    ensures Whole(OutputStep(s))
  {
    hide Expand, Paired, Taken;
    NothingIsPaired();
    match s.phase
    case Draining => ExpansionIsPaired(s.ring[..Taken(s.ring, 0)]);
    case Sending(buf, _) => PairedJoins(s.sent, buf);
    case _ =>
  }

  lemma NothingIsPaired()
    ensures Paired([])
  {
  }

  lemma OutputKeepsInv(s: State, size: nat)
    requires Inv(s, size)
    ensures Inv(OutputStep(s), size)
  {
    hide AllAccepted, Accounted, Guarded, Marked, Whole, OutputStep;
    OutputStaysWhole(s);
    OutputKeepsBytes(s);
    OutputStaysGuarded(s, size);
    OutputMarks(s);
    OutputAddsNothing(s);
  }

  lemma OutputAddsNothing(s: State)
    ensures OutputStep(s).added == s.added
  {
  }

  lemma ExpandsToSome(cs: string)
    ensures Expand(cs) == [] <==> cs == []
  {
  }

  lemma StepKeepsInv(s: State, a: Action, size: nat)
    requires Inv(s, size)
    ensures Inv(Step(s, a, size), size)
  {
    hide Expand, AllAccepted, Paired;
    match a
    case Add(c) => AddKeepsInv(s, c, size);
    case Output => OutputKeepsInv(s, size);
    case Signal =>
  }

  /**
   Whatever the interleaving: what was sent is a prefix of the characters added, in
   order, each line feed as CR LF and no other CR or LF; the rest is in hand or in the ring; the buffer of
   the output thread is never overrun; and work left behind always has a waker.
   */
  lemma {:induction false} NothingIsLost(s: State, acts: seq<Action>, size: nat)
    requires Inv(s, size)
    ensures Inv(Run(s, acts, size), size)
    decreases |acts|
  {
    if acts != [] {
      hide Inv, Step;
      StepKeepsInv(s, acts[0], size);
      NothingIsLost(Step(s, acts[0], size), acts[1..], size);
    }
  }

  /** From the start, the bytes sent can be read back as the characters added so far, as far as they go. */
  lemma SentIsReadable(acts: seq<Action>, size: nat)
    requires 1 < size
    ensures var s := Run(Start(), acts, size);
            && s.sent <= Expand(s.added) && Unexpand(Expand(s.added)) == s.added
            && Unexpand(s.sent) <= s.added && Paired(s.sent)
            && (s.phase.Waiting? && Work(s) ==> s.data || s.signals > 0)
  {
    hide Expand, Unexpand, Run, Accepted, Paired, Marked;
    StartInv(size);
    NothingIsLost(Start(), acts, size);
    var s := Run(Start(), acts, size);
    ExpansionIsReadable(s.added);
    assert s.sent + InHand(s) + Expand(s.ring) == s.sent + (InHand(s) + Expand(s.ring));
    UnexpandJoins(s.sent, InHand(s) + Expand(s.ring));
  }

  /** Steps of the output thread that are left for the characters it has. */
  function PhaseRank(p: Phase): nat {
    match p
    case Waiting => 0
    case Noticing => 1
    case Checking(_) => 2
    case Sending(_, _) => 3
    case Marking(buf, _) => if buf == [] then 4 else 20
    case Draining => 5
  }

  function Rank(s: State): nat {
    PhaseRank(s.phase) + if s.data then 10 else 0
  }

  /** All threads have come to rest. */
  predicate Quiet(s: State) {
    s.signals == 0 && s.phase.Waiting? && !s.data
  }

  /** Steps that are left for what is in the ring, in hand and announced. */
  function Measure(s: State): nat {
    40 * |s.ring| + 20 * s.signals + Rank(s)
  }

  /** Without new characters every step that does something brings the end nearer. */
  lemma EveryStepCounts(s: State, a: Action, size: nat)
    requires Inv(s, size) && !a.Add? && Step(s, a, size) != s
    ensures Measure(Step(s, a, size)) < Measure(s)
  {
    hide Expand, Taken, Marked, Accounted, AllAccepted;
    if s.phase.Draining? {
      TakenFits(s.ring, 0);
      ExpandsToSome(s.ring[..Taken(s.ring, 0)]);
    }
  }

  /** Neither a producer nor the output thread has anything to do. */
  predicate Rests(s: State, size: nat) {
    Step(s, Signal, size) == s && Step(s, Output, size) == s
  }

  lemma RestIsQuiet(s: State, size: nat)
    requires Inv(s, size)
    ensures Rests(s, size) <==> Quiet(s)
    ensures Rests(s, size) ==> s.sent == Expand(s.added) && s.ring == [] && !s.overflow
  {
    hide Taken, Marked, AllAccepted;
    if Quiet(s) {
      assert s.sent + [] + Expand([]) == s.sent;
    }
  }

  /** No character comes, and every step does something. */
  predicate Works(s: State, acts: seq<Action>, size: nat)
    decreases |acts|
  {
    acts == [] ||
    (!acts[0].Add? && Step(s, acts[0], size) != s && Works(Step(s, acts[0], size), acts[1..], size))
  }

  /**
   When no more characters come, every schedule sends everything: it takes at most
   Measure(s) steps that do something, and where it can go no further all that was
   added is sent, the ring is empty and an overflow has been noticed.
   */
  lemma {:induction false} EveryScheduleSends(s: State, acts: seq<Action>, size: nat)
    requires Inv(s, size) && Works(s, acts, size)
    ensures var t := Run(s, acts, size);
            && |acts| + Measure(t) <= Measure(s) && t.added == s.added
            && (Rests(t, size) ==> Quiet(t) && t.sent == Expand(s.added) && t.ring == [] && !t.overflow)
    decreases |acts|
  {
    hide Inv, Measure, Expand, Rests;
    if acts == [] {
      RestIsQuiet(s, size);
    } else {
      StepKeepsInv(s, acts[0], size);
      EveryStepCounts(s, acts[0], size);
      NothingNew(s, acts[0], size);
      hide Step;
      EveryScheduleSends(Step(s, acts[0], size), acts[1..], size);
    }
  }

  lemma NothingNew(s: State, a: Action, size: nat)
    requires !a.Add?
    ensures Step(s, a, size).added == s.added
  {
    OutputAddsNothing(s);
  }

  /** And there is such a schedule: whoever has something to do, does it. */
  lemma {:induction false} EverythingIsSent(s: State, size: nat) returns (acts: seq<Action>)
    requires Inv(s, size)
    ensures Works(s, acts, size)
    ensures var t := Run(s, acts, size);
            Quiet(t) && t.added == s.added && t.sent == Expand(s.added) && t.ring == [] && !t.overflow
    decreases Measure(s)
  {
    RestIsQuiet(s, size);
    if Rests(s, size) {
      acts := [];
    } else {
      hide Inv, Measure, Expand, Quiet;
      var a := if Step(s, Signal, size) != s then Signal else Output;
      StepKeepsInv(s, a, size);
      EveryStepCounts(s, a, size);
      NothingNew(s, a, size);
      hide Step;
      var rest := EverythingIsSent(Step(s, a, size), size);
      acts := [a] + rest;
      assert acts[1..] == rest;
    }
  }

  // ---- Overflows. ----

  /** A drain has taken the note of an overflow, and its notice has still to be sent. */
  predicate Noting(s: State) {
    match s.phase
    case Marking(_, dropped) => dropped
    case Sending(_, dropped) => dropped
    case Checking(dropped) => dropped
    case Noticing => true
    case _ => false
  }

  /** Notices sent and still to be sent. */
  function Due(s: State): nat {
    s.notices + (if s.overflow then 1 else 0) + if Noting(s) then 1 else 0
  }

  /** The character finds the ring full and is lost. */
  predicate Loses(s: State, a: Action, size: nat) {
    a.Add? && Accepted(a.c) && |s.ring| + 1 >= size
  }

  function Losses(s: State, acts: seq<Action>, size: nat): nat
    decreases |acts|
  {
    if acts == [] then 0
    else (if Loses(s, acts[0], size) then 1 else 0) + Losses(Step(s, acts[0], size), acts[1..], size)
  }

  lemma StepDue(s: State, a: Action, size: nat)
    ensures var t := Step(s, a, size);
            && Due(s) <= Due(t) <= Due(s) + (if Loses(s, a, size) then 1 else 0)
            && s.notices <= t.notices && (s.overflow && !t.overflow ==> Noting(t) && t.notices == s.notices)
            && (Noting(s) ==> Noting(t) || t.notices > s.notices) && (Loses(s, a, size) ==> t.overflow)
  {
    hide Expand, Taken, Accepted;
  }

  /** A loss is owed a notice from then on, until one is sent. */
  predicate Owed(s: State, n: nat) {
    s.overflow || Noting(s) || s.notices > n
  }

  lemma {:induction false} StaysOwed(s: State, acts: seq<Action>, size: nat, n: nat)
    requires Owed(s, n) && n <= s.notices
    ensures Owed(Run(s, acts, size), n)
    decreases |acts|
  {
    hide Step, Noting, Loses;
    if acts != [] {
      StepDue(s, acts[0], size);
      StaysOwed(Step(s, acts[0], size), acts[1..], size, n);
    }
  }

  /** Every lost character is followed by a notice: it has been sent wherever all threads have come to rest. */
  lemma LossIsNoticed(s: State, a: Action, acts: seq<Action>, size: nat)
    requires Inv(s, size) && Loses(s, a, size)
    ensures var t := Run(Step(s, a, size), acts, size); Rests(t, size) ==> t.notices > s.notices
  {
    hide Inv, Run, Rests;
    StepDue(s, a, size);
    StepKeepsInv(s, a, size);
    NothingIsLost(Step(s, a, size), acts, size);
    AddNotices(s, a, size);
    StaysOwed(Step(s, a, size), acts, size, s.notices);
    RestIsQuiet(Run(Step(s, a, size), acts, size), size);
  }

  lemma AddNotices(s: State, a: Action, size: nat)
    requires a.Add?
    ensures Step(s, a, size).notices == s.notices
  {
  }

  /** And there is never a notice without a loss: at most one each. */
  lemma {:induction false} NoticesAreLosses(s: State, acts: seq<Action>, size: nat)
    ensures Run(s, acts, size).notices <= Due(s) + Losses(s, acts, size)
    decreases |acts|
  {
    hide Step, Loses;
    if acts != [] {
      StepDue(s, acts[0], size);
      NoticesAreLosses(Step(s, acts[0], size), acts[1..], size);
    }
  }

  // ---- What NODATA tells dbg_outbuf_sync. ----

  lemma ShorterExpands(cs: string, n: nat)
    requires n <= |cs|
    ensures |Expand(cs[..n])| <= |Expand(cs)|
    ensures n < |cs| ==> |Expand(cs[..n])| < |Expand(cs)|
  {
    hide Expand;
    ExpandJoins(cs[..n], cs[n..]);
    ExpandsToSome(cs[n..]);
    assert cs == cs[..n] + cs[n..];
  }

  /**
   Over every interleaving: when NODATA is seen, exactly the characters that had been
   added before the drain before its last setting are sent; so all is sent if and
   only if none was let in since that drain.
   */
  lemma NodataMeans(acts: seq<Action>, size: nat)
    requires 1 < size
    ensures var s := Run(Start(), acts, size);
            && s.mark <= |s.added|
            && (s.nodata ==> s.sent == Expand(s.added[..s.mark]))
            && (s.nodata ==> (s.sent == Expand(s.added) <==> s.mark == |s.added|))
  {
    hide Expand, Run, AllAccepted;
    StartInv(size);
    NothingIsLost(Start(), acts, size);
    var s := Run(Start(), acts, size);
    ShorterExpands(s.added, s.mark);
    assert s.added[..|s.added|] == s.added;
  }

  /** A NODATA that will be set next covers the first n characters. */
  predicate Covered(s: State, n: nat) {
    n <= |s.added| && (Settling(s) ==> n <= s.drained)
  }

  /** So does the one that is set. */
  predicate Heard(s: State, n: nat) {
    Covered(s, n) && (s.nodata ==> n <= s.mark)
  }

  lemma {:induction false} StaysCovered(s: State, acts: seq<Action>, n: nat, size: nat)
    requires Covered(s, n)
    ensures Covered(Run(s, acts, size), n)
    decreases |acts|
  {
    hide Expand, Taken;
    if acts != [] {
      assert Covered(Step(s, acts[0], size), n);
      hide Covered, Step;
      StaysCovered(Step(s, acts[0], size), acts[1..], n, size);
    }
  }

  lemma {:induction false} StaysHeard(s: State, acts: seq<Action>, n: nat, size: nat)
    requires Heard(s, n)
    ensures Heard(Run(s, acts, size), n)
    decreases |acts|
  {
    hide Expand, Taken;
    if acts != [] {
      assert Heard(Step(s, acts[0], size), n);
      hide Heard, Step;
      StaysHeard(Step(s, acts[0], size), acts[1..], n, size);
    }
  }

  /** Left alone, the output thread sets NODATA for the drain that it has made. */
  lemma {:induction false} SettlesAt(s: State, size: nat) returns (acts: seq<Action>)
    requires Settling(s)
    ensures var t := Run(s, acts, size); t.nodata && t.mark == s.drained && t.added == s.added
    decreases PhaseRank(s.phase)
  {
    hide Expand;
    var t := Step(s, Output, size);
    if t.nodata && t.mark == s.drained {
      acts := [Output];
      assert acts[1..] == [];
    } else {
      var rest := SettlesAt(t, size);
      acts := [Output] + rest;
      assert acts[1..] == rest;
    }
  }

  /**
   A caller adds c in state s; others go on (`before`), the caller signals, others go
   on (`after`), and then NODATA is seen: if so, c has been sent with all before it.
   */
  predicate SyncWorks(s: State, c: char, before: seq<Action>, after: seq<Action>, size: nat) {
    var u := Run(Step(s, Add(c), size), before, size);
    var t := Run(Step(u, Signal, size), after, size);
    u.signals > 0 && t.nodata ==> Expand(s.added + [c]) <= t.sent
  }

  /**
   Waiting for NODATA after adding a character is right, whatever else happens, if
   and only if the output thread was not about to set it when the character was added.
   */
  lemma SyncWorksExactly(s: State, c: char, size: nat)
    requires Inv(s, size) && Accepted(c) && |s.ring| + 1 < size
    ensures (forall before, after :: SyncWorks(s, c, before, after, size)) <==> !Settling(s)
  {
    if Settling(s) {
      var after := SyncFails(s, c, size);
      assert !SyncWorks(s, c, [], after, size);
    } else {
      forall before, after
        ensures SyncWorks(s, c, before, after, size)
      {
        SyncHolds(s, c, before, after, size);
      }
    }
  }

  lemma SyncHolds(s: State, c: char, before: seq<Action>, after: seq<Action>, size: nat)
    requires Inv(s, size) && Accepted(c) && |s.ring| + 1 < size && !Settling(s)
    ensures SyncWorks(s, c, before, after, size)
  {
    hide Expand, Run, AllAccepted, Accounted, Guarded;
    var s1, n := Step(s, Add(c), size), |s.added| + 1;
    var u := Run(s1, before, size);
    if u.signals > 0 {
      var t := Run(Step(u, Signal, size), after, size);
      StaysCovered(s1, before, n, size);
      assert Heard(Step(u, Signal, size), n);
      StaysHeard(Step(u, Signal, size), after, n, size);
      if t.nodata {
        StepKeepsInv(s, Add(c), size);
        NothingIsLost(s1, before, size);
        StepKeepsInv(u, Signal, size);
        NothingIsLost(Step(u, Signal, size), after, size);
        StaysFirst(s1, before, size);
        StaysFirst(Step(u, Signal, size), after, size);
        assert t.added[..t.mark] == s1.added + t.added[n..t.mark];
        ExpandJoins(s1.added, t.added[n..t.mark]);
      }
    }
  }

  lemma {:induction false} StaysFirst(s: State, acts: seq<Action>, size: nat)
    ensures s.added <= Run(s, acts, size).added
    decreases |acts|
  {
    if acts != [] {
      OutputAddsNothing(s);
      assert s.added <= Step(s, acts[0], size).added;
      hide Step;
      StaysFirst(Step(s, acts[0], size), acts[1..], size);
    }
  }

  lemma SyncFails(s: State, c: char, size: nat) returns (after: seq<Action>)
    requires Inv(s, size) && Accepted(c) && |s.ring| + 1 < size && Settling(s)
    ensures !SyncWorks(s, c, [], after, size)
  {
    hide Expand, AllAccepted, Accounted, Guarded;
    var s1 := Step(s, Add(c), size);
    var v := Step(s1, Signal, size);
    after := SettlesAt(v, size);
    StepKeepsInv(s, Add(c), size);
    StepKeepsInv(s1, Signal, size);
    NothingIsLost(v, after, size);
    ShorterExpands(s1.added, s.drained);
  }

  /**
   dbg_outbuf_sync waits for NODATA. That is no promise: a character added while the
   output thread stands between an empty drain and its setting of NODATA is still in
   the ring when the flag is seen.
   */
  lemma SyncCanMiss(c: char, size: nat) returns (acts: seq<Action>)
    requires 3 < size && Accepted(c)
    ensures var s := Run(Start(), acts, size);
            s.nodata && s.signals == 0 && s.added == [c, c] && s.sent == Expand([c]) && s.ring == [c]
  {
    assert [c][..1] == [c] && [c][1..] == [] && [] + [c] == [c] && [c] + [c] == [c, c];
    assert Taken([c], 0) == 1 && Expand([c]) == Out(c) + Expand([]);
    var first := [Add(c), Signal, Output, Output, Output, Output, Output];
    var second := [Output, Output, Add(c), Signal, Output];
    var middle := State([], false, true, false, 0, Waiting, [c], Out(c), 0, 1, 0);
    FirstIsSent(c, size);
    SecondIsMissed(middle, c, size);
    RunInTwo(Start(), first, second, size);
    acts := first + second;
  }

  /** A character goes all the way. */
  lemma FirstIsSent(c: char, size: nat)
    requires 3 < size && Accepted(c)
    ensures Run(Start(), [Add(c), Signal, Output, Output, Output, Output, Output], size) ==
            State([], false, true, false, 0, Waiting, [c], Out(c), 0, 1, 0)
  {
    assert [] + [c] == [c];
    RunTwo(Start(), Add(c), Signal, size);
    RunInTwo(Start(), [Add(c), Signal], [Output, Output, Output, Output, Output], size);
    FirstGoesOut(c, size);
  }

  lemma FirstGoesOut(c: char, size: nat)
    ensures Run(State([c], false, true, false, 0, Waiting, [c], [], 0, 0, 0), [Output, Output, Output, Output, Output], size) ==
            State([], false, true, false, 0, Waiting, [c], Out(c), 0, 1, 0)
  {
    assert [c][..1] == [c] && [c][1..] == [] && [] + Out(c) == Out(c);
    assert Taken([c], 0) == 1 && Expand([c]) == Out(c) + Expand([]);
    var t2 := State([c], false, true, false, 0, Waiting, [c], [], 0, 0, 0);
    var t4 := State([], false, false, false, 0, Marking(Out(c), false), [c], [], 0, 1, 0);
    RunTwo(t2, Output, Output, size);
    RunTwo(t4, Output, Output, size);
    RunOne(State([], false, true, false, 0, Checking(false), [c], Out(c), 0, 1, 0), Output, size);
    RunInTwo(t4, [Output, Output], [Output], size);
    RunInTwo(t2, [Output, Output], [Output, Output, Output], size);
  }

  /** The next comes between the empty drain and the setting of NODATA. */
  lemma SecondIsMissed(s: State, c: char, size: nat)
    requires 3 < size && Accepted(c) && s.ring == [] && s.data && !s.overflow && s.signals == 0 && s.phase.Waiting?
    ensures var t := Run(s, [Output, Output, Add(c), Signal, Output], size);
            t.nodata && t.signals == 0 && t.added == s.added + [c] && t.sent == s.sent && t.ring == [c]
  {
    var t2 := s.(data := false, phase := Marking([], false), drained := |s.added|);
    assert s.ring[0..] == [] && s.ring[..0] == [] && Taken([], 0) == 0 && Expand([]) == [];
    RunTwo(s, Output, Output, size);
    var t4 := t2.(ring := [c], added := s.added + [c], data := true, nodata := false);
    assert [] + [c] == [c];
    RunTwo(t2, Add(c), Signal, size);
    RunOne(t4, Output, size);
    RunInTwo(t2, [Add(c), Signal], [Output], size);
    RunInTwo(s, [Output, Output], [Add(c), Signal, Output], size);
  }

  lemma RunOne(s: State, a: Action, size: nat)
    ensures Run(s, [a], size) == Step(s, a, size)
  {
    assert [a][1..] == [];
  }

  lemma RunTwo(s: State, a: Action, b: Action, size: nat)
    ensures Run(s, [a, b], size) == Step(Step(s, a, size), b, size)
  {
    assert [a, b][1..] == [b];
    RunOne(Step(s, a, size), b, size);
  }

  lemma {:induction false} RunInTwo(s: State, a: seq<Action>, b: seq<Action>, size: nat)
    ensures Run(s, a + b, size) == Run(Run(s, a, size), b, size)
    decreases |a|
  {
    hide Step;
    if a == [] {
      assert a + b == b;
    } else {
      assert (a + b)[1..] == a[1..] + b;
      RunInTwo(Step(s, a[0], size), a[1..], b, size);
    }
  }
}
