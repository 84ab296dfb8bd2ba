/**
 The three-semaphore handshake between the callers of a command wrapper, its
 worker thread and a delete (cmd/src/cmd_wrapper.c), as interleaved steps.

 `prod` is held by whoever owns the wrapper, `cons` tells the worker that a
 command is there, `done` tells the owner that it has run.
 */
module CmdHandshake {

  type Cmd = string

  /** A client's output handler with its data. */
  type Out = nat

  /** What a caller wants: commands run in order until one fails. */
  datatype Job = Job(cmds: seq<Cmd>, out: Out)

  /** A command the worker has run, for whom, with which handler, and its return code. */
  datatype Ran = Ran(pid: int, cmd: Cmd, out: Out, rc: int)

  datatype Phase =
    | Idle
    | Trying(job: Job)                      // validated, about to try prod
    | Waiting(job: Job)                     // blocked on prod
    | Acquired(job: Job)                    // has prod, not yet revalidated
    | Ready(job: Job, ran: seq<Ran>)        // has prod, about to hand over the next command
    | Written(job: Job, ran: seq<Ran>)      // out, out_data and cmd are set
    | Posted(job: Job, ran: seq<Ran>)       // cons posted, waiting for done
    | Got(job: Job, ran: seq<Ran>)          // done taken, return code not yet read
    | Leaving(job: Job, ran: seq<Ran>, ok: bool)
    | DelTrying                             // a delete, validated, waiting for prod
    | DelHolding                            // a delete that has prod
    | DelMarked                             // the wrapper is invalid and exit is set
    | DelPosted                             // cons posted, waiting for done
    | DelGone                               // the worker has left

  datatype Worker = Asleep | Woken | Running(cmd: Cmd, out: Out) | Finished | Exiting | Exited

  datatype Returned = Returned(pid: int, job: Job, ran: seq<Ran>, ok: bool)

  datatype State = State(
    procs: map<nat, Phase>,
    worker: Worker,
    prod: nat, cons: nat, done: nat,
    valid: bool, exit: bool,
    cmd: Cmd, out: Out, retcode: int,
    log: seq<Ran>,
    returned: seq<Returned>,
    owner: int                              // who has prod, or -1: an auxiliary variable
  )

  function Of(s: State, p: nat): Phase {
    if p in s.procs then s.procs[p] else Idle
  }

  function Go(s: State, p: nat, ph: Phase): State {
    s.(procs := s.procs[p := ph])
  }

  datatype Event =
    | Call(p: nat, job: Job)
    | Delete(p: nat)
    | Step(p: nat)
    | Block(p: nat)
    | Work(rc: int)

  /** A semaphore that is waited for is positive; everything else can always go on. */
  predicate Enabled(s: State, e: Event) {
    match e
    case Call(p, _) => Of(s, p) == Idle
    case Delete(p) => Of(s, p) == Idle
    case Block(p) => Of(s, p).Trying? && s.prod == 0
    case Step(p) =>
      (match Of(s, p)
       case Idle => false
       case Trying(_) => s.prod > 0
       case Waiting(_) => s.prod > 0
       case Posted(_, _) => s.done > 0
       case DelTrying => s.prod > 0
       case DelPosted => s.done > 0
       case DelGone => false
       case _ => true)
    case Work(_) =>
      (match s.worker
       case Asleep => s.cons > 0
       case Exited => false
       case _ => true)
  }

  function Take(s: State, p: nat, ph: Phase): State
    requires s.prod > 0
  {
    Go(s, p, ph).(prod := s.prod - 1, owner := p)
  }

  /** One step of a caller or of a delete. */
  function StepOf(s: State, p: nat): State
    requires Enabled(s, Step(p))
  {
    match Of(s, p)
    case Trying(job) => Take(s, p, Acquired(job))
    case Waiting(job) => Take(s, p, Acquired(job))
    case Acquired(job) => Go(s, p, if s.valid then Ready(job, []) else Leaving(job, [], false))
    case Ready(job, ran) =>
      if |ran| >= |job.cmds| then Go(s, p, Leaving(job, ran, true))
      else Go(s, p, Written(job, ran)).(cmd := job.cmds[|ran|], out := job.out)
    case Written(job, ran) => Go(s, p, Posted(job, ran)).(cons := s.cons + 1)
    case Posted(job, ran) => Go(s, p, Got(job, ran)).(done := s.done - 1)
    case Got(job, ran) =>
      var r := ran + [Ran(p, s.cmd, s.out, s.retcode)];
      Go(s, p, if s.retcode == 0 then Ready(job, r) else Leaving(job, r, false))
    case Leaving(job, ran, ok) =>
      Go(s, p, Idle).(prod := s.prod + 1, owner := -1, returned := s.returned + [Returned(p, job, ran, ok)])
    case DelTrying => Take(s, p, DelHolding)
    case DelHolding => Go(s, p, DelMarked).(valid := false, exit := true)
    case DelMarked => Go(s, p, DelPosted).(cons := s.cons + 1)
    case DelPosted => Go(s, p, DelGone).(done := s.done - 1)
    case _ => s
  }

  /** One step of the worker; `rc` is what the command returns, when it ends. */
  function WorkOf(s: State, rc: int): State
    requires Enabled(s, Work(rc))
  {
    match s.worker
    case Asleep => s.(worker := Woken, cons := s.cons - 1)
    case Woken => s.(worker := if s.exit then Exiting else Running(s.cmd, s.out))
    case Running(cmd, out) =>
      s.(worker := Finished, retcode := rc, log := s.log + [Ran(s.owner, cmd, out, rc)])
    case Finished => s.(worker := Asleep, done := s.done + 1)
    case Exiting => s.(worker := Exited, done := s.done + 1)
    case Exited => s
  }

  function Next(s: State, e: Event): State
    requires Enabled(s, e)
  {
    match e
    case Call(p, job) =>
      if s.valid then Go(s, p, Trying(job)) else s.(returned := s.returned + [Returned(p, job, [], false)])
    case Delete(p) => if s.valid then Go(s, p, DelTrying) else s
    case Block(p) =>
      var job := Of(s, p).job;
      if s.valid then Go(s, p, Waiting(job))
      else Go(s, p, Idle).(returned := s.returned + [Returned(p, job, [], false)])
    case Step(p) => StepOf(s, p)
    case Work(rc) => WorkOf(s, rc)
  }

  // ---------------------------------------------------------------- what always holds

  /** The phases between taking prod and giving it back. */
  predicate Owns(ph: Phase) {
    match ph
    case Idle => false
    case Trying(_) => false
    case Waiting(_) => false
    case DelTrying => false
    case _ => true
  }

  predicate Deleting(ph: Phase) {
    ph.DelHolding? || ph.DelMarked? || ph.DelPosted? || ph.DelGone?
  }

  /** Commands run for this job so far: its own, in order, with its handler, all successful. */
  predicate Served(p: int, job: Job, ran: seq<Ran>) {
    && |ran| <= |job.cmds|
    && forall i :: 0 <= i < |ran| ==> ran[i] == Ran(p, job.cmds[i], job.out, 0)
  }

  /** What a return means: all commands ran and succeeded, or the last one failed, or none was run. */
  predicate Fair(p: int, job: Job, ran: seq<Ran>, ok: bool) {
    var n := |ran|;
    if ok then Served(p, job, ran) && n == |job.cmds|
    else ran == [] || (n <= |job.cmds| && Served(p, job, ran[..n - 1]) &&
                       ran[n - 1] == Ran(p, job.cmds[n - 1], job.out, ran[n - 1].rc) && ran[n - 1].rc != 0)
  }

  predicate Quiet(s: State) {
    s.cons == 0 && s.done == 0 && s.worker == Asleep
  }

  /** The next command of the job is in the wrapper. */
  predicate Handed(s: State, p: int, job: Job, ran: seq<Ran>) {
    Served(p, job, ran) && |ran| < |job.cmds| && s.cmd == job.cmds[|ran|] && s.out == job.out
  }

  /** It has been run, and its return code is the one stored. */
  predicate Answered(s: State, p: int) {
    s.log != [] && s.log[|s.log| - 1] == Ran(p, s.cmd, s.out, s.retcode)
  }

  /** The one token is with the worker: on its way, at work, or on its way back. */
  predicate Busy(s: State, p: int) {
    match s.worker
    case Asleep => (s.cons == 1 && s.done == 0) || (s.cons == 0 && s.done == 1 && Answered(s, p))
    case Woken => s.cons == 0 && s.done == 0
    case Running(cmd, out) => s.cons == 0 && s.done == 0 && cmd == s.cmd && out == s.out
    case Finished => s.cons == 0 && s.done == 0 && Answered(s, p)
    case _ => false
  }

  predicate Retiring(s: State) {
    match s.worker
    case Asleep => s.cons == 1 && s.done == 0
    case Woken => s.cons == 0 && s.done == 0
    case Exiting => s.cons == 0 && s.done == 0
    case Exited => s.cons == 0 && s.done == 1
    case _ => false
  }

  predicate OwnerInv(s: State, p: int, ph: Phase) {
    var live := s.valid && !s.exit;
    match ph
    case Acquired(_) => live && Quiet(s)
    case Ready(job, ran) => live && Quiet(s) && Served(p, job, ran)
    case Written(job, ran) => live && Quiet(s) && Handed(s, p, job, ran)
    case Posted(job, ran) => live && Busy(s, p) && Handed(s, p, job, ran)
    case Got(job, ran) => live && Quiet(s) && Handed(s, p, job, ran) && Answered(s, p)
    case Leaving(job, ran, ok) => live && Quiet(s) && Fair(p, job, ran, ok) && (ok || ran != [])
    case DelHolding => live && Quiet(s)
    case DelMarked => !s.valid && s.exit && Quiet(s)
    case DelPosted => !s.valid && s.exit && Retiring(s)
    case DelGone => !s.valid && s.exit && s.cons == 0 && s.done == 0 && s.worker == Exited
    case _ => false
  }

  /** The results that have been returned, call after call. */
  function Flat(rs: seq<Returned>): seq<Ran> {
    if rs == [] then [] else Flat(rs[..|rs| - 1]) + rs[|rs| - 1].ran
  }

  lemma FlatMore(rs: seq<Returned>, r: Returned)
    ensures Flat(rs + [r]) == Flat(rs) + r.ran
  {
    assert (rs + [r])[..|rs|] == rs;
  }

  /** The commands run so far for the call that owns the wrapper. */
  function RanOf(ph: Phase): seq<Ran> {
    match ph
    case Ready(_, ran) => ran
    case Written(_, ran) => ran
    case Posted(_, ran) => ran
    case Got(_, ran) => ran
    case Leaving(_, ran, _) => ran
    case _ => []
  }

  /** The owner's command has been run, and the owner has not yet read the result. */
  predicate Unread(s: State) {
    s.owner >= 0 &&
    (match Of(s, s.owner)
     case Posted(_, _) => s.worker == Finished || (s.worker == Asleep && s.done == 1)
     case Got(_, _) => true
     case _ => false)
  }

  function Pending(s: State): seq<Ran> {
    if Unread(s) then [Ran(s.owner, s.cmd, s.out, s.retcode)] else []
  }

  /** What the owner has read so far. */
  function Read(s: State): seq<Ran> {
    if s.owner < 0 then [] else RanOf(Of(s, s.owner))
  }

  /** The log is what the calls returned, then what the owner has read, then the result it has not read yet. */
  predicate Settled(s: State) {
    s.log == Flat(s.returned) + Read(s) + Pending(s)
  }

  predicate AllFair(rs: seq<Returned>) {
    forall i :: 0 <= i < |rs| ==> Fair(rs[i].pid, rs[i].job, rs[i].ran, rs[i].ok)
  }

  /** prod is with the owner, or free; the token between owner and worker is where the owner's phase says. */
  predicate Held(s: State) {
    if s.owner < 0 then s.prod == 1 && Quiet(s) && s.valid && !s.exit
    else s.prod == 0 && OwnerInv(s, s.owner, Of(s, s.owner))
  }

  ghost predicate OneOwner(s: State) {
    forall p: nat :: Owns(Of(s, p)) <==> p == s.owner
  }

  /** Only a wrapper that is being deleted turns a call away. */
  predicate Earned(s: State) {
    s.valid ==> forall i :: 0 <= i < |s.returned| ==> s.returned[i].ok || s.returned[i].ran != []
  }

  ghost predicate Inv(s: State) {
    OneOwner(s) && Held(s) && AllFair(s.returned) && Settled(s) && Earned(s)
  }

  /** cmd_wrapper_create, once it has posted prod. */
  function Initial(): State {
    State(map[], Asleep, 1, 0, 0, true, false, "", 0, 0, [], [], -1)
  }

  lemma Regroup<A>(a: seq<A>, b: seq<A>, c: seq<A>)
    ensures a + b + c == a + (b + c) + []
  {
  }

  /** One more result of the job, good or bad. */
  lemma ReadIsFair(p: int, job: Job, ran: seq<Ran>, r: Ran)
    requires Served(p, job, ran) && |ran| < |job.cmds| && r == Ran(p, job.cmds[|ran|], job.out, r.rc)
    ensures r.rc == 0 ==> Served(p, job, ran + [r])
    ensures r.rc != 0 ==> Fair(p, job, ran + [r], false)
  {
    var more := ran + [r];
    assert more[..|more| - 1] == ran;
  }

  /** The result that has been read is settled with those before it. */
  lemma ReadSettles(s: State, p: nat)
    requires Settled(s) && Held(s) && Of(s, p).Got? && s.owner == p
    ensures Settled(StepOf(s, p))
  {
    hide Flat, AllFair, Served, Fair;
    Regroup(Flat(s.returned), Of(s, p).ran, [Ran(p, s.cmd, s.out, s.retcode)]);
  }

  lemma ReadHolds(s: State, p: nat)
    requires Held(s) && Of(s, p).Got? && s.owner == p
    ensures Held(StepOf(s, p))
  {
    ReadIsFair(p, Of(s, p).job, Of(s, p).ran, Ran(p, s.cmd, s.out, s.retcode));
    hide Served, Fair;
  }

  lemma ReadKeeps(s: State, p: nat)
    requires Inv(s) && Of(s, p).Got? && s.owner == p
    ensures Inv(StepOf(s, p))
  {
    assert forall q: nat :: q != p ==> Of(StepOf(s, p), q) == Of(s, q);
    hide Held, Settled, AllFair;
    ReadSettles(s, p);
    ReadHolds(s, p);
  }

  /** Taking a free wrapper. */
  lemma TakeKeeps(s: State, p: nat)
    requires Inv(s) && Enabled(s, Step(p)) && !Owns(Of(s, p))
    ensures Inv(StepOf(s, p))
  {
    assert Owns(Of(s, p)) <==> p == s.owner;
    assert forall q: nat :: q != p ==> Of(StepOf(s, p), q) == Of(s, q);
  }

  lemma FairMore(rs: seq<Returned>, r: Returned)
    requires AllFair(rs) && Fair(r.pid, r.job, r.ran, r.ok)
    ensures AllFair(rs + [r])
  {
    hide Fair;
  }

  lemma AddNone<A>(x: seq<A>)
    ensures x + [] == x && x + [] + [] == x
  {
  }

  /** Giving the wrapper back returns what was read. */
  lemma LeaveSettles(s: State, p: nat)
    requires Settled(s) && Held(s) && Of(s, p).Leaving? && s.owner == p
    ensures Settled(StepOf(s, p))
  {
    FlatMore(s.returned, Returned(p, Of(s, p).job, Of(s, p).ran, Of(s, p).ok));
    hide Flat, OwnerInv;
    AddNone(s.log);
    AddNone(Flat(s.returned) + Of(s, p).ran);
  }

  lemma LeaveIsFair(s: State, p: nat)
    requires Held(s) && AllFair(s.returned) && Of(s, p).Leaving? && s.owner == p
    ensures AllFair(StepOf(s, p).returned)
  {
    hide AllFair, Fair;
    FairMore(s.returned, Returned(p, Of(s, p).job, Of(s, p).ran, Of(s, p).ok));
  }

  lemma LeaveKeeps(s: State, p: nat)
    requires Inv(s) && Of(s, p).Leaving? && s.owner == p
    ensures Inv(StepOf(s, p))
  {
    assert forall q: nat :: q != p ==> Of(StepOf(s, p), q) == Of(s, q);
    LeaveSettles(s, p);
    LeaveIsFair(s, p);
    hide Settled, AllFair, Served, Fair;
  }

  /** A step of the owner: the handshake goes on, ... */
  lemma OwnerHolds(s: State, p: nat)
    requires Held(s) && Enabled(s, Step(p)) && p == s.owner && !Of(s, p).Got? && !Of(s, p).Leaving?
    ensures Held(StepOf(s, p)) && StepOf(s, p).owner == p && Owns(Of(StepOf(s, p), p))
  {
  }

  /** ... and nothing is run, read or returned. */
  lemma OwnerSettles(s: State, p: nat)
    requires Held(s) && Settled(s) && Enabled(s, Step(p)) && p == s.owner && !Of(s, p).Got? && !Of(s, p).Leaving?
    ensures Settled(StepOf(s, p)) && StepOf(s, p).returned == s.returned
  {
    hide Flat, Fair, Served;
  }

  lemma OwnerKeeps(s: State, p: nat)
    requires Inv(s) && Enabled(s, Step(p)) && Owns(Of(s, p)) && !Of(s, p).Got? && !Of(s, p).Leaving?
    ensures Inv(StepOf(s, p))
  {
    assert Owns(Of(s, p)) <==> p == s.owner;
    assert forall q: nat :: q != p ==> Of(StepOf(s, p), q) == Of(s, q);
    OwnerHolds(s, p);
    OwnerSettles(s, p);
    hide Held, Settled, AllFair, StepOf, Owns, Of;
  }

  lemma StepKeeps(s: State, p: nat)
    requires Inv(s) && Enabled(s, Step(p))
    ensures Inv(StepOf(s, p))
  {
    assert Owns(Of(s, p)) <==> p == s.owner;
    hide OwnerInv, Settled;
    if Of(s, p).Got? {
      ReadKeeps(s, p);
    } else if Of(s, p).Leaving? {
      LeaveKeeps(s, p);
    } else if Owns(Of(s, p)) {
      OwnerKeeps(s, p);
    } else {
      TakeKeeps(s, p);
    }
  }

  lemma WorkKeeps(s: State, rc: int)
    requires Inv(s) && Enabled(s, Work(rc))
    ensures Inv(WorkOf(s, rc))
  {
    hide Flat, AllFair, Fair;
    assert forall q: nat :: Of(WorkOf(s, rc), q) == Of(s, q);
  }

  /** One more return without results. */
  lemma EmptyReturn(rs: seq<Returned>, p: nat, job: Job)
    requires AllFair(rs)
    ensures var more := rs + [Returned(p, job, [], false)]; AllFair(more) && Flat(more) == Flat(rs)
  {
    FlatMore(rs, Returned(p, job, [], false));
    FairMore(rs, Returned(p, job, [], false));
    hide Flat, AllFair;
    AddNone(Flat(rs));
  }

  /** At most the phase of p, who does not own the wrapper, and returns without results. */
  ghost predicate Aside(s: State, t: State, p: nat) {
    && t == s.(procs := t.procs, returned := t.returned)
    && (forall q: nat :: q != p ==> Of(t, q) == Of(s, q)) && !Owns(Of(t, p))
    && AllFair(t.returned) && Flat(t.returned) == Flat(s.returned) && (s.valid ==> t.returned == s.returned)
  }

  lemma CallAside(s: State, p: nat, job: Job)
    requires Enabled(s, Call(p, job)) && AllFair(s.returned)
    ensures Aside(s, Next(s, Call(p, job)), p)
  {
    hide AllFair, Flat;
    if !s.valid {
      EmptyReturn(s.returned, p, job);
    }
  }

  lemma DeleteAside(s: State, p: nat)
    requires Enabled(s, Delete(p)) && AllFair(s.returned)
    ensures Aside(s, Next(s, Delete(p)), p)
  {
    hide AllFair, Flat;
  }

  lemma BlockAside(s: State, p: nat)
    requires Enabled(s, Block(p)) && AllFair(s.returned)
    ensures Aside(s, Next(s, Block(p)), p)
  {
    hide AllFair, Flat;
    if !s.valid {
      EmptyReturn(s.returned, p, Of(s, p).job);
    }
  }

  /** Somebody else's phase does not matter to the handshake. */
  lemma OthersFrame(s: State, t: State)
    requires Held(s) && t == s.(procs := t.procs, returned := t.returned)
    requires s.owner >= 0 ==> Of(t, s.owner) == Of(s, s.owner)
    ensures Held(t) && Read(t) == Read(s) && Pending(t) == Pending(s)
  {
    hide Served, Fair;
  }

  lemma AsideKeeps(s: State, t: State, p: nat)
    requires Inv(s) && Aside(s, t, p) && !Owns(Of(s, p))
    ensures Inv(t)
  {
    assert Owns(Of(s, p)) <==> p == s.owner;
    hide Flat, AllFair, Held, Read, Pending, Owns;
    OthersFrame(s, t);
  }

  /** A call or a delete that starts, or gives up, without the wrapper. */
  lemma AskKeeps(s: State, e: Event)
    requires Inv(s) && Enabled(s, e) && (e.Call? || e.Delete? || e.Block?)
    ensures Inv(Next(s, e))
  {
    hide Flat, AllFair, Held, Settled, OneOwner, Aside;
    match e {
      case Call(p, job) => CallAside(s, p, job);
      case Delete(p) => DeleteAside(s, p);
      case Block(p) => BlockAside(s, p);
    }
    hide Inv, Next;
    AsideKeeps(s, Next(s, e), e.p);
  }

  lemma NextKeeps(s: State, e: Event)
    requires Inv(s) && Enabled(s, e)
    ensures Inv(Next(s, e))
  {
    match e
    case Step(p) => StepKeeps(s, p);
    case Work(rc) => WorkKeeps(s, rc);
    case _ => AskKeeps(s, e);
  }

  // ---------------------------------------------------------------- whole runs

  /** The events happen one after the other, each when it can. */
  predicate Happens(s: State, es: seq<Event>, last: State)
    decreases |es|
  {
    if es == [] then last == s
    else Enabled(s, es[0]) && Happens(Next(s, es[0]), es[1..], last)
  }

  lemma {:induction false} RunKeeps(s: State, es: seq<Event>, last: State)
    requires Inv(s) && Happens(s, es, last)
    ensures Inv(last)
    decreases |es|
  {
    if es != [] {
      NextKeeps(s, es[0]);
      RunKeeps(Next(s, es[0]), es[1..], last);
    }
  }

  /** The results of return i are a stretch of the log, right behind those of the returns before it. */
  predicate OwnStretch(s: State, i: nat)
    requires i < |s.returned|
  {
    var from := |Flat(s.returned[..i])|;
    from + |s.returned[i].ran| <= |s.log| && s.log[from..from + |s.returned[i].ran|] == s.returned[i].ran
  }

  lemma {:induction false} FlatStretch(rs: seq<Returned>, rest: seq<Ran>, i: nat)
    requires i < |rs|
    ensures var log, from := Flat(rs) + rest, |Flat(rs[..i])|;
            from + |rs[i].ran| <= |log| && log[from..from + |rs[i].ran|] == rs[i].ran
    decreases |rs|
  {
    var front, last := rs[..|rs| - 1], rs[|rs| - 1].ran;
    assert Flat(rs) + rest == Flat(front) + (last + rest);
    if i < |rs| - 1 {
      assert front[..i] == rs[..i];
      FlatStretch(front, last + rest, i);
    }
  }

  /**
   Under every interleaving: at most one caller has the wrapper, the worker
   only ever runs the owner's next command with the owner's handler, and every
   call returns what its own commands returned: the log of the worker is cut
   into the results of the returned calls, those the owner has read, and at
   most one that it has still to read. As long as no delete has made the
   wrapper invalid, a call that failed has run a command.
   */
  lemma HandshakeIsSafe(es: seq<Event>, last: State)
    requires Happens(Initial(), es, last)
    ensures forall p: nat, q: nat :: Owns(Of(last, p)) && Owns(Of(last, q)) ==> p == q
    ensures last.worker.Running? ==>
              && 0 <= last.owner && Of(last, last.owner).Posted?
              && var job, ran := Of(last, last.owner).job, Of(last, last.owner).ran;
                 |ran| < |job.cmds| && last.worker == Running(job.cmds[|ran|], job.out)
    ensures last.valid ==> forall r :: r in last.returned ==> r.ok || r.ran != []
    ensures AllFair(last.returned) && last.log == Flat(last.returned) + Read(last) + Pending(last)
    ensures forall i :: 0 <= i < |last.returned| ==> OwnStretch(last, i)
  {
    RunKeeps(Initial(), es, last);
    Stretches(last);
    hide Flat, AllFair, Read, Pending, OwnStretch, Happens;
  }

  lemma Stretches(s: State)
    requires Settled(s)
    ensures forall i :: 0 <= i < |s.returned| ==> OwnStretch(s, i)
  {
    hide Flat, Read, Pending;
    var rest := Read(s) + Pending(s);
    assert s.log == Flat(s.returned) + rest;
    forall i | 0 <= i < |s.returned|
      ensures OwnStretch(s, i)
    {
      FlatStretch(s.returned, rest, i);
    }
  }

  // ---------------------------------------------------------------- return codes

  function Codes(log: seq<Ran>): seq<int> {
    if log == [] then [] else Codes(log[..|log| - 1]) + [log[|log| - 1].rc]
  }

  /** What the commands returned that ended in a run. */
  ghost function Ended(s: State, es: seq<Event>): seq<int>
    decreases |es|
  {
    if es == [] || !Enabled(s, es[0]) then []
    else (if es[0].Work? && s.worker.Running? then [es[0].rc] else []) + Ended(Next(s, es[0]), es[1..])
  }

  lemma CodesMore(log: seq<Ran>, r: Ran)
    ensures Codes(log + [r]) == Codes(log) + [r.rc]
  {
    assert (log + [r])[..|log|] == log;
  }

  /** Only the end of a command adds to the log, and it adds what the command returned. */
  lemma StepCodes(s: State, e: Event)
    requires Enabled(s, e)
    ensures Codes(Next(s, e).log) == Codes(s.log) + if e.Work? && s.worker.Running? then [e.rc] else []
  {
    LogGrows(s, e);
    hide Codes, Enabled, Next;
    if e.Work? && s.worker.Running? {
      CodesMore(s.log, Ran(s.owner, s.worker.cmd, s.worker.out, e.rc));
    }
  }

  lemma LogGrows(s: State, e: Event)
    requires Enabled(s, e)
    ensures Next(s, e).log ==
            if e.Work? && s.worker.Running? then s.log + [Ran(s.owner, s.worker.cmd, s.worker.out, e.rc)] else s.log
  {
  }

  /** The log tells what the commands really returned, in the order in which they ended. */
  lemma {:induction false} LogTellsCodes(s: State, es: seq<Event>, last: State)
    requires Happens(s, es, last)
    ensures Codes(last.log) == Codes(s.log) + Ended(s, es)
    decreases |es|
  {
    if es != [] {
      hide Codes, Enabled, Next;
      StepCodes(s, es[0]);
      LogTellsCodes(Next(s, es[0]), es[1..], last);
    }
  }

  // ---------------------------------------------------------------- deletes

  predicate Taken(s: State) {
    s.owner >= 0 && Deleting(Of(s, s.owner))
  }

  lemma NextAfterDelete(s: State, e: Event)
    requires Inv(s) && Taken(s) && Enabled(s, e)
    ensures Taken(Next(s, e)) && Next(s, e).log == s.log && !Next(s, e).worker.Running?
  {
    match e
    case Step(p) => assert Owns(Of(s, p)) <==> p == s.owner;
    case _ =>
  }

  /** Once a delete has prod, no command starts or ends, whatever happens next. */
  lemma {:induction false} NothingRunsAfterDelete(s: State, es: seq<Event>, last: State)
    requires Inv(s) && Taken(s) && Happens(s, es, last)
    ensures Taken(last) && last.log == s.log && !last.worker.Running?
    decreases |es|
  {
    if es != [] {
      NextKeeps(s, es[0]);
      NextAfterDelete(s, es[0]);
      NothingRunsAfterDelete(Next(s, es[0]), es[1..], last);
    }
  }

  /** The calls that came, and those that found the wrapper taken, in a run. */
  function Turned(es: seq<Event>): nat {
    if es == [] then 0 else (if es[0].Call? || es[0].Block? then 1 else 0) + Turned(es[1..])
  }

  predicate AllEmpty(rs: seq<Returned>) {
    forall i :: 0 <= i < |rs| ==> !rs[i].ok && rs[i].ran == []
  }

  /** Asks for the wrapper without having it. */
  predicate Asking(ph: Phase) {
    ph.Trying? || ph.Waiting? || ph.DelTrying?
  }

  lemma NextTurnsAway(s: State, e: Event)
    requires Inv(s) && !s.valid && Enabled(s, e)
    ensures var t := Next(s, e);
            && !t.valid && (forall p :: Asking(Of(t, p)) ==> Of(t, p) == Of(s, p))
            && t.returned == s.returned + t.returned[|s.returned|..]
            && AllEmpty(t.returned[|s.returned|..]) && |t.returned| == |s.returned| + Turned([e])
  {
    assert Taken(s);
    assert Turned([e]) == (if e.Call? || e.Block? then 1 else 0) + Turned([e][1..]);
    match e
    case Step(p) => assert Owns(Of(s, p)) <==> p == s.owner;
    case _ =>
  }

  /** Once the wrapper is invalid nobody begins to wait for it: every call, and every wait about to begin, fails at once. */
  lemma {:induction false} InvalidTurnsAway(s: State, es: seq<Event>, last: State)
    requires Inv(s) && !s.valid && Happens(s, es, last)
    ensures forall p :: Asking(Of(last, p)) ==> Of(last, p) == Of(s, p)
    ensures |last.returned| == |s.returned| + Turned(es) && last.returned[..|s.returned|] == s.returned
    ensures AllEmpty(last.returned[|s.returned|..])
    decreases |es|
  {
    if es != [] {
      hide Inv, Enabled, Next, Of, AllEmpty;
      var t := Next(s, es[0]);
      NextKeeps(s, es[0]);
      NextTurnsAway(s, es[0]);
      InvalidTurnsAway(t, es[1..], last);
      EmptyBehind(s.returned, t.returned, last.returned);
    } else {
      assert last.returned[..|s.returned|] == s.returned;
    }
  }

  lemma EmptyBehind(a: seq<Returned>, b: seq<Returned>, c: seq<Returned>)
    requires |a| <= |b| <= |c| && b == a + b[|a|..] && c[..|b|] == b
    requires AllEmpty(b[|a|..]) && AllEmpty(c[|b|..])
    ensures c[..|a|] == a && AllEmpty(c[|a|..])
  {
    assert c[..|a|] == b[..|a|];
    forall i | 0 <= i < |c[|a|..]|
      ensures !c[|a|..][i].ok && c[|a|..][i].ran == []
    {
      assert c[|a|..][i] == if i < |b| - |a| then b[|a|..][i] else c[|b|..][i - (|b| - |a|)];
    }
  }

  /** The handshake cannot get stuck: until a delete has finished, the owner or the worker can go on. */
  lemma NoDeadlock(s: State)
    requires Inv(s)
    ensures s.owner >= 0 && !Of(s, s.owner).DelGone? ==> Enabled(s, Step(s.owner)) || Enabled(s, Work(0))
    ensures s.owner < 0 ==>
              forall p: nat :: Of(s, p).Trying? || Of(s, p).Waiting? || Of(s, p).DelTrying? ==> Enabled(s, Step(p))
  {
  }

  // ---------------------------------------------------------------- every call ends

  /** The phases of a call for this job that has the wrapper. */
  predicate InCall(ph: Phase, job: Job) {
    match ph
    case Acquired(j) => j == job
    case Ready(j, _) => j == job
    case Written(j, _) => j == job
    case Posted(j, _) => j == job
    case Got(j, _) => j == job
    case Leaving(j, _, _) => j == job
    case _ => false
  }

  /** p has the wrapper for this job. */
  predicate Serving(s: State, p: nat, job: Job) {
    s.owner == p && InCall(Of(s, p), job)
  }

  /** The steps the worker has before it as long as nobody posts. */
  function WorkerLeft(s: State): nat {
    match s.worker
    case Asleep => if s.cons > 0 then 4 else 0
    case Woken => 3
    case Running(_, _) => 2
    case Exiting => 2
    case Finished => 1
    case Exited => 0
  }

  /** A bound for the steps of owner and worker until the owner has finished. */
  function StepsLeft(s: State, ph: Phase): int {
    match ph
    case Acquired(job) => 10 * |job.cmds| + 11
    case Ready(job, ran) => 10 * (|job.cmds| - |ran|) + 10
    case Written(job, ran) => 10 * (|job.cmds| - |ran|) + 9
    case Posted(job, ran) => 10 * (|job.cmds| - |ran|) + 3 + WorkerLeft(s)
    case Got(job, ran) => 10 * (|job.cmds| - |ran|) + 2
    case Leaving(_, _, _) => 1
    case DelHolding => 10
    case DelMarked => 9
    case DelPosted => 3 + WorkerLeft(s)
    case _ => 0
  }

  /** A step of p or of the worker. */
  predicate Serves(e: Event, p: nat) {
    e == Step(p) || e.Work?
  }

  function Rounds(es: seq<Event>, p: nat): nat {
    if es == [] then 0 else (if Serves(es[0], p) then 1 else 0) + Rounds(es[1..], p)
  }

  predicate NotBy(rs: seq<Returned>, p: nat) {
    forall i :: 0 <= i < |rs| ==> rs[i].pid != p
  }

  /** p has returned for this job, with all its commands run or with the last one failed. */
  predicate Delivered(r: Returned, p: nat, job: Job) {
    r.pid == p && r.job == job && Fair(p, job, r.ran, r.ok) && (r.ok || r.ran != [])
  }

  /** A step of the owner or of the worker brings the call nearer to its end, or is its return; ... */
  lemma OwnTurn(s: State, e: Event, p: nat, job: Job)
    requires Inv(s) && Enabled(s, e) && Serving(s, p, job) && Serves(e, p)
    ensures var t := Next(s, e);
            || (Serving(t, p, job) && 0 <= StepsLeft(t, Of(t, p)) < StepsLeft(s, Of(s, p)) && t.returned == s.returned)
            || exists r :: t.returned == s.returned + [r] && Delivered(r, p, job)
  {
    hide Flat, AllFair, Settled, Fair, Earned;
    match Of(s, p)
    case Leaving(_, ran, ok) =>
      if e == Step(p) {
        assert Delivered(Returned(p, job, ran, ok), p, job);
      }
    case _ =>
  }

  /** ... all else leaves it as it is. */
  lemma OthersTurn(s: State, e: Event, p: nat, job: Job)
    requires Inv(s) && Enabled(s, e) && Serving(s, p, job) && !Serves(e, p)
    ensures var t := Next(s, e);
            && Serving(t, p, job) && StepsLeft(t, Of(t, p)) == StepsLeft(s, Of(s, p))
            && (t.returned == s.returned || exists r :: t.returned == s.returned + [r] && r.pid != p)
  {
    assert forall q: nat :: Owns(Of(s, q)) <==> q == p;
    hide Flat, AllFair, Settled, Served, Fair, Earned, OwnerInv;
  }

  /** The run brings exactly these returns more. */
  lemma {:induction false} ReturnsGrow(s: State, es: seq<Event>, last: State)
    requires Happens(s, es, last)
    ensures |s.returned| <= |last.returned| && last.returned[..|s.returned|] == s.returned
    decreases |es|
  {
    if es != [] {
      hide Enabled, Next;
      ReturnsStep(s, es[0]);
      ReturnsGrow(Next(s, es[0]), es[1..], last);
      CutTwice(s.returned, Next(s, es[0]).returned, last.returned);
    }
  }

  lemma ReturnsStep(s: State, e: Event)
    requires Enabled(s, e)
    ensures var t := Next(s, e); |s.returned| <= |t.returned| && t.returned[..|s.returned|] == s.returned
  {
  }

  lemma CutTwice(a: seq<Returned>, b: seq<Returned>, c: seq<Returned>)
    requires |a| <= |b| <= |c| && b[..|a|] == a && c[..|b|] == b
    ensures c[..|a|] == a
  {
  }

  /** The first return of p behind the first n is that of this job. */
  ghost predicate Arrives(n: nat, rs: seq<Returned>, p: nat, job: Job) {
    exists k :: n <= k < |rs| && Delivered(rs[k], p, job) && forall i :: n <= i < k ==> rs[i].pid != p
  }

  /** A return of somebody else comes first. */
  lemma ArrivesLater(n: nat, rs: seq<Returned>, p: nat, job: Job)
    requires n < |rs| && rs[n].pid != p && Arrives(n + 1, rs, p, job)
    ensures Arrives(n, rs, p, job)
  {
    hide Delivered;
  }

  lemma StillToGo(s: State, p: nat, job: Job)
    requires Inv(s) && Serving(s, p, job)
    ensures StepsLeft(s, Of(s, p)) > 0
  {
    hide Flat, AllFair, Settled, Fair, Earned;
  }

  /**
   Whatever the other callers do in between: as soon as the owner of a call
   and the worker have together taken so many steps, the call has returned,
   and with all its commands run, or with the first one that failed.
   */
  lemma {:induction false} CallEnds(s: State, es: seq<Event>, last: State, p: nat, job: Job)
    requires Inv(s) && Serving(s, p, job) && Happens(s, es, last)
    requires Rounds(es, p) >= StepsLeft(s, Of(s, p))
    ensures Arrives(|s.returned|, last.returned, p, job)
    decreases |es|
  {
    hide Inv, Enabled, Next, Delivered, Serving, StepsLeft, Arrives, Of;
    StillToGo(s, p, job);
    if es != [] {
      var e, t := es[0], Next(s, es[0]);
      NextKeeps(s, e);
      ReturnsGrow(t, es[1..], last);
      if Serves(e, p) {
        OwnTurn(s, e, p, job);
        if t.returned == s.returned {
          CallEnds(t, es[1..], last, p, job);
        } else {
          ArrivesNow(|s.returned|, t.returned, last.returned, p, job);
        }
      } else {
        OthersTurn(s, e, p, job);
        CallEnds(t, es[1..], last, p, job);
        if t.returned != s.returned {
          ArrivesLater(|s.returned|, last.returned, p, job);
        }
      }
    }
  }

  lemma ArrivesNow(n: nat, rs: seq<Returned>, more: seq<Returned>, p: nat, job: Job)
    requires n < |rs| <= |more| && more[..|rs|] == rs && Delivered(rs[n], p, job)
    ensures Arrives(n, more, p, job)
  {
    hide Delivered;
    assert more[n] == rs[n];
  }

  /** Who may take the wrapper has it after one step: a call to run its commands, a delete to end them. */
  lemma TakesIt(s: State, p: nat)
    requires Inv(s) && Enabled(s, Step(p)) && !Owns(Of(s, p))
    ensures var t := StepOf(s, p);
            if Of(s, p).DelTrying? then Taken(t) && t.owner == p
            else Serving(t, p, Of(s, p).job) && StepsLeft(t, Of(t, p)) == 10 * |Of(s, p).job.cmds| + 11
  {
    hide Inv;
  }

  /** A wrapper that nobody has is had two steps after somebody comes for it. */
  lemma FreeIsTaken(s: State, e: Event)
    requires Inv(s) && s.owner < 0 && (e.Call? || e.Delete?) && Enabled(s, e)
    ensures var t := Next(s, e);
            && Enabled(t, Step(e.p))
            && var u := StepOf(t, e.p);
               if e.Delete? then Taken(u) && u.owner == e.p else Serving(u, e.p, e.job)
  {
    hide Flat, AllFair, Settled, Fair, Earned, OneOwner;
  }

  /** A delete that has the wrapper ends in the same way, after at most ten steps, with the worker gone. */
  lemma DeleteTurn(s: State, e: Event, p: nat)
    requires Inv(s) && Taken(s) && s.owner == p && Enabled(s, e)
    ensures var t, n := Next(s, e), StepsLeft(s, Of(s, p));
            && Taken(t) && t.owner == p
            && (if Serves(e, p) then StepsLeft(t, Of(t, p)) < n else StepsLeft(t, Of(t, p)) == n)
            && 0 <= n <= 10 && (n == 0 <==> Of(s, p).DelGone?)
  {
    assert forall q: nat :: Owns(Of(s, q)) <==> q == p;
    hide Flat, AllFair, Settled, Fair, Earned;
  }

  lemma {:induction false} DeleteEnds(s: State, es: seq<Event>, last: State, p: nat)
    requires Inv(s) && Taken(s) && s.owner == p && Happens(s, es, last)
    ensures Rounds(es, p) <= StepsLeft(s, Of(s, p)) <= 10
    ensures Inv(last) && Taken(last) && last.owner == p
    ensures if Of(last, p).DelGone? then last.worker == Exited else Enabled(last, Step(p)) || Enabled(last, Work(0))
    decreases |es|
  {
    if es == [] {
      NoDeadlock(s);
      DeleteLeft(s);
    } else {
      hide Inv, Enabled, Next, Taken, StepsLeft, Of;
      NextKeeps(s, es[0]);
      DeleteTurn(s, es[0], p);
      DeleteEnds(Next(s, es[0]), es[1..], last, p);
    }
  }

  lemma DeleteLeft(s: State)
    requires Inv(s) && Taken(s)
    ensures 0 <= StepsLeft(s, Of(s, s.owner)) <= 10
  {
    hide Flat, AllFair, Settled, Fair, Earned;
  }
}
