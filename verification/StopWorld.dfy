// Stopping and restarting the world with signals: gc/pthread_stop_world.c, without signal retries.
//
// Each step below is one access to shared state (the stop count, the flag, the semaphore, a pending
// signal).  Any thread may take its next step at any time, so a run is an arbitrary interleaving.

module StopWorld {
  import opened Sets

  /** Where a thread is in GC_suspend_handler_inner; `my` is the stop count it read on entry. */
  datatype Pc =
    | Running
    | Entered(my: nat)
    | Saved(my: nat)
    | Posted(my: nat)
    | Waiting(my: nat)          // in sigsuspend
    | CheckFlag(my: nat)        // about to read GC_world_is_stopped
    | CheckCount(my: nat)       // about to read GC_stop_count
    | Leaving

  /** A registered thread.  SIG_SUSPEND and SIG_THR_RESTART are pending or not: signals do not queue. */
  datatype Thread = Thread(
    pc: Pc,
    lastStop: nat,              // stop_info.last_stop_count
    suspendPending: bool,
    restartPending: bool,
    sp: nat,                    // the thread's stack pointer
    savedSp: nat,               // stop_info.stack_ptr
    finished: bool,
    blocked: bool)

  /** The holder of the allocation lock inside GC_stop_world and GC_start_world. */
  datatype Stopper =
    | Idle
    | Counted(self: nat)
    | Signalling(self: nat, i: nat, live: nat)
    | Acking(self: nat, live: nat, taken: nat)
    | Stopped(self: nat)
    | Restarting(self: nat, i: nat)

  datatype State = State(
    threads: seq<Thread>,
    stopCount: nat,
    worldStopped: bool,
    sem: nat,
    stopper: Stopper,
    signalled: set<nat>,                // history: threads sent SIG_SUSPEND in the latest stop
    posted: set<nat>,                   // history: threads that acknowledged the latest stop
    acks: multiset<(nat, nat)>)         // history: (thread, stop count) of every acknowledgement

  datatype Action =
    | Work(t: nat, sp: nat)             // the client moves its stack pointer
    | SetFlags(t: nat, finished: bool, blocked: bool)
    | Enter(t: nat) | Save(t: nat) | Post(t: nat) | Record(t: nat)
    | Wake(t: nat) | Stray(t: nat) | ReadFlag(t: nat) | ReadCount(t: nat) | Return(t: nat)
    | IgnoreRestart(t: nat)
    | BeginStop(t: nat) | SetStopped | SendSuspend | StartWaiting | TakeAck | FinishStop
    | ClearStopped | SendRestart | FinishStart

  predicate InHandler(p: Pc) {
    !p.Running?
  }

  /** A thread that the stopper signals. */
  predicate Live(s: State, t: nat)
    requires t < |s.threads|
  {
    !s.threads[t].finished && !s.threads[t].blocked
  }

  predicate Enabled(s: State, a: Action) {
    var inRange := (t: nat) => t < |s.threads|;
    match a
    case Work(t, _) => inRange(t) && s.threads[t].pc.Running? && !(s.stopper != Idle && s.stopper.self == t)
    case SetFlags(t, _, _) => inRange(t) && s.stopper.Idle? && s.threads[t].pc.Running?
    case Enter(t) => inRange(t) && s.threads[t].pc.Running? && s.threads[t].suspendPending
    case Save(t) => inRange(t) && s.threads[t].pc.Entered?
    case Post(t) => inRange(t) && s.threads[t].pc.Saved?
    case Record(t) => inRange(t) && s.threads[t].pc.Posted?
    case Wake(t) => inRange(t) && s.threads[t].pc.Waiting? && s.threads[t].restartPending
    case Stray(t) => inRange(t) && s.threads[t].pc.Waiting?
    case ReadFlag(t) => inRange(t) && s.threads[t].pc.CheckFlag?
    case ReadCount(t) => inRange(t) && s.threads[t].pc.CheckCount?
    case Return(t) => inRange(t) && s.threads[t].pc.Leaving?
    case IgnoreRestart(t) => inRange(t) && s.threads[t].pc.Running? && s.threads[t].restartPending
    case BeginStop(t) => inRange(t) && s.stopper.Idle? && s.threads[t].pc.Running? && Live(s, t)
    case SetStopped => s.stopper.Counted?
    case SendSuspend => s.stopper.Signalling? && s.stopper.i < |s.threads|
    case StartWaiting => s.stopper.Signalling? && s.stopper.i == |s.threads|
    case TakeAck => s.stopper.Acking? && s.stopper.taken < s.stopper.live && s.sem > 0
    case FinishStop => s.stopper.Acking? && s.stopper.taken == s.stopper.live
    case ClearStopped => s.stopper.Stopped?
    case SendRestart => s.stopper.Restarting? && s.stopper.i < |s.threads|
    case FinishStart => s.stopper.Restarting? && s.stopper.i == |s.threads|
  }

  function At(s: State, t: nat, th: Thread): State
    requires t < |s.threads|
  {
    s.(threads := s.threads[t := th])
  }

  function Do(s: State, a: Action): State
    requires Enabled(s, a)
  {
    match a
    case Work(t, sp) => At(s, t, s.threads[t].(sp := sp))
    case SetFlags(t, f, b) => At(s, t, s.threads[t].(finished := f, blocked := b))
    case Enter(t) => At(s, t, s.threads[t].(pc := Entered(s.stopCount), suspendPending := false))
    case Save(t) =>
      var th := s.threads[t];
      // The same stop count as last time: a duplicate signal, which is ignored.
      if th.lastStop == th.pc.my then At(s, t, th.(pc := Leaving))
      else At(s, t, th.(pc := Saved(th.pc.my), savedSp := th.sp))
    case Post(t) =>
      var th := s.threads[t];
      At(s, t, th.(pc := Posted(th.pc.my))).(sem := s.sem + 1, posted := s.posted + {t},
                                             acks := s.acks + multiset{(t, th.pc.my)})
    case Record(t) => At(s, t, s.threads[t].(pc := Waiting(s.threads[t].pc.my), lastStop := s.threads[t].pc.my))
    case Wake(t) => At(s, t, s.threads[t].(pc := CheckFlag(s.threads[t].pc.my), restartPending := false))
    case Stray(t) => At(s, t, s.threads[t].(pc := CheckFlag(s.threads[t].pc.my)))
    case ReadFlag(t) =>
      At(s, t, s.threads[t].(pc := if s.worldStopped then CheckCount(s.threads[t].pc.my) else Leaving))
    case ReadCount(t) =>
      At(s, t, s.threads[t].(pc := if s.stopCount == s.threads[t].pc.my then Waiting(s.stopCount) else Leaving))
    case Return(t) => At(s, t, s.threads[t].(pc := Running))
    case IgnoreRestart(t) => At(s, t, s.threads[t].(restartPending := false))
    case BeginStop(t) => s.(stopCount := s.stopCount + 1, stopper := Counted(t), signalled := {}, posted := {})
    case SetStopped => s.(worldStopped := true, stopper := Signalling(s.stopper.self, 0, 0))
    case SendSuspend =>
      var i := s.stopper.i;
      if i != s.stopper.self && Live(s, i) && s.threads[i].lastStop != s.stopCount then
        At(s, i, s.threads[i].(suspendPending := true)).(
          stopper := Signalling(s.stopper.self, i + 1, s.stopper.live + 1), signalled := s.signalled + {i})
      else s.(stopper := Signalling(s.stopper.self, i + 1, s.stopper.live))
    case StartWaiting => s.(stopper := Acking(s.stopper.self, s.stopper.live, 0))
    case TakeAck => s.(sem := s.sem - 1, stopper := Acking(s.stopper.self, s.stopper.live, s.stopper.taken + 1))
    case FinishStop => s.(stopper := Stopped(s.stopper.self))
    case ClearStopped => s.(worldStopped := false, stopper := Restarting(s.stopper.self, 0))
    case SendRestart =>
      var i := s.stopper.i;
      if i != s.stopper.self && Live(s, i) then
        At(s, i, s.threads[i].(restartPending := true)).(stopper := Restarting(s.stopper.self, i + 1))
      else s.(stopper := Restarting(s.stopper.self, i + 1))
    case FinishStart => s.(stopper := Idle)
  }

  predicate Initial(s: State) {
    && s.stopper == Idle && !s.worldStopped && s.sem == 0
    && s.signalled == {} && s.posted == {} && s.acks == multiset{}
    && forall t: nat | t < |s.threads| ::
         s.threads[t].pc.Running? && s.threads[t].lastStop == 0 && !s.threads[t].suspendPending
  }

  // ----- the invariant

  /** A stop is under way: its count is fixed and it has not been ended by GC_start_world. */
  predicate InStop(s: State) {
    s.stopper.Counted? || s.stopper.Signalling? || s.stopper.Acking? || s.stopper.Stopped?
  }

  /** Thread t's SIG_THR_RESTART for the stop that just ended has not been sent yet. */
  predicate RestartUnsent(s: State, t: nat) {
    s.stopper.Restarting? && s.stopper.i <= t
  }

  predicate StopOver(s: State, my: nat) {
    !s.worldStopped || s.stopCount != my
  }

  /** What is known of a thread that sleeps, or is about to, for the stop `my`. */
  predicate WillWake(s: State, t: nat)
    requires t < |s.threads|
  {
    var th := s.threads[t];
    && (th.pc.Posted? || th.pc.Waiting? ==>
          (StopOver(s, th.pc.my) ==> th.restartPending || RestartUnsent(s, t)))
    && (th.pc.CheckCount? ==>
          (s.stopCount == th.pc.my && !s.worldStopped ==> th.restartPending || RestartUnsent(s, t)))
  }

  /** The stages a signalled thread goes through in the current stop. */
  predicate Stage(s: State, t: nat)
    requires t < |s.threads|
  {
    var th := s.threads[t];
    if t in s.posted then
      && !th.suspendPending && th.savedSp == th.sp
      && ((th.pc == Posted(s.stopCount) && th.lastStop < s.stopCount)
          || ((th.pc == Waiting(s.stopCount) || th.pc == CheckFlag(s.stopCount) || th.pc == CheckCount(s.stopCount))
              && th.lastStop == s.stopCount))
    else
      && th.lastStop < s.stopCount
      && if th.suspendPending then Old(s, th.pc)
         else th.pc == Entered(s.stopCount) || (th.pc == Saved(s.stopCount) && th.savedSp == th.sp)
  }

  /** Not in the handler, or still leaving it after an earlier stop. */
  predicate Old(s: State, p: Pc) {
    match p
    case Running => true
    case Leaving => true
    case Entered(_) => false
    case Saved(_) => false
    case Posted(my) => my < s.stopCount
    case Waiting(my) => my < s.stopCount
    case CheckFlag(my) => my < s.stopCount
    case CheckCount(my) => my < s.stopCount
  }

  predicate Done(s: State, p: Pc) {
    match p
    case Running => true
    case Leaving => true
    case Entered(_) => false
    case Saved(_) => false
    case Posted(my) => my <= s.stopCount
    case Waiting(my) => my <= s.stopCount
    case CheckFlag(my) => my <= s.stopCount
    case CheckCount(my) => my <= s.stopCount
  }

  predicate ThreadInv(s: State, t: nat)
    requires t < |s.threads|
  {
    var th := s.threads[t];
    && th.lastStop <= s.stopCount
    && WillWake(s, t)
    && (InHandler(th.pc) || th.suspendPending ==> Live(s, t) && !(s.stopper != Idle && s.stopper.self == t))
    && (InStop(s) ==>
          if t in s.signalled then Stage(s, t)
          else th.lastStop < s.stopCount && !th.suspendPending && Old(s, th.pc))
    && (!InStop(s) ==> !th.suspendPending && Done(s, th.pc))
    && (th.pc.Posted? ==> th.lastStop < th.pc.my)
  }

  predicate Global(s: State) {
    && (s.stopper != Idle ==> s.stopper.self < |s.threads|)
    && s.posted <= s.signalled
    && (forall t | t in s.signalled :: t < |s.threads|)
    && (s.worldStopped <==> s.stopper.Signalling? || s.stopper.Acking? || s.stopper.Stopped?)
    && match s.stopper
       case Idle => s.sem == 0
       case Counted(_) => s.sem == 0 && s.signalled == {}
       case Signalling(self, i, live) =>
         i <= |s.threads| && live == |s.signalled| && s.sem == |s.posted| && s.signalled == Expected(s, self, i)
       case Acking(self, live, taken) =>
         taken <= live == |s.signalled| && s.sem + taken == |s.posted| && s.signalled == Expected(s, self, |s.threads|)
       case Stopped(self) => s.sem == 0 && s.posted == s.signalled == Expected(s, self, |s.threads|)
       case Restarting(_, i) => s.sem == 0 && i <= |s.threads|
  }

  /** The threads below i that have to be stopped. */
  function Expected(s: State, self: nat, i: nat): set<nat>
    requires i <= |s.threads|
  {
    set t: nat | t < i && t != self && Live(s, t)
  }

  ghost predicate AckInv(s: State) {
    forall t: nat, c: nat ::
      && s.acks[(t, c)] <= 1
      && (c == s.stopCount ==> s.acks[(t, c)] == if t in s.posted then 1 else 0)
      && (c > s.stopCount ==> s.acks[(t, c)] == 0)
  }

  ghost predicate Inv(s: State) {
    && Global(s)
    && AckInv(s)
    && forall t: nat | t < |s.threads| :: ThreadInv(s, t)
  }

  lemma InitialInv(s: State)
    requires Initial(s)
    ensures Inv(s)
  {
  }

  // ----- every step keeps the invariant

  // A step that changes one thread and nothing shared keeps everything said of the other threads.
  lemma OneThread(s: State, t: nat, th: Thread)
    requires Inv(s) && t < |s.threads|
    requires s.stopper.Idle? || (th.finished == s.threads[t].finished && th.blocked == s.threads[t].blocked)
    requires ThreadInv(At(s, t, th), t)
    ensures Inv(At(s, t, th))
  {
    var s' := At(s, t, th);
    forall u: nat | u < |s'.threads| ensures ThreadInv(s', u) {
      assert ThreadInv(s, u);
    }
    if !s.stopper.Idle? {
      assert forall u: nat | u < |s.threads| :: Live(s', u) == Live(s, u);
    }
  }

  lemma LocalStep(s: State, a: Action)
    requires Inv(s) && Enabled(s, a)
    requires a.Work? || a.SetFlags? || a.Enter? || a.Save? || a.Record? || a.Wake? || a.Stray? || a.ReadFlag? || a.ReadCount? || a.Return? || a.IgnoreRestart?
    ensures Inv(Do(s, a))
  {
    hide Inv, Enabled, Do;
    if a.Work? || a.SetFlags? || a.Enter? || a.Save? || a.Record? {
      StepToPost(s, a);
    } else {
      StepFromPost(s, a);
    }
  }

  // Running, and in the handler before the acknowledgement.
  lemma StepToPost(s: State, a: Action)
    requires Inv(s) && Enabled(s, a) && (a.Work? || a.SetFlags? || a.Enter? || a.Save? || a.Record?)
    ensures Inv(Do(s, a))
  {
    hide AckInv, Expected;
    assert ThreadInv(s, a.t);
    OneThread(s, a.t, Do(s, a).threads[a.t]);
  }

  // In the handler after the acknowledgement.
  lemma StepFromPost(s: State, a: Action)
    requires Inv(s) && Enabled(s, a) && (a.Wake? || a.Stray? || a.ReadFlag? || a.ReadCount? || a.Return? || a.IgnoreRestart?)
    ensures Inv(Do(s, a))
  {
    hide AckInv, Expected;
    assert ThreadInv(s, a.t);
    OneThread(s, a.t, Do(s, a).threads[a.t]);
  }

  lemma PostStep(s: State, t: nat)
    requires Inv(s) && Enabled(s, Post(t))
    ensures Inv(Do(s, Post(t)))
    ensures t !in s.posted && s.threads[t].pc.my == s.stopCount
  {
    PostFacts(s, t);
    PostThreads(s, t);
    PostGlobal(s, t);
    hide Global, ThreadInv;
  }

  lemma PostFacts(s: State, t: nat)
    requires Inv(s) && Enabled(s, Post(t))
    ensures t !in s.posted && t in s.signalled && s.threads[t].pc.my == s.stopCount
    ensures s.stopper.Signalling? || s.stopper.Acking?
  {
    assert ThreadInv(s, t);
  }

  lemma PostThreads(s: State, t: nat)
    requires Inv(s) && Enabled(s, Post(t))
    ensures var s' := Do(s, Post(t)); forall u: nat | u < |s'.threads| :: ThreadInv(s', u)
  {
    PostFacts(s, t);
    hide AckInv, Global;
    var s' := Do(s, Post(t));
    forall u: nat | u < |s'.threads| ensures ThreadInv(s', u) {
      assert ThreadInv(s, u);
    }
  }

  lemma PostGlobal(s: State, t: nat)
    requires Inv(s) && Enabled(s, Post(t))
    ensures Global(Do(s, Post(t)))
  {
    PostFacts(s, t);
    hide AckInv, ThreadInv;
    var s' := Do(s, Post(t));
    assert forall u: nat | u < |s.threads| :: Live(s', u) == Live(s, u);
    assert |s'.posted| == |s.posted| + 1;
  }

  lemma StopperStep(s: State, a: Action)
    requires Inv(s) && Enabled(s, a)
    requires a.BeginStop? || a.SetStopped? || a.StartWaiting? || a.TakeAck? || a.ClearStopped? || a.FinishStart?
    ensures Inv(Do(s, a))
  {
    var s' := Do(s, a);
    forall u: nat | u < |s'.threads| ensures ThreadInv(s', u) {
      assert ThreadInv(s, u);
    }
    assert forall u: nat | u < |s.threads| :: Live(s', u) == Live(s, u);
  }

  lemma SendSuspendStep(s: State)
    requires Inv(s) && Enabled(s, SendSuspend)
    ensures Inv(Do(s, SendSuspend))
  {
    SendSuspendThreads(s);
    SendSuspendGlobal(s);
    hide ThreadInv, Global;
  }

  lemma NotYetSignalled(s: State)
    requires Global(s) && Enabled(s, SendSuspend)
    ensures s.stopper.i !in s.signalled && s.stopper.i !in s.posted
  {
  }

  // A thread that has not been signalled yet has not acknowledged this stop.
  lemma NotYetStopped(s: State)
    requires Inv(s) && Enabled(s, SendSuspend)
    ensures s.threads[s.stopper.i].lastStop != s.stopCount
  {
    NotYetSignalled(s);
    assert ThreadInv(s, s.stopper.i);
  }

  lemma SendSuspendThreads(s: State)
    requires Inv(s) && Enabled(s, SendSuspend)
    ensures var s' := Do(s, SendSuspend); forall u: nat | u < |s'.threads| :: ThreadInv(s', u)
  {
    NotYetSignalled(s);
    hide AckInv, Expected, Global;
    var s' := Do(s, SendSuspend);
    forall u: nat | u < |s'.threads| ensures ThreadInv(s', u) {
      assert ThreadInv(s, u);
    }
  }

  lemma SendSuspendGlobal(s: State)
    requires Inv(s) && Enabled(s, SendSuspend)
    ensures Global(Do(s, SendSuspend))
  {
    hide AckInv, ThreadInv, Expected;
    var s' := Do(s, SendSuspend);
    NotYetSignalled(s);
    NotYetStopped(s);
    OneMoreExpected(s, s', s.stopper.self, s.stopper.i);
  }

  lemma OneMoreExpected(s: State, s': State, self: nat, i: nat)
    requires i < |s.threads| == |s'.threads| && forall u: nat | u < |s.threads| :: Live(s', u) == Live(s, u)
    ensures Expected(s', self, i + 1) == Expected(s, self, i) + if i != self && Live(s, i) then {i} else {}
  {
  }

  lemma SendRestartStep(s: State)
    requires Inv(s) && Enabled(s, SendRestart)
    ensures Inv(Do(s, SendRestart))
  {
    var s' := Do(s, SendRestart);
    forall u: nat | u < |s'.threads| ensures ThreadInv(s', u) {
      assert ThreadInv(s, u);
    }
  }

  // All acknowledgements have been taken: everybody who was signalled has acknowledged.
  lemma FinishStopStep(s: State)
    requires Inv(s) && Enabled(s, FinishStop)
    ensures Inv(Do(s, FinishStop))
  {
    var s' := Do(s, FinishStop);
    SubsetSameSize(s.posted, s.signalled);
    forall u: nat | u < |s'.threads| ensures ThreadInv(s', u) {
      assert ThreadInv(s, u);
    }
    assert forall u: nat | u < |s.threads| :: Live(s', u) == Live(s, u);
  }

  lemma SubsetSameSize(a: set<nat>, b: set<nat>)
    requires a <= b && |a| >= |b|
    ensures a == b
  {
    if a != b {
      var x :| x in b && x !in a;
      assert a <= b - {x};
      SubsetSize(a, b - {x});
    }
  }

  lemma StepKeepsInv(s: State, a: Action)
    requires Inv(s) && Enabled(s, a)
    ensures Inv(Do(s, a))
  {
    match a
    case Post(t) => PostStep(s, t);
    case SendSuspend => SendSuspendStep(s);
    case SendRestart => SendRestartStep(s);
    case FinishStop => FinishStopStep(s);
    case BeginStop(_) => StopperStep(s, a);
    case SetStopped => StopperStep(s, a);
    case StartWaiting => StopperStep(s, a);
    case TakeAck => StopperStep(s, a);
    case ClearStopped => StopperStep(s, a);
    case FinishStart => StopperStep(s, a);
    case _ => LocalStep(s, a);
  }

  // ----- runs

  predicate Legal(s: State, run: seq<Action>)
    decreases |run|
  {
    run == [] || (Enabled(s, run[0]) && Legal(Do(s, run[0]), run[1..]))
  }

  function After(s: State, run: seq<Action>): State
    requires Legal(s, run)
    decreases |run|
  {
    if run == [] then s else After(Do(s, run[0]), run[1..])
  }

  lemma {:induction false} RunKeepsInv(s: State, run: seq<Action>)
    requires Inv(s) && Legal(s, run)
    ensures Inv(After(s, run))
    decreases |run|
  {
    if run != [] {
      StepKeepsInv(s, run[0]);
      RunKeepsInv(Do(s, run[0]), run[1..]);
    }
  }

  // When GC_stop_world has returned, every other thread that is not finished and not blocked is in the
  // handler for this stop, with its stack pointer saved, cannot work, and has acknowledged the stop exactly
  // once; and no acknowledgement is left over for the next stop.
  lemma WorldIsStopped(s0: State, run: seq<Action>, t: nat)
    requires Initial(s0) && Legal(s0, run)
    requires var s := After(s0, run);
             && s.stopper.Stopped? && t < |s.threads| && t != s.stopper.self
             && !s.threads[t].finished && !s.threads[t].blocked
    ensures var s := After(s0, run); var th := s.threads[t];
            && th.savedSp == th.sp && !th.pc.Running? && !th.pc.Entered? && !th.pc.Saved? && !th.pc.Leaving? && th.pc.my == s.stopCount
            && (forall sp: nat :: !Enabled(s, Work(t, sp)))
            && s.acks[(t, s.stopCount)] == 1 && s.sem == 0
  {
    InitialInv(s0);
    RunKeepsInv(s0, run);
    var s := After(s0, run);
    assert Live(s, t);
    assert ThreadInv(s, t);
    assert t in s.signalled;
    assert s.acks[(t, s.stopCount)] == 1;
  }

  // ... and it stays there, without moving its stack pointer, until GC_start_world clears the flag.
  lemma {:induction false} StaysStopped(s: State, run: seq<Action>, t: nat)
    requires Inv(s) && s.stopper.Stopped? && t < |s.threads| && t != s.stopper.self
    requires !s.threads[t].finished && !s.threads[t].blocked
    requires Legal(s, run) && ClearStopped !in run
    ensures var r := After(s, run);
            && r.stopper == s.stopper && r.stopCount == s.stopCount && |r.threads| == |s.threads|
            && var th := r.threads[t];
               && !th.finished && !th.blocked && th.sp == s.threads[t].sp == th.savedSp
               && !th.pc.Running? && !th.pc.Entered? && !th.pc.Saved? && !th.pc.Leaving? && th.pc.my == s.stopCount
               && forall sp: nat :: !Enabled(r, Work(t, sp))
    decreases |run|
  {
    assert Live(s, t);
    assert ThreadInv(s, t);
    if run != [] {
      var s' := Do(s, run[0]);
      StepKeepsInv(s, run[0]);
      assert ClearStopped !in run[1..];
      StaysStopped(s', run[1..], t);
    }
  }

  // No thread ever acknowledges the same stop twice, whatever signals it is woken by.
  lemma AcksOnce(s0: State, run: seq<Action>, t: nat, c: nat)
    requires Initial(s0) && Legal(s0, run)
    ensures After(s0, run).acks[(t, c)] <= 1
  {
    InitialInv(s0);
    RunKeepsInv(s0, run);
  }

  predicate OwnStep(a: Action, t: nat) {
    a == Record(t) || a == Wake(t) || a == ReadFlag(t) || a == ReadCount(t) || a == Return(t)
  }

  /** t is in the handler for a stop that has ended, and its restart signal has been sent. */
  predicate Released(s: State, t: nat) {
    && t < |s.threads|
    && match s.threads[t].pc
       case Running => true
       case Leaving => true
       case Entered(_) => false
       case Saved(_) => false
       case _ => StopOver(s, s.threads[t].pc.my) && !RestartUnsent(s, t)
  }

  function Rank(s: State, t: nat): nat
    requires t < |s.threads|
  {
    match s.threads[t].pc
    case Running => 0
    case Leaving => 1
    case CheckCount(my) => if s.stopCount != my then 2 else 5
    case CheckFlag(_) => 3
    case Waiting(_) => 4
    case _ => 6
  }

  // The next step of a released thread towards the exit of the handler.
  lemma OwnMove(s: State, t: nat) returns (a: Action)
    requires Inv(s) && Released(s, t) && !s.threads[t].pc.Running?
    ensures Enabled(s, a) && OwnStep(a, t) && Inv(Do(s, a)) && Released(Do(s, a), t)
    ensures |Do(s, a).threads| == |s.threads| && Rank(Do(s, a), t) < Rank(s, t)
  {
    hide AckInv, Global;
    assert ThreadInv(s, t);
    a := match s.threads[t].pc
         case Posted(_) => Record(t)
         case Waiting(_) => Wake(t)
         case CheckFlag(_) => ReadFlag(t)
         case CheckCount(_) => ReadCount(t)
         case _ => Return(t);
    LocalStep(s, a);
  }

  // No restart is lost: a released thread gets out of the handler by its own steps alone, even if the
  // next stop has begun, another signal woke it, or it had not yet reached sigsuspend.
  lemma {:induction false} RestartNotLost(s: State, t: nat) returns (run: seq<Action>)
    requires Inv(s) && Released(s, t)
    ensures Legal(s, run) && (forall i | 0 <= i < |run| :: OwnStep(run[i], t))
    ensures |run| <= Rank(s, t)
    ensures |After(s, run).threads| == |s.threads| && After(s, run).threads[t].pc.Running?
    decreases Rank(s, t)
  {
    hide Inv, Do, Enabled, OwnStep;
    if s.threads[t].pc.Running? { return []; }
    hide Released, Rank;
    var a := OwnMove(s, t);
    var rest := RestartNotLost(Do(s, a), t);
    run := [a] + rest;
    assert run[1..] == rest;
  }

  /** The steps that thread t takes in the handler, whether the restart signal or another one wakes it. */
  predicate MovesInHandler(a: Action, t: nat) {
    OwnStep(a, t) || a == Stray(t)
  }

  // A released thread stays released whatever any thread does, and no step leads it further from the exit.
  lemma ReleasedStays(s: State, a: Action, t: nat)
    requires Inv(s) && Released(s, t) && !s.threads[t].pc.Running? && Enabled(s, a)
    ensures Released(Do(s, a), t)
    ensures Rank(Do(s, a), t) + (if MovesInHandler(a, t) then 1 else 0) <= Rank(s, t)
  {
    assert ThreadInv(s, t);
    if MovesInHandler(a, t) {
      OwnStaysReleased(s, a, t);
    } else if IsStopperStep(a) {
      StopperKeepsReleased(s, a, t);
    } else {
      OtherKeepsReleased(s, a, t);
    }
  }

  predicate IsStopperStep(a: Action) {
    a.BeginStop? || a.SetStopped? || a.SendSuspend? || a.StartWaiting? || a.TakeAck? || a.FinishStop? || a.ClearStopped?
    || a.SendRestart? || a.FinishStart?
  }

  lemma OwnStaysReleased(s: State, a: Action, t: nat)
    requires Released(s, t) && !s.threads[t].pc.Running? && Enabled(s, a) && MovesInHandler(a, t)
    ensures Released(Do(s, a), t) && Rank(Do(s, a), t) < Rank(s, t)
  {
    if a == Record(t) || a == Wake(t) || a == Stray(t) {
      AsleepStaysReleased(s, a, t);
    } else {
      AwakeStaysReleased(s, a, t);
    }
  }

  lemma AsleepStaysReleased(s: State, a: Action, t: nat)
    requires Released(s, t) && Enabled(s, a) && (a == Record(t) || a == Wake(t) || a == Stray(t))
    ensures Released(Do(s, a), t) && Rank(Do(s, a), t) < Rank(s, t)
  {
  }

  lemma AwakeStaysReleased(s: State, a: Action, t: nat)
    requires Released(s, t) && Enabled(s, a) && (a == ReadFlag(t) || a == ReadCount(t) || a == Return(t))
    ensures Released(Do(s, a), t) && Rank(Do(s, a), t) < Rank(s, t)
  {
  }

  lemma OtherKeepsReleased(s: State, a: Action, t: nat)
    requires Released(s, t) && !s.threads[t].pc.Running? && Enabled(s, a) && !MovesInHandler(a, t) && !IsStopperStep(a)
    ensures Released(Do(s, a), t) && Rank(Do(s, a), t) == Rank(s, t)
  {
    assert Do(s, a).threads[t] == s.threads[t] && Do(s, a).stopper == s.stopper;
    assert Do(s, a).stopCount == s.stopCount && Do(s, a).worldStopped == s.worldStopped;
    hide Do;
  }

  lemma StopperKeepsReleased(s: State, a: Action, t: nat)
    requires Global(s) && Released(s, t) && ThreadInv(s, t) && !s.threads[t].pc.Running? && Enabled(s, a) && IsStopperStep(a)
    ensures Released(Do(s, a), t) && Rank(Do(s, a), t) <= Rank(s, t)
  {
    var r := Do(s, a);
    assert r.threads[t].pc == s.threads[t].pc;
    assert r.stopCount >= s.stopCount;
    if a.ClearStopped? {
      assert t in s.posted;
    }
  }

  function StepsOf(run: seq<Action>, t: nat): nat {
    if run == [] then 0 else (if MovesInHandler(run[0], t) then 1 else 0) + StepsOf(run[1..], t)
  }

  // However the threads are interleaved: when a released thread has taken as many steps of its own as its
  // rank says, at most six, it has been out of the handler.
  lemma {:induction false} OutInTime(s: State, run: seq<Action>, t: nat) returns (k: nat)
    requires Inv(s) && Released(s, t) && Legal(s, run) && StepsOf(run, t) >= Rank(s, t)
    ensures k <= |run| && Legal(s, run[..k])
    ensures var r := After(s, run[..k]); t < |r.threads| && r.threads[t].pc.Running?
    decreases |run|
  {
    ReleasedExists(s, t);
    hide Inv, Released, Do, Enabled, MovesInHandler;
    if s.threads[t].pc.Running? {
      k := 0;
    } else {
      hide Rank;
      RankPositive(s, t);
      ReleasedStays(s, run[0], t);
      StepKeepsInv(s, run[0]);
      var j := OutInTime(Do(s, run[0]), run[1..], t);
      k := j + 1;
      assert run[..k][1..] == run[1..][..j];
    }
  }

  lemma ReleasedExists(s: State, t: nat)
    requires Released(s, t)
    ensures t < |s.threads|
  {
  }

  lemma RankPositive(s: State, t: nat)
    requires t < |s.threads| && !s.threads[t].pc.Running?
    ensures 0 < Rank(s, t) <= 6
  {
  }

  // Once GC_start_world has returned, every thread is released.
  lemma StartReleasesAll(s0: State, run: seq<Action>, t: nat)
    requires Initial(s0) && Legal(s0, run) && After(s0, run).stopper.Idle? && t < |After(s0, run).threads|
    ensures Released(After(s0, run), t)
  {
    InitialInv(s0);
    RunKeepsInv(s0, run);
    assert ThreadInv(After(s0, run), t);
  }
}
