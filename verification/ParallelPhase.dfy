// The case MS_ROOTS_PUSHED of GC_mark_some with parallel marking: from the sequential marker's state to the
// parallel phase and back (gc/mark.c).

module ParallelPhase {
  import opened HeapGraph
  import opened ParallelMark
  import MI = MarkInvariant

  // GC_mark_some may hand over to the parallel marker in the state MS_ROOTS_PUSHED of a stopped mark.
  lemma MarkSomeMayStart(v: MI.View, rest: MI.Rest)
    requires MI.Inv(v, [], rest) && v.state.RootsPushed? && v.written == {} && !v.rootsTouched
    ensures CanPrepare(v.m, v.marked, v.stack, v.bound, v.lapsed)
  {
    hide Wf, LiveRoots, MI.CountsOk, MI.DirtyOk, MI.BoundOk, MI.Shape, MI.HeapI, MI.RootsI, MI.SrcOk, MI.Inv, RootTarget, Closed, Traced;
    HandOver(v, rest);
    forall r: Src, k: nat | IsSource(v.m, v.marked, r) && Leads(v.m, r, k) && Target(v.m, r, k) !in v.marked && (r, k) !in v.lapsed
      ensures MI.OnStack(v.stack, r, k)
    {
      if r.InRoot? {
        assert r.i < |v.m.roots|;
      }
      assert MI.SrcOk(v, [], r);
      SourceWord(v, r, k);
    }
    LiveRootsAreRoots(v.m, v.lapsed);
  }

  // What the sequential marker has at this point.
  lemma HandOver(v: MI.View, rest: MI.Rest)
    requires MI.Inv(v, [], rest) && v.state.RootsPushed? && v.written == {} && !v.rootsTouched
    ensures forall o | o in v.marked && Traced(v.m, o) :: MI.SrcOk(v, [], Heap(o))
    ensures forall i: nat | i < |v.m.roots| :: MI.SrcOk(v, [], InRoot(i))
    ensures Closed(v.m, v.bound) && v.marked + RootTargets(v.m) <= v.bound
    ensures forall r: Src, k: nat :: MI.OnStack(v.stack, r, k) && Leads(v.m, r, k) ==> Target(v.m, r, k) in v.bound
  {
    hide Wf, MI.CountsOk, MI.DirtyOk, MI.SrcOk, RootTarget, Closed;
  }

  lemma SourceWord(v: MI.View, r: Src, k: nat)
    requires MI.SrcOk(v, [], r) && Leads(v.m, r, k) && Target(v.m, r, k) !in v.marked && (r, k) !in v.lapsed
    ensures MI.OnStack(v.stack, r, k)
  {
    assert MI.WordOk(v, [], r, k);
  }

  lemma LiveRootsAreRoots(m: Memory, lapsed: iset<(Src, nat)>)
    ensures LiveRoots(m, lapsed) <= RootTargets(m)
  {
    hide MI.Live, RootTarget;
    forall t | t in LiveRoots(m, lapsed) ensures t in RootTargets(m) {
      MI.LiveRoot(m, lapsed, t);
      MI.LiveTraced(m, lapsed, t);
    }
  }

  // ----- during the phase

  function Handed(v: MI.View): Action {
    Prepare(v.m, v.marked, v.stack, v.stackSize, v.bound, v.lapsed)
  }

  /** Neither another phase nor the end of this one. */
  predicate InPhase(run: seq<Action>) {
    forall i | 0 <= i < |run| :: !run[i].Prepare? && !run[i].End?
  }

  /** What does not change while the helpers work, and the marks, which are only added. */
  predicate SamePhase(s: State, r: State) {
    && r.m == s.m && r.lapsed == s.lapsed && r.seeds == s.seeds && r.bound == s.bound && s.marked <= r.marked
    && (s.marked <= s.m.words.Keys ==> r.marked <= r.m.words.Keys)
    && (r.state == s.state || r.state.Invalid?)
  }

  lemma StepInPhase(s: State, a: Action)
    requires Enabled(s, a) && !a.Prepare? && !a.End?
    ensures SamePhase(s, Do(s, a))
  {
    hide Do, Enabled, SamePhase;
    if a.SetMark? {
      MarkInPhase(s, a);
    } else if IsCopy(a) {
      CopyInPhase(s, a);
    } else if IsWork(a) {
      WorkInPhase(s, a);
    } else if IsEntry(a) {
      EntryInPhase(s, a);
    } else {
      MoveInPhase(s, a);
    }
  }

  lemma CopyInPhase(s: State, a: Action)
    requires Enabled(s, a) && IsCopy(a)
    ensures SamePhase(s, Do(s, a))
  {
    hide CanPrepare;
  }

  lemma EntryInPhase(s: State, a: Action)
    requires Enabled(s, a) && IsEntry(a)
    ensures SamePhase(s, Do(s, a))
  {
    hide CanPrepare;
  }

  lemma WorkInPhase(s: State, a: Action)
    requires Enabled(s, a) && IsWork(a) && !a.SetMark?
    ensures SamePhase(s, Do(s, a))
  {
    hide CanPrepare, Halves, Below, Halved, PieceOf, Leads, Loose, WakeAll, Returned;
  }

  lemma MarkInPhase(s: State, a: Action)
    requires Enabled(s, a) && a.SetMark?
    ensures SamePhase(s, Do(s, a))
  {
    hide CanPrepare, Halves, Below, Halved, PieceOf, Traced;
  }

  lemma MoveInPhase(s: State, a: Action)
    requires Enabled(s, a) && !a.Prepare? && !a.End? && !IsEntry(a) && !IsWork(a) && !IsCopy(a)
    ensures SamePhase(s, Do(s, a))
  {
    hide CanPrepare, Halves, Below, Halved, PieceOf, Leads, Loose, WakeAll, Returned;
  }

  lemma {:induction false} RunInPhase(s: State, run: seq<Action>)
    requires Legal(s, run) && InPhase(run)
    ensures SamePhase(s, After(s, run))
    decreases |run|
  {
    hide Do, Enabled;
    if run != [] {
      StepInPhase(s, run[0]);
      assert InPhase(run[1..]);
      RunInPhase(Do(s, run[0]), run[1..]);
    }
  }

  // ----- and back

  /** GC_mark_some after GC_do_parallel_mark: the stack is empty, and the mark phase has ended unless work was
      dropped.  Helpers that counted marks at the same time may have counted some of them only once. */
  predicate Returns(v: MI.View, s: State, w: MI.View) {
    && w == v.(marked := s.marked, nMarks := w.nMarks, stack := [], stackSize := w.stackSize,
               state := if s.state.RootsPushed? then MI.Quiet else MI.Invalid, exact := false)
    && w.stackSize >= MI.INITIAL_MARK_STACK_SIZE
  }

  // With the world stopped, GC_mark_some returns in a state from which marking can be completed.  If it
  // returns TRUE, it is complete: every root and every marked object leads to marked objects only.
  lemma ParallelMarkSome(s0: State, before: seq<Action>, v: MI.View, run: seq<Action>, w: MI.View)
    requires MI.Ready(v) && v.state.RootsPushed? && v.written == {} && !v.rootsTouched
    requires Initial(s0) && Legal(s0, before) && Enabled(After(s0, before), Handed(v))
    requires var s := Do(After(s0, before), Handed(v)); Legal(s, run) && InPhase(run) && Enabled(After(s, run), End)
    requires var s := Do(After(s0, before), Handed(v)); Returns(v, After(s, run), w) && MI.CountsOk(w)
    ensures MI.Ready(w) && MI.Marking(v, w)
    ensures w.state.Quiet? ==> MI.LiveReach(v) <= w.marked <= v.bound && (v.lapsed == iset{} ==> MI.Settled(w))
  {
    hide Initial, MI.LiveReach, Inv, MI.Ready, MI.CountsOk, MI.Settled, Enabled, Do, Legal, After, CanPrepare;
    InitialInv(s0);
    RunKeepsInv(s0, before);
    var s1 := After(s0, before);
    StepKeepsInv(s1, Handed(v));
    var s := Do(s1, Handed(v));
    PreparedState(s1, v);
    RunKeepsInv(s, run);
    RunInPhase(s, run);
    var r := After(s, run);
    if r.state.RootsPushed? {
      Completed(v, s, r, w);
    } else {
      Dropped(v, s, r, w);
    }
  }

  lemma PreparedState(s1: State, v: MI.View)
    requires Enabled(s1, Handed(v))
    ensures var s := Do(s1, Handed(v));
            && s.m == v.m && s.lapsed == v.lapsed && s.marked == v.marked && s.seeds == v.marked + LiveRoots(v.m, v.lapsed)
            && s.bound == v.bound
            && s.state == MI.RootsPushed
  {
  }

  lemma Completed(v: MI.View, s: State, r: State, w: MI.View)
    requires MI.Ready(v) && v.state.RootsPushed? && v.written == {} && !v.rootsTouched
    requires s.m == v.m && s.lapsed == v.lapsed && s.marked == v.marked && s.seeds == v.marked + LiveRoots(v.m, v.lapsed) && s.bound == v.bound
    requires Inv(r) && Enabled(r, End) && SamePhase(s, r) && r.state.RootsPushed? && Returns(v, r, w) && MI.CountsOk(w)
    ensures MI.Ready(w) && MI.Marking(v, w) && (v.lapsed == iset{} ==> MI.Settled(w))
    ensures MI.LiveReach(v) <= w.marked <= v.bound
  {
    hide MI.Ready, MI.CountsOk, ReachSet, Queued, NoLostWakeup, Edge, RootTarget, MI.Shape, MI.DirtyOk, MI.BoundOk, MI.Live;
    NothingQueued(r);
    AllMarked(r);
    MarksAreClosed(r);
    StoppedParts(v);
    MarkedExist(v);
    WordsLeadToMarked(w);
    QuietAgain(v, w);
    assert RootTargets(MI.Live(v.m, v.lapsed)) + v.marked == s.seeds;
    if v.lapsed == iset{} {
      MI.NothingLapsed(v);
      LiveIsAll(w);
    }
  }

  lemma LiveIsAll(w: MI.View)
    requires w.lapsed == iset{} && w.state.Quiet? && w.written == {}
    requires Closed(MI.Live(w.m, w.lapsed), w.marked) && LiveRoots(w.m, w.lapsed) <= w.marked
    ensures MI.Settled(w)
  {
    hide Edge, RootTarget;
    MI.LiveOfNone(w.m);
  }

  lemma StoppedParts(v: MI.View)
    requires MI.Ready(v)
    ensures MI.Shape(v) && MI.DirtyOk(v) && MI.BoundOk(v) && v.watch == {}
    ensures v.state.RootsPushed? ==> v.objectsAreMarked
  {
    hide MI.Shape, MI.DirtyOk, MI.BoundOk, MI.CountsOk, MI.HeapI, MI.RootsI;
  }

  lemma WordsLeadToMarked(w: MI.View)
    requires w.marked <= w.m.words.Keys && Closed(MI.Live(w.m, w.lapsed), w.marked) && LiveRoots(w.m, w.lapsed) <= w.marked
    ensures forall o | o in w.marked && Traced(w.m, o) :: MI.SrcOk(w, [], Heap(o))
    ensures forall i: nat | i < |w.m.roots| :: MI.SrcOk(w, [], InRoot(i))
  {
    hide MI.Live, Traced;
    var live := MI.Live(w.m, w.lapsed);
    forall o, k: nat | o in w.marked && Traced(w.m, o) ensures MI.WordOk(w, [], Heap(o), k) {
      if Leads(w.m, Heap(o), k) && (Heap(o), k) !in w.lapsed {
        assert PointsTo(w.m, Heap(o), k, Target(w.m, Heap(o), k));
        MI.LivePointsTo(w.m, w.lapsed, Heap(o), k, Target(w.m, Heap(o), k));
        MI.LiveTraced(w.m, w.lapsed, o);
        assert Edge(live, o, Target(w.m, Heap(o), k));
      }
    }
    forall i: nat, k: nat | i < |w.m.roots| ensures MI.WordOk(w, [], InRoot(i), k) {
      if Leads(w.m, InRoot(i), k) && (InRoot(i), k) !in w.lapsed {
        assert PointsTo(w.m, InRoot(i), k, Target(w.m, InRoot(i), k));
        MI.LivePointsTo(w.m, w.lapsed, InRoot(i), k, Target(w.m, InRoot(i), k));
        MI.LiveTraced(w.m, w.lapsed, Target(w.m, InRoot(i), k));
        assert RootTarget(live, Target(w.m, InRoot(i), k));
      }
    }
  }

  lemma QuietAgain(v: MI.View, w: MI.View)
    requires MI.Shape(v) && MI.DirtyOk(v) && MI.BoundOk(v) && v.watch == {} && v.objectsAreMarked && v.written == {}
    requires w == v.(marked := w.marked, nMarks := w.nMarks, stack := [], stackSize := w.stackSize, state := MI.Quiet, exact := false)
    requires w.stackSize >= MI.INITIAL_MARK_STACK_SIZE && MI.CountsOk(w) && w.marked <= v.bound && v.marked <= w.marked
    requires w.marked <= v.m.words.Keys
    requires forall o | o in w.marked && Traced(w.m, o) :: MI.SrcOk(w, [], Heap(o))
    requires forall i: nat | i < |w.m.roots| :: MI.SrcOk(w, [], InRoot(i))
    ensures MI.Ready(w) && MI.Marking(v, w)
  {
    hide Wf, MI.CountsOk, MI.SrcOk, Edge, RootTarget, MI.PageIn;
  }

  lemma Dropped(v: MI.View, s: State, r: State, w: MI.View)
    requires MI.Ready(v) && v.state.RootsPushed? && s.marked == v.marked && s.m == v.m && s.bound == v.bound
    requires Inv(r) && SamePhase(s, r) && !r.state.RootsPushed? && Returns(v, r, w) && MI.CountsOk(w)
    ensures MI.Ready(w) && MI.Marking(v, w)
  {
    hide MI.CountsOk, MI.SrcOk, Edge, RootTarget, MI.PageIn, Wf, Queued, NoLostWakeup, Counts, Quiet, AllOk, Cover, HelperBound, MI.Ready;
    StoppedParts(v);
    MarkedExist(v);
    InvalidAgain(v, w);
  }

  lemma InvalidAgain(v: MI.View, w: MI.View)
    requires MI.Shape(v) && MI.DirtyOk(v) && MI.BoundOk(v) && v.watch == {} && v.objectsAreMarked
    requires w == v.(marked := w.marked, nMarks := w.nMarks, stack := [], stackSize := w.stackSize, state := MI.Invalid, exact := false)
    requires w.stackSize >= MI.INITIAL_MARK_STACK_SIZE && MI.CountsOk(w) && w.marked <= v.bound && v.marked <= w.marked
    requires w.marked <= v.m.words.Keys && (forall o | o in w.marked && Traced(w.m, o) :: o in w.m.home && w.m.home[o] in w.m.blocks)
    ensures MI.Ready(w) && MI.Marking(v, w)
  {
    hide Wf, MI.CountsOk, MI.SrcOk, Edge, RootTarget, MI.PageIn;
  }

  lemma MarkedExist(v: MI.View)
    requires MI.Shape(v)
    ensures v.marked <= v.m.words.Keys
  {
  }
}
