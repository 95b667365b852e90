// The collection driver: gc/alloc.c.

module Collector {
  import opened HeapGraph
  import opened MarkInvariant
  import opened Marker
  import opened Finalize

  datatype Stopped = Completed | Abandoned | Aborted

  /** What must not be reclaimed, in terms of words and kinds: c holds the targets of the roots and the
      uncollectable objects of `before`, and every pointer from an object of c that may hold pointers leads into c. */
  ghost predicate HoldsLive(m: Memory, before: set<Obj>, c: set<Obj>) {
    && (forall i, k | 0 <= i < |m.roots| && 0 <= k < |m.roots[i].words| ::
          m.roots[i].words[k].Pointer? && m.roots[i].words[k].target in m.words ==> m.roots[i].words[k].target in c)
    && (forall o | o in before && o in m.home && m.home[o] in m.blocks ::
          m.blocks[m.home[o]].kind == Uncollectable || m.blocks[m.home[o]].kind == AtomicUncollectable ==> o in c)
    && (forall o, k | o in c && o in m.words && o in m.home && m.home[o] in m.blocks && 0 <= k < |m.words[o]| ::
          m.blocks[m.home[o]].kind == Normal || m.blocks[m.home[o]].kind == Uncollectable ==>
            m.words[o][k].Pointer? && m.words[o][k].target in m.words ==> m.words[o][k].target in c)
  }

  // What is reachable in the marker's terms is the least such set.
  lemma ReachIsLeast(m: Memory, before: set<Obj>, marked: set<Obj>)
    requires marked == ReachSet(m, RootTargets(m) + set o | o in before && KeepsMark(m, o)) && before <= m.words.Keys
    ensures HoldsLive(m, before, marked)
    ensures forall c: set<Obj> :: HoldsLive(m, before, c) ==> marked <= c
  {
    var seeds := RootTargets(m) + set o | o in before && KeepsMark(m, o);
    ReachSetClosed(m, seeds);
    hide ReachSet;
    forall i, k | 0 <= i < |m.roots| && 0 <= k < |m.roots[i].words| && m.roots[i].words[k].Pointer? && m.roots[i].words[k].target in m.words
      ensures m.roots[i].words[k].target in RootTargets(m)
    {
      assert PointsTo(m, InRoot(i), k, m.roots[i].words[k].target);
    }
    forall o, k | o in m.words && Traced(m, o) && 0 <= k < |m.words[o]| && m.words[o][k].Pointer? && m.words[o][k].target in m.words
      ensures Edge(m, o, m.words[o][k].target)
    {
      assert PointsTo(m, Heap(o), k, m.words[o][k].target);
    }
    forall c: set<Obj> | HoldsLive(m, before, c) ensures marked <= c {
      LiveIsClosed(m, before, c);
      ClosedHoldsReachable(m, c, seeds);
    }
  }

  lemma LiveIsClosed(m: Memory, before: set<Obj>, c: set<Obj>)
    requires HoldsLive(m, before, c)
    ensures Closed(m, c) && RootTargets(m) + (set o | o in before && KeepsMark(m, o)) <= c
  {
    forall o: Obj, t: Obj | o in c && Edge(m, o, t) ensures t in c {
      var k: nat :| PointsTo(m, Heap(o), k, t);
      assert m.words[o][k] == Pointer(t);
    }
    forall t | t in RootTargets(m) ensures t in c {
      var i: nat, k: nat :| i < |m.roots| && PointsTo(m, InRoot(i), k, t);
      assert m.roots[i].words[k] == Pointer(t);
    }
  }

  const GC_RATE: nat := 10
  const MAX_PRIOR_ATTEMPTS: nat := 1

  class Collector {
    const mk: Marker
    const incremental: bool
    var gcNo: nat
    var nAttempts: nat
    var deficit: nat

    constructor (mk: Marker, incremental: bool)
      ensures this.mk == mk && this.incremental == incremental
    {
      this.mk := mk;
      this.incremental := incremental;
      gcNo, nAttempts, deficit := 0, 0, 0;
    }

    // GC_stopped_mark: the world is stopped, so nothing but the marker runs.  A partial mark does not look
    // again at words of marked objects that have lapsed; a full one follows all words.
    method StoppedMark(neverStop: bool) returns (r: Stopped)
      requires Prepared(mk.V()) && mk.stack == []
      modifies this`gcNo, this`deficit, mk
      ensures mk.exact == old(mk.exact) && mk.free == old(mk.free) && mk.lapsed == old(mk.lapsed)
      ensures !r.Aborted? ==> Prepared(mk.V()) && mk.m == old(mk.m)
      ensures r.Abandoned? ==> !neverStop && gcNo == old(gcNo) && !mk.state.Quiet? && Ready(mk.V())
      ensures r.Completed? ==> gcNo == old(gcNo) + 1 && Ready(mk.V()) && mk.state.Quiet? && mk.written == {} && mk.objectsAreMarked
      ensures r.Completed? ==> !mk.rootsTouched
      ensures r.Completed? ==> LiveReach(old(mk.V())) <= mk.marked <= Reach(old(mk.V()))
      ensures r.Completed? && (old(mk.state).Invalid? || old(mk.lapsed) == iset{}) ==> mk.marked == Reach(old(mk.V()))
      ensures r.Aborted? ==>
                ManyRoots(old(mk.m)) || !(old(mk.state).Invalid? || (old(mk.state).Quiet? && mk.dirtyMaintained))
    {
      hide Prepared, Ready, Reach, LiveReach, ManyRoots;
      ghost var u := mk.V();
      if mk.state.Invalid? {
        mk.lapsed := iset{};
        InvalidForgets(u, mk.V());
      }
      ghost var v := mk.V();
      SameReach(u, v);
      r := MarkAndCount(neverStop);
      ghost var w := mk.V();
      mk.lapsed := u.lapsed;
      MoreLapsed(w, mk.V());
      LiveReachBounds(u, v);
      if mk.lapsed == iset{} { NothingLapsed(u); }
    }

    method MarkAndCount(neverStop: bool) returns (r: Stopped)
      requires Prepared(mk.V()) && mk.stack == []
      modifies this`gcNo, this`deficit, mk
      ensures mk.exact == old(mk.exact) && mk.free == old(mk.free) && mk.lapsed == old(mk.lapsed)
      ensures !r.Aborted? ==> Prepared(mk.V()) && mk.m == old(mk.m)
      ensures r.Abandoned? ==> !neverStop && gcNo == old(gcNo) && !mk.state.Quiet? && Ready(mk.V())
      ensures r.Completed? ==> gcNo == old(gcNo) + 1 && Ready(mk.V()) && mk.state.Quiet? && mk.written == {} && mk.objectsAreMarked
      ensures r.Completed? ==> !mk.rootsTouched
      ensures r.Completed? ==> LiveReach(old(mk.V())) <= mk.marked <= Reach(old(mk.V()))
      ensures r.Aborted? ==>
                ManyRoots(old(mk.m)) || !(old(mk.state).Invalid? || (old(mk.state).Quiet? && mk.dirtyMaintained))
    {
      hide Prepared, Ready, Marking, Reach, LiveReach, ManyRoots;
      ghost var u := mk.V();
      mk.bound := Reach(u);
      BoundSet(u, mk.V());
      var ok := mk.InitiateGc();
      if !ok { return Aborted; }
      ghost var v := mk.V();
      r := MarkStopped(neverStop);
      if r.Aborted? { return; }
      ReadyIsPrepared(mk.V());
      MarkingFacts(v, mk.V());
      if r.Abandoned? { return; }
      gcNo := gcNo + 1;
      MarkIsComplete(u, mk.V());
    }

    // The loop of GC_stopped_mark.  The stop function may answer TRUE at any time; if it never does, the
    // loop ends.
    method MarkStopped(neverStop: bool) returns (r: Stopped)
      requires Ready(mk.V()) && !mk.state.Quiet? && !mk.state.RootsPushed?
      modifies this`deficit, mk`marked, mk`nMarks, mk`stack, mk`stackSize, mk`state, mk`tooSmall, mk`objectsAreMarked, mk`rootsTouched, mk`scanPtr
      ensures !r.Aborted? ==> Ready(mk.V()) && Marking(old(mk.V()), mk.V())
      ensures r.Abandoned? ==> !neverStop && !mk.state.Quiet?
      ensures r.Completed? ==> mk.state.Quiet? && !mk.rootsTouched && mk.objectsAreMarked
      ensures r.Aborted? ==> ManyRoots(mk.m) || (old(mk.state).PushRescuers? && !mk.dirtyMaintained)
    {
      hide Ready, Progress, Marking, ManyRoots;
      ghost var v := mk.V();
      StartMarking(v);
      var i := 0;
      while true
        invariant Ready(mk.V()) && Marking(v, mk.V()) && Fresh(mk.V()) && !mk.state.Quiet?
        decreases Unmarked(mk.V()), Rank(mk.V()), BlocksFrom(mk.m, mk.scanPtr), StackWords(mk.stack)
      {
        ghost var w := mk.V();
        var stop: bool := *;
        if stop && !neverStop {
          deficit := i;
          return Abandoned;
        }
        MarkingFacts(v, w);
        var step := mk.MarkSome();
        if step.Abort? { return Aborted; }
        MarkingOn(v, w, mk.V());
        if step.Finished? { return Completed; }
        NearerTheEnd(w, mk.V());
        i := i + 1;
      }
    }

    // GC_try_to_collect_inner, from the point where no collection is in progress: a full collection.
    // If it is abandoned without incremental collection, the mark state is invalidated.
    method FullCollection(neverStop: bool) returns (r: Stopped)
      requires Prepared(mk.V())
      modifies this`gcNo, this`deficit, mk
      ensures mk.exact == old(mk.exact) && mk.free == old(mk.free) && mk.lapsed == old(mk.lapsed)
      ensures !r.Aborted? ==> Prepared(mk.V()) && mk.m == old(mk.m)
      ensures r.Completed? ==> gcNo == old(gcNo) + 1 && Ready(mk.V()) && mk.state.Quiet? && mk.written == {} && mk.objectsAreMarked
      ensures r.Completed? ==>
                mk.marked == ReachSet(mk.m, RootTargets(mk.m) + set o | o in old(mk.marked) && KeepsMark(mk.m, o))
      ensures r.Completed? ==> forall o | o in mk.marked :: o in mk.m.words && o in mk.m.home && mk.m.home[o] in mk.m.blocks
      ensures r.Completed? ==> forall o, k | o in mk.marked && 0 <= k < |mk.m.words[o]| && mk.m.words[o][k].Pointer? ::
                mk.m.blocks[mk.m.home[o]].kind == Normal || mk.m.blocks[mk.m.home[o]].kind == Uncollectable ==>
                  mk.m.words[o][k].target in mk.m.words ==> mk.m.words[o][k].target in mk.marked
      ensures r.Completed? ==> HoldsLive(mk.m, old(mk.marked), mk.marked)
      ensures r.Completed? ==> forall c: set<Obj> :: HoldsLive(mk.m, old(mk.marked), c) ==> mk.marked <= c
      ensures r.Abandoned? && !incremental ==> mk.state.Invalid? && mk.stack == []
      ensures r.Abandoned? && incremental ==> Ready(mk.V()) && !mk.state.Quiet?
      ensures neverStop ==> !r.Abandoned?
      ensures r.Aborted? ==> ManyRoots(old(mk.m))
    {
      hide Prepared, Ready, ReachSet, KeepsMark, RootTargets, ManyRoots, HoldsLive;
      ghost var u := mk.V();
      mk.InvalidateMarkState();
      mk.ClearMarks();
      ReadyIsPrepared(mk.V());
      assert mk.marked == set o | o in u.marked && KeepsMark(mk.m, o);
      r := StoppedMark(neverStop);
      if r.Completed? {
        FullMarks(u, mk.V());
      }
      if r.Abandoned? && !incremental {
        mk.InvalidateMarkState();
      }
    }

    static lemma FullMarks(u: View, w: View)
      requires Prepared(u) && Ready(w) && w.m == u.m
      requires w.marked == ReachSet(w.m, RootTargets(w.m) + set o | o in u.marked && KeepsMark(w.m, o))
      ensures HoldsLive(w.m, u.marked, w.marked) && forall c: set<Obj> :: HoldsLive(w.m, u.marked, c) ==> w.marked <= c
      ensures forall o | o in w.marked :: o in w.m.words && o in w.m.home && w.m.home[o] in w.m.blocks
      ensures forall o, k | o in w.marked && 0 <= k < |w.m.words[o]| && w.m.words[o][k].Pointer? ::
                w.m.blocks[w.m.home[o]].kind == Normal || w.m.blocks[w.m.home[o]].kind == Uncollectable ==>
                  w.m.words[o][k].target in w.m.words ==> w.m.words[o][k].target in w.marked
    {
      MarkedHaveHomes(u);
      MarkedHaveHomes(w);
      hide Prepared, Ready, ReachSet, KeepsMark, RootTargets;
      ReachIsLeast(w.m, u.marked, w.marked);
    }

    static lemma MarkedHaveHomes(v: View)
      requires Prepared(v) || Ready(v)
      ensures forall o | o in v.marked :: o in v.m.words && o in v.m.home && v.m.home[o] in v.m.blocks
    {
      hide EntryOk, CountsOk, DirtyOk, BoundOk, HeapI, RootsI;
    }

    // GC_collect_a_little_inner while an incremental collection is in progress: n units of marking; when
    // the mark phase ends, it is completed with the world stopped.  `untimed` is the case in which the
    // stop function never stops.
    method CollectALittle(n: nat, untimed: bool) returns (r: Stopped)
      requires Ready(mk.V()) && incremental && !mk.state.Quiet?
      modifies this`gcNo, this`deficit, this`nAttempts, mk
      ensures mk.exact == old(mk.exact) && mk.free == old(mk.free) && mk.lapsed == old(mk.lapsed)
      ensures !r.Aborted? ==> Prepared(mk.V()) && mk.m == old(mk.m)
      ensures r.Abandoned? ==> Ready(mk.V()) && !mk.state.Quiet?
      ensures r.Completed? ==> mk.state.Quiet? && mk.written == {} && gcNo == old(gcNo) + 1
      ensures r.Completed? ==> LiveReach(old(mk.V())) <= mk.marked
      ensures r.Completed? && old(mk.lapsed) == iset{} ==> Reach(old(mk.V())) <= mk.marked
      ensures r.Abandoned? && old(deficit) < GC_RATE * n && nAttempts == old(nAttempts) ==> Nearer(old(mk.V()), mk.V())
      ensures nAttempts == old(nAttempts) ||
                (r.Abandoned? && old(nAttempts) < MAX_PRIOR_ATTEMPTS && !untimed && nAttempts == old(nAttempts) + 1)
      ensures r.Aborted? ==> !mk.dirtyMaintained || ManyRoots(old(mk.m))
    {
      hide Prepared, Ready, Progress, Marking, Reach, LiveReach, Nearer, ManyRoots;
      ghost var v := mk.V();
      var i := deficit;
      while i < GC_RATE * n
        invariant Ready(mk.V()) && mk.m == v.m && v.marked <= mk.marked && !mk.state.Quiet? && gcNo == old(gcNo)
        invariant (i == old(deficit) && mk.V() == v) || Nearer(v, mk.V())
        invariant nAttempts == old(nAttempts) && SameLists(v, mk.V())
      {
        ghost var w := mk.V();
        var step := mk.MarkSome();
        if step.Abort? { return Aborted; }
        MarkingFacts(w, mk.V());
        if step.Finished? {
          ReadyIsPrepared(mk.V());
          QuietIsEmpty(mk.V());
          ReachGrows(v, mk.V());
          var again := nAttempts < MAX_PRIOR_ATTEMPTS && !untimed;
          r := StoppedMark(!again);
          if r.Abandoned? { nAttempts := nAttempts + 1; }
          PayDeficit(n);
          return;
        }
        NearerTheEnd(w, mk.V());
        NearerTrans(v, w, mk.V());
        i := i + 1;
      }
      ReadyIsPrepared(mk.V());
      PayDeficit(n);
      return Abandoned;
    }

    // A full collection that is not interrupted, and GC_finalize in its GC_finish_collection.
    method CollectAndFinalize(fin: Finalizer) returns (r: Stopped, overflowed: set<Obj>, ghost q: seq<Fo>, ghost live: set<Obj>, ghost sizes: seq<nat>)
      requires Prepared(mk.V()) && fin.mk == mk && fin.Valid() && fin.ObjectsExist()
      modifies this`gcNo, this`deficit, mk, fin`head, fin`entries, fin`finalizeNow, fin`bytesFinalized
      ensures !r.Abandoned? && (r.Completed? ==> mk.m == old(mk.m))
      ensures live == ReachSet(old(mk.m), RootTargets(old(mk.m)) + set o | o in old(mk.marked) && KeepsMark(old(mk.m), o))
      ensures r.Completed? ==> fin.Valid() && Ready(mk.V()) && Settled(mk.V())
      ensures r.Completed? ==> exists size0 :: TurnsOk(mk.m, live, Order(old(fin.head)), sizes, size0, overflowed)
      ensures r.Completed? ==> Finalizer.Finalizable(old(fin.head), mk.m, live, overflowed, q)
      ensures r.Completed? ==> fin.finalizeNow == q + old(fin.finalizeNow) && Finalizer.Remaining(old(fin.head), fin.head, q)
      ensures r.Completed? ==>
                mk.marked == live + overflowed + PlusAll(mk.m, Unreached(old(fin.head), live)) + Finalizer.BasesOf(q)
      ensures r.Aborted? ==> ManyRoots(old(mk.m))
    {
      hide Prepared, Ready, Settled, ReachSet, KeepsMark, RootTargets, ManyRoots, PlusAll, Unreached, TurnsOk, Overfull, Order, InTable, Shape, CountsOk, DirtyOk, HeapI, RootsI, BoundOk;
      hide Finalizer.Finalizable, Finalizer.Remaining, Finalizer.BasesOf;
      ghost var seeds := RootTargets(mk.m) + set o | o in mk.marked && KeepsMark(mk.m, o);
      live := ReachSet(mk.m, seeds);
      overflowed, q, sizes := {}, [], [];
      r := FullCollection(true);
      if r.Aborted? { return; }
      ReadyParts(mk.V());
      CollectedIsSettled(mk.V(), seeds);
      var aborted;
      aborted, overflowed, q, sizes := fin.Finalize();
      if aborted { r := Aborted; }
    }

    static lemma CollectedIsSettled(v: View, seeds: set<Obj>)
      requires v.state.Quiet? && v.written == {} && Shape(v) && v.marked == ReachSet(v.m, seeds) && RootTargets(v.m) <= seeds
      ensures Settled(v)
    {
      hide ReachSet;
      ReachSetClosed(v.m, seeds);
      assert forall t | t in RootTargets(v.m) :: t in v.m.words;
    }

    method PayDeficit(n: nat)
      modifies this`deficit
      ensures deficit == if old(deficit) > GC_RATE * n then old(deficit) - GC_RATE * n else 0
    {
      deficit := if deficit > GC_RATE * n then deficit - GC_RATE * n else 0;
    }
  }
}
