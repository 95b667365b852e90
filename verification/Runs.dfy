// Whole runs of the client, the allocator and the sequential marker: every interleaving of what they do, and
// what each of their actions has changed, in terms of words, marks and dirty bits.

module Runs {
  import opened Config
  import opened HeapGraph
  import opened MarkInvariant
  import opened Marker
  import opened Mutator

  /** One event in the life of the collector: an action of the client or the allocator, or a step of marking. */
  datatype Event =
    | DoStore(o: Obj, k: nat, x: Word, page: nat)
    | DoStoreRoot(i: nat, k: nat, x: Word)
    | DoAddRoot(r: Root)
    | DoReuse(o: Obj)
    | DoFree(o: Obj, x: Word)
    | DoSweep(o: Obj, x: Word)
    | DoClearFlMark(o: Obj)
    | DoNewBlock(a: nat, pages: nat, kind: Kind, granules: nat, n: nat)
    | DoFreeBlock(a: nat)
    | DoOverwrite(o: Obj, k: nat, x: Word)
    | DoMarkSome
    | DoInitiate
    | DoClear
    | DoInvalidate

  // ----- what each event does to the state

  /** A pointer counts from now on, unless it leads to a slot on a free list. */
  ghost predicate Counts(v: View, w: View, s: Src, k: nat, x: Word) {
    w.lapsed == if x.Pointer? && x.target in v.free then v.lapsed + iset{(s, k)} else v.lapsed - iset{(s, k)}
  }

  /** The word is stored, and the bit of its page is set if dirty bits are maintained. */
  ghost predicate Stored(v: View, w: View, o: Obj, k: nat, x: Word, page: nat) {
    && o in v.m.words && k < |v.m.words[o]|
    && w == v.(m := v.m.(words := v.m.words[o := v.m.words[o][k := x]]), written := v.written + {o},
               dirty := if v.dirtyMaintained then v.dirty + {page % PHT_ENTRIES} else v.dirty,
               lapsed := w.lapsed, bound := w.bound)
    && Counts(v, w, Heap(o), k, x)
  }

  ghost predicate RootStored(v: View, w: View, i: nat, k: nat, x: Word) {
    && i < |v.m.roots| && k < |v.m.roots[i].words|
    && w == v.(m := v.m.(roots := v.m.roots[i := v.m.roots[i].(words := v.m.roots[i].words[k := x])]),
               rootsTouched := true, lapsed := w.lapsed, bound := w.bound)
    && Counts(v, w, InRoot(i), k, x)
  }

  ghost predicate RootAdded(v: View, w: View, r: Root) {
    && w == v.(m := v.m.(roots := v.m.roots + [r]), rootsTouched := true, lapsed := w.lapsed, bound := w.bound)
    && forall p: (Src, nat) :: p in w.lapsed <==>
         if p.0 == InRoot(|v.m.roots|) then p.1 < |r.words| && r.words[p.1].Pointer? && r.words[p.1].target in v.free
         else p in v.lapsed
  }

  /** The kind of an object, if there is one. */
  predicate OfKinds(m: Memory, o: Obj, ks: set<Kind>) {
    o in m.home && m.home[o] in m.blocks && m.blocks[m.home[o]].kind in ks
  }

  /** Only the words of o differ, and there are as many. */
  predicate OnlyWordsOf(m: Memory, r: Memory, o: Obj) {
    && o in m.words && o in r.words && |r.words[o]| == |m.words[o]|
    && r == m.(words := m.words[o := r.words[o]])
  }

  /** The slot is cleared and in use again; an uncollectable one is marked. */
  ghost predicate Reused(v: View, w: View, o: Obj) {
    && OnlyWordsOf(v.m, w.m, o) && (forall k | 0 <= k < |w.m.words[o]| :: w.m.words[o][k] == NotPlausible)
    && w == v.(m := w.m, marked := w.marked, nMarks := w.nMarks, bound := w.bound, free := v.free - {o})
    && w.marked == v.marked + if OfKinds(v.m, o, {Uncollectable, AtomicUncollectable}) then {o} else {}
  }

  /** The slot is on a free list: its first word is the link, and what is cleared on allocation is clear. */
  ghost predicate Linking(v: View, w: View, o: Obj, x: Word) {
    && OnlyWordsOf(v.m, w.m, o) && |w.m.words[o]| > 0 && w.m.words[o][0] == x
    && (forall k | 0 < k < |w.m.words[o]| ::
          w.m.words[o][k] == if OfKinds(v.m, o, {Normal, Uncollectable}) then NotPlausible else v.m.words[o][k])
    && w.free == v.free + {o}
    && forall p: (Src, nat) :: p in w.lapsed <==> p in v.lapsed || p == (Heap(o), 0) || PointsTo(w.m, p.0, p.1, o)
  }

  ghost predicate Freed(v: View, w: View, o: Obj, x: Word) {
    && Linking(v, w, o, x)
    && w == v.(m := w.m, bound := w.bound, free := w.free, lapsed := w.lapsed)
  }

  ghost predicate Swept(v: View, w: View, o: Obj, x: Word) {
    && Linking(v, w, o, x)
    && w == v.(m := w.m, marked := w.marked, nMarks := w.nMarks, bound := w.bound, free := w.free, lapsed := w.lapsed)
    && w.marked == v.marked + if OfKinds(v.m, o, {Uncollectable, AtomicUncollectable}) then {o} else {}
  }

  ghost predicate Unmarked(v: View, w: View, o: Obj) {
    w == v.(marked := v.marked - {o}, nMarks := w.nMarks, bound := w.bound, exact := w.exact)
  }

  /** r is m with a block of n new slots of the given size, all clear. */
  ghost predicate WithNewBlock(m: Memory, r: Memory, a: nat, pages: nat, kind: Kind, granules: nat, n: nat) {
    && r == m.(blocks := r.blocks, home := r.home, words := r.words, next := m.next + n)
    && a in r.blocks && r.blocks == m.blocks[a := Block(pages, kind, granules, r.blocks[a].objs)]
    && (forall o: Obj :: o in r.blocks[a].objs <==> m.next <= o < m.next + n)
    && (forall o: Obj :: o in r.words <==> o in m.words || m.next <= o < m.next + n)
    && (forall o | o in m.words :: o in r.words && r.words[o] == m.words[o])
    && (forall o: Obj | m.next <= o < m.next + n :: o in r.home && r.home[o] == a && o in r.words && Clear(r.words[o], 2 * granules))
  }

  predicate Clear(ws: seq<Word>, n: nat) {
    |ws| == n && forall k | 0 <= k < n :: ws[k] == NotPlausible
  }

  /** A new block; the slots of uncollectable kinds are marked. */
  ghost predicate BlockMade(v: View, w: View, a: nat, pages: nat, kind: Kind, granules: nat, n: nat) {
    && w == v.(m := w.m, marked := w.marked, nMarks := w.nMarks, bound := w.bound)
    && WithNewBlock(v.m, w.m, a, pages, kind, granules, n)
    && (forall o: Obj :: o in w.marked <==>
          o in v.marked || ((kind == Uncollectable || kind == AtomicUncollectable) && v.m.next <= o < v.m.next + n))
  }

  /** The block and its objects are gone; what their words were may still be read through the mark stack. */
  ghost predicate BlockGone(v: View, w: View, a: nat) {
    && a in v.m.blocks
    && var os := v.m.blocks[a].objs;
       && w == v.(m := w.m, marked := v.marked - os, bound := w.bound, free := v.free - os)
       && w.m == v.m.(blocks := v.m.blocks - {a}, home := v.m.home - os, words := v.m.words - os, stale := w.m.stale)
       && (forall o :: o in w.m.stale <==> o in v.m.stale || (o in os && o in v.m.words))
       && (forall o | o in w.m.stale :: w.m.stale[o] == if o in os && o in v.m.words then v.m.words[o] else v.m.stale[o])
  }

  ghost predicate StaleStored(v: View, w: View, o: Obj, k: nat, x: Word) {
    && o in v.m.stale && k < |v.m.stale[o]|
    && w == v.(m := v.m.(stale := v.m.stale[o := v.m.stale[o][k := x]]), lapsed := w.lapsed, bound := w.bound)
    && Counts(v, w, Heap(o), k, x)
  }

  /** GC_mark_some: memory and records stay, marks are only added.  When the roots have been pushed and the stack
      is empty the phase ends with the marks there are; until then each step brings its end nearer. */
  ghost predicate MarkedSome(v: View, w: View) {
    && w == v.(marked := w.marked, nMarks := w.nMarks, stack := w.stack, stackSize := w.stackSize, state := w.state,
               objectsAreMarked := w.objectsAreMarked, rootsTouched := w.rootsTouched, scanPtr := w.scanPtr)
    && v.marked <= w.marked && v.stackSize <= w.stackSize
    && (w.rootsTouched ==> v.rootsTouched)
    && if v.state.Quiet? then w == v
       else if v.state.RootsPushed? && v.stack == [] then
         w.state.Quiet? && w.stack == [] && w.marked == v.marked && w.rootsTouched == v.rootsTouched && w.objectsAreMarked
       else !w.state.Quiet? && Nearer(v, w) && (w.state.PushRescuers? ==> v.state.PushRescuers?)
  }

  /** GC_initiate_gc: dirty pages become grungy, and the heap will be scanned from its start. */
  ghost predicate Initiates(v: View, w: View) {
    w == v.(state := if v.state.Quiet? then PushRescuers else Invalid, scanPtr := 0, written := {},
            grungy := if v.dirtyMaintained then v.dirty else v.grungy,
            dirty := if v.dirtyMaintained then {} else v.dirty)
  }

  /** GC_clear_marks: exactly the marks of uncollectable objects stay. */
  ghost predicate Clears(v: View, w: View) {
    && w == v.(marked := w.marked, nMarks := w.nMarks, objectsAreMarked := false, state := Invalid, scanPtr := 0)
    && forall o: Obj :: o in w.marked <==> o in v.marked && OfKinds(v.m, o, {Uncollectable, AtomicUncollectable})
  }

  /** What an event of the client or the allocator does.  One that is not possible does nothing. */
  ghost predicate Acts(v: View, e: Event, w: View) {
    match e
    case DoStore(o, k, x, page) =>
      if o in v.m.words && k < |v.m.words[o]| && (x.Pointer? ==> x.target < v.m.next)
         && o in v.m.home && v.m.home[o] in v.m.blocks && v.m.home[o] <= page < v.m.home[o] + v.m.blocks[v.m.home[o]].pages
      then Stored(v, w, o, k, x, page) else w == v
    case DoStoreRoot(i, k, x) =>
      if i < |v.m.roots| && k < |v.m.roots[i].words| && (x.Pointer? ==> x.target < v.m.next) then RootStored(v, w, i, k, x) else w == v
    case DoAddRoot(r) =>
      if forall k | 0 <= k < |r.words| :: r.words[k].Pointer? ==> r.words[k].target < v.m.next then RootAdded(v, w, r) else w == v
    case DoReuse(o) => if o in v.m.words then Reused(v, w, o) else w == v
    case DoFree(o, x) => if o in v.m.words && (x.Pointer? ==> x.target < v.m.next) then Freed(v, w, o, x) else w == v
    case DoSweep(o, x) =>
      if o in v.m.words && o !in v.marked && (x.Pointer? ==> x.target < v.m.next) then Swept(v, w, o, x) else w == v
    case DoClearFlMark(o) => if o in v.m.words && o in v.free then Unmarked(v, w, o) else w == v
    case DoNewBlock(a, pages, kind, granules, n) =>
      if && 0 < a && 0 < pages && (forall b | b in v.m.blocks :: b + v.m.blocks[b].pages <= a || a + pages <= b)
         && a !in v.m.blocks && granules > 0 && n <= MAX_OBJS
      then BlockMade(v, w, a, pages, kind, granules, n) else w == v
    case DoFreeBlock(a) => if a in v.m.blocks then BlockGone(v, w, a) else w == v
    case DoOverwrite(o, k, x) =>
      if o in v.m.stale && k < |v.m.stale[o]| && (x.Pointer? ==> x.target < v.m.next) then StaleStored(v, w, o, k, x) else w == v
    case _ => w == v
  }

  /** What any event does.  `ready`: the mark state has not been invalidated without a new start. */
  ghost predicate Happens(ready: bool, v: View, e: Event, w: View) {
    match e
    case DoMarkSome => if ready then MarkedSome(v, w) else w == v
    case DoInitiate => if v.state.Invalid? || (v.state.Quiet? && v.dirtyMaintained) then Initiates(v, w) else w == v
    case DoClear => Clears(v, w)
    case DoInvalidate => w == v.(state := Invalid, stack := [])
    case _ => Acts(v, e, w)
  }

  /** Marking may go on: since GC_invalidate_mark_state a collection has been initiated, or marks were cleared. */
  predicate ReadyAfter(events: seq<Event>, n: nat)
    requires n <= |events|
  {
    n == 0 ||
    match events[n - 1]
    case DoInvalidate => false
    case DoInitiate => true
    case DoClear => true
    case _ => ReadyAfter(events, n - 1)
  }

  /** What holds in every state of a run. */
  ghost predicate Sound(v: View) {
    Prepared(v) && LapsedOk(v) && (v.state.Quiet? && v.dirtyMaintained ==> CleanPagesOk(v))
  }

  /** The states of a run, one before and one after each event. */
  ghost predicate IsTrace(events: seq<Event>, trace: seq<View>) {
    && 0 < |trace| <= |events| + 1
    && (forall i | 0 <= i < |trace| - 1 :: Happens(ReadyAfter(events, i), trace[i], events[i], trace[i + 1]))
    && forall i | 0 <= i < |trace| :: Sound(trace[i])
  }

  lemma TraceMore(events: seq<Event>, trace: seq<View>, w: View)
    requires IsTrace(events, trace) && |trace| <= |events| && Sound(w)
    requires Happens(ReadyAfter(events, |trace| - 1), trace[|trace| - 1], events[|trace| - 1], w)
    ensures IsTrace(events, trace + [w])
  {
    hide Happens, Sound, ReadyAfter;
    var more := trace + [w];
    forall i | 0 <= i < |more| - 1 ensures Happens(ReadyAfter(events, i), more[i], events[i], more[i + 1]) {
      assert i < |trace| - 1 ==> more[i + 1] == trace[i + 1];
    }
  }

  // Any interleaving of client actions with marking increments.  The states in between are recorded.
  method Run(mk: Marker, parallel: bool, events: seq<Event>) returns (aborted: bool, ghost trace: seq<View>)
    requires Ready(mk.V()) && LapsedOk(mk.V()) && (!mk.exact ==> parallel)
    modifies mk
    ensures IsTrace(events, trace) && trace[0] == old(mk.V())
    ensures !aborted ==> |trace| == |events| + 1 && trace[|events|] == mk.V()
    ensures aborted ==> |trace| <= |events| && events[|trace| - 1].DoMarkSome?
    ensures aborted ==> ManyRoots(mk.m) || (trace[|trace| - 1].state.PushRescuers? && !mk.dirtyMaintained)
  {
    hide Prepared, Ready, ManyRoots, LapsedOk, Happens, Sound, IsTrace;
    var ready := true;
    aborted := false;
    trace := [mk.V()];
    TraceStarts(events, mk.V());
    for i := 0 to |events|
      invariant Sound(mk.V()) && (ready ==> Ready(mk.V())) && (!mk.exact ==> parallel)
      invariant ready == ReadyAfter(events, i) && (!ready ==> mk.state.Invalid?)
      invariant |trace| == i + 1 && IsTrace(events, trace) && trace[0] == old(mk.V()) && trace[i] == mk.V()
    {
      aborted, ready := Perform(mk, parallel, ready, events[i]);
      if aborted { return; }
      TraceMore(events, trace, mk.V());
      trace := trace + [mk.V()];
    }
  }

  lemma TraceStarts(events: seq<Event>, v: View)
    requires Ready(v) && LapsedOk(v)
    ensures Sound(v) && IsTrace(events, [v])
  {
    hide Prepared, Ready, LapsedOk, CleanPagesOk;
    ReadyIsPrepared(v);
    CleanPagesAtEnd(v);
  }

  // The same from the very beginning.
  method RunFromStart(dirtyMaintained: bool, parallel: bool, events: seq<Event>)
    returns (mk: Marker, aborted: bool, ghost trace: seq<View>)
    ensures IsTrace(events, trace) && mk.dirtyMaintained == dirtyMaintained
    ensures var v := trace[0];
            v.m.blocks == map[] && v.m.words == map[] && v.m.roots == [] && v.marked == {} && v.state.Quiet? && v.dirtyMaintained == dirtyMaintained
    ensures !aborted ==> |trace| == |events| + 1 && trace[|events|] == mk.V()
    ensures aborted ==> |trace| <= |events| && events[|trace| - 1].DoMarkSome?
    ensures aborted ==> ManyRoots(mk.m) || (trace[|trace| - 1].state.PushRescuers? && !dirtyMaintained)
  {
    hide Prepared, Ready, ManyRoots, IsTrace;
    mk := new Marker(dirtyMaintained);
    assert LapsedOk(mk.V());
    hide LapsedOk;
    aborted, trace := Run(mk, parallel, events);
    TraceNotEmpty(events, trace);
  }

  lemma TraceNotEmpty(events: seq<Event>, trace: seq<View>)
    requires IsTrace(events, trace)
    ensures |trace| > 0
  {
    hide Happens, Sound;
  }

  // ----- one event

  method Perform(mk: Marker, parallel: bool, ready: bool, e: Event) returns (aborted: bool, next: bool)
    requires Sound(mk.V()) && (ready ==> Ready(mk.V())) && (!mk.exact ==> parallel) && (!ready ==> mk.state.Invalid?)
    modifies mk
    ensures !aborted ==> Sound(mk.V()) && (next ==> Ready(mk.V())) && (!mk.exact ==> parallel) && (!next ==> mk.state.Invalid?)
    ensures !aborted ==> Happens(ready, old(mk.V()), e, mk.V())
    ensures next == match e case DoInvalidate => false case DoInitiate => true case DoClear => true case _ => ready
    ensures aborted ==> e.DoMarkSome? && (ManyRoots(mk.m) || (old(mk.state).PushRescuers? && !mk.dirtyMaintained))
  {
    hide Prepared, Ready, ManyRoots, LapsedOk, Acts, Sound, MarkedSome, Initiates, Clears, CleanPagesOk;
    next := match e case DoInvalidate => false case DoInitiate => true case DoClear => true case _ => ready;
    aborted := false;
    ghost var v := mk.V();
    match e
    case DoMarkSome =>
      if ready { aborted := Mark(mk); }
    case DoInitiate =>
      if mk.state.Invalid? || (mk.state.Quiet? && mk.dirtyMaintained) { Initiate(mk); }
    case DoClear => ClearAll(mk);
    case DoInvalidate => Invalidate(mk);
    case _ => Act(mk, parallel, e);
  }

  lemma SoundFacts(v: View)
    requires Sound(v)
    ensures Prepared(v) && LapsedOk(v)
  {
    hide Prepared, LapsedOk, CleanPagesOk;
  }

  lemma IsSound(v: View)
    requires Prepared(v) && LapsedOk(v)
    ensures Sound(v)
  {
    hide Prepared, LapsedOk, CleanPagesOk;
    CleanPagesAtEnd(v);
  }

  method Mark(mk: Marker) returns (aborted: bool)
    requires Sound(mk.V()) && Ready(mk.V())
    modifies mk
    ensures mk.exact == old(mk.exact)
    ensures !aborted ==> Sound(mk.V()) && Ready(mk.V()) && MarkedSome(old(mk.V()), mk.V())
    ensures aborted ==> ManyRoots(mk.m) || (old(mk.state).PushRescuers? && !mk.dirtyMaintained)
  {
    hide Prepared, Ready, ManyRoots, LapsedOk, Sound, Marking, Progress, Nearer;
    ghost var v := mk.V();
    SoundFacts(v);
    var r := mk.MarkSome();
    aborted := r.Abort?;
    if aborted { return; }
    ghost var w := mk.V();
    ReadyIsPrepared(w);
    SameLapsed(v, w);
    IsSound(w);
    if w.state.Quiet? { QuietIsEmpty(w); }
    MarkingFacts(v, w);
    TouchedFacts(v, w);
    if r.More? && !v.state.Quiet? {
      NearerTheEnd(v, w);
    }
  }

  lemma TouchedFacts(v: View, w: View)
    requires Marking(v, w)
    ensures w.rootsTouched ==> v.rootsTouched
  {
  }

  method Initiate(mk: Marker)
    requires Sound(mk.V()) && (mk.state.Invalid? || (mk.state.Quiet? && mk.dirtyMaintained))
    modifies mk`state, mk`scanPtr, mk`dirty, mk`grungy, mk`written
    ensures Sound(mk.V()) && Ready(mk.V()) && Initiates(old(mk.V()), mk.V())
  {
    hide Prepared, Ready, LapsedOk, Sound;
    ghost var v := mk.V();
    SoundFacts(v);
    var _ := mk.InitiateGc();
    ReadyIsPrepared(mk.V());
    SameLapsed(v, mk.V());
    IsSound(mk.V());
  }

  method ClearAll(mk: Marker)
    requires Sound(mk.V())
    modifies mk`marked, mk`nMarks, mk`objectsAreMarked, mk`state, mk`scanPtr
    ensures Sound(mk.V()) && Ready(mk.V()) && Clears(old(mk.V()), mk.V())
  {
    hide Prepared, Ready, LapsedOk, Sound;
    ghost var v := mk.V();
    SoundFacts(v);
    mk.ClearMarks();
    ReadyIsPrepared(mk.V());
    SameLapsed(v, mk.V());
    IsSound(mk.V());
  }

  method Invalidate(mk: Marker)
    requires Sound(mk.V())
    modifies mk`state, mk`stack
    ensures Sound(mk.V()) && mk.V() == old(mk.V()).(state := Invalid, stack := [])
  {
    hide Prepared, LapsedOk, Sound;
    ghost var v := mk.V();
    SoundFacts(v);
    mk.InvalidateMarkState();
    SameLapsed(v, mk.V());
    IsSound(mk.V());
  }

  // ----- the client and the allocator

  method Act(mk: Marker, parallel: bool, e: Event)
    requires Sound(mk.V()) && (!mk.exact ==> parallel)
    modifies mk`m, mk`marked, mk`nMarks, mk`written, mk`dirty, mk`rootsTouched, mk`bound, mk`exact, mk`free, mk`lapsed
    ensures Sound(mk.V()) && (old(Ready(mk.V())) ==> Ready(mk.V())) && Acts(old(mk.V()), e, mk.V())
    ensures !mk.exact ==> parallel
  {
    hide Prepared, Ready, LapsedOk, Sound, Acts;
    ghost var v := mk.V();
    SoundFacts(v);
    if e.DoStore? || e.DoOverwrite? {
      ActOnWords(mk, e);
    } else if e.DoStoreRoot? || e.DoAddRoot? {
      ActOnRoots(mk, e);
    } else if e.DoNewBlock? {
      MakeBlock(mk, e);
    } else if e.DoReuse? || e.DoFree? || e.DoSweep? || e.DoClearFlMark? {
      ActOnSlots(mk, parallel, e);
    } else if e.DoFreeBlock? {
      LoseBlock(mk, e);
    } else {
      Nothing(v, e);
    }
    IsSound(mk.V());
  }

  // An event of another sort is not one of theirs.
  lemma Nothing(v: View, e: Event)
    requires e.DoMarkSome? || e.DoInitiate? || e.DoClear? || e.DoInvalidate?
    ensures Acts(v, e, v)
  {
  }

  method ActOnWords(mk: Marker, e: Event)
    requires Prepared(mk.V()) && LapsedOk(mk.V()) && (e.DoStore? || e.DoOverwrite?)
    modifies mk`m, mk`written, mk`dirty, mk`bound, mk`lapsed
    ensures Prepared(mk.V()) && (old(Ready(mk.V())) ==> Ready(mk.V())) && LapsedOk(mk.V()) && Acts(old(mk.V()), e, mk.V())
  {
    hide Prepared, Ready, LapsedOk, Stored, StaleStored, StoreIn, Overwritten, LapsedBy;
    ghost var v := mk.V();
    match e
    case DoStore(o, k, x, page) =>
      if o in mk.m.words && k < |mk.m.words[o]| && (x.Pointer? ==> x.target < mk.m.next)
         && o in mk.m.home && mk.m.home[o] in mk.m.blocks && mk.m.home[o] <= page < mk.m.home[o] + mk.m.blocks[mk.m.home[o]].pages {
        Store(mk, o, k, x, page);
        StoreIs(v, mk.V(), o, k, x, page);
      }
    case DoOverwrite(o, k, x) =>
      if o in mk.m.stale && k < |mk.m.stale[o]| && (x.Pointer? ==> x.target < mk.m.next) {
        Overwrite(mk, o, k, x);
        OverwriteIs(v, mk.V(), o, k, x);
      }
  }

  method ActOnRoots(mk: Marker, e: Event)
    requires Prepared(mk.V()) && LapsedOk(mk.V()) && (e.DoStoreRoot? || e.DoAddRoot?)
    modifies mk`m, mk`rootsTouched, mk`bound, mk`lapsed
    ensures Prepared(mk.V()) && (old(Ready(mk.V())) ==> Ready(mk.V())) && LapsedOk(mk.V()) && Acts(old(mk.V()), e, mk.V())
  {
    hide Prepared, Ready, LapsedOk, RootStored, RootAdded, RootsWith, MoreRoots, LapsedBy, LapsedWithRoot;
    ghost var v := mk.V();
    match e
    case DoStoreRoot(i, k, x) =>
      if i < |mk.m.roots| && k < |mk.m.roots[i].words| && (x.Pointer? ==> x.target < mk.m.next) {
        StoreRoot(mk, i, k, x);
        RootIs(v, mk.V(), i, k, x);
      }
    case DoAddRoot(r) =>
      if forall k | 0 <= k < |r.words| :: r.words[k].Pointer? ==> r.words[k].target < mk.m.next {
        AddRoot(mk, r);
        AddIs(v, mk.V(), r);
      }
  }

  method ActOnSlots(mk: Marker, parallel: bool, e: Event)
    requires Prepared(mk.V()) && LapsedOk(mk.V()) && (!mk.exact ==> parallel)
    requires e.DoReuse? || e.DoFree? || e.DoSweep? || e.DoClearFlMark?
    modifies mk`m, mk`marked, mk`nMarks, mk`bound, mk`exact, mk`free, mk`lapsed
    ensures Prepared(mk.V()) && (old(Ready(mk.V())) ==> Ready(mk.V())) && LapsedOk(mk.V()) && Acts(old(mk.V()), e, mk.V())
    ensures !mk.exact ==> parallel
  {
    hide Prepared, Ready, LapsedOk, Acts;
    if e.DoFree? || e.DoSweep? {
      LinkSlot(mk, e);
    } else if e.DoReuse? {
      UseSlot(mk, e);
    } else {
      UnmarkSlot(mk, parallel, e);
    }
  }

  method UseSlot(mk: Marker, e: Event)
    requires Prepared(mk.V()) && LapsedOk(mk.V()) && e.DoReuse?
    modifies mk`m, mk`marked, mk`nMarks, mk`bound, mk`free
    ensures Prepared(mk.V()) && (old(Ready(mk.V())) ==> Ready(mk.V())) && LapsedOk(mk.V()) && Acts(old(mk.V()), e, mk.V())
  {
    hide Prepared, Ready, LapsedOk, Reused, Recycled, KeepsMark;
    ghost var v := mk.V();
    if e.o in mk.m.words {
      ReuseSlot(mk, e.o);
      ReuseIs(v, mk.V(), e.o);
    }
  }

  method UnmarkSlot(mk: Marker, parallel: bool, e: Event)
    requires Prepared(mk.V()) && LapsedOk(mk.V()) && (!mk.exact ==> parallel) && e.DoClearFlMark?
    modifies mk`marked, mk`nMarks, mk`bound, mk`exact
    ensures Prepared(mk.V()) && (old(Ready(mk.V())) ==> Ready(mk.V())) && LapsedOk(mk.V()) && Acts(old(mk.V()), e, mk.V())
    ensures !mk.exact ==> parallel
  {
    hide Prepared, Ready, LapsedOk;
    if e.o in mk.m.words && e.o in mk.free { ClearFlMark(mk, e.o, parallel); }
  }

  method LinkSlot(mk: Marker, e: Event)
    requires Prepared(mk.V()) && LapsedOk(mk.V()) && (e.DoFree? || e.DoSweep?)
    modifies mk`m, mk`marked, mk`nMarks, mk`bound, mk`free, mk`lapsed
    ensures Prepared(mk.V()) && (old(Ready(mk.V())) ==> Ready(mk.V())) && LapsedOk(mk.V()) && Acts(old(mk.V()), e, mk.V())
  {
    hide Prepared, Ready, LapsedOk, Freed, Swept, Linked, LapsedWith, KeepsMark;
    ghost var v := mk.V();
    match e
    case DoFree(o, x) =>
      if o in mk.m.words && (x.Pointer? ==> x.target < mk.m.next) {
        FreeSlot(mk, o, x);
        FreeIs(v, mk.V(), o, x);
      }
    case DoSweep(o, x) =>
      if o in mk.m.words && o !in mk.marked && (x.Pointer? ==> x.target < mk.m.next) {
        SweepSlot(mk, o, x);
        SweepIs(v, mk.V(), o, x);
      }
  }

  method MakeBlock(mk: Marker, e: Event)
    requires Prepared(mk.V()) && LapsedOk(mk.V()) && e.DoNewBlock?
    modifies mk`m, mk`marked, mk`nMarks, mk`bound
    ensures Prepared(mk.V()) && (old(Ready(mk.V())) ==> Ready(mk.V())) && LapsedOk(mk.V()) && Acts(old(mk.V()), e, mk.V())
  {
    hide Prepared, Ready, LapsedOk, BlockMade, WithBlock, Slots;
    ghost var v := mk.V();
    if Vacant(mk.m, e.a, e.pages) && e.granules > 0 && e.n <= MAX_OBJS {
      PreparedHasWf(v);
      NewBlock(mk, e.a, e.pages, e.kind, e.granules, e.n);
      NewBlockIs(v, mk.V(), e.a, e.pages, e.kind, e.granules, e.n);
    }
  }

  method LoseBlock(mk: Marker, e: Event)
    requires Prepared(mk.V()) && LapsedOk(mk.V()) && e.DoFreeBlock?
    modifies mk`m, mk`marked, mk`bound, mk`free
    ensures Prepared(mk.V()) && (old(Ready(mk.V())) ==> Ready(mk.V())) && LapsedOk(mk.V()) && Acts(old(mk.V()), e, mk.V())
  {
    hide Prepared, Ready, LapsedOk, BlockGone, WithoutBlock;
    ghost var v := mk.V();
    if e.a in mk.m.blocks {
      PreparedHasWf(v);
      FreeBlock(mk, e.a);
      FreeBlockIs(v, mk.V(), e.a);
    }
  }

  lemma PreparedHasWf(v: View)
    requires Prepared(v)
    ensures Wf(v.m)
  {
    hide Prepared, Shape, CountsOk, Wf, DirtyOk, BoundOk, FlagsOk;
    PreparedFacts(v);
  }

  lemma StoreIs(v: View, w: View, o: Obj, k: nat, x: Word, page: nat)
    requires o in v.m.words && k < |v.m.words[o]|
    requires w == v.(m := StoreIn(v.m, o, k, x), written := v.written + {o}, bound := w.bound,
                     lapsed := LapsedBy(v.lapsed, v.free, Heap(o), k, x),
                     dirty := v.dirty + if v.dirtyMaintained then {Bucket(page)} else {})
    ensures Stored(v, w, o, k, x, page)
  {
  }

  lemma RootIs(v: View, w: View, i: nat, k: nat, x: Word)
    requires i < |v.m.roots| && k < |v.m.roots[i].words|
    requires w == v.(m := RootsWith(v.m, i, k, x), rootsTouched := true, bound := w.bound, lapsed := LapsedBy(v.lapsed, v.free, InRoot(i), k, x))
    ensures RootStored(v, w, i, k, x)
  {
  }

  lemma AddIs(v: View, w: View, r: Root)
    requires w == v.(m := MoreRoots(v.m, r), rootsTouched := true, bound := w.bound, lapsed := LapsedWithRoot(v, r))
    ensures RootAdded(v, w, r)
  {
  }

  lemma OverwriteIs(v: View, w: View, o: Obj, k: nat, x: Word)
    requires o in v.m.stale && k < |v.m.stale[o]|
    requires w == v.(m := Overwritten(v.m, o, k, x), bound := w.bound, lapsed := LapsedBy(v.lapsed, v.free, Heap(o), k, x))
    ensures StaleStored(v, w, o, k, x)
  {
  }

  lemma ReuseIs(v: View, w: View, o: Obj)
    requires o in v.m.words && w == v.(m := Recycled(v.m, o), marked := w.marked, nMarks := w.nMarks, bound := w.bound, free := v.free - {o})
    requires w.marked == v.marked + if KeepsMark(w.m, o) then {o} else {}
    ensures Reused(v, w, o)
  {
  }

  lemma FreeIs(v: View, w: View, o: Obj, x: Word)
    requires o in v.m.words && |v.m.words[o]| > 0
    requires w == v.(m := Linked(v.m, o, x), bound := w.bound, free := v.free + {o}, lapsed := LapsedWith(v, w.m, o))
    ensures Freed(v, w, o, x)
  {
    hide PointsTo;
  }

  lemma SweepIs(v: View, w: View, o: Obj, x: Word)
    requires o in v.m.words && |v.m.words[o]| > 0
    requires w == v.(m := Linked(v.m, o, x), marked := w.marked, nMarks := w.nMarks, bound := w.bound, free := v.free + {o},
                     lapsed := LapsedWith(v, w.m, o))
    requires w.marked == v.marked + if KeepsMark(w.m, o) then {o} else {}
    ensures Swept(v, w, o, x)
  {
    hide PointsTo;
  }

  lemma NewBlockIs(v: View, w: View, a: nat, pages: nat, kind: Kind, granules: nat, n: nat)
    requires Wf(v.m) && a !in v.m.blocks
    requires w == v.(m := WithBlock(v.m, a, pages, kind, granules, n), marked := w.marked, nMarks := w.nMarks, bound := w.bound)
    requires w.marked == v.marked + if IsUncollectable(kind) then Slots(v.m.next, n) else {}
    ensures BlockMade(v, w, a, pages, kind, granules, n)
  {
    hide WithBlock, Wf, WithNewBlock;
    MemoryWithBlock(v.m, a, pages, kind, granules, n);
  }

  lemma MemoryWithBlock(m: Memory, a: nat, pages: nat, kind: Kind, granules: nat, n: nat)
    requires Wf(m) && a !in m.blocks
    ensures WithNewBlock(m, WithBlock(m, a, pages, kind, granules, n), a, pages, kind, granules, n)
  {
    hide WithBlock, Wf, Slots, Blank, Clear;
    SlotsAreNew(m, n);
    WithBlockIs(m, a, pages, kind, granules, n);
    WithBlockRest(m, a, pages, kind, granules, n);
    BlankIsClear(2 * granules);
    SlotsHave(m, n);
    var r, os := WithBlock(m, a, pages, kind, granules, n), Slots(m.next, n);
    assert r.blocks[a].objs == os;
    forall o: Obj ensures o in r.words <==> o in m.words || m.next <= o < m.next + n {
      assert o in r.words.Keys <==> o in m.words.Keys + os;
    }
    forall o: Obj | m.next <= o < m.next + n ensures o in r.home && r.home[o] == a && o in r.words && Clear(r.words[o], 2 * granules) {
      assert o in os;
    }
  }

  lemma SlotsHave(m: Memory, n: nat)
    ensures forall o: Obj :: o in Slots(m.next, n) <==> m.next <= o < m.next + n
  {
  }

  lemma BlankIsClear(n: nat)
    ensures Clear(Blank(n), n)
  {
  }

  lemma WithBlockRest(m: Memory, a: nat, pages: nat, kind: Kind, granules: nat, n: nat)
    ensures var r := WithBlock(m, a, pages, kind, granules, n);
            r == m.(blocks := r.blocks, home := r.home, words := r.words, next := m.next + n)
  {
    hide Slots, AllAt, AllBlank;
  }

  lemma FreeBlockIs(v: View, w: View, a: nat)
    requires Wf(v.m) && a in v.m.blocks
    requires w == v.(m := WithoutBlock(v.m, a), marked := v.marked - v.m.blocks[a].objs, bound := w.bound, free := v.free - v.m.blocks[a].objs)
    ensures BlockGone(v, w, a)
  {
    WithoutBlockIs(v.m, a);
    StaleIsOld(v.m);
    hide Wf;
  }
}
