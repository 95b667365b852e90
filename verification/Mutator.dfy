// What the client and the allocator do to the memory between marking steps, and what is recorded about
// it: the dirty bits of gc/os_dep.c (MANUAL_VDB).

module Mutator {
  import opened Config
  import opened HeapGraph
  import opened MarkInvariant
  import opened Marker

  /** Every pointer to a slot on a free list has lapsed: the client gave up the slot, or the collector took it,
      after the pointer was stored, or it is a link of the free list. */
  ghost predicate LapsedOk(v: View) {
    forall s: Src, k: nat, t: Obj {:trigger PointsTo(v.m, s, k, t)} :: PointsTo(v.m, s, k, t) && t in v.free ==> (s, k) in v.lapsed
  }

  /** The words of s are what they were, and none of them leads to an object that did not exist. */
  ghost predicate Kept(v: View, w: View, s: Src) {
    && WordsOf(w.m, s) == WordsOf(v.m, s)
    && (forall k: nat :: (s, k) in v.lapsed ==> (s, k) in w.lapsed)
    && forall k: nat | k < |WordsOf(w.m, s)| && WordsOf(w.m, s)[k].Pointer? && WordsOf(w.m, s)[k].target in w.m.words ::
         WordsOf(w.m, s)[k].target in v.m.words
  }

  ghost predicate SameBlock(v: View, w: View, o: Obj) {
    && o in v.m.home && o in w.m.home && w.m.home[o] == v.m.home[o]
    && v.m.home[o] in v.m.blocks && v.m.home[o] in w.m.blocks
    && w.m.blocks[v.m.home[o]] == v.m.blocks[v.m.home[o]]
  }

  ghost predicate NoPointers(w: View, o: Obj) {
    forall k: nat | k < |WordsOf(w.m, Heap(o))| && WordsOf(w.m, Heap(o))[k].Pointer? :: (Heap(o), k) in w.lapsed
  }

  /** Every marked object is recorded as written, or has no pointers but lapsed ones, or is as it was. */
  ghost predicate ObjectsAccounted(v: View, w: View) {
    forall o | o in w.marked && Traced(w.m, o) ::
      o in w.written || NoPointers(w, o) || (o in v.marked && Kept(v, w, Heap(o)) && SameBlock(v, w, o))
  }

  ghost predicate RootsAccounted(v: View, w: View) {
    w.rootsTouched || (!v.rootsTouched && |w.m.roots| == |v.m.roots| && forall i: nat | i < |w.m.roots| :: Kept(v, w, InRoot(i)))
  }

  /** Objects marked by the allocator, and only those, are uncollectable.  Marks are lost only with the object,
      or by slots on a free list. */
  ghost predicate MarksAccounted(v: View, w: View) {
    && w.marked <= w.m.words.Keys
    && MarksStay(v, w)
    && (forall o | o in w.marked && o !in v.marked :: KeepsMark(w.m, o))
    && (forall o | o in v.marked && o in w.marked && KeepsMark(v.m, o) :: KeepsMark(w.m, o))
  }

  ghost predicate MarksStay(v: View, w: View) {
    forall o | o in v.marked && o in w.m.words :: o in w.marked || o in v.free
  }

  ghost predicate EntriesFit(v: View, w: View) {
    forall i | 0 <= i < |v.stack| :: |WordsOf(w.m, v.stack[i].src)| == |WordsOf(v.m, v.stack[i].src)|
  }

  /** A change of memory made while the marker is not running. */
  ghost predicate Mutation(v: View, w: View) {
    && w == v.(m := w.m, marked := w.marked, nMarks := w.nMarks, written := w.written, dirty := w.dirty,
               rootsTouched := w.rootsTouched, bound := w.m.words.Keys, exact := w.exact, free := w.free, lapsed := w.lapsed)
    && v.written <= w.written
    && MarksAccounted(v, w) && ObjectsAccounted(v, w) && RootsAccounted(v, w) && EntriesFit(v, w)
  }

  // Whatever the client does that is recorded in this way keeps the marker's invariant, in every state
  // of the mark phase.
  lemma MutationKeepsInvariant(v: View, w: View)
    requires Prepared(v) && LapsedOk(v) && Mutation(v, w) && Wf(w.m) && CountsOk(w) && DirtyOk(w)
    ensures Prepared(w) && (Ready(v) ==> Ready(w))
  {
    hide Wf, CountsOk, DirtyOk, BoundOk, EntryOk, ObjectsAccounted, RootsAccounted, MarksAccounted, EntriesFit, HeapI, RootsI, FlagsOk, LapsedOk;
    AnythingBound(v, w);
    MutatedShape(v, w);
    MutatedHeapI(v, w);
    MutatedRootsI(v, w);
    MutatedFlags(v, w);
  }

  lemma AnythingBound(v: View, w: View)
    requires MarksAccounted(v, w) && w.bound == w.m.words.Keys
    ensures BoundOk(w)
  {
  }

  lemma MutatedShape(v: View, w: View)
    requires Shape(v) && Wf(w.m) && MarksAccounted(v, w) && EntriesFit(v, w)
    requires w.stack == v.stack && w.stackSize == v.stackSize && w.bound == w.m.words.Keys
    ensures Shape(w)
  {
    hide Wf;
    forall i | 0 <= i < |w.stack| ensures EntryOk(w.m, w.bound, w.stack[i]) {
      assert EntryOk(v.m, v.bound, v.stack[i]);
    }
  }

  lemma KeptStaysOk(v: View, w: View, s: Src)
    requires Kept(v, w, s) && SrcOk(v, [], s) && MarksStay(v, w) && LapsedOk(v) && w.stack == v.stack
    ensures SrcOk(w, [], s)
  {
    var ws := WordsOf(w.m, s);
    forall k: nat ensures WordOk(w, [], s, k) {
      assert WordOk(v, [], s, k);
      if k < |ws| && ws[k].Pointer? && ws[k].target in w.m.words && ws[k].target in v.free {
        assert PointsTo(v.m, s, k, ws[k].target);
      }
    }
  }

  lemma MutatedHeapI(v: View, w: View)
    requires HeapI(v, [], From(v.scanPtr)) && ObjectsAccounted(v, w) && MarksAccounted(v, w) && v.written <= w.written && LapsedOk(v)
    requires w.stack == v.stack && w.state == v.state && w.scanPtr == v.scanPtr && w.grungy == v.grungy
    ensures HeapI(w, [], From(w.scanPtr))
  {
    forall o | o in w.marked && Traced(w.m, o)
      ensures o in w.written || Pending(w, From(w.scanPtr), o) || SrcOk(w, [], Heap(o))
    {
      if NoPointers(w, o) {
        assert SrcOk(w, [], Heap(o));
      } else if o !in w.written && SrcOk(v, [], Heap(o)) {
        KeptStaysOk(v, w, Heap(o));
      }
    }
  }

  lemma MutatedRootsI(v: View, w: View)
    requires RootsI(v, []) && RootsAccounted(v, w) && MarksAccounted(v, w) && w.stack == v.stack && w.state == v.state && LapsedOk(v)
    ensures RootsI(w, [])
  {
    hide SrcOk, Kept;
    if (w.state.RootsPushed? || w.state.Quiet?) && !w.rootsTouched {
      forall i: nat | i < |w.m.roots| ensures SrcOk(w, [], InRoot(i)) {
        KeptStaysOk(v, w, InRoot(i));
      }
    }
  }

  lemma MutatedFlags(v: View, w: View)
    requires FlagsOk(v) && MarksAccounted(v, w) && w.objectsAreMarked == v.objectsAreMarked
    requires w.stack == v.stack && w.state == v.state && w.watch == v.watch && v.marked <= v.m.words.Keys && Wf(v.m)
    ensures FlagsOk(w)
  {
    if !w.objectsAreMarked {
      forall o | o in w.marked ensures KeepsMark(w.m, o) {
        if o in v.marked { assert o in v.m.home && v.m.home[o] in v.m.blocks; }
      }
    }
  }

  // ----- a client stores a word

  function StoreIn(m: Memory, o: Obj, k: nat, x: Word): Memory
    requires o in m.words && k < |m.words[o]|
  {
    m.(words := m.words[o := m.words[o][k := x]])
  }

  // Writing into an object, words for words.
  lemma RewriteWf(m: Memory, w: Memory, o: Obj, ws: seq<Word>)
    requires Wf(m) && o in m.words && w == m.(words := m.words[o := ws]) && |ws| > 0
    requires forall k: nat | k < |ws| && ws[k].Pointer? :: ws[k].target < m.next
    ensures Wf(w)
  {
    hide BlocksOk, StaleOk;
    assert BlocksOk(w) by { SameBlocksOk(m, w); }
    assert StaleOk(w) by { SameStaleOk(m, w); }
    forall p, k: nat | p in w.words && k < |w.words[p]| && w.words[p][k].Pointer? ensures w.words[p][k].target < w.next {
      assert p != o ==> w.words[p] == m.words[p];
    }
  }

  lemma SameStaleOk(m: Memory, w: Memory)
    requires StaleOk(m) && w.stale == m.stale && w.words.Keys == m.words.Keys && w.next == m.next
    ensures StaleOk(w)
  {
  }

  lemma StoreWf(m: Memory, o: Obj, k: nat, x: Word)
    requires Wf(m) && o in m.words && k < |m.words[o]| && (x.Pointer? ==> x.target < m.next)
    ensures Wf(StoreIn(m, o, k, x))
  {
    var ws := m.words[o][k := x];
    forall j: nat | j < |ws| && ws[j].Pointer? ensures ws[j].target < m.next {
      assert j != k ==> ws[j] == m.words[o][j];
    }
    hide Wf;
    RewriteWf(m, StoreIn(m, o, k, x), o, ws);
  }

  // GC_dirty is called for a page of the object: the object's block will be found dirty.
  method Store(mk: Marker, o: Obj, k: nat, x: Word, page: nat)
    requires Prepared(mk.V()) && LapsedOk(mk.V())
    requires o in mk.m.words && k < |mk.m.words[o]| && (x.Pointer? ==> x.target < mk.m.next)
    requires o in mk.m.home && mk.m.home[o] in mk.m.blocks
    requires mk.m.home[o] <= page < mk.m.home[o] + mk.m.blocks[mk.m.home[o]].pages
    modifies mk`m, mk`written, mk`dirty, mk`bound, mk`lapsed
    ensures Prepared(mk.V()) && (old(Ready(mk.V())) ==> Ready(mk.V())) && LapsedOk(mk.V())
    ensures mk.m == StoreIn(old(mk.m), o, k, x) && mk.lapsed == LapsedBy(old(mk.lapsed), mk.free, Heap(o), k, x)
    ensures mk.dirty == old(mk.dirty) + if mk.dirtyMaintained then {Bucket(page)} else {}
    ensures mk.written == old(mk.written) + {o}
  {
    hide Prepared, Ready, LapsedOk, LapsedBy, StoreIn;
    ghost var v := mk.V();
    mk.m := StoreIn(mk.m, o, k, x);
    mk.lapsed := LapsedBy(mk.lapsed, mk.free, Heap(o), k, x);
    if mk.dirtyMaintained {
      mk.dirty := mk.dirty + {Bucket(page)};
    }
    mk.written := mk.written + {o};
    mk.bound := mk.m.words.Keys;
    StoreKeeps(v, mk.V(), o, k, x, page);
  }

  lemma StoreKeeps(v: View, w: View, o: Obj, k: nat, x: Word, page: nat)
    requires Prepared(v) && LapsedOk(v) && o in v.m.words && k < |v.m.words[o]| && (x.Pointer? ==> x.target < v.m.next)
    requires o in v.m.home && v.m.home[o] in v.m.blocks
    requires v.m.home[o] <= page < v.m.home[o] + v.m.blocks[v.m.home[o]].pages
    requires w == v.(m := StoreIn(v.m, o, k, x), written := v.written + {o}, bound := w.m.words.Keys,
                     lapsed := LapsedBy(v.lapsed, v.free, Heap(o), k, x),
                     dirty := if v.dirtyMaintained then v.dirty + {Bucket(page)} else v.dirty)
    ensures Prepared(w) && (Ready(v) ==> Ready(w)) && LapsedOk(w)
  {
    hide Prepared, Ready, Wf, CountsOk, DirtyOk, Mutation, LapsedOk, LapsedBy, Shape;
    PreparedFacts(v);
    StoreWf(v.m, o, k, x);
    StoreIsMutation(v, w, o, k, x, page);
    MutationKeepsInvariant(v, w);
    StoredLapsed(v, w, Heap(o), k, x);
  }

  /** A pointer that is stored is one to go by, unless its object is on a free list. */
  ghost function LapsedBy(lapsed: iset<(Src, nat)>, free: set<Obj>, s: Src, k: nat, x: Word): iset<(Src, nat)> {
    if x.Pointer? && x.target in free then lapsed + iset{(s, k)} else lapsed - iset{(s, k)}
  }

  // Word k of s is x now, and all other words are what they were.
  lemma StoredLapsed(v: View, w: View, s: Src, k: nat, x: Word)
    requires LapsedOk(v) && w.free == v.free && w.lapsed == LapsedBy(v.lapsed, v.free, s, k, x)
    requires w.m.words.Keys == v.m.words.Keys && k < |WordsOf(v.m, s)| && WordsOf(w.m, s) == WordsOf(v.m, s)[k := x]
    requires forall r: Src | r != s :: WordsOf(w.m, r) == WordsOf(v.m, r)
    ensures LapsedOk(w)
  {
    forall r: Src, j: nat, t: Obj | PointsTo(w.m, r, j, t) && t in w.free ensures (r, j) in w.lapsed {
      if r != s || j != k { assert PointsTo(v.m, r, j, t); }
    }
  }

  lemma StoreIsMutation(v: View, w: View, o: Obj, k: nat, x: Word, page: nat)
    requires Shape(v) && CountsOk(v) && DirtyOk(v) && o in v.m.words && k < |v.m.words[o]|
    requires o in v.m.home && v.m.home[o] in v.m.blocks
    requires v.m.home[o] <= page < v.m.home[o] + v.m.blocks[v.m.home[o]].pages
    requires w == v.(m := StoreIn(v.m, o, k, x), written := v.written + {o}, bound := w.m.words.Keys,
                     lapsed := LapsedBy(v.lapsed, v.free, Heap(o), k, x),
                     dirty := if v.dirtyMaintained then v.dirty + {Bucket(page)} else v.dirty)
    ensures Mutation(v, w) && CountsOk(w) && DirtyOk(w)
  {
    hide EntryOk, CountsOk, ObjectsAccounted, RootsAccounted, MarksAccounted, EntriesFit, Wf, LapsedBy;
    StoreAccounted(v, w, o, k, x);
    SameCounts(v, w);
    StoreDirty(v, w, o, page);
  }

  lemma StoreDirty(v: View, w: View, o: Obj, page: nat)
    requires Wf(v.m) && DirtyOk(v) && o in v.m.words && o in v.m.home && v.m.home[o] in v.m.blocks
    requires v.m.home[o] <= page < v.m.home[o] + v.m.blocks[v.m.home[o]].pages
    requires w.m.home == v.m.home && w.m.blocks == v.m.blocks && w.m.next == v.m.next && w.written == v.written + {o}
    requires w.dirtyMaintained == v.dirtyMaintained
    requires w.dirty == if v.dirtyMaintained then v.dirty + {Bucket(page)} else v.dirty
    ensures DirtyOk(w)
  {
    hide BlocksOk;
  }

  lemma SameCounts(v: View, w: View)
    requires w.m.blocks == v.m.blocks && w.marked == v.marked && w.nMarks == v.nMarks && w.exact == v.exact && CountsOk(v)
    ensures CountsOk(w)
  {
  }

  lemma StoreAccounted(v: View, w: View, o: Obj, k: nat, x: Word)
    requires Shape(v) && o in v.m.words && k < |v.m.words[o]|
    requires w.m == StoreIn(v.m, o, k, x) && w.marked == v.marked && o in w.written && w.rootsTouched == v.rootsTouched
    requires w.lapsed == LapsedBy(v.lapsed, v.free, Heap(o), k, x)
    ensures MarksAccounted(v, w) && ObjectsAccounted(v, w) && RootsAccounted(v, w) && EntriesFit(v, w)
  {
    ShapeWf(v);
    hide Shape, Wf, Kept, SameBlock, KeepsMark, Traced;
    forall p | p in v.marked && p != o ensures Kept(v, w, Heap(p)) && SameBlock(v, w, p) {
      StoreKeepsObject(v, w, o, k, x, p);
    }
    forall i: nat ensures Kept(v, w, InRoot(i)) {
      StoreKeepsRoot(v, w, o, k, x, i);
    }
    StoreKeepsMarks(v, w, o, k, x);
  }

  lemma StoreKeepsObject(v: View, w: View, o: Obj, k: nat, x: Word, p: Obj)
    requires Shape(v) && o in v.m.words && k < |v.m.words[o]| && w.m == StoreIn(v.m, o, k, x) && p in v.marked && p != o
    requires w.lapsed == LapsedBy(v.lapsed, v.free, Heap(o), k, x)
    ensures Kept(v, w, Heap(p)) && SameBlock(v, w, p)
  {
    hide Shape, Wf;
    MarkedHasHome(v, p);
  }

  lemma StoreKeepsRoot(v: View, w: View, o: Obj, k: nat, x: Word, i: nat)
    requires o in v.m.words && k < |v.m.words[o]| && w.m == StoreIn(v.m, o, k, x)
    requires w.lapsed == LapsedBy(v.lapsed, v.free, Heap(o), k, x)
    ensures Kept(v, w, InRoot(i)) && |w.m.roots| == |v.m.roots|
  {
  }

  lemma StoreKeepsMarks(v: View, w: View, o: Obj, k: nat, x: Word)
    requires Shape(v) && o in v.m.words && k < |v.m.words[o]| && w.m == StoreIn(v.m, o, k, x) && w.marked == v.marked
    ensures MarksAccounted(v, w) && EntriesFit(v, w)
  {
    hide Wf, EntryOk;
  }

  // ----- a thread changes a root: a register, a stack slot or static data

  function RootsWith(m: Memory, i: nat, k: nat, x: Word): Memory
    requires i < |m.roots| && k < |m.roots[i].words|
  {
    m.(roots := m.roots[i := m.roots[i].(words := m.roots[i].words[k := x])])
  }

  lemma RootsWf(m: Memory, i: nat, k: nat, x: Word)
    requires Wf(m) && i < |m.roots| && k < |m.roots[i].words| && (x.Pointer? ==> x.target < m.next)
    ensures Wf(RootsWith(m, i, k, x))
  {
    var r := RootsWith(m, i, k, x);
    forall j: nat, l: nat | j < |r.roots| && l < |r.roots[j].words| && r.roots[j].words[l].Pointer?
      ensures r.roots[j].words[l].target < r.next
    {
      assert (j == i && l == k) || r.roots[j].words[l] == m.roots[j].words[l];
    }
  }

  method StoreRoot(mk: Marker, i: nat, k: nat, x: Word)
    requires Prepared(mk.V()) && LapsedOk(mk.V())
    requires i < |mk.m.roots| && k < |mk.m.roots[i].words| && (x.Pointer? ==> x.target < mk.m.next)
    modifies mk`m, mk`rootsTouched, mk`bound, mk`lapsed
    ensures Prepared(mk.V()) && (old(Ready(mk.V())) ==> Ready(mk.V())) && LapsedOk(mk.V())
    ensures mk.m == RootsWith(old(mk.m), i, k, x) && mk.lapsed == LapsedBy(old(mk.lapsed), mk.free, InRoot(i), k, x)
    ensures mk.rootsTouched
  {
    hide Prepared, Ready, Wf, CountsOk, DirtyOk, Mutation, LapsedOk, LapsedBy;
    ghost var v := mk.V();
    PreparedFacts(v);
    RootsWf(mk.m, i, k, x);
    mk.m := RootsWith(mk.m, i, k, x);
    mk.lapsed := LapsedBy(mk.lapsed, mk.free, InRoot(i), k, x);
    mk.rootsTouched := true;
    mk.bound := mk.m.words.Keys;
    RootIsMutation(v, mk.V(), i, k, x);
    MutationKeepsInvariant(v, mk.V());
    StoredLapsed(v, mk.V(), InRoot(i), k, x);
  }

  lemma RootIsMutation(v: View, w: View, i: nat, k: nat, x: Word)
    requires Shape(v) && CountsOk(v) && DirtyOk(v) && i < |v.m.roots| && k < |v.m.roots[i].words|
    requires w == v.(m := RootsWith(v.m, i, k, x), rootsTouched := true, bound := w.m.words.Keys,
                     lapsed := LapsedBy(v.lapsed, v.free, InRoot(i), k, x))
    ensures Mutation(v, w) && CountsOk(w) && DirtyOk(w)
  {
    hide EntryOk, CountsOk, Wf, Kept, SameBlock;
    SameCounts(v, w);
    forall p | p in w.marked && Traced(w.m, p) ensures Kept(v, w, Heap(p)) && SameBlock(v, w, p) {
      RootKeepsObject(v, w, p);
    }
  }

  lemma RootKeepsObject(v: View, w: View, p: Obj)
    requires w.m == v.m.(roots := w.m.roots) && Traced(w.m, p) && forall k: nat :: (Heap(p), k) in v.lapsed ==> (Heap(p), k) in w.lapsed
    ensures Kept(v, w, Heap(p)) && SameBlock(v, w, p)
  {
  }

  // ----- a root segment is added

  function MoreRoots(m: Memory, r: Root): Memory {
    m.(roots := m.roots + [r])
  }

  lemma MoreRootsWf(m: Memory, r: Root)
    requires Wf(m) && forall k | 0 <= k < |r.words| && r.words[k].Pointer? :: r.words[k].target < m.next
    ensures Wf(MoreRoots(m, r))
  {
    var w := MoreRoots(m, r);
    forall j: nat, k: nat | j < |w.roots| && k < |w.roots[j].words| && w.roots[j].words[k].Pointer?
      ensures w.roots[j].words[k].target < w.next
    {
      assert w.roots[j] == if j < |m.roots| then m.roots[j] else r;
    }
  }

  // GC_add_roots_inner, when nothing is known of the segment yet.
  method AddRoot(mk: Marker, r: Root)
    requires Prepared(mk.V()) && LapsedOk(mk.V())
    requires forall k | 0 <= k < |r.words| && r.words[k].Pointer? :: r.words[k].target < mk.m.next
    modifies mk`m, mk`rootsTouched, mk`bound, mk`lapsed
    ensures Prepared(mk.V()) && (old(Ready(mk.V())) ==> Ready(mk.V())) && LapsedOk(mk.V())
    ensures mk.m == MoreRoots(old(mk.m), r) && mk.lapsed == LapsedWithRoot(old(mk.V()), r) && mk.rootsTouched
  {
    hide Prepared, Ready, Wf, CountsOk, DirtyOk, Mutation, LapsedOk, LapsedWithRoot;
    ghost var v := mk.V();
    PreparedFacts(v);
    MoreRootsWf(mk.m, r);
    mk.lapsed := LapsedWithRoot(mk.V(), r);
    mk.m := MoreRoots(mk.m, r);
    mk.rootsTouched := true;
    mk.bound := mk.m.words.Keys;
    MoreRootsIsMutation(v, mk.V(), r);
    MutationKeepsInvariant(v, mk.V());
    MoreRootsLapsed(v, mk.V(), r);
  }

  ghost function LapsedWithRoot(v: View, r: Root): iset<(Src, nat)> {
    iset p: (Src, nat) | if p.0 == InRoot(|v.m.roots|) then p.1 < |r.words| && r.words[p.1].Pointer? && r.words[p.1].target in v.free
                         else p in v.lapsed
  }

  lemma MoreRootsLapsed(v: View, w: View, r: Root)
    requires LapsedOk(v) && w.m == MoreRoots(v.m, r) && w.free == v.free && w.lapsed == LapsedWithRoot(v, r)
    ensures LapsedOk(w)
  {
    forall s: Src, k: nat, t: Obj | PointsTo(w.m, s, k, t) && t in w.free ensures (s, k) in w.lapsed {
      if s != InRoot(|v.m.roots|) { assert PointsTo(v.m, s, k, t); }
    }
  }

  lemma MoreRootsIsMutation(v: View, w: View, r: Root)
    requires Shape(v) && CountsOk(v) && DirtyOk(v)
    requires w == v.(m := MoreRoots(v.m, r), rootsTouched := true, bound := w.m.words.Keys, lapsed := LapsedWithRoot(v, r))
    ensures Mutation(v, w) && CountsOk(w) && DirtyOk(w)
  {
    hide CountsOk, Wf, Kept, SameBlock;
    SameCounts(v, w);
    forall p | p in w.marked && Traced(w.m, p) ensures Kept(v, w, Heap(p)) && SameBlock(v, w, p) {
      RootKeepsObject(v, w, p);
    }
    forall i | 0 <= i < |v.stack| ensures |WordsOf(w.m, v.stack[i].src)| == |WordsOf(v.m, v.stack[i].src)| {
      assert EntryOk(v.m, v.bound, v.stack[i]);
    }
  }

  // ----- the allocator hands out a slot of an existing block, cleared

  function Blank(n: nat): (s: seq<Word>)
    ensures |s| == n && forall k | 0 <= k < n :: s[k] == NotPlausible
  {
    seq(n, _ => NotPlausible)
  }

  function Recycled(m: Memory, o: Obj): Memory
    requires o in m.words
  {
    m.(words := m.words[o := Blank(|m.words[o]|)])
  }

  lemma RecycledWf(m: Memory, o: Obj)
    requires Wf(m) && o in m.words
    ensures Wf(Recycled(m, o))
  {
    var ws := Blank(|m.words[o]|);
    assert |m.words[o]| > 0;
    hide Wf;
    RewriteWf(m, Recycled(m, o), o, ws);
  }

  // GC_generic_malloc_inner: the slot is taken off its free list.  Pointers to it from before have lapsed.
  method Recycle(mk: Marker, o: Obj)
    requires Prepared(mk.V()) && LapsedOk(mk.V()) && o in mk.m.words
    modifies mk`m, mk`bound, mk`free
    ensures Prepared(mk.V()) && (old(Ready(mk.V())) ==> Ready(mk.V())) && LapsedOk(mk.V())
    ensures mk.m == Recycled(old(mk.m), o) && mk.free == old(mk.free) - {o}
  {
    hide Prepared, Ready, LapsedOk, Recycled;
    ghost var v := mk.V();
    mk.m := Recycled(mk.m, o);
    mk.bound := mk.m.words.Keys;
    mk.free := mk.free - {o};
    ReuseKeeps(v, mk.V(), o);
  }

  // An uncollectable object is marked when it is handed out; on its free list it usually is already.  A slot
  // given back by GC_free keeps its mark bit, so other slots may be marked too.
  method ReuseSlot(mk: Marker, o: Obj)
    requires Prepared(mk.V()) && LapsedOk(mk.V()) && o in mk.m.words
    modifies mk`m, mk`marked, mk`nMarks, mk`bound, mk`free
    ensures Prepared(mk.V()) && (old(Ready(mk.V())) ==> Ready(mk.V())) && LapsedOk(mk.V())
    ensures mk.m == Recycled(old(mk.m), o) && mk.free == old(mk.free) - {o}
    ensures mk.marked == old(mk.marked) + if KeepsMark(mk.m, o) then {o} else {}
  {
    hide Prepared, Ready, LapsedOk, Recycled, KeepsMark, NoPointers;
    ghost var v := mk.V();
    Recycle(mk, o);
    RecycledIsBlank(v, mk.V(), o);
    MarkKept(mk, o);
  }

  // A slot of an uncollectable kind that holds no pointers but lapsed ones is marked.
  method MarkKept(mk: Marker, o: Obj)
    requires Prepared(mk.V()) && LapsedOk(mk.V()) && o in mk.m.words && (Traced(mk.m, o) ==> NoPointers(mk.V(), o))
    modifies mk`marked, mk`nMarks, mk`bound
    ensures Prepared(mk.V()) && (old(Ready(mk.V())) ==> Ready(mk.V())) && LapsedOk(mk.V())
    ensures mk.marked == old(mk.marked) + if KeepsMark(mk.m, o) then {o} else {}
  {
    hide Prepared, Ready, LapsedOk, KeepsMark, NoPointers, Traced;
    ghost var v := mk.V();
    if KeepsMark(mk.m, o) && o !in mk.marked {
      HomeOf(v, o);
      var a := mk.m.home[o];
      mk.marked := mk.marked + {o};
      mk.nMarks := mk.nMarks[a := mk.nMarks[a] + 1];
      mk.bound := mk.m.words.Keys;
      MarkKeptKeeps(v, mk.V(), o);
    }
  }

  lemma MarkKeptKeeps(v: View, w: View, o: Obj)
    requires Prepared(v) && LapsedOk(v) && o in v.m.words && o in v.m.home && v.m.home[o] in v.nMarks
    requires o !in v.marked && KeepsMark(v.m, o) && (Traced(v.m, o) ==> NoPointers(v, o))
    requires w == v.(marked := v.marked + {o}, nMarks := v.nMarks[v.m.home[o] := v.nMarks[v.m.home[o]] + 1], bound := v.m.words.Keys)
    ensures Prepared(w) && (Ready(v) ==> Ready(w)) && LapsedOk(w)
  {
    hide Prepared, Ready, Wf, CountsOk, DirtyOk, Mutation, LapsedOk, Shape, KeepsMark, NoPointers, Traced;
    PreparedFacts(v);
    OneMoreMark(v, w, o);
    MarkIsMutation(v, w, o);
    MutationKeepsInvariant(v, w);
    SameLapsed(v, w);
  }

  lemma MarkIsMutation(v: View, w: View, o: Obj)
    requires Shape(v) && DirtyOk(v) && o in v.m.words && KeepsMark(v.m, o) && (Traced(v.m, o) ==> NoPointers(v, o))
    requires w == v.(marked := v.marked + {o}, nMarks := w.nMarks, bound := v.m.words.Keys)
    ensures Mutation(v, w) && DirtyOk(w)
  {
    hide Wf, EntryOk, KeepsMark;
    forall p | p in v.marked && Traced(w.m, p) ensures Kept(v, w, Heap(p)) && SameBlock(v, w, p) {
    }
    assert Traced(w.m, o) ==> NoPointers(w, o);
  }

  // The marker changes neither memory nor what has lapsed.
  lemma SameLapsed(v: View, w: View)
    requires LapsedOk(v) && w.m == v.m && w.free == v.free && w.lapsed == v.lapsed
    ensures LapsedOk(w)
  {
  }

  lemma HomeOf(v: View, o: Obj)
    requires Prepared(v) && o in v.m.words
    ensures o in v.m.home && v.m.home[o] in v.m.blocks && v.m.home[o] in v.nMarks && |v.m.words[o]| > 0
  {
    hide Prepared, Shape, CountsOk, Wf, DirtyOk, BoundOk, FlagsOk;
    PreparedFacts(v);
    HomeFacts(v, o);
    NotEmpty(v.m, o);
  }

  lemma NotEmpty(m: Memory, o: Obj)
    requires Wf(m) && o in m.words
    ensures |m.words[o]| > 0
  {
    hide BlocksOk;
  }

  lemma ReuseKeeps(v: View, w: View, o: Obj)
    requires Prepared(v) && LapsedOk(v) && o in v.m.words
    requires w == v.(m := Recycled(v.m, o), bound := w.m.words.Keys, free := v.free - {o})
    ensures Prepared(w) && (Ready(v) ==> Ready(w)) && LapsedOk(w)
  {
    hide Prepared, Ready, Wf, CountsOk, DirtyOk, Mutation, LapsedOk, Shape, Recycled;
    PreparedFacts(v);
    RecycledWf(v.m, o);
    RecycledSame(v.m, o);
    SameCounts(v, w);
    RecycleIsMutation(v, w, o);
    MutationKeepsInvariant(v, w);
    RecycleLapsed(v, w, o);
  }

  lemma RecycledSame(m: Memory, o: Obj)
    requires o in m.words
    ensures Recycled(m, o) == m.(words := Recycled(m, o).words) && Recycled(m, o).words.Keys == m.words.Keys
  {
  }

  lemma RecycleLapsed(v: View, w: View, o: Obj)
    requires LapsedOk(v) && o in v.m.words && w.m == Recycled(v.m, o) && w.free <= v.free && w.lapsed == v.lapsed
    ensures LapsedOk(w)
  {
    forall s: Src, k: nat, t: Obj | PointsTo(w.m, s, k, t) && t in w.free ensures (s, k) in w.lapsed {
      assert PointsTo(v.m, s, k, t);
    }
  }

  lemma RecycleIsMutation(v: View, w: View, o: Obj)
    requires Shape(v) && DirtyOk(v) && o in v.m.words
    requires w == v.(m := Recycled(v.m, o), bound := w.m.words.Keys, free := v.free - {o})
    ensures Mutation(v, w) && DirtyOk(w)
  {
    hide Shape, Wf, Kept, SameBlock, NoPointers, KeepsMark, Traced, DirtyOk, Recycled, MarksAccounted, EntriesFit;
    forall p | p in v.marked && p != o ensures Kept(v, w, Heap(p)) && SameBlock(v, w, p) {
      OthersAreKept(v, w, o, p);
    }
    forall i: nat ensures Kept(v, w, InRoot(i)) && |w.m.roots| == |v.m.roots| {
      RootIsKept(v, w, o, i);
    }
    RootIsKept(v, w, o, 0);
    RecycledIsBlank(v, w, o);
    RecycleMarks(v, w, o);
    RecycleDirty(v, w, o);
  }

  lemma OthersAreKept(v: View, w: View, o: Obj, p: Obj)
    requires Shape(v) && o in v.m.words && w.m == Recycled(v.m, o) && p != o && p in v.marked && w.lapsed == v.lapsed
    ensures Kept(v, w, Heap(p)) && SameBlock(v, w, p)
  {
    hide EntryOk;
  }

  lemma RootIsKept(v: View, w: View, o: Obj, i: nat)
    requires o in v.m.words && w.m == Recycled(v.m, o) && w.lapsed == v.lapsed
    ensures Kept(v, w, InRoot(i)) && |w.m.roots| == |v.m.roots|
  {
  }

  lemma RecycledIsBlank(v: View, w: View, o: Obj)
    requires o in v.m.words && w.m == Recycled(v.m, o)
    ensures NoPointers(w, o) && o in w.m.words
  {
  }

  lemma RecycleMarks(v: View, w: View, o: Obj)
    requires Shape(v) && o in v.m.words && w.m == Recycled(v.m, o) && w.marked == v.marked
    ensures MarksAccounted(v, w) && EntriesFit(v, w)
  {
    hide EntryOk, Wf;
  }

  lemma RecycleDirty(v: View, w: View, o: Obj)
    requires DirtyOk(v) && o in v.m.words && w.m == Recycled(v.m, o)
    requires w.written == v.written && w.dirty == v.dirty && w.dirtyMaintained == v.dirtyMaintained
    ensures DirtyOk(w)
  {
  }

  // ----- a slot is put on a free list: by GC_free, or by the sweep

  /** The link to the next free slot is in the first word.  Objects that are cleared when they are handed out
      are cleared now; these are the kinds that may hold pointers. */
  function Linked(m: Memory, o: Obj, x: Word): Memory
    requires o in m.words && |m.words[o]| > 0
  {
    m.(words := m.words[o := if Traced(m, o) then [x] + Blank(|m.words[o]| - 1) else m.words[o][0 := x]])
  }

  // The memory with the link, piece by piece.
  lemma LinkedIs(m: Memory, o: Obj, x: Word)
    requires o in m.words && |m.words[o]| > 0
    ensures var r := Linked(m, o, x);
            && r == m.(words := m.words[o := r.words[o]]) && o in r.words && |r.words[o]| == |m.words[o]| && r.words[o][0] == x
            && (forall k | 0 < k < |r.words[o]| && r.words[o][k].Pointer? :: r.words[o][k] == m.words[o][k])
            && (Traced(m, o) ==> forall k | 0 < k < |r.words[o]| :: !r.words[o][k].Pointer?)
            && Traced(r, o) == Traced(m, o) && r.words.Keys == m.words.Keys
  {
  }

  lemma LinkedWf(m: Memory, o: Obj, x: Word)
    requires Wf(m) && o in m.words && |m.words[o]| > 0 && (x.Pointer? ==> x.target < m.next)
    ensures Wf(Linked(m, o, x))
  {
    var ws := Linked(m, o, x).words[o];
    LinkedIs(m, o, x);
    forall j: nat | j < |ws| && ws[j].Pointer? ensures ws[j].target < m.next {
      assert j > 0 ==> ws[j] == m.words[o][j];
    }
    hide Wf;
    RewriteWf(m, Linked(m, o, x), o, ws);
  }

  /** The link, and all pointers to the slot, have lapsed. */
  ghost function LapsedWith(v: View, m: Memory, o: Obj): iset<(Src, nat)> {
    v.lapsed + iset{(Heap(o), 0)} + iset p: (Src, nat) | PointsTo(m, p.0, p.1, o)
  }

  // GC_free for a small object: neither is the mark bit cleared nor is the page recorded as dirty.  The sweep
  // does the same to the unmarked slots of a block, and so does the construction of a new block.
  method FreeSlot(mk: Marker, o: Obj, x: Word)
    requires Prepared(mk.V()) && LapsedOk(mk.V()) && o in mk.m.words && (x.Pointer? ==> x.target < mk.m.next)
    modifies mk`m, mk`bound, mk`free, mk`lapsed
    ensures Prepared(mk.V()) && (old(Ready(mk.V())) ==> Ready(mk.V())) && LapsedOk(mk.V())
    ensures |old(mk.m).words[o]| > 0 && mk.m == Linked(old(mk.m), o, x)
    ensures mk.free == old(mk.free) + {o} && mk.lapsed == LapsedWith(old(mk.V()), mk.m, o)
  {
    hide Prepared, Ready, LapsedOk, LapsedWith, Linked;
    ghost var v := mk.V();
    HomeOf(v, o);
    mk.m := Linked(mk.m, o, x);
    mk.bound := mk.m.words.Keys;
    mk.free := mk.free + {o};
    mk.lapsed := LapsedWith(v, mk.m, o);
    LinkKeeps(v, mk.V(), o, x);
  }

  // The sweep takes unmarked slots, and marks those of uncollectable kinds.
  method SweepSlot(mk: Marker, o: Obj, x: Word)
    requires Prepared(mk.V()) && LapsedOk(mk.V()) && o in mk.m.words && o !in mk.marked && (x.Pointer? ==> x.target < mk.m.next)
    modifies mk`m, mk`marked, mk`nMarks, mk`bound, mk`free, mk`lapsed
    ensures Prepared(mk.V()) && (old(Ready(mk.V())) ==> Ready(mk.V())) && LapsedOk(mk.V())
    ensures |old(mk.m).words[o]| > 0 && mk.m == Linked(old(mk.m), o, x)
    ensures mk.free == old(mk.free) + {o} && mk.lapsed == LapsedWith(old(mk.V()), mk.m, o)
    ensures mk.marked == old(mk.marked) + if KeepsMark(mk.m, o) then {o} else {}
  {
    hide Prepared, Ready, LapsedOk, LapsedWith, Linked, KeepsMark, NoPointers;
    ghost var v := mk.V();
    FreeSlot(mk, o, x);
    LinkedHolds(v, mk.V(), o, x);
    MarkKept(mk, o);
  }

  lemma LinkedHolds(v: View, w: View, o: Obj, x: Word)
    requires o in v.m.words && |v.m.words[o]| > 0 && w.m == Linked(v.m, o, x) && w.lapsed == LapsedWith(v, w.m, o)
    ensures o in w.m.words && (Traced(w.m, o) ==> NoPointers(w, o))
  {
    LinkedIs(v.m, o, x);
    hide Linked;
  }

  lemma LinkKeeps(v: View, w: View, o: Obj, x: Word)
    requires Prepared(v) && LapsedOk(v) && o in v.m.words && |v.m.words[o]| > 0 && (x.Pointer? ==> x.target < v.m.next)
    requires w == v.(m := Linked(v.m, o, x), bound := w.m.words.Keys, free := v.free + {o}, lapsed := LapsedWith(v, w.m, o))
    ensures Prepared(w) && (Ready(v) ==> Ready(w)) && LapsedOk(w)
  {
    hide Prepared, Ready, Wf, CountsOk, DirtyOk, Mutation, LapsedOk, LapsedWith, Linked, Shape;
    PreparedFacts(v);
    LinkedWf(v.m, o, x);
    LinkedIs(v.m, o, x);
    SameCounts(v, w);
    LinkIsMutation(v, w, o, x);
    MutationKeepsInvariant(v, w);
    LinkLapsed(v, w, o, x);
  }

  lemma LinkIsMutation(v: View, w: View, o: Obj, x: Word)
    requires Shape(v) && DirtyOk(v) && o in v.m.words && |v.m.words[o]| > 0
    requires w == v.(m := Linked(v.m, o, x), bound := w.m.words.Keys, free := v.free + {o}, lapsed := LapsedWith(v, w.m, o))
    ensures Mutation(v, w) && DirtyOk(w)
  {
    LinkedIs(v.m, o, x);
    hide Shape, Wf, Kept, SameBlock, NoPointers, KeepsMark, Traced, DirtyOk, Linked, MarksAccounted, EntriesFit;
    forall p | p in v.marked && p != o ensures Kept(v, w, Heap(p)) && SameBlock(v, w, p) {
      OthersKept(v, w, o, p);
    }
    forall i: nat ensures Kept(v, w, InRoot(i)) && |w.m.roots| == |v.m.roots| {
      RootsAreKept(v, w, i);
    }
    RootsAreKept(v, w, 0);
    LinkedHolds(v, w, o, x);
    LinkMarks(v, w);
    LinkDirty(v, w);
  }

  lemma OthersKept(v: View, w: View, o: Obj, p: Obj)
    requires Shape(v) && w.m == v.m.(words := w.m.words) && w.m.words.Keys == v.m.words.Keys && o in v.m.words && p != o && p in v.marked
    requires (p in v.m.words ==> w.m.words[p] == v.m.words[p]) && v.lapsed <= w.lapsed
    ensures Kept(v, w, Heap(p)) && SameBlock(v, w, p)
  {
    hide Shape;
    MarkedHasHome(v, p);
  }

  lemma RootsAreKept(v: View, w: View, i: nat)
    requires w.m == v.m.(words := w.m.words) && w.m.words.Keys == v.m.words.Keys && v.lapsed <= w.lapsed
    ensures Kept(v, w, InRoot(i)) && |w.m.roots| == |v.m.roots|
  {
  }

  lemma LinkMarks(v: View, w: View)
    requires Shape(v) && w.m == v.m.(words := w.m.words) && w.m.words.Keys == v.m.words.Keys && w.marked == v.marked
    requires forall p | p in v.m.words :: |w.m.words[p]| == |v.m.words[p]|
    ensures MarksAccounted(v, w) && EntriesFit(v, w)
  {
    hide EntryOk, Wf;
  }

  lemma LinkDirty(v: View, w: View)
    requires DirtyOk(v) && w.m == v.m.(words := w.m.words)
    requires w.written == v.written && w.dirty == v.dirty && w.dirtyMaintained == v.dirtyMaintained
    ensures DirtyOk(w)
  {
  }

  lemma LinkLapsed(v: View, w: View, o: Obj, x: Word)
    requires LapsedOk(v) && o in v.m.words && |v.m.words[o]| > 0 && w.m == Linked(v.m, o, x)
    requires w.free == v.free + {o} && w.lapsed == LapsedWith(v, w.m, o)
    ensures LapsedOk(w)
  {
    LinkedIs(v.m, o, x);
    hide Linked;
    forall s: Src, k: nat, t: Obj | PointsTo(w.m, s, k, t) && t in w.free ensures (s, k) in w.lapsed {
      if t != o && (s, k) != (Heap(o), 0) {
        assert PointsTo(v.m, s, k, t);
      }
    }
  }

  // ----- the end of a collection clears the marks of slots on free lists

  // GC_clear_fl_marks, one slot.  With parallel marking a count is not decremented to zero.
  method ClearFlMark(mk: Marker, o: Obj, parallel: bool)
    requires Prepared(mk.V()) && LapsedOk(mk.V()) && o in mk.m.words && o in mk.free && (!mk.exact ==> parallel)
    modifies mk`marked, mk`nMarks, mk`bound, mk`exact
    ensures Prepared(mk.V()) && (old(Ready(mk.V())) ==> Ready(mk.V())) && LapsedOk(mk.V()) && (!mk.exact ==> parallel)
    ensures mk.marked == old(mk.marked) - {o}
  {
    hide Prepared, Ready, LapsedOk;
    if o in mk.marked {
      ghost var v := mk.V();
      MarkIsCounted(v, o);
      var a := mk.m.home[o];
      var n := mk.nMarks[a] - 1;
      mk.marked := mk.marked - {o};
      mk.bound := mk.m.words.Keys;
      if n != 0 || !parallel {
        mk.nMarks := mk.nMarks[a := n];
      } else {
        mk.exact := false;
      }
      UnmarkKeeps(v, mk.V(), o);
    }
  }

  lemma MarkIsCounted(v: View, o: Obj)
    requires Prepared(v) && o in v.marked && o in v.m.words
    ensures o in v.m.home && v.m.home[o] in v.nMarks && v.nMarks[v.m.home[o]] > 0
  {
    hide Prepared, Shape, CountsOk, Wf, DirtyOk, BoundOk, FlagsOk;
    PreparedFacts(v);
    HomeOf(v, o);
    InItsBlock(v.m, o);
    ZeroCountIffEmpty(v, v.m.home[o]);
  }

  lemma InItsBlock(m: Memory, o: Obj)
    requires Wf(m) && o in m.words
    ensures o in m.home && m.home[o] in m.blocks && o in m.blocks[m.home[o]].objs
    ensures forall a | a in m.blocks && a != m.home[o] :: o !in m.blocks[a].objs
  {
  }

  lemma UnmarkKeeps(v: View, w: View, o: Obj)
    requires Prepared(v) && LapsedOk(v) && o in v.m.words && o in v.free && o in v.m.home && v.m.home[o] in v.nMarks && v.m.home[o] in w.nMarks
    requires o in v.marked && v.nMarks[v.m.home[o]] > 0
    requires w == v.(marked := v.marked - {o}, nMarks := w.nMarks, bound := v.m.words.Keys, exact := w.exact)
    requires (w.exact == v.exact && (w.exact || w.nMarks[v.m.home[o]] != 0) && w.nMarks == v.nMarks[v.m.home[o] := v.nMarks[v.m.home[o]] - 1])
             || (!w.exact && w.nMarks == v.nMarks)
    ensures Prepared(w) && (Ready(v) ==> Ready(w)) && LapsedOk(w)
  {
    hide Prepared, Ready, Wf, CountsOk, DirtyOk, Mutation, LapsedOk, Shape;
    PreparedFacts(v);
    UnmarkCounts(v, w, o);
    UnmarkIsMutation(v, w, o);
    MutationKeepsInvariant(v, w);
    SameLapsed(v, w);
  }

  lemma UnmarkCounts(v: View, w: View, o: Obj)
    requires Wf(v.m) && CountsOk(v) && o in v.m.words && o in v.m.home && v.m.home[o] in v.nMarks && v.m.home[o] in w.nMarks
    requires o in v.marked && v.nMarks[v.m.home[o]] > 0
    requires w == v.(marked := v.marked - {o}, nMarks := w.nMarks, bound := v.m.words.Keys, exact := w.exact)
    requires (w.exact == v.exact && (w.exact || w.nMarks[v.m.home[o]] != 0) && w.nMarks == v.nMarks[v.m.home[o] := v.nMarks[v.m.home[o]] - 1])
             || (!w.exact && w.nMarks == v.nMarks)
    ensures CountsOk(w)
  {
    InItsBlock(v.m, o);
    hide Wf;
    forall b | b in w.m.blocks ensures b in w.nMarks && CountOk(w.exact, w.nMarks[b], |w.marked * w.m.blocks[b].objs|) {
      MeetLess(v.marked, v.m.blocks[b].objs, o);
    }
  }

  lemma MeetLess(s: set<Obj>, b: set<Obj>, o: Obj)
    ensures |(s - {o}) * b| == |s * b| - if o in s && o in b then 1 else 0
  {
    assert (s - {o}) * b == s * b - {o};
  }

  lemma UnmarkIsMutation(v: View, w: View, o: Obj)
    requires Shape(v) && DirtyOk(v) && o in v.free
    requires w == v.(marked := v.marked - {o}, nMarks := w.nMarks, bound := v.m.words.Keys, exact := w.exact)
    ensures Mutation(v, w) && DirtyOk(w)
  {
    hide Wf, EntryOk;
    forall p | p in w.marked && Traced(w.m, p) ensures Kept(v, w, Heap(p)) && SameBlock(v, w, p) {
    }
  }

  // ----- a new block, with n fresh slots

  function Slots(lo: Obj, n: nat): (s: set<Obj>)
    ensures |s| == n && forall o: Obj :: o in s <==> lo <= o < lo + n
  {
    if n == 0 then {} else Slots(lo, n - 1) + {lo + n - 1}
  }

  /** The block [a, a + pages) overlaps no block in use. */
  predicate Vacant(m: Memory, a: nat, pages: nat) {
    a !in m.blocks && 0 < a && 0 < pages && forall b | b in m.blocks :: b + m.blocks[b].pages <= a || a + pages <= b
  }

  function AllAt(os: set<Obj>, a: nat): (r: map<Obj, nat>)
    ensures r.Keys == os && forall o | o in os :: r[o] == a
  {
    map o | o in os :: a
  }

  function AllBlank(os: set<Obj>, n: nat): (r: map<Obj, seq<Word>>)
    ensures r.Keys == os && forall o | o in os :: r[o] == Blank(n)
  {
    map o | o in os :: Blank(n)
  }

  function WithBlock(m: Memory, a: nat, pages: nat, kind: Kind, granules: nat, n: nat): Memory {
    var os := Slots(m.next, n);
    m.(blocks := m.blocks[a := Block(pages, kind, granules, os)],
       home := m.home + AllAt(os, a),
       words := m.words + AllBlank(os, 2 * granules),
       next := m.next + n)
  }

  lemma BlockWf(m: Memory, a: nat, pages: nat, kind: Kind, granules: nat, n: nat)
    requires Wf(m) && Vacant(m, a, pages) && granules > 0 && n <= MAX_OBJS
    ensures Wf(WithBlock(m, a, pages, kind, granules, n))
  {
    hide Wf, BlocksOk, WithBlock, Slots;
    NewBlocksOk(m, a, pages, kind, granules, n);
    SlotsAreNew(m, n);
    WithBlockIs(m, a, pages, kind, granules, n);
    MoreWords(m, WithBlock(m, a, pages, kind, granules, n), a, granules, n, Slots(m.next, n));
  }

  lemma MoreWords(m: Memory, r: Memory, a: nat, granules: nat, n: nat, os: set<Obj>)
    requires Wf(m) && BlocksOk(r) && m.words.Keys !! os && granules > 0 && forall o | o in os :: m.next <= o < r.next
    requires r.words.Keys == r.home.Keys == m.words.Keys + os && r.roots == m.roots && r.stale == m.stale && r.next == m.next + n
    requires a !in m.blocks && a in r.blocks && r.blocks[a].objs == os && forall b | b in m.blocks :: b in r.blocks && r.blocks[b] == m.blocks[b]
    requires forall o | o in os :: r.home[o] == a && r.words[o] == Blank(2 * granules)
    requires forall o | o in m.words :: r.home[o] == m.home[o] && r.words[o] == m.words[o]
    ensures Wf(r)
  {
    hide BlocksOk;
    forall o, k: nat | o in r.words && k < |r.words[o]| && r.words[o][k].Pointer? ensures r.words[o][k].target < r.next {
      assert o !in os;
    }
  }

  // The memory with the new block, piece by piece.
  lemma WithBlockIs(m: Memory, a: nat, pages: nat, kind: Kind, granules: nat, n: nat)
    requires m.words.Keys !! Slots(m.next, n) && m.home.Keys == m.words.Keys && a !in m.blocks
    ensures var r := WithBlock(m, a, pages, kind, granules, n);
            var os := Slots(m.next, n);
            && r.words.Keys == r.home.Keys == m.words.Keys + os
            && (forall o | o in os :: r.home[o] == a && r.words[o] == Blank(2 * granules))
            && (forall o | o in m.words :: r.home[o] == m.home[o] && r.words[o] == m.words[o])
            && r.blocks == m.blocks[a := Block(pages, kind, granules, os)] && r.roots == m.roots && r.stale == m.stale && r.next == m.next + n
            && (forall o | o in os :: m.next <= o < r.next)
  {
    hide Slots, AllAt, AllBlank, Blank;
  }

  lemma NewBlocksOk(m: Memory, a: nat, pages: nat, kind: Kind, granules: nat, n: nat)
    requires Wf(m) && Vacant(m, a, pages) && n <= MAX_OBJS
    ensures BlocksOk(WithBlock(m, a, pages, kind, granules, n))
  {
    hide Wf, BlocksOk, WithBlock, Slots;
    SlotsAreNew(m, n);
    WithBlockIs(m, a, pages, kind, granules, n);
    OneMoreBlock(m, WithBlock(m, a, pages, kind, granules, n), a, Block(pages, kind, granules, Slots(m.next, n)));
  }

  lemma OneMoreBlock(m: Memory, r: Memory, a: nat, k: Block)
    requires BlocksOk(m) && Vacant(m, a, k.pages) && r.blocks == m.blocks[a := k] && |k.objs| <= MAX_OBJS
    requires forall b | b in m.blocks :: m.blocks[b].objs <= m.words.Keys
    requires forall o | o in m.words :: o in r.home && o in m.home && r.home[o] == m.home[o]
    requires forall o | o in k.objs :: o in r.home && r.home[o] == a
    ensures BlocksOk(r)
  {
    forall b, o | b in r.blocks && o in r.blocks[b].objs ensures o in r.home && r.home[o] == b {
      assert b != a ==> o in m.words;
    }
  }

  lemma SlotsAreNew(m: Memory, n: nat)
    requires Wf(m)
    ensures m.words.Keys !! Slots(m.next, n) && m.home.Keys == m.words.Keys
    ensures forall b | b in m.blocks :: m.blocks[b].objs <= m.words.Keys
    ensures BlocksOk(m)
  {
  }

  // The slots of a new uncollectable block are all marked.
  method NewBlock(mk: Marker, a: nat, pages: nat, kind: Kind, granules: nat, n: nat)
    requires Prepared(mk.V()) && LapsedOk(mk.V()) && Vacant(mk.m, a, pages) && granules > 0 && n <= MAX_OBJS
    modifies mk`m, mk`marked, mk`nMarks, mk`bound
    ensures Prepared(mk.V()) && (old(Ready(mk.V())) ==> Ready(mk.V())) && LapsedOk(mk.V())
    ensures mk.m == WithBlock(old(mk.m), a, pages, kind, granules, n)
    ensures mk.marked == old(mk.marked) + if IsUncollectable(kind) then Slots(old(mk.m.next), n) else {}
  {
    hide Prepared, Ready, Vacant, WithBlock, Slots, LapsedOk;
    ghost var v := mk.V();
    var marks := IsUncollectable(kind);
    mk.marked := mk.marked + if marks then Slots(mk.m.next, n) else {};
    mk.nMarks := mk.nMarks[a := if marks then n else 0];
    mk.m := WithBlock(mk.m, a, pages, kind, granules, n);
    mk.bound := mk.m.words.Keys;
    BlockKeeps(v, mk.V(), a, pages, kind, granules, n);
  }

  lemma BlockKeeps(v: View, w: View, a: nat, pages: nat, kind: Kind, granules: nat, n: nat)
    requires Prepared(v) && LapsedOk(v) && Vacant(v.m, a, pages) && granules > 0 && n <= MAX_OBJS
    requires w == v.(m := WithBlock(v.m, a, pages, kind, granules, n), marked := w.marked, nMarks := w.nMarks, bound := w.m.words.Keys)
    requires w.marked == v.marked + if IsUncollectable(kind) then Slots(v.m.next, n) else {}
    requires w.nMarks == v.nMarks[a := if IsUncollectable(kind) then n else 0]
    ensures Prepared(w) && (Ready(v) ==> Ready(w)) && LapsedOk(w)
  {
    hide Prepared, Ready, Wf, CountsOk, DirtyOk, Mutation, Vacant, WithBlock, Shape, BoundOk, Slots, LapsedOk;
    PreparedFacts(v);
    BlockWf(v.m, a, pages, kind, granules, n);
    BlockCounts(v, w, a, pages, kind, granules, n);
    BlockIsMutation(v, w, a, pages, kind, granules, n);
    MutationKeepsInvariant(v, w);
    BlockLapsed(v, w, a, pages, kind, granules, n);
  }

  // No word leads to a slot of the new block, and the slots are blank.
  lemma BlockLapsed(v: View, w: View, a: nat, pages: nat, kind: Kind, granules: nat, n: nat)
    requires LapsedOk(v) && Wf(v.m) && Vacant(v.m, a, pages) && w.m == WithBlock(v.m, a, pages, kind, granules, n)
    requires w.free == v.free && w.lapsed == v.lapsed
    ensures LapsedOk(w)
  {
    hide WithBlock, Wf, Vacant, PointsTo;
    forall s: Src, k: nat, t: Obj | PointsTo(w.m, s, k, t) && t in w.free ensures (s, k) in w.lapsed {
      PointedBefore(v.m, a, pages, kind, granules, n, s, k, t);
    }
  }

  lemma PointedBefore(m: Memory, a: nat, pages: nat, kind: Kind, granules: nat, n: nat, s: Src, k: nat, t: Obj)
    requires Wf(m) && Vacant(m, a, pages) && PointsTo(WithBlock(m, a, pages, kind, granules, n), s, k, t)
    ensures PointsTo(m, s, k, t)
  {
    SlotsAreNew(m, n);
    StaleIsOld(m);
    WithBlockIs(m, a, pages, kind, granules, n);
    hide WithBlock, Wf, Slots, Blank;
    PointsIn(m, WithBlock(m, a, pages, kind, granules, n), granules, Slots(m.next, n), s, k, t);
  }

  lemma PointsIn(m: Memory, r: Memory, granules: nat, os: set<Obj>, s: Src, k: nat, t: Obj)
    requires Wf(m) && PointsTo(r, s, k, t) && r.words.Keys == m.words.Keys + os && m.words.Keys !! os
    requires forall o | o in os :: r.words[o] == Blank(2 * granules) && m.next <= o
    requires r.roots == m.roots && r.stale == m.stale && forall o | o in m.words :: r.words[o] == m.words[o]
    ensures PointsTo(m, s, k, t)
  {
    TargetsAreOld(m);
    StaleIsOld(m);
    hide Wf;
    if s.Heap? && s.o in os { assert false; }
    assert WordsOf(r, s) == WordsOf(m, s);
  }

  lemma TargetsAreOld(m: Memory)
    requires Wf(m)
    ensures forall s: Src, k: nat | k < |WordsOf(m, s)| && WordsOf(m, s)[k].Pointer? :: WordsOf(m, s)[k].target < m.next
  {
    hide BlocksOk;
  }

  lemma ShapeHasWf(v: View)
    requires Shape(v)
    ensures Wf(v.m)
  {
  }

  lemma BlockCounts(v: View, w: View, a: nat, pages: nat, kind: Kind, granules: nat, n: nat)
    requires Shape(v) && CountsOk(v) && Vacant(v.m, a, pages) && w.m == WithBlock(v.m, a, pages, kind, granules, n)
    requires w.marked == v.marked + if IsUncollectable(kind) then Slots(v.m.next, n) else {}
    requires w.nMarks == v.nMarks[a := if IsUncollectable(kind) then n else 0] && w.exact == v.exact
    ensures CountsOk(w)
  {
    ShapeHasWf(v);
    SlotsAreNew(v.m, n);
    WithBlockIs(v.m, a, pages, kind, granules, n);
    var os := Slots(v.m.next, n);
    assert v.marked <= v.m.words.Keys;
    hide Shape, Wf, BlocksOk, WithBlock, Slots, CountsOk, Vacant;
    forall b | b in v.m.blocks ensures |w.marked * v.m.blocks[b].objs| == |v.marked * v.m.blocks[b].objs| {
      MeetOld(v.marked, w.marked, os, v.m.blocks[b].objs);
    }
    MeetNew(v.marked, w.marked, os, IsUncollectable(kind));
    MoreCounts(v, w, a);
  }

  lemma MoreCounts(v: View, w: View, a: nat)
    requires CountsOk(v) && a in w.m.blocks && w.m.blocks == v.m.blocks[a := w.m.blocks[a]] && a in w.nMarks
    requires forall b | b in v.m.blocks :: |w.marked * v.m.blocks[b].objs| == |v.marked * v.m.blocks[b].objs|
    requires w.nMarks == v.nMarks[a := |w.marked * w.m.blocks[a].objs|] && w.exact == v.exact
    ensures CountsOk(w)
  {
    forall b | b in w.m.blocks ensures b in w.nMarks && CountOk(w.exact, w.nMarks[b], |w.marked * w.m.blocks[b].objs|) {
      assert b != a ==> b in v.nMarks && CountOk(v.exact, v.nMarks[b], |v.marked * v.m.blocks[b].objs|);
    }
  }

  lemma MeetNew(s: set<Obj>, t: set<Obj>, os: set<Obj>, marks: bool)
    requires s !! os && t == s + if marks then os else {}
    ensures |t * os| == if marks then |os| else 0
  {
    assert t * os == if marks then os else {};
  }

  lemma MeetOld(s: set<Obj>, t: set<Obj>, os: set<Obj>, b: set<Obj>)
    requires b !! os && s <= t <= s + os
    ensures |t * b| == |s * b|
  {
    assert t * b == s * b;
  }

  lemma BlockIsMutation(v: View, w: View, a: nat, pages: nat, kind: Kind, granules: nat, n: nat)
    requires Shape(v) && DirtyOk(v) && Vacant(v.m, a, pages)
    requires w == v.(m := WithBlock(v.m, a, pages, kind, granules, n), marked := w.marked, nMarks := w.nMarks, bound := w.m.words.Keys)
    requires w.marked == v.marked + if IsUncollectable(kind) then Slots(v.m.next, n) else {}
    ensures Mutation(v, w) && DirtyOk(w)
  {
    hide EntryOk, Wf, Kept, SameBlock, NoPointers, WithBlock, BlocksOk;
    forall p | p in v.marked && Traced(w.m, p) ensures Kept(v, w, Heap(p)) && SameBlock(v, w, p) {
      OtherObjectKept(v, w, a, pages, kind, granules, n, p);
    }
    forall p | p in Slots(v.m.next, n) ensures NoPointers(w, p) {
      NewObjectBlank(v, w, a, pages, kind, granules, n, p);
    }
    forall i: nat ensures Kept(v, w, InRoot(i)) {
      RootsKept(v, w, a, pages, kind, granules, n, i);
    }
    StackKept(v, w, a, pages, kind, granules, n);
    NewBlockDirty(v, w, a, pages, kind, granules, n);
  }

  lemma OtherObjectKept(v: View, w: View, a: nat, pages: nat, kind: Kind, granules: nat, n: nat, p: Obj)
    requires Shape(v) && Vacant(v.m, a, pages) && w.m == WithBlock(v.m, a, pages, kind, granules, n) && p in v.marked && w.lapsed == v.lapsed
    ensures Kept(v, w, Heap(p)) && SameBlock(v, w, p)
  {
    hide EntryOk;
  }

  lemma NewObjectBlank(v: View, w: View, a: nat, pages: nat, kind: Kind, granules: nat, n: nat, p: Obj)
    requires w.m == WithBlock(v.m, a, pages, kind, granules, n) && p in Slots(v.m.next, n)
    ensures NoPointers(w, p)
  {
  }

  lemma RootsKept(v: View, w: View, a: nat, pages: nat, kind: Kind, granules: nat, n: nat, i: nat)
    requires Shape(v) && w.m == WithBlock(v.m, a, pages, kind, granules, n) && w.lapsed == v.lapsed
    ensures Kept(v, w, InRoot(i))
  {
    ShapeWf(v);
    WithBlockKeys(v.m, a, pages, kind, granules, n);
    assert w.m.roots == v.m.roots;
    hide EntryOk, WithBlock, BlocksOk, Shape, KeepsMark;
  }

  lemma StackKept(v: View, w: View, a: nat, pages: nat, kind: Kind, granules: nat, n: nat)
    requires Shape(v) && Vacant(v.m, a, pages) && w.m == WithBlock(v.m, a, pages, kind, granules, n)
    requires w.marked == v.marked + if IsUncollectable(kind) then Slots(v.m.next, n) else {}
    ensures EntriesFit(v, w) && MarksAccounted(v, w) && |w.m.roots| == |v.m.roots|
  {
    SlotsAreNew(v.m, n);
    hide Wf, EntriesFit, MarksAccounted, BlocksOk, EntryOk, WithBlock;
    EntriesOnOldBlocks(v, w, a, pages, kind, granules, n);
    MarksOnNewBlock(v, w, a, pages, kind, granules, n);
  }

  lemma EntriesOnOldBlocks(v: View, w: View, a: nat, pages: nat, kind: Kind, granules: nat, n: nat)
    requires Shape(v) && w.m == WithBlock(v.m, a, pages, kind, granules, n) && a !in v.m.blocks
    requires v.m.words.Keys !! Slots(v.m.next, n)
    ensures EntriesFit(v, w) && |w.m.roots| == |v.m.roots|
  {
    hide Shape, WithBlock, Wf, EntryOk, Slots, Blank;
    ShapeWf(v);
    StaleIsOld(v.m);
    WithBlockIs(v.m, a, pages, kind, granules, n);
    forall i | 0 <= i < |v.stack| ensures |WordsOf(w.m, v.stack[i].src)| == |WordsOf(v.m, v.stack[i].src)| {
      StackEntryOk(v, i);
    }
  }

  lemma StackEntryOk(v: View, i: nat)
    requires Shape(v) && i < |v.stack|
    ensures |WordsOf(v.m, v.stack[i].src)| > 0
  {
    assert EntryOk(v.m, v.bound, v.stack[i]);
  }

  lemma StaleIsOld(m: Memory)
    requires Wf(m)
    ensures m.home.Keys == m.words.Keys && forall o | o in m.stale :: o < m.next && o !in m.words
  {
  }

  lemma MarksOnNewBlock(v: View, w: View, a: nat, pages: nat, kind: Kind, granules: nat, n: nat)
    requires Shape(v) && Vacant(v.m, a, pages) && w.m == WithBlock(v.m, a, pages, kind, granules, n)
    requires w.marked == v.marked + if IsUncollectable(kind) then Slots(v.m.next, n) else {}
    requires v.m.words.Keys !! Slots(v.m.next, n) && v.m.home.Keys == v.m.words.Keys
    ensures MarksAccounted(v, w)
  {
    hide Wf, EntryOk, KeepsMark, WithBlock, Vacant;
    WithBlockKeys(v.m, a, pages, kind, granules, n);
    forall o | o in v.marked && KeepsMark(v.m, o) ensures KeepsMark(w.m, o) {
      OldKeepsMark(v.m, a, pages, kind, granules, n, o);
    }
  }

  lemma WithBlockKeys(m: Memory, a: nat, pages: nat, kind: Kind, granules: nat, n: nat)
    ensures var r := WithBlock(m, a, pages, kind, granules, n);
            r.words.Keys == m.words.Keys + Slots(m.next, n)
            && (IsUncollectable(kind) ==> forall o | o in Slots(m.next, n) :: KeepsMark(r, o))
  {
    hide Slots, IsUncollectable, AllAt, AllBlank, Blank;
  }

  lemma OldKeepsMark(m: Memory, a: nat, pages: nat, kind: Kind, granules: nat, n: nat, o: Obj)
    requires Vacant(m, a, pages) && KeepsMark(m, o) && o !in Slots(m.next, n)
    ensures KeepsMark(WithBlock(m, a, pages, kind, granules, n), o)
  {
  }

  lemma NewBlockDirty(v: View, w: View, a: nat, pages: nat, kind: Kind, granules: nat, n: nat)
    requires Shape(v) && DirtyOk(v) && Vacant(v.m, a, pages) && w.m == WithBlock(v.m, a, pages, kind, granules, n)
    requires w.written == v.written && w.dirty == v.dirty && w.dirtyMaintained == v.dirtyMaintained
    ensures DirtyOk(w)
  {
    hide EntryOk, PageIn;
    forall o | o in w.written && o in w.m.home && w.m.home[o] in w.m.blocks
      ensures w.dirtyMaintained ==> PageIn(w.dirty, w.m.home[o], w.m.blocks[w.m.home[o]].pages)
    {
      assert o in v.m.words;
    }
  }

  // ----- a block is given back: by the sweep, or by GC_free for a large object

  function WithoutBlock(m: Memory, a: nat): Memory
    requires a in m.blocks
  {
    var os := m.blocks[a].objs;
    m.(blocks := m.blocks - {a}, home := m.home - os, words := m.words - os,
       stale := m.stale + map o | o in os && o in m.words :: m.words[o])
  }

  lemma FreeWf(m: Memory, a: nat)
    requires Wf(m) && a in m.blocks
    ensures Wf(WithoutBlock(m, a))
  {
    hide Wf, WithoutBlock;
    ObjsOfBlock(m, a);
    StaleIsOld(m);
    WithoutBlockIs(m, a);
    FewerWords(m, WithoutBlock(m, a), a);
  }

  // The memory without the block, piece by piece.
  lemma WithoutBlockIs(m: Memory, a: nat)
    requires Wf(m) && a in m.blocks
    ensures var r := WithoutBlock(m, a);
            && r.roots == m.roots && r.next == m.next && r.blocks == m.blocks - {a} && r.home.Keys == r.words.Keys
            && (forall o :: o in r.words <==> o in m.words && o !in m.blocks[a].objs)
            && (forall o | o in r.words :: r.words[o] == m.words[o] && r.home[o] == m.home[o])
            && (forall o :: o in r.stale <==> o in m.stale || (o in m.words && o in m.blocks[a].objs))
            && (forall o | o in r.stale :: r.stale[o] == if o in m.words then m.words[o] else m.stale[o])
  {
    StaleIsOld(m);
    ObjsOfBlock(m, a);
    hide Wf;
  }

  // The objects of a block are those whose home it is.
  lemma ObjsOfBlock(m: Memory, a: nat)
    requires Wf(m) && a in m.blocks
    ensures forall o | o in m.words :: o in m.home && (o in m.blocks[a].objs <==> m.home[o] == a)
    ensures m.home.Keys == m.words.Keys
  {
  }

  lemma FewerWords(m: Memory, r: Memory, a: nat)
    requires Wf(m) && r.roots == m.roots && r.next == m.next && r.home.Keys == r.words.Keys
    requires forall b | b in r.blocks :: b in m.blocks && r.blocks[b] == m.blocks[b] && b != a
    requires forall b | b in m.blocks && b != a :: b in r.blocks
    requires m.home.Keys == m.words.Keys && forall o :: o in r.words <==> o in m.words && m.home[o] != a
    requires forall o | o in r.words :: r.words[o] == m.words[o] && r.home[o] == m.home[o]
    requires forall o | o in r.stale :: (o in m.stale || o in m.words) && o !in r.words && r.stale[o] == if o in m.words then m.words[o] else m.stale[o]
    ensures Wf(r)
  {
    hide BlocksOk;
    assert BlocksOk(m);
    assert forall b, o | b in m.blocks && o in m.blocks[b].objs :: o in m.home && m.home[o] == b by { HomesOk(m); }
    assert BlocksOk(r) by { FewerBlocksOk(m, r, a); }
  }

  lemma HomesOk(m: Memory)
    requires BlocksOk(m)
    ensures forall b, o | b in m.blocks && o in m.blocks[b].objs :: o in m.home && m.home[o] == b
  {
  }

  lemma FewerBlocksOk(m: Memory, r: Memory, a: nat)
    requires BlocksOk(m) && m.home.Keys == m.words.Keys && r.home.Keys == r.words.Keys
    requires forall b | b in r.blocks :: b in m.blocks && r.blocks[b] == m.blocks[b] && b != a
    requires forall o :: o in r.words <==> o in m.words && m.home[o] != a
    requires forall o | o in r.words :: r.home[o] == m.home[o]
    ensures BlocksOk(r)
  {
  }

  method FreeBlock(mk: Marker, a: nat)
    requires Prepared(mk.V()) && LapsedOk(mk.V()) && a in mk.m.blocks
    modifies mk`m, mk`marked, mk`bound, mk`free
    ensures Prepared(mk.V()) && (old(Ready(mk.V())) ==> Ready(mk.V())) && LapsedOk(mk.V())
    ensures mk.m == WithoutBlock(old(mk.m), a) && mk.marked == old(mk.marked) - old(mk.m.blocks)[a].objs
    ensures mk.free == old(mk.free) - old(mk.m.blocks)[a].objs
  {
    hide Prepared, Ready, WithoutBlock, LapsedOk;
    ghost var v := mk.V();
    mk.marked := mk.marked - mk.m.blocks[a].objs;
    mk.free := mk.free - mk.m.blocks[a].objs;
    mk.m := WithoutBlock(mk.m, a);
    mk.bound := mk.m.words.Keys;
    FreeKeeps(v, mk.V(), a);
  }

  lemma FreeKeeps(v: View, w: View, a: nat)
    requires Prepared(v) && LapsedOk(v) && a in v.m.blocks
    requires w == v.(m := WithoutBlock(v.m, a), marked := v.marked - v.m.blocks[a].objs, bound := w.m.words.Keys,
                     free := v.free - v.m.blocks[a].objs)
    ensures Prepared(w) && (Ready(v) ==> Ready(w)) && LapsedOk(w)
  {
    hide Prepared, Ready, Wf, CountsOk, DirtyOk, Mutation, WithoutBlock, LapsedOk, Shape;
    PreparedFacts(v);
    FreeWf(v.m, a);
    FreeIsMutation(v, w, a);
    MutationKeepsInvariant(v, w);
    FreeLapsed(v, w, a);
  }

  lemma FreeLapsed(v: View, w: View, a: nat)
    requires LapsedOk(v) && Wf(v.m) && a in v.m.blocks && w.m == WithoutBlock(v.m, a) && w.free <= v.free && w.lapsed == v.lapsed
    ensures LapsedOk(w)
  {
    hide WithoutBlock, Wf, PointsTo;
    forall s: Src, k: nat, t: Obj | PointsTo(w.m, s, k, t) && t in w.free ensures (s, k) in w.lapsed {
      PointedThen(v.m, a, s, k, t);
    }
  }

  lemma PointedThen(m: Memory, a: nat, s: Src, k: nat, t: Obj)
    requires Wf(m) && a in m.blocks && PointsTo(WithoutBlock(m, a), s, k, t)
    ensures PointsTo(m, s, k, t)
  {
    WithoutBlockIs(m, a);
    StaleIsOld(m);
    hide WithoutBlock, Wf;
  }

  lemma FreeIsMutation(v: View, w: View, a: nat)
    requires Shape(v) && CountsOk(v) && DirtyOk(v) && a in v.m.blocks
    requires w == v.(m := WithoutBlock(v.m, a), marked := v.marked - v.m.blocks[a].objs, bound := w.m.words.Keys,
                     free := v.free - v.m.blocks[a].objs)
    ensures Mutation(v, w) && CountsOk(w) && DirtyOk(w)
  {
    hide Shape, CountsOk, DirtyOk, Kept, SameBlock, WithoutBlock, MarksAccounted, EntriesFit;
    forall p | p in w.marked && Traced(w.m, p) ensures Kept(v, w, Heap(p)) && SameBlock(v, w, p) {
      FreeKeepsObject(v, w, a, p);
    }
    FreeKeepsRoots(v, w, a);
    FreeKeepsEntries(v, w, a);
    FreeAccounted(v, w, a);
    FreeDirty(v, w, a);
    FreeKeepsCounts(v, w, a);
  }

  lemma FreeKeepsObject(v: View, w: View, a: nat, p: Obj)
    requires Shape(v) && a in v.m.blocks && w.m == WithoutBlock(v.m, a) && p in v.marked && p !in v.m.blocks[a].objs && w.lapsed == v.lapsed
    ensures Kept(v, w, Heap(p)) && SameBlock(v, w, p)
  {
    hide Shape, Wf, WithoutBlock, BlocksOk;
    ShapeWf(v);
    WithoutBlockIs(v.m, a);
    ObjsOfBlock(v.m, a);
    MarkedHasHome(v, p);
  }

  lemma MarkedHasHome(v: View, p: Obj)
    requires Shape(v) && p in v.marked
    ensures p in v.m.words && p in v.m.home && v.m.home[p] in v.m.blocks
  {
    hide EntryOk;
  }

  lemma FreeKeepsRoots(v: View, w: View, a: nat)
    requires Shape(v) && a in v.m.blocks && w.m == WithoutBlock(v.m, a) && w.lapsed == v.lapsed
    ensures |w.m.roots| == |v.m.roots| && forall i: nat :: Kept(v, w, InRoot(i))
  {
    ShapeWf(v);
    WithoutBlockIs(v.m, a);
    hide Shape, Wf, WithoutBlock;
  }

  lemma FreeKeepsEntries(v: View, w: View, a: nat)
    requires Shape(v) && a in v.m.blocks && w.m == WithoutBlock(v.m, a)
    ensures EntriesFit(v, w)
  {
    ShapeWf(v);
    WithoutBlockIs(v.m, a);
    StaleIsOld(v.m);
    hide Shape, Wf, WithoutBlock, EntryOk;
    forall i | 0 <= i < |v.stack| ensures |WordsOf(w.m, v.stack[i].src)| == |WordsOf(v.m, v.stack[i].src)| {
      StackEntryOk(v, i);
    }
  }

  lemma FreeAccounted(v: View, w: View, a: nat)
    requires Shape(v) && a in v.m.blocks && w.m == WithoutBlock(v.m, a) && w.marked == v.marked - v.m.blocks[a].objs
    ensures MarksAccounted(v, w)
  {
    ShapeWf(v);
    WithoutBlockIs(v.m, a);
    ObjsOfBlock(v.m, a);
    hide Shape, Wf, WithoutBlock;
    forall o | o in v.marked ensures o in v.m.words && o in v.m.home && v.m.home[o] in v.m.blocks {
      MarkedHasHome(v, o);
    }
  }

  lemma FreeDirty(v: View, w: View, a: nat)
    requires Shape(v) && DirtyOk(v) && a in v.m.blocks && w.m == WithoutBlock(v.m, a)
    requires w.written == v.written && w.dirty == v.dirty && w.dirtyMaintained == v.dirtyMaintained
    ensures DirtyOk(w)
  {
    hide Shape, PageIn;
  }

  lemma FreeKeepsCounts(v: View, w: View, a: nat)
    requires Shape(v) && CountsOk(v) && a in v.m.blocks
    requires w == v.(m := WithoutBlock(v.m, a), marked := v.marked - v.m.blocks[a].objs, bound := w.bound, free := w.free)
    ensures CountsOk(w)
  {
    hide Shape, Wf, WithoutBlock;
    ShapeWf(v);
    WithoutBlockIs(v.m, a);
    forall b | b in w.m.blocks ensures b in w.nMarks && CountOk(w.exact, w.nMarks[b], |w.marked * w.m.blocks[b].objs|) {
      BlocksDisjoint(v.m, a, b);
      assert w.marked * w.m.blocks[b].objs == v.marked * v.m.blocks[b].objs;
    }
  }

  // ----- memory that was given back is used for something else

  function Overwritten(m: Memory, o: Obj, k: nat, x: Word): Memory
    requires o in m.stale && k < |m.stale[o]|
  {
    m.(stale := m.stale[o := m.stale[o][k := x]])
  }

  lemma OverwriteWf(m: Memory, o: Obj, k: nat, x: Word)
    requires Wf(m) && o in m.stale && k < |m.stale[o]| && (x.Pointer? ==> x.target < m.next)
    ensures Wf(Overwritten(m, o, k, x))
  {
    var w := Overwritten(m, o, k, x);
    hide BlocksOk;
    assert BlocksOk(w) by { SameBlocksOk(m, w); }
    assert StaleOk(w) by {
      forall p, j: nat | p in w.stale && j < |w.stale[p]| && w.stale[p][j].Pointer? ensures w.stale[p][j].target < w.next {
        assert (p == o && j == k) || w.stale[p][j] == m.stale[p][j];
      }
    }
  }

  lemma SameBlocksOk(m: Memory, w: Memory)
    requires BlocksOk(m) && w.blocks == m.blocks && w.home == m.home
    ensures BlocksOk(w)
  {
  }

  method Overwrite(mk: Marker, o: Obj, k: nat, x: Word)
    requires Prepared(mk.V()) && LapsedOk(mk.V()) && o in mk.m.stale && k < |mk.m.stale[o]| && (x.Pointer? ==> x.target < mk.m.next)
    modifies mk`m, mk`bound, mk`lapsed
    ensures Prepared(mk.V()) && (old(Ready(mk.V())) ==> Ready(mk.V())) && LapsedOk(mk.V())
    ensures mk.m == Overwritten(old(mk.m), o, k, x) && mk.lapsed == LapsedBy(old(mk.lapsed), mk.free, Heap(o), k, x)
  {
    hide Prepared, Ready, Wf, CountsOk, DirtyOk, Mutation, Overwritten, LapsedOk, LapsedBy;
    ghost var v := mk.V();
    PreparedFacts(v);
    OverwriteWf(mk.m, o, k, x);
    mk.m := Overwritten(mk.m, o, k, x);
    mk.lapsed := LapsedBy(mk.lapsed, mk.free, Heap(o), k, x);
    mk.bound := mk.m.words.Keys;
    OverwriteIsMutation(v, mk.V(), o, k, x);
    MutationKeepsInvariant(v, mk.V());
    StaleIsOld(v.m);
    OverwriteLapsed(v, mk.V(), o, k, x);
  }

  lemma OverwriteLapsed(v: View, w: View, o: Obj, k: nat, x: Word)
    requires LapsedOk(v) && o in v.m.stale && o !in v.m.words && k < |v.m.stale[o]| && w.m == Overwritten(v.m, o, k, x)
    requires w.free == v.free && w.lapsed == LapsedBy(v.lapsed, v.free, Heap(o), k, x)
    ensures LapsedOk(w)
  {
    hide LapsedOk, LapsedBy;
    StoredLapsed(v, w, Heap(o), k, x);
  }

  lemma OverwriteIsMutation(v: View, w: View, o: Obj, k: nat, x: Word)
    requires Shape(v) && CountsOk(v) && DirtyOk(v) && o in v.m.stale && k < |v.m.stale[o]|
    requires w == v.(m := Overwritten(v.m, o, k, x), bound := w.m.words.Keys, lapsed := LapsedBy(v.lapsed, v.free, Heap(o), k, x))
    ensures Mutation(v, w) && CountsOk(w) && DirtyOk(w)
  {
    hide CountsOk, DirtyOk, Shape, Wf, Kept, SameBlock, KeepsMark, MarksAccounted, EntriesFit;
    ShapeWf(v);
    StaleIsOld(v.m);
    SameCounts(v, w);
    OverwriteDirty(v, w);
    OverwriteKeeps(v, w, o, k, x);
    OverwriteMarks(v, w);
  }

  lemma OverwriteDirty(v: View, w: View)
    requires DirtyOk(v) && w == v.(m := v.m.(stale := w.m.stale), bound := w.bound, lapsed := w.lapsed)
    ensures DirtyOk(w)
  {
  }

  lemma OverwriteKeeps(v: View, w: View, o: Obj, k: nat, x: Word)
    requires Shape(v) && Wf(v.m) && o in v.m.stale && o !in v.m.words && k < |v.m.stale[o]| && w.m == Overwritten(v.m, o, k, x)
    requires w.stack == v.stack && w.lapsed == LapsedBy(v.lapsed, v.free, Heap(o), k, x)
    ensures forall p | p in v.marked && Traced(w.m, p) :: Kept(v, w, Heap(p)) && SameBlock(v, w, p)
    ensures forall i: nat :: Kept(v, w, InRoot(i))
    ensures EntriesFit(v, w)
  {
    hide Shape, Wf;
    forall p | p in v.marked ensures p in v.m.words && p in v.m.home && v.m.home[p] in v.m.blocks {
      MarkedHasHome(v, p);
    }
  }

  lemma OverwriteMarks(v: View, w: View)
    requires Shape(v) && w.m == v.m.(stale := w.m.stale) && w.marked == v.marked
    ensures MarksAccounted(v, w)
  {
    hide Wf, EntryOk;
    forall p | p in v.marked ensures p in v.m.words && p in v.m.home && v.m.home[p] in v.m.blocks {
      MarkedHasHome(v, p);
    }
  }

  // ----- when a mark phase is over

  /** Every pointer from a marked object on pages without a dirty bit leads to a marked object, unless it has
      lapsed. */
  ghost predicate CleanPagesOk(v: View) {
    forall o: Obj, k: nat ::
      && o in v.marked && OnCleanPage(v, o)
      && o in v.m.words && k < |v.m.words[o]| && v.m.words[o][k].Pointer? && v.m.words[o][k].target in v.m.words ==>
        v.m.words[o][k].target in v.marked || (Heap(o), k) in v.lapsed
  }

  /** An object that may hold pointers, and no page of its block is recorded as dirty. */
  predicate OnCleanPage(v: View, o: Obj) {
    && o in v.m.home && v.m.home[o] in v.m.blocks
    && var b := v.m.blocks[v.m.home[o]];
       && (b.kind == Normal || b.kind == Uncollectable)
       && forall p | v.m.home[o] <= p < v.m.home[o] + b.pages :: p % PHT_ENTRIES !in v.dirty
  }

  lemma CleanPagesAtEnd(v: View)
    requires Prepared(v)
    ensures v.state.Quiet? && v.dirtyMaintained ==> CleanPagesOk(v)
  {
    hide Inv, FlagsOk;
    if v.state.Quiet? && v.dirtyMaintained {
      forall o: Obj, k: nat
        | && o in v.marked && OnCleanPage(v, o) && (Heap(o), k) !in v.lapsed
          && o in v.m.words && k < |v.m.words[o]| && v.m.words[o][k].Pointer? && v.m.words[o][k].target in v.m.words
        ensures v.m.words[o][k].target in v.marked
      {
        CleanPageLeadsToMarked(v, o, k, v.m.words[o][k].target);
      }
    }
  }

  // ----- what holds of all pointers, lapsed or not

  /** Every pointer from a marked object on pages without a dirty bit leads to a marked object. */
  ghost predicate AllCleanOk(v: View) {
    forall o: Obj, k: nat, t: Obj :: o in v.marked && OnCleanPage(v, o) && PointsTo(v.m, Heap(o), k, t) ==> t in v.marked
  }

  // GC_free breaks that if and only if it links a marked slot on clean pages to an unmarked one.
  lemma FreeKeepsAllCleanIff(v: View, w: View, o: Obj, x: Word)
    requires AllCleanOk(v) && o in v.m.words && |v.m.words[o]| > 0
    requires w == v.(m := Linked(v.m, o, x), bound := w.bound, free := w.free, lapsed := w.lapsed)
    ensures AllCleanOk(w) <==>
            !(o in v.marked && OnCleanPage(v, o) && x.Pointer? && x.target in v.m.words && x.target !in v.marked)
  {
    LinkedIs(v.m, o, x);
    hide Linked;
    assert forall p: Obj :: Traced(w.m, p) == Traced(v.m, p);
    assert forall p: Obj :: OnCleanPage(w, p) == OnCleanPage(v, p);
    if o in v.marked && OnCleanPage(v, o) && x.Pointer? && x.target in v.m.words && x.target !in v.marked {
      assert PointsTo(w.m, Heap(o), 0, x.target);
    } else {
      forall p: Obj, k: nat, t: Obj | p in w.marked && OnCleanPage(w, p) && PointsTo(w.m, Heap(p), k, t) ensures t in w.marked {
        assert p != o ==> PointsTo(v.m, Heap(p), k, t);
      }
    }
  }

  // Clearing the mark of a slot on a free list breaks it if and only if another marked object on clean pages
  // still has a pointer to the slot.
  lemma UnmarkKeepsAllCleanIff(v: View, w: View, o: Obj)
    requires AllCleanOk(v) && w == v.(marked := v.marked - {o}, nMarks := w.nMarks, bound := w.bound, exact := w.exact)
    ensures AllCleanOk(w) <==> !exists p: Obj, k: nat :: p in v.marked && p != o && OnCleanPage(v, p) && PointsTo(v.m, Heap(p), k, o)
  {
    assert forall p: Obj :: OnCleanPage(w, p) == OnCleanPage(v, p);
    if p: Obj, k: nat :| p in v.marked && p != o && OnCleanPage(v, p) && PointsTo(v.m, Heap(p), k, o) {
      assert p in w.marked && OnCleanPage(w, p) && PointsTo(w.m, Heap(p), k, o);
    }
  }

  /** After a mark phase: a block with two slots, of which the first is marked. */
  ghost function TwoSlots(): View {
    View(Memory(map[1 := Block(1, Normal, 128, {0, 1})], map[0 := 1, 1 := 1], map[0 := Blank(256), 1 := Blank(256)], [], map[], 2),
         {0}, map[1 := 1], Quiet, 0, true, [], INITIAL_MARK_STACK_SIZE, true, {}, {}, {}, false, {0}, {}, true, {}, iset{})
  }

  lemma TwoSlotsReady()
    ensures var v := TwoSlots(); Ready(v) && LapsedOk(v) && AllCleanOk(v)
  {
    var v := TwoSlots();
    assert v.marked * v.m.blocks[1].objs == {0};
    assert forall s: Src, k: nat, t: Obj :: !PointsTo(v.m, s, k, t);
    TwoSlotsWf();
    assert CountsOk(v);
    hide PointsTo, Wf, CountsOk, Ready;
    NoPointersReady(v);
  }

  // Without any pointer every mark phase is at its end.
  lemma NoPointersReady(v: View)
    requires Wf(v.m) && CountsOk(v) && v.m.roots == [] && v.stack == [] && v.state.Quiet? && v.written == {} && v.watch == {}
    requires v.objectsAreMarked && v.stackSize >= INITIAL_MARK_STACK_SIZE && v.bound == v.marked <= v.m.words.Keys
    requires forall s: Src, k: nat, t: Obj :: !PointsTo(v.m, s, k, t)
    ensures Ready(v)
  {
    NoWords(v);
    NoEdges(v.m, v.bound);
    NoRoots(v.m);
    hide Wf, PageIn, Closed, Edge, RootTarget, CountsOk, PointsTo, WordOk, EntryOk;
  }

  lemma TwoSlotsWf()
    ensures Wf(TwoSlots().m)
  {
  }

  lemma NoEdges(m: Memory, c: set<Obj>)
    requires forall s: Src, k: nat, t: Obj :: !PointsTo(m, s, k, t)
    ensures Closed(m, c)
  {
    hide PointsTo;
  }

  lemma NoRoots(m: Memory)
    requires m.roots == []
    ensures forall t: Obj :: !RootTarget(m, t)
  {
    hide PointsTo;
  }

  lemma NoWords(v: View)
    requires forall s: Src, k: nat, t: Obj :: !PointsTo(v.m, s, k, t)
    ensures forall s: Src, k: nat :: WordOk(v, [], s, k)
  {
    forall s: Src, k: nat ensures WordOk(v, [], s, k) {
      var ws := WordsOf(v.m, s);
      if k < |ws| && ws[k].Pointer? { assert !PointsTo(v.m, s, k, ws[k].target); }
    }
  }

  // The client gives back the first slot while the second one is the head of the free list: a marked object on
  // clean pages leads to an unmarked one, and nothing tells the marker.
  method FreeLinksToUnmarked(mk: Marker)
    requires mk.V() == TwoSlots()
    modifies mk
    ensures Ready(mk.V()) && mk.state.Quiet? && mk.dirtyMaintained && CleanPagesOk(mk.V()) && !AllCleanOk(mk.V())
  {
    hide Ready, Prepared, LapsedOk, CleanPagesOk, AllCleanOk, Linked, LapsedWith;
    ghost var v := mk.V();
    TwoSlotsReady();
    ReadyIsPrepared(v);
    FreeSlot(mk, 0, Pointer(1));
    FreeKeepsAllCleanIff(v, mk.V(), 0, Pointer(1));
    ReadyIsPrepared(mk.V());
    CleanPagesAtEnd(mk.V());
  }
}
