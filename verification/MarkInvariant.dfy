// What holds between the steps of the marker: gc/include/private/gc_pmark.h and gc/mark.c.

module MarkInvariant {
  import opened Config
  import opened HeapGraph
  import opened Sets

  const INITIAL_MARK_STACK_SIZE: nat := 4096
  const MARK_STACK_DISCARDS: nat := 512
  const PAGE_WORDS: nat := 512        // HBLKSIZE in words

  datatype MarkState = Quiet | PushRescuers | PushUncollectable | RootsPushed | PartiallyInvalid | Invalid

  /** A mark stack entry: the words start .. start+len of an object or of a root segment. */
  datatype Entry = Entry(src: Src, start: nat, len: nat)

  datatype View = View(
    m: Memory,
    marked: set<Obj>,             // hb_marks
    nMarks: map<nat, nat>,        // hb_n_marks of each block
    state: MarkState,
    scanPtr: nat,                 // 0 stands for the null pointer
    objectsAreMarked: bool,
    stack: seq<Entry>,
    stackSize: nat,
    dirtyMaintained: bool,
    dirty: set<nat>,              // GC_dirty_pages
    grungy: set<nat>,             // GC_grungy_pages
    written: set<Obj>,            // history: objects written since the dirty bits were last read
    rootsTouched: bool,           // history: roots written since they were last pushed
    bound: set<Obj>,              // history: what may be marked; closed under pointers
    watch: set<Src>,              // history: sources that stay followed although they are not marked
    exact: bool,                  // history: nMarks has been exact so far, not only after parallel marking
    free: set<Obj>,               // history: slots put on a free list and not handed out since
    lapsed: iset<(Src, nat)>)     // history: words that hold a link between free slots, or a pointer to a slot
                                  // from before it was put on a free list

  predicate InEntry(e: Entry, s: Src, k: nat) {
    e.src == s && e.start <= k < e.start + e.len
  }

  ghost predicate OnStack(stack: seq<Entry>, s: Src, k: nat) {
    exists i | 0 <= i < |stack| :: InEntry(stack[i], s, k)
  }

  lemma OnStackAppend(a: seq<Entry>, b: seq<Entry>, s: Src, k: nat)
    ensures OnStack(a + b, s, k) <==> OnStack(a, s, k) || OnStack(b, s, k)
  {
    assert forall i | 0 <= i < |a| :: (a + b)[i] == a[i];
    assert forall i | 0 <= i < |b| :: (a + b)[|a| + i] == b[i];
  }

  // ----- Invariant I

  /** Word k of s leads to a marked object, or a range on the stack or in hand will have it examined.
      Nothing is said about words that have lapsed. */
  ghost predicate WordOk(v: View, hand: seq<Entry>, s: Src, k: nat) {
    var ws := WordsOf(v.m, s);
    k < |ws| && ws[k].Pointer? && ws[k].target in v.m.words && (s, k) !in v.lapsed ==>
      ws[k].target in v.marked || OnStack(v.stack, s, k) || OnStack(hand, s, k)
  }

  ghost predicate SrcOk(v: View, hand: seq<Entry>, s: Src) {
    forall k: nat :: WordOk(v, hand, s, k)
  }

  /** The blocks that the current scan of the heap has still to visit. */
  datatype Rest = From(h: nat) | Done

  predicate Above(r: Rest, a: nat) {
    r.From? && r.h <= a
  }

  function Bucket(page: nat): nat {
    page % PHT_ENTRIES
  }

  /** Some page of the block has its bucket in the table. */
  predicate PageIn(table: set<nat>, a: nat, pages: nat) {
    exists p :: a <= p < a + pages && Bucket(p) in table
  }

  predicate BlockWasDirty(v: View, a: nat)
    requires a in v.m.blocks
  {
    PageIn(v.grungy, a, v.m.blocks[a].pages)
  }

  /** The marker may not have followed o's pointers yet because its scan has not come to o's block. */
  predicate Pending(v: View, rest: Rest, o: Obj) {
    && o in v.m.home && v.m.home[o] in v.m.blocks
    && var a := v.m.home[o];
    match v.state
    case Quiet => false
    case PushRescuers => Above(rest, a) && BlockWasDirty(v, a)
    case PushUncollectable => Above(rest, a) && v.m.blocks[a].kind.Uncollectable?
    case RootsPushed => false
    case PartiallyInvalid => Above(rest, a)
    case Invalid => true
  }

  ghost predicate HeapI(v: View, hand: seq<Entry>, rest: Rest) {
    forall o | o in v.marked && Traced(v.m, o) ::
      o in v.written || Pending(v, rest, o) || SrcOk(v, hand, Heap(o))
  }

  ghost predicate RootsI(v: View, hand: seq<Entry>) {
    (v.state.RootsPushed? || v.state.Quiet?) && !v.rootsTouched ==>
      forall i: nat | i < |v.m.roots| :: SrcOk(v, hand, InRoot(i))
  }

  ghost predicate WatchI(v: View, hand: seq<Entry>) {
    v.state.Invalid? || forall s | s in v.watch :: SrcOk(v, hand, s)
  }

  // ----- the rest of the invariant

  ghost predicate EntryOk(m: Memory, bound: set<Obj>, e: Entry) {
    && 0 < e.len && e.start + e.len <= |WordsOf(m, e.src)|
    && forall k: nat :: InEntry(e, e.src, k) && WordsOf(m, e.src)[k].Pointer? && WordsOf(m, e.src)[k].target in m.words ==>
         WordsOf(m, e.src)[k].target in bound
  }

  ghost predicate Shape(v: View) {
    && Wf(v.m)
    && v.marked <= v.m.words.Keys
    && v.stackSize >= INITIAL_MARK_STACK_SIZE
    && |v.stack| <= v.stackSize
    && forall i | 0 <= i < |v.stack| :: EntryOk(v.m, v.bound, v.stack[i])
  }

  /** A zero count means that nothing is marked.  Helpers may count two marks as one. */
  predicate CountOk(exact: bool, count: nat, marks: nat) {
    (count == 0 ==> marks == 0) && (exact ==> count == marks)
  }

  ghost predicate CountsOk(v: View) {
    forall a | a in v.m.blocks :: a in v.nMarks && CountOk(v.exact, v.nMarks[a], |v.marked * v.m.blocks[a].objs|)
  }

  ghost predicate BoundOk(v: View) {
    && Closed(v.m, v.bound)
    && v.marked <= v.bound
    && forall t: Obj :: RootTarget(v.m, t) ==> t in v.bound
  }

  /** Every object written since the dirty bits were read is on a page recorded as dirty. */
  ghost predicate DirtyOk(v: View) {
    && (forall o | o in v.written :: o < v.m.next)
    && (v.dirtyMaintained ==>
      forall o | o in v.written && o in v.m.home && v.m.home[o] in v.m.blocks ::
        PageIn(v.dirty, v.m.home[o], v.m.blocks[v.m.home[o]].pages))
  }

  ghost predicate Inv(v: View, hand: seq<Entry>, rest: Rest) {
    && Shape(v) && CountsOk(v) && BoundOk(v) && DirtyOk(v)
    && HeapI(v, hand, rest) && RootsI(v, hand) && WatchI(v, hand)
  }

  /** While nothing collectable has been marked, only uncollectable objects carry mark bits. */
  ghost predicate FlagsOk(v: View) {
    && (!v.objectsAreMarked ==>
          forall o | o in v.marked && o in v.m.home && v.m.home[o] in v.m.blocks :: IsUncollectable(v.m.blocks[v.m.home[o]].kind))
    && (v.state.PartiallyInvalid? || v.state.RootsPushed? ==> v.objectsAreMarked)
    && (v.state.Quiet? ==> v.stack == [])
    && v.watch == {}
  }

  /** Ready for GC_mark_some. */
  ghost predicate Ready(v: View) {
    && Inv(v, [], From(v.scanPtr))
    && FlagsOk(v)
    && (v.state.Invalid? && !v.objectsAreMarked ==> v.scanPtr == 0)
  }

  // Only a block without set mark bits has a zero count, and if counts are exact every such block has.
  lemma ZeroCountIffEmpty(v: View, a: nat)
    requires CountsOk(v) && a in v.m.blocks
    ensures v.nMarks[a] == 0 ==> forall o | o in v.m.blocks[a].objs :: o !in v.marked
    ensures v.exact ==> (v.nMarks[a] == 0 <==> forall o | o in v.m.blocks[a].objs :: o !in v.marked)
  {
    var s := v.marked * v.m.blocks[a].objs;
    if v.nMarks[a] == 0 {
      assert s == {};
      assert forall o | o in v.m.blocks[a].objs && o in v.marked :: o in s;
    } else if v.exact {
      var o :| o in s;
      assert o in v.marked && o in v.m.blocks[a].objs;
    }
  }

  // ----- marking steps

  /** Nothing but marks, the stack and the flags changes. */
  predicate SameHeap(v: View, w: View) {
    && w.m == v.m && w.scanPtr == v.scanPtr && w.stackSize == v.stackSize
    && w.dirtyMaintained == v.dirtyMaintained && w.dirty == v.dirty && w.grungy == v.grungy
    && w.written == v.written && w.rootsTouched == v.rootsTouched && w.bound == v.bound && w.watch == v.watch
    && SameLists(v, w)
  }

  predicate SameLists(v: View, w: View) {
    w.exact == v.exact && w.free == v.free && w.lapsed == v.lapsed
  }

  /** The stack has grown by at most one entry for each newly marked object, unless that filled it. */
  predicate Room(v: View, w: View) {
    && |v.marked| <= |w.marked|
    && if w.state == v.state then |w.stack| + |v.marked| <= |v.stack| + |w.marked|
       else |v.stack| + |w.marked| > v.stackSize + |v.marked|
  }

  /** Marks are only added, and the state becomes Invalid only if some were. */
  predicate Grows(v: View, w: View) {
    && SameHeap(v, w)
    && v.marked <= w.marked
    && (v.objectsAreMarked ==> w.objectsAreMarked)
    && (w.state == v.state || (w.state.Invalid? && v.marked < w.marked))
    && (w.marked == v.marked ==> w.stack == v.stack)
    && Room(v, w)
  }

  /** Unless the stack overflowed, nothing was lost from it, and every newly marked object is on it. */
  ghost predicate Keeps(v: View, w: View) {
    w.state.Invalid? ||
    (&& (forall s: Src, k: nat :: OnStack(v.stack, s, k) ==> OnStack(w.stack, s, k))
     && (forall o, k: nat | o in w.marked && o !in v.marked && Traced(w.m, o) && k < |WordsOf(w.m, Heap(o))| ::
          OnStack(w.stack, Heap(o), k)))
  }

  ghost predicate Marks(v: View, w: View) {
    Shape(v) && Shape(w) && Grows(v, w) && Keeps(v, w)
  }

  lemma MarksRefl(v: View)
    requires Shape(v)
    ensures Marks(v, v)
  {
  }

  lemma MarksTrans(u: View, v: View, w: View)
    requires Marks(u, v) && Marks(v, w)
    ensures Marks(u, w)
  {
    if !w.state.Invalid? {
      assert !v.state.Invalid?;
    }
  }

  // A marking step keeps the invariant whatever is in hand and wherever the scan is.
  lemma MarksKeepInv(v: View, w: View, hand: seq<Entry>, rest: Rest)
    requires Inv(v, hand, rest) && Marks(v, w) && CountsOk(w) && w.marked <= w.bound
    ensures Inv(w, hand, rest)
  {
    hide Wf, SrcOk, EntryOk, Room;
    if !w.state.Invalid? {
      forall o | o in w.marked && Traced(w.m, o)
        ensures o in w.written || Pending(w, rest, o) || SrcOk(w, hand, Heap(o))
      {
        if o !in v.marked {
          NewlyMarkedOk(v, w, hand, o);
        } else if SrcOk(v, hand, Heap(o)) {
          SrcStaysOk(v, w, hand, Heap(o));
        }
      }
      if RootsI(v, hand) && (w.state.RootsPushed? || w.state.Quiet?) && !w.rootsTouched {
        forall i: nat | i < |w.m.roots| ensures SrcOk(w, hand, InRoot(i)) {
          SrcStaysOk(v, w, hand, InRoot(i));
        }
      }
      forall s | s in w.watch ensures SrcOk(w, hand, s) {
        SrcStaysOk(v, w, hand, s);
      }
    }
  }

  lemma NewlyMarkedOk(v: View, w: View, hand: seq<Entry>, o: Obj)
    requires Marks(v, w) && !w.state.Invalid? && o in w.marked && o !in v.marked && Traced(w.m, o)
    ensures SrcOk(w, hand, Heap(o))
  {
    hide Wf, EntryOk;
  }

  lemma SrcStaysOk(v: View, w: View, hand: seq<Entry>, s: Src)
    requires Marks(v, w) && !w.state.Invalid? && SrcOk(v, hand, s)
    ensures SrcOk(w, hand, s)
  {
    hide Wf, EntryOk;
    forall k: nat ensures WordOk(w, hand, s, k) {
      assert WordOk(v, hand, s, k);
    }
  }

  /** Every word that leads somewhere in v does so in w, given what is in hand. */
  ghost predicate Covers(v: View, hand: seq<Entry>, w: View, more: seq<Entry>) {
    forall s: Src, k: nat :: WordOk(v, hand, s, k) ==> WordOk(w, more, s, k)
  }

  // The marks and the scan stay as they are while ranges move between the stack and the hand.
  lemma Rearranged(v: View, hand: seq<Entry>, w: View, more: seq<Entry>, rest: Rest)
    requires Inv(v, hand, rest) && Covers(v, hand, w, more)
    requires w == v.(stack := w.stack, objectsAreMarked := w.objectsAreMarked) && Shape(w)
    ensures Inv(w, more, rest)
  {
    hide Wf, EntryOk, WordOk;
    assert forall s: Src | SrcOk(v, hand, s) :: SrcOk(w, more, s);
    assert HeapI(w, more, rest);
    assert RootsI(w, more);
    assert WatchI(w, more);
  }

  // Words can be taken out of the hand once they lead to marked objects or to nothing.
  lemma HandShrinks(v: View, hand: seq<Entry>, less: seq<Entry>, rest: Rest)
    requires Inv(v, hand, rest)
    requires forall s: Src, k: nat :: OnStack(hand, s, k) && !OnStack(less, s, k) ==> WordOk(v, less, s, k)
    ensures Inv(v, less, rest)
  {
    hide Wf, EntryOk;
    Rearranged(v, hand, v, less, rest);
  }

  // A range is taken off the stack: what of it is not put back is in hand.
  lemma TakeOff(v: View, w: View, hand: seq<Entry>, rest: Rest)
    requires Inv(v, [], rest) && w == v.(stack := w.stack, objectsAreMarked := w.objectsAreMarked)
    requires Shape(w)
    requires forall s: Src, k: nat :: OnStack(v.stack, s, k) ==> OnStack(w.stack, s, k) || OnStack(hand, s, k)
    ensures Inv(w, hand, rest)
  {
    hide Wf, EntryOk;
    Rearranged(v, [], w, hand, rest);
  }

  lemma InvFacts(v: View, hand: seq<Entry>, rest: Rest)
    requires Inv(v, hand, rest)
    ensures Shape(v) && CountsOk(v) && BoundOk(v) && DirtyOk(v) && HeapI(v, hand, rest) && RootsI(v, hand) && WatchI(v, hand)
    ensures Marks(v, v)
  {
    MarksRefl(v);
  }

  lemma BoundFacts(v: View)
    requires BoundOk(v)
    ensures v.marked <= v.bound
  {
  }

  lemma HomeFacts(v: View, t: Obj)
    requires Shape(v) && CountsOk(v) && t in v.m.words
    ensures t in v.m.home && v.m.home[t] in v.m.blocks && v.m.home[t] in v.nMarks
    ensures |v.stack| <= v.stackSize && v.stackSize >= INITIAL_MARK_STACK_SIZE
  {
  }

  // Marking one more object and putting its words on the stack, with or without an overflow.
  lemma MarkOne(v: View, w: View, t: Obj)
    requires Shape(v) && CountsOk(v) && BoundOk(v) && t in v.m.words && t !in v.marked && t in v.bound
    requires w == v.(marked := v.marked + {t}, nMarks := w.nMarks, stack := w.stack, state := w.state)
    requires var a := v.m.home[t]; w.nMarks == v.nMarks[a := v.nMarks[a] + 1]
    requires if !Traced(v.m, t) then w.stack == v.stack && w.state == v.state else Pushed(v, w, t)
    ensures Marks(v, w) && CountsOk(w) && BoundOk(w)
  {
    hide Wf, EntryOk, CountsOk, Pushed, OnStack, Traced, WordsOf, Closed;
    assert Wf(v.m);
    OneMoreMark(v, w, t);
    if Traced(v.m, t) {
      PushKeeps(v, w, t);
      PushRoom(v, w, t);
    }
  }

  /** PUSH_OBJ: the object's range goes on top, after discarding entries if the stack is full. */
  predicate Pushed(v: View, w: View, t: Obj)
    requires |v.stack| <= v.stackSize && v.stackSize >= INITIAL_MARK_STACK_SIZE
  {
    var e := Entry(Heap(t), 0, |WordsOf(v.m, Heap(t))|);
    if |v.stack| < v.stackSize then w.stack == v.stack + [e] && w.state == v.state
    else w.stack == v.stack[..|v.stack| - MARK_STACK_DISCARDS] + [e] && w.state == Invalid
  }

  // Only a push onto a full stack makes the mark phase invalid.
  lemma PushRoom(v: View, w: View, t: Obj)
    requires |v.stack| <= v.stackSize && v.stackSize >= INITIAL_MARK_STACK_SIZE
    requires Pushed(v, w, t)
    ensures |w.stack| <= |v.stack| + 1
    ensures w.state != v.state ==> |v.stack| == v.stackSize
  {
  }

  lemma PushKeeps(v: View, w: View, t: Obj)
    requires Shape(v) && t in v.m.words && Traced(v.m, t) && t in v.bound && Closed(v.m, v.bound)
    requires w.m == v.m && w.bound == v.bound && w.stackSize == v.stackSize && Pushed(v, w, t)
    ensures |w.stack| <= w.stackSize
    ensures forall i | 0 <= i < |w.stack| :: EntryOk(w.m, w.bound, w.stack[i])
    ensures if |v.stack| == v.stackSize then w.state.Invalid? else w.state == v.state
    ensures |v.stack| < v.stackSize ==> forall s: Src, k: nat :: OnStack(v.stack, s, k) ==> OnStack(w.stack, s, k)
    ensures |v.stack| < v.stackSize ==> forall k: nat | k < |WordsOf(w.m, Heap(t))| :: OnStack(w.stack, Heap(t), k)
  {
    var e := Entry(Heap(t), 0, |WordsOf(v.m, Heap(t))|);
    ObjectEntryOk(v, t);
    hide Wf, EntryOk;
    if |v.stack| < v.stackSize {
      forall s: Src, k: nat ensures OnStack(w.stack, s, k) <==> OnStack(v.stack, s, k) || InEntry(e, s, k) {
        OnStackAppend(v.stack, [e], s, k);
        assert OnStack([e], s, k) <==> InEntry([e][0], s, k);
      }
    }
  }

  lemma ObjectEntryOk(v: View, t: Obj)
    requires Wf(v.m) && t in v.m.words && Traced(v.m, t) && t in v.bound && Closed(v.m, v.bound)
    ensures EntryOk(v.m, v.bound, Entry(Heap(t), 0, |v.m.words[t]|))
  {
    forall k: nat | k < |v.m.words[t]| && v.m.words[t][k].Pointer? && v.m.words[t][k].target in v.m.words
      ensures v.m.words[t][k].target in v.bound
    {
      assert PointsTo(v.m, Heap(t), k, v.m.words[t][k].target);
      assert Edge(v.m, t, v.m.words[t][k].target);
    }
  }

  lemma OneMoreMark(v: View, w: View, t: Obj)
    requires Wf(v.m) && w.m == v.m && w.exact == v.exact && CountsOk(v) && t in v.m.words && t !in v.marked
    requires w.marked == v.marked + {t}
    requires var a := v.m.home[t]; w.nMarks == v.nMarks[a := v.nMarks[a] + 1]
    ensures CountsOk(w)
  {
    assert forall a | a in v.m.blocks && t in v.m.blocks[a].objs :: a == v.m.home[t];
    assert t in v.m.blocks[v.m.home[t]].objs;
    hide Wf;
    forall a | a in w.m.blocks ensures a in w.nMarks && CountOk(w.exact, w.nMarks[a], |w.marked * w.m.blocks[a].objs|) {
      CountOneMore(v.marked, v.m.blocks[a].objs, t);
      assert a in v.nMarks;
    }
  }

  lemma CountOneMore(marked: set<Obj>, objs: set<Obj>, t: Obj)
    requires t !in marked
    ensures |(marked + {t}) * objs| == |marked * objs| + if t in objs then 1 else 0
  {
    if t in objs {
      assert (marked + {t}) * objs == marked * objs + {t};
    } else {
      assert (marked + {t}) * objs == marked * objs;
    }
  }

  // ----- one piece of a range in hand

  /** In hand: the words lo .. hi of s, and word d of s, which was deferred. */
  function Hand(s: Src, lo: nat, hi: nat, d: nat): seq<Entry>
    requires lo <= hi
  {
    [Entry(s, lo, hi - lo), Entry(s, d, 1)]
  }

  predicate Follows(v: View, w: Word) {
    w.Pointer? && w.target in v.m.words ==> w.target in v.marked
  }

  lemma OnHand(s: Src, lo: nat, hi: nat, d: nat, t: Src, k: nat)
    requires lo <= hi
    ensures OnStack(Hand(s, lo, hi, d), t, k) <==> t == s && (lo <= k < hi || k == d)
  {
    var h := Hand(s, lo, hi, d);
    assert InEntry(h[0], t, k) <==> t == s && lo <= k < hi;
    assert InEntry(h[1], t, k) <==> t == s && k == d;
  }

  lemma OnOne(e: Entry, t: Src, k: nat)
    ensures OnStack([e], t, k) <==> InEntry(e, t, k)
  {
    assert [e][0] == e;
  }

  // After the backward scan: the words above the deferred one cannot be pointers.
  lemma Deferred(v: View, s: Src, lo: nat, hi: nat, d: nat, rest: Rest)
    requires lo <= d < hi <= |WordsOf(v.m, s)| && Inv(v, [Entry(s, lo, hi - lo)], rest)
    requires forall k | d < k < hi :: WordsOf(v.m, s)[k].NotPlausible?
    ensures Inv(v, Hand(s, lo, d, d), rest)
  {
    hide Inv;
    forall t: Src, k: nat | OnStack([Entry(s, lo, hi - lo)], t, k) && !OnStack(Hand(s, lo, d, d), t, k)
      ensures WordOk(v, Hand(s, lo, d, d), t, k)
    {
      OnHand(s, lo, d, d, t, k);
      OnOne(Entry(s, lo, hi - lo), t, k);
    }
    HandShrinks(v, [Entry(s, lo, hi - lo)], Hand(s, lo, d, d), rest);
  }

  lemma NothingFound(v: View, s: Src, lo: nat, hi: nat, rest: Rest)
    requires lo < hi <= |WordsOf(v.m, s)| && Inv(v, [Entry(s, lo, hi - lo)], rest)
    requires forall k | lo <= k < hi :: WordsOf(v.m, s)[k].NotPlausible?
    ensures Inv(v, [], rest)
  {
    hide Inv;
    forall t: Src, k: nat | OnStack([Entry(s, lo, hi - lo)], t, k) ensures WordOk(v, [], t, k) {
      OnOne(Entry(s, lo, hi - lo), t, k);
    }
    HandShrinks(v, [Entry(s, lo, hi - lo)], [], rest);
  }

  lemma FrontDone(v: View, s: Src, lo: nat, d: nat, rest: Rest)
    requires lo < d < |WordsOf(v.m, s)| && Inv(v, Hand(s, lo, d, d), rest) && Follows(v, WordsOf(v.m, s)[lo])
    ensures Inv(v, Hand(s, lo + 1, d, d), rest)
  {
    hide Inv;
    forall t: Src, k: nat | OnStack(Hand(s, lo, d, d), t, k) && !OnStack(Hand(s, lo + 1, d, d), t, k)
      ensures WordOk(v, Hand(s, lo + 1, d, d), t, k)
    {
      OnHand(s, lo, d, d, t, k);
      OnHand(s, lo + 1, d, d, t, k);
    }
    HandShrinks(v, Hand(s, lo, d, d), Hand(s, lo + 1, d, d), rest);
  }

  lemma LastDone(v: View, s: Src, d: nat, rest: Rest)
    requires d < |WordsOf(v.m, s)| && Inv(v, Hand(s, d, d, d), rest) && Follows(v, WordsOf(v.m, s)[d])
    ensures Inv(v, [], rest)
  {
    hide Inv;
    forall t: Src, k: nat | OnStack(Hand(s, d, d, d), t, k) ensures WordOk(v, [], t, k) {
      OnHand(s, d, d, d, t, k);
    }
    HandShrinks(v, Hand(s, d, d, d), [], rest);
  }

  lemma EntryWord(m: Memory, bound: set<Obj>, e: Entry, k: nat)
    requires EntryOk(m, bound, e) && InEntry(e, e.src, k)
    ensures k < |WordsOf(m, e.src)|
    ensures var w := WordsOf(m, e.src)[k]; w.Pointer? && w.target in m.words ==> w.target in bound
  {
  }

  // ----- the top of the mark stack

  ghost function StackWords(stack: seq<Entry>): nat {
    if stack == [] then 0 else StackWords(stack[..|stack| - 1]) + stack[|stack| - 1].len
  }

  lemma StackWordsAppend(below: seq<Entry>, e: Entry)
    ensures StackWords(below + [e]) == StackWords(below) + e.len
  {
    assert (below + [e])[..|below|] == below;
  }

  /** The piece of a range that is scanned at once, and what of the range stays on the stack. */
  function PieceLen(e: Entry): nat {
    if e.len >= SPLIT_RANGE_WORDS then SPLIT_RANGE_WORDS - 1 else e.len
  }

  function RestOf(e: Entry): seq<Entry> {
    if e.len >= SPLIT_RANGE_WORDS then [Entry(e.src, e.start + SPLIT_RANGE_WORDS - 1, e.len - (SPLIT_RANGE_WORDS - 1))] else []
  }

  lemma PieceAndRest(e: Entry, s: Src, k: nat)
    ensures InEntry(e, s, k) <==> InEntry(Entry(e.src, e.start, PieceLen(e)), s, k) || OnStack(RestOf(e), s, k)
  {
    if RestOf(e) != [] { OnOne(RestOf(e)[0], s, k); }
  }

  lemma SubEntryOk(m: Memory, bound: set<Obj>, e: Entry, start: nat, len: nat)
    requires EntryOk(m, bound, e) && e.start <= start && 0 < len && start + len <= e.start + e.len
    ensures EntryOk(m, bound, Entry(e.src, start, len))
  {
  }

  // Taking the next piece off the top range leaves it in hand and shortens the stack by its length.
  lemma TakeTop(v: View, w: View, below: seq<Entry>, e: Entry, rest: Rest)
    requires Inv(v, [], rest) && v.stack == below + [e]
    requires w == v.(stack := below + RestOf(e), objectsAreMarked := true)
    ensures EntryOk(v.m, v.bound, Entry(e.src, e.start, PieceLen(e))) && 0 < PieceLen(e)
    ensures Inv(w, [Entry(e.src, e.start, PieceLen(e))], rest)
    ensures StackWords(w.stack) < StackWords(v.stack)
  {
    hide Wf, HeapI, RootsI, BoundOk, CountsOk, DirtyOk, EntryOk;
    var piece := Entry(e.src, e.start, PieceLen(e));
    assert EntryOk(v.m, v.bound, v.stack[|below|]);
    EntryNonempty(v.m, v.bound, e);
    SubEntryOk(v.m, v.bound, e, e.start, PieceLen(e));
    StackWordsAppend(below, e);
    if RestOf(e) != [] {
      SubEntryOk(v.m, v.bound, e, RestOf(e)[0].start, RestOf(e)[0].len);
      StackWordsAppend(below, RestOf(e)[0]);
    } else {
      assert w.stack == below;
    }
    forall i | 0 <= i < |w.stack| ensures EntryOk(w.m, w.bound, w.stack[i]) {
      if i < |below| { assert w.stack[i] == v.stack[i]; }
    }
    forall s: Src, k: nat | OnStack(v.stack, s, k) ensures OnStack(w.stack, s, k) || OnStack([piece], s, k) {
      OnStackAppend(below, [e], s, k);
      OnStackAppend(below, RestOf(e), s, k);
      OnOne(e, s, k);
      OnOne(piece, s, k);
      PieceAndRest(e, s, k);
    }
    TakeOff(v, w, [piece], rest);
  }

  lemma EntryNonempty(m: Memory, bound: set<Obj>, e: Entry)
    requires EntryOk(m, bound, e)
    ensures 0 < e.len && e.start + e.len <= |WordsOf(m, e.src)|
  {
  }

  /** Marking has got further: more objects are marked, or fewer words are left on the stack. */
  ghost predicate Advances(v: View, w: View) {
    && SameHeap(v, w)
    && (v.objectsAreMarked ==> w.objectsAreMarked)
    && (w.state == v.state || w.state.Invalid?)
    && (v.marked < w.marked || (w.marked == v.marked && w.state == v.state && StackWords(w.stack) < StackWords(v.stack)))
    && Room(v, w)
  }

  lemma ScanAdvances(v: View, t: View, w: View)
    requires t == v.(stack := t.stack, objectsAreMarked := true) && StackWords(t.stack) < StackWords(v.stack)
    requires |t.stack| <= |v.stack| && Marks(t, w)
    ensures Advances(v, w) && w.objectsAreMarked
  {
  }

  lemma FlagOnly(v: View, w: View, rest: Rest)
    requires Inv(v, [], rest) && w == v.(objectsAreMarked := true)
    ensures Inv(w, [], rest)
  {
    hide Wf, EntryOk;
    Rearranged(v, [], w, [], rest);
  }

  lemma AdvancesFrom(v: View, u: View, w: View)
    requires u == v.(objectsAreMarked := true) || Advances(v, u)
    requires Advances(u, w)
    ensures Advances(v, w)
  {
  }

  // ----- pushing the marked objects of a block

  /** What scanning the heap or the roots may change. */
  ghost predicate Scans(v: View, w: View) {
    && SameHeap(v, w)
    && v.marked <= w.marked
    && (v.objectsAreMarked ==> w.objectsAreMarked)
    && (w.state == v.state || (w.state.Invalid? && v.marked < w.marked))
  }

  lemma ScansTrans(u: View, v: View, w: View)
    requires Scans(u, v) && Scans(v, w)
    ensures Scans(u, w)
  {
  }

  /** The marked objects among os have been followed, unless the mark phase is invalid anyway. */
  ghost predicate Followed(v: View, os: set<Obj>) {
    v.state.Invalid? || forall o | o in os && o in v.marked && Traced(v.m, o) :: SrcOk(v, [], Heap(o))
  }

  lemma FollowedStays(v: View, w: View, os: set<Obj>)
    requires Marks(v, w) && Followed(v, os)
    ensures Followed(w, os)
  {
    hide Wf, EntryOk, SrcOk;
    if !w.state.Invalid? {
      forall o | o in os && o in w.marked && Traced(w.m, o) ensures SrcOk(w, [], Heap(o)) {
        if o in v.marked {
          SrcStaysOk(v, w, [], Heap(o));
        } else {
          NewlyMarkedOk(v, w, [], o);
        }
      }
    }
  }

  // An object that is already marked is pushed while there is room: nothing can be lost.
  lemma PushExisting(v: View, w: View, o: Obj, done: set<Obj>, rest: Rest)
    requires Inv(v, [], rest) && o in v.marked && Traced(v.m, o) && |v.stack| < v.stackSize && Followed(v, done)
    requires w == v.(stack := w.stack, state := w.state) && Pushed(v, w, o)
    ensures Inv(w, [], rest) && Followed(w, done + {o}) && Scans(v, w)
  {
    hide Wf, EntryOk, HeapI, RootsI, CountsOk, DirtyOk, OnStack, SrcOk, Covers, Closed;
    InWords(v, o);
    PushKeeps(v, w, o);
    PushCovers(v, w);
    Rearranged(v, [], w, [], rest);
    PushFollows(v, w, o, done);
  }

  lemma InWords(v: View, o: Obj)
    requires Shape(v) && BoundOk(v) && o in v.marked
    ensures o in v.m.words && o in v.bound && Closed(v.m, v.bound)
  {
  }

  lemma PushCovers(v: View, w: View)
    requires w == v.(stack := w.stack)
    requires forall s: Src, k: nat :: OnStack(v.stack, s, k) ==> OnStack(w.stack, s, k)
    ensures Covers(v, [], w, [])
  {
    hide OnStack;
  }

  lemma PushFollows(v: View, w: View, o: Obj, done: set<Obj>)
    requires w == v.(stack := w.stack) && Covers(v, [], w, []) && Followed(v, done)
    requires forall k: nat | k < |WordsOf(w.m, Heap(o))| :: OnStack(w.stack, Heap(o), k)
    ensures Followed(w, done + {o})
  {
    hide OnStack;
    if !w.state.Invalid? {
      forall p | p in done + {o} && p in w.marked && Traced(w.m, p) ensures SrcOk(w, [], Heap(p)) {
        if p != o {
          assert SrcOk(v, [], Heap(p));
        }
      }
    }
  }

  lemma AllFollow(v: View, o: Obj)
    requires forall k: nat | k < |WordsOf(v.m, Heap(o))| :: Follows(v, WordsOf(v.m, Heap(o))[k])
    ensures SrcOk(v, [], Heap(o))
  {
  }

  lemma FollowedNone(v: View)
    ensures Followed(v, {}) && forall os: set<Obj> :: Followed(v, os - os)
  {
    assert forall os: set<Obj> :: os - os == {};
  }

  lemma ScansRefl(v: View)
    ensures Scans(v, v)
  {
  }

  lemma FollowedUnmarked(v: View, done: set<Obj>, o: Obj)
    requires Followed(v, done) && o !in v.marked
    ensures Followed(v, done + {o})
  {
  }

  lemma FollowedOne(v: View, done: set<Obj>, o: Obj)
    requires Followed(v, done) && SrcOk(v, [], Heap(o))
    ensures Followed(v, done + {o})
  {
  }

  lemma FollowsStays(v: View, w: View, ws: seq<Word>, k: nat)
    requires Marks(v, w) && k < |ws| && Follows(w, ws[k])
    requires forall j | 0 <= j < k :: Follows(v, ws[j])
    ensures forall j | 0 <= j < k + 1 :: Follows(w, ws[j])
  {
  }

  lemma InvRoom(v: View, rest: Rest)
    requires Inv(v, [], rest)
    ensures |v.stack| <= v.stackSize && v.stackSize >= INITIAL_MARK_STACK_SIZE
  {
  }

  lemma MarkedEntryOk(v: View, o: Obj, rest: Rest)
    requires Inv(v, [], rest) && o in v.marked && Traced(v.m, o)
    ensures EntryOk(v.m, v.bound, Entry(Heap(o), 0, |WordsOf(v.m, Heap(o))|))
  {
    hide HeapI, RootsI, EntryOk, CountsOk, DirtyOk;
    InWords(v, o);
    ObjectEntryOk(v, o);
  }

  // ----- the scan pointer

  /** r is the lowest block in use at or above h, or 0 if there is none. */
  ghost predicate IsNextUsed(m: Memory, h: nat, r: nat) {
    if r == 0 then forall a | a in m.blocks :: a < h
    else r in m.blocks && h <= r && forall a | a in m.blocks && h <= a :: r <= a
  }

  /** How many blocks in use start at or above h. */
  ghost function BlocksFrom(m: Memory, h: nat): nat {
    |BlocksAt(m, h)|
  }

  ghost function BlocksAt(m: Memory, h: nat): set<nat> {
    set a | a in m.blocks && h <= a
  }

  lemma BlocksFromLess(m: Memory, h: nat, a: nat, r: nat)
    requires a in m.blocks && h <= a < r
    ensures BlocksFrom(m, r) < BlocksFrom(m, h)
  {
    var s, t := BlocksAt(m, h), BlocksAt(m, r);
    assert a in s && t <= s - {a} && s == (s - {a}) + {a};
    SubsetSize(t, s - {a});
  }

  // Where the block of o lies, given that a is the next block in use after h.
  lemma BlockPlace(m: Memory, h: nat, a: nat, o: Obj)
    requires Wf(m) && a != 0 && IsNextUsed(m, h, a) && o in m.words
    ensures o in m.home && m.home[o] in m.blocks
    ensures m.home[o] < h || m.home[o] == a || a + m.blocks[a].pages <= m.home[o]
    ensures m.home[o] == a ==> o in m.blocks[a].objs
    ensures h <= a < a + m.blocks[a].pages
  {
  }

  /** The block a, next after h, needs no more visiting: the scan may go on behind it. */
  lemma PassBlock(v: View, h: nat, a: nat)
    requires Inv(v, [], From(h)) && a != 0 && IsNextUsed(v.m, h, a)
    requires Followed(v, v.m.blocks[a].objs) || forall o | o in v.m.blocks[a].objs :: !Pending(v, From(h), o)
    ensures Inv(v, [], From(a + v.m.blocks[a].pages))
    ensures h <= a < a + v.m.blocks[a].pages
    ensures BlocksFrom(v.m, a + v.m.blocks[a].pages) < BlocksFrom(v.m, h)
  {
    hide Wf, SrcOk, EntryOk, IsNextUsed, BlockWasDirty, BlocksAt, WordsOf, CountsOk, DirtyOk, BoundOk, RootsI;
    NextHasPages(v.m, h, a);
    var r := a + v.m.blocks[a].pages;
    BlocksFromLess(v.m, h, a, r);
    forall o | o in v.marked && Traced(v.m, o)
      ensures o in v.written || Pending(v, From(r), o) || SrcOk(v, [], Heap(o))
    {
      BlockPlace(v.m, h, a, o);
    }
  }

  lemma NextHasPages(m: Memory, h: nat, a: nat)
    requires Wf(m) && a != 0 && IsNextUsed(m, h, a)
    ensures a in m.blocks && h <= a < a + m.blocks[a].pages
  {
  }

  lemma NoBlockLeft(v: View, h: nat)
    requires Inv(v, [], From(h)) && IsNextUsed(v.m, h, 0)
    ensures Inv(v, [], Done)
  {
    hide SrcOk, EntryOk, Wf, CountsOk, BoundOk, DirtyOk, RootsI, WatchI, WordsOf, Traced, BlockWasDirty;
    forall o | o in v.marked && Traced(v.m, o)
      ensures o in v.written || Pending(v, Done, o) || SrcOk(v, [], Heap(o))
    {
    }
  }

  lemma BlockFacts(v: View, a: nat, rest: Rest)
    requires Inv(v, [], rest) && a in v.m.blocks
    ensures Shape(v) && CountsOk(v) && a in v.nMarks && |v.m.blocks[a].objs| <= MAX_OBJS
    ensures HasDescr(v.m.blocks[a].kind) ==> forall o | o in v.m.blocks[a].objs :: Traced(v.m, o)
    ensures !HasDescr(v.m.blocks[a].kind) ==> forall o | o in v.m.blocks[a].objs :: !Traced(v.m, o)
  {
    hide HeapI, RootsI, DirtyOk, BoundOk;
  }

  lemma FollowedUntraced(v: View, os: set<Obj>)
    requires forall o | o in os :: !Traced(v.m, o) || o !in v.marked
    ensures Followed(v, os)
  {
  }

  lemma MarksScans(v: View, u: View, w: View)
    requires u == v.(objectsAreMarked := true) && Marks(u, w)
    ensures Scans(v, w)
  {
    hide Shape, Keeps;
  }

  lemma FlagScans(v: View, u: View, w: View)
    requires u == v.(objectsAreMarked := true) && Scans(u, w)
    ensures Scans(v, w)
  {
  }

  lemma InvWf(v: View, hand: seq<Entry>, rest: Rest)
    requires Inv(v, hand, rest)
    ensures Wf(v.m)
  {
    hide Wf, HeapI, RootsI, DirtyOk, BoundOk, CountsOk;
  }

  /** After a scan step from h: r is where to go on, 0 if the whole heap has been visited. */
  ghost predicate ScanResult(v: View, w: View, h: nat, r: nat) {
    && Scans(v, w)
    && Inv(w, [], if r == 0 then Done else From(r))
    && (r != 0 ==> BlocksFrom(v.m, r) < BlocksFrom(v.m, h))
  }

  // The dirty and the uncollectable scans pass over the blocks that cannot hold anything pending.
  lemma CleanIsNotPending(v: View, h: nat, a: nat, rest: Rest)
    requires Inv(v, [], rest) && a in v.m.blocks
    requires (v.state.PushRescuers? && !BlockWasDirty(v, a)) || (v.state.PushUncollectable? && !v.m.blocks[a].kind.Uncollectable?)
    ensures forall o | o in v.m.blocks[a].objs :: !Pending(v, From(h), o)
  {
    hide HeapI, RootsI, DirtyOk, BoundOk, CountsOk, BlockWasDirty;
  }

  lemma NextIsItself(m: Memory, h: nat, a: nat)
    requires a != 0 && IsNextUsed(m, h, a)
    ensures IsNextUsed(m, a, a) && BlocksFrom(m, a) <= BlocksFrom(m, h)
  {
    SubsetSize(BlocksAt(m, a), BlocksAt(m, h));
  }

  // ----- pushing the roots

  /** The first n root segments have been followed, unless the mark phase is invalid anyway. */
  ghost predicate RootsFollowed(v: View, n: nat) {
    v.state.Invalid? || forall i: nat | i < n :: SrcOk(v, [], InRoot(i))
  }

  /** How many entries GC_push_roots may add for a segment: one for each word that is followed at once, and
      one for a range.  Beyond three quarters of the stack, GC_push_selected adds at most two. */
  function SegmentPushes(r: Root): nat {
    match r.how
    case Whole => 1
    case Conditional => 2
    case Eager => |r.words|
  }

  /** GC_push_selected stops pushing single pages when more than three quarters of the stack are in use. */
  function PagesLimit(stackSize: nat): nat {
    3 * stackSize / 4
  }

  /** How high the stack may get while n entries are added beyond the point where pages stop being pushed. */
  function Height(stack: nat, stackSize: nat, n: nat): nat {
    (if stack > PagesLimit(stackSize) + 1 then stack else PagesLimit(stackSize) + 1) + n
  }

  function RootPushes(rs: seq<Root>): nat {
    if rs == [] then 0 else RootPushes(rs[..|rs| - 1]) + SegmentPushes(rs[|rs| - 1])
  }

  lemma RootPushesNext(rs: seq<Root>, i: nat)
    requires i < |rs|
    ensures RootPushes(rs[..i + 1]) == RootPushes(rs[..i]) + SegmentPushes(rs[i])
  {
    assert rs[..i + 1][..i] == rs[..i];
  }

  lemma {:induction false} RootPushesGrow(rs: seq<Root>, i: nat)
    requires i <= |rs|
    ensures RootPushes(rs[..i]) <= RootPushes(rs)
    decreases |rs| - i
  {
    if i == |rs| {
      assert rs[..i] == rs;
    } else {
      RootPushesNext(rs, i);
      RootPushesGrow(rs, i + 1);
    }
  }

  /** So much has to be pushed for the roots that the mark stack may be too small for it. */
  predicate ManyRoots(m: Memory) {
    RootPushes(m.roots) >= INITIAL_MARK_STACK_SIZE / 4
  }

  lemma RootsStay(v: View, w: View, n: nat)
    requires Marks(v, w) && RootsFollowed(v, n)
    ensures RootsFollowed(w, n)
  {
    hide Wf, EntryOk, SrcOk;
    if !w.state.Invalid? {
      forall i: nat | i < n ensures SrcOk(w, [], InRoot(i)) {
        SrcStaysOk(v, w, [], InRoot(i));
      }
    }
  }

  lemma RootEntryOk(v: View, i: nat, rest: Rest)
    requires Inv(v, [], rest) && i < |v.m.roots| && v.m.roots[i].words != []
    ensures EntryOk(v.m, v.bound, Entry(InRoot(i), 0, |v.m.roots[i].words|))
  {
    hide Wf, HeapI, RootsI, DirtyOk, CountsOk, Closed;
    var ws := v.m.roots[i].words;
    forall k: nat | k < |ws| && ws[k].Pointer? && ws[k].target in v.m.words ensures ws[k].target in v.bound {
      assert PointsTo(v.m, InRoot(i), k, ws[k].target);
    }
  }

  lemma RootWordsFollow(v: View, i: nat)
    requires i < |v.m.roots|
    requires forall k: nat | k < |v.m.roots[i].words| :: Follows(v, v.m.roots[i].words[k])
    requires RootsFollowed(v, i)
    ensures RootsFollowed(v, i + 1)
  {
    assert SrcOk(v, [], InRoot(i));
  }

  /** The words from 0 to k of root segment i have been pushed, in contiguous parts. */
  ghost predicate Pieces(parts: seq<Entry>, i: nat, k: nat) {
    if parts == [] then k == 0
    else
      var e := parts[|parts| - 1];
      e.src == InRoot(i) && e.start + e.len == k && 0 < e.len && Pieces(parts[..|parts| - 1], i, e.start)
  }

  lemma NoPieces(i: nat)
    ensures Pieces([], i, 0)
  {
  }

  lemma OnePiece(parts: seq<Entry>, i: nat, k: nat, len: nat)
    requires Pieces(parts, i, k) && 0 < len
    ensures Pieces(parts + [Entry(InRoot(i), k, len)], i, k + len)
  {
    assert (parts + [Entry(InRoot(i), k, len)])[..|parts|] == parts;
  }

  lemma {:induction false} PiecesCover(parts: seq<Entry>, i: nat, k: nat)
    requires Pieces(parts, i, k)
    ensures forall j: nat :: OnStack(parts, InRoot(i), j) <==> j < k
    decreases |parts|
  {
    if parts != [] {
      var front, e := parts[..|parts| - 1], parts[|parts| - 1];
      PiecesCover(front, i, e.start);
      assert parts == front + [e];
      forall j: nat ensures OnStack(parts, InRoot(i), j) <==> j < k {
        OnStackAppend(front, [e], InRoot(i), j);
        OnOne(e, InRoot(i), j);
      }
    }
  }

  // GC_push_all: a part of a root segment goes on the stack as one range.
  lemma PushPart(v: View, w: View, i: nat, start: nat, len: nat, rest: Rest)
    requires Inv(v, [], rest) && i < |v.m.roots| && 0 < len && start + len <= |v.m.roots[i].words| && |v.stack| < v.stackSize
    requires w == v.(stack := v.stack + [Entry(InRoot(i), start, len)])
    ensures Inv(w, [], rest) && Scans(v, w)
    ensures forall n: nat :: RootsFollowed(v, n) ==> RootsFollowed(w, n)
  {
    hide Wf, EntryOk, HeapI, RootsI, CountsOk, DirtyOk, BoundOk, SrcOk, Covers, RootsFollowed, WordsOf, OnStack;
    RootEntryOk(v, i, rest);
    SubEntryOk(v.m, v.bound, Entry(InRoot(i), 0, |v.m.roots[i].words|), start, len);
    forall s: Src, k: nat | OnStack(v.stack, s, k) ensures OnStack(w.stack, s, k) {
      OnStackAppend(v.stack, [Entry(InRoot(i), start, len)], s, k);
    }
    PushCovers(v, w);
    Rearranged(v, [], w, [], rest);
    forall n: nat | RootsFollowed(v, n) ensures RootsFollowed(w, n) {
      StillFollowed(v, w, n);
    }
  }

  lemma StillFollowed(v: View, w: View, n: nat)
    requires w == v.(stack := w.stack) && Covers(v, [], w, []) && RootsFollowed(v, n)
    ensures RootsFollowed(w, n)
  {
    hide OnStack;
    if !w.state.Invalid? {
      forall j: nat | j < n ensures SrcOk(w, [], InRoot(j)) {
        assert SrcOk(v, [], InRoot(j));
      }
    }
  }

  // A segment all of whose words are in ranges on the stack has been followed.
  lemma SegmentFollowed(v: View, below: seq<Entry>, parts: seq<Entry>, i: nat)
    requires i < |v.m.roots| && RootsFollowed(v, i) && v.stack == below + parts && Pieces(parts, i, |v.m.roots[i].words|)
    ensures RootsFollowed(v, i + 1)
  {
    PiecesCover(parts, i, |v.m.roots[i].words|);
    forall k: nat | k < |v.m.roots[i].words| ensures OnStack(v.stack, InRoot(i), k) {
      OnStackAppend(below, parts, InRoot(i), k);
    }
    hide OnStack, Pieces;
    assert SrcOk(v, [], InRoot(i));
  }

  // ----- the phases of GC_mark_some

  /** How far the mark phase is from its end. */
  function Rank(v: View): nat {
    match v.state
    case Quiet => 0
    case RootsPushed => 1
    case PushRescuers => 2
    case PushUncollectable => 2
    case PartiallyInvalid => 2
    case Invalid => if !v.objectsAreMarked then 5 else if v.scanPtr != 0 then 4 else 3
  }

  /** More objects are marked, or else the phase, the scan of the heap or the mark stack is nearer its end. */
  ghost predicate Progress(v: View, w: View) {
    && !w.state.Quiet?
    && (v.marked < w.marked ||
        (w.marked == v.marked &&
         (Rank(w) < Rank(v) ||
          (Rank(w) == Rank(v) &&
           (BlocksFrom(w.m, w.scanPtr) < BlocksFrom(v.m, v.scanPtr) ||
            (BlocksFrom(w.m, w.scanPtr) == BlocksFrom(v.m, v.scanPtr) && StackWords(w.stack) < StackWords(v.stack)))))))
  }

  /** The marker leaves alone the heap, the dirty bits and the records about the mutator. */
  predicate Marking(v: View, w: View) {
    && w.m == v.m && w.free == v.free && w.lapsed == v.lapsed && (w.exact ==> v.exact)
    && w.dirtyMaintained == v.dirtyMaintained && w.dirty == v.dirty && w.grungy == v.grungy
    && w.written == v.written && w.bound == v.bound && w.watch == v.watch && v.marked <= w.marked
    && (w.rootsTouched ==> v.rootsTouched)
    && (w.state.RootsPushed? ==> v.state.RootsPushed? || !w.rootsTouched)
    && (w.state.PushRescuers? ==> v.state.PushRescuers?)
  }

  lemma DrainIsProgress(v: View, w: View)
    requires Ready(v) && v.stack != [] && Advances(v, w) && Inv(w, [], From(v.scanPtr)) && w.objectsAreMarked
    requires !v.state.Quiet? && (v.state.Invalid? ==> v.objectsAreMarked)
    ensures Ready(w) && Progress(v, w) && Marking(v, w)
  {
    hide Inv, BlocksFrom, StackWords;
  }

  // A scan step that has not come to the end of the heap.
  lemma ScanIsProgress(v: View, u: View, w: View, r: nat)
    requires Ready(v) && !v.state.Quiet? && !v.state.RootsPushed?
    requires v.state.Invalid? ==> v.objectsAreMarked
    requires if v.state.Invalid? && v.scanPtr == 0 then u == v.(state := PartiallyInvalid, stackSize := u.stackSize) else u == v
    requires r != 0 && ScanResult(u, w.(scanPtr := v.scanPtr), v.scanPtr, r) && w.scanPtr == r
    requires !w.objectsAreMarked ==> w.marked == v.marked
    ensures Ready(w) && Progress(v, w) && Marking(v, w)
  {
    hide Wf, SrcOk, EntryOk, BlocksFrom, StackWords, Closed, CountsOk, DirtyOk, RootTarget;
    ScanPtrIrrelevant(w.(scanPtr := v.scanPtr), w, From(r));
  }

  lemma ScanPtrIrrelevant(v: View, w: View, rest: Rest)
    requires Inv(v, [], rest) && w == v.(scanPtr := w.scanPtr)
    ensures Inv(w, [], rest)
  {
    hide Wf, EntryOk, SrcOk, CountOk, PageIn, Closed, RootTarget, Above, Traced;
    SameMarks(v, w);
  }

  // The end of the scan: the roots have been pushed.
  lemma RootsPushedReady(v: View, w: View)
    requires Inv(v, [], Done) && RootsFollowed(v, |v.m.roots|) && !v.state.Quiet? && !v.state.RootsPushed? && v.watch == {}
    requires w == v.(objectsAreMarked := true, rootsTouched := false,
                     state := if v.state.Invalid? then Invalid else RootsPushed)
    ensures Ready(w)
  {
    hide Wf, EntryOk, SrcOk, CountsOk, BoundOk, PageIn;
    SameMarks(v, w);
  }

  // The blocks between h and the next block in use need no visiting.
  lemma ScanFrom(v: View, h: nat, a: nat)
    requires Inv(v, [], From(h)) && a != 0 && IsNextUsed(v.m, h, a)
    ensures Inv(v, [], From(a))
  {
    hide Wf, SrcOk, EntryOk, IsNextUsed, BlockWasDirty, WordsOf, CountsOk, DirtyOk, BoundOk, RootsI;
    forall o | o in v.marked && Traced(v.m, o)
      ensures o in v.written || Pending(v, From(a), o) || SrcOk(v, [], Heap(o))
    {
      BlockPlace(v.m, h, a, o);
    }
  }

  lemma NoRoots(v: View)
    ensures RootsFollowed(v, 0)
  {
  }

  lemma MarksAreScans(v: View, w: View)
    requires Marks(v, w)
    ensures Scans(v, w)
  {
    hide Shape, Keeps;
  }

  lemma ReadyFacts(v: View)
    requires Ready(v)
    ensures Inv(v, [], From(v.scanPtr)) && |v.stack| <= v.stackSize && v.stackSize >= INITIAL_MARK_STACK_SIZE
    ensures v.state.PartiallyInvalid? || v.state.RootsPushed? ==> v.objectsAreMarked
  {
    InvRoom(v, From(v.scanPtr));
    hide Inv;
  }

  lemma MarkingRefl(v: View)
    ensures Marking(v, v)
  {
  }

  lemma RootsAreProgress(v: View, u: View, w: View)
    requires !v.state.Quiet? && !v.state.RootsPushed?
    requires if v.state.Invalid? then v.scanPtr == 0 && v.objectsAreMarked && u == v.(state := PartiallyInvalid, stackSize := u.stackSize) else u == v
    requires Scans(u.(scanPtr := 0), w.(state := if w.state.Invalid? then Invalid else u.state, rootsTouched := u.rootsTouched))
    requires (w.state.Invalid? || w.state.RootsPushed?) && !w.rootsTouched
    ensures Progress(v, w) && Marking(v, w)
  {
    hide BlocksFrom, StackWords;
  }

  // The recovery scan starts again from the bottom of the heap, with an empty stack.
  lemma RestartScan(v: View, w: View)
    requires Ready(v) && v.state.Invalid? && v.scanPtr == 0 && v.stack == []
    requires w == v.(state := PartiallyInvalid, stackSize := w.stackSize) && w.stackSize >= INITIAL_MARK_STACK_SIZE
    ensures Inv(w, [], From(0))
  {
    hide Wf, SrcOk, EntryOk, CountsOk, DirtyOk, BoundOk;
    ValuesOnly(v, w);
    forall o | o in w.marked && Traced(w.m, o) ensures Pending(w, From(0), o) {
    }
  }

  lemma ValuesOnly(v: View, w: View)
    requires w == v.(state := w.state, stackSize := w.stackSize, scanPtr := w.scanPtr)
    ensures CountsOk(v) ==> CountsOk(w)
    ensures DirtyOk(v) ==> DirtyOk(w)
    ensures BoundOk(v) ==> BoundOk(w)
    ensures forall s: Src :: SrcOk(w, [], s) == SrcOk(v, [], s)
  {
    assert forall s: Src, k: nat :: WordOk(w, [], s, k) == WordOk(v, [], s, k);
  }

  // The scan came to the end of the heap, but the mark phase is invalid: it will be started again.
  lemma LostInScan(v: View, u: View, w: View)
    requires Ready(v) && v.objectsAreMarked && (v.state.Invalid? || v.state.PartiallyInvalid?)
    requires if v.state.Invalid? && v.scanPtr == 0 then u == v.(state := PartiallyInvalid, stackSize := u.stackSize) else u == v
    requires w.scanPtr == 0 && ScanResult(u, w.(scanPtr := v.scanPtr), v.scanPtr, 0) && !w.state.PartiallyInvalid?
    ensures Ready(w) && Progress(v, w) && Marking(v, w)
  {
    hide Wf, SrcOk, EntryOk, CountsOk, DirtyOk, BoundOk, BlocksFrom, StackWords;
    ScanPtrIrrelevant(w.(scanPtr := v.scanPtr), w, Done);
  }

  // Nothing is left on the stack: Invariant I holds without it.
  lemma PhaseOver(v: View, w: View)
    requires Ready(v) && v.state.RootsPushed? && v.stack == []
    requires w == v.(state := Quiet, stackSize := w.stackSize) && w.stackSize >= INITIAL_MARK_STACK_SIZE
    ensures Ready(w) && Marking(v, w)
  {
    hide Wf, SrcOk, EntryOk, CountsOk, DirtyOk, BoundOk;
    ValuesOnly(v, w);
  }

  // Only uncollectable objects are marked: scanning their blocks will do.
  lemma StartUncollectable(v: View, w: View)
    requires Ready(v) && v.state.Invalid? && !v.objectsAreMarked && w == v.(state := PushUncollectable)
    ensures Ready(w) && Marking(v, w) && Progress(v, w)
  {
    hide Wf, SrcOk, EntryOk, CountsOk, DirtyOk, BoundOk, BlocksFrom, StackWords;
    ValuesOnly(v, w);
    forall o | o in w.marked && Traced(w.m, o) ensures Pending(w, From(w.scanPtr), o) {
    }
  }

  lemma NothingWatched(v: View, u: View, w: View, h: nat, r: nat)
    requires Ready(v) && u.watch == v.watch && ScanResult(u, w, h, r)
    ensures w.watch == {}
  {
    hide Inv, BlocksFrom;
  }

  lemma ScanKeepsState(v: View, w: View, h: nat, r: nat)
    requires ScanResult(v, w, h, r)
    ensures w.state == v.state || w.state.Invalid?
  {
    hide Inv, BlocksFrom;
  }

  // ----- the beginning and the end of a mark phase

  /** Between collections, or before one is initiated: Ready, but the scan pointer may be anywhere. */
  ghost predicate Prepared(v: View) {
    Inv(v, [], From(v.scanPtr)) && FlagsOk(v)
  }

  lemma ReadyIsPrepared(v: View)
    requires Ready(v)
    ensures Prepared(v)
  {
    hide Inv, FlagsOk;
  }

  // GC_initiate_gc: what was dirty is now grungy, and has to be visited again.
  lemma Initiated(v: View, w: View)
    requires Prepared(v) && (v.state.Quiet? || v.state.Invalid?) && (v.state.Quiet? ==> v.dirtyMaintained)
    requires w == v.(state := if v.state.Quiet? then PushRescuers else Invalid, scanPtr := 0, written := {},
                     grungy := if v.dirtyMaintained then v.dirty else v.grungy,
                     dirty := if v.dirtyMaintained then {} else v.dirty)
    ensures Ready(w)
  {
    hide Wf, SrcOk, EntryOk, CountsOk, BoundOk, PageIn, HeapI;
    SameMarks(v, w);
    InitiatedHeapI(v, w);
  }

  // Objects written since the dirty bits were read are on pages that the scan will visit.
  lemma InitiatedHeapI(v: View, w: View)
    requires HeapI(v, [], From(v.scanPtr)) && DirtyOk(v) && (v.state.Quiet? || v.state.Invalid?) && (v.state.Quiet? ==> v.dirtyMaintained)
    requires w.m == v.m && w.marked == v.marked && w.scanPtr == 0 && w.state == if v.state.Quiet? then PushRescuers else Invalid
    requires v.state.Quiet? ==> w.grungy == v.dirty
    requires forall s: Src :: SrcOk(w, [], s) == SrcOk(v, [], s)
    ensures HeapI(w, [], From(0))
  {
    hide SrcOk, PageIn;
    forall o | o in w.marked && Traced(w.m, o) ensures Pending(w, From(0), o) || SrcOk(w, [], Heap(o)) {
    }
  }

  lemma SameMarks(v: View, w: View)
    requires w.m == v.m && w.marked == v.marked && w.nMarks == v.nMarks && w.bound == v.bound && w.stack == v.stack && SameLists(v, w)
    ensures CountsOk(v) ==> CountsOk(w)
    ensures BoundOk(v) ==> BoundOk(w)
    ensures forall s: Src :: SrcOk(w, [], s) == SrcOk(v, [], s)
  {
    assert forall s: Src, k: nat :: WordOk(w, [], s, k) == WordOk(v, [], s, k);
  }

  // GC_clear_marks: whatever had been marked or lost, a full mark starts from the uncollectable objects.
  lemma Cleared(v: View, w: View)
    requires Shape(v) && BoundOk(v) && DirtyOk(v) && CountsOk(w) && w.marked <= v.marked && v.watch == {}
    requires forall o | o in w.marked && o in v.m.home && v.m.home[o] in v.m.blocks :: IsUncollectable(v.m.blocks[v.m.home[o]].kind)
    requires w == v.(marked := w.marked, nMarks := w.nMarks, objectsAreMarked := false, state := Invalid, scanPtr := 0)
    ensures Ready(w)
  {
    hide Wf, SrcOk, EntryOk, CountsOk, PageIn, Closed;
  }

  // GC_invalidate_mark_state: the stack is flushed.
  lemma Invalidated(v: View, w: View)
    requires Shape(v) && BoundOk(v) && DirtyOk(v) && CountsOk(v) && FlagsOk(v)
    requires w == v.(state := Invalid, stack := [])
    ensures Prepared(w)
  {
    hide Wf, SrcOk, EntryOk, PageIn, Closed;
  }

  lemma PreparedFacts(v: View)
    requires Prepared(v)
    ensures Shape(v) && BoundOk(v) && DirtyOk(v) && CountsOk(v) && FlagsOk(v) && Wf(v.m)
    ensures v.state.Quiet? ==> v.stack == []
    ensures v.watch == {}
  {
    hide Wf, HeapI, RootsI, DirtyOk, BoundOk, CountsOk;
  }

  /** What a mark phase may mark: everything reachable from the roots and from what is marked already. */
  ghost function Reach(v: View): set<Obj> {
    ReachSet(v.m, RootTargets(v.m) + v.marked)
  }

  lemma BoundSet(v: View, w: View)
    requires Prepared(v) && v.stack == [] && w == v.(bound := Reach(v))
    ensures Prepared(w)
  {
    ReachSetClosed(v.m, RootTargets(v.m) + v.marked);
    hide Wf, SrcOk, EntryOk, PageIn, Closed, RootTarget, ReachSet;
    SeedsIn(v);
    SameButBound(v, w);
  }

  lemma SeedsIn(v: View)
    requires Shape(v)
    ensures v.marked <= Reach(v)
    ensures forall t: Obj :: RootTarget(v.m, t) ==> t in Reach(v)
  {
    ReachSetClosed(v.m, RootTargets(v.m) + v.marked);
    hide Wf, EntryOk, ReachSet;
    forall t: Obj | RootTarget(v.m, t) ensures t in RootTargets(v.m) {
    }
  }

  lemma SameButBound(v: View, w: View)
    requires w == v.(bound := w.bound)
    ensures CountsOk(v) ==> CountsOk(w)
    ensures DirtyOk(v) ==> DirtyOk(w)
    ensures forall s: Src :: SrcOk(w, [], s) == SrcOk(v, [], s)
  {
    assert forall s: Src, k: nat :: WordOk(w, [], s, k) == WordOk(v, [], s, k);
  }

  // At the end of a mark phase, a pointer from a marked object that has not been written since the
  // dirty bits were read leads to a marked object, unless the pointer has lapsed.
  lemma CleanLeadsToMarked(v: View, o: Obj, k: nat, t: Obj)
    requires Ready(v) && v.state.Quiet? && o in v.marked && o !in v.written && Traced(v.m, o)
    requires PointsTo(v.m, Heap(o), k, t) && (Heap(o), k) !in v.lapsed
    ensures t in v.marked
  {
    hide Wf, EntryOk, CountsOk, DirtyOk, BoundOk;
    assert SrcOk(v, [], Heap(o));
    assert WordOk(v, [], Heap(o), k);
  }

  // ... in terms of pages: no page of o's block has been recorded as dirty.
  lemma CleanPageLeadsToMarked(v: View, o: Obj, k: nat, t: Obj)
    requires Ready(v) && v.state.Quiet? && v.dirtyMaintained && o in v.marked && Traced(v.m, o)
    requires PointsTo(v.m, Heap(o), k, t) && (Heap(o), k) !in v.lapsed
    requires !PageIn(v.dirty, v.m.home[o], v.m.blocks[v.m.home[o]].pages)
    ensures t in v.marked
  {
    assert o !in v.written by { hide Wf, EntryOk, CountsOk, BoundOk, HeapI, PageIn; }
    CleanLeadsToMarked(v, o, k, t);
  }

  lemma RootLeadsToMarked(v: View, i: nat, k: nat, t: Obj)
    requires Ready(v) && v.state.Quiet? && !v.rootsTouched && i < |v.m.roots|
    requires PointsTo(v.m, InRoot(i), k, t) && (InRoot(i), k) !in v.lapsed
    ensures t in v.marked
  {
    hide Wf, EntryOk, CountsOk, DirtyOk, BoundOk;
    assert SrcOk(v, [], InRoot(i));
    assert WordOk(v, [], InRoot(i), k);
  }

  // ----- memory without the words that have lapsed

  ghost function Unlapsed(ws: seq<Word>, s: Src, lapsed: iset<(Src, nat)>): (r: seq<Word>)
    ensures |r| == |ws| && forall k | 0 <= k < |ws| :: r[k] == if (s, k) in lapsed then NotPlausible else ws[k]
  {
    seq(|ws|, k requires 0 <= k < |ws| => if (s, k) in lapsed then NotPlausible else ws[k])
  }

  ghost function Live(m: Memory, lapsed: iset<(Src, nat)>): (r: Memory)
    ensures r.words.Keys == m.words.Keys && r.home == m.home && r.blocks == m.blocks && |r.roots| == |m.roots|
    ensures forall o | o in m.words :: r.words[o] == Unlapsed(m.words[o], Heap(o), lapsed)
    ensures forall i | 0 <= i < |m.roots| :: r.roots[i].words == Unlapsed(m.roots[i].words, InRoot(i), lapsed)
  {
    m.(words := map o | o in m.words :: Unlapsed(m.words[o], Heap(o), lapsed),
       roots := seq(|m.roots|, i requires 0 <= i < |m.roots| => m.roots[i].(words := Unlapsed(m.roots[i].words, InRoot(i), lapsed))))
  }

  lemma LivePointsTo(m: Memory, lapsed: iset<(Src, nat)>, s: Src, k: nat, t: Obj)
    requires s.Heap? ==> s.o in m.words
    ensures PointsTo(Live(m, lapsed), s, k, t) <==> PointsTo(m, s, k, t) && (s, k) !in lapsed
  {
    hide Live, Unlapsed;
  }

  /** What is reachable without using words that have lapsed. */
  ghost function LiveReach(v: View): set<Obj> {
    var live := Live(v.m, v.lapsed);
    ReachSet(live, RootTargets(live) + v.marked)
  }

  lemma LiveOfNone(m: Memory)
    ensures Live(m, iset{}) == m
  {
    hide Unlapsed;
    var live := Live(m, iset{});
    forall o | o in m.words ensures live.words[o] == m.words[o] {
      assert Unlapsed(m.words[o], Heap(o), iset{}) == m.words[o];
    }
    forall i | 0 <= i < |m.roots| ensures live.roots[i] == m.roots[i] {
      assert Unlapsed(m.roots[i].words, InRoot(i), iset{}) == m.roots[i].words;
    }
    assert live.words == m.words && live.roots == m.roots;
  }

  lemma NothingLapsed(v: View)
    requires v.lapsed == iset{}
    ensures LiveReach(v) == Reach(v)
  {
    hide ReachSet, RootTargets, Live;
    LiveOfNone(v.m);
  }

  lemma SameReach(u: View, v: View)
    requires v == u.(lapsed := v.lapsed)
    ensures Reach(v) == Reach(u)
  {
    hide ReachSet, RootTargets;
  }

  // With fewer lapsed words more is reachable; with none, everything.
  lemma LiveReachBounds(u: View, v: View)
    requires v == u.(lapsed := v.lapsed) && (v.lapsed == iset{} || v.lapsed == u.lapsed)
    ensures LiveReach(u) <= LiveReach(v)
    ensures v.lapsed == iset{} ==> LiveReach(v) == Reach(u)
  {
    hide ReachSet, RootTargets, Live;
    if v.lapsed == iset{} {
      NothingLapsed(v);
      SameReach(u, v);
      LiveInReach(u);
    }
  }

  lemma LiveInReach(u: View)
    ensures LiveReach(u) <= Reach(u)
  {
    hide Live, RootTarget, Edge;
    var live := Live(u.m, u.lapsed);
    forall o: Obj, t: Obj | Edge(live, o, t) ensures Edge(u.m, o, t) {
      LiveEdge(u.m, u.lapsed, o, t);
    }
    forall t: Obj | RootTarget(live, t) ensures RootTarget(u.m, t) {
      LiveRoot(u.m, u.lapsed, t);
    }
    forall o | o in LiveReach(u) ensures o in Reach(u) {
      var p :| IsPath(live, p) && p[0] in RootTargets(live) + u.marked && p[|p| - 1] == o;
      LiveTraced(u.m, u.lapsed, o);
      LiveTraced(u.m, u.lapsed, p[0]);
      assert IsPath(u.m, p) && p[0] in RootTargets(u.m) + u.marked;
    }
  }

  lemma LiveEdge(m: Memory, lapsed: iset<(Src, nat)>, o: Obj, t: Obj)
    requires Edge(Live(m, lapsed), o, t)
    ensures Edge(m, o, t)
  {
    hide Live, Traced;
    LiveTraced(m, lapsed, o);
    var k: nat :| PointsTo(Live(m, lapsed), Heap(o), k, t);
    LivePointsTo(m, lapsed, Heap(o), k, t);
  }

  lemma LiveRoot(m: Memory, lapsed: iset<(Src, nat)>, t: Obj)
    requires RootTarget(Live(m, lapsed), t)
    ensures RootTarget(m, t)
  {
    hide Live;
    LiveTraced(m, lapsed, 0);
    var i: nat, k: nat :| i < |Live(m, lapsed).roots| && PointsTo(Live(m, lapsed), InRoot(i), k, t);
    LivePointsTo(m, lapsed, InRoot(i), k, t);
  }

  // If nothing was written while marking went on, everything that can be reached is marked, and nothing that
  // cannot; words that have lapsed may or may not have been followed.
  lemma MarkIsComplete(u: View, v: View)
    requires Ready(v) && v.state.Quiet? && v.written == {} && !v.rootsTouched
    requires v.m == u.m && v.lapsed == u.lapsed && u.marked <= v.marked && v.bound == Reach(u)
    ensures LiveReach(u) <= v.marked <= Reach(u)
  {
    MarkedIsBounded(v);
    hide Ready, ReachSet, Live, Traced;
    var live := Live(v.m, v.lapsed);
    forall o: Obj, t: Obj | o in v.marked && Edge(live, o, t) ensures t in v.marked {
      LiveTraced(v.m, v.lapsed, o);
      var k: nat :| PointsTo(live, Heap(o), k, t);
      LivePointsTo(v.m, v.lapsed, Heap(o), k, t);
      CleanLeadsToMarked(v, o, k, t);
    }
    forall t | t in RootTargets(live) ensures t in v.marked {
      var i: nat, k: nat :| i < |live.roots| && PointsTo(live, InRoot(i), k, t);
      LivePointsTo(v.m, v.lapsed, InRoot(i), k, t);
      RootLeadsToMarked(v, i, k, t);
    }
    ClosedHoldsReachable(live, v.marked, RootTargets(live) + u.marked);
  }

  lemma LiveTraced(m: Memory, lapsed: iset<(Src, nat)>, o: Obj)
    ensures Traced(Live(m, lapsed), o) == Traced(m, o) && |Live(m, lapsed).roots| == |m.roots| && (o in Live(m, lapsed).words <==> o in m.words)
  {
    hide Unlapsed;
  }

  lemma MarkedIsBounded(v: View)
    requires Ready(v)
    ensures v.marked <= v.bound && v.marked <= v.m.words.Keys
  {
    hide Wf, HeapI, RootsI, DirtyOk, CountsOk, EntryOk;
  }

  // The number of unmarked objects: what every overflow of the mark stack has to pay with.
  ghost function Unmarked(v: View): nat {
    |v.m.words.Keys - v.marked|
  }

  lemma MarkingCosts(v: View, w: View)
    requires v.m == w.m && v.marked < w.marked && w.marked <= w.m.words.Keys
    ensures Unmarked(w) < Unmarked(v)
  {
    var o :| o in w.marked && o !in v.marked;
    var s, t := v.m.words.Keys - v.marked, w.m.words.Keys - w.marked;
    assert o in s && t <= s - {o} && s == (s - {o}) + {o};
    SubsetSize(t, s - {o});
  }

  // ----- clearing mark bits

  predicate KeepsMark(m: Memory, o: Obj) {
    o in m.home && m.home[o] in m.blocks && IsUncollectable(m.blocks[m.home[o]].kind)
  }

  /** The blocks outside todo have been cleared, unless they are uncollectable. */
  ghost predicate ClearedUpTo(v: View, w: View, todo: set<nat>) {
    && w == v.(marked := w.marked, nMarks := w.nMarks)
    && (forall o: Obj :: o in w.marked <==> o in v.marked && (KeepsMark(v.m, o) || (o in v.m.home && v.m.home[o] in todo)))
  }

  lemma HomesOf(v: View)
    requires Shape(v)
    ensures ClearedUpTo(v, v, v.m.blocks.Keys)
  {
    hide EntryOk;
  }

  lemma ClearedBlock(v: View, u: View, w: View, a: nat, todo: set<nat>)
    requires Shape(v) && CountsOk(u) && ClearedUpTo(v, u, todo) && a in todo && a in v.m.blocks
    requires if IsUncollectable(v.m.blocks[a].kind) then w == u
             else w == u.(marked := u.marked - v.m.blocks[a].objs, nMarks := u.nMarks[a := 0])
    ensures CountsOk(w) && ClearedUpTo(v, w, todo - {a})
  {
    hide EntryOk, Wf, CountsOk;
    HomesInBlocks(v, a);
    if w != u {
      ClearedCounts(v, u, w, a);
    }
  }

  lemma HomesInBlocks(v: View, a: nat)
    requires Shape(v) && a in v.m.blocks
    ensures forall o | o in v.marked :: o in v.m.home && (v.m.home[o] == a <==> o in v.m.blocks[a].objs)
  {
    hide EntryOk;
  }

  lemma ClearedCounts(v: View, u: View, w: View, a: nat)
    requires Shape(v) && CountsOk(u) && a in v.m.blocks && u.m == v.m
    requires w == u.(marked := u.marked - v.m.blocks[a].objs, nMarks := u.nMarks[a := 0])
    ensures CountsOk(w)
  {
    hide EntryOk;
    forall b | b in w.m.blocks ensures b in w.nMarks && CountOk(w.exact, w.nMarks[b], |w.marked * w.m.blocks[b].objs|) {
      if b == a {
        assert w.marked * w.m.blocks[b].objs == {};
      } else {
        BlocksDisjoint(v.m, a, b);
        assert w.marked * w.m.blocks[b].objs == u.marked * u.m.blocks[b].objs;
      }
    }
  }

  lemma BlocksDisjoint(m: Memory, a: nat, b: nat)
    requires Wf(m) && a in m.blocks && b in m.blocks && a != b
    ensures m.blocks[a].objs !! m.blocks[b].objs
  {
    forall o | o in m.blocks[b].objs ensures o !in m.blocks[a].objs {
      assert m.home[o] == b;
    }
  }

  lemma ClearedSame(v: View, u: View)
    requires ClearedUpTo(v, u, {})
    ensures u == v.(marked := u.marked, nMarks := u.nMarks)
  {
  }

  lemma ClearedAll(v: View, w: View)
    requires Prepared(v) && CountsOk(w)
    requires ClearedUpTo(v, v.(marked := w.marked, nMarks := w.nMarks), {})
    requires w == v.(marked := w.marked, nMarks := w.nMarks, objectsAreMarked := false, state := Invalid, scanPtr := 0)
    ensures Ready(w)
    ensures forall o: Obj :: o in w.marked <==> o in v.marked && KeepsMark(v.m, o)
  {
    PreparedFacts(v);
    hide Wf, Prepared, CountsOk, DirtyOk, BoundOk, EntryOk;
    Cleared(v, w);
  }

  // ----- the loop that marks with the world stopped

  /** Since the roots were last pushed, the world has been stopped. */
  ghost predicate Fresh(v: View) {
    v.state.RootsPushed? ==> !v.rootsTouched
  }

  lemma StartMarking(v: View)
    requires !v.state.RootsPushed?
    ensures Marking(v, v) && Fresh(v)
  {
  }

  lemma MarkingOn(u: View, v: View, w: View)
    requires Marking(u, v) && Marking(v, w) && Fresh(v)
    ensures Marking(u, w) && Fresh(w)
  {
  }

  lemma MarkingFacts(v: View, w: View)
    requires Marking(v, w)
    ensures w.m == v.m && w.written == v.written && w.bound == v.bound && v.marked <= w.marked
    ensures w.free == v.free && w.lapsed == v.lapsed
    ensures w.dirty == v.dirty && w.grungy == v.grungy && w.dirtyMaintained == v.dirtyMaintained
    ensures w.state.PushRescuers? ==> v.state.PushRescuers?
  {
  }

  /** What is left of the mark phase is less, lexicographically. */
  ghost predicate Nearer(v: View, w: View) {
    Unmarked(w) < Unmarked(v) ||
    (Unmarked(w) == Unmarked(v) &&
     (Rank(w) < Rank(v) ||
      (Rank(w) == Rank(v) &&
       (BlocksFrom(w.m, w.scanPtr) < BlocksFrom(v.m, v.scanPtr) ||
        (BlocksFrom(w.m, w.scanPtr) == BlocksFrom(v.m, v.scanPtr) && StackWords(w.stack) < StackWords(v.stack))))))
  }

  // Every step that does not end the phase brings its end nearer.
  lemma NearerTheEnd(v: View, w: View)
    requires Progress(v, w) && Marking(v, w) && Ready(w)
    ensures !w.state.Quiet? && Nearer(v, w)
  {
    MarkedIsBounded(w);
    hide Ready, BlocksFrom, StackWords;
    if v.marked < w.marked {
      MarkingCosts(v, w);
    }
  }

  lemma NearerTrans(u: View, v: View, w: View)
    requires (u == v || Nearer(u, v)) && Nearer(v, w)
    ensures Nearer(u, w)
  {
  }

  lemma QuietIsEmpty(v: View)
    requires Prepared(v) && v.state.Quiet?
    ensures v.stack == []
  {
    hide Inv;
  }

  // More marked objects reach no less.
  lemma ReachGrows(u: View, w: View)
    requires w.m == u.m && u.marked <= w.marked && w.lapsed == u.lapsed
    ensures LiveReach(u) <= LiveReach(w) && Reach(u) <= Reach(w)
  {
    hide ReachSet, RootTarget, Live;
    ReachIn(u.m, RootTargets(u.m) + u.marked, RootTargets(w.m) + w.marked);
    var live := Live(u.m, u.lapsed);
    ReachIn(live, RootTargets(live) + u.marked, RootTargets(live) + w.marked);
  }

  lemma ReachIn(m: Memory, a: set<Obj>, b: set<Obj>)
    requires a <= b
    ensures ReachSet(m, a) <= ReachSet(m, b)
  {
    forall o | o in ReachSet(m, a) ensures o in ReachSet(m, b) {
      var p :| IsPath(m, p) && p[0] in a && p[|p| - 1] == o;
      assert p[0] in b;
    }
  }

  lemma ShapeAdd(v: View, w: View, o: Obj)
    requires Shape(v) && o in v.m.words && w == v.(marked := v.marked + {o}, nMarks := w.nMarks)
    ensures Shape(w)
  {
    hide Wf, EntryOk;
  }

  lemma ShapeWf(v: View)
    requires Shape(v)
    ensures Wf(v.m)
  {
    hide Wf, EntryOk;
  }

  // ----- marking from a finalizable object

  /** Nothing has been written since the mark phase: marked objects and roots lead to marked objects only. */
  ghost predicate Settled(v: View) {
    && v.state.Quiet? && v.written == {}
    && Closed(v.m, v.marked) && RootTargets(v.m) <= v.marked
  }

  /** Word k of s is one that a mark phase follows, and it leads to t. */
  ghost predicate Holds(v: View, s: Src, k: nat, t: Obj) {
    && PointsTo(v.m, s, k, t)
    && match s
       case Heap(o) => o in v.marked && o in v.m.words && Traced(v.m, o)
       case InRoot(i) => i < |v.m.roots|
  }

  // When a mark phase ends with the world stopped, its marks are closed if and only if the words that have
  // lapsed happen to lead to marked objects too.
  lemma SettledIff(v: View)
    requires Ready(v) && v.state.Quiet? && v.written == {} && !v.rootsTouched
    ensures Settled(v) <==> forall s: Src, k: nat, t: Obj :: Holds(v, s, k, t) && (s, k) in v.lapsed ==> t in v.marked
  {
    hide Ready, Traced;
    if Settled(v) {
      forall s: Src, k: nat, t: Obj | Holds(v, s, k, t) ensures t in v.marked {
        match s
        case Heap(o) => assert Edge(v.m, o, t);
        case InRoot(i) => assert RootTarget(v.m, t);
      }
    } else {
      NotSettled(v);
    }
  }

  lemma NotSettled(v: View)
    requires Ready(v) && v.state.Quiet? && v.written == {} && !v.rootsTouched && !Settled(v)
    ensures exists s: Src, k: nat, t: Obj :: Holds(v, s, k, t) && (s, k) in v.lapsed && t !in v.marked
  {
    hide Ready, Traced;
    if !Closed(v.m, v.marked) {
      var o: Obj, t: Obj :| o in v.marked && Edge(v.m, o, t) && t !in v.marked;
      var k: nat :| PointsTo(v.m, Heap(o), k, t);
      if (Heap(o), k) !in v.lapsed { CleanLeadsToMarked(v, o, k, t); }
      assert Holds(v, Heap(o), k, t);
    } else {
      var t: Obj :| t in RootTargets(v.m) && t !in v.marked;
      var i: nat, k: nat :| i < |v.m.roots| && PointsTo(v.m, InRoot(i), k, t);
      if (InRoot(i), k) !in v.lapsed { RootLeadsToMarked(v, i, k, t); }
      assert Holds(v, InRoot(i), k, t);
    }
  }

  ghost function Succ(m: Memory, p: Obj): set<Obj> {
    set t | t in m.words && Edge(m, p, t)
  }

  /** What is reachable from p by a chain of one or more pointers. */
  ghost function Plus(m: Memory, p: Obj): set<Obj> {
    ReachSet(m, Succ(m, p))
  }

  lemma PlusClosed(m: Memory, p: Obj)
    ensures Closed(m, Plus(m, p))
    ensures forall t: Obj | Edge(m, p, t) :: t in Plus(m, p)
  {
    ReachSetClosed(m, Succ(m, p));
    hide ReachSet;
    forall t: Obj | Edge(m, p, t) ensures t in Succ(m, p) {
    }
  }

  lemma ClosedUnion(m: Memory, a: set<Obj>, b: set<Obj>)
    requires Closed(m, a) && Closed(m, b)
    ensures Closed(m, a + b)
  {
    hide Edge;
  }

  ghost predicate DuringFO(u: View, v: View, p: Obj) {
    && u.state.Quiet? && v.m == u.m && v.written == {} && v.lapsed == iset{} && v.bound == u.marked + Plus(u.m, p)
    && Closed(u.m, u.marked) && RootTargets(u.m) <= u.marked <= v.marked
    && (v.state.Quiet? || (v.state.Invalid? && v.objectsAreMarked)) && v.watch == Watched(u.m, p)
    && (u.objectsAreMarked ==> v.objectsAreMarked) && (v.objectsAreMarked || v.marked == u.marked)
    && v.stackSize == u.stackSize && |u.marked| <= |v.marked|
    && (if v.state.Quiet? then |v.stack| + |u.marked| <= 1 + |v.marked| else |u.marked| + u.stackSize <= |v.marked|)
  }

  function Watched(m: Memory, p: Obj): set<Src> {
    if Traced(m, p) then {Heap(p)} else {}
  }

  // The contents of p are on the stack, if it has any, and nothing else is.
  lemma StartFO(u: View, v: View, p: Obj)
    requires Ready(u) && Settled(u) && p in u.m.words
    requires v == u.(bound := u.marked + Plus(u.m, p), watch := Watched(u.m, p), stack := v.stack, lapsed := iset{})
    requires v.stack == if Traced(u.m, p) then [Entry(Heap(p), 0, |WordsOf(u.m, Heap(p))|)] else []
    ensures Inv(v, [], Done) && DuringFO(u, v, p)
  {
    hide Ready, Wf, EntryOk, Closed, CountsOk, DirtyOk, Plus, HeapI, RootsI, SrcOk, WordOk, RootTargets, Edge, PointsTo, Shape, BoundOk;
    PlusClosed(u.m, p);
    ReadyParts(u);
    ClosedUnion(u.m, u.marked, Plus(u.m, p));
    FOBound(u, v, p);
    ShapeWf(u);
    FOEntry(u, v, p);
    FOShape(u, v, p);
    FOWords(u, v, p);
  }

  lemma FOShape(u: View, v: View, p: Obj)
    requires Shape(u) && u.stack == []
    requires v == u.(bound := v.bound, watch := v.watch, stack := v.stack, lapsed := v.lapsed)
    requires v.stack == if Traced(u.m, p) then [Entry(Heap(p), 0, |WordsOf(u.m, Heap(p))|)] else []
    requires Traced(u.m, p) ==> EntryOk(v.m, v.bound, Entry(Heap(p), 0, |WordsOf(u.m, Heap(p))|))
    ensures Shape(v)
  {
    hide Wf, EntryOk;
  }

  lemma ReadyParts(u: View)
    requires Ready(u)
    ensures Shape(u) && CountsOk(u) && DirtyOk(u) && HeapI(u, [], From(u.scanPtr)) && RootsI(u, []) && BoundOk(u)
    ensures u.state.Quiet? ==> u.stack == []
  {
    hide Wf, HeapI, RootsI, EntryOk, CountsOk, DirtyOk, BoundOk;
  }

  lemma FOBound(u: View, v: View, p: Obj)
    requires Settled(u) && Closed(u.m, u.marked + Plus(u.m, p))
    requires v.m == u.m && v.marked == u.marked && v.bound == u.marked + Plus(u.m, p)
    ensures BoundOk(v)
  {
    hide Closed, Plus, RootTarget;
    forall t: Obj | RootTarget(v.m, t) ensures t in v.bound {
      RootIsTarget(v.m, t);
    }
  }

  lemma RootIsTarget(m: Memory, t: Obj)
    requires RootTarget(m, t)
    ensures t in RootTargets(m)
  {
  }

  lemma FOEntry(u: View, v: View, p: Obj)
    requires Wf(u.m) && p in u.m.words && v.m == u.m && v.bound == u.marked + Plus(u.m, p)
    requires forall t: Obj | Edge(u.m, p, t) :: t in Plus(u.m, p)
    ensures Traced(u.m, p) ==> EntryOk(v.m, v.bound, Entry(Heap(p), 0, |WordsOf(u.m, Heap(p))|))
  {
    hide Plus;
    if Traced(u.m, p) {
      forall k: nat | k < |u.m.words[p]| && u.m.words[p][k].Pointer? && u.m.words[p][k].target in u.m.words
        ensures u.m.words[p][k].target in v.bound
      {
        assert PointsTo(u.m, Heap(p), k, u.m.words[p][k].target);
        assert Edge(u.m, p, u.m.words[p][k].target);
      }
    }
  }

  lemma FOWords(u: View, v: View, p: Obj)
    requires u.stack == [] && Settled(u) && Shape(u) && CountsOk(u) && DirtyOk(u)
    requires v == u.(bound := v.bound, watch := Watched(u.m, p), stack := v.stack, lapsed := iset{})
    requires v.stack == if Traced(u.m, p) then [Entry(Heap(p), 0, |WordsOf(u.m, Heap(p))|)] else []
    ensures HeapI(v, [], Done) && RootsI(v, []) && CountsOk(v) && DirtyOk(v)
    ensures Traced(u.m, p) ==> SrcOk(v, [], Heap(p))
  {
    SettledFollowed(v);
    if Traced(u.m, p) {
      forall k: nat ensures WordOk(v, [], Heap(p), k) {
        OnOne(v.stack[0], Heap(p), k);
      }
    }
    hide SrcOk, Closed, RootTargets;
    SameMarks2(u, v);
  }

  // In a settled state, all words of marked objects and of roots lead to marked objects, lapsed or not.
  lemma SettledFollowed(v: View)
    requires v.marked <= v.m.words.Keys && Closed(v.m, v.marked) && RootTargets(v.m) <= v.marked
    ensures forall o | o in v.marked && Traced(v.m, o) :: SrcOk(v, [], Heap(o))
    ensures forall i: nat | i < |v.m.roots| :: SrcOk(v, [], InRoot(i))
  {
    forall o, k: nat | o in v.marked && Traced(v.m, o) ensures WordOk(v, [], Heap(o), k) {
      var ws := WordsOf(v.m, Heap(o));
      if k < |ws| && ws[k].Pointer? && ws[k].target in v.m.words {
        assert PointsTo(v.m, Heap(o), k, ws[k].target);
        assert Edge(v.m, o, ws[k].target);
      }
    }
    forall i: nat, k: nat | i < |v.m.roots| ensures WordOk(v, [], InRoot(i), k) {
      var ws := WordsOf(v.m, InRoot(i));
      if k < |ws| && ws[k].Pointer? && ws[k].target in v.m.words {
        assert PointsTo(v.m, InRoot(i), k, ws[k].target);
        assert RootTarget(v.m, ws[k].target);
      }
    }
  }

  // In an invalid state everything is going to be followed, also words that have lapsed.
  lemma InvalidForgets(v: View, w: View)
    requires Prepared(v) && v.state.Invalid? && w == v.(lapsed := w.lapsed)
    ensures Prepared(w)
  {
    hide Wf, EntryOk, Closed, RootTarget, PageIn, CountOk, SrcOk, KeepsMark;
    forall o | o in w.marked && Traced(w.m, o) ensures Pending(w, From(w.scanPtr), o) {
    }
  }

  // Fewer words are spoken of: the invariant still holds.
  lemma MoreLapsed(v: View, w: View)
    requires w == v.(lapsed := w.lapsed) && v.lapsed <= w.lapsed
    ensures Prepared(v) ==> Prepared(w)
    ensures Ready(v) ==> Ready(w)
    ensures Settled(v) ==> Settled(w)
  {
    hide Wf, EntryOk, Closed, RootTargets, RootTarget, PageIn, CountOk;
    forall s: Src ensures SrcOk(v, [], s) ==> SrcOk(w, [], s) {
      forall k: nat ensures WordOk(v, [], s, k) ==> WordOk(w, [], s, k) {
      }
    }
    hide SrcOk, Pending;
  }

  lemma SameMarks2(v: View, w: View)
    requires w.m == v.m && w.marked == v.marked && w.nMarks == v.nMarks && w.written == v.written && w.dirty == v.dirty
    requires w.dirtyMaintained == v.dirtyMaintained && w.exact == v.exact
    ensures CountsOk(v) ==> CountsOk(w)
    ensures DirtyOk(v) ==> DirtyOk(w)
  {
  }

  lemma DuringFacts(u: View, v: View, p: Obj)
    requires DuringFO(u, v, p)
    ensures v.m == u.m && Closed(u.m, u.marked) && RootTargets(u.m) <= u.marked <= v.marked
    ensures v.written == {} && v.lapsed == iset{} && v.bound == u.marked + Plus(u.m, p)
    ensures v.state.Quiet? || (v.state.Invalid? && v.objectsAreMarked)
  {
    hide Closed, RootTargets, Plus;
  }

  // The stack overflows only if it does not hold as many entries as there are unmarked objects to find.
  lemma OverflowNeeds(u: View, v: View, p: Obj)
    requires DuringFO(u, v, p) && Inv(v, [], Done) && v.state.Invalid?
    ensures u.stackSize <= |Plus(u.m, p) - u.marked|
  {
    InvBounds(v, Done);
    hide Closed, RootTargets, Plus, Inv;
    assert v.marked - u.marked <= Plus(u.m, p) - u.marked;
    SizeOfRest(u.marked, v.marked);
    SubsetSize(v.marked - u.marked, Plus(u.m, p) - u.marked);
  }

  lemma SizeOfRest(a: set<Obj>, b: set<Obj>)
    requires a <= b
    ensures |b - a| == |b| - |a|
  {
    assert a + (b - a) == b;
  }

  // Draining the stack ends: every turn marks something or shortens what is left.
  lemma NearerToEmpty(u: View, v: View, w: View, p: Obj)
    requires DuringFO(u, v, p) && Advances(v, w) && w.objectsAreMarked && Inv(w, [], Done)
    ensures DuringFO(u, w, p)
    ensures Unmarked(w) < Unmarked(v) || (Unmarked(w) == Unmarked(v) && StackWords(w.stack) < StackWords(v.stack))
  {
    InvBounds(w, Done);
    hide Closed, RootTargets, Plus, Inv, StackWords;
    if v.marked < w.marked {
      MarkingCosts(v, w);
    }
  }

  lemma InvBounds(v: View, rest: Rest)
    requires Inv(v, [], rest)
    ensures v.marked <= v.bound && v.marked <= v.m.words.Keys
  {
    hide Wf, HeapI, RootsI, DirtyOk, CountsOk, EntryOk, WatchI;
  }

  // The stack is empty and was never full: the marks are closed again and hold what p leads to.
  lemma EndFO(u: View, v: View, w: View, p: Obj)
    requires Inv(v, [], Done) && DuringFO(u, v, p) && v.state.Quiet? && v.stack == [] && w == v.(watch := {})
    requires Ready(u) && p in u.m.words
    ensures Ready(w) && Settled(w) && w.marked == u.marked + Plus(u.m, p)
    ensures u.objectsAreMarked ==> w.objectsAreMarked
  {
    hide Closed, RootTargets, Plus, Inv, Ready;
    Unwatched(u, v, w, p);
    InvBounds(v, Done);
    QuietClosed(w);
    WatchedFollowed(u, v, p);
    SuccClosed(v.m, v.marked, p);
  }

  lemma Unwatched(u: View, v: View, w: View, p: Obj)
    requires Inv(v, [], Done) && DuringFO(u, v, p) && v.state.Quiet? && v.stack == [] && w == v.(watch := {}) && Ready(u)
    ensures Ready(w)
  {
    hide Closed, RootTargets, Plus, SrcOk, Wf, EntryOk, DirtyOk, CountsOk, HeapI, RootsI, BoundOk, WatchI, Ready, Traced;
    SameMarks(v, w);
    SameMarks2(v, w);
    UnwatchedI(v, w);
    FlagsStay(u, w);
    QuietReady(w);
  }

  lemma UnwatchedI(v: View, w: View)
    requires w == v.(watch := {}) && v.state.Quiet? && HeapI(v, [], Done) && RootsI(v, []) && Shape(v)
    ensures HeapI(w, [], From(w.scanPtr)) && RootsI(w, []) && WatchI(w, []) && Shape(w)
  {
    hide Wf, EntryOk, SrcOk;
    SameMarks(v, w);
  }

  lemma QuietReady(w: View)
    requires Shape(w) && CountsOk(w) && BoundOk(w) && DirtyOk(w) && HeapI(w, [], From(w.scanPtr)) && RootsI(w, []) && WatchI(w, [])
    requires w.state.Quiet? && w.stack == [] && w.watch == {}
    requires !w.objectsAreMarked ==>
              forall o | o in w.marked && o in w.m.home && w.m.home[o] in w.m.blocks :: IsUncollectable(w.m.blocks[w.m.home[o]].kind)
    ensures Ready(w)
  {
    hide Shape, CountsOk, BoundOk, DirtyOk, HeapI, RootsI, WatchI;
  }

  lemma FlagsStay(u: View, w: View)
    requires Ready(u) && w.m == u.m && u.marked <= w.marked
    requires w.objectsAreMarked || (w.marked == u.marked && !u.objectsAreMarked)
    ensures !w.objectsAreMarked ==>
              forall o | o in w.marked && o in w.m.home && w.m.home[o] in w.m.blocks :: IsUncollectable(w.m.blocks[w.m.home[o]].kind)
  {
    hide Inv;
  }

  lemma QuietClosed(w: View)
    requires Ready(w) && w.state.Quiet? && w.written == {} && w.lapsed == iset{}
    ensures Closed(w.m, w.marked)
  {
    forall o: Obj, t: Obj | o in w.marked && Edge(w.m, o, t) ensures t in w.marked {
      var k: nat :| PointsTo(w.m, Heap(o), k, t);
      CleanLeadsToMarked(w, o, k, t);
    }
  }

  lemma WatchedFollowed(u: View, v: View, p: Obj)
    requires Inv(v, [], Done) && DuringFO(u, v, p) && v.state.Quiet? && v.stack == []
    ensures Succ(v.m, p) <= v.marked
  {
    hide Wf, EntryOk, HeapI, RootsI, CountsOk, DirtyOk, BoundOk, Closed, RootTargets, Plus;
    forall t | t in Succ(v.m, p) ensures t in v.marked {
      var k: nat :| PointsTo(v.m, Heap(p), k, t);
      assert SrcOk(v, [], Heap(p));
      assert WordOk(v, [], Heap(p), k);
    }
  }

  lemma SuccClosed(m: Memory, c: set<Obj>, p: Obj)
    requires Closed(m, c) && Succ(m, p) <= c
    ensures Plus(m, p) <= c
  {
    ClosedHoldsReachable(m, c, Succ(m, p));
  }

  // After an overflow: p is marked too, and everything is to be followed again.
  lemma RemarkReady(u: View, v: View, w: View, p: Obj)
    requires Inv(v, [], Done) && DuringFO(u, v, p) && v.state.Invalid? && v.stack == [] && p in v.m.words && CountsOk(w)
    requires w == v.(marked := v.marked + {p}, nMarks := w.nMarks, watch := {}, bound := v.bound + {p})
    ensures Ready(w)
  {
    hide Closed, RootTargets, Plus, Wf, EntryOk, CountsOk, RootTarget, PageIn;
    BoundWithP(u, v, w, p);
  }

  lemma BoundWithP(u: View, v: View, w: View, p: Obj)
    requires BoundOk(v) && DuringFO(u, v, p)
    requires w.m == v.m && w.bound == v.bound + {p}
    ensures Closed(w.m, w.bound)
  {
    PlusClosed(u.m, p);
    hide Plus, RootTarget;
  }

  lemma RemarkDone(u: View, v: View, w: View, p: Obj)
    requires Ready(w) && w.state.Quiet? && w.m == u.m && w.written == {} && w.lapsed == iset{} && v.marked <= w.marked
    requires w.bound == u.marked + Plus(u.m, p) + {p} && u.marked + {p} <= v.marked
    requires RootTargets(u.m) <= u.marked
    ensures Settled(w) && w.marked == u.marked + Plus(u.m, p) + {p}
  {
    hide Closed, RootTargets, Plus, Inv, Ready, Edge;
    MarkedIsBounded(w);
    QuietClosed(w);
    SuccIn(w.m, w.marked, p);
    SuccClosed(w.m, w.marked, p);
  }

  lemma SuccIn(m: Memory, c: set<Obj>, p: Obj)
    requires Closed(m, c) && p in c
    ensures Succ(m, p) <= c
  {
    hide Edge;
  }

  lemma SettledIsQuiet(v: View)
    requires Settled(v)
    ensures v.state.Quiet? && v.written == {}
  {
  }

  lemma RoomAndHome(v: View, p: Obj)
    requires Shape(v) && CountsOk(v) && p in v.m.words
    ensures p in v.m.home && v.m.home[p] in v.m.blocks
    ensures v.stackSize >= INITIAL_MARK_STACK_SIZE
  {
    HomeFacts(v, p);
  }

  // Marking objects all of whose pointers lead to marked objects keeps a settled state settled.
  lemma SettledGrows(v: View, w: View, more: set<Obj>)
    requires Ready(v) && Settled(v) && v.objectsAreMarked && CountsOk(w)
    requires w == v.(marked := v.marked + more, nMarks := w.nMarks, bound := v.marked + more)
    requires more <= v.m.words.Keys && forall o | o in more :: Succ(v.m, o) <= v.marked
    ensures Ready(w) && Settled(w)
  {
    hide RootTargets, SrcOk, Wf, EntryOk, CountsOk, DirtyOk, Pending, Edge, RootTarget, Ready;
    ReadyParts(v);
    forall o: Obj, t: Obj | o in w.marked && Edge(w.m, o, t) ensures t in w.marked {
      if o !in v.marked { InSucc(w.m, o, t); }
    }
    forall t: Obj | RootTarget(w.m, t) ensures t in w.bound {
      RootIsTarget(w.m, t);
    }
    SettledI(v, w, more);
    QuietReadyMarked(v, w);
  }

  lemma InSucc(m: Memory, o: Obj, t: Obj)
    requires Edge(m, o, t)
    ensures t in Succ(m, o)
  {
  }

  lemma SettledI(v: View, w: View, more: set<Obj>)
    requires HeapI(v, [], From(v.scanPtr)) && RootsI(v, []) && v.state.Quiet? && v.written == {}
    requires w == v.(marked := v.marked + more, nMarks := w.nMarks, bound := v.marked + more)
    requires more <= v.m.words.Keys && forall o | o in more :: Succ(v.m, o) <= v.marked
    ensures HeapI(w, [], From(w.scanPtr)) && RootsI(w, [])
  {
    forall s: Src | SrcOk(v, [], s) ensures SrcOk(w, [], s) {
      forall k: nat ensures WordOk(w, [], s, k) {
        assert WordOk(v, [], s, k);
      }
    }
    forall o | o in more && Traced(v.m, o) ensures SrcOk(w, [], Heap(o)) {
      SuccFollowed(v, w, o);
    }
  }

  lemma SuccFollowed(v: View, w: View, o: Obj)
    requires w.m == v.m && v.marked <= w.marked && o in v.m.words && Traced(v.m, o) && Succ(v.m, o) <= v.marked
    ensures SrcOk(w, [], Heap(o))
  {
    forall k: nat ensures WordOk(w, [], Heap(o), k) {
      var ws := WordsOf(w.m, Heap(o));
      if k < |ws| && ws[k].Pointer? && ws[k].target in w.m.words {
        assert PointsTo(w.m, Heap(o), k, ws[k].target);
        assert Edge(v.m, o, ws[k].target);
      }
    }
  }

  lemma QuietReadyMarked(v: View, w: View)
    requires Shape(v) && DirtyOk(v) && v.stack == [] && v.state.Quiet? && v.objectsAreMarked && Ready(v)
    requires w == v.(marked := w.marked, nMarks := w.nMarks, bound := w.bound) && w.marked <= v.m.words.Keys
    requires CountsOk(w) && Closed(w.m, w.bound) && w.marked <= w.bound
    requires forall t: Obj :: RootTarget(w.m, t) ==> t in w.bound
    requires HeapI(w, [], From(w.scanPtr)) && RootsI(w, [])
    ensures Ready(w)
  {
    hide HeapI, RootsI, Wf, EntryOk, CountsOk, Closed;
  }
}
