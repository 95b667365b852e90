// A heap in which marking from a registered object overflows a mark stack of the initial size, and its
// finalizer is held back although nothing leads to the object: gc/include/private/gc_pmark.h and gc/finalize.c.

module OverflowExample {
  import opened HeapGraph
  import opened MarkInvariant
  import Draining
  import opened Finalize

  const FAN: nat := 126
  const NODES: nat := 33
  const LAST: nat := FAN * NODES

  /** Object FAN * i is node i.  It points to the FAN objects after it: FAN - 1 leaves, then the next node. */
  predicate IsNode(o: Obj) {
    o % FAN == 0 && o < LAST
  }

  function Contents(o: Obj): (ws: seq<Word>)
    ensures |ws| == if IsNode(o) then FAN else 2
    ensures forall k | 0 <= k < |ws| :: ws[k] == if IsNode(o) then Pointer(o + 1 + k) else NotPlausible
  {
    if IsNode(o) then seq(FAN, k requires 0 <= k < FAN => Pointer(o + 1 + k)) else [NotPlausible, NotPlausible]
  }

  function Objects(n: nat): (r: set<Obj>)
    ensures forall o: Obj :: o in r <==> o < n
  {
    if n == 0 then {} else Objects(n - 1) + {n - 1}
  }

  /** Every object has a block of its own; all of them may hold pointers. */
  function Comb(): Memory {
    var os, starts := Objects(LAST + 1), Objects(LAST + 2) - {0};
    Memory(map a | a in starts :: Block(1, Normal, |Contents(a - 1)| / 2, {a - 1}),
           map o | o in os :: o + 1, map o | o in os :: Contents(o), [], map[], LAST + 1)
  }

  lemma CombHas(o: Obj)
    ensures var m := Comb();
            && (o in m.words <==> o <= LAST) && (o <= LAST ==> m.words[o] == Contents(o) && Traced(m, o))
            && (o in m.home <==> o <= LAST) && (o <= LAST ==> m.home[o] == o + 1)
            && (o <= LAST ==> o + 1 in m.blocks && m.blocks[o + 1] == Block(1, Normal, |Contents(o)| / 2, {o}))
            && m.roots == [] && m.stale == map[] && m.next == LAST + 1
  {
    hide Contents, Objects;
    var starts := Objects(LAST + 2) - {0};
    assert o + 1 in starts <==> o <= LAST;
    assert o in Objects(LAST + 1) <==> o <= LAST;
  }

  lemma CombBlocks()
    ensures forall a: nat :: a in Comb().blocks <==> 1 <= a <= LAST + 1
    ensures BlocksOk(Comb())
  {
    hide Contents;
  }

  ghost predicate ObjectOk(m: Memory, o: Obj) {
    && o in m.words && o in m.home && m.home[o] in m.blocks && o in m.blocks[m.home[o]].objs && |m.words[o]| > 0 && o < m.next
    && forall k: nat | k < |m.words[o]| && m.words[o][k].Pointer? :: m.words[o][k].target < m.next
  }

  lemma CombObject(o: Obj)
    ensures o in Comb().words <==> o in Comb().home
    ensures o in Comb().words ==> ObjectOk(Comb(), o)
  {
    hide Comb, Contents, Traced, IsNode;
    CombHas(o);
    ContentsFit(o);
  }

  lemma WfByObject(m: Memory)
    requires BlocksOk(m) && StaleOk(m) && m.roots == [] && m.home.Keys == m.words.Keys
    requires forall o | o in m.words :: ObjectOk(m, o)
    ensures Wf(m)
  {
    hide BlocksOk, StaleOk;
  }

  lemma CombWf()
    ensures Wf(Comb())
  {
    hide Comb, BlocksOk, Contents, Traced, IsNode, StaleOk, Wf, ObjectOk;
    ghost var m := Comb();
    CombBlocks();
    CombHas(0);
    NothingStale(m);
    forall o: Obj ensures o in m.words <==> o in m.home ensures o in m.words ==> ObjectOk(m, o) {
      CombObject(o);
    }
    assert m.home.Keys == m.words.Keys;
    WfByObject(m);
  }

  lemma NothingStale(m: Memory)
    requires m.stale == map[]
    ensures StaleOk(m)
  {
  }

  lemma ContentsFit(o: Obj)
    ensures |Contents(o)| > 0
    ensures forall k | 0 <= k < |Contents(o)| && Contents(o)[k].Pointer? :: o + 1 + k <= LAST && Contents(o)[k].target == o + 1 + k
  {
    if IsNode(o) { NodeFits(o); }
    hide IsNode;
  }

  lemma NodeFits(o: Obj)
    requires IsNode(o)
    ensures o + FAN <= LAST
  {
    var i := o / FAN;
    assert o == FAN * i && i < NODES;
  }

  lemma NodeFacts(i: nat)
    requires i < NODES
    ensures IsNode(FAN * i) && FAN * i + FAN <= LAST
  {
  }

  /** No mark bit is set in this heap, and a mark phase has just ended. */
  ghost function CombView(): View {
    View(Comb(), {}, map a | a in Comb().blocks :: 0, Quiet, 0, true, [], INITIAL_MARK_STACK_SIZE, false, {}, {}, {}, false, {}, {}, true, {}, iset{})
  }

  lemma CombReady()
    ensures Ready(CombView()) && Settled(CombView())
  {
    hide Comb, Wf, Ready, Settled, Contents, Traced, IsNode;
    CombWf();
    CombHas(0);
    NothingMarked(CombView());
  }

  lemma NothingMarked(v: View)
    requires Wf(v.m) && v.m.roots == [] && v.marked == {} && v.bound == {} && v.stack == [] && v.state.Quiet?
    requires v.written == {} && v.watch == {} && v.objectsAreMarked && v.stackSize >= INITIAL_MARK_STACK_SIZE
    requires v.nMarks.Keys == v.m.blocks.Keys && forall a | a in v.nMarks :: v.nMarks[a] == 0
    ensures Ready(v) && Settled(v)
  {
    hide Wf, Edge, SrcOk, PageIn, Pending, WordsOf, EntryOk, RootTarget, Traced, Above, CountsOk;
    NoRootTargets(v.m);
    NoCounts(v);
  }

  lemma NoCounts(v: View)
    requires v.marked == {} && v.nMarks.Keys == v.m.blocks.Keys && forall a | a in v.nMarks :: v.nMarks[a] == 0
    ensures CountsOk(v)
  {
    forall a | a in v.m.blocks ensures a in v.nMarks && CountOk(v.exact, v.nMarks[a], |v.marked * v.m.blocks[a].objs|) {
      assert v.marked * v.m.blocks[a].objs == {};
    }
  }

  lemma NoRootTargets(m: Memory)
    requires m.roots == []
    ensures forall t: Obj :: !RootTarget(m, t)
  {
  }

  // Nothing leads to object 0.
  lemma NothingLeadsToFirst()
    ensures 0 !in Plus(Comb(), 0)
  {
    hide Comb, Contents, IsNode, Traced, ReachSet;
    var m := Comb();
    var c := Objects(LAST + 1) - {0};
    forall o: Obj, t: Obj | Edge(m, o, t) ensures t in c {
      var k: nat :| PointsTo(m, Heap(o), k, t);
      CombHas(o);
      CombHas(t);
      ContentsFit(o);
    }
    ClosedHoldsReachable(m, c, Succ(m, 0));
  }

  // ----- marking from object 0

  /** The stack when the marker comes to node i: FAN - 1 leaves of every node before, and node i on top. */
  ghost predicate AtNode(d: Draining.State, i: nat) {
    && !d.full && |d.stack| == (FAN - 1) * i + 1 && d.stack[|d.stack| - 1] == Entry(Heap(FAN * i), 0, FAN)
    && forall o: Obj :: o in d.marked <==> 1 <= o <= FAN * i
  }

  /** The first k words of node i have been pushed. */
  ghost predicate Pushed(d: Draining.State, i: nat, k: nat) {
    && !d.full && |d.stack| == (FAN - 1) * i + k
    && (forall o: Obj :: o in d.marked <==> 1 <= o <= FAN * i + k)
    && (k > 0 ==> d.stack[|d.stack| - 1] == Entry(Heap(FAN * i + k), 0, |Contents(FAN * i + k)|))
  }

  lemma PushWord(d: Draining.State, i: nat, k: nat)
    requires d.full || Pushed(d, i, k)
    requires i < NODES && k < FAN
    ensures var e := Draining.Push(Comb(), INITIAL_MARK_STACK_SIZE, d, Pointer(FAN * i + 1 + k));
            if Pushed(d, i, k) && (FAN - 1) * i + k < INITIAL_MARK_STACK_SIZE then Pushed(e, i, k + 1) else e.full
  {
    hide Comb, Traced, Contents, IsNode, Draining.Push;
    NodeFacts(i);
    CombHas(FAN * i + 1 + k);
    if d.full {
      Draining.PushFull(Comb(), INITIAL_MARK_STACK_SIZE, d, Pointer(FAN * i + 1 + k));
    } else {
      Draining.PushFresh(Comb(), INITIAL_MARK_STACK_SIZE, d, FAN * i + 1 + k);
    }
  }

  lemma {:induction false} PushWords(d: Draining.State, i: nat, k: nat)
    requires Pushed(d, i, 0) && i < NODES && k <= FAN
    ensures var e := Draining.PushAll(Comb(), INITIAL_MARK_STACK_SIZE, d, Contents(FAN * i)[..k]);
            if (FAN - 1) * i + k <= INITIAL_MARK_STACK_SIZE then Pushed(e, i, k) else e.full
    decreases k
  {
    hide Comb, Draining.Push, IsNode;
    var ws := Contents(FAN * i);
    NodeFacts(i);
    if k == 0 {
      assert ws[..0] == [];
    } else {
      PushWords(d, i, k - 1);
      assert ws[..k][..k - 1] == ws[..k - 1];
      PushWord(Draining.PushAll(Comb(), INITIAL_MARK_STACK_SIZE, d, ws[..k - 1]), i, k - 1);
    }
  }

  lemma TurnAt(d: Draining.State, i: nat)
    requires AtNode(d, i) && i < NODES
    ensures var e := Draining.Turn(Comb(), INITIAL_MARK_STACK_SIZE, d);
            if (FAN - 1) * i + FAN <= INITIAL_MARK_STACK_SIZE then i + 1 < NODES && AtNode(e, i + 1) else e.full
  {
    hide Comb, Contents, IsNode, Draining.PushAll, Draining.Piece;
    PieceAt(i);
    PushWords(d.(stack := d.stack[..|d.stack| - 1]), i, FAN);
    assert d.stack[..|d.stack| - 1] + [] == d.stack[..|d.stack| - 1];
    if (FAN - 1) * i + FAN <= INITIAL_MARK_STACK_SIZE {
      PieceAt(i + 1);
      assert FAN * (i + 1) == FAN * i + FAN;
    }
  }

  // The words of a node are one piece.
  lemma PieceAt(i: nat)
    requires i < NODES
    ensures var e := Entry(Heap(FAN * i), 0, FAN);
            RestOf(e) == [] && Draining.Piece(Comb(), e) == Contents(FAN * i)[..FAN]
    ensures |Contents(FAN * i)| == FAN
  {
    hide Comb, IsNode;
    NodeFacts(i);
    CombHas(FAN * i);
    assert Contents(FAN * i)[0..FAN] == Contents(FAN * i)[..FAN];
  }

  lemma AtStart()
    ensures AtNode(Draining.Begin(Comb(), {}, 0), 0)
  {
    hide Comb, IsNode, Traced;
    NodeFacts(0);
    CombHas(0);
  }

  lemma {:induction false} Descent(i: nat)
    requires i < NODES
    ensures AtNode(Draining.Turns(Comb(), INITIAL_MARK_STACK_SIZE, Draining.Begin(Comb(), {}, 0), i), i)
    decreases i
  {
    hide AtNode, Comb, Draining.Turn, Draining.Begin;
    if i == 0 {
      AtStart();
    } else {
      Descent(i - 1);
      TurnAt(Draining.Turns(Comb(), INITIAL_MARK_STACK_SIZE, Draining.Begin(Comb(), {}, 0), i - 1), i - 1);
    }
  }

  lemma FirstOverflows()
    ensures Draining.Overflows(Comb(), {}, INITIAL_MARK_STACK_SIZE, 0)
  {
    Descent(NODES - 1);
    var d := Draining.Turns(Comb(), INITIAL_MARK_STACK_SIZE, Draining.Begin(Comb(), {}, 0), NODES - 1);
    TurnAt(d, NODES - 1);
    hide AtNode, Draining.Turn, Draining.Begin;
    assert Draining.Turns(Comb(), INITIAL_MARK_STACK_SIZE, Draining.Begin(Comb(), {}, 0), NODES).full;
  }

  // ----- GC_finalize in this heap, with object 0 as the only registered object

  lemma FirstOughtToRun(f: Fo)
    requires f.base == 0
    ensures OughtToRun([[f]], Comb(), {}, 0) && InTable([[f]], f) && Order([[f]]) == [0]
  {
    hide Comb, Plus;
    assert f in [[f]][0];
    assert [[f]][0][0] == f;
    assert Unreached([[f]], {}) == {0};
    assert OrderTo([[f]], 0, 1) == OrderTo([[f]], 0, 0) + [0];
    NothingLeadsToFirst();
    PlusAllNone(Comb());
    PlusAllAdd(Comb(), {}, 0);
    assert {} + {0} == {0};
  }

  lemma FirstTurn(met: seq<Obj>, sizes: seq<nat>, size0: nat, ov: set<Obj>)
    requires met == [0] && size0 == INITIAL_MARK_STACK_SIZE && TurnsOk(Comb(), {}, met, sizes, size0, ov)
    ensures ov == {0}
  {
    hide Comb, Plus, Draining.Overflows;
    FirstOverflows();
    assert met[..0] == [] && sizes[..0] == [];
  }

  // Nothing leads to object 0, so by the rule its finalizer would have to run; but it stays in the table.
  method FirstIsHeldBack(fin: Finalizer, f: Fo) returns (ghost q: seq<Fo>)
    requires fin.Valid() && fin.head == [[f]] && f.base == 0 && fin.mk.V() == CombView()
    modifies fin, fin.mk
    ensures OughtToRun([[f]], Comb(), {}, f.base)
    ensures fin.finalizeNow == q + old(fin.finalizeNow) && f !in q && InTable(fin.head, f)
  {
    hide Ready, Settled, Finalizer.Finalizable, Comb, OughtToRun, Order, TurnsOk, Overfull, InTable, fin.Valid, Through, SizesOk;
    FirstOughtToRun(f);
    CombReady();
    FirstExists(f);
    CombHas(0);
    var aborted, overflowed;
    ghost var sizes;
    aborted, overflowed, q, sizes := fin.Finalize();
    FirstTurn(Order([[f]]), sizes, INITIAL_MARK_STACK_SIZE, overflowed);
    NotQueued(f, q);
  }

  lemma FirstExists(f: Fo)
    requires f.base == 0
    ensures forall g: Fo :: InTable([[f]], g) ==> g.base in Comb().words
  {
    hide Comb;
    CombHas(0);
  }

  lemma NotQueued(f: Fo, q: seq<Fo>)
    requires f.base == 0 && Finalizer.Finalizable([[f]], Comb(), {}, {0}, q)
    ensures f !in q
  {
    hide Comb, PlusAll, Unreached, InTable;
  }
}
