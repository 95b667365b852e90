// Draining the mark stack as a function: what GC_mark_from does to the marks and the stack, in its order.

module Draining {
  import opened HeapGraph
  import opened MarkInvariant

  /** The marks, the mark stack, and whether a push has found it full. */
  datatype State = State(marked: set<Obj>, stack: seq<Entry>, full: bool)

  /** PUSH_CONTENTS on a word. */
  function Push(m: Memory, size: nat, d: State, w: Word): State {
    if !(w.Pointer? && w.target in m.words && w.target !in d.marked) then d
    else
      var marked := d.marked + {w.target};
      if !Traced(m, w.target) then d.(marked := marked)
      else
        var e := Entry(Heap(w.target), 0, |m.words[w.target]|);
        if |d.stack| < size then State(marked, d.stack + [e], d.full)
        else State(marked, (if |d.stack| < MARK_STACK_DISCARDS then [] else d.stack[..|d.stack| - MARK_STACK_DISCARDS]) + [e], true)
  }

  function PushAll(m: Memory, size: nat, d: State, ws: seq<Word>): State {
    if ws == [] then d else Push(m, size, PushAll(m, size, d, ws[..|ws| - 1]), ws[|ws| - 1])
  }

  /** The words that are scanned when e is on top of the stack. */
  function Piece(m: Memory, e: Entry): seq<Word> {
    var ws := WordsOf(m, e.src);
    if e.start + PieceLen(e) <= |ws| then ws[e.start..e.start + PieceLen(e)] else []
  }

  /** One turn of the loop of GC_mark_from. */
  function Turn(m: Memory, size: nat, d: State): State {
    if d.stack == [] then d
    else
      var e := d.stack[|d.stack| - 1];
      PushAll(m, size, d.(stack := d.stack[..|d.stack| - 1] + RestOf(e)), Piece(m, e))
  }

  // The turn in terms of the entry on top and those below it.
  lemma TurnIs(m: Memory, size: nat, d: State, below: seq<Entry>, e: Entry)
    requires d.stack == below + [e] && e.start + PieceLen(e) <= |WordsOf(m, e.src)|
    ensures Turn(m, size, d) == PushAll(m, size, d.(stack := below + RestOf(e)), WordsOf(m, e.src)[e.start..e.start + PieceLen(e)])
    ensures |below + RestOf(e)| <= |d.stack|
  {
    assert d.stack[..|d.stack| - 1] == below;
    hide PushAll, WordsOf, PieceLen;
  }

  function Turns(m: Memory, size: nat, d: State, n: nat): State {
    if n == 0 then d else Turn(m, size, Turns(m, size, d, n - 1))
  }

  /** What of the marker's state is worked on. */
  function Of(v: View): State {
    State(v.marked, v.stack, v.state.Invalid?)
  }

  // ----- one word

  // Setting the mark bit and PUSH_OBJ make up PUSH_CONTENTS.
  lemma MarkIsPush(v: View, w: View, t: Obj)
    requires |v.stack| <= v.stackSize && v.stackSize >= INITIAL_MARK_STACK_SIZE && t in v.m.words && t !in v.marked
    requires w == v.(marked := v.marked + {t}, nMarks := w.nMarks, stack := w.stack, state := w.state)
    requires if !Traced(v.m, t) then w.stack == v.stack && w.state == v.state else Pushed(v, w, t)
    ensures Of(w) == Push(v.m, v.stackSize, Of(v), Pointer(t)) && |w.stack| <= |v.stack| + 1
  {
    hide Traced;
  }

  lemma NothingToPush(m: Memory, size: nat, d: State, w: Word)
    requires !(w.Pointer? && w.target in m.words && w.target !in d.marked)
    ensures Push(m, size, d, w) == d
  {
  }

  lemma PushFresh(m: Memory, size: nat, d: State, t: Obj)
    requires t in m.words && t !in d.marked && Traced(m, t)
    ensures var e := Push(m, size, d, Pointer(t));
            if |d.stack| < size then e == State(d.marked + {t}, d.stack + [Entry(Heap(t), 0, |m.words[t]|)], d.full) else e.full
  {
  }

  lemma PushFull(m: Memory, size: nat, d: State, w: Word)
    requires d.full
    ensures Push(m, size, d, w).full
  {
  }

  // ----- words one after the other

  lemma PushNext(m: Memory, size: nat, d: State, ws: seq<Word>, lo: nat, k: nat)
    requires lo <= k < |ws|
    ensures PushAll(m, size, d, ws[lo..k + 1]) == Push(m, size, PushAll(m, size, d, ws[lo..k]), ws[k])
  {
    assert ws[lo..k + 1][..k - lo] == ws[lo..k];
  }

  lemma PushNone(m: Memory, size: nat, d: State, ws: seq<Word>, k: nat)
    requires k <= |ws|
    ensures PushAll(m, size, d, ws[k..k]) == d
  {
  }

  // Words that cannot be pointers change nothing.
  lemma {:induction false} Implausible(m: Memory, size: nat, d: State, ws: seq<Word>, lo: nat, mid: nat, hi: nat)
    requires lo <= mid <= hi <= |ws| && forall k | mid <= k < hi :: ws[k].NotPlausible?
    ensures PushAll(m, size, d, ws[lo..hi]) == PushAll(m, size, d, ws[lo..mid])
    decreases hi
  {
    if mid < hi {
      Implausible(m, size, d, ws, lo, mid, hi - 1);
      PushNext(m, size, d, ws, lo, hi - 1);
    }
  }

  // ----- turns one after the other

  lemma NoTurns(m: Memory, size: nat, d: State)
    ensures Turns(m, size, d, 0) == d
  {
  }

  lemma {:induction false} TurnsAdd(m: Memory, size: nat, d: State, j: nat, n: nat)
    ensures Turns(m, size, Turns(m, size, d, j), n) == Turns(m, size, d, j + n)
    decreases n
  {
    hide Turn;
    if n > 0 {
      TurnsAdd(m, size, d, j, n - 1);
    }
  }

  // Once the stack is empty nothing changes.
  lemma {:induction false} Stuck(m: Memory, size: nat, d: State, n: nat)
    requires d.stack == []
    ensures Turns(m, size, d, n) == d
    decreases n
  {
    if n > 0 { Stuck(m, size, d, n - 1); }
  }

  lemma {:induction false} FullStays(m: Memory, size: nat, d: State, ws: seq<Word>)
    requires d.full
    ensures PushAll(m, size, d, ws).full
    decreases |ws|
  {
    hide Push;
    if ws != [] {
      FullStays(m, size, d, ws[..|ws| - 1]);
      PushFull(m, size, PushAll(m, size, d, ws[..|ws| - 1]), ws[|ws| - 1]);
    }
  }

  lemma TurnStaysFull(m: Memory, size: nat, d: State)
    requires d.full
    ensures Turn(m, size, d).full
  {
    hide PushAll, RestOf, Piece;
    if d.stack != [] {
      var e := d.stack[|d.stack| - 1];
      FullStays(m, size, d.(stack := d.stack[..|d.stack| - 1] + RestOf(e)), Piece(m, e));
    }
  }

  lemma {:induction false} FullForever(m: Memory, size: nat, d: State, n: nat)
    requires d.full
    ensures Turns(m, size, d, n).full
    decreases n
  {
    hide Turn;
    if n > 0 {
      FullForever(m, size, d, n - 1);
      TurnStaysFull(m, size, Turns(m, size, d, n - 1));
    }
  }

  // ----- does marking from p overflow the stack?

  /** GC_normal_finalize_mark_proc: the contents of p are on the stack, and nothing else is. */
  function Begin(m: Memory, marked: set<Obj>, p: Obj): State
    requires p in m.words
  {
    State(marked, if Traced(m, p) then [Entry(Heap(p), 0, |m.words[p]|)] else [], false)
  }

  /** Marking from p with a stack of this size finds it full at some time. */
  ghost predicate Overflows(m: Memory, marked: set<Obj>, size: nat, p: Obj) {
    p in m.words && exists n: nat :: Turns(m, size, Begin(m, marked, p), n).full
  }

  // If the stack has been emptied after some turns, these turns tell whether it overflows.
  lemma OverflowsIff(m: Memory, marked: set<Obj>, size: nat, p: Obj, n: nat)
    requires p in m.words && Turns(m, size, Begin(m, marked, p), n).stack == []
    ensures Overflows(m, marked, size, p) <==> Turns(m, size, Begin(m, marked, p), n).full
  {
    hide Turns, Begin;
    var d := Begin(m, marked, p);
    if Overflows(m, marked, size, p) {
      var k: nat :| Turns(m, size, d, k).full;
      if k <= n {
        FullForever(m, size, Turns(m, size, d, k), n - k);
        TurnsAdd(m, size, d, k, n - k);
      } else {
        Stuck(m, size, Turns(m, size, d, n), k - n);
        TurnsAdd(m, size, d, n, k - n);
      }
    }
  }

  // ----- other threads store into marked objects meanwhile

  /** The memories differ at most in the contents of the objects in m0, and in the roots. */
  predicate Agree(m: Memory, m': Memory, m0: set<Obj>) {
    && m'.words.Keys == m.words.Keys && m'.blocks == m.blocks && m'.home == m.home
    && forall o | o in m.words && o !in m0 :: m'.words[o] == m.words[o]
  }

  /** m0 is marked, and nothing of it is on the stack. */
  predicate Apart(m: Memory, m0: set<Obj>, d: State) {
    && m0 <= d.marked
    && forall i | 0 <= i < |d.stack| :: d.stack[i].src.Heap? && d.stack[i].src.o in m.words && d.stack[i].src.o !in m0
  }

  lemma PushAgrees(m: Memory, m': Memory, m0: set<Obj>, size: nat, d: State, w: Word)
    requires Agree(m, m', m0) && Apart(m, m0, d)
    ensures Push(m', size, d, w) == Push(m, size, d, w) && Apart(m, m0, Push(m, size, d, w))
  {
  }

  lemma {:induction false} PushAllAgrees(m: Memory, m': Memory, m0: set<Obj>, size: nat, d: State, ws: seq<Word>)
    requires Agree(m, m', m0) && Apart(m, m0, d)
    ensures PushAll(m', size, d, ws) == PushAll(m, size, d, ws) && Apart(m, m0, PushAll(m, size, d, ws))
    decreases |ws|
  {
    hide Push, Agree, Apart;
    if ws != [] {
      PushAllAgrees(m, m', m0, size, d, ws[..|ws| - 1]);
      PushAgrees(m, m', m0, size, PushAll(m, size, d, ws[..|ws| - 1]), ws[|ws| - 1]);
    }
  }

  lemma TurnAgrees(m: Memory, m': Memory, m0: set<Obj>, size: nat, d: State)
    requires Agree(m, m', m0) && Apart(m, m0, d)
    ensures Turn(m', size, d) == Turn(m, size, d) && Apart(m, m0, Turn(m, size, d))
  {
    hide PushAll;
    if d.stack != [] {
      var e := d.stack[|d.stack| - 1];
      PushAllAgrees(m, m', m0, size, d.(stack := d.stack[..|d.stack| - 1] + RestOf(e)), Piece(m, e));
    }
  }

  /** One turn in each of these memories. */
  function TurnsIn(ms: seq<Memory>, size: nat, d: State): State {
    if ms == [] then d else Turn(ms[|ms| - 1], size, TurnsIn(ms[..|ms| - 1], size, d))
  }

  // Whatever is stored between the turns into roots and into objects that were marked at the start, marking
  // from an unmarked object goes the same way.
  lemma {:induction false} StoresUnnoticed(m: Memory, ms: seq<Memory>, marked: set<Obj>, size: nat, p: Obj)
    requires p in m.words && p !in marked && forall i | 0 <= i < |ms| :: Agree(m, ms[i], marked)
    ensures var d := Begin(m, marked, p);
            TurnsIn(ms, size, d) == Turns(m, size, d, |ms|) && Apart(m, marked, Turns(m, size, d, |ms|))
    decreases |ms|
  {
    hide Turn, Agree;
    if ms != [] {
      StoresUnnoticed(m, ms[..|ms| - 1], marked, size, p);
      TurnAgrees(m, ms[|ms| - 1], marked, size, Turns(m, size, Begin(m, marked, p), |ms| - 1));
    }
  }
}
