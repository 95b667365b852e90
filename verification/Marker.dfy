// The sequential marker: gc/mark.c and the macros of gc/include/private/gc_pmark.h.

module Marker {
  import opened Config
  import opened HeapGraph
  import opened MarkInvariant
  import Draining
  import RangeScan

  /** What GC_mark_some returns: FALSE, TRUE, or a call of ABORT. */
  datatype Outcome = More | Finished | Abort

  class Marker {
    var m: Memory
    var marked: set<Obj>
    var nMarks: map<nat, nat>
    var state: MarkState
    var scanPtr: nat
    var objectsAreMarked: bool
    var tooSmall: bool
    var stack: seq<Entry>
    var stackSize: nat
    const dirtyMaintained: bool
    var dirty: set<nat>
    var grungy: set<nat>
    ghost var written: set<Obj>
    ghost var rootsTouched: bool
    ghost var bound: set<Obj>
    ghost var watch: set<Src>
    ghost var exact: bool
    var free: set<Obj>
    ghost var lapsed: iset<(Src, nat)>

    ghost function V(): View
      reads this
    {
      View(m, marked, nMarks, state, scanPtr, objectsAreMarked, stack, stackSize, dirtyMaintained, dirty, grungy,
           written, rootsTouched, bound, watch, exact, free, lapsed)
    }

    /** The part of the state that draining the mark stack works on. */
    ghost function D(): Draining.State
      reads this
    {
      Draining.Of(V())
    }

    // The state that GC_mark_init leaves: no block and no root yet.
    constructor (dirtyMaintained: bool)
      ensures Ready(V()) && exact && free == {} && lapsed == iset{} && state.Quiet? && m == Memory(map[], map[], map[], [], map[], 1) && marked == {}
      ensures stackSize == INITIAL_MARK_STACK_SIZE && this.dirtyMaintained == dirtyMaintained
    {
      m := Memory(map[], map[], map[], [], map[], 1);
      marked, nMarks, state, scanPtr := {}, map[], Quiet, 0;
      objectsAreMarked, tooSmall, stack, stackSize := false, false, [], INITIAL_MARK_STACK_SIZE;
      this.dirtyMaintained := dirtyMaintained;
      dirty, grungy, written, rootsTouched, bound, watch := {}, {}, {}, false, {}, {};
      exact, free, lapsed := true, {}, iset{};
    }

    // PUSH_OBJ.  On overflow the entries near the top are discarded and the whole mark phase is
    // declared invalid.
    method PushObj(o: Obj)
      requires |stack| <= stackSize && stackSize >= INITIAL_MARK_STACK_SIZE
      modifies this`stack, this`state, this`tooSmall
      ensures Pushed(old(V()), V(), o) && |stack| <= old(|stack|) + 1
      ensures tooSmall == (old(tooSmall) || old(|stack|) == stackSize)
    {
      var e := Entry(Heap(o), 0, |WordsOf(m, Heap(o))|);
      if |stack| + 1 > stackSize {
        state := Invalid;
        tooSmall := true;
        stack := stack[..|stack| - MARK_STACK_DISCARDS];
      }
      stack := stack + [e];
    }

    // PUSH_CONTENTS on a word: a pointer to an unmarked object marks the object and pushes it.
    method PushContents(w: Word)
      requires Shape(V()) && CountsOk(V()) && BoundOk(V())
      requires w.Pointer? && w.target in m.words ==> w.target in bound
      modifies this`marked, this`nMarks, this`stack, this`state, this`tooSmall
      ensures Marks(old(V()), V()) && CountsOk(V()) && BoundOk(V())
      ensures marked == if w.Pointer? && w.target in m.words && w.target !in old(marked) then old(marked) + {w.target}
                        else old(marked)
      ensures |stack| <= old(|stack|) + 1 && D() == Draining.Push(m, stackSize, old(D()), w)
    {
      hide Shape, CountsOk, BoundOk, Marks, Draining.Push, Pushed, Traced;
      ghost var v := V();
      if w.Pointer? && w.target in m.words && w.target !in marked {
        HomeFacts(v, w.target);
        MarkAndPush(w.target);
        MarkOne(v, V(), w.target);
        Draining.MarkIsPush(v, V(), w.target);
      } else {
        MarksRefl(v);
        Draining.NothingToPush(m, stackSize, D(), w);
      }
    }

    // SET_MARK_BIT_EXIT_IF_SET and PUSH_OBJ: objects of kinds without a descriptor are not pushed.
    method MarkAndPush(t: Obj)
      requires t in m.home && m.home[t] in m.blocks && m.home[t] in nMarks
      requires |stack| <= stackSize && stackSize >= INITIAL_MARK_STACK_SIZE
      modifies this`marked, this`nMarks, this`stack, this`state, this`tooSmall
      ensures V() == old(V()).(marked := old(marked) + {t}, nMarks := nMarks, stack := stack, state := state)
      ensures nMarks == old(nMarks)[m.home[t] := old(nMarks)[m.home[t]] + 1]
      ensures if !Traced(m, t) then stack == old(stack) && state == old(state) else Pushed(old(V()), V(), t)
    {
      hide Pushed, Traced;
      ghost var v := V();
      var a := m.home[t];
      marked := marked + {t};
      nMarks := nMarks[a := nMarks[a] + 1];
      ghost var u := V();
      PushTraced(t);
      PushedSame(v, u, V(), t);
    }

    method PushTraced(t: Obj)
      requires t in m.home && m.home[t] in m.blocks && |stack| <= stackSize && stackSize >= INITIAL_MARK_STACK_SIZE
      modifies this`stack, this`state, this`tooSmall
      ensures if !Traced(m, t) then stack == old(stack) && state == old(state) else Pushed(old(V()), V(), t)
    {
      hide Pushed;
      if HasDescr(m.blocks[m.home[t]].kind) {
        PushObj(t);
      }
    }

    static lemma PushedSame(v: View, u: View, w: View, t: Obj)
      requires |v.stack| <= v.stackSize && v.stackSize >= INITIAL_MARK_STACK_SIZE
      requires u.m == v.m && u.stack == v.stack && u.stackSize == v.stackSize && u.state == v.state
      ensures Pushed(u, w, t) <==> Pushed(v, w, t)
    {
    }

    // The backward scan for the word to prefetch.
    method Prefetch(s: Src, lo: nat, hi: nat) returns (found: bool, d: nat)
      requires lo < hi <= |WordsOf(m, s)|
      ensures lo <= d < hi && (found ==> !WordsOf(m, s)[d].NotPlausible?)
      ensures forall k | (if found then d + 1 else lo) <= k < hi :: WordsOf(m, s)[k].NotPlausible?
    {
      var ws := WordsOf(m, s);
      var plausible := (k: nat) => k < |ws| && !ws[k].NotPlausible?;
      var seen;
      found, d, seen := RangeScan.Backward(lo, hi - 1, plausible);
      if found {
        RangeScan.NoneAbove(seen, d, hi, plausible);
      } else {
        RangeScan.NoneAtAll(seen, lo, hi, plausible);
        d := lo;
      }
      forall k: nat | (if found then d + 1 else lo) <= k < hi ensures ws[k].NotPlausible? {
        assert !plausible(k);
      }
    }

    // Scan the words lo .. hi of s: the deferred word last, the others in order.
    method ScanPiece(s: Src, lo: nat, hi: nat, ghost rest: Rest)
      requires lo < hi <= |WordsOf(m, s)| && EntryOk(m, bound, Entry(s, lo, hi - lo))
      requires Inv(V(), [Entry(s, lo, hi - lo)], rest)
      modifies this`marked, this`nMarks, this`stack, this`state, this`tooSmall
      ensures Inv(V(), [], rest) && Marks(old(V()), V())
      ensures D() == Draining.PushAll(m, stackSize, old(D()), WordsOf(m, s)[lo..hi])
    {
      hide Inv, Marks, EntryOk, Shape, CountsOk, BoundOk, DirtyOk, HeapI, RootsI, WatchI, WordsOf, Draining.Push, Draining.PushAll;
      InvFacts(V(), [Entry(s, lo, hi - lo)], rest);
      ghost var u := V();
      var found, d := Prefetch(s, lo, hi);
      Draining.PushNone(m, stackSize, D(), WordsOf(m, s), lo);
      Draining.Implausible(m, stackSize, D(), WordsOf(m, s), lo, if found then d + 1 else lo, hi);
      if !found {
        NothingFound(V(), s, lo, hi, rest);
        return;
      }
      Deferred(V(), s, lo, hi, d, rest);
      Draining.PushNext(m, stackSize, D(), WordsOf(m, s), lo, d);
      ScanForward(s, lo, hi, d, u, rest);
      PushInHand(s, d, Entry(s, lo, hi - lo), Hand(s, d, d, d), u, rest);
      LastDone(V(), s, d, rest);
    }

    method ScanForward(s: Src, lo: nat, ghost hi: nat, d: nat, ghost u: View, ghost rest: Rest)
      requires lo <= d < hi <= |WordsOf(m, s)| && EntryOk(m, bound, Entry(s, lo, hi - lo))
      requires Inv(V(), Hand(s, lo, d, d), rest) && Marks(u, V())
      modifies this`marked, this`nMarks, this`stack, this`state, this`tooSmall
      ensures Inv(V(), Hand(s, d, d, d), rest) && Marks(u, V())
      ensures D() == Draining.PushAll(m, stackSize, old(D()), WordsOf(m, s)[lo..d])
    {
      hide Inv, Marks, EntryOk, Draining.Push, Draining.PushAll, WordsOf;
      Draining.PushNone(m, stackSize, D(), WordsOf(m, s), lo);
      var cur := lo;
      while cur < d
        invariant lo <= cur <= d
        invariant Inv(V(), Hand(s, cur, d, d), rest) && Marks(u, V())
        invariant D() == Draining.PushAll(m, stackSize, old(D()), WordsOf(m, s)[lo..cur])
      {
        Draining.PushNext(m, stackSize, old(D()), WordsOf(m, s), lo, cur);
        PushInHand(s, cur, Entry(s, lo, hi - lo), Hand(s, cur, d, d), u, rest);
        FrontDone(V(), s, cur, d, rest);
        cur := cur + 1;
      }
    }

    method PushInHand(s: Src, k: nat, ghost e: Entry, ghost hand: seq<Entry>, ghost u: View, ghost rest: Rest)
      requires EntryOk(m, bound, e) && InEntry(e, s, k) && k < |WordsOf(m, s)|
      requires Inv(V(), hand, rest) && Marks(u, V())
      modifies this`marked, this`nMarks, this`stack, this`state, this`tooSmall
      ensures Inv(V(), hand, rest) && Marks(u, V()) && Follows(V(), WordsOf(m, s)[k])
      ensures |stack| <= old(|stack|) + 1 && D() == Draining.Push(m, stackSize, old(D()), WordsOf(m, s)[k])
    {
      hide Inv, Marks, EntryOk, Shape, CountsOk, BoundOk, Draining.Push;
      ghost var v := V();
      InvFacts(v, hand, rest);
      EntryWord(m, bound, e, k);
      PushContents(WordsOf(m, s)[k]);
      MarksTrans(u, v, V());
      BoundFacts(V());
      MarksKeepInv(v, V(), hand, rest);
    }

    // One turn of the loop of GC_mark_from: returns the credit it used up.
    method MarkTop(ghost rest: Rest) returns (cost: nat)
      requires Inv(V(), [], rest) && stack != []
      modifies this`marked, this`nMarks, this`stack, this`state, this`tooSmall, this`objectsAreMarked
      ensures Inv(V(), [], rest) && Advances(old(V()), V()) && objectsAreMarked && cost > 0
      ensures D() == Draining.Turn(m, stackSize, old(D()))
    {
      hide Inv, Marks, EntryOk, Advances, Draining.PushAll, Draining.Turn, RestOf, PieceLen, WordsOf;
      ghost var v := V();
      var below, e := stack[..|stack| - 1], stack[|stack| - 1];
      assert stack == below + [e];
      objectsAreMarked := true;
      stack := below + RestOf(e);
      TakeTop(v, V(), below, e, rest);
      EntryNonempty(m, bound, Entry(e.src, e.start, PieceLen(e)));
      ghost var t := V();
      Draining.TurnIs(m, stackSize, Draining.Of(v), below, e);
      ScanPiece(e.src, e.start, e.start + PieceLen(e), rest);
      ScanAdvances(v, t, V());
      cost := PieceLen(e) * WORD_BYTES;
    }

    // GC_mark_from: scan ranges from the top of the stack until it is empty or the credit is used up.
    method MarkFrom(ghost rest: Rest) returns (ghost turns: nat)
      requires Inv(V(), [], rest)
      modifies this`marked, this`nMarks, this`stack, this`state, this`tooSmall, this`objectsAreMarked
      ensures Inv(V(), [], rest) && objectsAreMarked
      ensures D() == Draining.Turns(m, stackSize, old(D()), turns)
      ensures if old(stack) == [] then V() == old(V()).(objectsAreMarked := true) else Advances(old(V()), V())
    {
      hide Inv, Advances, Draining.Turn;
      ghost var v := V();
      turns := 0;
      objectsAreMarked := true;
      FlagOnly(v, V(), rest);
      var credit: int := HBLKSIZE;
      while stack != [] && credit >= 0
        invariant Inv(V(), [], rest) && objectsAreMarked
        invariant (V() == v.(objectsAreMarked := true) && credit == HBLKSIZE) || (v.stack != [] && Advances(v, V()))
        invariant D() == Draining.Turns(m, stackSize, old(D()), turns)
        decreases credit
      {
        ghost var u := V();
        var cost := MarkTop(rest);
        credit := credit - cost;
        turns := turns + 1;
        AdvancesFrom(v, u, V());
      }
    }

    // ----- scanning the heap for marked objects

    // GC_next_used_block: the lowest block in use at or above h, or 0.
    method NextUsedBlock(h: nat) returns (r: nat)
      requires Wf(m)
      ensures IsNextUsed(m, h, r)
    {
      r := 0;
      var todo := m.blocks.Keys;
      while todo != {}
        invariant todo <= m.blocks.Keys
        invariant r == 0 || (r in m.blocks && h <= r)
        invariant forall a | a in m.blocks && a !in todo && h <= a :: r != 0 && r <= a
        decreases |todo|
      {
        var a :| a in todo;
        todo := todo - {a};
        if h <= a && (r == 0 || a < r) { r := a; }
      }
    }

    // The default loop of GC_push_marked: every marked object of the block is pushed whole.
    method PushObjects(objs: set<Obj>, ghost rest: Rest)
      requires Inv(V(), [], rest) && |stack| + |objs| <= stackSize
      requires forall o | o in objs :: Traced(m, o)
      modifies this`stack, this`state, this`tooSmall
      ensures Inv(V(), [], rest) && Followed(V(), objs) && Scans(old(V()), V())
    {
      hide Inv, Scans, Followed, Traced, Shape, WordsOf;
      ghost var v := V();
      FollowedNone(v);
      ScansRefl(v);
      var todo := objs;
      while todo != {}
        invariant todo <= objs && marked == v.marked
        invariant |stack| + |todo| <= stackSize
        invariant Inv(V(), [], rest) && Followed(V(), objs - todo) && Scans(v, V())
        decreases |todo|
      {
        var o :| o in todo;
        ghost var u := V();
        InvRoom(u, rest);
        if o in marked {
          PushObj(o);
          PushExisting(u, V(), o, objs - todo, rest);
          ScansTrans(v, u, V());
        } else {
          FollowedUnmarked(u, objs - todo, o);
        }
        assert objs - (todo - {o}) == objs - todo + {o};
        todo := todo - {o};
      }
      assert objs - todo == objs;
    }

    // GC_push_marked1, 2 and 4: for the smallest sizes the words of the marked objects are followed at once.
    method PushWords(objs: set<Obj>, ghost rest: Rest)
      requires Inv(V(), [], rest)
      requires forall o | o in objs :: Traced(m, o)
      modifies this`marked, this`nMarks, this`stack, this`state, this`tooSmall
      ensures Inv(V(), [], rest) && Followed(V(), objs) && Marks(old(V()), V())
    {
      hide Inv, Marks, Followed, Traced, Shape, CountsOk, BoundOk, DirtyOk, HeapI, RootsI, WatchI;
      ghost var v := V();
      FollowedNone(v);
      InvFacts(v, [], rest);
      var todo := objs;
      while todo != {}
        invariant todo <= objs
        invariant Inv(V(), [], rest) && Followed(V(), objs - todo) && Marks(v, V())
        decreases |todo|
      {
        var o :| o in todo;
        if o in marked {
          FollowObject(o, objs - todo, v, rest);
        } else {
          FollowedUnmarked(V(), objs - todo, o);
        }
        assert objs - (todo - {o}) == objs - todo + {o};
        todo := todo - {o};
      }
      assert objs - todo == objs;
    }

    method FollowObject(o: Obj, ghost done: set<Obj>, ghost u: View, ghost rest: Rest)
      requires o in marked && Traced(m, o)
      requires Inv(V(), [], rest) && Followed(V(), done) && Marks(u, V())
      modifies this`marked, this`nMarks, this`stack, this`state, this`tooSmall
      ensures Inv(V(), [], rest) && Followed(V(), done + {o}) && Marks(u, V())
    {
      hide Inv, Marks, Followed, EntryOk, Shape, CountsOk, BoundOk, Follows;
      MarkedEntryOk(V(), o, rest);
      var ws := WordsOf(m, Heap(o));
      var k := 0;
      while k < |ws|
        invariant 0 <= k <= |ws|
        invariant Inv(V(), [], rest) && Followed(V(), done) && Marks(u, V())
        invariant forall j | 0 <= j < k :: Follows(V(), ws[j])
      {
        ghost var w := V();
        InvFacts(w, [], rest);
        PushInHand(Heap(o), k, Entry(Heap(o), 0, |ws|), [], w, rest);
        MarksTrans(u, w, V());
        FollowedStays(w, V(), done);
        FollowsStays(w, V(), ws, k);
        k := k + 1;
      }
      AllFollow(V(), o);
      FollowedOne(V(), done, o);
    }

    // GC_push_marked: follow the marked objects of block a.  Pointer-free blocks and blocks with a zero
    // mark count are skipped.
    method PushMarked(a: nat, ghost rest: Rest)
      requires Inv(V(), [], rest) && a in m.blocks && |stack| + MAX_OBJS <= stackSize
      modifies this`marked, this`nMarks, this`stack, this`state, this`tooSmall, this`objectsAreMarked
      ensures Inv(V(), [], rest) && Followed(V(), m.blocks[a].objs) && Scans(old(V()), V())
      ensures !objectsAreMarked ==> V() == old(V())
    {
      hide Inv, Scans, Followed, Marks, Shape, CountsOk;
      ghost var v := V();
      ScansRefl(v);
      BlockFacts(v, a, rest);
      var b := m.blocks[a];
      if !HasDescr(b.kind) {
        FollowedUntraced(v, b.objs);
        return;
      }
      if nMarks[a] == 0 {
        ZeroCountIffEmpty(v, a);
        FollowedUntraced(v, b.objs);
        return;
      }
      objectsAreMarked := true;
      FlagOnly(v, V(), rest);
      ghost var u := V();
      if b.granules == 1 || b.granules == 2 || b.granules == 4 {
        PushWords(b.objs, rest);
        MarksScans(v, u, V());
      } else {
        PushObjects(b.objs, rest);
        FlagScans(v, u, V());
      }
    }

    // GC_push_next_marked: the next block in use at or above h, whatever is in it.  Returns where to go on.
    method PushNextMarked(h: nat) returns (r: nat)
      requires Inv(V(), [], From(h)) && |stack| + MAX_OBJS <= stackSize
      modifies this`marked, this`nMarks, this`stack, this`state, this`tooSmall, this`objectsAreMarked
      ensures ScanResult(old(V()), V(), h, r)
      ensures !objectsAreMarked || r == 0 ==> V() == old(V())
    {
      hide Inv, Scans, Followed, IsNextUsed, Wf;
      ghost var v := V();
      InvWf(v, [], From(h));
      ScansRefl(v);
      r := NextUsedBlock(h);
      if r == 0 {
        NoBlockLeft(V(), h);
        return;
      }
      NextHasPages(m, h, r);
      var pages := m.blocks[r].pages;
      PushMarked(r, From(h));
      PassBlock(V(), h, r);
      r := r + pages;
    }

    // GC_block_was_dirty: is any page of the block dirty?
    method BlockIsDirty(a: nat) returns (b: bool)
      requires a in m.blocks
      ensures b == BlockWasDirty(V(), a)
    {
      var p := a;
      while p < a + m.blocks[a].pages
        invariant a <= p
        invariant forall q | a <= q < p :: Bucket(q) !in grungy
      {
        if Bucket(p) in grungy { return true; }
        p := p + 1;
      }
      return false;
    }

    // The search loop of GC_push_next_marked_dirty: blocks without a dirty page are passed over.
    method NextDirty(h: nat) returns (r: nat)
      requires Inv(V(), [], From(h)) && state.PushRescuers?
      ensures r == 0 ==> Inv(V(), [], Done)
      ensures r != 0 ==> Inv(V(), [], From(r)) && IsNextUsed(m, r, r) && BlocksFrom(m, r) <= BlocksFrom(m, h)
      ensures r != 0 ==> r in m.blocks && BlockWasDirty(V(), r)
    {
      hide Inv, IsNextUsed, Wf, BlocksFrom, Followed, Pending;
      var cur: nat := h;
      while true
        invariant Inv(V(), [], From(cur)) && BlocksFrom(m, cur) <= BlocksFrom(m, h)
        decreases BlocksFrom(m, cur)
      {
        InvWf(V(), [], From(cur));
        r := NextUsedBlock(cur);
        if r == 0 {
          NoBlockLeft(V(), cur);
          return;
        }
        NextHasPages(m, cur, r);
        var dirtyBlock := BlockIsDirty(r);
        if dirtyBlock {
          ScanFrom(V(), cur, r);
          NextIsItself(m, cur, r);
          return;
        }
        CleanIsNotPending(V(), cur, r, From(cur));
        PassBlock(V(), cur, r);
        cur := r + m.blocks[r].pages;
      }
    }

    // The search loop of GC_push_next_marked_uncollectable.
    method NextUncollectable(h: nat) returns (r: nat)
      requires Inv(V(), [], From(h)) && state.PushUncollectable?
      ensures r == 0 ==> Inv(V(), [], Done)
      ensures r != 0 ==> Inv(V(), [], From(r)) && IsNextUsed(m, r, r) && BlocksFrom(m, r) <= BlocksFrom(m, h)
      ensures r != 0 ==> r in m.blocks && m.blocks[r].kind.Uncollectable?
    {
      hide Inv, IsNextUsed, Wf, BlocksFrom, Followed, Pending;
      var cur: nat := h;
      while true
        invariant Inv(V(), [], From(cur)) && BlocksFrom(m, cur) <= BlocksFrom(m, h)
        decreases BlocksFrom(m, cur)
      {
        InvWf(V(), [], From(cur));
        r := NextUsedBlock(cur);
        if r == 0 {
          NoBlockLeft(V(), cur);
          return;
        }
        NextHasPages(m, cur, r);
        if m.blocks[r].kind.Uncollectable? {
          ScanFrom(V(), cur, r);
          NextIsItself(m, cur, r);
          return;
        }
        CleanIsNotPending(V(), cur, r, From(cur));
        PassBlock(V(), cur, r);
        cur := r + m.blocks[r].pages;
      }
    }

    // GC_push_next_marked_dirty and GC_push_next_marked_uncollectable, according to the state.
    method PushNextChosen(h: nat) returns (r: nat)
      requires Inv(V(), [], From(h)) && |stack| + MAX_OBJS <= stackSize
      requires state.PushRescuers? || state.PushUncollectable?
      modifies this`marked, this`nMarks, this`stack, this`state, this`tooSmall, this`objectsAreMarked
      ensures ScanResult(old(V()), V(), h, r)
      ensures !objectsAreMarked || r == 0 ==> V() == old(V())
    {
      hide Inv, Scans, Followed, IsNextUsed, Wf, BlocksFrom;
      ghost var v := V();
      ScansRefl(v);
      if state.PushRescuers? {
        r := NextDirty(h);
      } else {
        r := NextUncollectable(h);
      }
      if r == 0 { return; }
      var pages := m.blocks[r].pages;
      PushMarked(r, From(r));
      PassBlock(V(), r, r);
      r := r + pages;
    }

    // GC_push_roots.  If `all` is not set, GC_push_conditional pushes only the dirty pages of a segment.
    method PushRoots(all: bool, ghost rest: Rest) returns (ok: bool)
      requires Inv(V(), [], rest)
      modifies this`marked, this`nMarks, this`stack, this`state, this`tooSmall
      ensures ok ==> Inv(V(), [], rest) && Scans(old(V()), V()) && RootsFollowed(V(), |m.roots|)
      ensures !ok ==> Height(old(|stack|), stackSize, RootPushes(m.roots)) > stackSize
    {
      hide Inv, Scans, RootsFollowed;
      ghost var v := V();
      ScansRefl(v);
      NoRoots(v);
      var i := 0;
      while i < |m.roots|
        invariant i <= |m.roots|
        invariant Inv(V(), [], rest) && Scans(v, V()) && RootsFollowed(V(), i)
        invariant |stack| <= Height(|v.stack|, stackSize, RootPushes(m.roots[..i]))
      {
        RootPushesNext(m.roots, i);
        RootPushesGrow(m.roots, i + 1);
        ok := PushSegmentOf(i, all, v, rest);
        if !ok { return; }
        i := i + 1;
      }
      return true;
    }

    method PushSegmentOf(i: nat, all: bool, ghost u: View, ghost rest: Rest) returns (ok: bool)
      requires i < |m.roots| && Inv(V(), [], rest) && Scans(u, V()) && RootsFollowed(V(), i)
      modifies this`marked, this`nMarks, this`stack, this`state, this`tooSmall
      ensures ok ==> Inv(V(), [], rest) && Scans(u, V()) && RootsFollowed(V(), i + 1)
      ensures ok ==> |stack| <= Height(old(|stack|), stackSize, SegmentPushes(m.roots[i]))
      ensures !ok ==> Height(old(|stack|), stackSize, SegmentPushes(m.roots[i])) > stackSize
    {
      hide Inv, Scans, RootsFollowed, Follows, Marks, Pieces, PagesLimit;
      ghost var v := V();
      InvRoom(v, rest);
      var ws := m.roots[i].words;
      if ws == [] {
        RootWordsFollow(v, i);
        return true;
      }
      match m.roots[i].how
      case Eager =>
        FollowSegment(i, rest);
        MarksAreScans(v, V());
        ScansTrans(u, v, V());
        ok := true;
      case Whole =>
        ok := PushWhole(i, u, rest);
      case Conditional =>
        if all {
          ok := PushWhole(i, u, rest);
        } else {
          ok := PushSelected(i, u, rest);
        }
    }

    // GC_push_all on the words start .. start+len of a segment.  If the stack is full, the program is aborted.
    method PushAll(i: nat, start: nat, len: nat, ghost parts: seq<Entry>, ghost u: View, ghost rest: Rest) returns (ok: bool)
      requires i < |m.roots| && 0 < len && start + len <= |m.roots[i].words| && Pieces(parts, i, start)
      requires Inv(V(), [], rest) && Scans(u, V()) && RootsFollowed(V(), i)
      modifies this`stack
      ensures ok <==> old(|stack|) < stackSize
      ensures !ok ==> V() == old(V())
      ensures ok ==> Inv(V(), [], rest) && Scans(u, V()) && RootsFollowed(V(), i)
      ensures ok ==> stack == old(stack) + [Entry(InRoot(i), start, len)]
      ensures ok ==> Pieces(parts + [Entry(InRoot(i), start, len)], i, start + len)
    {
      hide Inv, Scans, RootsFollowed, Pieces;
      ghost var v := V();
      InvRoom(v, rest);
      if |stack| + 1 > stackSize { return false; }
      stack := stack + [Entry(InRoot(i), start, len)];
      PushPart(v, V(), i, start, len, rest);
      ScansTrans(u, v, V());
      OnePiece(parts, i, start, len);
      return true;
    }

    method PushWhole(i: nat, ghost u: View, ghost rest: Rest) returns (ok: bool)
      requires i < |m.roots| && m.roots[i].words != [] && Inv(V(), [], rest) && Scans(u, V()) && RootsFollowed(V(), i)
      modifies this`stack
      ensures ok ==> Inv(V(), [], rest) && Scans(u, V()) && RootsFollowed(V(), i + 1)
      ensures ok <==> old(|stack|) < stackSize
      ensures ok ==> stack == old(stack) + [Entry(InRoot(i), 0, |m.roots[i].words|)]
    {
      hide Inv, Scans, RootsFollowed;
      ghost var below := stack;
      ok := PushAll(i, 0, |m.roots[i].words|, [], u, rest);
      if ok {
        SegmentFollowed(V(), below, [Entry(InRoot(i), 0, |m.roots[i].words|)], i);
      }
    }

    // GC_push_selected with GC_page_was_dirty, which is true of every page outside the heap: the pages of the
    // segment one by one, but what is left of it as a single range once the stack is rather full.
    method PushSelected(i: nat, ghost u: View, ghost rest: Rest) returns (ok: bool)
      requires i < |m.roots| && m.roots[i].words != [] && Inv(V(), [], rest) && Scans(u, V()) && RootsFollowed(V(), i)
      modifies this`stack
      ensures ok ==> Inv(V(), [], rest) && Scans(u, V()) && RootsFollowed(V(), i + 1)
      ensures ok ==> exists parts :: stack == old(stack) + parts && Pieces(parts, i, |m.roots[i].words|)
      ensures ok ==> |stack| <= Height(old(|stack|), stackSize, 2)
      ensures !ok ==> Height(old(|stack|), stackSize, 2) > stackSize
    {
      hide Inv, Scans, RootsFollowed, Pieces, PagesLimit;
      ghost var below := stack;
      var n := |m.roots[i].words|;
      var h := PAGE_WORDS - m.roots[i].skew % PAGE_WORDS;
      ghost var parts: seq<Entry> := [];
      NoPieces(i);
      if n <= h {
        ok := PushWhole(i, u, rest);
        OnePiece([], i, 0, n);
        assert [] + [Entry(InRoot(i), 0, n)] == [Entry(InRoot(i), 0, n)];
        return;
      }
      ok := PushAll(i, 0, h, parts, u, rest);
      if !ok { return; }
      parts := parts + [Entry(InRoot(i), 0, h)];
      while h + PAGE_WORDS <= n
        invariant h <= n && Inv(V(), [], rest) && Scans(u, V()) && RootsFollowed(V(), i)
        invariant stack == below + parts && Pieces(parts, i, h)
        invariant |stack| <= Height(|below|, stackSize, 1)
      {
        if |stack| - 1 > PagesLimit(stackSize) {
          ok := PushAll(i, h, n - h, parts, u, rest);
          if !ok { return; }
          parts := parts + [Entry(InRoot(i), h, n - h)];
          SegmentFollowed(V(), below, parts, i);
          return;
        }
        ok := PushAll(i, h, PAGE_WORDS, parts, u, rest);
        if !ok { return; }
        parts := parts + [Entry(InRoot(i), h, PAGE_WORDS)];
        h := h + PAGE_WORDS;
      }
      if h != n {
        ok := PushAll(i, h, n - h, parts, u, rest);
        if !ok { return; }
        parts := parts + [Entry(InRoot(i), h, n - h)];
      }
      SegmentFollowed(V(), below, parts, i);
    }

    // GC_push_all_eager.
    method FollowSegment(i: nat, ghost rest: Rest)
      requires i < |m.roots| && m.roots[i].words != [] && Inv(V(), [], rest) && RootsFollowed(V(), i)
      modifies this`marked, this`nMarks, this`stack, this`state, this`tooSmall
      ensures Inv(V(), [], rest) && Marks(old(V()), V()) && RootsFollowed(V(), i + 1)
      ensures |stack| <= old(|stack|) + |m.roots[i].words|
    {
      hide Inv, Marks, RootsFollowed, Follows, EntryOk;
      ghost var v := V();
      RootEntryOk(v, i, rest);
      InvFacts(v, [], rest);
      var ws := m.roots[i].words;
      var k := 0;
      while k < |ws|
        invariant 0 <= k <= |ws|
        invariant Inv(V(), [], rest) && RootsFollowed(V(), i) && Marks(v, V()) && |stack| <= |v.stack| + k
        invariant forall j | 0 <= j < k :: Follows(V(), ws[j])
      {
        ghost var w := V();
        FollowRootWord(i, k, v, rest);
        FollowsStays(w, V(), ws, k);
        k := k + 1;
      }
      RootWordsFollow(V(), i);
    }

    method FollowRootWord(i: nat, k: nat, ghost u: View, ghost rest: Rest)
      requires i < |m.roots| && k < |m.roots[i].words| && Inv(V(), [], rest) && RootsFollowed(V(), i) && Marks(u, V())
      requires EntryOk(m, bound, Entry(InRoot(i), 0, |m.roots[i].words|))
      modifies this`marked, this`nMarks, this`stack, this`state, this`tooSmall
      ensures Inv(V(), [], rest) && RootsFollowed(V(), i) && Marks(u, V()) && Marks(old(V()), V())
      ensures Follows(V(), m.roots[i].words[k]) && |stack| <= old(|stack|) + 1
    {
      hide Inv, Marks, RootsFollowed, Follows, EntryOk;
      ghost var w := V();
      InvFacts(w, [], rest);
      PushInHand(InRoot(i), k, Entry(InRoot(i), 0, |m.roots[i].words|), [], w, rest);
      MarksTrans(u, w, V());
      RootsStay(w, V(), i);
    }

    // alloc_mark_stack: the stack is replaced by a larger one if memory can be had.
    method AllocMarkStack(n: nat)
      requires stack == []
      modifies this`stack, this`stackSize, this`tooSmall
      ensures stack == [] && !tooSmall && (stackSize == n || stackSize == old(stackSize))
    {
      var gotMemory: bool := *;
      tooSmall := false;
      if gotMemory {
        stackSize := n;
      }
      stack := [];
    }

    // The common end of the three scans: all roots are pushed, and the phase is over unless something
    // was lost.
    method RootsPhase(ghost v: View) returns (ok: bool)
      requires Inv(V(), [], Done) && !state.Quiet? && !state.RootsPushed? && Scans(v, V()) && watch == {}
      modifies this`marked, this`nMarks, this`stack, this`state, this`tooSmall, this`objectsAreMarked, this`rootsTouched
      ensures ok ==> Ready(V()) && Scans(v, V().(state := if state.Invalid? then Invalid else v.state, rootsTouched := v.rootsTouched))
      ensures ok ==> objectsAreMarked && !rootsTouched && (state.Invalid? || state.RootsPushed?)
      ensures !ok ==> Height(old(|stack|), stackSize, RootPushes(m.roots)) > stackSize
    {
      hide Inv, RootsFollowed, Ready, Height, RootPushes;
      ghost var u := V();
      ok := PushRoots(!state.PushRescuers?, Done);
      if !ok { return; }
      ghost var w := V();
      objectsAreMarked := true;
      if !state.Invalid? {
        state := RootsPushed;
      }
      rootsTouched := false;
      RootsPushedReady(w, V());
    }

    // MARK_FROM_MARK_STACK as a step of GC_mark_some.
    method Drain()
      requires Ready(V()) && stack != [] && !state.Quiet? && (state.Invalid? ==> objectsAreMarked)
      modifies this`marked, this`nMarks, this`stack, this`state, this`tooSmall, this`objectsAreMarked
      ensures Ready(V()) && Progress(old(V()), V()) && Marking(old(V()), V())
    {
      hide Inv, Advances, Progress, FlagsOk;
      ghost var v := V();
      var _ := MarkFrom(From(scanPtr));
      DrainIsProgress(v, V());
    }

    // One step of the scan over dirty or over uncollectable blocks.
    method ScanChosen() returns (r: Outcome)
      requires Ready(V()) && |stack| + MAX_OBJS <= stackSize && (state.PushRescuers? || state.PushUncollectable?)
      modifies this`marked, this`nMarks, this`stack, this`state, this`tooSmall, this`objectsAreMarked, this`rootsTouched, this`scanPtr
      ensures !r.Finished?
      ensures r.More? ==> Ready(V()) && Progress(old(V()), V()) && Marking(old(V()), V())
      ensures r.Abort? ==> Height(old(|stack|), stackSize, RootPushes(m.roots)) > stackSize
    {
      hide Inv, Ready, Progress, Scans, BlocksFrom;
      ghost var v := V();
      ReadyFacts(v);
      scanPtr := PushNextChosen(scanPtr);
      if scanPtr == 0 {
        r := RootsStep(v, v);
      } else {
        ScanIsProgress(v, v, V(), scanPtr);
        r := More;
      }
    }

    method RootsStep(ghost v: View, ghost u: View) returns (r: Outcome)
      requires Ready(v) && !v.state.Quiet? && !v.state.RootsPushed?
      requires if v.state.Invalid? then v.scanPtr == 0 && v.objectsAreMarked && u == v.(state := PartiallyInvalid, stackSize := u.stackSize) else u == v
      requires scanPtr == 0 && ScanResult(u, V().(scanPtr := v.scanPtr), v.scanPtr, 0)
      modifies this`marked, this`nMarks, this`stack, this`state, this`tooSmall, this`objectsAreMarked, this`rootsTouched
      ensures !r.Finished?
      ensures r.More? ==> Ready(V()) && Progress(v, V()) && Marking(v, V())
      ensures r.Abort? ==> Height(old(|stack|), stackSize, RootPushes(m.roots)) > stackSize
    {
      hide Inv, Ready, Progress, BlocksFrom;
      ghost var w := V();
      ScanPtrIrrelevant(w.(scanPtr := v.scanPtr), w, Done);
      NothingWatched(v, u, w.(scanPtr := v.scanPtr), v.scanPtr, 0);
      var ok := RootsPhase(u.(scanPtr := 0));
      if !ok { return Abort; }
      RootsAreProgress(v, u, V());
      return More;
    }

    // A recovery scan starts at the bottom of the heap, perhaps with a larger mark stack.
    method BeginScan()
      requires Ready(V()) && stack == [] && objectsAreMarked && (state.Invalid? || state.PartiallyInvalid?)
      modifies this`stack, this`stackSize, this`state, this`tooSmall
      ensures Inv(V(), [], From(scanPtr)) && stack == [] && stackSize >= INITIAL_MARK_STACK_SIZE && stackSize >= old(stackSize)
      ensures V() == if scanPtr == 0 && old(state).Invalid? then old(V()).(state := PartiallyInvalid, stackSize := stackSize)
                     else old(V())
    {
      hide Inv, Ready;
      ghost var v := V();
      ReadyFacts(v);
      if scanPtr == 0 && state.Invalid? {
        if tooSmall {
          AllocMarkStack(2 * stackSize);
        }
        state := PartiallyInvalid;
        RestartScan(v, V());
      }
    }

    // The recovery scan over all marked objects, and the check for its end.
    method ScanAll() returns (r: Outcome)
      requires Ready(V()) && stack == [] && objectsAreMarked && (state.Invalid? || state.PartiallyInvalid?)
      modifies this`marked, this`nMarks, this`stack, this`stackSize, this`state, this`tooSmall, this`objectsAreMarked, this`rootsTouched, this`scanPtr
      ensures !r.Finished?
      ensures r.More? ==> Ready(V()) && Progress(old(V()), V()) && Marking(old(V()), V())
      ensures r.Abort? ==> Height(0, stackSize, RootPushes(m.roots)) > stackSize >= INITIAL_MARK_STACK_SIZE
      ensures stackSize >= old(stackSize)
    {
      hide Inv, Ready, Progress, Scans, BlocksFrom, Marking, ScanResult, RootPushes;
      ghost var v := V();
      BeginScan();
      ghost var u := V();
      scanPtr := PushNextMarked(scanPtr);
      if scanPtr != 0 {
        ScanIsProgress(v, u, V(), scanPtr);
        return More;
      }
      ScanKeepsState(u, V().(scanPtr := v.scanPtr), v.scanPtr, 0);
      if state.PartiallyInvalid? {
        r := RootsStep(v, u);
      } else {
        LostInScan(v, u, V());
        r := More;
      }
    }

    // GC_mark_some: a small amount of marking.
    method MarkSome() returns (r: Outcome)
      requires Ready(V())
      modifies this`marked, this`nMarks, this`stack, this`stackSize, this`state, this`tooSmall, this`objectsAreMarked, this`rootsTouched, this`scanPtr
      ensures !r.Abort? ==> Ready(V()) && Marking(old(V()), V())
      ensures r.Abort? ==> (old(state).PushRescuers? && !dirtyMaintained) || ManyRoots(m)
      ensures stackSize >= old(stackSize)
      ensures old(state).Quiet? ==> r.More? && V() == old(V())
      ensures r.More? && !old(state).Quiet? ==> Progress(old(V()), V())
      ensures r.Finished? <==> old(state).RootsPushed? && old(stack) == []
      ensures r.Finished? ==> state.Quiet? && marked == old(marked) && rootsTouched == old(rootsTouched) && objectsAreMarked
    {
      hide Inv, Ready, Progress, Marking;
      ReadyFacts(V());
      MarkingRefl(V());
      if state.Quiet? {
        return More;
      } else if state.PushRescuers? {
        if |stack| - 1 >= stackSize - INITIAL_MARK_STACK_SIZE / 2 {
          tooSmall := true;
          Drain();
          return More;
        }
        // GC_push_next_marked_dirty aborts if dirty bits are not maintained.
        if !dirtyMaintained { return Abort; }
        r := ScanChosen();
      } else if state.PushUncollectable? {
        if |stack| - 1 >= stackSize / 4 {
          Drain();
          return More;
        }
        r := ScanChosen();
      } else if state.RootsPushed? {
        if stack != [] {
          Drain();
          return More;
        }
        EndPhase();
        return Finished;
      } else {
        if !objectsAreMarked {
          ghost var v := V();
          state := PushUncollectable;
          StartUncollectable(v, V());
          return More;
        }
        if stack != [] {
          Drain();
          return More;
        }
        r := ScanAll();
      }
    }

    // MS_ROOTS_PUSHED with an empty stack: the mark phase is over.
    method EndPhase()
      requires Ready(V()) && state.RootsPushed? && stack == []
      modifies this`stack, this`stackSize, this`state, this`tooSmall
      ensures Ready(V()) && Marking(old(V()), V()) && state.Quiet? && stackSize >= old(stackSize)
    {
      hide Inv, Ready, Marking;
      ghost var v := V();
      ReadyFacts(v);
      state := Quiet;
      if tooSmall {
        AllocMarkStack(2 * stackSize);
      }
      PhaseOver(v, V());
    }

    // ----- before and after a mark phase

    // GC_clear_marks: the mark bits of every block that is not uncollectable are cleared.
    method ClearMarks()
      requires Prepared(V())
      modifies this`marked, this`nMarks, this`objectsAreMarked, this`state, this`scanPtr
      ensures Ready(V()) && state.Invalid? && !objectsAreMarked && scanPtr == 0
      ensures forall o :: o in marked <==> o in old(marked) && KeepsMark(m, o)
    {
      hide Prepared, Shape, BoundOk, DirtyOk, Ready, KeepsMark, ClearedUpTo, CountsOk, FlagsOk, Wf;
      ghost var v := V();
      PreparedFacts(v);
      HomesOf(v);
      var todo := m.blocks.Keys;
      while todo != {}
        invariant todo <= m.blocks.Keys
        invariant CountsOk(V()) && ClearedUpTo(v, V(), todo)
        decreases |todo|
      {
        var a :| a in todo;
        ClearMarksForBlock(a, v, todo);
        todo := todo - {a};
      }
      ghost var u := V();
      ClearedSame(v, u);
      objectsAreMarked := false;
      state := Invalid;
      scanPtr := 0;
      SameMarks(u, V());
      ClearedAll(v, V());
    }

    // clear_marks_for_block.
    method ClearMarksForBlock(a: nat, ghost v: View, ghost todo: set<nat>)
      requires a in m.blocks && a in todo && v.m == m
      requires Shape(v) && CountsOk(V()) && ClearedUpTo(v, V(), todo)
      modifies this`marked, this`nMarks
      ensures CountsOk(V()) && ClearedUpTo(v, V(), todo - {a})
    {
      hide Shape, CountsOk, ClearedUpTo;
      ghost var u := V();
      if !IsUncollectable(m.blocks[a].kind) {
        marked := marked - m.blocks[a].objs;
        nMarks := nMarks[a := 0];
      }
      ClearedBlock(v, u, V(), a, todo);
    }

    // GC_initiate_gc.  In a quiet state without dirty bits the next step would abort; in any state but
    // these two it aborts itself.
    method InitiateGc() returns (ok: bool)
      requires Prepared(V())
      modifies this`state, this`scanPtr, this`dirty, this`grungy, this`written
      ensures ok <==> (old(state).Quiet? && dirtyMaintained) || old(state).Invalid?
      ensures ok ==> Ready(V()) && written == {} && !state.RootsPushed?
      ensures ok ==> state == if old(state).Quiet? then PushRescuers else Invalid
      ensures ok ==> scanPtr == 0
      ensures ok && dirtyMaintained ==> grungy == old(dirty) && dirty == {}
      ensures ok && !dirtyMaintained ==> grungy == old(grungy) && dirty == old(dirty)
    {
      hide Prepared, Ready;
      ghost var v := V();
      if state.Quiet? && !dirtyMaintained { return false; }
      if dirtyMaintained {
        grungy := dirty;
        dirty := {};
      }
      if state.Quiet? {
        state := PushRescuers;
      } else if !state.Invalid? {
        return false;
      }
      scanPtr := 0;
      written := {};
      Initiated(v, V());
      return true;
    }

    // GC_invalidate_mark_state.
    method InvalidateMarkState()
      requires Prepared(V())
      modifies this`state, this`stack
      ensures Prepared(V()) && state.Invalid? && stack == []
    {
      hide Prepared, Shape, BoundOk, DirtyOk, CountsOk, FlagsOk;
      ghost var v := V();
      PreparedFacts(v);
      state := Invalid;
      stack := [];
      Invalidated(v, V());
    }

    // GC_set_mark_bit.
    method SetMarkBit(o: Obj)
      requires Shape(V()) && CountsOk(V()) && o in m.words
      modifies this`marked, this`nMarks
      ensures Shape(V()) && CountsOk(V()) && marked == old(marked) + {o}
    {
      hide Shape, CountsOk;
      ghost var v := V();
      HomeFacts(v, o);
      if o !in marked {
        var a := m.home[o];
        marked := marked + {o};
        nMarks := nMarks[a := nMarks[a] + 1];
        ShapeWf(v);
        OneMoreMark(v, V(), o);
        ShapeAdd(v, V(), o);
      }
    }

    // ----- marking from a finalizable object

    // GC_MARK_FO with the ordinary mark procedure: everything reachable from p by one or more pointers is
    // marked, but p itself only if it is so reachable, or if the mark stack overflowed on the way.
    method MarkFO(p: Obj) returns (aborted: bool, overflowed: bool)
      requires Ready(V()) && Settled(V()) && p in m.words
      modifies this
      ensures m == old(m) && exact == old(exact) && free == old(free) && lapsed == old(lapsed)
      ensures !aborted ==> Ready(V()) && Settled(V())
      ensures !aborted ==> marked == if overflowed then old(marked) + Plus(m, p) + {p} else old(marked) + Plus(m, p)
      ensures !aborted && old(objectsAreMarked) ==> objectsAreMarked
      ensures overflowed <==> Draining.Overflows(m, old(marked), old(stackSize), p)
      ensures overflowed ==> old(stackSize) <= |Plus(m, p) - old(marked)|
      ensures !overflowed ==> stackSize == old(stackSize)
      ensures stackSize >= old(stackSize)
      ensures aborted ==> overflowed && ManyRoots(m)
    {
      hide Ready, Settled, Inv, Plus, DuringFO, Draining.Overflows, ManyRoots;
      ghost var u := V();
      overflowed := FollowFO(p);
      DuringFacts(u, V(), p);
      if overflowed {
        OverflowNeeds(u, V(), p);
        aborted := RemarkAll(p, u);
      } else {
        aborted := false;
        ghost var w := V();
        watch := {};
        EndFO(u, w, V(), p);
      }
      ghost var r := V();
      lapsed := u.lapsed;
      if !aborted {
        MoreLapsed(r, V());
      }
    }

    // The first half of GC_MARK_FO: call the mark procedure and empty the stack.
    method FollowFO(p: Obj) returns (overflowed: bool)
      requires Ready(V()) && Settled(V()) && p in m.words
      modifies this
      ensures m == old(m) && exact == old(exact) && free == old(free) && stack == [] && stackSize == old(stackSize)
      ensures Inv(V(), [], Done) && DuringFO(old(V()), V(), p)
      ensures overflowed <==> state != Quiet
      ensures overflowed <==> Draining.Overflows(m, old(marked), stackSize, p)
    {
      hide Ready, Settled, Inv, Plus, DuringFO, Draining.Turns, Draining.Overflows, Draining.Begin;
      ghost var u := V();
      BeginFO(p);
      ghost var b := D();
      DrainFO(p, u);
      ghost var n: nat :| D() == Draining.Turns(m, stackSize, b, n);
      Draining.OverflowsIff(m, u.marked, stackSize, p, n);
      DuringFacts(u, V(), p);
      overflowed := state != Quiet;
    }

    // GC_normal_finalize_mark_proc: the object goes on the stack without being marked.
    method PushUnmarked(p: Obj)
      requires stack == [] && stackSize >= INITIAL_MARK_STACK_SIZE && p in m.words && p in m.home && m.home[p] in m.blocks
      modifies this`stack, this`state, this`tooSmall
      ensures state == old(state)
      ensures stack == if Traced(m, p) then [Entry(Heap(p), 0, |WordsOf(m, Heap(p))|)] else []
    {
      hide Traced, WordsOf;
      PushTraced(p);
    }

    method BeginFO(p: Obj)
      requires Ready(V()) && Settled(V()) && p in m.words
      modifies this`stack, this`state, this`tooSmall, this`bound, this`watch, this`lapsed
      ensures Inv(V(), [], Done) && DuringFO(old(V()), V(), p)
      ensures D() == Draining.Begin(m, marked, p)
    {
      hide Ready, Settled, Inv, Plus, DuringFO, Traced, WordsOf;
      ghost var u := V();
      QuietAndEmpty(u, p);
      PushUnmarked(p);
      bound := marked + Plus(m, p);
      watch := Watched(m, p);
      lapsed := iset{};
      StartFO(u, V(), p);
      BegunIs(V(), p);
    }

    static lemma QuietAndEmpty(u: View, p: Obj)
      requires Ready(u) && Settled(u) && p in u.m.words
      ensures u.state.Quiet? && u.stack == [] && u.stackSize >= INITIAL_MARK_STACK_SIZE
      ensures p in u.m.home && u.m.home[p] in u.m.blocks
    {
      hide Ready, Settled, Shape, CountsOk, HeapI, RootsI, BoundOk, DirtyOk;
      ReadyParts(u);
      SettledIsQuiet(u);
      RoomAndHome(u, p);
    }

    static lemma BegunIs(v: View, p: Obj)
      requires p in v.m.words && v.state.Quiet? && v.stack == if Traced(v.m, p) then [Entry(Heap(p), 0, |WordsOf(v.m, Heap(p))|)] else []
      ensures Draining.Of(v) == Draining.Begin(v.m, v.marked, p)
    {
      hide Traced;
    }

    method DrainFO(p: Obj, ghost u: View)
      requires Inv(V(), [], Done) && DuringFO(u, V(), p)
      modifies this`marked, this`nMarks, this`stack, this`state, this`tooSmall, this`objectsAreMarked
      ensures Inv(V(), [], Done) && DuringFO(u, V(), p) && stack == []
      ensures exists n: nat :: D() == Draining.Turns(m, stackSize, old(D()), n)
    {
      hide Inv, Advances, DuringFO, Draining.Turns, Draining.Of, Unmarked, StackWords;
      ghost var turns: nat := 0;
      Draining.NoTurns(m, stackSize, D());
      while stack != []
        invariant Inv(V(), [], Done) && DuringFO(u, V(), p)
        invariant D() == Draining.Turns(m, stackSize, old(D()), turns)
        decreases Unmarked(V()), StackWords(stack)
      {
        ghost var w := V();
        ghost var n := MarkFrom(Done);
        Draining.TurnsAdd(m, stackSize, old(D()), turns, n);
        turns := turns + n;
        NearerToEmpty(u, w, V(), p);
      }
    }

    // After an overflow p itself is marked, and GC_mark_some is called until the whole heap has been followed.
    method RemarkAll(p: Obj, ghost u: View) returns (aborted: bool)
      requires Inv(V(), [], Done) && DuringFO(u, V(), p) && state.Invalid? && stack == [] && p in m.words
      modifies this
      ensures m == u.m && exact == old(exact) && free == old(free)
      ensures !aborted ==> lapsed == iset{}
      ensures !aborted ==> Ready(V()) && Settled(V()) && marked == u.marked + Plus(m, p) + {p} && objectsAreMarked
      ensures aborted ==> ManyRoots(m)
      ensures stackSize >= old(stackSize)
    {
      hide Ready, Settled, Inv, Plus, DuringFO, Shape, CountsOk, ManyRoots, RootTargets;
      MarkSelf(p, u);
      ghost var v := V();
      aborted := RunToEnd();
      if aborted { return; }
      RemarkDone(u, v, V(), p);
    }

    method MarkSelf(p: Obj, ghost u: View)
      requires Inv(V(), [], Done) && DuringFO(u, V(), p) && state.Invalid? && stack == [] && p in m.words
      modifies this`marked, this`nMarks, this`watch, this`bound
      ensures Ready(V()) && m == u.m && written == {} && lapsed == iset{} && bound == u.marked + Plus(m, p) + {p}
      ensures RootTargets(u.m) <= u.marked && u.marked + {p} <= marked
    {
      hide Ready, Settled, Inv, Plus, DuringFO, Shape, CountsOk, ManyRoots, RootTargets;
      DuringFacts(u, V(), p);
      InvFacts(V(), [], Done);
      ghost var t := V();
      SetMarkBit(p);
      ghost var c := V();
      watch := {};
      bound := bound + {p};
      SameMarks2(c, V());
      RemarkReady(u, t, V(), p);
    }

    // while (!GC_mark_some(0)) {}
    method RunToEnd() returns (aborted: bool)
      requires Ready(V()) && !state.Quiet?
      modifies this`marked, this`nMarks, this`stack, this`stackSize, this`state, this`tooSmall, this`objectsAreMarked, this`rootsTouched, this`scanPtr
      ensures !aborted ==> Ready(V()) && state.Quiet? && old(marked) <= marked && objectsAreMarked
      ensures aborted ==> (old(state).PushRescuers? && !dirtyMaintained) || ManyRoots(m)
      ensures stackSize >= old(stackSize)
    {
      hide Ready, Inv, Progress, Marking, ManyRoots;
      while true
        invariant Ready(V()) && !state.Quiet? && old(marked) <= marked
        invariant state.PushRescuers? ==> old(state).PushRescuers?
        invariant stackSize >= old(stackSize)
        decreases Unmarked(V()), Rank(V()), BlocksFrom(m, scanPtr), StackWords(stack)
      {
        ghost var w := V();
        var r := MarkSome();
        if r.Abort? { return true; }
        MarkingFacts(w, V());
        if r.Finished? { return false; }
        NearerTheEnd(w, V());
      }
    }
  }
}
