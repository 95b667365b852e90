// Lazy sweeping: gc/reclaim.c, with the object free lists of gc/malloc.c and gc/new_hblk.c and the
// places in gc/alloc.c that clear mark bits and start a sweep.
//
// A slot is an object-sized piece of a heap block, named by the block and its index in it.  The mark
// bits of a block are the set of the indices of its marked slots.

module LazySweep {
  import opened Config

  datatype Slot = Slot(b: nat, i: nat)

  /** init: objects of the kind are cleared before they are handed out. */
  datatype Kind = Kind(id: nat, init: bool, uncollectable: bool)

  /** Each kind has a free list and a reclaim list for every object size. */
  datatype Class = Class(kind: Kind, gran: nat)

  datatype Blk = Blk(cls: Class, marks: set<nat>, nMarks: nat, lastReclaimed: nat)

  datatype View = View(
    blocks: map<nat, Blk>,
    fl: map<Class, seq<Slot>>,              // ok_freelist
    rl: map<Class, seq<nat>>,               // ok_reclaim_list
    zero: set<Slot>,              // slots whose words after the link word are zero
    inUse: set<Slot>)             // history: objects handed out that the client may still use

  predicate IsSmall(c: Class) {
    c.gran <= MAXOBJGRANULES
  }

  /** HBLK_OBJS, and 1 for a large object. */
  function Objs(c: Class): nat {
    if 0 < c.gran <= MAXOBJGRANULES then HBLKSIZE / (c.gran * GRANULE_BYTES) else 1
  }

  // The slots of a small class fit in a block of 4096 bytes, and one more would not; a large object is alone.
  lemma SlotsFit(c: Class)
    requires c.gran > 0
    ensures c.gran <= 128 ==> Objs(c) > 1 && Objs(c) * c.gran * 16 <= 4096 < (Objs(c) + 1) * c.gran * 16
    ensures c.gran > 128 ==> Objs(c) == 1
  {
    if c.gran <= 128 {
      var sz := c.gran * 16;
      assert sz <= 2048;
      assert 4096 == sz * (4096 / sz) + 4096 % sz;
      AtLeastTwo(sz, 4096 / sz, 4096 % sz);
      assert Objs(c) == 4096 / sz;
      assert Objs(c) * c.gran * 16 == sz * Objs(c);
      assert (Objs(c) + 1) * c.gran * 16 == sz * Objs(c) + sz;
    }
  }

  lemma AtLeastTwo(sz: nat, q: nat, r: nat)
    requires 0 < sz <= 2048 && 4096 == sz * q + r && r < sz
    ensures q >= 2
  {
    assert (q == 0 ==> sz * q == 0) && (q == 1 ==> sz * q == sz);
  }

  /** The free list of a class, and its reclaim list. */
  function Free(m: map<Class, seq<Slot>>, c: Class): seq<Slot> {
    if c in m then m[c] else []
  }

  function Waiting(m: map<Class, seq<nat>>, c: Class): seq<nat> {
    if c in m then m[c] else []
  }

  predicate IsSlot(v: View, s: Slot) {
    s.b in v.blocks && s.i < Objs(v.blocks[s.b].cls)
  }

  predicate IsMarked(v: View, s: Slot) {
    s.b in v.blocks && s.i in v.blocks[s.b].marks
  }

  predicate OfUncollectable(v: View, s: Slot) {
    s.b in v.blocks && v.blocks[s.b].cls.kind.uncollectable
  }

  ghost predicate Distinct(l: seq<Slot>) {
    forall j, k | 0 <= j < k < |l| :: l[j] != l[k]
  }

  ghost predicate DistinctBlocks(l: seq<nat>) {
    forall j, k | 0 <= j < k < |l| :: l[j] != l[k]
  }

  ghost predicate BlockOk(k: Blk) {
    && k.cls.gran > 0 && k.nMarks == |k.marks|
    && forall i :: i in k.marks ==> i < Objs(k.cls)
  }

  ghost predicate BlocksOk(v: View) {
    forall b :: b in v.blocks ==> BlockOk(v.blocks[b])
  }

  /** A free list holds each slot once, only slots of its class, and none that is in use. */
  ghost predicate FreeOk(v: View) {
    && (forall c :: Distinct(Free(v.fl, c)))
    && (forall c, s :: s in Free(v.fl, c) ==> FreeSlot(v, c, s))
  }

  predicate FreeSlot(v: View, c: Class, s: Slot) {
    && IsSlot(v, s) && v.blocks[s.b].cls == c && s !in v.inUse
    && (c.kind.init ==> s in v.zero)
    && (c.kind.uncollectable ==> IsMarked(v, s))
  }

  ghost predicate InUseOk(v: View) {
    forall s :: s in v.inUse ==> IsSlot(v, s) && (OfUncollectable(v, s) ==> IsMarked(v, s))
  }

  predicate InQueue(rl: map<Class, seq<nat>>, c: Class, b: nat) {
    b in Waiting(rl, c)
  }

  predicate QueueOk(blocks: map<nat, Blk>, c: Class, b: nat) {
    b in blocks && blocks[b].cls == c && IsSmall(c)
  }

  ghost predicate ReclaimOk(v: View) {
    && (forall c :: DistinctBlocks(Waiting(v.rl, c)))
    && (forall c: Class, b: nat :: InQueue(v.rl, c, b) ==> QueueOk(v.blocks, c, b))
  }

  /** Block b waits to be swept. */
  predicate Waits(v: View, b: nat) {
    b in v.blocks && InQueue(v.rl, v.blocks[b].cls, b)
  }

  /** A block that waits to be swept has its marks: everything in use in it is marked, and so is
      everything in it that is on a free list already. */
  ghost predicate MarksOk(v: View) {
    && (forall s :: s in v.inUse && Waits(v, s.b) ==> IsMarked(v, s))
    && (forall c, s :: s in Free(v.fl, c) && Waits(v, s.b) ==> IsMarked(v, s))
  }

  /** What holds even while mark bits are cleared. */
  ghost predicate Shape(v: View) {
    BlocksOk(v) && FreeOk(v) && InUseOk(v) && ReclaimOk(v)
  }

  ghost predicate Inv(v: View) {
    Shape(v) && MarksOk(v)
  }

  // ----- sweeping one block

  /** The unmarked slots below n, the last one first. */
  function Unmarked(b: nat, marks: set<nat>, n: nat): seq<Slot> {
    if n == 0 then [] else (if n - 1 in marks then [] else [Slot(b, n - 1)]) + Unmarked(b, marks, n - 1)
  }

  lemma {:induction false} UnmarkedHas(b: nat, marks: set<nat>, n: nat)
    ensures forall s :: s in Unmarked(b, marks, n) <==> s.b == b && s.i < n && s.i !in marks
    ensures Distinct(Unmarked(b, marks, n))
  {
    if n > 0 {
      UnmarkedHas(b, marks, n - 1);
    }
  }

  function AllBelow(n: nat): (r: set<nat>)
    ensures forall i: nat :: i in r <==> i < n
    ensures |r| == n
  {
    if n == 0 then {} else AllBelow(n - 1) + {n - 1}
  }

  /** The block at the head of its reclaim list is taken off it and swept. */
  ghost predicate SweepsTo(v: View, w: View, b: nat, gcNo: nat) {
    && b in v.blocks
    && var k := v.blocks[b];
       var found := Unmarked(b, k.marks, Objs(k.cls));
       && |Waiting(v.rl, k.cls)| > 0 && Waiting(v.rl, k.cls)[0] == b
       && w.rl == v.rl[k.cls := Waiting(v.rl, k.cls)[1..]]
       && w.fl == v.fl[k.cls := found + Free(v.fl, k.cls)]
       && w.inUse == v.inUse
       && (forall s :: s in v.zero ==> s in w.zero) && (k.cls.kind.init ==> forall s :: s in found ==> s in w.zero)
       && (forall s :: s in w.zero ==> s in v.zero || s in found)
       && w.blocks == v.blocks[b := if k.cls.kind.uncollectable then k.(marks := AllBelow(Objs(k.cls)), nMarks := Objs(k.cls), lastReclaimed := gcNo)
                                    else k.(lastReclaimed := gcNo)]
  }

  // Sweeping a block that waits keeps the invariant.  In particular, none of the slots that it adds to
  // the free list is in use, and none was on the list before.
  lemma SweepKeeps(v: View, w: View, b: nat, gcNo: nat)
    requires Inv(v) && SweepsTo(v, w, b, gcNo)
    ensures Inv(w)
    ensures var k := v.blocks[b];
            forall s :: s in Unmarked(b, k.marks, Objs(k.cls)) ==> s !in v.inUse && s !in Free(v.fl, k.cls) && !IsMarked(v, s)
  {
    var k := v.blocks[b];
    UnmarkedHas(b, k.marks, Objs(k.cls));
    assert Waits(v, b);
    var found := Unmarked(b, k.marks, Objs(k.cls));
    hide Unmarked;
    SweptBlocks(v, w, b, gcNo);
    SweptFree(v, w, b, gcNo, found);
    SweptRest(v, w, b, gcNo);
  }

  lemma SweptBlocks(v: View, w: View, b: nat, gcNo: nat)
    requires BlocksOk(v) && SweepsTo(v, w, b, gcNo)
    ensures BlocksOk(w)
  {
    assert BlockOk(v.blocks[b]);
  }

  lemma SweptFree(v: View, w: View, b: nat, gcNo: nat, found: seq<Slot>)
    requires Inv(v) && SweepsTo(v, w, b, gcNo) && Waits(v, b)
    requires found == Unmarked(b, v.blocks[b].marks, Objs(v.blocks[b].cls)) && Distinct(found)
    requires forall s :: s in found <==> s.b == b && s.i < Objs(v.blocks[b].cls) && s.i !in v.blocks[b].marks
    ensures FreeOk(w)
  {
    hide Unmarked, BlocksOk, InUseOk, ReclaimOk;
    var c0 := v.blocks[b].cls;
    forall s | s in found ensures s !in Free(v.fl, c0) {
      assert !IsMarked(v, s);
    }
    Joined(found, Free(v.fl, c0));
    forall c ensures Distinct(Free(w.fl, c)) {
      assert c != c0 ==> Free(w.fl, c) == Free(v.fl, c);
    }
    forall c, s | s in Free(w.fl, c) ensures FreeSlot(w, c, s) {
      if s in Free(v.fl, c) {
        assert FreeSlot(v, c, s);
      }
    }
  }

  lemma Joined(a: seq<Slot>, l: seq<Slot>)
    requires Distinct(a) && Distinct(l) && forall x :: x in a ==> x !in l
    ensures Distinct(a + l)
  {
    var r := a + l;
    forall j, k | 0 <= j < k < |r| ensures r[j] != r[k] {
      if j < |a| <= k {
        assert r[j] in a && r[k] in l;
      }
    }
  }

  lemma SweptReclaim(v: View, w: View, b: nat, gcNo: nat)
    requires ReclaimOk(v) && SweepsTo(v, w, b, gcNo)
    ensures ReclaimOk(w)
  {
    hide Unmarked;
    var c0 := v.blocks[b].cls;
    var l := Waiting(v.rl, c0);
    assert DistinctBlocks(l);
    forall c ensures DistinctBlocks(Waiting(w.rl, c)) {
      assert DistinctBlocks(Waiting(v.rl, c));
      assert c == c0 ==> Waiting(w.rl, c) == l[1..];
    }
    forall c: Class, x: nat | InQueue(w.rl, c, x) ensures QueueOk(w.blocks, c, x) {
      assert InQueue(v.rl, c, x);
    }
  }

  lemma SweptRest(v: View, w: View, b: nat, gcNo: nat)
    requires Inv(v) && SweepsTo(v, w, b, gcNo)
    ensures InUseOk(w) && ReclaimOk(w) && MarksOk(w)
  {
    hide Unmarked, FreeSlot, BlocksOk;
    SweptReclaim(v, w, b, gcNo);
    var c0 := v.blocks[b].cls;
    var l := Waiting(v.rl, c0);
    assert DistinctBlocks(l);
    assert forall x :: x in l[1..] ==> x in l;
    assert b !in l[1..];
    UnmarkedHas(b, v.blocks[b].marks, Objs(c0));
    forall c, s | s in Free(w.fl, c) && Waits(w, s.b) ensures IsMarked(w, s) {
      assert s.b != b;
      assert s in Free(v.fl, c);
    }
  }

  /** The block at the head of its reclaim list is taken off it and not swept. */
  ghost predicate DiscardsTo(v: View, w: View, c: Class) {
    |Waiting(v.rl, c)| > 0 && w == v.(rl := v.rl[c := Waiting(v.rl, c)[1..]])
  }

  lemma DequeueKeeps(v: View, w: View, c: Class)
    requires ReclaimOk(v) && DiscardsTo(v, w, c)
    ensures ReclaimOk(w) && forall b :: Waits(w, b) ==> Waits(v, b)
  {
    var l := Waiting(v.rl, c);
    forall d ensures DistinctBlocks(Waiting(w.rl, d)) {
      assert DistinctBlocks(Waiting(v.rl, d));
      assert d == c ==> Waiting(w.rl, d) == l[1..];
    }
    forall d: Class, x: nat | InQueue(w.rl, d, x) ensures InQueue(v.rl, d, x) {
      assert d == c ==> Waiting(w.rl, d) == l[1..];
    }
  }

  lemma DiscardKeeps(v: View, w: View, c: Class)
    requires Inv(v) && DiscardsTo(v, w, c)
    ensures Inv(w)
  {
    hide BlockOk, ReclaimOk, Waits;
    DequeueKeeps(v, w, c);
    forall d ensures Distinct(Free(w.fl, d)) {
      assert Distinct(Free(v.fl, d));
    }
    forall d, x | x in Free(w.fl, d) ensures FreeSlot(w, d, x) {
      assert FreeSlot(v, d, x);
    }
  }

  // ----- handing out and freeing

  ghost predicate PopsTo(v: View, w: View, c: Class) {
    |Free(v.fl, c)| > 0 && w == v.(fl := v.fl[c := Free(v.fl, c)[1..]], inUse := v.inUse + {Free(v.fl, c)[0]})
  }

  lemma PopKeeps(v: View, w: View, c: Class)
    requires Inv(v) && PopsTo(v, w, c)
    ensures Inv(w) && FreeSlot(v, c, Free(v.fl, c)[0])
  {
    var l := Free(v.fl, c);
    assert Distinct(l) && l[0] in l && l[0] !in l[1..];
    assert forall x :: x in l[1..] ==> x in l;
    assert forall d: Class | d != c :: Free(w.fl, d) == Free(v.fl, d);
    forall d ensures Distinct(Free(w.fl, d)) {
      assert Distinct(Free(v.fl, d));
    }
    forall d, s | s in Free(w.fl, d) ensures FreeSlot(w, d, s) {
      assert FreeSlot(v, d, s);
      assert d != c ==> FreeSlot(v, c, l[0]);
    }
    hide BlockOk, ReclaimOk;
  }

  ghost predicate FreesTo(v: View, w: View, s: Slot) {
    && s.b in v.blocks && s in v.inUse
    && var c := v.blocks[s.b].cls;
       w == v.(fl := v.fl[c := [s] + Free(v.fl, c)], inUse := v.inUse - {s}, zero := if c.kind.init then v.zero + {s} else v.zero)
  }

  // GC_free does not clear the mark bit, so a freed object of a block that waits to be swept is not
  // put on the list a second time by the sweep.
  lemma FreeKeeps(v: View, w: View, s: Slot)
    requires Inv(v) && FreesTo(v, w, s)
    ensures Inv(w)
  {
    hide BlockOk, ReclaimOk, Waits;
    var c := v.blocks[s.b].cls;
    FreedSlot(v, w, s);
    SameWaits(v, w);
    forall d, x | x in Free(w.fl, d) ensures FreeSlot(w, d, x) && (Waits(w, x.b) ==> IsMarked(w, x)) {
      assert x != s ==> x in Free(v.fl, d);
      OtherSlot(v, w, s, d, x);
    }
    forall d ensures Distinct(Free(w.fl, d)) {
      FreedDistinct(v, w, s, d);
    }
  }

  lemma SameWaits(v: View, w: View)
    requires ReclaimOk(v) && w.rl == v.rl && w.blocks == v.blocks
    ensures ReclaimOk(w) && forall b :: Waits(w, b) == Waits(v, b)
  {
    assert forall c :: DistinctBlocks(Waiting(v.rl, c));
    forall c: Class, x: nat | InQueue(w.rl, c, x) ensures QueueOk(w.blocks, c, x) {
      assert InQueue(v.rl, c, x);
    }
  }

  lemma FreedSlot(v: View, w: View, s: Slot)
    requires Inv(v) && FreesTo(v, w, s)
    ensures var c := v.blocks[s.b].cls; FreeSlot(w, c, s) && (Waits(v, s.b) ==> IsMarked(v, s)) && s !in Free(v.fl, c)
    ensures forall d :: s !in Free(v.fl, d)
  {
    hide BlockOk, ReclaimOk, Waits;
    assert IsSlot(v, s);
    forall d ensures s !in Free(v.fl, d) {
      assert s in Free(v.fl, d) ==> FreeSlot(v, d, s);
    }
  }

  lemma OtherSlot(v: View, w: View, s: Slot, d: Class, x: Slot)
    requires Inv(v) && FreesTo(v, w, s)
    ensures x in Free(v.fl, d) ==> FreeSlot(w, d, x) && (Waits(v, x.b) ==> IsMarked(w, x))
  {
    hide BlockOk, ReclaimOk, Waits;
    assert x in Free(v.fl, d) ==> FreeSlot(v, d, x);
  }

  lemma FreedDistinct(v: View, w: View, s: Slot, d: Class)
    requires Inv(v) && FreesTo(v, w, s)
    ensures Distinct(Free(w.fl, d))
  {
    hide BlockOk, ReclaimOk, Waits;
    FreedSlot(v, w, s);
    assert Distinct(Free(v.fl, d));
    var c := v.blocks[s.b].cls;
    assert d == c ==> Free(w.fl, d) == [s] + Free(v.fl, c);
  }

  ghost predicate GrowsTo(v: View, w: View, b: nat, c: Class) {
    && b !in v.blocks && c.gran > 0 && IsSmall(c)
    && var all := Unmarked(b, {}, Objs(c));
       && w.fl == v.fl[c := all + Free(v.fl, c)] && w.rl == v.rl && w.inUse == v.inUse
       && (forall s :: s in v.zero ==> s in w.zero) && (c.kind.init ==> forall s :: s in all ==> s in w.zero)
       && (forall s :: s in w.zero ==> s in v.zero || s in all)
       && b in w.blocks && w.blocks == v.blocks[b := w.blocks[b]] && w.blocks[b].cls == c && BlockOk(w.blocks[b])
       && (forall i: nat :: i in w.blocks[b].marks <==> c.kind.uncollectable && i < Objs(c))
  }

  // All slots of a new block are free.
  lemma GrowKeeps(v: View, w: View, b: nat, c: Class)
    requires Inv(v) && GrowsTo(v, w, b, c)
    ensures Inv(w)
  {
    UnmarkedHas(b, {}, Objs(c));
    var all := Unmarked(b, {}, Objs(c));
    hide Unmarked, BlockOk;
    assert forall x | x in Free(v.fl, c) :: FreeSlot(v, c, x);
    Joined(all, Free(v.fl, c));
    forall d ensures Distinct(Free(w.fl, d)) {
      assert Distinct(Free(v.fl, d));
    }
    NewBlockWaitsNot(v, w, b, c);
    forall d, x | x in Free(w.fl, d) ensures FreeSlot(w, d, x) && (Waits(w, x.b) ==> IsMarked(w, x)) {
      assert x in Free(v.fl, d) ==> FreeSlot(v, d, x);
    }
  }

  lemma NewBlockWaitsNot(v: View, w: View, b: nat, c: Class)
    requires ReclaimOk(v) && b !in v.blocks && w.rl == v.rl && b in w.blocks && w.blocks == v.blocks[b := w.blocks[b]]
    ensures !Waits(w, b) && forall x :: x != b ==> Waits(w, x) == Waits(v, x)
    ensures ReclaimOk(w)
  {
    forall c: Class, x: nat | InQueue(w.rl, c, x) ensures QueueOk(w.blocks, c, x) {
      assert InQueue(v.rl, c, x);
      assert x != b;
    }
    assert forall c :: DistinctBlocks(Waiting(v.rl, c));
  }

  /** A large object is a block with one slot, which is handed out at once. */
  ghost predicate LargeTo(v: View, w: View, b: nat, c: Class) {
    && b !in v.blocks && c.gran > MAXOBJGRANULES && b in w.blocks
    && w == v.(inUse := v.inUse + {Slot(b, 0)},
               blocks := v.blocks[b := Blk(c, if c.kind.uncollectable then {0} else {}, if c.kind.uncollectable then 1 else 0, w.blocks[b].lastReclaimed)])
  }

  lemma LargeKeeps(v: View, w: View, b: nat, c: Class)
    requires Inv(v) && LargeTo(v, w, b, c)
    ensures Inv(w) && Slot(b, 0) !in v.inUse
  {
    NewBlockWaitsNot(v, w, b, c);
    hide Waits;
    forall d, x | x in Free(w.fl, d) ensures FreeSlot(w, d, x) && (Waits(w, x.b) ==> IsMarked(w, x)) {
      assert FreeSlot(v, d, x);
    }
    forall x | x in v.inUse ensures x.b != b {
      assert IsSlot(v, x);
    }
    assert BlockOk(w.blocks[b]);
    forall d ensures Distinct(Free(w.fl, d)) {
      assert Distinct(Free(v.fl, d));
    }
  }

  /** GC_free of a large object. */
  ghost predicate LargeFreesTo(v: View, w: View, b: nat) {
    && b in v.blocks && v.blocks[b].cls.gran > MAXOBJGRANULES
    && w == v.(inUse := v.inUse - {Slot(b, 0)}, blocks := v.blocks - {b})
  }

  lemma LargeFreeKeeps(v: View, w: View, b: nat)
    requires Inv(v) && Slot(b, 0) in v.inUse && LargeFreesTo(v, w, b)
    ensures Inv(w)
  {
    LargeNotListed(v, b);
    var u := v.(blocks := v.blocks - {b});
    ReleaseKeeps(v, u, b);
    SameWaits(u, w);
    hide Waits, ReclaimOk;
    forall d, x | x in Free(w.fl, d) ensures FreeSlot(w, d, x) && (Waits(w, x.b) ==> IsMarked(w, x)) {
      assert FreeSlot(v, d, x);
    }
    forall x | x in w.inUse ensures x.b != b {
      assert IsSlot(v, x);
    }
    forall d ensures Distinct(Free(w.fl, d)) {
      assert Distinct(Free(v.fl, d));
    }
  }

  lemma LargeNotListed(v: View, b: nat)
    requires Inv(v) && b in v.blocks && v.blocks[b].cls.gran > MAXOBJGRANULES && Slot(b, 0) in v.inUse
    ensures !Waits(v, b) && forall c, x :: x in Free(v.fl, c) ==> x.b != b
  {
    forall c, x | x in Free(v.fl, c) ensures x.b != b {
      assert FreeSlot(v, c, x);
      assert x == Slot(x.b, x.i);
    }
    assert Waits(v, b) ==> QueueOk(v.blocks, v.blocks[b].cls, b);
  }

  // ----- marking

  predicate MarksTo(v: View, w: View, s: Slot) {
    && IsSlot(v, s)
    && var k := v.blocks[s.b];
       w == if s.i in k.marks then v else v.(blocks := v.blocks[s.b := k.(marks := k.marks + {s.i}, nMarks := k.nMarks + 1)])
  }

  lemma MarkAdds(v: View, w: View, s: Slot)
    requires MarksTo(v, w, s)
    ensures w == v.(blocks := w.blocks) && SameClasses(v.blocks, w.blocks) && IsMarked(w, s)
    ensures forall x: Slot :: IsMarked(w, x) <==> IsMarked(v, x) || x == s
    ensures BlockOk(v.blocks[s.b]) ==> BlockOk(w.blocks[s.b])
    ensures forall b :: b in v.blocks && b != s.b ==> w.blocks[b] == v.blocks[b]
  {
  }

  /** Only marks are added. */
  ghost predicate OnlyMarks(v: View, w: View) {
    && w == v.(blocks := w.blocks) && SameClasses(v.blocks, w.blocks)
    && forall x: Slot :: IsMarked(v, x) ==> IsMarked(w, x)
  }

  lemma MarksFree(v: View, w: View)
    requires FreeOk(v) && OnlyMarks(v, w)
    ensures FreeOk(w)
  {
    hide IsMarked;
    forall c, x | x in Free(w.fl, c) ensures FreeSlot(w, c, x) {
      assert FreeSlot(v, c, x);
    }
    forall c ensures Distinct(Free(w.fl, c)) {
      assert Distinct(Free(v.fl, c));
    }
  }

  lemma MarksRest(v: View, w: View)
    requires InUseOk(v) && ReclaimOk(v) && OnlyMarks(v, w)
    ensures InUseOk(w) && ReclaimOk(w) && (MarksOk(v) ==> MarksOk(w))
  {
    hide IsMarked;
    forall c ensures DistinctBlocks(Waiting(w.rl, c)) {
      assert DistinctBlocks(Waiting(v.rl, c));
    }
    forall c: Class, x: nat | InQueue(w.rl, c, x) ensures QueueOk(w.blocks, c, x) {
      assert InQueue(v.rl, c, x);
    }
    assert forall b :: Waits(w, b) == Waits(v, b);
  }

  // Marks only ever help: the marker may run while blocks wait to be swept.
  lemma MarkKeeps(v: View, w: View, s: Slot)
    requires Shape(v) && MarksTo(v, w, s)
    ensures Shape(w) && IsMarked(w, s) && (Inv(v) ==> Inv(w))
    ensures forall x: Slot :: IsMarked(w, x) <==> IsMarked(v, x) || x == s
    ensures forall x: Slot :: IsSlot(v, x) <==> IsSlot(w, x)
    ensures SameClasses(v.blocks, w.blocks)
  {
    MarkAdds(v, w, s);
    hide MarksTo, BlockOk, IsMarked, FreeOk, InUseOk, ReclaimOk, MarksOk;
    MarksFree(v, w);
    MarksRest(v, w);
    assert BlocksOk(w);
  }

  /** GC_clear_marks: collectable objects lose their marks. */
  ghost predicate ClearsTo(v: View, w: View) {
    && w == v.(blocks := w.blocks) && w.blocks.Keys == v.blocks.Keys
    && forall b :: b in v.blocks ==>
         w.blocks[b] == if v.blocks[b].cls.kind.uncollectable then v.blocks[b] else v.blocks[b].(marks := {}, nMarks := 0)
  }

  // With all blocks swept or given up, the mark bits may be cleared.
  lemma ClearKeeps(v: View, w: View)
    requires Shape(v) && ClearsTo(v, w)
    ensures Shape(w) && ((forall c :: Waiting(v.rl, c) == []) ==> Inv(w))
  {
    forall c, x | x in Free(w.fl, c) ensures FreeSlot(w, c, x) {
      assert FreeSlot(v, c, x);
    }
    forall b | b in w.blocks ensures BlockOk(w.blocks[b]) {
      assert BlockOk(v.blocks[b]);
    }
    hide BlockOk;
  }

  // ----- what has been swept

  /** s is on a free list. */
  ghost predicate Listed(v: View, s: Slot) {
    exists c :: s in Free(v.fl, c)
  }

  /** The sweep takes block b, and does not just drop it: with ignore_old it takes only those swept lately. */
  predicate Due(v: View, b: nat, ignoreOld: bool, gcNo: nat) {
    b in v.blocks && (!ignoreOld || v.blocks[b].lastReclaimed + 1 == gcNo)
  }

  /** A block before and after it was swept. */
  ghost predicate SweptBlock(k: Blk, l: Blk, gcNo: nat) {
    && l.cls == k.cls && l.lastReclaimed == gcNo
    && if k.cls.kind.uncollectable then forall i: nat :: i in l.marks <==> i < Objs(k.cls) else l.marks == k.marks
  }

  /** Some blocks that waited wait no more: exactly the unmarked slots of those that were due have been added to
      free lists. */
  ghost predicate SweptSome(v: View, w: View, ignoreOld: bool, gcNo: nat) {
    && SameClasses(v.blocks, w.blocks) && w.inUse == v.inUse
    && (forall b :: Waits(w, b) ==> Waits(v, b))
    && (forall b :: b in v.blocks ==>
          if Waits(v, b) && !Waits(w, b) && Due(v, b, ignoreOld, gcNo) then SweptBlock(v.blocks[b], w.blocks[b], gcNo)
          else w.blocks[b] == v.blocks[b])
    && (forall s :: Listed(w, s) <==> Listed(v, s) || NewlyFree(v, w, ignoreOld, gcNo, s))
    && (forall s :: s in v.zero ==> s in w.zero) && (forall s :: s in w.zero ==> s in v.zero || NewlyFree(v, w, ignoreOld, gcNo, s))
  }

  /** s is an unmarked slot of a block that has been swept. */
  predicate NewlyFree(v: View, w: View, ignoreOld: bool, gcNo: nat, s: Slot) {
    IsSlot(v, s) && Waits(v, s.b) && !Waits(w, s.b) && Due(v, s.b, ignoreOld, gcNo) && !IsMarked(v, s)
  }

  lemma NoneNew(v: View, gcNo: nat)
    ensures forall s :: !NewlyFree(v, v, false, gcNo, s)
  {
  }

  lemma SweptNone(v: View, ignoreOld: bool, gcNo: nat)
    ensures SweptSome(v, v, ignoreOld, gcNo)
  {
  }

  /** Block b has been swept: who waits, who is marked, and who is listed afterwards. */
  ghost predicate SweptOne(u: View, w: View, b: nat, gcNo: nat) {
    && b in u.blocks && SameClasses(u.blocks, w.blocks) && w.inUse == u.inUse && Waits(u, b)
    && (forall x: nat :: Waits(w, x) <==> Waits(u, x) && x != b)
    && (forall x :: x in u.blocks ==> if x == b then SweptBlock(u.blocks[x], w.blocks[x], gcNo) else w.blocks[x] == u.blocks[x])
    && (forall s :: Listed(w, s) <==> Listed(u, s) || (IsSlot(u, s) && s.b == b && !IsMarked(u, s)))
    && (forall s :: s in u.zero ==> s in w.zero)
    && (forall s :: s in w.zero ==> s in u.zero || (IsSlot(u, s) && s.b == b && !IsMarked(u, s)))
  }

  lemma SweptIs(u: View, w: View, b: nat, gcNo: nat)
    requires Inv(u) && SweepsTo(u, w, b, gcNo) && Waits(u, b)
    ensures SweptOne(u, w, b, gcNo)
  {
    var k := u.blocks[b];
    UnmarkedHas(b, k.marks, Objs(k.cls));
    assert DistinctBlocks(Waiting(u.rl, k.cls));
    hide Inv, Unmarked, Listed;
    HeadWaitsNot(u, w, b, gcNo);
    hide Waits;
    forall s ensures Listed(w, s) <==> Listed(u, s) || (s.b == b && s.i < Objs(k.cls) && s.i !in k.marks) {
      ListedMore(u, w, k.cls, Unmarked(b, k.marks, Objs(k.cls)), s);
    }
  }

  lemma HeadWaitsNot(u: View, w: View, b: nat, gcNo: nat)
    requires SweepsTo(u, w, b, gcNo) && DistinctBlocks(Waiting(u.rl, u.blocks[b].cls))
    ensures forall x: nat :: Waits(w, x) <==> Waits(u, x) && x != b
  {
    hide Unmarked, DistinctBlocks;
    forall x: nat ensures Waits(w, x) <==> Waits(u, x) && x != b {
      HeadGone(Waiting(u.rl, u.blocks[b].cls), x);
    }
  }

  lemma SweptMore(v: View, u: View, w: View, b: nat, ignoreOld: bool, gcNo: nat)
    requires SweptSome(v, u, ignoreOld, gcNo) && SweptOne(u, w, b, gcNo) && Due(u, b, ignoreOld, gcNo)
    ensures SweptSome(v, w, ignoreOld, gcNo)
    ensures forall s :: NewlyFree(v, w, ignoreOld, gcNo, s) ==> NewlyFree(v, u, ignoreOld, gcNo, s) || s.b == b
  {
    hide Waits, Listed, SweptBlock;
    assert b in v.blocks && u.blocks[b] == v.blocks[b];
    forall s ensures NewlyFree(v, w, ignoreOld, gcNo, s) <==>
                       NewlyFree(v, u, ignoreOld, gcNo, s) || (IsSlot(u, s) && s.b == b && !IsMarked(u, s))
    {
      assert s.b != b ==> (NewlyFree(v, w, ignoreOld, gcNo, s) <==> NewlyFree(v, u, ignoreOld, gcNo, s));
    }
    hide NewlyFree;
  }

  lemma SweptStep(v: View, u: View, w: View, c: Class, b: nat, ignoreOld: bool, gcNo: nat)
    requires SweptSome(v, u, ignoreOld, gcNo) && Inv(u) && |Waiting(u.rl, c)| > 0 && b == Waiting(u.rl, c)[0]
    requires SweepsTo(u, w, b, gcNo) && Due(u, b, ignoreOld, gcNo)
    ensures SweptSome(v, w, ignoreOld, gcNo)
    ensures forall s :: NewlyFree(v, w, ignoreOld, gcNo, s) ==> NewlyFree(v, u, ignoreOld, gcNo, s) || s.b == b
  {
    hide Inv, SweepsTo, SweptSome, SweptOne, Due, NewlyFree;
    HeadIs(u, c, b);
    SweptIs(u, w, b, gcNo);
    SweptMore(v, u, w, b, ignoreOld, gcNo);
  }

  /** GC_continue_reclaim: blocks of class c have been swept, of which only the last one had an unmarked slot. */
  ghost predicate SweptFor(v: View, w: View, c: Class, gcNo: nat) {
    && SweptSome(v, w, false, gcNo)
    && (Free(w.fl, c) != [] || Waiting(w.rl, c) == [])
    && (forall d :: d != c ==> Waiting(w.rl, d) == Waiting(v.rl, d))
    && forall s, t :: NewlyFree(v, w, false, gcNo, s) && NewlyFree(v, w, false, gcNo, t) ==> s.b == t.b
  }

  // If the free list is still empty, the block that was swept last had nothing to add either.
  lemma FoundNone(v: View, w: View, c: Class, b: nat, gcNo: nat)
    requires Inv(w) && SweptSome(v, w, false, gcNo) && Free(w.fl, c) == [] && b in w.blocks && w.blocks[b].cls == c
    requires forall s :: NewlyFree(v, w, false, gcNo, s) ==> s.b == b
    ensures forall s :: !NewlyFree(v, w, false, gcNo, s)
  {
    hide NewlyFree, BlockOk, ReclaimOk, MarksOk;
    forall d, s | s in Free(w.fl, d) ensures s.b != b {
      assert FreeSlot(w, d, s);
    }
    forall s ensures !NewlyFree(v, w, false, gcNo, s) {
      assert NewlyFree(v, w, false, gcNo, s) ==> Listed(w, s);
    }
  }

  // ----- what an allocation does

  /** The first slot of the free list is handed out; if the list is empty, one of a new block. */
  ghost predicate HandsOut(u: View, w: View, c: Class, b: nat, out: set<Slot>) {
    if Free(u.fl, c) != [] then
      out == {Free(u.fl, c)[0]} && w == u.(fl := u.fl[c := Free(u.fl, c)[1..]], inUse := u.inUse + out)
    else if b == 0 then out == {} && w == u
    else FromNewBlock(u, w, c, b, out)
  }

  /** All slots of the new block but the one handed out are on the free list. */
  ghost predicate FromNewBlock(u: View, w: View, c: Class, b: nat, out: set<Slot>) {
    && (exists i: nat :: i < Objs(c) && out == {Slot(b, i)})
    && b in w.blocks && w == u.(blocks := u.blocks[b := w.blocks[b]], fl := w.fl, inUse := u.inUse + out, zero := w.zero)
    && w.blocks[b].cls == c && (forall i: nat :: i in w.blocks[b].marks <==> c.kind.uncollectable && i < Objs(c))
    && (forall d :: d != c ==> Free(w.fl, d) == Free(u.fl, d))
    && (forall s :: s in Free(w.fl, c) <==> s.b == b && s.i < Objs(c) && s !in out)
    && (forall s :: s in u.zero ==> s in w.zero) && (forall s :: s in w.zero ==> s in u.zero || s.b == b)
  }

  /** Blocks are swept only if the free list is empty, and a new block is taken only if that yields nothing. */
  ghost predicate AllocsTo(v: View, w: View, c: Class, b: nat, gcNo: nat, out: set<Slot>) {
    exists u: View ::
      && (if Free(v.fl, c) != [] then u == v else SweptFor(v, u, c, gcNo))
      && HandsOut(u, w, c, b, out)
  }

  lemma AllocIs(v: View, u: View, w: View, c: Class, b: nat, gcNo: nat, out: set<Slot>)
    requires (if Free(v.fl, c) != [] then u == v else SweptFor(v, u, c, gcNo)) && HandsOut(u, w, c, b, out)
    ensures AllocsTo(v, w, c, b, gcNo, out)
  {
    hide SweptFor, HandsOut;
  }

  lemma NewBlockIs(u: View, x: View, w: View, c: Class, b: nat)
    requires Free(u.fl, c) == [] && b != 0 && c.gran > 0 && GrowsTo(u, x, b, c) && PopsTo(x, w, c)
    ensures HandsOut(u, w, c, b, {Free(x.fl, c)[0]})
  {
    UnmarkedHas(b, {}, Objs(c));
    var all := Unmarked(b, {}, Objs(c));
    hide Unmarked, BlockOk;
    assert Free(x.fl, c) == all;
    assert all[0] in all;
    forall s ensures s in Free(w.fl, c) <==> s.b == b && s.i < Objs(c) && s != all[0] {
      if s in all && s != all[0] {
        var j :| 0 <= j < |all| && all[j] == s;
        assert all[1..][j - 1] == s;
      }
      if s in all[1..] { assert all[0] !in all[1..]; }
    }
    assert Slot(b, all[0].i) == all[0];
  }

  lemma SweptForIs(v: View, w: View, c: Class, gcNo: nat)
    requires SweptFor(v, w, c, gcNo)
    ensures w.inUse == v.inUse && SameClasses(v.blocks, w.blocks) && (Free(w.fl, c) == [] ==> Waiting(w.rl, c) == [])
  {
    hide Listed, Waits, SweptBlock, NewlyFree;
  }

  lemma GrownIs(u: View, w: View, b: nat, c: Class)
    requires GrowsTo(u, w, b, c)
    ensures Free(w.fl, c) != [] && w.inUse == u.inUse && b !in u.blocks && w.blocks.Keys == u.blocks.Keys + {b}
    ensures forall x :: x in u.blocks ==> w.blocks[x] == u.blocks[x]
  {
    UnmarkedHas(b, {}, Objs(c));
    assert Slot(b, 0) in Unmarked(b, {}, Objs(c));
    hide Unmarked, BlockOk;
  }

  lemma NothingOut(u: View, c: Class)
    requires Free(u.fl, c) == []
    ensures HandsOut(u, u, c, 0, {})
  {
  }

  lemma FirstOut(u: View, w: View, c: Class, b: nat)
    requires PopsTo(u, w, c)
    ensures HandsOut(u, w, c, b, {Free(u.fl, c)[0]})
  {
  }

  lemma DropStep(v: View, u: View, w: View, c: Class, b: nat, ignoreOld: bool, gcNo: nat)
    requires SweptSome(v, u, ignoreOld, gcNo) && Inv(u) && DiscardsTo(u, w, c) && b == Waiting(u.rl, c)[0]
    requires !Due(u, b, ignoreOld, gcNo)
    ensures SweptSome(v, w, ignoreOld, gcNo)
  {
    HeadIs(u, c, b);
    assert DistinctBlocks(Waiting(u.rl, c));
    hide Inv;
    forall x: nat ensures Waits(w, x) <==> Waits(u, x) && x != b {
      HeadGone(Waiting(u.rl, c), x);
    }
    forall s ensures Listed(w, s) <==> Listed(u, s) {
      assert forall d :: Free(w.fl, d) == Free(u.fl, d);
    }
    hide Waits, Listed, SweptBlock;
    forall s ensures NewlyFree(v, w, ignoreOld, gcNo, s) <==> NewlyFree(v, u, ignoreOld, gcNo, s) {
      assert s.b == b && Due(v, b, ignoreOld, gcNo) && Waits(v, b) ==> !Waits(u, b);
    }
    hide NewlyFree;
  }

  lemma HeadGone(l: seq<nat>, x: nat)
    requires |l| > 0 && DistinctBlocks(l)
    ensures x in l[1..] <==> x in l && x != l[0]
  {
    if x in l && x != l[0] {
      var j :| 0 <= j < |l| && l[j] == x;
      assert l[1..][j - 1] == x;
    }
  }

  lemma ListedMore(u: View, w: View, c: Class, found: seq<Slot>, s: Slot)
    requires w.fl == u.fl[c := found + Free(u.fl, c)]
    ensures Listed(w, s) <==> Listed(u, s) || s in found
  {
    if s in found || s in Free(u.fl, c) { assert s in Free(w.fl, c); }
    if d :| s in Free(u.fl, d) {
      assert d != c ==> Free(w.fl, d) == Free(u.fl, d);
      assert s in Free(w.fl, d);
    }
    if d :| s in Free(w.fl, d) {
      assert d != c ==> Free(w.fl, d) == Free(u.fl, d);
    }
  }

  /** What a full collection keeps: a slot on no free list, and on none after the sweep if there is one first,
      that the marker finds or that is of an uncollectable kind and marked. */
  ghost predicate Survives(v: View, swept: bool, found: set<Slot>, s: Slot) {
    && s.b in v.blocks && s.i < Objs(v.blocks[s.b].cls)
    && (forall c :: s !in Free(v.fl, c))
    && (swept && Waits(v, s.b) ==> s.i in v.blocks[s.b].marks)
    && (s in found || (v.blocks[s.b].cls.kind.uncollectable && s.i in v.blocks[s.b].marks))
  }

  /** A collection is complete: what the client holds is what it can reach and what is never collected; the marks
      are on `kept`; the free lists are empty, blocks without a mark are gone, and of the others those that are not
      nearly full wait to be swept. */
  ghost predicate Collected(v: View, w: View, reach: set<Slot>, kept: iset<Slot>) {
    && ClassesKept(v.blocks, w.blocks) && (forall c :: Free(w.fl, c) == [])
    && (forall s: Slot :: s in w.inUse <==>
          s in v.inUse && (s in reach || (s.b in v.blocks && v.blocks[s.b].cls.kind.uncollectable)))
    && (forall b :: b in w.blocks <==> b in v.blocks && exists i: nat :: Slot(b, i) in kept)
    && (forall s: Slot :: s.b in w.blocks && s.i in w.blocks[s.b].marks <==> s in kept)
    && (forall b :: b in w.blocks ==>
          (Waits(w, b) <==> w.blocks[b].cls.gran <= MAXOBJGRANULES && w.blocks[b].nMarks <= 7 * Objs(w.blocks[b].cls) / 8))
  }

  lemma CollectedFrom(v: View, u: View, w: View, reach: set<Slot>, a: iset<Slot>, kept: iset<Slot>)
    requires Collected(u, w, reach, a) && u.inUse == v.inUse && SameClasses(v.blocks, u.blocks)
    requires forall s :: s in a <==> s in kept
    ensures Collected(v, w, reach, kept)
  {
    assert a == kept;
    hide Waits;
  }

  /** Blocks swept lately are swept, older ones are given up, and then marks are cleared. */
  ghost predicate StartsFull(v: View, w: View, gcNo: nat) {
    exists u: View :: SweptSome(v, u, true, gcNo) && (forall c :: Waiting(u.rl, c) == []) && ClearsTo(u, w)
  }

  lemma StartsFullIs(v: View, u: View, w: View, gcNo: nat)
    requires SweptSome(v, u, true, gcNo) && (forall c :: Waiting(u.rl, c) == []) && ClearsTo(u, w)
    ensures StartsFull(v, w, gcNo)
  {
    hide SweptSome, ClearsTo;
  }

  lemma CollectedKeeps(v: View, w: View, reach: set<Slot>, kept: iset<Slot>)
    requires Collected(v, w, reach, kept)
    ensures ClassesKept(v.blocks, w.blocks)
    ensures forall s :: s in w.inUse <==> s in v.inUse && (s in reach || OfUncollectable(v, s))
  {
  }

  lemma ClearedSame(v: View, w: View)
    requires ClearsTo(v, w)
    ensures w == v.(blocks := w.blocks) && SameClasses(v.blocks, w.blocks)
  {
  }

  /** A collection has been stopped: some blocks have been swept, and after that nothing but marks may have changed. */
  ghost predicate Stopped(v: View, w: View, found: set<Slot>, gcNo: nat) {
    exists u: View ::
      && SweptSome(v, u, false, gcNo)
      && (w == u || ((forall c :: Waiting(u.rl, c) == []) && Remarked(u, w, found)))
  }

  /** Collectable objects are marked only if the marker has found them; uncollectable ones stay marked. */
  ghost predicate Remarked(u: View, w: View, found: set<Slot>) {
    && w == u.(blocks := w.blocks) && SameClasses(u.blocks, w.blocks)
    && forall s: Slot :: s.b in u.blocks ==>
         && (s.i in w.blocks[s.b].marks ==> s in found || (u.blocks[s.b].cls.kind.uncollectable && s.i in u.blocks[s.b].marks))
         && (u.blocks[s.b].cls.kind.uncollectable && s.i in u.blocks[s.b].marks ==> s.i in w.blocks[s.b].marks)
  }

  lemma RemarkedIs(u: View, x: View, w: View, part: set<Slot>, found: set<Slot>)
    requires ClearsTo(u, x) && w == x.(blocks := w.blocks) && SameClasses(x.blocks, w.blocks) && part <= found
    requires forall s :: IsMarked(w, s) <==> IsMarked(x, s) || (IsSlot(x, s) && s in part)
    ensures Remarked(u, w, found)
  {
    hide IsSlot;
    forall s: Slot | s.b in u.blocks
      ensures s.i in w.blocks[s.b].marks ==> s in found || (u.blocks[s.b].cls.kind.uncollectable && s.i in u.blocks[s.b].marks)
      ensures u.blocks[s.b].cls.kind.uncollectable && s.i in u.blocks[s.b].marks ==> s.i in w.blocks[s.b].marks
    {
      assert IsMarked(w, s) <==> IsMarked(x, s) || (IsSlot(x, s) && s in part);
    }
  }

  lemma StoppedIs(v: View, u: View, w: View, found: set<Slot>, gcNo: nat)
    requires SweptSome(v, u, false, gcNo) && (w == u || ((forall c :: Waiting(u.rl, c) == []) && Remarked(u, w, found)))
    ensures Stopped(v, w, found, gcNo) && w.inUse == v.inUse && SameClasses(v.blocks, w.blocks)
  {
    hide Waits, Listed, NewlyFree, SweptBlock;
  }

  // ----- finishing a collection

  /** Between the end of a mark phase and the end of GC_start_reclaim: nothing is said about free lists
      except that they hold no object in use. */
  ghost predicate Settling(v: View) {
    && BlocksOk(v) && InUseOk(v)
    && (forall s :: s in v.inUse ==> IsMarked(v, s))
    && (forall c, s :: s in Free(v.fl, c) ==> IsSlot(v, s) && s !in v.inUse)
  }

  /** The marker has found everything in `reach`; other collectable objects are garbage from now on. */
  function Kept(v: View, reach: set<Slot>): set<Slot> {
    set s | s in v.inUse && (s in reach || OfUncollectable(v, s))
  }

  lemma SettleStart(v: View, w: View, reach: set<Slot>)
    requires Shape(v) && w == v.(inUse := Kept(v, reach)) && forall s :: s in v.inUse && s in reach ==> IsMarked(v, s)
    ensures Settling(w)
  {
    hide BlockOk;
    forall c, s | s in Free(w.fl, c) ensures IsSlot(w, s) && s !in w.inUse {
      assert FreeSlot(v, c, s);
    }
  }

  /** GC_clear_fl_marks, one step. */
  ghost predicate UnmarksTo(v: View, w: View, s: Slot) {
    && IsSlot(v, s) && s !in v.inUse
    && var k := v.blocks[s.b];
       && (s.i in k.marks ==> k.nMarks > 0)
       && w == if s.i in k.marks then v.(blocks := v.blocks[s.b := k.(marks := k.marks - {s.i}, nMarks := k.nMarks - 1)]) else v
  }

  lemma UnmarkKeeps(v: View, w: View, s: Slot)
    requires Settling(v) && UnmarksTo(v, w, s)
    ensures Settling(w)
  {
    assert BlockOk(v.blocks[s.b]);
    forall b | b in w.blocks ensures BlockOk(w.blocks[b]) {
      assert BlockOk(v.blocks[b]);
    }
  }

  lemma UnmarkMarks(v: View, w: View, s: Slot)
    requires UnmarksTo(v, w, s)
    ensures w == v.(blocks := w.blocks) && w.blocks.Keys == v.blocks.Keys
    ensures forall b :: b in v.blocks ==> w.blocks[b].cls == v.blocks[b].cls
    ensures forall b, i: nat :: b in v.blocks ==> (i in w.blocks[b].marks <==> i in v.blocks[b].marks && Slot(b, i) != s)
  {
  }

  /** The marks of v without those of the slots in `gone`. */
  ghost predicate MarksLess(v: View, w: View, gone: set<Slot>) {
    && w == v.(blocks := w.blocks) && w.blocks.Keys == v.blocks.Keys
    && (forall b :: b in v.blocks ==> w.blocks[b].cls == v.blocks[b].cls)
    && (forall b, i: nat :: b in v.blocks ==> (i in w.blocks[b].marks <==> i in v.blocks[b].marks && Slot(b, i) !in gone))
  }

  lemma UnmarkStep(v: View, u: View, w: View, gone: set<Slot>, s: Slot)
    requires Settling(u) && MarksLess(v, u, gone) && UnmarksTo(u, w, s)
    ensures Settling(w) && MarksLess(v, w, gone + {s})
  {
    UnmarkKeeps(u, w, s);
    UnmarkMarks(u, w, s);
    hide Settling, UnmarksTo;
  }

  lemma MarkCounted(v: View, s: Slot)
    requires BlocksOk(v) && IsMarked(v, s)
    ensures v.blocks[s.b].nMarks > 0
  {
    assert BlockOk(v.blocks[s.b]);
  }

  /** GC_block_nearly_full */
  predicate NearlyFull(k: Blk) {
    k.nMarks > 7 * Objs(k.cls) / 8
  }

  /** The sweep has yet to visit the blocks in `todo`; the others were dealt with as their marks say. */
  ghost predicate Reclaiming(v0: View, v: View, todo: set<nat>) {
    && Settling(v0) && ReclaimOk(v) && (forall c :: Free(v.fl, c) == [])
    && v.inUse == v0.inUse
    && (forall b :: b in v.blocks ==> b in v0.blocks && v.blocks[b] == v0.blocks[b])
    && (forall b :: b in todo ==> b in v.blocks && !Waits(v, b))
    && (forall b :: b in v0.blocks && b !in todo ==> (b in v.blocks <==> v0.blocks[b].marks != {}))
    && (forall b :: b in v.blocks && b !in todo ==> (Waits(v, b) <==> IsSmall(v.blocks[b].cls) && !NearlyFull(v.blocks[b])))
  }

  ghost predicate ReclaimsTo(v: View, w: View, b: nat) {
    && b in v.blocks
    && var k := v.blocks[b];
       if k.marks == {} then w == v.(blocks := v.blocks - {b})
       else if IsSmall(k.cls) && !NearlyFull(k) then w == v.(rl := v.rl[k.cls := [b] + Waiting(v.rl, k.cls)])
       else w == v
  }

  lemma EnqueueKeeps(v: View, w: View, b: nat)
    requires ReclaimOk(v) && b in v.blocks && !Waits(v, b) && IsSmall(v.blocks[b].cls)
    requires var c := v.blocks[b].cls; w == v.(rl := v.rl[c := [b] + Waiting(v.rl, c)])
    ensures ReclaimOk(w) && Waits(w, b) && forall x :: x != b ==> Waits(w, x) == Waits(v, x)
  {
    var c := v.blocks[b].cls;
    forall d ensures DistinctBlocks(Waiting(w.rl, d)) {
      assert DistinctBlocks(Waiting(v.rl, d));
      assert d == c ==> Waiting(w.rl, d) == [b] + Waiting(v.rl, c);
    }
    forall d: Class, x: nat | InQueue(w.rl, d, x) ensures QueueOk(w.blocks, d, x) {
      assert InQueue(v.rl, d, x) || (x == b && d == c);
    }
  }

  lemma ReleaseKeeps(v: View, w: View, b: nat)
    requires ReclaimOk(v) && b in v.blocks && !Waits(v, b) && w == v.(blocks := v.blocks - {b})
    ensures ReclaimOk(w) && forall x :: x != b ==> Waits(w, x) == Waits(v, x)
  {
    assert forall c :: DistinctBlocks(Waiting(v.rl, c));
    forall d: Class, x: nat | InQueue(w.rl, d, x) ensures QueueOk(w.blocks, d, x) {
      assert InQueue(v.rl, d, x);
      assert x == b ==> Waits(v, b);
    }
  }

  lemma ReclaimKeeps(v0: View, v: View, w: View, todo: set<nat>, b: nat)
    requires Reclaiming(v0, v, todo) && b in todo && ReclaimsTo(v, w, b)
    ensures Reclaiming(v0, w, todo - {b})
  {
    hide Settling, NearlyFull, ReclaimOk, Waits;
    var k := v.blocks[b];
    if k.marks == {} {
      ReleaseKeeps(v, w, b);
    } else if IsSmall(k.cls) && !NearlyFull(k) {
      EnqueueKeeps(v, w, b);
    }
  }

  // When every block has been visited, the invariant holds again.
  lemma ReclaimDone(v0: View, v: View)
    requires Reclaiming(v0, v, {})
    ensures Inv(v)
  {
    forall s | s in v.inUse ensures IsSlot(v, s) && IsMarked(v, s) {
      assert IsMarked(v0, s) && IsSlot(v0, s);
      assert s.i in v0.blocks[s.b].marks;
    }
    forall b | b in v.blocks ensures BlockOk(v.blocks[b]) {
      assert BlockOk(v0.blocks[b]);
    }
  }

  lemma HeadIs(v: View, c: Class, b: nat)
    requires Inv(v) && |Waiting(v.rl, c)| > 0 && b == Waiting(v.rl, c)[0]
    ensures b in v.blocks && v.blocks[b].cls == c && c.gran > 0
  {
    assert InQueue(v.rl, c, b);
    assert BlockOk(v.blocks[b]);
  }

  lemma SweepIs(v: View, w: View, b: nat, c: Class, gcNo: nat)
    requires |Waiting(v.rl, c)| > 0 && b == Waiting(v.rl, c)[0] && b in v.blocks && v.blocks[b].cls == c
    requires w.rl == v.rl[c := Waiting(v.rl, c)[1..]] && w.inUse == v.inUse && b in w.blocks && w.blocks == v.blocks[b := w.blocks[b]]
    requires var k := v.blocks[b];
             && w.fl == v.fl[c := Unmarked(b, k.marks, Objs(c)) + Free(v.fl, c)]
             && (forall s :: s in v.zero ==> s in w.zero) && (c.kind.init ==> forall s :: s in Unmarked(b, k.marks, Objs(c)) ==> s in w.zero)
             && (forall s :: s in w.zero ==> s in v.zero || s in Unmarked(b, k.marks, Objs(c)))
             && w.blocks[b] == (if c.kind.uncollectable then k.(marks := AllBelow(Objs(c)), nMarks := Objs(c), lastReclaimed := gcNo)
                                else k.(lastReclaimed := gcNo))
    ensures SweepsTo(v, w, b, gcNo)
  {
    hide Unmarked;
  }

  lemma HandedOut(v: View, w: View, c: Class, s: Slot)
    requires Inv(v) && Inv(w) && PopsTo(v, w, c) && s == Free(v.fl, c)[0]
    ensures s !in v.inUse && IsSlot(w, s) && w.blocks[s.b].cls == c && (c.kind.init ==> s in w.zero)
    ensures forall d :: s !in Free(w.fl, d)
    ensures Waits(w, s.b) ==> IsMarked(w, s)
  {
    assert s in Free(v.fl, c);
    assert FreeSlot(v, c, s);
    hide BlockOk;
  }

  // ----- runs between two collections

  /** One step of the client, the sweep or the marker, or the clearing of mark bits when a mark phase starts,
      which needs that no block waits to be swept. */
  ghost predicate Step(v: View, w: View) {
    || (exists b, g :: SweepsTo(v, w, b, g))
    || (exists c :: DiscardsTo(v, w, c))
    || (exists c :: PopsTo(v, w, c))
    || (exists s :: FreesTo(v, w, s))
    || (exists b, c :: GrowsTo(v, w, b, c))
    || (exists b, c :: LargeTo(v, w, b, c))
    || (exists b :: Slot(b, 0) in v.inUse && LargeFreesTo(v, w, b))
    || (exists s :: MarksTo(v, w, s))
    || (exists s :: WritesTo(v, w, s))
    || ((forall c :: Waiting(v.rl, c) == []) && ClearsTo(v, w))
  }

  /** The client stores into an object. */
  ghost predicate WritesTo(v: View, w: View, s: Slot) {
    s in v.inUse && w == v.(zero := v.zero - {s})
  }

  lemma WriteKeeps(v: View, w: View, s: Slot)
    requires Inv(v) && WritesTo(v, w, s)
    ensures Inv(w)
  {
    hide BlockOk;
    forall c, x | x in Free(w.fl, c) ensures FreeSlot(w, c, x) {
      assert FreeSlot(v, c, x);
    }
  }

  /** The client gives s back. */
  ghost predicate GivesBack(v: View, w: View, s: Slot) {
    FreesTo(v, w, s) || (s.i == 0 && s in v.inUse && LargeFreesTo(v, w, s.b))
  }

  lemma StepKeeps(v: View, w: View)
    requires Inv(v) && Step(v, w)
    ensures Inv(w) && forall s :: s in v.inUse && !GivesBack(v, w, s) ==> s in w.inUse
  {
    hide Inv, SweepsTo, DiscardsTo, PopsTo, FreesTo, GrowsTo, LargeTo, LargeFreesTo, MarksTo, WritesTo, ClearsTo, GivesBack;
    if b, g :| SweepsTo(v, w, b, g) { SweepKeeps(v, w, b, g); Stays(v, w); }
    else if c :| DiscardsTo(v, w, c) { DiscardKeeps(v, w, c); Stays(v, w); }
    else if c :| PopsTo(v, w, c) { PopKeeps(v, w, c); Stays(v, w); }
    else if s :| FreesTo(v, w, s) { FreeKeeps(v, w, s); Stays(v, w); }
    else if b, c :| GrowsTo(v, w, b, c) { GrowKeeps(v, w, b, c); Stays(v, w); }
    else if b, c :| LargeTo(v, w, b, c) { LargeKeeps(v, w, b, c); Stays(v, w); }
    else if b :| Slot(b, 0) in v.inUse && LargeFreesTo(v, w, b) { LargeFreeKeeps(v, w, b); Stays(v, w); }
    else if s :| MarksTo(v, w, s) { ShapeOf(v); MarkKeeps(v, w, s); Stays(v, w); }
    else if s :| WritesTo(v, w, s) { WriteKeeps(v, w, s); Stays(v, w); }
    else { ShapeOf(v); ClearKeeps(v, w); Stays(v, w); }
  }

  lemma Stays(v: View, w: View)
    requires Step(v, w)
    ensures forall s :: s in v.inUse && !GivesBack(v, w, s) ==> s in w.inUse
  {
    hide Unmarked, BlockOk;
  }

  // Until the next mark phase ends, an object that was handed out and not given back is neither
  // reclaimed nor put on a free list, however sweeping, allocation, marking and the start of a mark phase
  // are interleaved.
  lemma {:induction false} NotReclaimedAgain(run: seq<View>, s: Slot)
    requires |run| > 0 && Inv(run[0]) && s in run[0].inUse
    requires forall i: nat | i + 1 < |run| :: Step(run[i], run[i + 1]) && !GivesBack(run[i], run[i + 1], s)
    ensures var v := run[|run| - 1]; Inv(v) && s in v.inUse && IsSlot(v, s) && forall c :: s !in Free(v.fl, c)
    decreases |run|
  {
    if |run| == 1 {
      OnNoList(run[0], s);
    } else {
      assert Step(run[0], run[0 + 1]);
      StepKeeps(run[0], run[1]);
      var rest := run[1..];
      forall i: nat | i + 1 < |rest| ensures Step(rest[i], rest[i + 1]) && !GivesBack(rest[i], rest[i + 1], s) {
        assert Step(run[i + 1], run[i + 1 + 1]);
      }
      NotReclaimedAgain(rest, s);
      assert rest[|rest| - 1] == run[|run| - 1];
    }
  }

  lemma OnNoList(v: View, s: Slot)
    requires Inv(v) && s in v.inUse
    ensures IsSlot(v, s) && forall c :: s !in Free(v.fl, c)
  {
    forall c ensures s !in Free(v.fl, c) {
      assert s in Free(v.fl, c) ==> FreeSlot(v, c, s);
    }
  }

  class Sweeper {
    var blocks: map<nat, Blk>
    var free: map<Class, seq<Slot>>
    var reclaim: map<Class, seq<nat>>
    var zero: set<Slot>
    var gcNo: nat                     // GC_gc_no
    const debugging: bool             // GC_debugging_started
    var inUse: set<Slot>              // history: read by no operation, only by the conditions of its callers

    function V(): View
      reads this
    {
      View(blocks, free, reclaim, zero, inUse)
    }

    constructor (debugging: bool)
      ensures Inv(V()) && Now() == Moment(View(map[], map[], map[], {}, {}), 0)
    {
      this.debugging := debugging;
      blocks, free, reclaim, zero, gcNo, inUse := map[], map[], map[], {}, 0, {};
    }

    // GC_reclaim_generic: put the unmarked slots of the block in front of the list, clearing them if
    // objects of the kind have to be clear (GC_reclaim_clear, GC_reclaim_uninit).
    method ReclaimGeneric(b: nat, list: seq<Slot>) returns (r: seq<Slot>)
      requires b in blocks && blocks[b].cls.gran > 0
      modifies this`zero, this`blocks
      ensures b in blocks && blocks == old(blocks)[b := blocks[b]]
      ensures old(blocks)[b] == blocks[b].(marks := old(blocks)[b].marks, nMarks := old(blocks)[b].nMarks)
      ensures var k := old(blocks)[b];
              && r == Unmarked(b, k.marks, Objs(k.cls)) + list
              && (forall s :: s in old(zero) ==> s in zero)
              && (forall s :: s in zero ==> s in old(zero) || s in Unmarked(b, k.marks, Objs(k.cls)))
              && (k.cls.kind.init ==> forall s :: s in Unmarked(b, k.marks, Objs(k.cls)) ==> s in zero)
              && (if k.cls.kind.uncollectable then blocks[b].marks == AllBelow(Objs(k.cls)) && blocks[b].nMarks == Objs(k.cls)
                  else blocks[b] == k)
    {
      var k := blocks[b];
      var clear := k.cls.kind.init || debugging;
      r := list;
      var i := 0;
      assert Unmarked(b, k.marks, 0) + list == list;
      while i < Objs(k.cls)
        invariant i <= Objs(k.cls) && blocks == old(blocks)
        invariant r == Unmarked(b, k.marks, i) + list
        invariant forall s :: s in old(zero) ==> s in zero
        invariant forall s :: s in zero ==> s in old(zero) || s in Unmarked(b, k.marks, i)
        invariant clear ==> forall s :: s in Unmarked(b, k.marks, i) ==> s in zero
      {
        if i !in k.marks {
          r := [Slot(b, i)] + r;
          if clear {
            zero := zero + {Slot(b, i)};
          }
        }
        i := i + 1;
      }
      if k.cls.kind.uncollectable {
        blocks := blocks[b := k.(marks := AllBelow(Objs(k.cls)), nMarks := Objs(k.cls))];
      }
    }

    // Take the first block off a reclaim list and sweep it: GC_reclaim_small_nonempty_block.
    method SweepHead(c: Class)
      requires Inv(V()) && |Waiting(reclaim, c)| > 0
      modifies this`blocks, this`free, this`reclaim, this`zero
      ensures Inv(V()) && SweepsTo(old(V()), V(), old(Waiting(reclaim, c))[0], gcNo)
      ensures SameClasses(old(blocks), blocks)
      ensures Waiting(reclaim, c) == old(Waiting(reclaim, c))[1..] && forall d :: d != c ==> Waiting(reclaim, d) == old(Waiting(reclaim, d))
    {
      hide Inv, Unmarked, SweepsTo;
      ghost var v := V();
      var b := Waiting(reclaim, c)[0];
      HeadIs(v, c, b);
      reclaim := reclaim[c := Waiting(reclaim, c)[1..]];
      blocks := blocks[b := blocks[b].(lastReclaimed := gcNo)];
      var list := ReclaimGeneric(b, Free(free, c));
      free := free[c := list];
      SweepIs(v, V(), b, c, gcNo);
      SweepKeeps(v, V(), b, gcNo);
    }

    // GC_continue_reclaim: sweep until the free list is not empty or no block is left.
    method ContinueReclaim(c: Class)
      requires Inv(V())
      modifies this`blocks, this`free, this`reclaim, this`zero
      ensures Inv(V()) && SweptFor(old(V()), V(), c, gcNo)
      ensures SameClasses(old(blocks), blocks)
    {
      hide Inv, SweepsTo, SweptSome, NewlyFree;
      ghost var v := V();
      SweptNone(v, false, gcNo);
      NoneNew(v, gcNo);
      while Waiting(reclaim, c) != []
        invariant Inv(V()) && SameClasses(old(blocks), blocks) && SweptSome(v, V(), false, gcNo)
        invariant forall d :: d != c ==> Waiting(reclaim, d) == Waiting(v.rl, d)
        invariant forall s :: !NewlyFree(v, V(), false, gcNo, s)
        decreases |Waiting(reclaim, c)|
      {
        ghost var u := V();
        ghost var b := Waiting(reclaim, c)[0];
        HeadIs(u, c, b);
        SweepHead(c);
        SweptStep(v, u, V(), c, b, false, gcNo);
        if Free(free, c) != [] { break; }
        FoundNone(v, V(), c, b, gcNo);
      }
    }

    // GC_reclaim_all: sweep all blocks that wait, or with ignoreOld drop those that were not swept
    // lately.  stop_func may end it early.
    method ReclaimAll(mayStop: bool, ignoreOld: bool) returns (done: bool)
      requires Inv(V())
      modifies this`blocks, this`free, this`reclaim, this`zero
      ensures Inv(V()) && (done ==> forall c :: Waiting(reclaim, c) == []) && (!mayStop ==> done)
      ensures SameClasses(old(blocks), blocks) && SweptSome(old(V()), V(), ignoreOld, gcNo)
    {
      hide Inv, SweepsTo, SweptSome;
      ghost var v0 := V();
      SweptNone(v0, ignoreOld, gcNo);
      var todo := reclaim.Keys;
      while todo != {}
        invariant Inv(V()) && (forall c :: c !in todo ==> Waiting(reclaim, c) == []) && SameClasses(old(blocks), blocks)
        invariant SweptSome(v0, V(), ignoreOld, gcNo)
        decreases |todo|
      {
        var c: Class :| c in todo;
        while Waiting(reclaim, c) != []
          invariant Inv(V()) && (forall d :: d !in todo ==> Waiting(reclaim, d) == []) && SameClasses(old(blocks), blocks)
          invariant SweptSome(v0, V(), ignoreOld, gcNo)
          decreases |Waiting(reclaim, c)|
        {
          var stop: bool := *;
          if mayStop && stop { return false; }
          var b := Waiting(reclaim, c)[0];
          HeadIs(V(), c, b);
          if !ignoreOld || blocks[b].lastReclaimed + 1 == gcNo {
            ghost var u := V();
            SweepHead(c);
            SweptStep(v0, u, V(), c, b, ignoreOld, gcNo);
          } else {
            ghost var v := V();
            reclaim := reclaim[c := Waiting(reclaim, c)[1..]];
            DiscardKeeps(v, V(), c);
            DropStep(v0, v, V(), c, b, ignoreOld, gcNo);
          }
        }
        todo := todo - {c};
      }
      return true;
    }

    // GC_new_hblk: all slots of a new block go on the free list.
    method NewHblk(c: Class, b: nat)
      requires Inv(V()) && b !in blocks && c.gran > 0 && IsSmall(c)
      modifies this`blocks, this`free, this`zero
      ensures Inv(V()) && GrowsTo(old(V()), V(), b, c)
    {
      hide Inv, Unmarked;
      ghost var v := V();
      var marks := if c.kind.uncollectable then AllBelow(Objs(c)) else {};
      blocks := blocks[b := Blk(c, marks, |marks|, gcNo)];
      var list := BuildFl(b, c, Free(free, c));
      free := free[c := list];
      GrowKeeps(v, V(), b, c);
    }

    // GC_build_fl: the list that is built starts with the last slot of the block.
    method BuildFl(b: nat, c: Class, list: seq<Slot>) returns (r: seq<Slot>)
      modifies this`zero
      ensures r == Unmarked(b, {}, Objs(c)) + list
      ensures forall s :: s in old(zero) ==> s in zero
      ensures forall s :: s in zero ==> s in old(zero) || s in Unmarked(b, {}, Objs(c))
      ensures c.kind.init ==> forall s :: s in Unmarked(b, {}, Objs(c)) ==> s in zero
    {
      r := list;
      var i := 0;
      assert Unmarked(b, {}, 0) + list == list;
      while i < Objs(c)
        invariant i <= Objs(c) && r == Unmarked(b, {}, i) + list
        invariant forall s :: s in old(zero) ==> s in zero
        invariant forall s :: s in zero ==> s in old(zero) || s in Unmarked(b, {}, i)
        invariant c.kind.init ==> forall s :: s in Unmarked(b, {}, i) ==> s in zero
      {
        r := [Slot(b, i)] + r;
        if c.kind.init || debugging {
          zero := zero + {Slot(b, i)};
        }
        i := i + 1;
      }
    }

    // GC_generic_malloc_inner and GC_allocobj for a small object.  `b` is what GC_allochblk has to offer
    // if a new block is needed; 0 if it has nothing.
    method Alloc(c: Class, b: nat) returns (s: Slot, ok: bool)
      requires Inv(V()) && c.gran > 0 && IsSmall(c) && (b == 0 || b !in blocks)
      modifies this`blocks, this`free, this`reclaim, this`zero, this`inUse
      ensures Inv(V())
      ensures ok ==> s !in old(inUse) && inUse == old(inUse) + {s} && IsSlot(V(), s) && blocks[s.b].cls == c
      ensures ok ==> (c.kind.init ==> s in zero) && (forall d :: s !in Free(free, d)) && !(Waits(V(), s.b) && !IsMarked(V(), s))
      ensures !ok ==> inUse == old(inUse) && b == 0
      ensures ClassesKept(old(blocks), blocks)
      ensures AllocsTo(old(V()), V(), c, b, gcNo, if ok then {s} else {})
    {
      hide Inv, Unmarked, SweptFor, HandsOut, AllocsTo, GrowsTo;
      ghost var v0 := V();
      ghost var u := v0;
      if Free(free, c) == [] {
        ContinueReclaim(c);
        u := V();
        SweptForIs(v0, u, c, gcNo);
        if Free(free, c) == [] {
          if b == 0 {
            NothingOut(u, c);
            AllocIs(v0, u, V(), c, b, gcNo, {});
            return Slot(0, 0), false;
          }
          NewHblk(c, b);
          GrownIs(u, V(), b, c);
        }
      }
      ghost var v := V();
      s := Free(free, c)[0];
      free := free[c := Free(free, c)[1..]];
      inUse := inUse + {s};
      PopKeeps(v, V(), c);
      HandedOut(v, V(), c, s);
      if Free(u.fl, c) == [] { NewBlockIs(u, v, V(), c, b); } else { FirstOut(u, V(), c, b); }
      AllocIs(v0, u, V(), c, b, gcNo, {s});
      ok := true;
    }

    // GC_free for a small object.
    method FreeObject(s: Slot)
      requires Inv(V()) && s in inUse && s.b in blocks && IsSmall(blocks[s.b].cls)
      modifies this`free, this`zero, this`inUse
      ensures Inv(V()) && FreesTo(old(V()), V(), s)
    {
      hide Inv;
      ghost var v := V();
      var c := blocks[s.b].cls;
      if c.kind.init {
        zero := zero + {s};
      }
      free := free[c := [s] + Free(free, c)];
      inUse := inUse - {s};
      FreeKeeps(v, V(), s);
    }

    // A large object: GC_alloc_large and, for uncollectable ones, GC_malloc_uncollectable.
    method AllocLarge(c: Class, b: nat) returns (s: Slot)
      requires Inv(V()) && c.gran > MAXOBJGRANULES && b !in blocks
      modifies this`blocks, this`inUse
      ensures Inv(V()) && LargeTo(old(V()), V(), b, c) && s == Slot(b, 0) && s !in old(inUse)
    {
      hide Inv;
      ghost var v := V();
      blocks := blocks[b := Blk(c, if c.kind.uncollectable then {0} else {}, if c.kind.uncollectable then 1 else 0, gcNo)];
      s := Slot(b, 0);
      inUse := inUse + {s};
      LargeKeeps(v, V(), b, c);
    }

    // GC_free for a large object.
    method FreeLarge(b: nat)
      requires Inv(V()) && Slot(b, 0) in inUse && b in blocks && blocks[b].cls.gran > MAXOBJGRANULES
      modifies this`blocks, this`inUse
      ensures Inv(V()) && LargeFreesTo(old(V()), V(), b)
    {
      hide Inv;
      ghost var v := V();
      blocks := blocks - {b};
      inUse := inUse - {Slot(b, 0)};
      LargeFreeKeeps(v, V(), b);
    }

    // The client stores into an object.
    method Write(s: Slot)
      requires Inv(V()) && s in inUse
      modifies this`zero
      ensures Inv(V()) && zero == old(zero) - {s}
    {
      zero := zero - {s};
    }

    // The marker sets a mark bit.  It may do so at any time.
    method SetMark(s: Slot)
      requires Inv(V()) && IsSlot(V(), s)
      modifies this`blocks
      ensures Inv(V()) && MarksTo(old(V()), V(), s)
    {
      hide Inv;
      ghost var v := V();
      var k := blocks[s.b];
      if s.i !in k.marks {
        blocks := blocks[s.b := k.(marks := k.marks + {s.i}, nMarks := k.nMarks + 1)];
      }
      ShapeOf(v);
      MarkKeeps(v, V(), s);
    }

    // GC_clear_marks
    method ClearMarks()
      modifies this`blocks
      ensures ClearsTo(old(V()), V())
    {
      var todo := blocks.Keys;
      ghost var v := V();
      while todo != {}
        invariant todo <= blocks.Keys == v.blocks.Keys
        invariant forall b :: b in v.blocks ==>
                    blocks[b] == if b in todo || v.blocks[b].cls.kind.uncollectable then v.blocks[b] else v.blocks[b].(marks := {}, nMarks := 0)
        decreases |todo|
      {
        var b: nat :| b in todo;
        var k := blocks[b];
        if !k.cls.kind.uncollectable {
          blocks := blocks[b := k.(marks := {}, nMarks := 0)];
        }
        todo := todo - {b};
      }
    }

    // GC_clear_fl_marks
    method ClearFlMarks(c: Class, ghost v: View, ghost gone: set<Slot>) returns (ghost r: set<Slot>)
      requires Settling(V()) && MarksLess(v, V(), gone)
      modifies this`blocks
      ensures Settling(V()) && MarksLess(v, V(), r)
      ensures forall s :: s in r <==> s in gone || s in Free(free, c)
    {
      hide Settling, MarksLess;
      var q := Free(free, c);
      r := gone;
      var k := 0;
      while k < |q|
        invariant k <= |q| && Settling(V()) && MarksLess(v, V(), r)
        invariant forall s :: s in r <==> s in gone || s in q[..k]
      {
        ghost var u := V();
        var s := q[k];
        OnFreeList(u, c, s);
        var b := blocks[s.b];
        if s.i in b.marks {
          MarkCounted(u, s);
          blocks := blocks[s.b := b.(marks := b.marks - {s.i}, nMarks := b.nMarks - 1)];
        }
        UnmarkStep(v, u, V(), r, s);
        r := r + {s};
        k := k + 1;
      }
    }

    // GC_reclaim_block
    method ReclaimBlock(b: nat, ghost v0: View, ghost todo: set<nat>)
      requires Reclaiming(v0, V(), todo) && b in todo && b in blocks
      modifies this`blocks, this`reclaim
      ensures Reclaiming(v0, V(), todo - {b})
    {
      hide Reclaiming;
      ghost var v := V();
      var k := blocks[b];
      EmptyIffNoMarks(v0, v, todo, b);
      if !IsSmall(k.cls) {
        if 0 !in k.marks {
          blocks := blocks - {b};
        }
      } else if k.nMarks == 0 {
        blocks := blocks - {b};
      } else if !NearlyFull(k) {
        reclaim := reclaim[k.cls := [b] + Waiting(reclaim, k.cls)];
      }
      ReclaimKeeps(v0, v, V(), todo, b);
    }

    // GC_start_reclaim: all lists are emptied, and every block is freed, queued, or left alone.
    method StartReclaim()
      requires Settling(V())
      modifies this`blocks, this`free, this`reclaim
      ensures Inv(V()) && forall c :: Free(free, c) == []
      ensures Reclaiming(old(V()).(fl := map[], rl := map[]), V(), {})
    {
      hide Inv, Reclaiming, Settling;
      ghost var u := V();
      free := map[];
      reclaim := map[];
      var todo := blocks.Keys;
      ghost var v0 := V();
      StartReclaiming(u, v0);
      while todo != {}
        invariant Reclaiming(v0, V(), todo) && free == map[]
        decreases |todo|
      {
        var b: nat :| b in todo;
        StillThere(v0, V(), todo, b);
        ReclaimBlock(b, v0, todo);
        todo := todo - {b};
      }
      ReclaimDone(v0, V());
    }

    // The end of GC_stopped_mark when it has succeeded, and GC_finish_collection.  `reach` is what the
    // client can still use, all of which the marker has found; the rest becomes garbage.
    method FinishCollection(reach: set<Slot>)
      requires Shape(V()) && forall s :: s in inUse && s in reach ==> IsMarked(V(), s)
      modifies this`blocks, this`free, this`reclaim, this`inUse, this`gcNo
      ensures Inv(V()) && gcNo == old(gcNo) + 1 && zero == old(zero)
      ensures Collected(old(V()), V(), reach, iset s | IsMarked(old(V()), s) && !Listed(old(V()), s))
    {
      hide Inv, Shape, Settling, MarksLess, Reclaiming, Kept, IsMarked, Listed, Collected;
      ghost var old0 := V();
      gcNo := gcNo + 1;
      inUse := Kept(V(), reach);
      SettleStart(old0, V(), reach);
      ghost var v := V();
      ghost var gone: set<Slot> := {};
      NoneGone(v);
      var todo := free.Keys;
      while todo != {}
        invariant free == v.fl && Settling(V()) && MarksLess(v, V(), gone) && gcNo == old(gcNo) + 1
        invariant forall s :: s in gone <==> exists c :: c !in todo && s in Free(free, c)
        decreases |todo|
      {
        var c: Class :| c in todo;
        gone := ClearFlMarks(c, v, gone);
        todo := todo - {c};
      }
      ghost var u := V();
      StartReclaim();
      Finished(old0, v, u, V(), gone, reach);
    }

    // What the marker does while it runs: it sets mark bits.
    method MarkAll(found: set<Slot>)
      requires Shape(V())
      modifies this`blocks
      ensures Shape(V()) && (Inv(old(V())) ==> Inv(V()))
      ensures forall s :: IsMarked(V(), s) <==> IsMarked(old(V()), s) || (IsSlot(old(V()), s) && s in found)
      ensures SameClasses(old(blocks), blocks)
    {
      hide Inv, Shape, IsSlot, IsMarked;
      ghost var v := V();
      var todo := found;
      while todo != {}
        invariant Shape(V()) && (Inv(v) ==> Inv(V())) && todo <= found && SameClasses(v.blocks, blocks)
        invariant forall s :: IsSlot(v, s) <==> IsSlot(V(), s)
        invariant forall s :: IsMarked(V(), s) <==> IsMarked(v, s) || (IsSlot(v, s) && s in found && s !in todo)
        decreases |todo|
      {
        var s: Slot :| s in todo;
        ghost var u := V();
        if s.b in blocks && s.i < Objs(blocks[s.b].cls) {
          var k := blocks[s.b];
          SlotIs(u, s);
          if s.i !in k.marks {
            blocks := blocks[s.b := k.(marks := k.marks + {s.i}, nMarks := k.nMarks + 1)];
          }
          MarkKeeps(u, V(), s);
        } else {
          NoSuchSlot(u, s);
        }
        todo := todo - {s};
      }
    }

    // The start of an incremental full collection in GC_maybe_gc: no block waits any more when the marks
    // are cleared.
    method StartFull()
      requires Inv(V())
      modifies this`blocks, this`free, this`reclaim, this`zero
      ensures Inv(V()) && forall c :: Waiting(reclaim, c) == []
      ensures SameClasses(old(blocks), blocks) && StartsFull(old(V()), V(), gcNo)
      ensures forall b :: b in blocks && !blocks[b].cls.kind.uncollectable ==> blocks[b].marks == {} && blocks[b].nMarks == 0
      ensures forall s :: s in inUse && OfUncollectable(V(), s) ==> IsMarked(V(), s)
    {
      hide Inv, Shape;
      var done := ReclaimAll(false, true);
      ghost var v := V();
      ClearMarks();
      ShapeOf(v);
      ClearKeeps(v, V());
      InUseMarked(V());
      StartsFullIs(old(V()), v, V(), gcNo);
    }

    // GC_try_to_collect_inner.  If stop_func is GC_never_stop_func, blocks may still wait to be swept when
    // the marks are cleared, but then the collection is completed before anything is swept.  A collection that
    // is completed reclaims everything that the client cannot reach.
    method TryToCollect(mayStop: bool, found: set<Slot>, reach: set<Slot>) returns (done: bool)
      requires Inv(V()) && forall s :: s in inUse && s in reach ==> s in found || OfUncollectable(V(), s)
      modifies this`blocks, this`free, this`reclaim, this`zero, this`inUse, this`gcNo
      ensures Inv(V()) && (!mayStop ==> done) && ClassesKept(old(blocks), blocks)
      ensures !done ==> gcNo == old(gcNo) && Stopped(old(V()), V(), found, gcNo) && inUse == old(inUse)
      ensures done ==> gcNo == old(gcNo) + 1 && Collected(old(V()), V(), reach, iset s | Survives(old(V()), mayStop, found, s))
    {
      hide Inv, Shape, ClearsTo, IsMarked, IsSlot, Survives, SweptSome, Listed, Collected, Stopped, Remarked;
      ghost var v := V();
      if mayStop {
        done := ReclaimAll(true, false);
        if !done {
          StoppedIs(v, V(), V(), found, gcNo);
          return;
        }
      } else {
        SweptNone(v, false, gcNo);
      }
      ghost var v1 := V();
      SameUncollectable(v, v1);
      ShapeOf(v1);
      ClearMarks();
      ClearKeeps(v1, V());
      ClearedSame(v1, V());
      ghost var v2 := V();
      var stop: bool := *;
      if mayStop && stop {
        var part: set<Slot> := *;
        part := part * found;
        MarkAll(part);
        RemarkedIs(v1, v2, V(), part, found);
        StoppedIs(v, v1, V(), found, gcNo);
        return false;
      }
      MarkAll(found);
      ghost var w := V();
      ReachIsMarked(v1, v2, w, found, reach);
      SameUncollectable(v, w);
      FinishCollection(reach);
      MarkedSurvive(v, v1, v2, w, mayStop, found, old(gcNo));
      CollectedFrom(v, w, V(), reach, iset s | IsMarked(w, s) && !Listed(w, s), iset s | Survives(v, mayStop, found, s));
      CollectedKeeps(v, V(), reach, iset s | Survives(v, mayStop, found, s));
      done := true;
    }

    function Now(): Moment
      reads this
    {
      Moment(V(), gcNo)
    }

    // One operation of the client, the allocator or the collector.  One that is not possible when its turn
    // comes is skipped.  `out` holds the slot that was handed out, if one was.
    method Perform(op: Op) returns (out: set<Slot>)
      requires Inv(V())
      modifies this`blocks, this`free, this`reclaim, this`zero, this`inUse, this`gcNo
      ensures Inv(V()) && Performed(old(V()), V(), op, out) && Happens(old(Now()), op, out, Now())
    {
      hide Inv, Performed, Happens;
      if op.DoAlloc? || op.DoAllocLarge? {
        out := HandOut(op);
      } else {
        out := {};
        if op.DoFree? || op.DoFreeLarge? || op.DoWrite? || op.DoSetMark? {
          Change(op);
        } else if op.DoFinish? || op.DoCollect? {
          Collect(op);
        } else {
          Reclaim(op);
        }
      }
    }

    method HandOut(op: Op) returns (out: set<Slot>)
      requires Inv(V()) && (op.DoAlloc? || op.DoAllocLarge?)
      modifies this`blocks, this`free, this`reclaim, this`zero, this`inUse
      ensures Inv(V()) && Performed(old(V()), V(), op, out) && Happens(old(Now()), op, out, Now())
    {
      hide Inv, LargeTo, AllocsTo;
      out := {};
      match op
      case DoAlloc(c, b) =>
        if 0 < c.gran && IsSmall(c) && (b == 0 || b !in blocks) {
          var s, ok := Alloc(c, b);
          if ok { out := {s}; }
        }
      case DoAllocLarge(c, b) =>
        if c.gran > MAXOBJGRANULES && b != 0 && b !in blocks {
          ghost var v := V();
          var s := AllocLarge(c, b);
          LargeIs(v, V(), b, c);
          out := {s};
        }
    }

    method Change(op: Op)
      requires Inv(V()) && (op.DoFree? || op.DoFreeLarge? || op.DoWrite? || op.DoSetMark?)
      modifies this`blocks, this`free, this`zero, this`inUse
      ensures Inv(V()) && Performed(old(V()), V(), op, {}) && Happens(old(Now()), op, {}, Now())
    {
      hide Inv, FreesTo, LargeFreesTo, MarksTo;
      ghost var v := V();
      match op
      case DoFree(s) =>
        if s in inUse && s.b in blocks && IsSmall(blocks[s.b].cls) {
          FreeObject(s);
          FreeIs(v, V(), s);
        }
      case DoFreeLarge(b) =>
        if Slot(b, 0) in inUse && b in blocks && blocks[b].cls.gran > MAXOBJGRANULES {
          FreeLarge(b);
          LargeFreeIs(v, V(), b);
        }
      case DoWrite(s) =>
        if s in inUse { Write(s); }
      case DoSetMark(s) =>
        if s.b in blocks && s.i < Objs(blocks[s.b].cls) {
          SetMark(s);
          MarkIs(v, V(), s);
        }
    }

    method Reclaim(op: Op)
      requires Inv(V()) && (op.DoContinueReclaim? || op.DoReclaimAll? || op.DoStartFull?)
      modifies this`blocks, this`free, this`reclaim, this`zero
      ensures Inv(V()) && Performed(old(V()), V(), op, {}) && Happens(old(Now()), op, {}, Now())
    {
      hide Inv, SweptFor, SweptSome, StartsFull;
      ghost var v := V();
      match op
      case DoContinueReclaim(c) =>
        ContinueReclaim(c);
        SweptForIs(v, V(), c, gcNo);
      case DoReclaimAll(mayStop, ignoreOld) =>
        var done := ReclaimAll(mayStop, ignoreOld);
        SweptIsSame(v, V(), ignoreOld, gcNo);
      case DoStartFull =>
        StartFull();
        StartsFullSame(v, V(), gcNo);
    }

    // The end of a collection.
    method Collect(op: Op)
      requires Inv(V()) && (op.DoFinish? || op.DoCollect?)
      modifies this`blocks, this`free, this`reclaim, this`zero, this`inUse, this`gcNo
      ensures Inv(V()) && Performed(old(V()), V(), op, {}) && Happens(old(Now()), op, {}, Now())
    {
      hide Inv, Shape, Collected, Stopped, Survives, Listed;
      ShapeOf(V());
      ghost var v := V();
      match op
      case DoFinish(reach) =>
        if forall s | s in inUse :: s in reach ==> IsMarked(V(), s) {
          FinishCollection(reach);
          CollectedKeeps(v, V(), reach, iset s | IsMarked(v, s) && !Listed(v, s));
        }
      case DoCollect(mayStop, found, reach) =>
        if forall s | s in inUse :: s in reach ==> s in found || OfUncollectable(V(), s) {
          var done := TryToCollect(mayStop, found, reach);
          if done { CollectedKeeps(v, V(), reach, iset s | Survives(v, mayStop, found, s)); }
        }
    }

    // Any sequence of operations, with the states in between.  An object stays with the client until the client
    // gives it back or a collection ends in which it is not reachable, and until then its slot is not handed out
    // again.
    method Run(ops: seq<Op>) returns (out: seq<set<Slot>>, ghost trace: seq<Moment>)
      requires Inv(V())
      modifies this
      ensures |out| == |ops| && IsTrace(ops, out, trace) && trace[0] == old(Now()) && trace[|ops|] == Now()
      ensures forall s :: s in old(inUse) && Held(ops, 0, |ops|, s, old(OfUncollectable(V(), s))) ==> Owned(V(), s)
      ensures forall i, s :: 0 <= i < |ops| && s in out[i] && Held(ops, i + 1, |ops|, s, OfKind(ops[i])) ==> Owned(V(), s)
      ensures NoneTwice(ops, out)
    {
      hide Inv, Performed, Happens, HeldSince, NoneTwice, Held, Owned, OfUncollectable;
      ghost var v0 := V();
      out := [];
      trace := [Now()];
      NothingYet(v0, ops);
      for n := 0 to |ops|
        invariant Inv(V()) && |out| == n && HeldSince(v0, V(), ops, out) && NoneTwice(ops, out)
        invariant |trace| == n + 1 && trace[0] == old(Now()) && trace[n] == Now()
        invariant forall i | 0 <= i <= n :: Inv(trace[i].v)
        invariant forall i | 0 <= i < n :: Happens(trace[i], ops[i], out[i], trace[i + 1])
      {
        ghost var v := V();
        var o := Perform(ops[n]);
        PerformedNext(v0, v, V(), ops, out, o);
        out := out + [o];
        trace := trace + [Now()];
      }
      HeldAreOwned(v0, V(), ops, out);
    }

    // The same from the very beginning.
    static method RunFromStart(debugging: bool, ops: seq<Op>) returns (sweeper: Sweeper, out: seq<set<Slot>>, ghost trace: seq<Moment>)
      ensures |out| == |ops| && IsTrace(ops, out, trace) && trace[0] == Moment(View(map[], map[], map[], {}, {}), 0)
      ensures trace[|ops|] == sweeper.Now()
      ensures forall i, s :: 0 <= i < |ops| && s in out[i] && Held(ops, i + 1, |ops|, s, OfKind(ops[i])) ==> Owned(sweeper.V(), s)
      ensures NoneTwice(ops, out)
    {
      hide Inv, NoneTwice, Held, Owned, Happens;
      sweeper := new Sweeper(debugging);
      out, trace := sweeper.Run(ops);
    }
  }

  // ----- whole runs

  /** For the operations that end a collection, `reach` is what the client can still reach, and `found` is
      what the marker has found. */
  datatype Op =
    | DoAlloc(c: Class, b: nat)
    | DoAllocLarge(c: Class, b: nat)
    | DoFree(s: Slot)
    | DoFreeLarge(b: nat)
    | DoWrite(s: Slot)
    | DoSetMark(s: Slot)
    | DoContinueReclaim(c: Class)
    | DoReclaimAll(mayStop: bool, ignoreOld: bool)
    | DoStartFull
    | DoFinish(reach: set<Slot>)
    | DoCollect(mayStop: bool, found: set<Slot>, reach: set<Slot>)

  /** The state between two operations, with GC_gc_no. */
  datatype Moment = Moment(v: View, gcNo: nat)

  /** What an operation does.  One that is not possible does nothing. */
  ghost predicate Happens(p: Moment, op: Op, out: set<Slot>, q: Moment) {
    var v, w, g := p.v, q.v, p.gcNo;
    && (!op.DoFinish? && !op.DoCollect? ==> q.gcNo == g)
    && (!op.DoAlloc? && !op.DoAllocLarge? ==> out == {})
    && match op
       case DoAlloc(c, b) =>
         if 0 < c.gran <= MAXOBJGRANULES && (b == 0 || b !in v.blocks) then AllocsTo(v, w, c, b, g, out) else w == v && out == {}
       case DoAllocLarge(c, b) =>
         if c.gran > MAXOBJGRANULES && b != 0 && b !in v.blocks then LargeTo(v, w, b, c) && out == {Slot(b, 0)} else w == v && out == {}
       case DoFree(s) =>
         if s in v.inUse && s.b in v.blocks && v.blocks[s.b].cls.gran <= MAXOBJGRANULES then FreesTo(v, w, s) else w == v
       case DoFreeLarge(b) =>
         if Slot(b, 0) in v.inUse && b in v.blocks && v.blocks[b].cls.gran > MAXOBJGRANULES then LargeFreesTo(v, w, b) else w == v
       case DoWrite(s) => if s in v.inUse then w == v.(zero := v.zero - {s}) else w == v
       case DoSetMark(s) => if s.b in v.blocks && s.i < Objs(v.blocks[s.b].cls) then MarksTo(v, w, s) else w == v
       case DoContinueReclaim(c) => SweptFor(v, w, c, g)
       case DoReclaimAll(mayStop, ignoreOld) => SweptSome(v, w, ignoreOld, g) && (mayStop || forall c :: Waiting(w.rl, c) == [])
       case DoStartFull => StartsFull(v, w, g)
       case DoFinish(reach) =>
         if forall s | s in v.inUse :: s in reach ==> s.b in v.blocks && s.i in v.blocks[s.b].marks then
           q.gcNo == g + 1 && w.zero == v.zero && Collected(v, w, reach, iset s | IsMarked(v, s) && !Listed(v, s))
         else q == p
       case DoCollect(mayStop, found, reach) =>
         if forall s | s in v.inUse :: s in reach ==> s in found || (s.b in v.blocks && v.blocks[s.b].cls.kind.uncollectable) then
           || (q.gcNo == g + 1 && Collected(v, w, reach, iset s | Survives(v, mayStop, found, s)))
           || (q.gcNo == g && mayStop && Stopped(v, w, found, g))
         else q == p
  }

  /** The states of a run, one before and one after each operation. */
  ghost predicate IsTrace(ops: seq<Op>, out: seq<set<Slot>>, trace: seq<Moment>) {
    && |trace| == |ops| + 1 == |out| + 1
    && (forall i | 0 <= i <= |ops| :: Inv(trace[i].v))
    && forall i | 0 <= i < |ops| :: Happens(trace[i], ops[i], out[i], trace[i + 1])
  }

  /** After this operation the client may no longer use s. */
  predicate Ends(op: Op, s: Slot, uncollectable: bool) {
    match op
    case DoFree(t) => t == s
    case DoFreeLarge(b) => s == Slot(b, 0)
    case DoFinish(reach) => !uncollectable && s !in reach
    case DoCollect(_, _, reach) => !uncollectable && s !in reach
    case _ => false
  }

  /** Whether the operation allocates an uncollectable object. */
  predicate OfKind(op: Op) {
    (op.DoAlloc? || op.DoAllocLarge?) && op.c.kind.uncollectable
  }

  predicate Held(ops: seq<Op>, from: nat, to: nat, s: Slot, uncollectable: bool) {
    forall k | from <= k < to && k < |ops| :: !Ends(ops[k], s, uncollectable)
  }

  /** s belongs to the client: it is a slot of a block, and on no free list. */
  ghost predicate Owned(v: View, s: Slot) {
    s in v.inUse && IsSlot(v, s) && forall c :: s !in Free(v.fl, c)
  }

  /** A slot that is handed out twice was given up in between. */
  ghost predicate NoneTwice(ops: seq<Op>, out: seq<set<Slot>>)
    requires |out| <= |ops|
  {
    forall i, j, s | 0 <= i < j < |out| && s in out[i] && s in out[j] :: !Held(ops, i + 1, j, s, OfKind(ops[i]))
  }

  ghost predicate Performed(v: View, w: View, op: Op, out: set<Slot>) {
    && ClassesKept(v.blocks, w.blocks)
    && (forall s :: s in v.inUse && !Ends(op, s, OfUncollectable(v, s)) ==> s in w.inUse)
    && (forall s :: s in out ==> s !in v.inUse && s in w.inUse && OfUncollectable(w, s) == OfKind(op))
  }

  /** What was in use at the start, or has been handed out, is in use unless it was given up. */
  ghost predicate HeldSince(v0: View, v: View, ops: seq<Op>, out: seq<set<Slot>>)
    requires |out| <= |ops|
  {
    && (forall s :: s in v0.inUse && Held(ops, 0, |out|, s, OfUncollectable(v0, s)) ==>
          s in v.inUse && OfUncollectable(v, s) == OfUncollectable(v0, s))
    && (forall i, s | 0 <= i < |out| && s in out[i] && Held(ops, i + 1, |out|, s, OfKind(ops[i])) ::
          s in v.inUse && OfUncollectable(v, s) == OfKind(ops[i]))
  }

  lemma NothingYet(v0: View, ops: seq<Op>)
    ensures HeldSince(v0, v0, ops, []) && NoneTwice(ops, [])
  {
  }

  lemma StillInUse(v: View, w: View, op: Op, o: set<Slot>, s: Slot)
    requires Inv(v) && Inv(w) && Performed(v, w, op, o) && s in v.inUse && !Ends(op, s, OfUncollectable(v, s))
    ensures s in w.inUse && OfUncollectable(w, s) == OfUncollectable(v, s)
  {
    hide BlockOk, FreeOk, ReclaimOk, MarksOk, Ends;
    assert IsSlot(v, s) && IsSlot(w, s);
  }

  lemma PerformedNext(v0: View, v: View, w: View, ops: seq<Op>, out: seq<set<Slot>>, o: set<Slot>)
    requires Inv(v) && Inv(w) && |out| < |ops| && Performed(v, w, ops[|out|], o)
    requires HeldSince(v0, v, ops, out) && NoneTwice(ops, out)
    ensures HeldSince(v0, w, ops, out + [o]) && NoneTwice(ops, out + [o])
  {
    hide Inv, Ends, OfUncollectable, OfKind;
    var n := |out|;
    var next := out + [o];
    forall s | s in v0.inUse && Held(ops, 0, n + 1, s, OfUncollectable(v0, s))
      ensures s in w.inUse && OfUncollectable(w, s) == OfUncollectable(v0, s)
    {
      assert !Ends(ops[n], s, OfUncollectable(v0, s));
      assert Held(ops, 0, n, s, OfUncollectable(v0, s));
      StillInUse(v, w, ops[n], o, s);
    }
    forall i, s | 0 <= i < n + 1 && s in next[i] && Held(ops, i + 1, n + 1, s, OfKind(ops[i]))
      ensures s in w.inUse && OfUncollectable(w, s) == OfKind(ops[i])
    {
      if i < n {
        assert !Ends(ops[n], s, OfKind(ops[i]));
        assert Held(ops, i + 1, n, s, OfKind(ops[i]));
        StillInUse(v, w, ops[n], o, s);
      }
    }
    forall i, j, s | 0 <= i < j < n + 1 && s in next[i] && s in next[j] ensures !Held(ops, i + 1, j, s, OfKind(ops[i])) {
      assert j == n || s in out[j];
    }
  }

  lemma HeldAreOwned(v0: View, v: View, ops: seq<Op>, out: seq<set<Slot>>)
    requires Inv(v) && |out| == |ops| && HeldSince(v0, v, ops, out)
    ensures forall s :: s in v0.inUse && Held(ops, 0, |ops|, s, OfUncollectable(v0, s)) ==> Owned(v, s)
    ensures forall i, s :: 0 <= i < |ops| && s in out[i] && Held(ops, i + 1, |ops|, s, OfKind(ops[i])) ==> Owned(v, s)
  {
    hide Inv, Held;
    forall s | s in v.inUse ensures Owned(v, s) {
      OnNoList(v, s);
    }
  }

  lemma SweptIsSame(v: View, w: View, ignoreOld: bool, gcNo: nat)
    requires SweptSome(v, w, ignoreOld, gcNo)
    ensures w.inUse == v.inUse && ClassesKept(v.blocks, w.blocks)
  {
    hide Listed, Waits, NewlyFree, SweptBlock;
  }

  lemma StartsFullSame(v: View, w: View, gcNo: nat)
    requires StartsFull(v, w, gcNo)
    ensures w.inUse == v.inUse && ClassesKept(v.blocks, w.blocks)
  {
    hide SweptSome, Waiting;
    var u: View :| SweptSome(v, u, true, gcNo) && (forall c :: Waiting(u.rl, c) == []) && ClearsTo(u, w);
    SweptIsSame(v, u, true, gcNo);
  }

  lemma FreeIs(v: View, w: View, s: Slot)
    requires FreesTo(v, w, s)
    ensures w.blocks == v.blocks && w.inUse == v.inUse - {s}
  {
  }

  lemma LargeIs(v: View, w: View, b: nat, c: Class)
    requires LargeTo(v, w, b, c)
    ensures ClassesKept(v.blocks, w.blocks) && b in w.blocks && w.blocks[b].cls == c && w.inUse == v.inUse + {Slot(b, 0)}
  {
  }

  lemma LargeFreeIs(v: View, w: View, b: nat)
    requires LargeFreesTo(v, w, b)
    ensures ClassesKept(v.blocks, w.blocks) && w.inUse == v.inUse - {Slot(b, 0)}
  {
  }

  lemma MarkIs(v: View, w: View, s: Slot)
    requires MarksTo(v, w, s)
    ensures ClassesKept(v.blocks, w.blocks) && w.inUse == v.inUse
  {
  }

  /** Blocks that are still there hold objects of the same class. */
  predicate ClassesKept(a: map<nat, Blk>, b: map<nat, Blk>) {
    forall x :: x in a && x in b ==> b[x].cls == a[x].cls
  }

  predicate SameClasses(a: map<nat, Blk>, b: map<nat, Blk>) {
    a.Keys == b.Keys && forall x :: x in a ==> b[x].cls == a[x].cls
  }

  lemma SameUncollectable(v: View, w: View)
    requires SameClasses(v.blocks, w.blocks)
    ensures forall s :: OfUncollectable(w, s) == OfUncollectable(v, s)
  {
  }

  lemma InUseMarked(v: View)
    requires Inv(v)
    ensures forall s :: s in v.inUse && OfUncollectable(v, s) ==> IsMarked(v, s)
  {
  }

  // From v the blocks that waited were swept, or none did not; then marks were cleared and the marker ran: what
  // is marked and on no free list is what survives.
  lemma MarkedSurvive(v: View, v1: View, v2: View, w: View, swept: bool, found: set<Slot>, gcNo: nat)
    requires SweptSome(v, v1, false, gcNo) && (if swept then forall c :: Waiting(v1.rl, c) == [] else v1 == v)
    requires ClearsTo(v1, v2) && Shape(v1)
    requires w == v2.(blocks := w.blocks) && SameClasses(v2.blocks, w.blocks)
    requires forall s :: IsMarked(w, s) <==> IsMarked(v2, s) || (IsSlot(v2, s) && s in found)
    ensures forall s :: IsMarked(w, s) && !Listed(w, s) <==> Survives(v, swept, found, s)
    ensures w.blocks.Keys == v.blocks.Keys
  {
    forall s ensures IsMarked(w, s) && !Listed(w, s) <==> Survives(v, swept, found, s) {
      OneSurvives(v, v1, v2, w, swept, found, gcNo, s);
    }
  }

  lemma OneSurvives(v: View, v1: View, v2: View, w: View, swept: bool, found: set<Slot>, gcNo: nat, s: Slot)
    requires SweptSome(v, v1, false, gcNo) && (if swept then forall c :: Waiting(v1.rl, c) == [] else v1 == v)
    requires ClearsTo(v1, v2) && Shape(v1)
    requires w == v2.(blocks := w.blocks) && SameClasses(v2.blocks, w.blocks)
    requires IsMarked(w, s) <==> IsMarked(v2, s) || (IsSlot(v2, s) && s in found)
    ensures IsMarked(w, s) && !Listed(w, s) <==> Survives(v, swept, found, s)
  {
    hide FreeOk, InUseOk, ReclaimOk, SweptSome;
    SweptSlot(v, v1, gcNo, s);
    assert s.b in v1.blocks ==> BlockOk(v1.blocks[s.b]);
    hide BlockOk;
    assert Listed(w, s) == Listed(v1, s);
    assert Listed(v, s) == !(forall c :: s !in Free(v.fl, c));
    hide Listed, SameClasses;
    assert swept ==> !Waits(v1, s.b);
  }

  // One slot before and after some blocks have been swept.
  lemma SweptSlot(v: View, w: View, gcNo: nat, s: Slot)
    requires SweptSome(v, w, false, gcNo)
    ensures (s.b in v.blocks <==> s.b in w.blocks) && (s.b in v.blocks ==> w.blocks[s.b].cls == v.blocks[s.b].cls)
    ensures Waits(w, s.b) ==> Waits(v, s.b)
    ensures var now := Waits(v, s.b) && !Waits(w, s.b);
            && (IsSlot(v, s) ==> (IsMarked(w, s) <==> IsMarked(v, s) || (now && OfUncollectable(v, s))))
            && (Listed(w, s) <==> Listed(v, s) || (IsSlot(v, s) && now && !IsMarked(v, s)))
  {
    hide Listed, Waits;
    assert s.b in v.blocks ==> Due(v, s.b, false, gcNo);
  }

  lemma ReachIsMarked(v1: View, v2: View, w: View, found: set<Slot>, reach: set<Slot>)
    requires Shape(v1) && ClearsTo(v1, v2) && w.inUse == v1.inUse
    requires forall s :: s in v1.inUse && s in reach ==> s in found || OfUncollectable(v1, s)
    requires forall s :: IsSlot(v2, s) && s in found ==> IsMarked(w, s)
    requires forall s :: IsMarked(v2, s) ==> IsMarked(w, s)
    ensures forall s :: s in w.inUse && s in reach ==> IsMarked(w, s)
    ensures SameClasses(v1.blocks, v2.blocks)
  {
    forall s | s in w.inUse && s in reach ensures IsMarked(w, s) {
      assert IsSlot(v1, s) && (OfUncollectable(v1, s) ==> IsMarked(v1, s));
      assert IsSlot(v2, s);
    }
  }

  lemma ShapeOf(v: View)
    requires Inv(v)
    ensures Shape(v)
  {
  }

  lemma SlotIs(v: View, s: Slot)
    requires s.b in v.blocks && s.i < Objs(v.blocks[s.b].cls)
    ensures IsSlot(v, s)
  {
  }

  lemma NoSuchSlot(v: View, s: Slot)
    requires !(s.b in v.blocks && s.i < Objs(v.blocks[s.b].cls))
    ensures !IsSlot(v, s)
  {
  }

  lemma OnFreeList(v: View, c: Class, s: Slot)
    requires Settling(v) && s in Free(v.fl, c)
    ensures IsSlot(v, s) && s !in v.inUse && BlocksOk(v)
  {
  }

  lemma EmptyIffNoMarks(v0: View, v: View, todo: set<nat>, b: nat)
    requires Reclaiming(v0, v, todo) && b in todo
    ensures b in v.blocks && (v.blocks[b].nMarks == 0 <==> v.blocks[b].marks == {})
    ensures !IsSmall(v.blocks[b].cls) ==> (0 !in v.blocks[b].marks <==> v.blocks[b].marks == {})
  {
    var k := v0.blocks[b];
    assert BlockOk(k);
    if k.marks != {} && !IsSmall(k.cls) {
      var i :| i in k.marks;
      assert i == 0;
    }
  }

  lemma StartReclaiming(u: View, v: View)
    requires Settling(u) && v == u.(fl := map[], rl := map[])
    ensures Reclaiming(v, v, v.blocks.Keys)
  {
    hide BlockOk;
  }

  lemma StillThere(v0: View, v: View, todo: set<nat>, b: nat)
    requires Reclaiming(v0, v, todo) && b in todo
    ensures b in v.blocks
  {
  }

  lemma NoneGone(v: View)
    ensures MarksLess(v, v, {})
  {
  }

  lemma Finished(old0: View, v: View, u: View, w: View, gone: set<Slot>, reach: set<Slot>)
    requires v == old0.(inUse := Kept(old0, reach)) && MarksLess(v, u, gone) && Reclaiming(u.(fl := map[], rl := map[]), w, {})
    requires forall s :: s in gone <==> exists c :: s in Free(v.fl, c)
    ensures Collected(old0, w, reach, iset s | IsMarked(old0, s) && !Listed(old0, s))
  {
    hide Settling, ReclaimOk, Waits;
    var kept := iset s | IsMarked(old0, s) && !Listed(old0, s);
    forall s ensures s in gone <==> Listed(old0, s) {
    }
    hide Listed;
    forall s: Slot ensures s.b in w.blocks && s.i in w.blocks[s.b].marks <==> s in kept {
      if s.b in old0.blocks { assert s.i in u.blocks[s.b].marks <==> s.i in v.blocks[s.b].marks && Slot(s.b, s.i) !in gone; }
    }
    forall b ensures b in w.blocks <==> b in old0.blocks && exists i: nat :: Slot(b, i) in kept {
      if b in old0.blocks { KeptBlock(old0, u, b, gone, kept); }
    }
  }

  lemma KeptBlock(old0: View, u: View, b: nat, gone: set<Slot>, kept: iset<Slot>)
    requires b in old0.blocks && b in u.blocks
    requires forall i: nat :: i in u.blocks[b].marks <==> i in old0.blocks[b].marks && Slot(b, i) !in gone
    requires forall i: nat :: Slot(b, i) in kept <==> i in old0.blocks[b].marks && Slot(b, i) !in gone
    ensures u.blocks[b].marks != {} <==> exists i: nat :: Slot(b, i) in kept
  {
    if u.blocks[b].marks != {} {
      var i: nat :| i in u.blocks[b].marks;
      assert Slot(b, i) in kept;
    }
  }
}
