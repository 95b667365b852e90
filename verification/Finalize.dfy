// Finalization: the hash table of registered objects and the ordering of gc/finalize.c.

module Finalize {
  import opened HeapGraph
  import opened Sets
  import opened MarkInvariant
  import opened Marker
  import Draining

  /** struct finalizable_object: the object, the client's procedure (0 is none) and data, and its size. */
  datatype Fo = Fo(base: Obj, fn: nat, data: nat, size: nat)

  const FO_BYTES: nat := 48           // sizeof(struct finalizable_object)

  /** f is on one of the hash chains. */
  ghost predicate InTable(head: seq<seq<Fo>>, f: Fo) {
    exists i: nat :: i < |head| && f in head[i]
  }

  /** Every entry is on the chain its object hashes to, and no object has two entries. */
  ghost predicate TableOk(head: seq<seq<Fo>>, hash: (Obj, nat) -> nat) {
    && (forall i: nat, j: nat | i < |head| && j < |head[i]| :: hash(head[i][j].base, |head|) == i)
    && (forall i: nat, j: nat, k: nat | i < |head| && j < k < |head[i]| :: head[i][j].base != head[i][k].base)
  }

  ghost function Count(head: seq<seq<Fo>>): nat {
    if head == [] then 0 else Count(head[..|head| - 1]) + |head[|head| - 1]|
  }

  lemma {:induction false} CountUpdate(head: seq<seq<Fo>>, i: nat, c: seq<Fo>)
    requires i < |head|
    ensures Count(head[i := c]) == Count(head) - |head[i]| + |c|
  {
    var last := |head| - 1;
    if i == last {
      assert head[i := c][..last] == head[..last];
    } else {
      CountUpdate(head[..last], i, c);
      assert head[i := c][..last] == head[..last][i := c];
    }
  }

  lemma {:induction false} CountEmpty(n: nat)
    ensures Count(seq(n, _ => [])) == 0
  {
    if n > 0 {
      CountEmpty(n - 1);
      assert seq<seq<Fo>>(n, _ => [])[..n - 1] == seq(n - 1, _ => []);
    }
  }

  // Putting an entry for a new object at the front of its chain.
  lemma FrontOk(r: seq<seq<Fo>>, h: nat, p: Fo, hash: (Obj, nat) -> nat)
    requires TableOk(r, hash) && h < |r| && hash(p.base, |r|) == h
    requires forall k: nat | k < |r[h]| :: r[h][k].base != p.base
    ensures TableOk(r[h := [p] + r[h]], hash)
    ensures forall f: Fo :: InTable(r[h := [p] + r[h]], f) <==> InTable(r, f) || f == p
  {
    var q := r[h := [p] + r[h]];
    forall f: Fo ensures InTable(q, f) <==> InTable(r, f) || f == p {
      if InTable(r, f) {
        var i: nat :| i < |r| && f in r[i];
        assert f in q[i];
      }
      if f == p { assert f in q[h]; }
      if InTable(q, f) {
        var i: nat :| i < |q| && f in q[i];
        assert f == p || f in r[i];
      }
    }
  }

  /** What the table looks up b as has been replaced by e (nothing, if e is not given). */
  ghost predicate Replaced(t: seq<seq<Fo>>, r: seq<seq<Fo>>, b: Obj, e: set<Fo>) {
    forall f: Fo :: InTable(r, f) <==> (InTable(t, f) && f.base != b) || f in e
  }

  // ----- the meaning of GC_finalize

  /** The registered objects that were not marked. */
  ghost function Unreached(head: seq<seq<Fo>>, marked: set<Obj>): set<Obj> {
    (set i: nat, j: nat | i < |head| && j < |head[i]| :: head[i][j].base) - marked
  }

  /** Everything reachable by one or more pointers from one of us. */
  ghost function PlusAll(m: Memory, us: set<Obj>): set<Obj> {
    set t | t in m.words && exists u :: u in us && t in Plus(m, u)
  }

  lemma PlusAllAdd(m: Memory, us: set<Obj>, u: Obj)
    ensures PlusAll(m, us + {u}) == PlusAll(m, us) + Plus(m, u)
  {
    hide Plus;
    PlusInWords(m, u);
    forall t | t in PlusAll(m, us) + Plus(m, u) ensures t in PlusAll(m, us + {u}) {
      if t in Plus(m, u) {
        assert u in us + {u};
      } else {
        var x :| x in us && t in Plus(m, x);
        assert x in us + {u};
      }
    }
    forall t | t in PlusAll(m, us + {u}) ensures t in PlusAll(m, us) + Plus(m, u) {
    }
  }

  lemma PlusInWords(m: Memory, u: Obj)
    ensures Plus(m, u) <= m.words.Keys
  {
  }

  lemma PlusAllNone(m: Memory)
    ensures PlusAll(m, {}) == {}
  {
  }

  // What a marked object leads to is marked.
  lemma PlusOfMarked(m: Memory, c: set<Obj>, u: Obj)
    requires Closed(m, c) && u in c
    ensures Plus(m, u) <= c
  {
    SuccIn(m, c, u);
    SuccClosed(m, c, u);
  }

  /** So many unmarked objects are reachable from b that the smallest mark stack does not hold them all. */
  ghost predicate Overfull(m: Memory, m0: set<Obj>, b: Obj) {
    INITIAL_MARK_STACK_SIZE <= |Plus(m, b) - m0|
  }

  lemma MoreThanFull(m: Memory, m0: set<Obj>, marked: set<Obj>, b: Obj)
    requires m0 <= marked && INITIAL_MARK_STACK_SIZE <= |Plus(m, b) - marked|
    ensures Overfull(m, m0, b)
  {
    hide Plus;
    SubsetSize(Plus(m, b) - marked, Plus(m, b) - m0);
  }

  // ----- the turns of the registered objects

  /** The objects of the table below entry j of chain i, chain by chain. */
  function OrderTo(t: seq<seq<Fo>>, i: nat, j: nat): seq<Obj>
    requires i <= |t| && (if i < |t| then j <= |t[i]| else j == 0)
    decreases i, j
  {
    if j > 0 then OrderTo(t, i, j - 1) + [t[i][j - 1].base]
    else if i > 0 then OrderTo(t, i - 1, |t[i - 1]|)
    else []
  }

  /** The order in which GC_finalize comes to the registered objects. */
  function Order(t: seq<seq<Fo>>): seq<Obj> {
    OrderTo(t, |t|, 0)
  }

  lemma {:induction false} OrderHas(t: seq<seq<Fo>>, i: nat, j: nat, b: Obj)
    requires i <= |t| && (if i < |t| then j <= |t[i]| else j == 0)
    ensures b in OrderTo(t, i, j) <==>
            exists a: nat, c: nat :: a < |t| && c < |t[a]| && (a < i || (a == i && c < j)) && t[a][c].base == b
    decreases i, j
  {
    if j > 0 {
      OrderHas(t, i, j - 1, b);
    } else if i > 0 {
      OrderHas(t, i - 1, |t[i - 1]|, b);
    }
  }

  function Members(s: seq<Obj>): set<Obj> {
    set b | b in s
  }

  lemma OrderIsTable(t: seq<seq<Fo>>, m0: set<Obj>)
    ensures Members(Order(t)) - m0 == Unreached(t, m0)
  {
    forall b: Obj ensures b in Order(t) && b !in m0 <==> b in Unreached(t, m0) {
      OrderHas(t, |t|, 0, b);
    }
  }

  /** The marks, and the objects whose turns overflowed the mark stack. */
  datatype Turned = Turned(marked: set<Obj>, overflowed: set<Obj>)

  /** The turn of b with a mark stack of this size: a marked object is passed over, from another one everything
      is marked that it leads to, and the object itself if that overflows the stack. */
  ghost function OneTurn(m: Memory, d: Turned, size: nat, b: Obj): Turned {
    if b in d.marked then d
    else if Draining.Overflows(m, d.marked, size, b) then Turned(d.marked + Plus(m, b) + {b}, d.overflowed + {b})
    else Turned(d.marked + Plus(m, b), d.overflowed)
  }

  ghost function Through(m: Memory, m0: set<Obj>, met: seq<Obj>, sizes: seq<nat>): Turned
    requires |met| == |sizes|
  {
    if met == [] then Turned(m0, {})
    else OneTurn(m, Through(m, m0, met[..|met| - 1], sizes[..|met| - 1]), sizes[|met| - 1], met[|met| - 1])
  }

  /** The mark stack never shrinks, and it can only grow after it has overflowed. */
  ghost predicate SizeOk(overflowed: set<Obj>, size0: nat, size: nat) {
    size0 <= size && (overflowed == {} ==> size == size0)
  }

  ghost predicate SizesOk(m: Memory, m0: set<Obj>, met: seq<Obj>, sizes: seq<nat>, size0: nat)
    requires |met| == |sizes|
  {
    forall k: nat | k < |met| :: SizeOk(Through(m, m0, met[..k], sizes[..k]).overflowed, size0, sizes[k])
  }

  /** These objects, and no others, overflowed the mark stack in their turns. */
  ghost predicate TurnsOk(m: Memory, m0: set<Obj>, met: seq<Obj>, sizes: seq<nat>, size0: nat, overflowed: set<Obj>) {
    |met| == |sizes| && SizesOk(m, m0, met, sizes, size0) && overflowed == Through(m, m0, met, sizes).overflowed
  }

  lemma NoTurnYet(m: Memory, m0: set<Obj>, size0: nat)
    ensures Through(m, m0, [], []) == Turned(m0, {}) && SizesOk(m, m0, [], [], size0)
  {
  }

  lemma ThroughNext(m: Memory, m0: set<Obj>, met: seq<Obj>, sizes: seq<nat>, b: Obj, size: nat)
    requires |met| == |sizes|
    ensures Through(m, m0, met + [b], sizes + [size]) == OneTurn(m, Through(m, m0, met, sizes), size, b)
  {
    assert (met + [b])[..|met|] == met && (sizes + [size])[..|met|] == sizes;
  }

  lemma SizesNext(m: Memory, m0: set<Obj>, met: seq<Obj>, sizes: seq<nat>, b: Obj, size: nat, size0: nat)
    requires |met| == |sizes| && SizesOk(m, m0, met, sizes, size0)
    requires SizeOk(Through(m, m0, met, sizes).overflowed, size0, size)
    ensures SizesOk(m, m0, met + [b], sizes + [size], size0)
  {
    hide Through;
    forall k: nat | k < |met| + 1
      ensures SizeOk(Through(m, m0, (met + [b])[..k], (sizes + [size])[..k]).overflowed, size0, (sizes + [size])[k])
    {
      assert (met + [b])[..k] == met[..k] && (sizes + [size])[..k] == sizes[..k];
      if k == |met| {
        assert met[..k] == met && sizes[..k] == sizes;
      }
    }
  }

  lemma {:induction false} ThroughHasStart(m: Memory, m0: set<Obj>, met: seq<Obj>, sizes: seq<nat>)
    requires |met| == |sizes|
    ensures m0 <= Through(m, m0, met, sizes).marked
    decreases |met|
  {
    hide Plus;
    if met != [] { ThroughHasStart(m, m0, met[..|met| - 1], sizes[..|met| - 1]); }
  }

  // In terms of reachability: what has been marked in these turns.
  lemma {:induction false} ThroughIs(m: Memory, m0: set<Obj>, met: seq<Obj>, sizes: seq<nat>)
    requires |met| == |sizes| && Closed(m, m0)
    ensures var d := Through(m, m0, met, sizes);
            Closed(m, d.marked) && d.overflowed <= Members(met) - m0
            && d.marked == m0 + d.overflowed + PlusAll(m, Members(met) - m0)
    decreases |met|
  {
    hide Plus, PlusAll, Closed;
    PlusAllNone(m);
    if met == [] {
      assert Members(met) - m0 == {};
    } else {
      var front, b := met[..|met| - 1], met[|met| - 1];
      ThroughIs(m, m0, front, sizes[..|met| - 1]);
      ThroughHasStart(m, m0, front, sizes[..|met| - 1]);
      var d := Through(m, m0, front, sizes[..|met| - 1]);
      assert met == front + [b];
      if b in m0 {
        assert Members(met) - m0 == Members(front) - m0;
      } else {
        assert Members(met) - m0 == Members(front) - m0 + {b};
        PlusAllAdd(m, Members(front) - m0, b);
      }
      if b in d.marked {
        PlusOfMarked(m, d.marked, b);
      } else {
        TurnClosed(m, d.marked, b);
      }
    }
  }

  lemma TurnClosed(m: Memory, c: set<Obj>, b: Obj)
    requires Closed(m, c)
    ensures Closed(m, c + Plus(m, b)) && Closed(m, c + Plus(m, b) + {b})
  {
    PlusClosed(m, b);
    hide Plus, Edge;
  }

  class Finalizer {
    const mk: Marker
    const hash: (Obj, nat) -> nat       // HASH2: a bucket below the table size
    var head: seq<seq<Fo>>              // fo_head; no table yet if empty
    var entries: nat                    // GC_fo_entries
    var finalizeNow: seq<Fo>            // GC_finalize_now, first to be run first
    var bytesFinalized: nat

    ghost predicate HashOk() {
      forall b: Obj, n: nat :: n > 0 ==> hash(b, n) < n
    }

    ghost predicate Valid()
      reads this
    {
      HashOk() && TableOk(head, hash) && entries == Count(head)
    }

    constructor (mk: Marker, hash: (Obj, nat) -> nat)
      requires forall b: Obj, n: nat :: n > 0 ==> hash(b, n) < n
      ensures Valid() && head == [] && finalizeNow == []
      ensures this.mk == mk && this.hash == hash
    {
      this.mk := mk;
      this.hash := hash;
      head, entries, finalizeNow, bytesFinalized := [], 0, [], 0;
    }

    // GC_grow_table: twice the buckets, and every entry moved to the front of its new chain.  `memory` says
    // whether the new table can be had.
    method GrowTable(memory: bool) returns (ok: bool)
      requires Valid()
      modifies this`head
      ensures ok == memory
      ensures Valid() && forall f: Fo :: InTable(head, f) <==> InTable(old(head), f)
      ensures ok ==> |head| == if old(head) == [] then 1 else 2 * |old(head)|
      ensures !ok ==> head == old(head)
    {
      if !memory { return false; }
      ghost var before := head;
      var size := if head == [] then 1 else 2 * |head|;
      var table: seq<seq<Fo>> := seq(size, _ => []);
      CountEmpty(size);
      var i := 0;
      while i < |head|
        invariant i <= |head| && |table| == size && head == before
        invariant Moving(before, i, 0, table, hash)
      {
        table := MoveChain(i, table);
        i := i + 1;
      }
      Moved(before, table, hash);
      head := table;
      return true;
    }

    method MoveChain(i: nat, t: seq<seq<Fo>>) returns (table: seq<seq<Fo>>)
      requires Valid() && i < |head| && |t| > 0 && Moving(head, i, 0, t, hash)
      ensures |table| == |t| && Moving(head, i + 1, 0, table, hash)
    {
      table := t;
      var j := 0;
      while j < |head[i]|
        invariant j <= |head[i]| && |table| == |t|
        invariant Moving(head, i, j, table, hash)
      {
        var p := head[i][j];
        var h := hash(p.base, |table|);
        MoveOne(head, i, j, table, hash);
        table := table[h := [p] + table[h]];
        j := j + 1;
      }
      NextChain(head, i, table, hash);
    }

    /** The entries before position j of chain i have been moved to the new table. */
    static ghost predicate Moving(t: seq<seq<Fo>>, i: nat, j: nat, r: seq<seq<Fo>>, hash: (Obj, nat) -> nat) {
      && TableOk(r, hash)
      && Count(r) == Count(if i <= |t| then t[..i] else t) + j
      && forall f: Fo :: InTable(r, f) <==> Before(t, i, j, f)
    }

    static ghost predicate Before(t: seq<seq<Fo>>, i: nat, j: nat, f: Fo) {
      exists a: nat, b: nat :: a < |t| && b < |t[a]| && t[a][b] == f && (a < i || (a == i && b < j))
    }

    static lemma MoveOne(t: seq<seq<Fo>>, i: nat, j: nat, r: seq<seq<Fo>>, hash: (Obj, nat) -> nat)
      requires TableOk(t, hash) && i < |t| && j < |t[i]| && Moving(t, i, j, r, hash)
      requires |r| > 0 && hash(t[i][j].base, |r|) < |r|
      ensures var p := t[i][j]; var h := hash(p.base, |r|); Moving(t, i, j + 1, r[h := [p] + r[h]], hash)
    {
      var p := t[i][j];
      var h := hash(p.base, |r|);
      CountUpdate(r, h, [p] + r[h]);
      forall k: nat | k < |r[h]| ensures r[h][k].base != p.base {
        assert InTable(r, r[h][k]);
        OtherBase(t, i, j, r[h][k], hash);
      }
      FrontOk(r, h, p, hash);
      var q := r[h := [p] + r[h]];
      var next := j + 1;
      forall f: Fo ensures InTable(q, f) <==> Before(t, i, next, f) {
        BeforeNext(t, i, j, f);
        assert InTable(r, f) <==> Before(t, i, j, f);
      }
    }

    static lemma BeforeNext(t: seq<seq<Fo>>, i: nat, j: nat, f: Fo)
      requires i < |t| && j < |t[i]|
      ensures Before(t, i, j + 1, f) <==> Before(t, i, j, f) || f == t[i][j]
    {
      assert t[i][j] == t[i][j];
    }

    static lemma OtherBase(t: seq<seq<Fo>>, i: nat, j: nat, f: Fo, hash: (Obj, nat) -> nat)
      requires TableOk(t, hash) && i < |t| && j < |t[i]| && Before(t, i, j, f)
      ensures f.base != t[i][j].base
    {
    }

    static lemma NextChain(t: seq<seq<Fo>>, i: nat, r: seq<seq<Fo>>, hash: (Obj, nat) -> nat)
      requires i < |t| && Moving(t, i, |t[i]|, r, hash)
      ensures Moving(t, i + 1, 0, r, hash)
    {
      assert t[..i + 1][..i] == t[..i];
    }

    static lemma Moved(t: seq<seq<Fo>>, r: seq<seq<Fo>>, hash: (Obj, nat) -> nat)
      requires Moving(t, |t|, 0, r, hash)
      ensures TableOk(r, hash) && Count(r) == Count(t) && forall f: Fo :: InTable(r, f) <==> InTable(t, f)
    {
      assert t[..|t|] == t;
    }

    // GC_register_finalizer_inner with the ordinary mark procedure.  A zero procedure removes the entry of
    // the object; `inHeap` is false for an object without a block header, for which nothing is recorded.
    // `memory` says whether a table and an entry can be had.  Returns whether they were there when needed,
    // and the entry that the object had.
    method Register(base: Obj, fn: nat, data: nat, size: nat, inHeap: bool, memory: bool)
      returns (ok: bool, found: bool, before: Fo)
      requires Valid()
      modifies this`head, this`entries
      ensures Valid()
      ensures memory || found ==> ok
      ensures found ==> old(InTable(head, before)) && before.base == base
      ensures ok && !found ==> forall f: Fo :: old(InTable(head, f)) ==> f.base != base
      ensures ok && (found || fn == 0 || inHeap) ==>
                Replaced(old(head), head, base,
                         if fn == 0 then {} else {Fo(base, fn, data, if found then before.size else size)})
      ensures !ok || (!found && fn != 0 && !inHeap) ==> forall f: Fo :: InTable(head, f) <==> old(InTable(head, f))
    {
      hide InTable, TableOk;
      before := Fo(base, 0, 0, 0);
      if head == [] || entries > |head| {
        ok := GrowTable(memory);
        if head == [] { return false, false, before; }
      }
      ghost var t := head;
      var index := hash(base, |head|);
      var j := FindOnChain(head[index], base);
      if j < |head[index]| {
        before := head[index][j];
        ReplaceEntry(index, j, fn, data);
        return true, true, before;
      }
      NotOnChain(head, base, hash);
      if fn == 0 || !inHeap {
        Unchanged(head, base);
        return true, false, before;
      }
      if !memory { return false, false, before; }
      AddEntry(index, Fo(base, fn, data, size));
      return true, false, before;
    }

    static lemma Unchanged(t: seq<seq<Fo>>, base: Obj)
      requires forall f: Fo :: InTable(t, f) ==> f.base != base
      ensures Replaced(t, t, base, {})
    {
      hide InTable;
    }

    // Unlink the entry at position j of chain i; put it back with the new procedure, if there is one.
    method ReplaceEntry(i: nat, j: nat, fn: nat, data: nat)
      requires Valid() && i < |head| && j < |head[i]|
      modifies this`head, this`entries
      ensures Valid() && |head| == old(|head|)
      ensures var e := old(head[i][j]);
              old(InTable(head, e)) && Replaced(old(head), head, e.base, if fn == 0 then {} else {e.(fn := fn, data := data)})
    {
      hide InTable, TableOk, Replaced;
      var e := head[i][j];
      TakenOff(head, i, j, hash);
      if fn == 0 {
        CountUpdate(head, i, head[i][..j] + head[i][j + 1..]);
        entries := entries - 1;
        head := head[i := head[i][..j] + head[i][j + 1..]];
      } else {
        var f := e.(fn := fn, data := data);
        InPlace(head, i, j, f, hash);
        CountUpdate(head, i, head[i][j := f]);
        head := head[i := head[i][j := f]];
      }
    }

    method AddEntry(i: nat, e: Fo)
      requires Valid() && i < |head| && i == hash(e.base, |head|)
      requires forall f: Fo :: InTable(head, f) ==> f.base != e.base
      modifies this`head, this`entries
      ensures Valid() && Replaced(old(head), head, e.base, {e})
    {
      hide TableOk;
      forall k: nat | k < |head[i]| ensures head[i][k].base != e.base {
        assert InTable(head, head[i][k]);
      }
      hide InTable;
      FrontOk(head, i, e, hash);
      CountUpdate(head, i, [e] + head[i]);
      head := head[i := [e] + head[i]];
      entries := entries + 1;
    }

    static method FindOnChain(chain: seq<Fo>, base: Obj) returns (j: nat)
      ensures j <= |chain| && (j < |chain| ==> chain[j].base == base)
      ensures forall k | 0 <= k < j :: chain[k].base != base
    {
      j := 0;
      while j < |chain| && chain[j].base != base
        invariant j <= |chain|
        invariant forall k | 0 <= k < j :: chain[k].base != base
      {
        j := j + 1;
      }
    }

    // The entry of an object is on the chain it hashes to, if anywhere.
    static lemma NotOnChain(t: seq<seq<Fo>>, base: Obj, hash: (Obj, nat) -> nat)
      requires TableOk(t, hash) && hash(base, |t|) < |t|
      requires forall k | 0 <= k < |t[hash(base, |t|)]| :: t[hash(base, |t|)][k].base != base
      ensures forall f: Fo :: InTable(t, f) ==> f.base != base
    {
      forall f: Fo | InTable(t, f) ensures f.base != base {
        var i: nat :| i < |t| && f in t[i];
        var k: nat :| k < |t[i]| && t[i][k] == f;
      }
    }

    static lemma TakenOff(t: seq<seq<Fo>>, i: nat, j: nat, hash: (Obj, nat) -> nat)
      requires TableOk(t, hash) && i < |t| && j < |t[i]|
      ensures TableOk(t[i := t[i][..j] + t[i][j + 1..]], hash)
      ensures InTable(t, t[i][j])
      ensures Replaced(t, t[i := t[i][..j] + t[i][j + 1..]], t[i][j].base, {})
    {
      var c := t[i][..j] + t[i][j + 1..];
      var r := t[i := c];
      forall f: Fo ensures InTable(r, f) <==> InTable(t, f) && f.base != t[i][j].base {
        OffChain(t[i], j, f);
        if InTable(t, f) {
          var a: nat :| a < |t| && f in t[a];
          assert a != i ==> f in r[a];
          if f.base == t[i][j].base { assert a == i by { var k: nat :| k < |t[a]| && t[a][k] == f; } }
        }
        if InTable(r, f) {
          var a: nat :| a < |r| && f in r[a];
          assert f in t[a];
          var k: nat :| k < |t[a]| && t[a][k] == f;
        }
        if f in c { assert f in r[i]; }
      }
      assert t[i][j] in t[i];
    }

    static lemma OffChain(c: seq<Fo>, j: nat, f: Fo)
      requires j < |c|
      requires forall a: nat, b: nat | a < b < |c| :: c[a].base != c[b].base
      ensures f in c[..j] + c[j + 1..] <==> f in c && f.base != c[j].base
    {
      var d := c[..j] + c[j + 1..];
      if f in d {
        var k :| 0 <= k < |d| && d[k] == f;
        assert f == c[if k < j then k else k + 1];
      }
      if f in c && f.base != c[j].base {
        var k :| 0 <= k < |c| && c[k] == f;
        assert d[if k < j then k else k - 1] == f;
      }
    }

    static lemma InPlace(t: seq<seq<Fo>>, i: nat, j: nat, e: Fo, hash: (Obj, nat) -> nat)
      requires TableOk(t, hash) && i < |t| && j < |t[i]| && e.base == t[i][j].base
      ensures TableOk(t[i := t[i][j := e]], hash)
      ensures Replaced(t, t[i := t[i][j := e]], e.base, {e})
    {
      var r := t[i := t[i][j := e]];
      TakenOff(t, i, j, hash);
      var off := t[i := t[i][..j] + t[i][j + 1..]];
      forall f: Fo ensures InTable(r, f) <==> InTable(off, f) || f == e {
        InPlaceChain(t[i], j, e, f);
        if InTable(r, f) {
          var a: nat :| a < |r| && f in r[a];
          assert f == e || f in off[a];
        }
        if InTable(off, f) {
          var a: nat :| a < |off| && f in off[a];
          assert f in r[a];
        }
        assert e in r[i];
      }
    }

    static lemma InPlaceChain(c: seq<Fo>, j: nat, e: Fo, f: Fo)
      requires j < |c|
      ensures f in c[j := e] <==> f in c[..j] + c[j + 1..] || f == e
      ensures e in c[j := e]
    {
      var d := c[..j] + c[j + 1..];
      assert c[j := e][j] == e;
      if f in c[j := e] && f != e {
        var k :| 0 <= k < |c| && c[j := e][k] == f;
        assert d[if k < j then k else k - 1] == f;
      }
      if f in d {
        var k :| 0 <= k < |d| && d[k] == f;
        assert c[j := e][if k < j then k else k + 1] == f;
      }
    }

    /** The objects of the table exist. */
    ghost predicate ObjectsExist()
      reads this, mk
    {
      forall f: Fo :: InTable(head, f) ==> f.base in mk.m.words
    }

    /** The state after the objects `met` have had their turns, with mark stacks of these sizes; size0 was the
        size at the start. */
    ghost predicate MarkedFrom(m0: set<Obj>, met: seq<Obj>, sizes: seq<nat>, size0: nat, overflowed: set<Obj>)
      reads this, mk
    {
      && Ready(mk.V()) && Settled(mk.V()) && mk.objectsAreMarked
      && History(mk.m, m0, met, sizes, size0, Turned(mk.marked, overflowed), mk.stackSize)
    }

    static ghost predicate History(m: Memory, m0: set<Obj>, met: seq<Obj>, sizes: seq<nat>, size0: nat, d: Turned, size: nat) {
      && |met| == |sizes| && Through(m, m0, met, sizes) == d
      && (forall b | b in d.overflowed :: Overfull(m, m0, b))
      && SizesOk(m, m0, met, sizes, size0) && SizeOk(d.overflowed, size0, size)
    }

    static lemma NextTurn(m: Memory, m0: set<Obj>, met: seq<Obj>, sizes: seq<nat>, size0: nat, d: Turned, size: nat, b: Obj, size': nat)
      requires History(m, m0, met, sizes, size0, d, size)
      requires size <= size' && (b in d.marked || !Draining.Overflows(m, d.marked, size, b) ==> size' == size)
      requires b !in d.marked && Draining.Overflows(m, d.marked, size, b) ==> Overfull(m, m0, b)
      ensures History(m, m0, met + [b], sizes + [size], size0, OneTurn(m, d, size, b), size') && m0 <= d.marked
    {
      hide Plus, Overfull, Through, SizesOk, Draining.Overflows;
      ThroughHasStart(m, m0, met, sizes);
      ThroughNext(m, m0, met, sizes, b, size);
      SizesNext(m, m0, met, sizes, b, size, size0);
    }

    static lemma StartIsMarked(m: Memory, m0: set<Obj>, met: seq<Obj>, sizes: seq<nat>, size0: nat, d: Turned, size: nat)
      requires History(m, m0, met, sizes, size0, d, size)
      ensures m0 <= d.marked
    {
      hide Plus, Overfull, Through, SizesOk;
      ThroughHasStart(m, m0, met, sizes);
    }

    // One turn of the first loop of GC_finalize over the registered objects.
    method MarkFromOne(b: Obj, ghost m0: set<Obj>, ghost met: seq<Obj>, ghost sizes: seq<nat>, ghost size0: nat, ov: set<Obj>)
      returns (aborted: bool, overflowed: set<Obj>)
      requires b in mk.m.words && MarkedFrom(m0, met, sizes, size0, ov)
      modifies mk
      ensures mk.m == old(mk.m)
      ensures !aborted ==> MarkedFrom(m0, met + [b], sizes + [old(mk.stackSize)], size0, overflowed)
      ensures aborted ==> ManyRoots(mk.m) && Overfull(mk.m, m0, b)
    {
      hide Ready, Settled, Plus, Overfull, ManyRoots, History, Draining.Overflows;
      ghost var v, size := mk.V(), mk.stackSize;
      StartIsMarked(mk.m, m0, met, sizes, size0, Turned(v.marked, ov), size);
      overflowed := ov;
      aborted := false;
      if b !in mk.marked {
        ReadyFacts(v);
        var o;
        aborted, o := mk.MarkFO(b);
        if o {
          MoreThanFull(mk.m, m0, v.marked, b);
          overflowed := overflowed + {b};
        }
      }
      assert aborted || Turned(mk.marked, overflowed) == OneTurn(mk.m, Turned(v.marked, ov), size, b);
      NextTurn(mk.m, m0, met, sizes, size0, Turned(v.marked, ov), size, b, mk.stackSize);
    }

    static lemma SettledClosed(v: View)
      requires Settled(v)
      ensures Closed(v.m, v.marked) && RootTargets(v.m) <= v.marked
    {
    }

    // The first loop: mark everything reachable from finalizable objects by one or more pointers.
    method MarkFromAll() returns (aborted: bool, overflowed: set<Obj>, ghost sizes: seq<nat>)
      requires Valid() && ObjectsExist() && Ready(mk.V()) && Settled(mk.V()) && mk.objectsAreMarked
      modifies mk
      ensures mk.m == old(mk.m)
      ensures !aborted ==> MarkedFrom(old(mk.marked), Order(head), sizes, old(mk.stackSize), overflowed)
      ensures aborted ==> ManyRoots(mk.m) && exists b :: Overfull(mk.m, old(mk.marked), b)
    {
      hide Ready, Settled, TableOk, InTable, Overfull, ManyRoots, Through, SizesOk, Closed;
      ghost var m0, size0 := mk.marked, mk.stackSize;
      SettledClosed(mk.V());
      ghost var met: seq<Obj> := [];
      aborted, overflowed, sizes := false, {}, [];
      NoTurnYet(mk.m, m0, size0);
      var i := 0;
      while i < |head|
        invariant i <= |head| && mk.m == old(mk.m) && MarkedFrom(m0, met, sizes, size0, overflowed)
        invariant met == OrderTo(head, i, 0)
      {
        var j := 0;
        while j < |head[i]|
          invariant i < |head| && j <= |head[i]| && mk.m == old(mk.m) && MarkedFrom(m0, met, sizes, size0, overflowed)
          invariant met == OrderTo(head, i, j)
        {
          var b := head[i][j].base;
          EntryExists(head, i, j);
          ghost var size := mk.stackSize;
          aborted, overflowed := MarkFromOne(b, m0, met, sizes, size0, overflowed);
          if aborted { return; }
          met, sizes := met + [b], sizes + [size];
          j := j + 1;
        }
        i := i + 1;
      }
    }

    static lemma EntryExists(t: seq<seq<Fo>>, i: nat, j: nat)
      requires i < |t| && j < |t[i]|
      ensures InTable(t, t[i][j])
    {
      assert t[i][j] in t[i];
    }

    /** The entries of a chain whose objects are marked, in order. */
    static ghost function Keep(c: seq<Fo>, marked: set<Obj>): (k: seq<Fo>)
      ensures |k| <= |c|
      ensures forall f :: f in k <==> f in c && f.base in marked
    {
      if c == [] then []
      else
        var k := Keep(c[..|c| - 1], marked);
        assert c == c[..|c| - 1] + [c[|c| - 1]];
        if c[|c| - 1].base in marked then k + [c[|c| - 1]] else k
    }

    static ghost function Bytes(q: seq<Fo>): nat {
      if q == [] then 0 else q[0].size + FO_BYTES + Bytes(q[1..])
    }

    static lemma {:induction false} BytesOfJoin(x: seq<Fo>, q: seq<Fo>)
      ensures Bytes(x + q) == Bytes(x) + Bytes(q)
    {
      if x == [] {
        assert x + q == q;
      } else {
        BytesOfJoin(x[1..], q);
        assert (x + q)[1..] == x[1..] + q;
      }
    }

    static ghost function BasesOf(q: seq<Fo>): set<Obj> {
      set k | 0 <= k < |q| :: q[k].base
    }

    /** q holds exactly the entries of the chain whose objects are not among m0. */
    static ghost predicate Queued(q: seq<Fo>, c: seq<Fo>, m0: set<Obj>) {
      forall f: Fo :: f in q <==> f in c && f.base !in m0
    }

    static ghost predicate Distinct(c: seq<Fo>) {
      forall j, k | 0 <= j < k < |c| :: c[j].base != c[k].base
    }

    /** The first j entries have been dealt with. */
    static ghost predicate Dealt(c: seq<Fo>, j: nat, kept: seq<Fo>, q: seq<Fo>, m0: set<Obj>) {
      j <= |c| && kept == Keep(c[..j], m0) && Queued(q, c[..j], m0) && |q| + |kept| == j
    }

    static lemma DealWith(c: seq<Fo>, j: nat, kept: seq<Fo>, q: seq<Fo>, m0: set<Obj>)
      requires Dealt(c, j, kept, q, m0) && j < |c| && Distinct(c)
      ensures c[j].base !in BasesOf(q)
      ensures c[j].base in m0 ==> Dealt(c, j + 1, kept + [c[j]], q, m0)
      ensures c[j].base !in m0 ==> Dealt(c, j + 1, kept, [c[j]] + q, m0)
      ensures BasesOf([c[j]] + q) == BasesOf(q) + {c[j].base}
    {
      hide BasesOf, Distinct;
      assert c[..j + 1][..j] == c[..j];
      assert c[..j + 1] == c[..j] + [c[j]];
      NotYetQueued(c, j, q, m0);
      BasesOfFront(c[j], q);
    }

    static lemma NotYetQueued(c: seq<Fo>, j: nat, q: seq<Fo>, m0: set<Obj>)
      requires j < |c| && Distinct(c) && Queued(q, c[..j], m0)
      ensures c[j].base !in BasesOf(q)
    {
      forall k | 0 <= k < |q| ensures q[k].base != c[j].base {
        assert q[k] in c[..j];
      }
    }

    static lemma BasesOfFront(f: Fo, q: seq<Fo>)
      ensures BasesOf([f] + q) == BasesOf(q) + {f.base}
    {
      var r := [f] + q;
      assert r[0].base in BasesOf(r);
      forall x | x in BasesOf(q) ensures x in BasesOf(r) {
        var k :| 0 <= k < |q| && q[k].base == x;
        assert r[k + 1].base == x;
      }
    }

    static lemma ChainDistinct(t: seq<seq<Fo>>, i: nat, hash: (Obj, nat) -> nat)
      requires TableOk(t, hash) && i < |t|
      ensures Distinct(t[i])
    {
    }

    // Delete the entries of chain i whose objects are unmarked, and queue them.  Each object is marked as
    // its entry is queued.
    method QueueChain(i: nat) returns (ghost q: seq<Fo>)
      requires TableOk(head, hash) && ObjectsExist() && i < |head| && Shape(mk.V()) && CountsOk(mk.V())
      requires entries >= |head[i]|
      modifies this`head, this`entries, this`finalizeNow, this`bytesFinalized, mk`marked, mk`nMarks
      ensures Shape(mk.V()) && CountsOk(mk.V())
      ensures head == old(head)[i := Keep(old(head[i]), old(mk.marked))]
      ensures entries == old(entries) - (old(|head[i]|) - |head[i]|) && entries + |q| == old(entries)
      ensures finalizeNow == q + old(finalizeNow) && Queued(q, old(head[i]), old(mk.marked))
      ensures mk.marked == old(mk.marked) + BasesOf(q) && bytesFinalized == old(bytesFinalized) + Bytes(q)
    {
      hide Shape, CountsOk, TableOk, Dealt, Distinct, InTable, BasesOf;
      ghost var m0 := mk.marked;
      q := [];
      var chain := head[i];
      ghost var kept: seq<Fo> := [];
      ChainDistinct(head, i, hash);
      NothingDealt(chain, m0);
      var rest: seq<Fo> := [];
      var j := 0;
      while j < |chain|
        invariant j <= |chain| && head == old(head) && chain == head[i] && rest == kept
        invariant Shape(mk.V()) && CountsOk(mk.V()) && Dealt(chain, j, kept, q, m0)
        invariant finalizeNow == q + old(finalizeNow) && bytesFinalized == old(bytesFinalized) + Bytes(q)
        invariant mk.marked == m0 + BasesOf(q)
        invariant entries == old(entries) - |q| && |q| <= j
      {
        var f := chain[j];
        EntryExists(head, i, j);
        DealWith(chain, j, kept, q, m0);
        if f.base !in mk.marked {
          mk.SetMarkBit(f.base);
          finalizeNow := [f] + finalizeNow;
          bytesFinalized := bytesFinalized + f.size + FO_BYTES;
          entries := entries - 1;
          q := [f] + q;
        } else {
          rest := rest + [f];
          kept := kept + [f];
        }
        j := j + 1;
      }
      AllDealt(chain, kept, q, m0);
      head := head[i := rest];
    }

    static lemma NothingDealt(c: seq<Fo>, m0: set<Obj>)
      ensures Dealt(c, 0, [], [], m0) && BasesOf([]) == {}
    {
      assert c[..0] == [];
    }

    static lemma AllDealt(c: seq<Fo>, kept: seq<Fo>, q: seq<Fo>, m0: set<Obj>)
      requires Dealt(c, |c|, kept, q, m0)
      ensures kept == Keep(c, m0) && Queued(q, c, m0) && |q| + |kept| == |c|
    {
      assert c[..|c|] == c;
    }

    /** The first i chains have been gone through; q holds the entries that were queued. */
    static ghost predicate QueuedBelow(t: seq<seq<Fo>>, r: seq<seq<Fo>>, i: nat, q: seq<Fo>, m1: set<Obj>, marked: set<Obj>) {
      && |r| == |t| && i <= |t|
      && (forall k: nat | k < |t| :: r[k] == if k < i then Keep(t[k], m1) else t[k])
      && (forall f: Fo :: f in q <==> exists k: nat :: k < i && f in t[k] && f.base !in m1)
      && marked == m1 + BasesOf(q)
    }

    // The objects queued from other chains have other entries: what is unmarked on this chain is what was
    // unmarked before.
    static lemma OtherChains(t: seq<seq<Fo>>, r: seq<seq<Fo>>, i: nat, q: seq<Fo>, m1: set<Obj>, marked: set<Obj>, hash: (Obj, nat) -> nat)
      requires TableOk(t, hash) && QueuedBelow(t, r, i, q, m1, marked) && i < |t|
      ensures forall f: Fo | f in t[i] :: f.base in marked <==> f.base in m1
    {
      forall f: Fo, k | f in t[i] && 0 <= k < |q| ensures q[k].base != f.base {
        var e := q[k];
        var a: nat :| a < i && e in t[a] && e.base !in m1;
        var x: nat :| x < |t[i]| && t[i][x] == f;
        var y: nat :| y < |t[a]| && t[a][y] == e;
      }
    }

    static lemma {:induction false} KeepSame(c: seq<Fo>, a: set<Obj>, b: set<Obj>)
      requires forall f: Fo | f in c :: f.base in a <==> f.base in b
      ensures Keep(c, a) == Keep(c, b)
    {
      if c != [] {
        KeepSame(c[..|c| - 1], a, b);
        assert c[|c| - 1] in c;
      }
    }

    static lemma OneMoreChain(t: seq<seq<Fo>>, r: seq<seq<Fo>>, i: nat, q: seq<Fo>, x: seq<Fo>, m1: set<Obj>, marked: set<Obj>)
      requires QueuedBelow(t, r, i, q, m1, marked) && i < |t| && Queued(x, t[i], marked)
      requires forall f: Fo | f in t[i] :: f.base in marked <==> f.base in m1
      ensures QueuedBelow(t, r[i := Keep(t[i], marked)], i + 1, x + q, m1, marked + BasesOf(x))
    {
      KeepSame(t[i], marked, m1);
      BasesOfJoin(x, q);
      forall f: Fo ensures f in x + q <==> exists k: nat :: k < i + 1 && f in t[k] && f.base !in m1 {
        JoinedIff(t, i, q, x, m1, f);
      }
    }

    static lemma JoinedIff(t: seq<seq<Fo>>, i: nat, q: seq<Fo>, x: seq<Fo>, m1: set<Obj>, f: Fo)
      requires i < |t|
      requires f in q <==> exists k: nat :: k < i && f in t[k] && f.base !in m1
      requires f in x <==> f in t[i] && f.base !in m1
      ensures f in x + q <==> exists k: nat :: k < i + 1 && f in t[k] && f.base !in m1
    {
      if f in q {
        var k: nat :| k < i && f in t[k] && f.base !in m1;
        assert k < i + 1;
      }
      if exists k: nat :: k < i + 1 && f in t[k] && f.base !in m1 {
        var k: nat :| k < i + 1 && f in t[k] && f.base !in m1;
        assert k < i || k == i;
      }
    }

    static lemma BasesOfJoin(x: seq<Fo>, q: seq<Fo>)
      ensures BasesOf(x + q) == BasesOf(x) + BasesOf(q)
    {
      var r := x + q;
      forall b | b in BasesOf(x) + BasesOf(q) ensures b in BasesOf(r) {
        if b in BasesOf(x) {
          var k :| 0 <= k < |x| && x[k].base == b;
          assert r[k].base == b;
        } else {
          var k :| 0 <= k < |q| && q[k].base == b;
          assert r[|x| + k].base == b;
        }
      }
    }

    static lemma KeepOk(t: seq<seq<Fo>>, i: nat, m: set<Obj>, hash: (Obj, nat) -> nat)
      requires TableOk(t, hash) && i < |t|
      ensures TableOk(t[i := Keep(t[i], m)], hash)
      ensures forall f: Fo :: InTable(t[i := Keep(t[i], m)], f) ==> InTable(t, f)
    {
      var c := Keep(t[i], m);
      var r: seq<seq<Fo>> := t[i := c];
      KeepDistinct(t[i], m);
      forall a: nat, b: nat | a < |r| && b < |r[a]| ensures hash(r[a][b].base, |r|) == a {
        assert r[a][b] in t[a];
        var y: nat :| y < |t[a]| && t[a][y] == r[a][b];
      }
      forall f: Fo | InTable(r, f) ensures InTable(t, f) {
        var a: nat :| a < |r| && f in r[a];
        assert f in t[a];
      }
    }

    static lemma {:induction false} KeepDistinct(c: seq<Fo>, m: set<Obj>)
      requires Distinct(c)
      ensures Distinct(Keep(c, m))
    {
      if c != [] {
        var front := c[..|c| - 1];
        KeepDistinct(front, m);
        var k := Keep(front, m);
        forall j | 0 <= j < |k| ensures k[j].base != c[|c| - 1].base {
          assert k[j] in front;
        }
      }
    }

    static lemma CountAtLeast(t: seq<seq<Fo>>, i: nat)
      requires i < |t|
      ensures |t[i]| <= Count(t)
    {
      CountUpdate(t, i, []);
    }

    // The second loop: queue what is still unmarked.
    method QueueUnmarked() returns (ghost q: seq<Fo>)
      requires Valid() && ObjectsExist() && Shape(mk.V()) && CountsOk(mk.V())
      modifies this`head, this`entries, this`finalizeNow, this`bytesFinalized, mk`marked, mk`nMarks
      ensures Valid() && Shape(mk.V()) && CountsOk(mk.V())
      ensures QueuedBelow(old(head), head, |old(head)|, q, old(mk.marked), mk.marked)
      ensures finalizeNow == q + old(finalizeNow) && bytesFinalized == Bytes(q) && entries + |q| == old(entries)
    {
      hide Shape, CountsOk, TableOk, InTable, QueuedBelow, Queued, Keep, BasesOf;
      ghost var t := head;
      ghost var m1 := mk.marked;
      q := [];
      bytesFinalized := 0;
      NoChainYet(t, m1);
      var i := 0;
      while i < |head|
        invariant i <= |head| && |head| == |t| && Valid() && ObjectsExist()
        invariant Shape(mk.V()) && CountsOk(mk.V())
        invariant QueuedBelow(t, head, i, q, m1, mk.marked) && TableOk(t, hash)
        invariant finalizeNow == q + old(finalizeNow) && bytesFinalized == Bytes(q) && entries + |q| == old(entries)
      {
        ghost var q0 := q;
        q := QueueNext(i, t, q, m1);
        BytesOfJoin(q[..|q| - |q0|], q0);
        i := i + 1;
      }
    }

    method QueueNext(i: nat, ghost t: seq<seq<Fo>>, ghost q0: seq<Fo>, ghost m1: set<Obj>) returns (ghost q: seq<Fo>)
      requires Valid() && ObjectsExist() && Shape(mk.V()) && CountsOk(mk.V()) && TableOk(t, hash)
      requires QueuedBelow(t, head, i, q0, m1, mk.marked) && i < |head|
      modifies this`head, this`entries, this`finalizeNow, this`bytesFinalized, mk`marked, mk`nMarks
      ensures Valid() && ObjectsExist() && Shape(mk.V()) && CountsOk(mk.V()) && |head| == old(|head|)
      ensures QueuedBelow(t, head, i + 1, q, m1, mk.marked)
      ensures exists x :: q == x + q0 && finalizeNow == x + old(finalizeNow)
                          && bytesFinalized == old(bytesFinalized) + Bytes(x) && entries + |x| == old(entries)
    {
      hide Shape, CountsOk, TableOk, InTable, Queued, Keep, BasesOf;
      ghost var h0, s0 := head, mk.marked;
      OtherChains(t, head, i, q0, m1, mk.marked, hash);
      KeepOk(head, i, mk.marked, hash);
      CountAtLeast(head, i);
      CountUpdate(head, i, Keep(head[i], mk.marked));
      ghost var x := QueueChain(i);
      OneMoreChain(t, h0, i, q0, x, m1, s0);
      q := x + q0;
    }

    static lemma NoChainYet(t: seq<seq<Fo>>, m1: set<Obj>)
      ensures QueuedBelow(t, t, 0, [], m1, m1)
    {
      assert BasesOf([]) == {};
    }

    // GC_finalize, with ordinary mark procedures only and without Java mode.  `overflowed` are the objects
    // for which the mark stack overflowed while they were marked from; `sizes` are the sizes of the mark stack
    // in the turns of the registered objects.
    method Finalize() returns (aborted: bool, overflowed: set<Obj>, ghost q: seq<Fo>, ghost sizes: seq<nat>)
      requires Valid() && ObjectsExist() && Ready(mk.V()) && Settled(mk.V()) && mk.objectsAreMarked
      modifies this`head, this`entries, this`finalizeNow, this`bytesFinalized, mk
      ensures mk.m == old(mk.m)
      ensures !aborted ==> Valid() && Ready(mk.V()) && Settled(mk.V())
      ensures !aborted ==> TurnsOk(mk.m, old(mk.marked), Order(old(head)), sizes, old(mk.stackSize), overflowed)
      ensures !aborted ==> overflowed <= Unreached(old(head), old(mk.marked))
      ensures !aborted ==> forall b | b in overflowed :: Overfull(mk.m, old(mk.marked), b)
      ensures aborted ==> ManyRoots(mk.m) && exists b :: Overfull(mk.m, old(mk.marked), b)
      ensures !aborted ==> finalizeNow == q + old(finalizeNow) && Remaining(old(head), head, q)
      ensures !aborted ==> bytesFinalized == Bytes(q) && entries + |q| == old(entries)
      ensures !aborted ==> Finalizable(old(head), old(mk.m), old(mk.marked), overflowed, q)
      ensures !aborted ==>
                mk.marked == old(mk.marked) + overflowed + PlusAll(mk.m, Unreached(old(head), old(mk.marked))) + BasesOf(q)
    {
      hide Ready, Settled, PlusAll, InTable, TableOk, Unreached, BasesOf, QueuedBelow, Finalizable, Remaining, Shape, CountsOk, Overfull, ManyRoots, Through, SizesOk, Closed, Order;
      ghost var t, m0 := head, mk.marked;
      SettledClosed(mk.V());
      q := [];
      aborted, overflowed, sizes := MarkFromAll();
      if aborted { return; }
      ghost var v := mk.V();
      ThroughIs(mk.m, m0, Order(t), sizes);
      OrderIsTable(t, m0);
      ReadyShape(v);
      q := QueueUnmarked();
      ghost var w := mk.V();
      QueuedAreFinalizable(t, head, mk.m, m0, overflowed, q, v.marked, mk.marked);
      mk.bound := mk.marked;
      SameMarks2(w, mk.V());
      FinalizeDone(t, v, mk.V(), m0, overflowed, q);
    }

    static lemma ReadyShape(v: View)
      requires Ready(v)
      ensures Shape(v) && CountsOk(v)
    {
      ReadyParts(v);
    }

    /** q holds exactly the registered objects that were unmarked, cannot be reached by one or more pointers
        from any unmarked registered object, and did not overflow the mark stack. */
    static ghost predicate Finalizable(t: seq<seq<Fo>>, m: Memory, m0: set<Obj>, overflowed: set<Obj>, q: seq<Fo>) {
      forall f: Fo :: f in q <==>
        InTable(t, f) && f.base !in m0 && f.base !in overflowed && f.base !in PlusAll(m, Unreached(t, m0))
    }

    static ghost predicate Remaining(t: seq<seq<Fo>>, r: seq<seq<Fo>>, q: seq<Fo>) {
      forall f: Fo :: InTable(r, f) <==> InTable(t, f) && f !in q
    }

    static lemma QueuedAreFinalizable(t: seq<seq<Fo>>, r: seq<seq<Fo>>, m: Memory, m0: set<Obj>, ov: set<Obj>, q: seq<Fo>, m1: set<Obj>, marked: set<Obj>)
      requires QueuedBelow(t, r, |t|, q, m1, marked)
      requires m1 == m0 + ov + PlusAll(m, Unreached(t, m0))
      ensures Finalizable(t, m, m0, ov, q) && Remaining(t, r, q) && marked == m1 + BasesOf(q)
    {
      hide PlusAll, Unreached, BasesOf;
      forall f: Fo ensures InTable(r, f) <==> InTable(t, f) && f.base in m1 {
        if InTable(t, f) && f.base in m1 {
          var i: nat :| i < |t| && f in t[i];
          assert f in r[i];
        }
        if InTable(r, f) {
          var i: nat :| i < |r| && f in r[i];
          assert f in t[i];
        }
      }
    }

    // Everything an enqueued object leads to has been marked, so the marks are closed again.
    static lemma FinalizeDone(t: seq<seq<Fo>>, v: View, w: View, m0: set<Obj>, ov: set<Obj>, q: seq<Fo>)
      requires Ready(v) && Settled(v) && v.objectsAreMarked && CountsOk(w)
      requires w == v.(marked := v.marked + BasesOf(q), nMarks := w.nMarks, bound := v.marked + BasesOf(q))
      requires v.marked == m0 + ov + PlusAll(v.m, Unreached(t, m0)) && Finalizable(t, v.m, m0, ov, q)
      requires forall f: Fo :: InTable(t, f) ==> f.base in v.m.words
      ensures Ready(w) && Settled(w)
    {
      hide Ready, Settled, PlusAll, BasesOf, Shape, CountsOk, InTable, Plus, Succ, Unreached;
      forall b | b in BasesOf(q) ensures b in v.m.words && Succ(v.m, b) <= v.marked {
        QueuedBase(t, m0, q, b);
        SuccInPlusAll(v.m, Unreached(t, m0), b);
      }
      SettledGrows(v, w, BasesOf(q));
    }

    static lemma QueuedBase(t: seq<seq<Fo>>, m0: set<Obj>, q: seq<Fo>, b: Obj)
      requires b in BasesOf(q) && forall f: Fo | f in q :: InTable(t, f) && f.base !in m0
      ensures b in Unreached(t, m0)
      ensures exists f: Fo :: InTable(t, f) && f.base == b
    {
      var k :| 0 <= k < |q| && q[k].base == b;
      var f := q[k];
      assert f in q;
      var i: nat :| i < |t| && f in t[i];
      var j: nat :| j < |t[i]| && t[i][j] == f;
    }

    static lemma SuccInPlusAll(m: Memory, us: set<Obj>, u: Obj)
      requires u in us
      ensures Succ(m, u) <= PlusAll(m, us)
    {
      PlusClosed(m, u);
      hide Plus;
    }
  }

  /** By the rule for finalizers, the one of b has to run: no unmarked registered object leads to b. */
  ghost predicate OughtToRun(t: seq<seq<Fo>>, m: Memory, m0: set<Obj>, b: Obj) {
    b in Unreached(t, m0) && b !in PlusAll(m, Unreached(t, m0))
  }

  /** Marking from some object whose finalizer ought to run overflows the mark stack in its turn. */
  ghost predicate OverflowsInTurn(t: seq<seq<Fo>>, m: Memory, m0: set<Obj>, sizes: seq<nat>, k: nat)
    requires |Order(t)| == |sizes| && k < |sizes|
  {
    Draining.Overflows(m, Through(m, m0, Order(t)[..k], sizes[..k]).marked, sizes[k], Order(t)[k])
  }

  // The rule is kept if and only if none of the objects whose finalizers ought to run overflows the mark
  // stack in its turn.
  lemma RuleKeptIff(t: seq<seq<Fo>>, m: Memory, m0: set<Obj>, sizes: seq<nat>, size0: nat, ov: set<Obj>, q: seq<Fo>)
    requires Closed(m, m0) && TurnsOk(m, m0, Order(t), sizes, size0, ov) && Finalizer.Finalizable(t, m, m0, ov, q)
    ensures Finalizer.Finalizable(t, m, m0, {}, q) <==>
            forall k: nat | k < |sizes| && OughtToRun(t, m, m0, Order(t)[k]) :: !OverflowsInTurn(t, m, m0, sizes, k)
  {
    hide PlusAll, Unreached, Through, SizesOk, Closed, Order, Draining.Overflows, Finalizer.Finalizable;
    ThroughIs(m, m0, Order(t), sizes);
    OrderIsTable(t, m0);
    HeldBackIff(t, m, m0, ov, q);
    forall k: nat | k < |sizes| && OughtToRun(t, m, m0, Order(t)[k])
      ensures OverflowsInTurn(t, m, m0, sizes, k) ==> Order(t)[k] in ov
    {
      NotMarkedBefore(t, m, m0, sizes, k);
      if OverflowsInTurn(t, m, m0, sizes, k) {
        TurnShows(m, m0, Order(t), sizes, k);
      }
    }
    forall b | b in ov && OughtToRun(t, m, m0, b)
      ensures exists k: nat :: k < |sizes| && Order(t)[k] == b && OverflowsInTurn(t, m, m0, sizes, k)
    {
      var k := TurnOf(m, m0, Order(t), sizes, b);
      assert OverflowsInTurn(t, m, m0, sizes, k);
    }
  }

  lemma HeldBackIff(t: seq<seq<Fo>>, m: Memory, m0: set<Obj>, ov: set<Obj>, q: seq<Fo>)
    requires Finalizer.Finalizable(t, m, m0, ov, q) && ov <= Unreached(t, m0)
    ensures Finalizer.Finalizable(t, m, m0, {}, q) <==> forall b | b in ov :: !OughtToRun(t, m, m0, b)
  {
    hide PlusAll, Unreached, InTable;
    if Finalizer.Finalizable(t, m, m0, {}, q) {
      forall b | b in ov ensures !OughtToRun(t, m, m0, b) {
        UnreachedIff(t, m0, b);
        var f: Fo :| InTable(t, f) && f.base == b;
        assert f !in q;
      }
    }
    forall f: Fo | f.base in ov && !OughtToRun(t, m, m0, f.base) ensures f.base in PlusAll(m, Unreached(t, m0)) {
    }
  }

  // What an unmarked registered object does not lead to, and what has not overflowed, is not marked.
  lemma NotMarkedBefore(t: seq<seq<Fo>>, m: Memory, m0: set<Obj>, sizes: seq<nat>, k: nat)
    requires Closed(m, m0) && |Order(t)| == |sizes| && k < |sizes| && OughtToRun(t, m, m0, Order(t)[k])
    ensures var d := Through(m, m0, Order(t)[..k], sizes[..k]); Order(t)[k] in d.marked ==> Order(t)[k] in d.overflowed
  {
    hide PlusAll, Unreached, Through, Closed, Order;
    var met := Order(t)[..k];
    ThroughIs(m, m0, met, sizes[..k]);
    OrderIsTable(t, m0);
    UnreachedIff(t, m0, Order(t)[k]);
    assert Members(met) - m0 <= Unreached(t, m0) by {
      assert Members(met) <= Members(Order(t));
    }
    PlusAllMore(m, Members(met) - m0, Unreached(t, m0));
  }

  lemma PlusAllMore(m: Memory, us: set<Obj>, vs: set<Obj>)
    requires us <= vs
    ensures PlusAll(m, us) <= PlusAll(m, vs)
  {
    hide Plus;
  }

  // What has overflowed stays recorded.
  lemma {:induction false} RecordStays(m: Memory, m0: set<Obj>, met: seq<Obj>, sizes: seq<nat>, k: nat)
    requires |met| == |sizes| && k <= |met|
    ensures Through(m, m0, met[..k], sizes[..k]).overflowed <= Through(m, m0, met, sizes).overflowed
    decreases |met|
  {
    hide Plus, Draining.Overflows;
    if k == |met| {
      assert met[..k] == met && sizes[..k] == sizes;
    } else {
      RecordStays(m, m0, met[..|met| - 1], sizes[..|met| - 1], k);
      assert met[..|met| - 1][..k] == met[..k] && sizes[..|met| - 1][..k] == sizes[..k];
    }
  }

  lemma TurnShows(m: Memory, m0: set<Obj>, met: seq<Obj>, sizes: seq<nat>, k: nat)
    requires |met| == |sizes| && k < |met|
    requires var d := Through(m, m0, met[..k], sizes[..k]); met[k] in d.marked ==> met[k] in d.overflowed
    requires Draining.Overflows(m, Through(m, m0, met[..k], sizes[..k]).marked, sizes[k], met[k])
    ensures met[k] in Through(m, m0, met, sizes).overflowed
  {
    hide Plus, Draining.Overflows, Through;
    RecordStays(m, m0, met, sizes, k);
    RecordStays(m, m0, met, sizes, k + 1);
    ThroughNext(m, m0, met[..k], sizes[..k], met[k], sizes[k]);
    assert met[..k + 1] == met[..k] + [met[k]] && sizes[..k + 1] == sizes[..k] + [sizes[k]];
  }

  // The turn in which b overflowed the stack.
  lemma {:induction false} TurnOf(m: Memory, m0: set<Obj>, met: seq<Obj>, sizes: seq<nat>, b: Obj) returns (k: nat)
    requires |met| == |sizes| && b in Through(m, m0, met, sizes).overflowed
    ensures k < |met| && met[k] == b && Draining.Overflows(m, Through(m, m0, met[..k], sizes[..k]).marked, sizes[k], b)
    decreases |met|
  {
    hide Plus, Draining.Overflows;
    var n := |met| - 1;
    if b in Through(m, m0, met[..n], sizes[..n]).overflowed {
      k := TurnOf(m, m0, met[..n], sizes[..n], b);
      assert met[..n][..k] == met[..k] && sizes[..n][..k] == sizes[..k];
    } else {
      k := n;
    }
  }

  // Whether any turn overflows the stack can be told beforehand, from the size that it has at the start.
  lemma NoOverflowIff(m: Memory, m0: set<Obj>, met: seq<Obj>, sizes: seq<nat>, size0: nat, ov: set<Obj>)
    requires TurnsOk(m, m0, met, sizes, size0, ov)
    ensures ov == {} <==> Through(m, m0, met, seq(|met|, _ => size0)).overflowed == {}
  {
    hide Through;
    SameUntilOverflow(m, m0, met, sizes, size0);
  }

  lemma {:induction false} SameUntilOverflow(m: Memory, m0: set<Obj>, met: seq<Obj>, sizes: seq<nat>, size0: nat)
    requires |met| == |sizes| && SizesOk(m, m0, met, sizes, size0)
    ensures var d, c := Through(m, m0, met, sizes), Through(m, m0, met, seq(|met|, _ => size0));
            d == c || (d.overflowed != {} && c.overflowed != {})
    decreases |met|
  {
    hide Plus, Draining.Overflows;
    var all := seq(|met|, _ => size0);
    if met == [] {
      assert sizes == all;
    } else {
      var n := |met| - 1;
      assert all[..n] == seq(n, _ => size0);
      forall k: nat | k < n ensures SizeOk(Through(m, m0, met[..n][..k], sizes[..n][..k]).overflowed, size0, sizes[..n][k]) {
        assert met[..n][..k] == met[..k] && sizes[..n][..k] == sizes[..k];
      }
      SameUntilOverflow(m, m0, met[..n], sizes[..n], size0);
      assert SizeOk(Through(m, m0, met[..n], sizes[..n]).overflowed, size0, sizes[n]);
    }
  }

  // If the first turn that overflows the stack, as large as it is at the start, is that of an object whose
  // finalizer ought to run, the rule is broken, whether memory for a larger stack can be had later or not.
  lemma FirstOverflowBreaks(t: seq<seq<Fo>>, m: Memory, m0: set<Obj>, sizes: seq<nat>, size0: nat, ov: set<Obj>, q: seq<Fo>, k: nat)
    requires Closed(m, m0) && TurnsOk(m, m0, Order(t), sizes, size0, ov) && Finalizer.Finalizable(t, m, m0, ov, q)
    requires k < |sizes| && OughtToRun(t, m, m0, Order(t)[k])
    requires var d := Through(m, m0, Order(t)[..k], seq(k, _ => size0));
             d.overflowed == {} && Draining.Overflows(m, d.marked, size0, Order(t)[k])
    ensures !Finalizer.Finalizable(t, m, m0, {}, q)
  {
    hide Through, PlusAll, Unreached, Closed, Order, Draining.Overflows, Finalizer.Finalizable;
    forall j: nat | j < k ensures SizeOk(Through(m, m0, Order(t)[..k][..j], sizes[..k][..j]).overflowed, size0, sizes[..k][j]) {
      assert Order(t)[..k][..j] == Order(t)[..j] && sizes[..k][..j] == sizes[..j];
    }
    SameUntilOverflow(m, m0, Order(t)[..k], sizes[..k], size0);
    assert SizeOk(Through(m, m0, Order(t)[..k], sizes[..k]).overflowed, size0, sizes[k]);
    RuleKeptIff(t, m, m0, sizes, size0, ov, q);
    assert OverflowsInTurn(t, m, m0, sizes, k);
  }

  // The rule is kept if so few unmarked objects can be reached from each unmarked registered object that even
  // the smallest mark stack could hold them all.
  lemma RuleKeptIfSmall(t: seq<seq<Fo>>, m: Memory, m0: set<Obj>, ov: set<Obj>, q: seq<Fo>)
    requires Finalizer.Finalizable(t, m, m0, ov, q) && ov <= Unreached(t, m0)
    requires forall b | b in ov :: Overfull(m, m0, b)
    requires forall b | b in Unreached(t, m0) :: !Overfull(m, m0, b)
    ensures Finalizer.Finalizable(t, m, m0, {}, q)
  {
    hide PlusAll, Unreached, InTable, Overfull;
    assert forall b | b in ov :: b in Unreached(t, m0) && !Overfull(m, m0, b);
    assert ov == {};
  }

  // Without an overflow: an object is enqueued exactly if it was registered and unmarked and no
  // unmarked registered object leads to it, and this does not depend on the order of the table.
  lemma OrderIndependent(t1: seq<seq<Fo>>, t2: seq<seq<Fo>>, m: Memory, m0: set<Obj>, q1: seq<Fo>, q2: seq<Fo>)
    requires forall f: Fo :: InTable(t1, f) <==> InTable(t2, f)
    requires Finalizer.Finalizable(t1, m, m0, {}, q1) && Finalizer.Finalizable(t2, m, m0, {}, q2)
    ensures forall f: Fo :: f in q1 <==> f in q2
  {
    hide PlusAll;
    SameUnreached(t1, t2, m0);
    hide InTable, Unreached;
  }

  lemma SameUnreached(t1: seq<seq<Fo>>, t2: seq<seq<Fo>>, m0: set<Obj>)
    requires forall f: Fo :: InTable(t1, f) <==> InTable(t2, f)
    ensures Unreached(t1, m0) == Unreached(t2, m0)
  {
    forall b ensures b in Unreached(t1, m0) <==> b in Unreached(t2, m0) {
      UnreachedIff(t1, m0, b);
      UnreachedIff(t2, m0, b);
    }
  }

  lemma UnreachedIff(t: seq<seq<Fo>>, m0: set<Obj>, b: Obj)
    ensures b in Unreached(t, m0) <==> b !in m0 && exists f: Fo :: InTable(t, f) && f.base == b
  {
    if b in Unreached(t, m0) {
      var i: nat, j: nat :| i < |t| && j < |t[i]| && t[i][j].base == b;
      assert t[i][j] in t[i];
      assert InTable(t, t[i][j]);
    }
    if b !in m0 && exists f: Fo :: InTable(t, f) && f.base == b {
      var f: Fo :| InTable(t, f) && f.base == b;
      var i: nat :| i < |t| && f in t[i];
      var j: nat :| j < |t[i]| && t[i][j] == f;
    }
  }
}
