// What the block operations do to the flat list of blocks that the header map describes.

module HeapTiling {
  import opened Config
  import opened HeaderMap

  /** A set of consecutive block numbers. */
  function Pages(h: nat, n: nat): (r: set<nat>)
    ensures forall p: nat :: p in r <==> h <= p < h + n
    ensures |r| == n
    decreases n
  {
    if n == 0 then {} else Pages(h, n - 1) + {h + n - 1}
  }

  /** No block reaches into the n pages from h on. */
  ghost predicate Unused(e: Entries, h: nat, n: nat) {
    (forall p: nat :: h <= p < h + n ==> p !in e) && forall a: nat :: IsHdr(e, a) && a < h ==> End(e, a) <= h
  }

  // ----- operations on the map

  /** A used block becomes one free block. */
  function Released(e: Entries, h: nat): Entries
    requires IsUsed(e, h) && Len(e, h) > 0
  {
    WithoutCounts(e, h, End(e, h))[h := Header(Len(e, h) * HBLKSIZE, true)]
  }

  /** The free block at a takes over the block that follows it. */
  function Merged(e: Entries, a: nat, b: nat): Entries
    requires IsHdr(e, a) && IsHdr(e, b)
  {
    (e - {b})[a := Header(e[a].sz + e[b].sz, true)]
  }

  /** A free block is cut in two after n pages. */
  function Cut(e: Entries, a: nat, n: nat): Entries
    requires IsHdr(e, a) && n * HBLKSIZE < e[a].sz
  {
    e[a := Header(n * HBLKSIZE, true)][a + n := Header(e[a].sz - n * HBLKSIZE, true)]
  }

  /** A free block is put to use for objects of sz bytes. */
  function Taken(e: Entries, a: nat, sz: nat): Entries
    requires sz > 0
  {
    WithCounts(e, a, a + Blocks(sz))[a := Header(sz, false)]
  }

  lemma LenFacts(e: Entries, a: nat)
    requires Tiles(e) && IsHdr(e, a)
    ensures Len(e, a) > 0 && 2 <= a && End(e, a) <= TOP && e[a].sz % GRANULE_BYTES == 0
    ensures e[a].free ==> e[a].sz == Len(e, a) * HBLKSIZE
  {
    assert SizeOk(e, a);
  }

  lemma FreeInterior(e: Entries, a: nat, q: nat)
    requires Tiles(e) && CountsOnly(e) && IsFree(e, a) && a < q < End(e, a)
    ensures q !in e
  {
    assert !IsHdr(e, q);
    if q in e {
      var c: nat :| IsUsed(e, c) && c < q < End(e, c) && Forwards(e, c, q);
      assert false;
    }
  }

  lemma ExactParts(e: Entries, skip: nat)
    requires Exact(e, skip)
    ensures Tiles(e) && CountsIn(e, skip) && CountsOnly(e)
  {
  }

  // ----- releasing

  lemma ReleasedEnds(e: Entries, h: nat)
    requires Exact(e, h) && IsUsed(e, h)
    ensures Len(e, h) > 0
    ensures var e' := Released(e, h);
            && End(e', h) == End(e, h) && IsFree(e', h)
            && (forall a: nat :: IsHdr(e', a) <==> IsHdr(e, a))
            && (forall a: nat :: IsHdr(e, a) && a != h ==> e'[a] == e[a])
  {
    LenFacts(e, h);
    var e' := Released(e, h);
    forall a: nat | IsHdr(e, a) ensures a in e' && (a != h ==> e'[a] == e[a]) {
      assert h < a ==> End(e, h) <= a;
    }
  }

  lemma ReleasedExact(e: Entries, h: nat)
    requires Exact(e, h) && IsUsed(e, h)
    ensures Len(e, h) > 0 && Exact(Released(e, h), 0)
  {
    LenFacts(e, h);
    ReleasedEnds(e, h);
    var e' := Released(e, h);
    hide Released;
    forall a: nat ensures SizeOk(e', a) {
      assert SizeOk(e, a);
    }
    assert forall a: nat | IsHdr(e, a) :: End(e', a) == End(e, a);
    assert Tiles(e');
    ReleasedCounts(e, h);
  }

  lemma ReleasedCounts(e: Entries, h: nat)
    requires Exact(e, h) && IsUsed(e, h) && Len(e, h) > 0
    ensures CountsIn(Released(e, h), 0) && CountsOnly(Released(e, h))
  {
    ReleasedEnds(e, h);
    var e' := Released(e, h);
    forall a: nat, p: nat | IsUsed(e', a) && a < p < End(e', a) ensures Forwards(e', a, p) {
      assert a != h && Forwards(e, a, p);
      assert a < h ==> End(e, a) <= h;
      assert h < a ==> End(e, h) <= a;
    }
    forall p: nat | p in e' && e'[p].Forward? ensures exists a: nat :: IsUsed(e', a) && a < p < End(e', a) && Forwards(e', a, p) {
      assert p in e && e[p] == e'[p];
      var a: nat :| IsUsed(e, a) && a < p < End(e, a) && Forwards(e, a, p);
      assert a != h;
      assert IsUsed(e', a) && End(e', a) == End(e, a) && Forwards(e', a, p);
    }
  }

  lemma ReleasedCovers(e: Entries, h: nat, heap: set<nat>)
    requires Exact(e, h) && IsUsed(e, h) && Len(e, h) > 0 && Covers(e, heap)
    ensures Covers(Released(e, h), heap)
  {
    ReleasedEnds(e, h);
    var e' := Released(e, h);
    hide Released;
    assert forall a: nat, p: nat :: Within(e, a, p) <==> Within(e', a, p);
  }

  lemma ReleasedAdjacent(e: Entries, h: nat)
    requires Exact(e, h) && IsUsed(e, h) && Len(e, h) > 0 && NoAdjacent(e, 0)
    ensures NoAdjacent(Released(e, h), h)
  {
    ReleasedEnds(e, h);
    var e' := Released(e, h);
    hide Released;
    forall a: nat | IsFree(e', a) && a != h && End(e', a) != h ensures !IsFree(e', End(e', a)) {
      assert IsFree(e, a) && End(e, a) == End(e', a);
      LenFacts(e, a);
    }
  }

  // ----- adding memory

  lemma AddedExact(e: Entries, h: nat, n: nat)
    requires Exact(e, 0) && Unused(e, h, n) && n > 0 && 2 <= h && h + n <= TOP
    ensures Exact(e[h := Header(n * HBLKSIZE, false)], h)
  {
    var e' := e[h := Header(n * HBLKSIZE, false)];
    assert End(e', h) == h + n;
    forall a: nat ensures SizeOk(e', a) {
      assert SizeOk(e, a);
    }
    assert forall a: nat | a != h :: IsHdr(e', a) == IsHdr(e, a) && End(e', a) == End(e, a);
    assert Tiles(e');
    forall a: nat, p: nat | IsUsed(e', a) && a != h && a < p < End(e', a) ensures Forwards(e', a, p) {
      LenFacts(e, a);
      assert Forwards(e, a, p);
    }
    forall p: nat | p in e' && e'[p].Forward? ensures exists a: nat :: IsUsed(e', a) && a < p < End(e', a) && Forwards(e', a, p) {
      var a: nat :| IsUsed(e, a) && a < p < End(e, a) && Forwards(e, a, p);
      assert IsUsed(e', a) && End(e', a) == End(e, a) && Forwards(e', a, p);
    }
  }

  lemma AddedAdjacent(e: Entries, h: nat, n: nat)
    requires Exact(e, 0) && NoAdjacent(e, 0)
    ensures NoAdjacent(e[h := Header(n * HBLKSIZE, false)], 0)
  {
    var e' := e[h := Header(n * HBLKSIZE, false)];
    forall a: nat | IsFree(e', a) && End(e', a) != 0 ensures !IsFree(e', End(e', a)) {
      assert IsFree(e, a);
      LenFacts(e, a);
    }
  }

  lemma AddedCovers(e: Entries, h: nat, n: nat, heap: set<nat>)
    requires Covers(e, heap) && Unused(e, h, n) && n > 0
    ensures var e' := e[h := Header(n * HBLKSIZE, false)]; Covers(e', heap + Pages(h, n))
  {
    hide Covers, Within, Unused, Pages;
    var e' := e[h := Header(n * HBLKSIZE, false)];
    forall a: nat, p: nat ensures Within(e', a, p) <==> (a == h && h <= p < h + n) || Within(e, a, p) {
      AddedWithin(e, h, n, a, p);
    }
    CoversMore(e, e', h, n, heap);
  }

  lemma CoversMore(e: Entries, e': Entries, h: nat, n: nat, heap: set<nat>)
    requires Covers(e, heap) && forall a: nat, p: nat :: Within(e', a, p) <==> (a == h && h <= p < h + n) || Within(e, a, p)
    ensures Covers(e', heap + Pages(h, n))
  {
    hide Within, Pages;
    forall p: nat | p in heap + Pages(h, n) ensures exists a: nat :: Within(e', a, p) {
      if p in heap {
        var a: nat :| Within(e, a, p);
        assert Within(e', a, p);
      } else {
        assert Within(e', h, p);
      }
    }
  }

  lemma AddedWithin(e: Entries, h: nat, n: nat, a: nat, p: nat)
    requires Unused(e, h, n) && n > 0
    ensures var e' := e[h := Header(n * HBLKSIZE, false)]; Within(e', a, p) <==> (a == h && h <= p < h + n) || Within(e, a, p)
  {
  }

  // ----- merging

  lemma MergedEnds(e: Entries, a: nat, b: nat)
    requires Exact(e, 0) && IsFree(e, a) && IsFree(e, b) && End(e, a) == b
    ensures var e' := Merged(e, a, b);
            && a < b && End(e', a) == End(e, b) && IsFree(e', a) && b !in e'
            && (forall c: nat :: IsHdr(e', c) <==> IsHdr(e, c) && c != b)
            && (forall c: nat :: c in e && c != a && c != b ==> c in e' && e'[c] == e[c])
            && (forall c: nat :: c in e' ==> c in e)
  {
    LenFacts(e, a);
    LenFacts(e, b);
  }

  lemma MergedExact(e: Entries, a: nat, b: nat)
    requires Exact(e, 0) && IsFree(e, a) && IsFree(e, b) && End(e, a) == b
    ensures Exact(Merged(e, a, b), 0)
  {
    hide Exact;
    MergedTiles(e, a, b);
    MergedCounts(e, a, b);
    ExactFrom(Merged(e, a, b));
  }

  lemma ExactFrom(e: Entries)
    requires Tiles(e) && CountsIn(e, 0) && CountsOnly(e)
    ensures Exact(e, 0)
  {
  }

  lemma MergedTiles(e: Entries, a: nat, b: nat)
    requires Exact(e, 0) && IsFree(e, a) && IsFree(e, b) && End(e, a) == b
    ensures Tiles(Merged(e, a, b))
  {
    MergedSizesOk(e, a, b);
    MergedApart(e, a, b);
  }

  lemma MergedSizesOk(e: Entries, a: nat, b: nat)
    requires Exact(e, 0) && IsFree(e, a) && IsFree(e, b) && End(e, a) == b
    ensures forall c: nat :: SizeOk(Merged(e, a, b), c)
  {
    SizeFact(e, a);
    SizeFact(e, b);
    hide Exact, Merged, SizeOk;
    forall c: nat ensures SizeOk(Merged(e, a, b), c) {
      SizeFact(e, c);
      MergedSizeOk(e, a, b, c);
    }
  }

  lemma MergedSizeOk(e: Entries, a: nat, b: nat, c: nat)
    requires SizeOk(e, a) && SizeOk(e, b) && SizeOk(e, c) && IsFree(e, a) && IsFree(e, b) && End(e, a) == b
    ensures SizeOk(Merged(e, a, b), c)
  {
    FreeSize(e, a);
    FreeSize(e, b);
    PageSize(Len(e, a) + Len(e, b));
    hide Blocks;
    assert e[a].sz + e[b].sz == (Len(e, a) + Len(e, b)) * HBLKSIZE;
  }

  lemma MergedApart(e: Entries, a: nat, b: nat)
    requires Exact(e, 0) && IsFree(e, a) && IsFree(e, b) && End(e, a) == b
    ensures var e' := Merged(e, a, b); forall c: nat, d: nat :: IsHdr(e', c) && IsHdr(e', d) && c < d ==> End(e', c) <= d
  {
    MergedEnds(e, a, b);
    ExactParts(e, 0);
    var e' := Merged(e, a, b);
    hide Exact, Merged, CountsIn, CountsOnly;
    forall c: nat, d: nat | IsHdr(e', c) && IsHdr(e', d) && c < d ensures End(e', c) <= d {
      Apart(e, c, d);
      Apart(e, b, d);
      assert c != a ==> End(e', c) == End(e, c);
    }
  }

  lemma MergedCounts(e: Entries, a: nat, b: nat)
    requires Exact(e, 0) && IsFree(e, a) && IsFree(e, b) && End(e, a) == b
    ensures CountsIn(Merged(e, a, b), 0) && CountsOnly(Merged(e, a, b))
  {
    MergedEnds(e, a, b);
    var e' := Merged(e, a, b);
    assert forall c: nat | IsHdr(e', c) && c != a :: End(e', c) == End(e, c);
    hide Merged, Blocks, Len;
    forall c: nat, p: nat | IsUsed(e', c) && c < p < End(e', c) ensures Forwards(e', c, p) {
      LenFacts(e, c);
      assert Forwards(e, c, p);
      assert p != a && p != b;
    }
    forall p: nat | p in e' && e'[p].Forward? ensures exists c: nat :: IsUsed(e', c) && c < p < End(e', c) && Forwards(e', c, p) {
      var c: nat :| IsUsed(e, c) && c < p < End(e, c) && Forwards(e, c, p);
      assert IsUsed(e', c) && End(e', c) == End(e, c) && Forwards(e', c, p);
    }
  }

  lemma MergedCovers(e: Entries, a: nat, b: nat, heap: set<nat>)
    requires Exact(e, 0) && IsFree(e, a) && IsFree(e, b) && End(e, a) == b && Covers(e, heap)
    ensures Covers(Merged(e, a, b), heap)
  {
    MergedEnds(e, a, b);
    var e' := Merged(e, a, b);
    hide Merged;
    forall c: nat, p: nat | Within(e', c, p) ensures p in heap {
      assert c != a ==> Within(e, c, p);
      assert c == a ==> Within(e, a, p) || Within(e, b, p);
    }
    forall p: nat | p in heap ensures exists c: nat :: Within(e', c, p) {
      var c: nat :| Within(e, c, p);
      LenFacts(e, b);
      assert Within(e', if c == b then a else c, p);
    }
  }

  // Merging the block at h, which may still have free neighbours, with the one that follows it.
  lemma MergedNext(e: Entries, h: nat, b: nat)
    requires Exact(e, 0) && IsFree(e, h) && IsFree(e, b) && End(e, h) == b && NoAdjacent(e, h)
    ensures var e' := Merged(e, h, b); NoAdjacent(e', h) && !IsFree(e', End(e', h))
  {
    MergedEnds(e, h, b);
    var e' := Merged(e, h, b);
    hide Merged;
    LenFacts(e, b);
    assert !IsFree(e, End(e, b));
    forall c: nat | IsFree(e', c) && c != h && End(e', c) != h ensures !IsFree(e', End(e', c)) {
      assert IsFree(e, c) && End(e', c) == End(e, c);
    }
  }

  // ... and with the one that ends at h.
  lemma MergedPrev(e: Entries, a: nat, h: nat)
    requires Exact(e, 0) && IsFree(e, a) && IsFree(e, h) && End(e, a) == h && NoAdjacent(e, h) && !IsFree(e, End(e, h))
    ensures NoAdjacent(Merged(e, a, h), 0)
  {
    MergedEnds(e, a, h);
    var e' := Merged(e, a, h);
    hide Merged;
    LenFacts(e, h);
    LenFacts(e, a);
    forall c: nat | IsFree(e', c) ensures !IsFree(e', End(e', c)) {
      if c != a {
        assert IsFree(e, c) && End(e', c) == End(e, c);
        assert c < h ==> End(e, c) <= a || a < c;
        assert End(e, c) == h ==> c < h;
        LenFacts(e, c);
        assert a < c && c < h ==> End(e, a) <= c;
      }
    }
  }

  lemma AllApart(e: Entries, h: nat)
    requires NoAdjacent(e, h) && !IsFree(e, End(e, h)) && forall b: nat :: IsFree(e, b) ==> End(e, b) != h
    ensures NoAdjacent(e, 0)
  {
  }

  // ----- cutting

  lemma CutEnds(e: Entries, a: nat, n: nat)
    requires Exact(e, 0) && IsFree(e, a) && 0 < n < Len(e, a)
    ensures n * HBLKSIZE < e[a].sz
    ensures var e' := Cut(e, a, n);
            && End(e', a) == a + n && End(e', a + n) == End(e, a) && IsFree(e', a) && IsFree(e', a + n) && a + n !in e
            && (forall c: nat :: IsHdr(e', c) <==> IsHdr(e, c) || c == a + n)
            && (forall c: nat :: c in e && c != a ==> c in e' && e'[c] == e[c])
            && (forall c: nat :: c in e' ==> c in e || c == a + n)
  {
    LenFacts(e, a);
    var q := a + n;
    FreeInterior(e, a, q);
  }

  lemma CutExact(e: Entries, a: nat, n: nat)
    requires Exact(e, 0) && IsFree(e, a) && 0 < n < Len(e, a)
    ensures n * HBLKSIZE < e[a].sz && Exact(Cut(e, a, n), 0)
  {
    hide Exact;
    CutTiles(e, a, n);
    CutCounts(e, a, n);
    ExactFrom(Cut(e, a, n));
  }

  lemma CutTiles(e: Entries, a: nat, n: nat)
    requires Exact(e, 0) && IsFree(e, a) && 0 < n < Len(e, a)
    ensures n * HBLKSIZE < e[a].sz && Tiles(Cut(e, a, n))
  {
    CutSizesOk(e, a, n);
    CutApart(e, a, n);
  }

  lemma CutSizesOk(e: Entries, a: nat, n: nat)
    requires Exact(e, 0) && IsFree(e, a) && 0 < n < Len(e, a)
    ensures n * HBLKSIZE < e[a].sz && forall c: nat :: SizeOk(Cut(e, a, n), c)
  {
    SizeFact(e, a);
    hide Exact, Cut, SizeOk;
    forall c: nat ensures n * HBLKSIZE < e[a].sz && SizeOk(Cut(e, a, n), c) {
      SizeFact(e, c);
      CutSizeOk(e, a, n, c);
    }
  }

  lemma SizeFact(e: Entries, c: nat)
    requires Exact(e, 0)
    ensures SizeOk(e, c)
  {
  }

  // Sizes that are whole numbers of pages.
  lemma PageSize(k: nat)
    ensures Blocks(k * HBLKSIZE) == k && k * HBLKSIZE % HBLKSIZE == 0 && k * HBLKSIZE % GRANULE_BYTES == 0
  {
  }

  lemma FreeSize(e: Entries, a: nat)
    requires SizeOk(e, a) && IsFree(e, a)
    ensures e[a].sz == Len(e, a) * HBLKSIZE && Len(e, a) > 0 && 2 <= a && a + Len(e, a) <= TOP
  {
  }

  lemma CutSizeOk(e: Entries, a: nat, n: nat, c: nat)
    requires SizeOk(e, a) && SizeOk(e, c) && IsFree(e, a) && 0 < n < Len(e, a)
    ensures n * HBLKSIZE < e[a].sz && SizeOk(Cut(e, a, n), c)
  {
    FreeSize(e, a);
    PageSize(n);
    PageSize(Len(e, a) - n);
    hide Blocks;
    assert e[a].sz - n * HBLKSIZE == (Len(e, a) - n) * HBLKSIZE;
  }

  lemma CutApart(e: Entries, a: nat, n: nat)
    requires Exact(e, 0) && IsFree(e, a) && 0 < n < Len(e, a) && n * HBLKSIZE < e[a].sz
    ensures var e' := Cut(e, a, n); forall c: nat, d: nat :: IsHdr(e', c) && IsHdr(e', d) && c < d ==> End(e', c) <= d
  {
    CutEnds(e, a, n);
    ExactParts(e, 0);
    var e' := Cut(e, a, n);
    hide Exact, Cut, CountsIn, CountsOnly;
    forall c: nat, d: nat | IsHdr(e', c) && IsHdr(e', d) && c < d ensures End(e', c) <= d {
      Apart(e, c, d);
      Apart(e, a, d);
      Apart(e, c, a);
      Apart(e, a, c);
      assert c != a && c != a + n ==> End(e', c) == End(e, c);
    }
  }

  lemma Apart(e: Entries, c: nat, d: nat)
    requires Tiles(e)
    ensures IsHdr(e, c) && IsHdr(e, d) && c < d ==> End(e, c) <= d
  {
  }

  lemma CutCounts(e: Entries, a: nat, n: nat)
    requires Exact(e, 0) && IsFree(e, a) && 0 < n < Len(e, a) && n * HBLKSIZE < e[a].sz
    ensures CountsIn(Cut(e, a, n), 0) && CountsOnly(Cut(e, a, n))
  {
    CutEnds(e, a, n);
    var e' := Cut(e, a, n);
    assert forall c: nat | IsHdr(e, c) && c != a :: End(e', c) == End(e, c);
    hide Cut, Blocks, Len;
    forall c: nat, p: nat | IsUsed(e', c) && c < p < End(e', c) ensures Forwards(e', c, p) {
      LenFacts(e, c);
      assert Forwards(e, c, p);
    }
    forall p: nat | p in e' && e'[p].Forward? ensures exists c: nat :: IsUsed(e', c) && c < p < End(e', c) && Forwards(e', c, p) {
      var c: nat :| IsUsed(e, c) && c < p < End(e, c) && Forwards(e, c, p);
      assert IsUsed(e', c) && End(e', c) == End(e, c) && Forwards(e', c, p);
    }
  }

  lemma CutCovers(e: Entries, a: nat, n: nat, heap: set<nat>)
    requires Exact(e, 0) && IsFree(e, a) && 0 < n < Len(e, a) && Covers(e, heap) && n * HBLKSIZE < e[a].sz
    ensures Covers(Cut(e, a, n), heap)
  {
    CutEnds(e, a, n);
    var e' := Cut(e, a, n);
    hide Cut;
    forall c: nat, p: nat | Within(e', c, p) ensures p in heap {
      assert Within(e, if c == a + n then a else c, p);
    }
    forall p: nat | p in heap ensures exists c: nat :: Within(e', c, p) {
      var c: nat :| Within(e, c, p);
      assert Within(e', if c == a && a + n <= p then a + n else c, p);
    }
  }

  // Of the two parts, the second is about to be taken.
  lemma CutAdjacent(e: Entries, a: nat, n: nat)
    requires Exact(e, 0) && IsFree(e, a) && 0 < n < Len(e, a) && NoAdjacent(e, 0) && n * HBLKSIZE < e[a].sz
    ensures NoAdjacent(Cut(e, a, n), a + n) && !IsFree(Cut(e, a, n), End(e, a))
  {
    CutEnds(e, a, n);
    LenFacts(e, a);
    var e' := Cut(e, a, n);
    hide Cut;
    assert !IsFree(e, End(e, a));
    forall c: nat | IsFree(e', c) && c != a + n && End(e', c) != a + n ensures !IsFree(e', End(e', c)) {
      assert IsFree(e, c) && c != a && End(e', c) == End(e, c);
      LenFacts(e, c);
    }
  }

  // ----- taking

  lemma TakenEnds(e: Entries, a: nat, sz: nat)
    requires Exact(e, 0) && IsFree(e, a) && sz > 0 && Blocks(sz) == Len(e, a)
    ensures var e' := Taken(e, a, sz);
            && End(e', a) == End(e, a) && IsUsed(e', a)
            && (forall c: nat :: IsHdr(e', c) <==> IsHdr(e, c))
            && (forall c: nat :: c in e && c != a ==> c in e' && e'[c] == e[c])
            && (forall c: nat :: c in e' ==> c in e || a < c < End(e, a))
  {
    LenFacts(e, a);
    forall c: nat | a < c < End(e, a) ensures c !in e {
      FreeInterior(e, a, c);
    }
  }

  lemma TakenExact(e: Entries, a: nat, sz: nat)
    requires Exact(e, 0) && IsFree(e, a) && sz > 0 && Blocks(sz) == Len(e, a) && sz % GRANULE_BYTES == 0
    ensures Exact(Taken(e, a, sz), 0)
  {
    TakenTiles(e, a, sz);
    TakenCounts(e, a, sz);
  }

  lemma TakenTiles(e: Entries, a: nat, sz: nat)
    requires Exact(e, 0) && IsFree(e, a) && sz > 0 && Blocks(sz) == Len(e, a) && sz % GRANULE_BYTES == 0
    ensures Tiles(Taken(e, a, sz))
  {
    TakenEnds(e, a, sz);
    var e' := Taken(e, a, sz);
    assert e'[a].sz == sz;
    hide Taken;
    forall c: nat ensures SizeOk(e', c) {
      assert SizeOk(e, c);
    }
    assert forall c: nat | IsHdr(e, c) :: End(e', c) == End(e, c);
  }

  lemma TakenCounts(e: Entries, a: nat, sz: nat)
    requires Exact(e, 0) && IsFree(e, a) && sz > 0 && Blocks(sz) == Len(e, a)
    ensures CountsIn(Taken(e, a, sz), 0) && CountsOnly(Taken(e, a, sz))
  {
    TakenEnds(e, a, sz);
    var e' := Taken(e, a, sz);
    assert forall p: nat | a < p < End(e, a) :: Forwards(e', a, p);
    hide Taken, Blocks;
    assert forall c: nat | IsHdr(e, c) :: End(e', c) == End(e, c);
    forall c: nat, p: nat | IsUsed(e', c) && c < p < End(e', c) ensures Forwards(e', c, p) {
      LenFacts(e, c);
      assert c != a ==> Forwards(e, c, p) && p != a;
    }
    forall p: nat | p in e' && e'[p].Forward? ensures exists c: nat :: IsUsed(e', c) && c < p < End(e', c) && Forwards(e', c, p) {
      if a < p < End(e, a) {
        assert Forwards(e', a, p);
      } else {
        var c: nat :| IsUsed(e, c) && c < p < End(e, c) && Forwards(e, c, p);
        assert IsUsed(e', c) && End(e', c) == End(e, c) && Forwards(e', c, p);
      }
    }
  }

  lemma TakenCovers(e: Entries, a: nat, sz: nat, heap: set<nat>)
    requires Exact(e, 0) && IsFree(e, a) && sz > 0 && Blocks(sz) == Len(e, a) && Covers(e, heap)
    ensures Covers(Taken(e, a, sz), heap)
  {
    TakenEnds(e, a, sz);
    var e' := Taken(e, a, sz);
    hide Taken;
    assert forall c: nat, p: nat :: Within(e, c, p) <==> Within(e', c, p);
  }

  lemma TakenAdjacent(e: Entries, a: nat, sz: nat)
    requires Exact(e, 0) && IsFree(e, a) && sz > 0 && Blocks(sz) == Len(e, a) && NoAdjacent(e, a)
    ensures NoAdjacent(Taken(e, a, sz), 0)
  {
    TakenEnds(e, a, sz);
    var e' := Taken(e, a, sz);
    hide Taken;
    forall c: nat | IsFree(e', c) ensures !IsFree(e', End(e', c)) {
      assert IsFree(e, c) && End(e, c) == End(e', c);
    }
  }

  // The block about to be taken may be cut; the rest has no free neighbour but that block.
  lemma FirstPartAdjacent(e: Entries, h: nat, n: nat)
    requires Exact(e, 0) && IsFree(e, h) && 0 < n < Len(e, h) && n * HBLKSIZE < e[h].sz && NoAdjacent(e, h) && !IsFree(e, End(e, h))
    ensures NoAdjacent(Cut(e, h, n), h)
  {
    CutEnds(e, h, n);
    LenFacts(e, h);
    var g := Cut(e, h, n);
    hide Cut;
    forall c: nat | IsFree(g, c) && c != h && End(g, c) != h ensures !IsFree(g, End(g, c)) {
      if c != h + n {
        assert IsFree(e, c) && End(g, c) == End(e, c);
        LenFacts(e, c);
        assert c < h ==> End(e, c) <= h;
        assert h < c ==> End(e, h) <= c;
      }
    }
  }
}
