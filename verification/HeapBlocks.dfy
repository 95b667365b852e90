// The heap block allocator: gc/allchblk.c, GC_add_to_heap in gc/alloc.c, the sweep's walk over the
// heap in gc/headers.c and gc/reclaim.c, and the accounting of large objects in gc/malloc.c.

module HeapBlocks {
  import opened Config
  import opened HeaderMap
  import opened HeapTiling
  import opened FreeLists
  import opened HeapAccounts
  import BlackList

  const MINHINCR: nat := 16                  // heap increments, in blocks
  const MAXHINCR: nat := 2048
  const SIGN: nat := 0x8000_0000_0000_0000   // sizes from here on are negative as signed_word

  /** The state of the heap as values. */
  datatype Heap = Heap(e: Entries, v: FreeLists.View, bytes: seq<nat>, largeFree: nat, heap: set<nat>)

  /** The map describes a tiling of the heap, except that the counts of `skip` may be missing and that
      free neighbours of `apart` may not have been merged with it. */
  ghost predicate TilesHeap(s: Heap, skip: nat, apart: nat) {
    Exact(s.e, skip) && Covers(s.e, s.heap) && NoAdjacent(s.e, apart)
  }

  ghost predicate Listed(s: Heap, loose: nat, wrong: nat) {
    Linked(s.v) && OnLists(s.e, s.v, s.bytes, loose, wrong)
  }

  ghost predicate Good(s: Heap) {
    TilesHeap(s, 0, 0) && Listed(s, 0, 0) && s.largeFree == Total(s.bytes)
  }

  /** The blocks in use are the same, with the same headers. */
  ghost predicate SameUsed(e: Entries, e': Entries) {
    forall a: nat :: IsUsed(e, a) || IsUsed(e', a) ==> IsUsed(e, a) && IsUsed(e', a) && e[a] == e'[a]
  }

  ghost predicate UsedLess(e: Entries, e': Entries, h: nat) {
    forall a: nat :: a != h && (IsUsed(e, a) || IsUsed(e', a)) ==> IsUsed(e, a) && IsUsed(e', a) && e[a] == e'[a]
  }

  class HeapManager {
    const table: HeaderTable
    const lists: FreeListTable
    const black: BlackList.BlackLists
    const findLeak: bool
    var maxLargeAllocd: nat           // GC_max_large_allocd_bytes
    var spacing: nat                  // BL_LIMIT, which is GC_black_list_spacing
    var dropCount: nat
    var largeFree: nat                // GC_large_free_bytes
    var heapSize: nat                 // GC_heapsize
    var largeAllocd: nat              // GC_large_allocd_bytes
    var heap: set<nat>                // GC_heap_sects, as a set of block numbers

    ghost function S(): Heap
      reads this, table, lists
    {
      Heap(table.entries, lists.V(), lists.bytes, largeFree, heap)
    }

    ghost predicate Tables()
      reads table, lists
    {
      table.IndexOk() && lists.Ok()
    }

    constructor (black: BlackList.BlackLists, findLeak: bool)
      ensures this.black == black && Valid() && heap == {} && heapSize == 0 && largeAllocd == 0
      ensures fresh(table) && fresh(lists) && table.entries == map[]
    {
      table := new HeaderTable();
      lists := new FreeListTable();
      this.black, this.findLeak := black, findLeak;
      largeFree, heapSize, largeAllocd, maxLargeAllocd := 0, 0, 0, 0;
      spacing, dropCount := MINHINCR * HBLKSIZE, 0;
      heap := {};
      new;
      NothingYet(S());
      NothingUsed(false, TOP);
      NothingUsed(true, TOP);
    }

    /** Between operations.  The counters agree with the blocks. */
    ghost predicate Valid()
      reads this, table, lists
    {
      && Tables() && Good(S())
      && heapSize == Balance(S()) == |heap| * HBLKSIZE
      && largeAllocd == UsedBytes(table.entries, true, TOP)
    }

    // Coalescing in GC_freehblk: `listed` is the one of the two neighbours that is on a list.
    method Absorb(a: nat, b: nat, listed: nat)
      requires Tables() && Exact(table.entries, 0) && IsFree(table.entries, a) && IsFree(table.entries, b) && End(table.entries, a) == b
      requires (listed == a || listed == b) && Listed(S(), if listed == a then b else a, 0)
      modifies table`entries, lists
      ensures Tables() && table.entries == Merged(old(table.entries), a, b) && Listed(S(), a, 0)
      ensures Total(lists.bytes) + old(table.entries)[listed].sz == old(Total(lists.bytes))
    {
      hide Exact, Linked, OnLists, Merged, Sorted, Indexed;
      ghost var s := S();
      var sz := table.Hdr(listed).sz;
      var index := FlIndex(sz / HBLKSIZE);
      OneListed(s, a, b, listed);
      lists.RemoveFrom(listed, sz, index);
      table.SetHeader(a, table.Hdr(a).sz + table.Hdr(b).sz, true);
      table.RemoveHeader(b);
      assert table.entries == Merged(s.e, a, b);
      Absorbed(s, S(), a, b, listed);
    }

    // GC_freehblk, coalescing with the successor.  The block at h is on no list.
    method JoinNext(h: nat)
      requires Tables() && TilesHeap(S(), 0, h) && Listed(S(), h, 0) && IsFree(table.entries, h)
      modifies table`entries, lists
      ensures Tables() && TilesHeap(S(), 0, h) && Listed(S(), h, 0) && IsFree(table.entries, h)
      ensures !IsFree(table.entries, End(table.entries, h)) && SameUsed(old(table.entries), table.entries)
      ensures Loose(S(), h) == old(Loose(S(), h))
      ensures forall prev: nat :: old(EndsAt(table.entries, h, prev)) ==> EndsAt(table.entries, h, prev)
    {
      hide Exact, Tiles, CountsOnly, Linked, OnLists, Merged, NoAdjacent, Covers, SameUsed, Sorted, Indexed;
      ghost var s := S();
      NextIsHeader(s.e, h);
      var size := table.Hdr(h).sz;
      var next := h + size / HBLKSIZE;
      if next in table.entries && table.Hdr(next).free && size + table.Hdr(next).sz < SIGN {
        Absorb(h, next, next);
        AfterNext(s, S(), h, next);
      } else {
        SameRefl(s.e);
      }
    }

    // GC_freehblk, coalescing with the predecessor, if there is one.
    method JoinPrev(h: nat, prev: nat) returns (hbp: nat)
      requires Tables() && TilesHeap(S(), 0, h) && Listed(S(), h, 0) && IsFree(table.entries, h)
      requires !IsFree(table.entries, End(table.entries, h)) && EndsAt(table.entries, h, prev)
      modifies table`entries, lists
      ensures Tables() && TilesHeap(S(), 0, 0) && Listed(S(), hbp, 0) && IsFree(table.entries, hbp)
      ensures SameUsed(old(table.entries), table.entries)
      ensures Loose(S(), hbp) == old(Loose(S(), h))
    {
      hide Exact, Tiles, CountsOnly, Linked, OnLists, Merged, NoAdjacent, Covers, SameUsed, Sorted, Indexed;
      ghost var s := S();
      hbp := h;
      if prev != 0 {
        NextIsHeader(s.e, prev);
        if table.Hdr(h).sz + table.Hdr(prev).sz < SIGN {
          Absorb(prev, h, prev);
          hbp := prev;
          AfterPrev(s, S(), prev, h);
        }
      } else {
        AllApart(s.e, h);
        SameRefl(s.e);
      }
    }

    // GC_add_to_fl: the block goes on the list for its size, and is marked as free.
    method AddToFl(h: nat)
      requires Tables() && IsHdr(table.entries, h) && h !in lists.home && h != 0
      modifies table`entries, lists
      ensures var i := FlIndex(old(table.entries)[h].sz / HBLKSIZE);
              && Tables() && table.entries == Freed(old(table.entries), h)
              && Adds(old(lists.V()), lists.V(), h, i) && Raised(old(lists.bytes), lists.bytes, i, old(Size(table.entries, h)))
    {
      hide Linked, Sorted, Indexed;
      FlHasLists(lists.V());
      var sz := table.Hdr(h).sz;
      lists.AddTo(h, sz, sz / HBLKSIZE);
      table.SetHeader(h, sz, true);
    }

    // GC_freehblk, first part: the block is marked as free, and its forwarding counts are removed.
    method Release(h: nat)
      requires Tables() && TilesHeap(S(), h, 0) && Listed(S(), 0, 0) && IsUsed(table.entries, h)
      modifies table`entries
      ensures Tables() && TilesHeap(S(), 0, h) && Listed(S(), h, 0) && IsFree(table.entries, h)
      ensures UsedLess(old(table.entries), table.entries, h)
      ensures table.entries[h].sz == old(Len(table.entries, h)) * HBLKSIZE
    {
      hide Exact, Tiles, CountsOnly, Linked, OnLists, Released, NoAdjacent, Covers, UsedLess, Sorted, Indexed;
      ghost var s := S();
      Releasing(s, h);
      var blocks := Blocks(table.Hdr(h).sz);
      table.RemoveCounts(h, blocks);
      table.SetHeader(h, blocks * HBLKSIZE, true);
      assert S() == s.(e := Released(s.e, h));
    }

    // GC_freehblk: the block becomes free, and is merged with its free neighbours.
    method Freehblk(h: nat)
      requires Tables() && TilesHeap(S(), h, 0) && Listed(S(), 0, 0) && largeFree == Total(lists.bytes)
      requires IsUsed(table.entries, h)
      modifies table`entries, lists, this`largeFree
      ensures Tables() && Good(S())
      ensures UsedLess(old(table.entries), table.entries, h) && !IsUsed(table.entries, h)
      ensures largeFree == old(largeFree) + old(Len(table.entries, h)) * HBLKSIZE
    {
      hide Exact, Linked, OnLists, NoAdjacent, Covers, UsedLess, SameUsed, Sorted, Indexed;
      ghost var e := table.entries;
      Release(h);
      ghost var e1 := table.entries;
      var size := table.Hdr(h).sz;
      ExactParts(e1, 0);
      var prev := table.FreeBlockEndingAt(h);
      JoinNext(h);
      ghost var e2 := table.entries;
      var hbp := JoinPrev(h, prev);
      largeFree := largeFree + size;
      FreedSame(table.entries, hbp);
      SameTrans(e, e1, e2, table.entries, h);
      ghost var s := S();
      LooseFacts(s, hbp);
      AddToFl(hbp);
      Adding(s, S(), hbp);
    }

    // GC_get_first_part: take h off its list; what is left of it beyond the first n blocks goes back.
    // Until its header has been set up, the one of h still says that it is free and has its old size.
    method GetFirstPart(h: nat, n: nat, index: nat)
      requires Tables() && Exact(table.entries, 0) && IsFree(table.entries, h) && 0 < n <= Len(table.entries, h)
      requires h in lists.home && lists.home[h] == index && Listed(S(), 0, h)
      modifies table, lists
      ensures Tables() && FirstCut(old(table.entries), table.entries, h, n)
      ensures Listed(S().(e := FirstPart(old(table.entries), h, n)), h, 0)
      ensures Total(lists.bytes) + n * HBLKSIZE == old(Total(lists.bytes))
    {
      hide Exact, Linked, OnLists, CutSizes, Cut, Sorted, Indexed;
      ghost var s := S();
      var total := table.Hdr(h).sz;
      Unlisting(s, h, index);
      ExactLen(s.e, h);
      lists.RemoveFrom(h, total, index);
      ghost var s1 := S();
      Unlisted(s, s1, h, index);
      if total == n * HBLKSIZE { return; }
      var rest := h + n;
      CutHasSizes(s.e, h, n);
      RestIsNew(s1, h, n);
      table.InstallHeader(rest, total - n * HBLKSIZE, false);
      AddToFl(rest);
      RestAdded(s1, S(), h, n);
    }

    // GC_split_block, and the installation of the header of the second part: n replaces h on its list,
    // which may be the wrong one for its size, and h goes on the list for what is left of it.
    method SplitBlock(h: nat, n: nat, index: nat)
      requires Tables() && Exact(table.entries, 0) && IsFree(table.entries, h) && h < n < End(table.entries, h)
      requires h in lists.home && lists.home[h] == index && Listed(S(), 0, 0)
      modifies table, lists
      ensures Tables() && IsHdr(old(table.entries), h) && (n - h) * HBLKSIZE < old(Size(table.entries, h))
      ensures table.entries == Cut(old(table.entries), h, n - h)
      ensures Listed(S(), 0, n) && n in lists.home && lists.home[n] == index
      ensures Total(lists.bytes) == old(Total(lists.bytes))
    {
      hide Exact, Linked, OnLists, CutSizes, Sorted, Indexed;
      ghost var s := S();
      var total := table.Hdr(h).sz;
      var hSize := (n - h) * HBLKSIZE;
      ExactLen(s.e, h);
      CutHasSizes(s.e, h, n - h);
      SplitIsNew(s, h, n, index);
      table.InstallHeader(n, total - hSize, false);
      lists.Replace(h, n, hSize, index);
      ghost var s1 := S();
      table.SetHeader(h, hSize, true);
      FirstIsNew(s, s1, h, n);
      AddToFl(h);
      table.SetHeader(n, total - hSize, true);
      assert table.entries == Cut(s.e, h, n - h);
      ExactNoNull(s.e, 0);
      Splitting(s, s1, S(), h, n - h, index);
    }

    // The end of GC_allochblk_nth: the first n blocks of h are put to use for objects of sz bytes.
    method TakeFront(h: nat, n: nat, sz: nat, index: nat)
      requires Tables() && TilesHeap(S(), 0, h) && IsFree(table.entries, h) && !IsFree(table.entries, End(table.entries, h))
      requires sz > 0 && sz % GRANULE_BYTES == 0 && n == Blocks(sz) <= Len(table.entries, h)
      requires h in lists.home && lists.home[h] == index && Listed(S(), 0, h) && largeFree == Total(lists.bytes)
      modifies table, lists, this`largeFree
      ensures Tables() && Good(S()) && h in table.entries && table.entries[h] == Header(sz, false)
      ensures UsedLess(old(table.entries), table.entries, h)
      ensures largeFree + n * HBLKSIZE == old(largeFree)
    {
      hide Exact, Linked, OnLists, Covers, NoAdjacent, Sorted, Indexed, FirstPart, UsedLess;
      ghost var s := S();
      FrontTiles(s, h, n);
      GetFirstPart(h, n, index);
      ghost var s1 := S().(e := FirstPart(s.e, h, n));
      table.InstallCounts(h, n);
      table.SetHeader(h, sz, false);
      largeFree := largeFree - n * HBLKSIZE;
      SetUpIs(s.e, h, n, sz);
      Fronted(s.e, s1, S(), h, sz);
    }

    // GC_add_to_heap.  The memory is not part of the heap yet and lies below half of the address space.
    method AddToHeap(start: nat, blocks: nat)
      requires Valid() && start + blocks <= TOP && blocks > 0
      requires forall p: nat :: start <= p < start + blocks ==> p !in heap
      modifies table, lists, this`largeFree, this`heapSize, this`heap
      ensures Valid() && SameUsed(old(table.entries), table.entries)
      ensures var first := if start < 2 then 2 else start;
              var n := if start + blocks > first then start + blocks - first else 0;
              heap == old(heap) + Pages(first, n) && heapSize == old(heapSize) + n * HBLKSIZE && largeFree == old(largeFree) + n * HBLKSIZE
    {
      hide Pages, Valid, SameUsed;
      var p, n := start, blocks;
      while p <= 1
        invariant start <= p && p + n == start + blocks && n > 0 && (p == start || p <= 2)
      {
        p := p + 1;
        n := n - 1;
        if n == 0 {
          NoPages(heap, if start < 2 then 2 else start);
          SameRefl(table.entries);
          return;
        }
      }
      AddAt(p, n);
    }

    method AddAt(p: nat, n: nat)
      requires Valid() && 2 <= p && p + n <= TOP && n > 0
      requires forall q: nat :: p <= q < p + n ==> q !in heap
      modifies table, lists, this`largeFree, this`heapSize, this`heap
      ensures Valid() && SameUsed(old(table.entries), table.entries)
      ensures heap == old(heap) + Pages(p, n) && heapSize == old(heapSize) + n * HBLKSIZE && largeFree == old(largeFree) + n * HBLKSIZE
    {
      hide Exact, Linked, OnLists, Covers, NoAdjacent, Sorted, Indexed, SameUsed, UsedLess, Pages, UsedBytes;
      ghost var s := S();
      NewMemory(s, p, n);
      table.InstallHeader(p, n * HBLKSIZE, false);
      heap := heap + Pages(p, n);
      ghost var e1 := table.entries;
      Freehblk(p);
      heapSize := heapSize + n * HBLKSIZE;
      MemoryAdded(s.e, e1, table.entries, p, n);
      SameBytes(s.e, table.entries);
      NewPages(s.heap, p, n);
    }

    // A completely black-listed block is dropped: it is put to use as single blocks without pointers,
    // which the next collection will find empty.
    method Drop(h: nat, index: nat)
      requires Tables() && Good(S()) && IsFree(table.entries, h) && h in lists.home && lists.home[h] == index
      modifies table, lists, this`largeFree
      ensures Tables() && Kept(old(S()), S()) && index < |old(lists.lists)|
      ensures lists.lists == old(lists.lists)[index := Without(old(lists.lists)[index], h)]
      ensures FreeLess(old(table.entries), table.entries, h)
    {
      hide Exact, Linked, OnLists, Covers, NoAdjacent, Sorted, Indexed, Kept, Taken, FirstPart, UsedBytes, Dropping, FreeLess;
      ghost var s := S();
      var total := table.Hdr(h).sz;
      ExactLen(s.e, h);
      GoodListed(s, h);
      Unlisting(s, h, index);
      TotalHas(lists.bytes, index);
      largeFree := largeFree - total;
      lists.RemoveFrom(h, total, index);
      Unlisted(s, S(), h, index);
      StartDrop(s, S(), h);
      MakeSingles(h, h + total / HBLKSIZE, s);
    }

    // The blocks of a free block that is on no list are put to use one by one.
    method MakeSingles(h: nat, limit: nat, ghost s: Heap)
      requires Tables() && Good(s) && h < limit && Dropping(s, S(), h, h, limit)
      modifies table
      ensures Tables() && Kept(s, S()) && FreeLess(s.e, table.entries, h)
    {
      hide Exact, Linked, OnLists, Covers, NoAdjacent, Sorted, Indexed, Kept, Taken, FirstPart, UsedBytes, Dropping, Good, FreeLess;
      var p := h;
      ghost var g := table.entries;
      while p < limit
        invariant h <= p <= limit && Tables() && Dropping(s, S().(e := g), h, p, limit)
        invariant table.entries == if p == limit || p == h then g else g - {p}
      {
        OneDropped(s, S().(e := g), h, p, limit);
        if p != h {
          table.InstallHeader(p, HBLKSIZE, false);
        }
        table.SetHeader(p, HBLKSIZE, false);
        assert table.entries == g[p := Header(HBLKSIZE, false)];
        g := Taken(FirstPart(g, p, 1), p, HBLKSIZE);
        p := p + 1;
      }
      DropDone(s, S(), h, limit);
    }

    ghost predicate BlackOk()
      reads black
    {
      black.Valid()
    }

    ghost predicate NothingBlackListed()
      requires black.Valid()
      reads black, black.oldNormal, black.incompleteNormal, black.oldStack, black.incompleteStack
    {
      forall b: nat, n: nat :: !black.BadRun(b, n)
    }

    /** The block at h would do for n blocks. */
    predicate Fits(h: nat, n: nat, maySplit: bool)
      reads table
    {
      FitsIn(table.entries, h, n, maySplit)
    }

    /** What a search asks for. */
    ghost function Asks(n: nat, exempt: bool, ignoreOffPage: bool): Request
      requires black.Valid()
      reads this`spacing, black, black.oldNormal, black.incompleteNormal, black.oldStack, black.incompleteStack
    {
      Request(n, !exempt, Eff(ignoreOffPage, n), spacing, black.V())
    }

    // GC_allochblk_nth: is the block big enough, and is the next one on the list not obviously better?
    method WorthTaking(h: nat, next: nat, n: nat, maySplit: bool) returns (ok: bool)
      requires Tables() && Good(S()) && BlackOk() && IsFree(table.entries, h) && (next != 0 ==> IsFree(table.entries, next)) && n > 0
      ensures ok ==> Fits(h, n, maySplit)
      ensures !ok && Fits(h, n, maySplit) ==> next != 0 && Fits(next, n, maySplit) && !black.BadRun(next, n)
    {
      hide Exact, Linked, OnLists, Covers, NoAdjacent, Sorted, Indexed;
      GoodSizes(S(), h, next);
      var avail := table.Hdr(h).sz;
      var needed := n * HBLKSIZE;
      if avail < needed { return false; }
      if avail != needed {
        if !maySplit { return false; }
        if next != 0 {
          var nextSize := table.Hdr(next).sz;
          if nextSize < avail && nextSize >= needed {
            var bad := black.IsBlackListed(next, needed);
            assert BlackList.Span(needed) == n;
            if bad == 0 { return false; }
          }
        }
      }
      return true;
    }

    // GC_allochblk_nth: where in the free block the allocated one may start.
    method Place(h: nat, n: nat, exempt: bool, ignoreOffPage: bool) returns (v: Verdict)
      requires Tables() && Good(S()) && BlackOk() && IsFree(table.entries, h) && 0 < n <= Len(table.entries, h)
      modifies this`dropCount
      ensures v.TakeAt? ==> PlacedAt(Asks(n, exempt, ignoreOffPage), h, Len(table.entries, h), v.start)
      ensures !v.TakeAt? ==> NoPlace(Asks(n, exempt, ignoreOffPage), h, Len(table.entries, h)) && black.BadRun(h, Eff(ignoreOffPage, n))
      ensures v.DropIt? ==> n == 1 && !findLeak
    {
      hide Exact, Linked, OnLists, Covers, NoAdjacent, Sorted, Indexed, BlackList.RunIsBad;
      GoodSizes(S(), h, 0);
      if exempt { return TakeAt(h); }
      var avail := table.Hdr(h).sz / HBLKSIZE;
      var eff := Eff(ignoreOffPage, n);
      var last := black.FindCleanStart(h, h + avail - n, eff * HBLKSIZE);
      assert BlackList.Span(eff * HBLKSIZE) == eff;
      var left: int := avail - (last - h);
      ghost var q := Asks(n, false, ignoreOffPage);
      forall b: nat | h <= b < last ensures BlackList.RunIsBad(q.black, b, q.eff) {
        assert black.BadRun(b, q.eff);
      }
      if left >= n { return TakeAt(last); }
      if n * HBLKSIZE > spacing && (avail - n) * HBLKSIZE > spacing {
        return TakeAt(h);
      }
      if left == 0 && n == 1 {
        if !findLeak {
          dropCount := dropCount + 1;
          if dropCount % 4 == 0 { return DropIt; }
        }
      }
      return PassBy;
    }

    // GC_allochblk_nth, once the start has been chosen: split the block there, and take the second part.
    method Take(h: nat, start: nat, n: nat, sz: nat, index: nat) returns (r: nat)
      requires Tables() && Good(S()) && IsFree(table.entries, h) && h in lists.home && lists.home[h] == index
      requires sz > 0 && sz % GRANULE_BYTES == 0 && n == Blocks(sz) && h <= start && start + n <= End(table.entries, h)
      modifies table, lists, this`largeFree
      ensures Tables() && Good(S()) && Allocated(old(S()), S(), start, sz) && r == start != 0
    {
      hide Exact, Linked, OnLists, Covers, NoAdjacent, Sorted, Indexed, Allocated, UsedLess, SameUsed, Cut;
      ghost var s := S();
      if start == h {
        WholeBlock(s, h);
        TakeFront(h, n, sz, index);
        SameRefl(s.e);
        TookFront(s, s.e, S(), h, sz);
      } else {
        GoodExact(s);
        SplitBlock(h, start, index);
        ghost var e1 := table.entries;
        SecondPart(s, h, start - h);
        TakeFront(start, n, sz, index);
        TookFront(s, e1, S(), start, sz);
      }
      r := start;
      StartNotNull(S(), start);
    }

    // GC_allochblk_nth: drop the block at hand and go back to the one before it on the list, if any.
    method DropAt(h: nat, index: nat, ghost s: Heap, ghost k: nat, sz: nat, ghost q: Request, ghost maySplit: bool) returns (prev: nat)
      requires Tables() && Searching(s, S(), index, k, h, sz) && h != 0
      requires NoPlace(q, h, Len(table.entries, h)) && SomeFits(S(), index, k, h, q, maySplit)
      modifies table, lists, this`largeFree
      ensures Tables() && Good(S()) && Allocated(s, S(), 0, sz) && Shorter(old(S()), S(), index)
      ensures prev != 0 ==> k > 0 && GoesOn(s, old(S()), S(), index, k, k - 1, prev, sz, q, maySplit)
      ensures FreeKept(q, old(table.entries), table.entries)
    {
      hide Exact, Linked, OnLists, Covers, NoAdjacent, Sorted, Indexed, Allocated, KeptBut, TilesHeap, Listed, Kept, FreeLess, NoPlace, FreeKept, SomeFits,
           Searching, Good;
      ghost var u := S();
      SearchFacts(s, u, index, k, h, sz);
      OnList(u, index, k, h);
      prev := lists.prev[h];
      Drop(h, index);
      Dropped(s, u, S(), index, k, h, sz);
      LessIsKept(q, u.e, table.entries, h);
      if prev != 0 {
        AfterDrop(s, u, S(), index, k, h, prev, sz, q, maySplit);
      }
    }

    // The body of the loop in GC_allochblk_nth.  If nothing is allocated, the search goes on after the
    // block `at`, or has to start again.
    method Examine(sz: nat, exempt: bool, ignoreOffPage: bool, index: nat, maySplit: bool, h: nat, ghost s: Heap, ghost k: nat, ghost q: Request)
      returns (r: nat, at: nat, restart: bool, ghost j: nat)
      requires Tables() && Searching(s, S(), index, k, h, sz) && h != 0 && BlackOk() && sz > 0 && sz % GRANULE_BYTES == 0
      requires q == Asks(Blocks(sz), exempt, ignoreOffPage) && SomeFits(S(), index, k, h, q, maySplit)
      modifies table, lists, this`largeFree, this`dropCount
      ensures Tables() && Good(S()) && Allocated(s, S(), r, sz)
      ensures r != 0 ==> TakenFrom(old(table.entries), q, index, maySplit, h, r)
      ensures r == 0 ==> FreeKept(q, old(table.entries), table.entries)
      ensures r == 0 ==> if restart then Shorter(old(S()), S(), index) else GoesOn(s, old(S()), S(), index, k, j, at, sz, q, maySplit)
      ensures NothingBlackListed() && r == 0 ==> !restart && S() == old(S())
    {
      hide Exact, Linked, OnLists, Covers, NoAdjacent, Sorted, Indexed, Allocated, KeptBut, Good, Searching, SomeFits, NoPlace, PlacedAt, FreeKept,
           FreeLess, BlackList.RunIsBad, WouldDo, TakenFrom, GoesOn, Shorter;
      var n := Blocks(sz);
      ghost var u := S();
      SearchFacts(s, u, index, k, h, sz);
      OnList(u, index, k, h);
      FreeKeptRefl(q, u.e);
      var next := lists.next[h];
      var ok := WorthTaking(h, next, n, maySplit);
      if !ok {
        NextDoes(u, q, h, next, maySplit);
        PassedBy(s, u, index, k, h, sz, q, maySplit);
        return 0, h, false, k;
      }
      var verdict := Place(h, n, exempt, ignoreOffPage);
      if verdict.TakeAt? {
        TakenIs(u, q, index, maySplit, h, verdict.start);
        r := Take(h, verdict.start, n, sz, index);
        AllocatedTrans(s, u, S(), r, sz);
        return r, h, false, k;
      }
      if verdict.DropIt? {
        var prev := DropAt(h, index, s, k, sz, q, maySplit);
        return 0, prev, prev == 0, if prev == 0 || k == 0 then 0 else k - 1;
      }
      WontDo(u.e, h, q, maySplit);
      PassedBy(s, u, index, k, h, sz, q, maySplit);
      return 0, h, false, k;
    }

    // GC_allochblk_nth: search list `index` for a block for objects of sz bytes.  `from` is the free block that was
    // chosen.
    method AllochblkNth(sz: nat, exempt: bool, ignoreOffPage: bool, index: nat, maySplit: bool) returns (r: nat, ghost from: nat)
      requires Tables() && Good(S()) && BlackOk() && sz > 0 && sz % GRANULE_BYTES == 0 && index <= N_HBLK_FLS
      modifies table, lists, this`largeFree, this`dropCount
      ensures Tables() && Good(S()) && Allocated(old(S()), S(), r, sz)
      ensures r != 0 ==> TakenFrom(old(table.entries), Asks(Blocks(sz), exempt, ignoreOffPage), index, maySplit, from, r)
      ensures r == 0 ==> FreeKept(Asks(Blocks(sz), exempt, ignoreOffPage), old(table.entries), table.entries)
      ensures r == 0 ==> NoneFit(old(table.entries), index, Asks(Blocks(sz), exempt, ignoreOffPage), maySplit)
      ensures NothingBlackListed() && r == 0 ==> S() == old(S())
      decreases if index < |lists.lists| then |lists.lists[index]| else 0
    {
      hide Exact, Linked, OnLists, Covers, NoAdjacent, Sorted, Indexed, Allocated, KeptBut, Good, Searching, NoneFit, SomeFits, TakenFrom, FreeKept,
           BlackList.RunIsBad, GoesOn, Shorter;
      ghost var q := Asks(Blocks(sz), exempt, ignoreOffPage);
      ghost var s := S();
      ListStart(s, index, sz, q, maySplit);
      FreeKeptRefl(q, s.e);
      from := 0;
      var hbp := lists.heads[index];
      ghost var k: nat := 0;
      while hbp != 0
        invariant Tables() && Searching(s, S(), index, k, hbp, sz) && q == Asks(Blocks(sz), exempt, ignoreOffPage)
        invariant index < |lists.lists| && |lists.lists[index]| <= |s.v.lists[index]| && k <= |lists.lists[index]|
        invariant SomeFits(S(), index, k, hbp, q, maySplit) && FreeKept(q, s.e, table.entries)
        invariant NothingBlackListed() ==> S() == s
        decreases |lists.lists[index]| - k
      {
        var at, restart;
        ghost var j: nat;
        ghost var s1 := S();
        ghost var e := table.entries;
        from := hbp;
        r, at, restart, j := Examine(sz, exempt, ignoreOffPage, index, maySplit, hbp, s, k, q);
        if r != 0 {
          TakenBefore(q, s.e, e, index, maySplit, from, r);
          return;
        }
        FreeKeptTrans(q, s.e, e, table.entries);
        ghost var u := S();
        if restart {
          IsShorter(s1, u, index);
          r, from := AllochblkNth(sz, exempt, ignoreOffPage, index, maySplit);
          AllocatedTrans(s, u, S(), r, sz);
          if r != 0 {
            TakenBefore(q, s.e, u.e, index, maySplit, from, r);
          } else {
            FreeKeptTrans(q, s.e, u.e, table.entries);
            NoneBefore(q, s.e, u.e, index, maySplit);
          }
          return;
        }
        GoesOnTo(s, s1, u, index, k, j, at, sz, q, maySplit);
        hbp, k := lists.next[at], j + 1;
      }
      SearchFacts(s, S(), index, k, 0, sz);
      SearchedAll(S(), index, k, q, maySplit);
      NoneBefore(q, s.e, table.entries, index, maySplit);
      r := 0;
    }

    // GC_enough_large_bytes_left: the highest list such that it and the lists above it, together with the
    // large objects in use, hold as much as large objects ever did; 0 if there is none.
    method EnoughLargeBytesLeft() returns (r: nat)
      requires |lists.bytes| == N_HBLK_FLS + 1
      ensures r <= N_HBLK_FLS
      ensures r > 0 ==> largeAllocd + Total(lists.bytes[r..]) >= maxLargeAllocd
      ensures forall n: nat :: r < n <= N_HBLK_FLS ==> largeAllocd + Total(lists.bytes[n..]) < maxLargeAllocd
    {
      hide Total;
      var bytes := largeAllocd;
      TailTotal(lists.bytes, |lists.bytes|);
      var n: int := N_HBLK_FLS;
      while n >= 0
        invariant -1 <= n <= N_HBLK_FLS && bytes == largeAllocd + Total(lists.bytes[n + 1..])
        invariant forall m: nat :: n < m <= N_HBLK_FLS ==> largeAllocd + Total(lists.bytes[m..]) < maxLargeAllocd
      {
        bytes := bytes + lists.bytes[n];
        TailTotal(lists.bytes, n);
        if bytes >= maxLargeAllocd { return n; }
        n := n - 1;
      }
      r := 0;
    }

    // GC_allochblk: the last list whose blocks may be split.  `useMore` is the test whether all of the heap may be
    // used although that means splitting.
    method ChooseLimit(useMore: bool, finalizerBytesFreed: nat) returns (splitLimit: nat)
      requires |lists.bytes| == N_HBLK_FLS + 1
      ensures SplitLimit(useMore, finalizerBytesFreed, heapSize, largeAllocd, maxLargeAllocd, lists.bytes, splitLimit)
      ensures splitLimit <= N_HBLK_FLS && (useMore ==> splitLimit == N_HBLK_FLS)
    {
      splitLimit := N_HBLK_FLS;
      if !useMore {
        splitLimit := 0;
        if !(finalizerBytesFreed > heapSize / 16) {
          splitLimit := EnoughLargeBytesLeft();
        }
      }
    }

    // GC_allochblk.  `from` is the free block that was chosen, `limit` the last list whose blocks may be split, and `tried` the
    // state in which that was decided.
    method Allochblk(sz: nat, kind: Kind, ignoreOffPage: bool, useMore: bool, finalizerBytesFreed: nat)
      returns (r: nat, ghost from: nat, ghost limit: nat, ghost tried: Heap)
      requires Tables() && Good(S()) && BlackOk() && sz > 0 && sz % GRANULE_BYTES == 0
      modifies table, lists, this`largeFree, this`dropCount
      ensures Tables() && Good(S()) && Allocated(old(S()), S(), r, sz)
      ensures var q := Request(Blocks(sz), kind.OtherKind? || (kind.PtrFree? && Blocks(sz) > 2), if ignoreOffPage then 1 else Blocks(sz), spacing, black.V());
              && Choice(old(table.entries), q, limit, from, r)
              && ((r == 0 && Blocks(sz) * HBLKSIZE < SIGN) || (r != 0 && old(Len(table.entries, from)) != Blocks(sz)) ==>
                   && Good(tried) && FreeKept(q, old(table.entries), tried.e)
                   && SplitLimit(useMore, finalizerBytesFreed, heapSize, largeAllocd, maxLargeAllocd, tried.bytes, limit))
      ensures NothingBlackListed() && r == 0 ==> S() == old(S())
      ensures NothingBlackListed() && r == 0 && useMore ==> forall h: nat :: IsFree(table.entries, h) ==> Len(table.entries, h) < Blocks(sz)
    {
      hide Exact, Linked, OnLists, Covers, NoAdjacent, Sorted, Indexed, Allocated, KeptBut, Good, NoneFit, FreeKept, NoPlace, PlacedAt, TakenFrom, Choice, SplitLimit,
           BlackList.RunIsBad;
      ghost var s := S();
      AllocatedRefl(s, sz);
      var blocks := Blocks(sz);
      var exempt := Exempt(kind, blocks);
      ghost var q := Asks(blocks, exempt, ignoreOffPage);
      from, limit, tried := 0, 0, s;
      if blocks * HBLKSIZE >= SIGN {
        TooLarge(s, q, limit);
        return 0, from, limit, tried;
      }
      var startList := FlIndex(blocks);
      r, from := AllochblkNth(sz, exempt, ignoreOffPage, startList, false);
      if r != 0 {
        ExactChoice(s.e, q, limit, from, r);
        return;
      }
      tried := S();
      GoodBytes(tried);
      var splitLimit := ChooseLimit(useMore, finalizerBytesFreed);
      limit := splitLimit;
      if startList < UNIQUE_THRESHOLD {
        startList := startList + 1;
      }
      var i := startList;
      while i <= splitLimit
        invariant Tables() && Good(S()) && Allocated(s, S(), 0, sz) && splitLimit <= N_HBLK_FLS && startList <= i
        invariant q == Asks(blocks, exempt, ignoreOffPage) && FreeKept(q, s.e, table.entries)
        invariant forall l: nat :: startList <= l < i ==> NoneFit(s.e, l, q, true)
        invariant NothingBlackListed() ==> S() == s
      {
        ghost var u := S();
        r, from := AllochblkNth(sz, exempt, ignoreOffPage, i, true);
        AllocatedTrans(s, u, S(), r, sz);
        if r != 0 {
          TakenBefore(q, s.e, u.e, i, true, from, r);
          SplitChoice(s.e, q, startList, i, limit, from, r);
          return;
        }
        FreeKeptTrans(q, s.e, u.e, table.entries);
        NoneBefore(q, s.e, u.e, i, true);
        i := i + 1;
      }
      r := 0;
      NoBlockFits(s.e, q, startList, limit, from);
      if NothingBlackListed() && useMore {
        forall b: nat ensures !BlackList.RunIsBad(q.black, b, q.eff) {
          assert !black.BadRun(b, q.eff);
        }
        NothingFits(s.e, q, from);
      }
    }

    // GC_alloc_large without its retries: the bytes of objects that span several blocks are counted.
    method AllocLarge(lb: nat, kind: Kind, ignoreOffPage: bool, useMore: bool, finalizerBytesFreed: nat)
      returns (r: nat, ghost from: nat, ghost limit: nat, ghost tried: Heap)
      requires Valid() && BlackOk() && lb > 0
      modifies table, lists, this`largeFree, this`dropCount, this`largeAllocd, this`maxLargeAllocd
      ensures Valid() && heap == old(heap)
      ensures var size := (lb + GRANULE_BYTES - 1) / GRANULE_BYTES * GRANULE_BYTES;
              var n := Blocks(size);
              var q := Request(n, kind.OtherKind? || (kind.PtrFree? && n > 2), if ignoreOffPage then 1 else n, spacing, black.V());
              && Allocated(old(S()), S(), r, size) && Choice(old(table.entries), q, limit, from, r)
              && ((r == 0 && n * HBLKSIZE < SIGN) || (r != 0 && old(Len(table.entries, from)) != n) ==>
                   && Good(tried) && FreeKept(q, old(table.entries), tried.e)
                   && SplitLimit(useMore, finalizerBytesFreed, heapSize, old(largeAllocd), old(maxLargeAllocd), tried.bytes, limit))
              && (largeAllocd == old(largeAllocd) + if r != 0 && n > 1 then n * HBLKSIZE else 0)
              && (maxLargeAllocd == if r != 0 && n > 1 && largeAllocd > old(maxLargeAllocd) then largeAllocd else old(maxLargeAllocd))
      ensures NothingBlackListed() && r == 0 && useMore ==> forall h: nat :: IsFree(old(table.entries), h) ==>
                old(Len(table.entries, h)) < Blocks((lb + GRANULE_BYTES - 1) / GRANULE_BYTES * GRANULE_BYTES)
    {
      hide Exact, Linked, OnLists, Covers, NoAdjacent, Sorted, Indexed, Good, UsedBytes, Allocated, Choice, FreeKept, SplitLimit, BlackList.RunIsBad;
      ghost var s := S();
      var size := (lb + GRANULE_BYTES - 1) / GRANULE_BYTES * GRANULE_BYTES;
      var blocks := Blocks(size);
      r, from, limit, tried := Allochblk(size, kind, ignoreOffPage, useMore, finalizerBytesFreed);
      LargeCounted(s, S(), r, size);
      if r != 0 {
        if blocks > 1 {
          largeAllocd := largeAllocd + blocks * HBLKSIZE;
          if largeAllocd > maxLargeAllocd {
            maxLargeAllocd := largeAllocd;
          }
        }
      }
    }

    // Freeing the block at h: the large object case of GC_free, and what GC_reclaim_block does with an
    // unmarked large object or a block of small objects without marks.
    method FreeBlock(h: nat)
      requires Valid() && IsUsed(table.entries, h)
      modifies table`entries, lists, this`largeFree, this`largeAllocd
      ensures Valid() && UsedLess(old(table.entries), table.entries, h) && !IsUsed(table.entries, h)
      ensures largeFree == old(largeFree) + old(Len(table.entries, h)) * HBLKSIZE
      ensures largeAllocd + (if old(Len(table.entries, h)) > 1 then old(Len(table.entries, h)) * HBLKSIZE else 0) == old(largeAllocd)
    {
      hide Exact, Linked, OnLists, Covers, NoAdjacent, Sorted, Indexed, UsedBytes, UsedLess;
      ghost var e := table.entries;
      ReadyToFree(S(), h);
      var blocks := Blocks(table.Hdr(h).sz);
      LargeHas(e, h);
      if blocks > 1 {
        largeAllocd := largeAllocd - blocks * HBLKSIZE;
      }
      Freehblk(h);
      FreedBytes(e, table.entries, h);
    }

    // GC_apply_to_all_blocks with GC_reclaim_block as the callback.  `dead` says which blocks it will
    // find without marks; `calls` lists the blocks that it was called for.
    method Sweep(dead: set<nat>) returns (calls: seq<nat>)
      requires Valid()
      modifies table`entries, lists, this`largeFree, this`largeAllocd
      ensures Valid()
      ensures Distinct(calls) && forall a: nat :: a in calls <==> old(IsUsed(table.entries, a))
      ensures forall a: nat :: IsUsed(table.entries, a) <==> old(IsUsed(table.entries, a)) && a !in dead
      ensures forall a: nat :: IsUsed(table.entries, a) ==> a in old(table.entries) && table.entries[a] == old(table.entries)[a]
    {
      hide Valid, Sweeping, Sorted, Indexed, Good;
      ghost var e0 := table.entries;
      calls := [];
      var i := 0;
      IndexFacts();
      StartSweep(e0, table.keys, dead);
      while i < |table.keys|
        invariant 0 <= i <= |table.keys| && Valid()
        invariant Sweeping(e0, table.entries, table.keys, calls, dead, i, BOTTOM_SZ - 1)
      {
        var j: int := BOTTOM_SZ - 1;
        while j >= 0
          invariant j < BOTTOM_SZ && i < |table.keys| && Valid() && Sweeping(e0, table.entries, table.keys, calls, dead, i, j)
        {
          var p := table.keys[i] * BOTTOM_SZ + j;
          var hhdr := table.Hdr(p);
          ghost var e := table.entries;
          ghost var before := calls;
          IndexFacts();
          if hhdr.Header? {
            if !hhdr.free {
              calls := calls + [p];
              if p in dead {
                FreeBlock(p);
              }
            }
            SweptOne(e0, e, table.entries, table.keys, before, calls, dead, i, j);
            j := j - 1;
          } else if hhdr == Forward(0) {
            SweptNil(e0, e, table.keys, calls, dead, i, j);
            j := j - 1;
          } else {
            SweptCount(e0, e, table.keys, calls, dead, i, j);
            j := j - hhdr.n;
          }
        }
        IndexFacts();
        SweptIndex(e0, table.entries, table.keys, calls, dead, i, j);
        i := i + 1;
      }
      SweptAll(e0, table.entries, table.keys, calls, dead);
    }

    lemma IndexFacts()
      requires Valid()
      ensures Sorted(table.keys) && Indexed(table.entries, table.keys) && Exact(table.entries, 0)
    {
    }

    // total_stack_black_listed, in blocks.
    method CountBlack() returns (total: nat)
      requires BlackOk()
      ensures total == |BlackIn(heap, black.V().oldStack)|
    {
      var found: set<nat> := {};
      var todo := heap;
      while todo != {}
        invariant todo <= heap && forall b: nat :: b in found <==> b !in todo && b in BlackIn(heap, black.V().oldStack)
        decreases |todo|
      {
        var b: nat :| b in todo;
        var index := BlackList.PhtHash(b);
        if black.oldStack[index / BlackList.WORDSZ][index % BlackList.WORDSZ] {
          found := found + {b};
        }
        todo := todo - {b};
      }
      assert found == BlackIn(heap, black.V().oldStack);
      return |found|;
    }

    // GC_promote_black_lists: large blocks may start on black-listed ones if they are longer than the usual
    // distance between black-listed blocks.
    method PromoteBlack()
      requires Valid() && BlackOk()
      modifies black, black.Tables(), this`spacing
      ensures Valid() && BlackOk() && black.Tables() == old(black.Tables())
      ensures Promoted(old(Now()), Now())
    {
      hide Good, UsedBytes, ListsPromoted, Sorted, Indexed, Linked;
      ghost var p := Now();
      black.Promote();
      ListsAre(p.black, black.V());
      var total := CountBlack();
      ListsMoved(p.black, black.V());
      var wanted := spacing;
      if total * HBLKSIZE != 0 {
        wanted := HBLKSIZE * (heapSize / (total * HBLKSIZE));
      }
      SetSpacing(wanted);
      PromotedIs(p, Now(), total);
    }

    method SetSpacing(wanted: nat)
      modifies this`spacing
      ensures spacing == if wanted < 3 * HBLKSIZE then 3 * HBLKSIZE else if wanted > MAXHINCR * HBLKSIZE then MAXHINCR * HBLKSIZE else wanted
    {
      spacing := wanted;
      if spacing < 3 * HBLKSIZE {
        spacing := 3 * HBLKSIZE;
      }
      if spacing > MAXHINCR * HBLKSIZE {
        spacing := MAXHINCR * HBLKSIZE;
      }
    }

    ghost function Now(): Moment
      requires black.Valid()
      reads this, table, lists, black, black.oldNormal, black.incompleteNormal, black.oldStack, black.incompleteStack
    {
      Moment(S(), black.V(), spacing, heapSize, largeAllocd, maxLargeAllocd)
    }

    // Any sequence of heap growth, allocation, freeing and sweeping, while blocks are black-listed by
    // collections in between.  `outs` holds what each operation returns, and `trace` the states in between.
    method Run(ops: seq<Op>) returns (outs: seq<seq<nat>>, ghost trace: seq<Moment>)
      requires Valid() && BlackOk()
      modifies this, table, lists, black, black.Tables()
      ensures Valid() && BlackOk()
      ensures IsTrace(ops, outs, trace) && trace[0] == old(Now()) && trace[|ops|] == Now()
    {
      hide Valid, Happens, Sound;
      outs := [];
      trace := [Now()];
      IsSound();
      for k := 0 to |ops|
        invariant Valid() && BlackOk() && black.Tables() == old(black.Tables())
        invariant |outs| == k && |trace| == k + 1 && trace[0] == old(Now()) && trace[k] == Now()
        invariant forall i | 0 <= i <= k :: Sound(trace[i])
        invariant forall i | 0 <= i < k :: Happens(trace[i], ops[i], outs[i], trace[i + 1])
      {
        var out := Step(ops[k]);
        IsSound();
        outs, trace := outs + [out], trace + [Now()];
      }
    }

    lemma IsSound()
      requires Valid() && BlackOk()
      ensures Sound(Now())
    {
      hide Good, UsedBytes;
    }

    method Step(op: Op) returns (out: seq<nat>)
      requires Valid() && BlackOk()
      modifies this, table, lists, black, black.Tables()
      ensures Valid() && BlackOk() && black.Tables() == old(black.Tables()) && Happens(old(Now()), op, out, Now())
    {
      hide Valid, Happens;
      out := [];
      ghost var p := Now();
      if op.FalseHit? || op.FalseStackHit? || op.Unpromote? {
        Hit(op);
      } else if op.Promote? {
        PromoteBlack();
        PromotedHappens(p, op, Now());
      } else {
        out := Change(op);
      }
    }

    method Hit(op: Op)
      requires Valid() && BlackOk() && (op.FalseHit? || op.FalseStackHit? || op.Unpromote?)
      modifies black.Tables()
      ensures Valid() && BlackOk() && black.Tables() == old(black.Tables()) && Happens(old(Now()), op, [], Now())
    {
      hide Good, UsedBytes, BlackList.GetBit, Choice, SplitLimit, Allocated;
      match op
      case FalseHit(b, validOffset) => black.AddNormal(b, b !in table.entries, validOffset);
      case FalseStackHit(b) => black.AddStack(b, b !in table.entries);
      case Unpromote => black.Unpromote();
    }

    method Change(op: Op) returns (out: seq<nat>)
      requires Valid() && BlackOk() && (op.Grow? || op.Allocate? || op.Free? || op.SweepAll?)
      modifies this, table, lists
      ensures Valid() && BlackOk() && Happens(old(Now()), op, out, Now())
    {
      hide Valid, Happens, UsedLess, SameUsed, Pages, Allocates, Grown;
      out := [];
      ghost var p := Now();
      match op
      case Grow(start, blocks) =>
        if blocks > 0 && start + blocks <= TOP && IsNew(start, blocks) {
          AddToHeap(start, blocks);
          GrownIs(p, start, blocks, Now());
        }
        GrownHappens(p, op, Now());
      case Allocate(lb, kind, ignoreOffPage, useMore, finalizerBytesFreed) =>
        if lb > 0 {
          out := AllocateOne(op);
        } else {
          NoRequest(p, op);
        }
      case Free(h) =>
        if IsUsed(table.entries, h) {
          FreeBlock(h);
        }
        FreedHappens(p, op, Now());
      case SweepAll(dead) =>
        out := Sweep(dead);
        SweptHappens(p, op, out, Now());
    }

    method AllocateOne(op: Op) returns (out: seq<nat>)
      requires Valid() && BlackOk() && op.Allocate? && op.lb > 0
      modifies table, lists, this`largeFree, this`dropCount, this`largeAllocd, this`maxLargeAllocd
      ensures Valid() && BlackOk() && Happens(old(Now()), op, out, Now())
    {
      hide Valid, Choice, FreeKept, SplitLimit, Allocated, Good, BlackList.RunIsBad, Happens;
      ghost var p := Now();
      ghost var from, limit, tried;
      var r;
      r, from, limit, tried := AllocLarge(op.lb, op.kind, op.ignoreOffPage, op.useMore, op.finalizerBytesFreed);
      out := [r];
      AllocatedHappens(p, op, from, limit, tried, r, Now());
    }

    predicate IsNew(start: nat, blocks: nat)
      reads this
    {
      forall p: nat | start <= p < start + blocks :: p !in heap
    }
  }

  /** The state between two operations. */
  datatype Moment = Moment(s: Heap, black: BlackList.View, spacing: nat, heapSize: nat, largeAllocd: nat, maxLargeAllocd: nat)

  /** Every counter agrees with the blocks. */
  ghost predicate Sound(p: Moment) {
    && Good(p.s) && p.heapSize == Balance(p.s) == |p.s.heap| * HBLKSIZE && p.largeAllocd == UsedBytes(p.s.e, true, TOP)
  }

  /** The blocks of the heap that the table has. */
  function BlackIn(heap: set<nat>, t: BlackList.Table): set<nat> {
    set b | b in heap && BlackList.GetBit(t, BlackList.PhtHash(b))
  }

  predicate Clear(t: BlackList.Table) {
    forall k: nat | k < PHT_ENTRIES :: !BlackList.GetBit(t, k)
  }

  /** What has been seen since the last collection is what counts now; the lists for the next one start empty. */
  predicate ListsPromoted(b: BlackList.View, c: BlackList.View) {
    && c.interior == b.interior && c.oldStack == b.newStack && c.oldNormal == b.newNormal && Clear(c.newStack)
    && if b.interior then c.newNormal == b.oldNormal else Clear(c.newNormal)
  }

  /** The spacing is the size of the heap over that of its black-listed part, within bounds. */
  predicate Promoted(p: Moment, q: Moment) {
    var total := |BlackIn(p.s.heap, p.black.newStack)|;
    var wanted := if total != 0 then HBLKSIZE * (p.heapSize / (total * HBLKSIZE)) else p.spacing;
    && q == p.(black := q.black, spacing := q.spacing) && ListsPromoted(p.black, q.black)
    && q.spacing == if wanted < 3 * HBLKSIZE then 3 * HBLKSIZE else if wanted > MAXHINCR * HBLKSIZE then MAXHINCR * HBLKSIZE else wanted
  }

  ghost predicate Allocates(p: Moment, op: Op, from: nat, limit: nat, tried: Heap, r: nat, q: Moment)
    requires op.Allocate?
  {
    var size := (op.lb + GRANULE_BYTES - 1) / GRANULE_BYTES * GRANULE_BYTES;
    var n := Blocks(size);
    var z := Request(n, op.kind.OtherKind? || (op.kind.PtrFree? && n > 2), if op.ignoreOffPage then 1 else n, p.spacing, p.black);
    && Allocated(p.s, q.s, r, size) && Choice(p.s.e, z, limit, from, r)
    && ((r == 0 && n * HBLKSIZE < SIGN) || (r != 0 && Len(p.s.e, from) != n) ==>
         && Good(tried) && FreeKept(z, p.s.e, tried.e)
         && SplitLimit(op.useMore, op.finalizerBytesFreed, p.heapSize, p.largeAllocd, p.maxLargeAllocd, tried.bytes, limit))
    && q == p.(s := q.s, largeAllocd := p.largeAllocd + (if r != 0 && n > 1 then n * HBLKSIZE else 0), maxLargeAllocd := q.maxLargeAllocd)
    && q.maxLargeAllocd == if r != 0 && n > 1 && q.largeAllocd > p.maxLargeAllocd then q.largeAllocd else p.maxLargeAllocd
  }

  /** Memory is added to the heap, except for the first two blocks of the address space. */
  ghost predicate Grown(p: Moment, start: nat, blocks: nat, q: Moment) {
    var first := if start < 2 then 2 else start;
    var n := if start + blocks > first then start + blocks - first else 0;
    && q == p.(s := q.s, heapSize := p.heapSize + n * HBLKSIZE) && q.s.largeFree == p.s.largeFree + n * HBLKSIZE
    && (forall x: nat :: x in q.s.heap <==> x in p.s.heap || first <= x < first + n)
    && SameUsed(p.s.e, q.s.e)
  }

  ghost predicate OneFreed(p: Moment, h: nat, q: Moment) {
    var bytes := Len(p.s.e, h) * HBLKSIZE;
    && q == p.(s := q.s, largeAllocd := q.largeAllocd) && q.s.heap == p.s.heap && q.s.largeFree == p.s.largeFree + bytes
    && q.largeAllocd + (if Len(p.s.e, h) > 1 then bytes else 0) == p.largeAllocd
    && !IsUsed(q.s.e, h) && UsedLess(p.s.e, q.s.e, h)
  }

  ghost predicate AllSwept(p: Moment, dead: set<nat>, calls: seq<nat>, q: Moment) {
    && q == p.(s := q.s, largeAllocd := q.largeAllocd) && q.s.heap == p.s.heap
    && Distinct(calls) && (forall a: nat :: a in calls <==> IsUsed(p.s.e, a))
    && (forall a: nat :: IsUsed(q.s.e, a) <==> IsUsed(p.s.e, a) && a !in dead)
    && (forall a: nat :: IsUsed(q.s.e, a) ==> a in p.s.e && q.s.e[a] == p.s.e[a])
  }

  /** What an operation does.  One that is not possible does nothing. */
  ghost predicate Happens(p: Moment, op: Op, out: seq<nat>, q: Moment) {
    match op
    case Grow(start, blocks) =>
      out == [] &&
      if blocks > 0 && start + blocks <= TOP && forall x: nat | start <= x < start + blocks :: x !in p.s.heap
      then Grown(p, start, blocks, q) else q == p
    case Allocate(lb, _, _, _, _) =>
      if lb > 0 then |out| == 1 && exists from, limit, tried :: Allocates(p, op, from, limit, tried, out[0], q) else out == [] && q == p
    case Free(h) => out == [] && if IsUsed(p.s.e, h) then OneFreed(p, h, q) else q == p
    case SweepAll(dead) => AllSwept(p, dead, out, q)
    case FalseHit(b, validOffset) =>
      && out == [] && q == p.(black := p.black.(newNormal := q.black.newNormal))
      && forall k: nat | k < PHT_ENTRIES :: BlackList.GetBit(q.black.newNormal, k) ==
           (BlackList.GetBit(p.black.newNormal, k) ||
            (k == BlackList.PhtHash(b) && validOffset && (b !in p.s.e || BlackList.GetBit(p.black.oldNormal, k))))
    case FalseStackHit(b) =>
      && out == [] && q == p.(black := p.black.(newStack := q.black.newStack))
      && forall k: nat | k < PHT_ENTRIES :: BlackList.GetBit(q.black.newStack, k) ==
           (BlackList.GetBit(p.black.newStack, k) || (k == BlackList.PhtHash(b) && (b !in p.s.e || BlackList.GetBit(p.black.oldStack, k))))
    case Promote => out == [] && Promoted(p, q)
    case Unpromote =>
      out == [] && q == p.(black := p.black.(newStack := p.black.oldStack,
                                             newNormal := if p.black.interior then p.black.newNormal else p.black.oldNormal))
  }

  /** The states of a run, one before and one after each operation. */
  ghost predicate IsTrace(ops: seq<Op>, outs: seq<seq<nat>>, trace: seq<Moment>) {
    && |trace| == |ops| + 1 == |outs| + 1
    && (forall i | 0 <= i <= |ops| :: Sound(trace[i]))
    && forall i | 0 <= i < |ops| :: Happens(trace[i], ops[i], outs[i], trace[i + 1])
  }

  lemma GrownIs(p: Moment, start: nat, blocks: nat, q: Moment)
    requires var first := if start < 2 then 2 else start;
             var n := if start + blocks > first then start + blocks - first else 0;
             && q == p.(s := q.s, heapSize := p.heapSize + n * HBLKSIZE) && q.s.largeFree == p.s.largeFree + n * HBLKSIZE
             && q.s.heap == p.s.heap + Pages(first, n) && SameUsed(p.s.e, q.s.e)
    ensures Grown(p, start, blocks, q)
  {
    hide SameUsed;
  }

  lemma GrownHappens(p: Moment, op: Op, q: Moment)
    requires op.Grow?
    requires if op.blocks > 0 && op.start + op.blocks <= TOP && forall x: nat | op.start <= x < op.start + op.blocks :: x !in p.s.heap
             then Grown(p, op.start, op.blocks, q) else q == p
    ensures Happens(p, op, [], q)
  {
    hide Grown;
  }

  lemma AllocatedHappens(p: Moment, op: Op, from: nat, limit: nat, tried: Heap, r: nat, q: Moment)
    requires op.Allocate? && op.lb > 0 && Allocates(p, op, from, limit, tried, r, q)
    ensures Happens(p, op, [r], q)
  {
    hide Allocates;
    assert Allocates(p, op, from, limit, tried, [r][0], q);
  }

  lemma ListsMoved(b: BlackList.View, c: BlackList.View)
    requires ListsPromoted(b, c)
    ensures c.oldStack == b.newStack
  {
  }

  lemma PromotedIs(p: Moment, q: Moment, total: nat)
    requires total == |BlackIn(p.s.heap, p.black.newStack)| && ListsPromoted(p.black, q.black)
    requires q == p.(black := q.black, spacing := q.spacing)
    requires var wanted := if total * HBLKSIZE != 0 then HBLKSIZE * (p.heapSize / (total * HBLKSIZE)) else p.spacing;
             q.spacing == if wanted < 3 * HBLKSIZE then 3 * HBLKSIZE else if wanted > MAXHINCR * HBLKSIZE then MAXHINCR * HBLKSIZE else wanted
    ensures Promoted(p, q)
  {
    hide ListsPromoted, BlackIn;
  }

  lemma ListsAre(b: BlackList.View, c: BlackList.View)
    requires c.interior == b.interior && c.oldStack == b.newStack && c.oldNormal == b.newNormal
    requires forall k: nat | k < PHT_ENTRIES :: !BlackList.GetBit(c.newStack, k)
    requires if b.interior then c.newNormal == b.oldNormal else forall k: nat | k < PHT_ENTRIES :: !BlackList.GetBit(c.newNormal, k)
    ensures ListsPromoted(b, c)
  {
  }

  lemma PromotedHappens(p: Moment, op: Op, q: Moment)
    requires op.Promote? && Promoted(p, q)
    ensures Happens(p, op, [], q)
  {
    hide Promoted;
  }

  lemma NoRequest(p: Moment, op: Op)
    requires op.Allocate? && op.lb == 0
    ensures Happens(p, op, [], p)
  {
  }

  lemma FreedHappens(p: Moment, op: Op, q: Moment)
    requires op.Free? && if IsUsed(p.s.e, op.h) then OneFreed(p, op.h, q) else q == p
    ensures Happens(p, op, [], q)
  {
    hide OneFreed;
  }

  lemma SweptHappens(p: Moment, op: Op, calls: seq<nat>, q: Moment)
    requires op.SweepAll? && AllSwept(p, op.dead, calls, q)
    ensures Happens(p, op, calls, q)
  {
    hide AllSwept;
  }

  datatype Op =
    | Grow(start: nat, blocks: nat)
    | Allocate(lb: nat, kind: Kind, ignoreOffPage: bool, useMore: bool, finalizerBytesFreed: nat)
    | Free(h: nat)
    | SweepAll(dead: set<nat>)
    | FalseHit(b: nat, validOffset: bool)
    | FalseStackHit(b: nat)
    | Promote
    | Unpromote

  /** The sweep has come to entry j of bottom index i: exactly the used blocks before that were visited,
      and of those exactly the dead ones have been freed. */
  ghost predicate Sweeping(e0: Entries, e: Entries, keys: seq<nat>, calls: seq<nat>, dead: set<nat>, i: nat, j: int) {
    && Distinct(calls)
    && (forall a: nat :: IsUsed(e, a) <==> IsUsed(e0, a) && !(a in calls && a in dead))
    && (forall a: nat :: IsUsed(e, a) ==> e[a] == e0[a])
    && (forall a: nat :: a in calls ==> IsUsed(e0, a) && (i < |keys| ==> Visited(keys, i, j, a)))
    && (forall a: nat :: IsUsed(e0, a) && a !in calls ==> i < |keys| && !Visited(keys, i, j, a))
  }

  predicate Visited(keys: seq<nat>, i: nat, j: int, a: nat)
    requires i < |keys|
  {
    a / BOTTOM_SZ < keys[i] || (a / BOTTOM_SZ == keys[i] && a > At(keys, i, j))
  }

  predicate FitsIn(e: Entries, h: nat, n: nat, maySplit: bool) {
    if maySplit then n <= Len(e, h) else n == Len(e, h)
  }

  /** w is reached from s by allocating block r (nothing, if r is 0) and perhaps dropping some blocks. */
  ghost predicate Allocated(s: Heap, w: Heap, r: nat, sz: nat) {
    KeptBut(s, w, r) && (r != 0 ==> r in w.e && w.e[r] == Header(sz, false))
  }

  predicate AtElement(l: seq<nat>, k: nat, h: nat) {
    k <= |l| && h == (if k < |l| then l[k] else 0)
  }

  /** The search of a list has come to element k of it, which is h. */
  ghost predicate Searching(s: Heap, w: Heap, index: nat, k: nat, h: nat, sz: nat) {
    && Good(w) && Allocated(s, w, 0, sz) && index <= N_HBLK_FLS && index < |w.v.lists| && AtElement(w.v.lists[index], k, h)
    && index < |s.v.lists| && |w.v.lists[index]| <= |s.v.lists[index]|
  }

  /** A request for n blocks.  If the black list binds, no run of `eff` blocks from the start may be black-listed. */
  datatype Request = Request(n: nat, binds: bool, eff: nat, spacing: nat, black: BlackList.View)

  /** In the free block of len blocks at h every start is black-listed, and what is asked for, or what would be left,
      is too short for taking the block all the same. */
  ghost predicate NoPlace(q: Request, h: nat, len: nat) {
    && q.binds && (forall b: nat | h <= b && b + q.n <= h + len :: BlackList.RunIsBad(q.black, b, q.eff))
    && (q.n * HBLKSIZE <= q.spacing || (len - q.n) * HBLKSIZE <= q.spacing)
  }

  /** The request is met at r in this block: at the first start that is not black-listed, or if all are, and much is
      asked for and much would be left, at the very beginning. */
  ghost predicate PlacedAt(q: Request, h: nat, len: nat, r: nat) {
    && h <= r && r + q.n <= h + len
    && (!q.binds ==> r == h)
    && (q.binds ==> forall b: nat | h <= b < r :: BlackList.RunIsBad(q.black, b, q.eff))
    && (q.binds && BlackList.RunIsBad(q.black, r, q.eff) ==>
          && r == h && q.n * HBLKSIZE > q.spacing && (len - q.n) * HBLKSIZE > q.spacing
          && forall b: nat | h <= b && b + q.n <= h + len :: BlackList.RunIsBad(q.black, b, q.eff))
  }

  /** The block at h is large enough, and has a place for the request. */
  ghost predicate WouldDo(e: Entries, h: nat, q: Request, maySplit: bool) {
    FitsIn(e, h, q.n, maySplit) && !NoPlace(q, h, Len(e, h))
  }

  /** If any of the blocks passed so far would have done, the one at hand does. */
  ghost predicate SomeFits(w: Heap, index: nat, k: nat, h: nat, q: Request, maySplit: bool) {
    && index < |w.v.lists| && k <= |w.v.lists[index]|
    && forall j: nat :: j < k && WouldDo(w.e, w.v.lists[index][j], q, maySplit) ==> h != 0 && WouldDo(w.e, h, q, maySplit)
  }

  /** The search of u, which had come to element k, is to go on in w after element j, which is `at`. */
  ghost predicate GoesOn(s: Heap, u: Heap, w: Heap, index: nat, k: nat, j: nat, at: nat, sz: nat, q: Request, maySplit: bool) {
    && Searching(s, w, index, j, at, sz) && at != 0 && at in w.v.next && SomeFits(w, index, j + 1, w.v.next[at], q, maySplit)
    && j <= k && index < |u.v.lists| && |w.v.lists[index]| - j <= |u.v.lists[index]| - k
  }

  ghost predicate Shorter(u: Heap, w: Heap, index: nat) {
    index < |u.v.lists| && index < |w.v.lists| && |w.v.lists[index]| < |u.v.lists[index]|
  }

  /** No block of the size of the list would do. */
  ghost predicate NoneFit(e: Entries, index: nat, q: Request, maySplit: bool) {
    forall h: nat :: IsFree(e, h) && FlIndex(Len(e, h)) == index ==> !WouldDo(e, h, q, maySplit)
  }

  /** The request is met at r in the free block `from`. */
  ghost predicate TakenFrom(e: Entries, q: Request, index: nat, maySplit: bool, from: nat, r: nat) {
    IsFree(e, from) && FlIndex(Len(e, from)) == index && FitsIn(e, from, q.n, maySplit) && PlacedAt(q, from, Len(e, from), r)
  }

  /** Free blocks are the same, except that some that have no place for the request may be gone. */
  ghost predicate FreeKept(q: Request, e: Entries, f: Entries) {
    && (forall a: nat :: IsFree(f, a) ==> IsFree(e, a) && f[a] == e[a])
    && (forall a: nat :: IsFree(e, a) && !IsFree(f, a) ==> NoPlace(q, a, Len(e, a)))
  }

  ghost predicate FreeLess(e: Entries, f: Entries, h: nat) {
    && (forall a: nat :: IsFree(f, a) ==> a != h && IsFree(e, a) && f[a] == e[a])
    && (forall a: nat :: IsFree(e, a) && a != h ==> IsFree(f, a))
  }

  /** Exact fits are preferred, and then blocks on earlier lists; blocks beyond list `limit` are not split.  If nothing
      is chosen (r is 0), no block that might have been taken has a place for the request. */
  ghost predicate Choice(e: Entries, q: Request, limit: nat, from: nat, r: nat) {
    if r != 0 then
      && IsFree(e, from) && PlacedAt(q, from, Len(e, from), r) && (Len(e, from) == q.n || FlIndex(Len(e, from)) <= limit)
      && forall h: nat ::
           IsFree(e, h) && Len(e, from) != q.n <= Len(e, h) && (Len(e, h) == q.n || FlIndex(Len(e, h)) < FlIndex(Len(e, from)))
           ==> NoPlace(q, h, Len(e, h))
    else
      forall h: nat :: IsFree(e, h) && q.n <= Len(e, h) && (Len(e, h) == q.n || FlIndex(Len(e, h)) <= limit) ==> NoPlace(q, h, Len(e, h))
  }

  /** The last list whose blocks may be split.  If that is a matter of what is left for large objects, it is the
      highest list such that it and those above it, with what is in use, hold as much as large objects ever did. */
  predicate SplitLimit(useMore: bool, finalizerBytesFreed: nat, heapSize: nat, largeAllocd: nat, maxLargeAllocd: nat, bytes: seq<nat>, limit: nat) {
    && limit <= |bytes| == N_HBLK_FLS + 1
    && if useMore then limit == N_HBLK_FLS
       else if finalizerBytesFreed > heapSize / 16 then limit == 0
       else (limit > 0 ==> largeAllocd + Total(bytes[limit..]) >= maxLargeAllocd)
            && forall n: nat | limit < n <= N_HBLK_FLS :: largeAllocd + Total(bytes[n..]) < maxLargeAllocd
  }

  datatype Kind = PtrFree | Uncollectable | OtherKind

  const MAX_BLACK_LIST_ALLOC: nat := 2 * HBLKSIZE

  /** Blocks of this kind and length may start where the black list forbids others to. */
  predicate Exempt(kind: Kind, n: nat) {
    kind.Uncollectable? || (kind.PtrFree? && n * HBLKSIZE <= MAX_BLACK_LIST_ALLOC)
  }

  /** How many blocks must not be black-listed: with IGNORE_OFF_PAGE, pointers to other blocks do not count. */
  function Eff(ignoreOffPage: bool, n: nat): nat {
    if ignoreOffPage then 1 else n
  }

  datatype Verdict = TakeAt(start: nat) | PassBy | DropIt

  lemma GoodSizes(s: Heap, h: nat, next: nat)
    requires Good(s) && IsFree(s.e, h) && (next != 0 ==> IsFree(s.e, next))
    ensures s.e[h].sz == Len(s.e, h) * HBLKSIZE && Len(s.e, h) > 0 && 2 <= h
    ensures next != 0 ==> s.e[next].sz == Len(s.e, next) * HBLKSIZE
  {
    LenFacts(s.e, h);
    if next != 0 {
      LenFacts(s.e, next);
    }
  }

  /** Bytes in use and on lists. */
  function Balance(s: Heap): nat {
    UsedBytes(s.e, false, TOP) + s.largeFree
  }

  /** Blocks in use stay in use with the same headers; new ones are single blocks, except for r. */
  ghost predicate KeptBut(s: Heap, w: Heap, r: nat) {
    && w.heap == s.heap
    && (forall a: nat :: IsUsed(s.e, a) ==> IsUsed(w.e, a) && w.e[a] == s.e[a] && a != r)
    && (forall a: nat :: IsUsed(w.e, a) && !IsUsed(s.e, a) && a != r ==> w.e[a] == Header(HBLKSIZE, false))
    && Balance(w) == Balance(s)
    && UsedBytes(w.e, true, TOP) == UsedBytes(s.e, true, TOP) + Weight(w.e, true, r)
  }

  ghost predicate Kept(s: Heap, w: Heap) {
    Good(w) && KeptBut(s, w, 0)
  }

  /** In the middle of dropping the block h .. limit: the blocks below p are in use already, and the rest
      is thought of as one free block that is on no list. */
  ghost predicate Dropping(s: Heap, w: Heap, h: nat, p: nat, limit: nat) {
    && Exact(w.e, 0) && Covers(w.e, s.heap) && NoAdjacent(w.e, 0) && w.heap == s.heap
    && Linked(w.v) && OnLists(w.e, w.v, w.bytes, if p < limit then p else 0, 0)
    && w.largeFree == Total(w.bytes) && w.largeFree + (limit - h) * HBLKSIZE == s.largeFree
    && (p < limit ==> IsFree(w.e, p) && End(w.e, p) == limit)
    && DropUsed(s.e, w.e, h, p) && FreeRest(s.e, w.e, h, p, limit)
  }

  /** Other free blocks are as they were.  Nothing else starts inside the dropped one. */
  ghost predicate FreeRest(e: Entries, g: Entries, h: nat, p: nat, limit: nat) {
    && (forall a: nat :: h < a < limit ==> a !in e)
    && (forall a: nat :: IsFree(e, a) && a != h ==> IsFree(g, a) && g[a] == e[a])
    && (forall a: nat :: IsFree(g, a) && !(a == p && p < limit) ==> IsFree(e, a) && a != h)
  }

  ghost predicate DropUsed(e: Entries, g: Entries, h: nat, p: nat) {
    && h <= p
    && (forall a: nat :: IsUsed(e, a) ==> IsUsed(g, a) && g[a] == e[a])
    && (forall a: nat :: IsUsed(g, a) && !IsUsed(e, a) ==> g[a] == Header(HBLKSIZE, false))
    && UsedBytes(g, false, TOP) == UsedBytes(e, false, TOP) + (p - h) * HBLKSIZE
    && UsedBytes(g, true, TOP) == UsedBytes(e, true, TOP)
  }

  /** The map with the first n blocks of the free block at h as a block of their own. */
  function FirstPart(e: Entries, h: nat, n: nat): Entries
    requires IsFree(e, h) && n <= Len(e, h)
  {
    if e[h].sz <= n * HBLKSIZE then e else Cut(e, h, n)
  }

  /** What GC_get_first_part makes of the map: the header at h is not up to date. */
  predicate FirstCut(e: Entries, e': Entries, h: nat, n: nat) {
    IsFree(e, h) && n <= Len(e, h) && e' == FirstPart(e, h, n)[h := e[h]]
  }

  lemma FlHasLists(v: FreeLists.View)
    requires Linked(v)
    ensures |v.lists| == |v.heads| == N_HBLK_FLS + 1
  {
  }

  lemma ExactLen(e: Entries, h: nat)
    requires Exact(e, 0) && IsFree(e, h)
    ensures e[h].sz == Len(e, h) * HBLKSIZE && Len(e, h) > 0 && h != 0
  {
    LenFacts(e, h);
  }

  lemma Unlisting(s: Heap, h: nat, index: nat)
    requires Listed(s, 0, h) && h in s.v.home && s.v.home[h] == index
    ensures index <= N_HBLK_FLS && |s.bytes| == |s.v.lists| == N_HBLK_FLS + 1 && Size(s.e, h) <= s.bytes[index]
  {
    SizeListed(s.e, s.v, s.bytes, 0, h, h);
  }

  lemma Unlisted(s: Heap, w: Heap, h: nat, index: nat)
    requires Exact(s.e, 0) && Listed(s, 0, h) && h in s.v.home && s.v.home[h] == index && Linked(w.v) && w.e == s.e
    requires Removes(s.v, w.v, h) && Lowered(s.bytes, w.bytes, index, Size(s.e, h))
    ensures Listed(w, h, 0) && Total(w.bytes) + Size(s.e, h) == Total(s.bytes)
  {
    ExactNoNull(s.e, 0);
    hide Linked, OnLists, Exact;
    Unlisting(s, h, index);
    RemovedOnLists(s.e, s.v, w.v, s.bytes, h, h);
  }

  lemma RestIsNew(s: Heap, h: nat, n: nat)
    requires IsFree(s.e, h) && n * HBLKSIZE < s.e[h].sz && CutSizes(s.e, Cut(s.e, h, n), h, n) && Listed(s, h, 0)
    ensures h + n !in s.v.home && h + n != 0 && h + n != h
  {
  }

  lemma RestAdded(s: Heap, w: Heap, h: nat, n: nat)
    requires Exact(s.e, 0) && IsFree(s.e, h) && 0 < n && n * HBLKSIZE < s.e[h].sz && Listed(s, h, 0) && Linked(w.v)
    requires CutSizes(s.e, Cut(s.e, h, n), h, n)
    requires var rest := s.e[h].sz - n * HBLKSIZE;
             && w.e == Freed(s.e[h + n := Header(rest, false)], h + n)
             && Adds(s.v, w.v, h + n, FlIndex(rest / HBLKSIZE)) && Raised(s.bytes, w.bytes, FlIndex(rest / HBLKSIZE), rest)
    ensures w.e == Cut(s.e, h, n)[h := s.e[h]]
    ensures Listed(w.(e := Cut(s.e, h, n)), h, 0) && Total(w.bytes) + n * HBLKSIZE == Total(s.bytes) + s.e[h].sz
  {
    LenFacts(s.e, h);
    ExactNoNull(s.e, 0);
    var g := Cut(s.e, h, n);
    assert Size(g, h + n) == s.e[h].sz - n * HBLKSIZE && Len(g, h + n) == (s.e[h].sz - n * HBLKSIZE) / HBLKSIZE;
    assert w.e == g[h := s.e[h]];
    hide Linked, OnLists, Exact, Cut, CutSizes;
    CutAdded(s.e, g, s.v, w.v, s.bytes, w.bytes, h, n, FlIndex(Len(g, h + n)));
  }

  /** GC_add_to_fl sets FREE_BLK. */
  function Freed(e: Entries, h: nat): Entries
    requires IsHdr(e, h)
  {
    e[h := Header(e[h].sz, true)]
  }

  lemma FreedSame(e: Entries, h: nat)
    requires IsFree(e, h)
    ensures Freed(e, h) == e
  {
  }

  /** Bytes on all lists, and in the block that is on none. */
  function Loose(s: Heap, h: nat): nat {
    Total(s.bytes) + Size(s.e, h)
  }

  /** What GC_free_block_ending_at promises of its result. */
  ghost predicate EndsAt(e: Entries, h: nat, prev: nat) {
    if prev == 0 then forall b: nat :: IsFree(e, b) ==> End(e, b) != h
    else IsFree(e, prev) && End(e, prev) == h
  }

  lemma SameRefl(e: Entries)
    ensures SameUsed(e, e)
  {
  }

  // One of two free neighbours leaves its list, and they become one block, which is on no list.
  lemma Absorbed(s: Heap, w: Heap, a: nat, b: nat, listed: nat)
    requires Exact(s.e, 0) && IsFree(s.e, a) && IsFree(s.e, b) && End(s.e, a) == b && a != b
    requires (listed == a || listed == b) && Listed(s, if listed == a then b else a, 0)
    requires w.e == Merged(s.e, a, b) && Linked(w.v) && Removes(s.v, w.v, listed)
    requires Lowered(s.bytes, w.bytes, s.v.home[listed], s.e[listed].sz)
    ensures Listed(w, a, 0) && Total(w.bytes) + s.e[listed].sz == Total(s.bytes)
  {
    hide Exact, Linked, Merged, FlIndex, Total, ListBytes, NoNull;
    ExactNoNull(s.e, 0);
    NeighbourUnlisted(s, w, a, b, listed);
    MergedOnLists(s.e, a, b, w.v, w.bytes);
  }

  lemma NeighbourUnlisted(s: Heap, w: Heap, a: nat, b: nat, listed: nat)
    requires NoNull(s.e) && IsFree(s.e, a) && IsFree(s.e, b) && a != b
    requires (listed == a || listed == b) && Listed(s, if listed == a then b else a, 0)
    requires Removes(s.v, w.v, listed) && Lowered(s.bytes, w.bytes, s.v.home[listed], s.e[listed].sz)
    ensures a !in w.v.home && b !in w.v.home && CountersOk(s.e, w.v.lists, w.bytes)
    ensures forall c: nat :: IsFree(s.e, c) && c != a && c != b <==> c in w.v.home
    ensures forall c: nat :: c in w.v.home ==> w.v.home[c] == FlIndex(Len(s.e, c))
    ensures Total(w.bytes) + s.e[listed].sz == Total(s.bytes)
  {
    hide Linked, FlIndex, Len, ListBytes;
    var i := s.v.home[listed];
    SizeListed(s.e, s.v, s.bytes, if listed == a then b else a, 0, listed);
    TotalUpdate(s.bytes, i, w.bytes[i]);
    hide Total;
  }

  lemma OneListed(s: Heap, a: nat, b: nat, listed: nat)
    requires Exact(s.e, 0) && IsFree(s.e, a) && IsFree(s.e, b) && End(s.e, a) == b
    requires (listed == a || listed == b) && Listed(s, if listed == a then b else a, 0)
    ensures a < b && Merged(s.e, a, b) == (s.e - {b})[a := Header(s.e[a].sz + s.e[b].sz, true)]
    ensures listed in s.v.home && s.v.home[listed] == FlIndex(s.e[listed].sz / HBLKSIZE) <= N_HBLK_FLS
    ensures |s.bytes| == |s.v.lists| == N_HBLK_FLS + 1 && s.e[listed].sz <= s.bytes[s.v.home[listed]]
  {
    hide Linked;
    LenFacts(s.e, a);
    LenFacts(s.e, b);
    SizeListed(s.e, s.v, s.bytes, if listed == a then b else a, 0, listed);
  }

  lemma NothingYet(s: Heap)
    requires s.e == map[] && s.heap == {} && s.largeFree == 0 && Linked(s.v) && s.v.home == map[]
    requires s.v.lists == seq(N_HBLK_FLS + 1, _ => []) && s.bytes == seq(N_HBLK_FLS + 1, _ => 0)
    ensures Good(s)
  {
    NoBytes(s.bytes);
  }

  lemma {:induction false} NoBytes(bytes: seq<nat>)
    requires forall i | 0 <= i < |bytes| :: bytes[i] == 0
    ensures Total(bytes) == 0
  {
    if |bytes| > 0 {
      NoBytes(bytes[1..]);
    }
  }

  // ----- the phases of GC_freehblk

  lemma Releasing(s: Heap, h: nat)
    requires TilesHeap(s, h, 0) && Listed(s, 0, 0) && IsUsed(s.e, h)
    ensures Len(s.e, h) > 0 && Len(s.e, h) == Blocks(s.e[h].sz)
    ensures Released(s.e, h) == WithoutCounts(s.e, h, End(s.e, h))[h := Header(Len(s.e, h) * HBLKSIZE, true)]
    ensures var s1 := s.(e := Released(s.e, h));
            && TilesHeap(s1, 0, h) && Listed(s1, h, 0)
            && IsFree(s1.e, h) && s1.e[h].sz == Len(s.e, h) * HBLKSIZE && End(s1.e, h) == End(s.e, h)
            && UsedLess(s.e, s1.e, h) && Tiles(s1.e) && CountsOnly(s1.e)
  {
    hide Linked, OnLists, Covers, NoAdjacent;
    ReleasedExact(s.e, h);
    ReleasedEnds(s.e, h);
    ReleasedCovers(s.e, h, s.heap);
    ReleasedAdjacent(s.e, h);
    ReleasedOnLists(s.e, h, s.v, s.bytes);
  }

  // What follows a block is a header or nothing, never a forwarding count.
  lemma NextIsHeader(e: Entries, h: nat)
    requires Exact(e, 0) && IsHdr(e, h)
    ensures End(e, h) in e ==> IsHdr(e, End(e, h))
    ensures IsFree(e, h) ==> End(e, h) == h + e[h].sz / HBLKSIZE
    ensures IsFree(e, h) && IsFree(e, End(e, h)) ==> e[h].sz + e[End(e, h)].sz < SIGN
  {
    var q := End(e, h);
    LenFacts(e, h);
    if q in e && e[q].Forward? {
      var c: nat :| IsUsed(e, c) && c < q < End(e, c) && Forwards(e, c, q);
      assert false;
    }
    if IsFree(e, h) && IsFree(e, q) {
      LenFacts(e, q);
    }
  }

  lemma LooseFacts(s: Heap, h: nat)
    requires Exact(s.e, 0) && Listed(s, h, 0) && IsFree(s.e, h)
    ensures h !in s.v.home && h != 0 && s.e[h].sz / HBLKSIZE == Len(s.e, h)
  {
    LenFacts(s.e, h);
  }

  lemma Adding(s: Heap, w: Heap, h: nat)
    requires TilesHeap(s, 0, 0) && Listed(s, h, 0) && IsFree(s.e, h) && Loose(s, h) == s.largeFree && Linked(w.v)
    requires w == s.(e := Freed(s.e, h), v := w.v, bytes := w.bytes)
    requires var i := FlIndex(s.e[h].sz / HBLKSIZE); Adds(s.v, w.v, h, i) && Raised(s.bytes, w.bytes, i, Size(s.e, h))
    ensures Good(w)
  {
    ExactNoNull(s.e, 0);
    LooseFacts(s, h);
    assert w.e == s.e;
    hide Exact, Covers, NoAdjacent, Linked;
    AddedOnLists(s.e, s.v, w.v, s.bytes, h);
  }

  lemma SameTrans(e: Entries, e1: Entries, e2: Entries, e3: Entries, h: nat)
    requires UsedLess(e, e1, h) && IsFree(e1, h) && SameUsed(e1, e2) && SameUsed(e2, e3)
    ensures UsedLess(e, e3, h) && !IsUsed(e3, h)
  {
  }

  lemma AfterNext(s: Heap, w: Heap, h: nat, b: nat)
    requires TilesHeap(s, 0, h) && IsFree(s.e, h) && IsFree(s.e, b) && End(s.e, h) == b
    requires w.e == Merged(s.e, h, b) && w.heap == s.heap
    ensures TilesHeap(w, 0, h) && IsFree(w.e, h) && !IsFree(w.e, End(w.e, h)) && SameUsed(s.e, w.e)
    ensures forall prev: nat :: EndsAt(s.e, h, prev) ==> EndsAt(w.e, h, prev)
    ensures Size(w.e, h) == Size(s.e, h) + s.e[b].sz
  {
    hide NoAdjacent, Covers;
    MergedExact(s.e, h, b);
    MergedEnds(s.e, h, b);
    MergedCovers(s.e, h, b, s.heap);
    MergedNext(s.e, h, b);
    LenFacts(s.e, h);
    hide Merged;
    assert forall c: nat | IsHdr(s.e, c) && c != h && c != b :: End(w.e, c) == End(s.e, c);
  }

  lemma AfterPrev(s: Heap, w: Heap, a: nat, h: nat)
    requires TilesHeap(s, 0, h) && IsFree(s.e, h) && IsFree(s.e, a) && End(s.e, a) == h && !IsFree(s.e, End(s.e, h))
    requires w.e == Merged(s.e, a, h) && w.heap == s.heap
    ensures TilesHeap(w, 0, 0) && IsFree(w.e, a) && SameUsed(s.e, w.e)
    ensures Size(w.e, a) == Size(s.e, h) + s.e[a].sz
  {
    hide NoAdjacent, Covers;
    MergedExact(s.e, a, h);
    MergedEnds(s.e, a, h);
    MergedCovers(s.e, a, h, s.heap);
    MergedPrev(s.e, a, h);
  }

  lemma SplitIsNew(s: Heap, h: nat, n: nat, index: nat)
    requires Exact(s.e, 0) && IsFree(s.e, h) && h < n < End(s.e, h) && Listed(s, 0, 0) && h in s.v.home && s.v.home[h] == index
    ensures n !in s.v.home && index <= N_HBLK_FLS && |s.bytes| == |s.v.lists| == N_HBLK_FLS + 1 && (n - h) * HBLKSIZE <= s.bytes[index]
  {
    LenFacts(s.e, h);
    CutHasSizes(s.e, h, n - h);
    SizeListed(s.e, s.v, s.bytes, 0, 0, h);
  }

  lemma FirstIsNew(s: Heap, w: Heap, h: nat, n: nat)
    requires Replaces(s.v, w.v, h, n) && h != n
    ensures h !in w.v.home
  {
  }

  lemma Splitting(s: Heap, s1: Heap, w: Heap, h: nat, k: nat, index: nat)
    requires CutSizes(s.e, w.e, h, k) && NoNull(s.e) && Listed(s, 0, 0) && h in s.v.home && s.v.home[h] == index
    requires Linked(s1.v) && Linked(w.v) && Replaces(s.v, s1.v, h, h + k) && Lowered(s.bytes, s1.bytes, index, k * HBLKSIZE)
    requires Adds(s1.v, w.v, h, FlIndex(k)) && Raised(s1.bytes, w.bytes, FlIndex(k), k * HBLKSIZE)
    ensures Listed(w, 0, h + k) && h + k in w.v.home && w.v.home[h + k] == index && Total(w.bytes) == Total(s.bytes)
  {
    SizesAre(s.e, w.e, h, k);
    hide Linked, OnLists, CutSizes, FlIndex, Size, Len;
    TotalUpdate(s1.bytes, FlIndex(k), w.bytes[FlIndex(k)]);
    OnListsFacts(s.e, s.v, s.bytes);
    SplitCounters(s.e, w.e, s.v, s1.v, s.bytes, s1.bytes, h, k, index);
    SplitOnLists(s.e, w.e, s.v, s1.v, w.v, s1.bytes, w.bytes, h, k, FlIndex(k));
  }

  lemma SizesAre(e: Entries, g: Entries, h: nat, k: nat)
    requires CutSizes(e, g, h, k)
    ensures Size(g, h) == k * HBLKSIZE && Len(g, h) == k
  {
  }

  // ----- putting a block to use

  lemma FrontTiles(s: Heap, h: nat, n: nat)
    requires TilesHeap(s, 0, h) && IsFree(s.e, h) && !IsFree(s.e, End(s.e, h)) && 0 < n <= Len(s.e, h)
    ensures var g := FirstPart(s.e, h, n);
            TilesHeap(s.(e := g), 0, h) && IsFree(g, h) && Len(g, h) == n && SameUsed(s.e, g)
  {
    LenFacts(s.e, h);
    hide Covers, NoAdjacent;
    if n < Len(s.e, h) {
      CutExact(s.e, h, n);
      CutEnds(s.e, h, n);
      CutCovers(s.e, h, n, s.heap);
      FirstPartAdjacent(s.e, h, n);
    }
  }

  lemma SetUpIs(e: Entries, h: nat, n: nat, sz: nat)
    requires IsFree(e, h) && 0 < n == Blocks(sz) <= Len(e, h) && sz > 0
    ensures var g := FirstPart(e, h, n); WithCounts(g[h := e[h]], h, h + n)[h := Header(sz, false)] == Taken(g, h, sz)
  {
    hide FirstPart;
    var g := FirstPart(e, h, n);
    var x := WithCounts(g[h := e[h]], h, h + n)[h := Header(sz, false)];
    var y := Taken(g, h, sz);
    assert forall q: nat :: q in x <==> q in y;
    assert forall q: nat :: q in x ==> x[q] == y[q];
  }

  lemma Fronted(e: Entries, s: Heap, w: Heap, h: nat, sz: nat)
    requires TilesHeap(s, 0, h) && Listed(s, h, 0) && IsFree(s.e, h) && sz > 0 && sz % GRANULE_BYTES == 0 && Blocks(sz) == Len(s.e, h)
    requires w == s.(e := Taken(s.e, h, sz), largeFree := w.largeFree) && w.largeFree == Total(s.bytes) && SameUsed(e, s.e) && IsFree(e, h)
    ensures Good(w) && w.e[h] == Header(sz, false) && UsedLess(e, w.e, h)
  {
    hide Covers, NoAdjacent, Linked, OnLists;
    TakenExact(s.e, h, sz);
    TakenEnds(s.e, h, sz);
    TakenCovers(s.e, h, sz, s.heap);
    TakenAdjacent(s.e, h, sz);
    TakenOnLists(s.e, h, sz, s.v, s.bytes);
  }

  // ----- new memory

  lemma NoPages(heap: set<nat>, h: nat)
    ensures heap == heap + Pages(h, 0)
  {
  }

  lemma NewPages(heap: set<nat>, p: nat, n: nat)
    requires forall q: nat :: p <= q < p + n ==> q !in heap
    ensures |heap + Pages(p, n)| == |heap| + n
  {
    assert heap !! Pages(p, n);
  }

  lemma NewMemory(s: Heap, p: nat, n: nat)
    requires Good(s) && 2 <= p && n > 0 && p + n <= TOP && forall q: nat :: p <= q < p + n ==> q !in s.heap
    ensures var w := s.(e := s.e[p := Header(n * HBLKSIZE, false)], heap := s.heap + Pages(p, n));
            TilesHeap(w, p, 0) && Listed(w, 0, 0) && Len(w.e, p) == n && p !in s.e
  {
    hide Linked, NoAdjacent, OnLists, Exact, Covers, Pages;
    Outside(s.e, s.heap, p, n);
    AddedExact(s.e, p, n);
    AddedCovers(s.e, p, n, s.heap);
    AddedAdjacent(s.e, p, n);
    NewOnLists(s, p, n);
  }

  lemma NewOnLists(s: Heap, p: nat, n: nat)
    requires Exact(s.e, 0) && Listed(s, 0, 0) && p !in s.e
    ensures OnLists(s.e[p := Header(n * HBLKSIZE, false)], s.v, s.bytes, 0, 0)
  {
    hide Linked;
    ExactNoNull(s.e, 0);
    var e' := s.e[p := Header(n * HBLKSIZE, false)];
    hide Exact;
    assert forall x: nat | x in s.v.home :: Size(s.e, x) == Size(e', x) && Len(s.e, x) == Len(e', x);
    forall j: nat | j <= N_HBLK_FLS ensures s.bytes[j] == ListBytes(e', s.v.lists[j]) {
      CountersSame(s.e, e', s.v, s.bytes, j);
    }
  }

  lemma Outside(e: Entries, heap: set<nat>, p: nat, n: nat)
    requires Exact(e, 0) && Covers(e, heap) && n > 0 && forall q: nat :: p <= q < p + n ==> q !in heap
    ensures Unused(e, p, n)
  {
    forall q: nat | p <= q < p + n ensures q !in e {
      if q in e {
        if e[q].Forward? {
          var c: nat :| IsUsed(e, c) && c < q < End(e, c) && Forwards(e, c, q);
          assert Within(e, c, q);
        } else {
          LenFacts(e, q);
          assert Within(e, q, q);
        }
      }
    }
    forall a: nat | IsHdr(e, a) && a < p ensures End(e, a) <= p {
      assert Within(e, a, p) ==> p in heap;
    }
  }

  lemma MemoryAdded(e: Entries, e1: Entries, e2: Entries, p: nat, n: nat)
    requires p !in e && e1 == e[p := Header(n * HBLKSIZE, false)] && UsedLess(e1, e2, p) && !IsUsed(e2, p)
    ensures SameUsed(e, e2)
  {
  }

  // ----- dropping

  lemma GoodListed(s: Heap, h: nat)
    requires Good(s) && IsFree(s.e, h)
    ensures Listed(s, 0, h) && h in s.v.home && s.v.home[h] == FlIndex(Len(s.e, h)) && Exact(s.e, 0)
  {
    ExactNoNull(s.e, 0);
  }

  lemma StartDrop(s: Heap, w: Heap, h: nat)
    requires Good(s) && IsFree(s.e, h) && Listed(w, h, 0) && Total(w.bytes) + Size(s.e, h) == Total(s.bytes)
    requires w == s.(v := w.v, bytes := w.bytes, largeFree := w.largeFree) && w.largeFree + Size(s.e, h) == s.largeFree
    ensures Dropping(s, w, h, h, h + s.e[h].sz / HBLKSIZE) && s.e[h].sz / HBLKSIZE > 0
  {
    hide Linked, OnLists, UsedBytes;
    LenFacts(s.e, h);
    NothingInside(s.e, h);
  }

  lemma NothingInside(e: Entries, h: nat)
    requires Exact(e, 0) && IsFree(e, h)
    ensures forall a: nat :: h < a < End(e, h) ==> a !in e
  {
    assert forall c: nat | IsHdr(e, c) && c != h :: End(e, c) <= h || End(e, h) <= c;
    forall a: nat | h < a < End(e, h) ensures a !in e {
      if a in e && e[a].Forward? {
        var c: nat :| IsUsed(e, c) && c < a < End(e, c) && Forwards(e, c, a);
        assert false;
      }
      assert IsHdr(e, a) ==> End(e, h) <= a;
    }
  }

  lemma RestStep(e: Entries, f: Entries, g: Entries, h: nat, p: nat, limit: nat, x: nat)
    requires FreeRest(e, f, h, p, limit) && h <= p < limit
    requires g == if p + 1 < limit then f[p := Header(HBLKSIZE, false)][p + 1 := Header(x, true)] else f[p := Header(HBLKSIZE, false)]
    ensures FreeRest(e, g, h, p + 1, limit)
  {
    assert (p != h ==> p !in e) && (p + 1 < limit ==> p + 1 !in e);
    forall a: nat | IsFree(e, a) && a != h ensures IsFree(g, a) && g[a] == e[a] {
      assert a != p && (p + 1 < limit ==> a != p + 1);
    }
    forall a: nat | IsFree(g, a) && !(a == p + 1 && p + 1 < limit) ensures IsFree(e, a) && a != h {
      assert a != p && IsFree(f, a);
    }
  }

  lemma OneDropped(s: Heap, w: Heap, h: nat, p: nat, limit: nat)
    requires Dropping(s, w, h, p, limit) && h <= p < limit
    ensures 0 < Len(w.e, p) && 2 <= p && IsFree(w.e, p) && IsFree(FirstPart(w.e, p, 1), p)
    ensures var g := Taken(FirstPart(w.e, p, 1), p, HBLKSIZE);
            && Dropping(s, w.(e := g), h, p + 1, limit)
            && (p + 1 < limit ==> p + 1 !in w.e)
            && g - (if p + 1 < limit then {p + 1} else {}) == w.e[p := Header(HBLKSIZE, false)]
  {
    hide Covers, NoAdjacent, Linked, OnLists, DropUsed, FreeRest;
    LenFacts(w.e, p);
    assert !IsFree(w.e, limit) by { FreeApart(w.e, p); }
    assert TilesHeap(w, 0, p) by { ApartFrom(w.e, p); }
    FrontTiles(w, p, 1);
    var f := FirstPart(w.e, p, 1);
    var g := Taken(f, p, HBLKSIZE);
    FrontUsed(w.e, f, g, p);
    TakenExact(f, p, HBLKSIZE);
    TakenCovers(f, p, HBLKSIZE, w.heap);
    TakenAdjacent(f, p, HBLKSIZE);
    DropOnLists(w, p, limit);
    DropStep(s.e, w.e, g, h, p);
    RestStep(s.e, w.e, g, h, p, limit, if p + 1 < limit then w.e[p].sz - HBLKSIZE else 0);
  }

  lemma FreeApart(e: Entries, p: nat)
    requires NoAdjacent(e, 0) && Tiles(e) && IsFree(e, p)
    ensures !IsFree(e, End(e, p))
  {
    LenFacts(e, p);
  }

  lemma ApartFrom(e: Entries, p: nat)
    requires NoAdjacent(e, 0) && Tiles(e)
    ensures NoAdjacent(e, p)
  {
    forall a: nat | IsFree(e, a) ensures !IsFree(e, End(e, a)) {
      LenFacts(e, a);
    }
  }

  lemma FrontUsed(e: Entries, f: Entries, g: Entries, p: nat)
    requires Exact(e, 0) && IsFree(e, p) && 0 < Len(e, p) && f == FirstPart(e, p, 1) && g == Taken(f, p, HBLKSIZE) && SameUsed(e, f)
    requires Exact(f, 0) && IsFree(f, p) && Len(f, p) == 1
    ensures g == if 1 < Len(e, p) then e[p := Header(HBLKSIZE, false)][p + 1 := Header(e[p].sz - HBLKSIZE, true)]
                 else e[p := Header(HBLKSIZE, false)]
    ensures UsedLess(e, g, p) && g[p] == Header(HBLKSIZE, false) && (1 < Len(e, p) ==> p + 1 !in e && IsFree(g, p + 1) && End(g, p + 1) == End(e, p))
  {
    LenFacts(e, p);
    assert WithCounts(f, p, p + 1) == f;
    if 1 < Len(e, p) {
      CutEnds(e, p, 1);
    }
    TakenEnds(f, p, HBLKSIZE);
  }

  lemma DropOnLists(w: Heap, p: nat, limit: nat)
    requires Exact(w.e, 0) && Listed(w, p, 0) && IsFree(w.e, p) && End(w.e, p) == limit && p < limit
    ensures IsFree(FirstPart(w.e, p, 1), p)
    ensures OnLists(Taken(FirstPart(w.e, p, 1), p, HBLKSIZE), w.v, w.bytes, if p + 1 < limit then p + 1 else 0, 0)
  {
    hide Linked;
    LenFacts(w.e, p);
    ExactNoNull(w.e, 0);
    var f := FirstPart(w.e, p, 1);
    if p + 1 < limit {
      CutHasSizes(w.e, p, 1);
    }
    var g := Taken(f, p, HBLKSIZE);
    assert WithCounts(f, p, p + 1) == f;
    assert g == f[p := Header(HBLKSIZE, false)];
    assert forall a: nat :: IsFree(g, a) <==> (IsFree(w.e, a) && a != p) || (a == p + 1 && p + 1 < limit);
    assert forall x: nat | x in w.v.home :: Size(w.e, x) == Size(g, x) && Len(w.e, x) == Len(g, x);
    hide Exact, Taken, FirstPart;
    forall j: nat | j <= N_HBLK_FLS ensures w.bytes[j] == ListBytes(g, w.v.lists[j]) {
      CountersSame(w.e, g, w.v, w.bytes, j);
    }
  }

  lemma DropStep(e: Entries, f: Entries, g: Entries, h: nat, p: nat)
    requires DropUsed(e, f, h, p) && UsedLess(f, g, p) && IsFree(f, p) && p in g && g[p] == Header(HBLKSIZE, false) && p < TOP
    ensures DropUsed(e, g, h, p + 1)
  {
    UsedBytesChange(f, g, false, p, TOP);
    UsedBytesChange(f, g, true, p, TOP);
    hide UsedBytes;
  }

  lemma DropDone(s: Heap, w: Heap, h: nat, limit: nat)
    requires Good(s) && Dropping(s, w, h, limit, limit) && h < limit
    ensures Kept(s, w) && FreeLess(s.e, w.e, h)
  {
    hide UsedBytes, Exact, Linked;
    ExactNoNull(s.e, 0);
    ExactNoNull(w.e, 0);
  }

  // ----- searching a list

  lemma GoodExact(s: Heap)
    requires Good(s)
    ensures Exact(s.e, 0) && NoAdjacent(s.e, 0) && Covers(s.e, s.heap) && Listed(s, 0, 0)
  {
  }

  lemma WholeBlock(s: Heap, h: nat)
    requires Good(s) && IsFree(s.e, h)
    ensures TilesHeap(s, 0, h) && !IsFree(s.e, End(s.e, h)) && Listed(s, 0, h)
  {
    FreeApart(s.e, h);
    ApartFrom(s.e, h);
    GoodListed(s, h);
  }

  lemma SecondPart(s: Heap, h: nat, k: nat)
    requires Good(s) && IsFree(s.e, h) && 0 < k < Len(s.e, h) && k * HBLKSIZE < s.e[h].sz
    ensures var e' := Cut(s.e, h, k);
            && TilesHeap(s.(e := e'), 0, h + k) && IsFree(e', h + k) && End(e', h + k) == End(s.e, h) && !IsFree(e', End(s.e, h))
            && SameUsed(s.e, e') && !IsUsed(s.e, h + k)
  {
    CutExact(s.e, h, k);
    CutEnds(s.e, h, k);
    CutCovers(s.e, h, k, s.heap);
    CutAdjacent(s.e, h, k);
    hide Cut, Exact, Covers, NoAdjacent;
  }

  lemma TookFront(s: Heap, e1: Entries, w: Heap, r: nat, sz: nat)
    requires Good(w) && SameUsed(s.e, e1) && UsedLess(e1, w.e, r) && r in w.e && w.e[r] == Header(sz, false) && !IsUsed(s.e, r)
    requires w.heap == s.heap && w.largeFree + Blocks(sz) * HBLKSIZE == s.largeFree
    ensures Allocated(s, w, r, sz)
  {
    hide Exact, Linked, OnLists, Covers, NoAdjacent;
    GoodExact(w);
    InHeap(w.e, r);
    ExactNoNull(w.e, 0);
    assert UsedLess(s.e, w.e, r);
    UsedBytesChange(s.e, w.e, false, r, TOP);
    UsedBytesChange(s.e, w.e, true, r, TOP);
    hide UsedBytes;
  }

  lemma InHeap(e: Entries, r: nat)
    requires Exact(e, 0) && IsHdr(e, r)
    ensures 2 <= r < TOP
  {
    LenFacts(e, r);
  }

  lemma StartNotNull(s: Heap, r: nat)
    requires Good(s) && IsHdr(s.e, r)
    ensures r != 0
  {
    InHeap(s.e, r);
  }

  lemma AllocatedTrans(s: Heap, u: Heap, w: Heap, r: nat, sz: nat)
    requires Allocated(s, u, 0, sz) && Allocated(u, w, r, sz) && Good(u)
    ensures Allocated(s, w, r, sz)
  {
    ExactNoNull(u.e, 0);
    hide UsedBytes, Exact, Linked, OnLists, Covers, NoAdjacent;
  }

  lemma ListStart(s: Heap, index: nat, sz: nat, q: Request, maySplit: bool)
    requires Good(s) && index <= N_HBLK_FLS
    ensures |s.v.heads| == |s.v.lists| == N_HBLK_FLS + 1 && s.v.heads[index] == First(s.v.lists[index])
    ensures Searching(s, s, index, 0, s.v.heads[index], sz) && SomeFits(s, index, 0, s.v.heads[index], q, maySplit)
  {
    hide UsedBytes;
    ExactNoNull(s.e, 0);
  }

  lemma SearchFacts(s: Heap, w: Heap, index: nat, k: nat, h: nat, sz: nat)
    requires Searching(s, w, index, k, h, sz)
    ensures Good(w) && Allocated(s, w, 0, sz) && index <= N_HBLK_FLS && index < |w.v.lists| && AtElement(w.v.lists[index], k, h)
    ensures index < |s.v.lists| && |w.v.lists[index]| <= |s.v.lists[index]|
  {
  }

  lemma NextOne(s: Heap, w: Heap, index: nat, k: nat, h: nat, sz: nat)
    requires Searching(s, w, index, k, h, sz) && h != 0
    ensures h in w.v.next && Searching(s, w, index, k + 1, w.v.next[h], sz)
    ensures index < |w.v.lists| && k + 1 <= |w.v.lists[index]|
  {
    hide Allocated, Exact, Linked, OnLists, Covers, NoAdjacent;
    OnList(w, index, k, h);
  }

  lemma SearchedAll(s: Heap, index: nat, k: nat, q: Request, maySplit: bool)
    requires Good(s) && index <= N_HBLK_FLS && index < |s.v.lists| && AtElement(s.v.lists[index], k, 0) && SomeFits(s, index, k, 0, q, maySplit)
    ensures NoneFit(s.e, index, q, maySplit)
  {
    ListFacts(s.v, index);
    hide Exact, Linked, Covers, NoAdjacent, NoPlace;
    forall h: nat | IsFree(s.e, h) && FlIndex(Len(s.e, h)) == index ensures !WouldDo(s.e, h, q, maySplit) {
      GoodListed(s, h);
      var j :| 0 <= j < |s.v.lists[index]| && s.v.lists[index][j] == h;
      assert s.v.lists[index][j] != 0;
    }
  }

  lemma OnList(s: Heap, index: nat, k: nat, h: nat)
    requires Good(s) && index <= N_HBLK_FLS && index < |s.v.lists| && AtElement(s.v.lists[index], k, h) && h != 0
    ensures k < |s.v.lists[index]| && h in s.v.home && s.v.home[h] == index && IsFree(s.e, h)
    ensures h in s.v.next && s.v.next[h] == After(s.v.lists[index], k) && h in s.v.prev && s.v.prev[h] == Before(s.v.lists[index], k)
    ensures s.v.next[h] != 0 ==> IsFree(s.e, s.v.next[h])
    ensures s.v.prev[h] == 0 <==> k == 0
  {
    var l := s.v.lists[index];
    ListFacts(s.v, index);
    assert LinkOk(l, k, s.v.prev, s.v.next);
    if k + 1 < |l| {
      assert l[k + 1] in s.v.home;
    }
  }

  // A block that is passed over for the next one would not do unless the next one would.
  lemma NextDoes(s: Heap, q: Request, h: nat, next: nat, maySplit: bool)
    requires q.eff <= q.n && Good(s) && (next != 0 ==> IsFree(s.e, next))
    requires FitsIn(s.e, h, q.n, maySplit) ==> next != 0 && FitsIn(s.e, next, q.n, maySplit) && !BlackList.RunIsBad(q.black, next, q.n)
    ensures WouldDo(s.e, h, q, maySplit) ==> next != 0 && WouldDo(s.e, next, q, maySplit)
  {
    if WouldDo(s.e, h, q, maySplit) {
      LenFacts(s.e, next);
      assert !BlackList.RunIsBad(q.black, next, q.eff);
    }
  }

  lemma GoesOnTo(s: Heap, u: Heap, w: Heap, index: nat, k: nat, j: nat, at: nat, sz: nat, q: Request, maySplit: bool)
    requires GoesOn(s, u, w, index, k, j, at, sz, q, maySplit)
    ensures at in w.v.next && Searching(s, w, index, j + 1, w.v.next[at], sz) && SomeFits(w, index, j + 1, w.v.next[at], q, maySplit)
    ensures index < |w.v.lists| && j + 1 <= |w.v.lists[index]| && index < |s.v.lists| && |w.v.lists[index]| <= |s.v.lists[index]|
    ensures index < |u.v.lists| && |w.v.lists[index]| - (j + 1) < |u.v.lists[index]| - k
  {
    hide Allocated, Good, SomeFits;
    NextOne(s, w, index, j, at, sz);
  }

  lemma IsShorter(u: Heap, w: Heap, index: nat)
    requires Shorter(u, w, index)
    ensures index < |u.v.lists| && index < |w.v.lists| && |w.v.lists[index]| < |u.v.lists[index]|
  {
  }

  lemma WontDo(e: Entries, h: nat, q: Request, maySplit: bool)
    requires NoPlace(q, h, Len(e, h))
    ensures !WouldDo(e, h, q, maySplit)
  {
    hide NoPlace;
  }

  lemma PassedBy(s: Heap, u: Heap, index: nat, k: nat, h: nat, sz: nat, q: Request, maySplit: bool)
    requires Searching(s, u, index, k, h, sz) && h != 0 && SomeFits(u, index, k, h, q, maySplit)
    requires h in u.v.next && (WouldDo(u.e, h, q, maySplit) ==> u.v.next[h] != 0 && WouldDo(u.e, u.v.next[h], q, maySplit))
    ensures GoesOn(s, u, u, index, k, k, h, sz, q, maySplit)
  {
    hide Allocated, Exact, Linked, OnLists, Covers, NoAdjacent, WouldDo;
    NextOne(s, u, index, k, h, sz);
  }

  // If the block at hand has no place, none of those before it on the list has one either, also when it is dropped.
  lemma AfterDrop(s: Heap, u: Heap, w: Heap, index: nat, k: nat, h: nat, prev: nat, sz: nat, q: Request, maySplit: bool)
    requires Searching(s, u, index, k, h, sz) && h != 0 && SomeFits(u, index, k, h, q, maySplit) && NoPlace(q, h, Len(u.e, h))
    requires k > 0 && w.v.lists == u.v.lists[index := Without(u.v.lists[index], h)] && FreeLess(u.e, w.e, h)
    requires Searching(s, w, index, k - 1, prev, sz) && prev != 0 && Shorter(u, w, index)
    ensures GoesOn(s, u, w, index, k, k - 1, prev, sz, q, maySplit)
  {
    hide Allocated, Exact, Linked, Covers, NoAdjacent, NoPlace;
    NextOne(s, w, index, k - 1, prev, sz);
    ListFacts(u.v, index);
    WithoutAt(u.v.lists[index], k);
    forall j: nat | j < k ensures !WouldDo(w.e, w.v.lists[index][j], q, maySplit) {
      var a := u.v.lists[index][j];
      assert w.v.lists[index][j] == a;
      assert a in u.v.home;
      assert IsFree(u.e, a);
      assert a != h;
      assert w.e[a] == u.e[a];
    }
  }

  lemma TakenIs(u: Heap, q: Request, index: nat, maySplit: bool, h: nat, r: nat)
    requires Good(u) && IsFree(u.e, h) && h in u.v.home && u.v.home[h] == index && FitsIn(u.e, h, q.n, maySplit)
    requires PlacedAt(q, h, Len(u.e, h), r)
    ensures TakenFrom(u.e, q, index, maySplit, h, r) && h <= r && r + q.n <= h + Len(u.e, h)
  {
    hide NoPlace;
    GoodListed(u, h);
  }

  lemma FreeKeptRefl(q: Request, e: Entries)
    ensures FreeKept(q, e, e)
  {
  }

  lemma FreeKeptTrans(q: Request, e: Entries, f: Entries, g: Entries)
    requires FreeKept(q, e, f) && FreeKept(q, f, g)
    ensures FreeKept(q, e, g)
  {
    hide NoPlace;
  }

  lemma LessIsKept(q: Request, e: Entries, f: Entries, h: nat)
    requires FreeLess(e, f, h) && IsFree(e, h) && NoPlace(q, h, Len(e, h))
    ensures FreeKept(q, e, f)
  {
    hide NoPlace;
  }

  lemma NoneBefore(q: Request, e: Entries, f: Entries, index: nat, maySplit: bool)
    requires FreeKept(q, e, f) && NoneFit(f, index, q, maySplit)
    ensures NoneFit(e, index, q, maySplit)
  {
    hide NoPlace;
  }

  lemma TakenBefore(q: Request, e: Entries, f: Entries, index: nat, maySplit: bool, from: nat, r: nat)
    requires FreeKept(q, e, f) && TakenFrom(f, q, index, maySplit, from, r)
    ensures TakenFrom(e, q, index, maySplit, from, r)
  {
    hide NoPlace, PlacedAt;
  }

  lemma Dropped(s: Heap, u: Heap, w: Heap, index: nat, k: nat, h: nat, sz: nat)
    requires Searching(s, u, index, k, h, sz) && Kept(u, w) && h != 0
    requires w.v.lists == u.v.lists[index := Without(u.v.lists[index], h)]
    ensures Good(w) && Allocated(s, w, 0, sz) && |w.v.lists[index]| == |u.v.lists[index]| - 1
    ensures k > 0 ==> Searching(s, w, index, k - 1, u.v.lists[index][k - 1], sz)
  {
    hide UsedBytes, Exact, Covers, NoAdjacent, Linked, OnLists;
    ExactNoNull(u.e, 0);
    ExactNoNull(w.e, 0);
    AllocatedTrans(s, u, w, 0, sz);
    ListFacts(u.v, index);
    WithoutAt(u.v.lists[index], k);
  }

  // ----- counting bytes

  lemma {:induction false} NothingUsed(multi: bool, n: nat)
    ensures UsedBytes(map[], multi, n) == 0
  {
    if n > 0 {
      NothingUsed(multi, n - 1);
    }
  }

  lemma SameBytes(e: Entries, e': Entries)
    requires SameUsed(e, e')
    ensures forall multi: bool :: UsedBytes(e', multi, TOP) == UsedBytes(e, multi, TOP)
  {
    UsedBytesSame(e, e', true, TOP);
    UsedBytesSame(e, e', false, TOP);
    hide UsedBytes;
  }

  lemma AllocatedRefl(s: Heap, sz: nat)
    requires Good(s)
    ensures Allocated(s, s, 0, sz)
  {
    hide UsedBytes;
    ExactNoNull(s.e, 0);
  }

  lemma LargeCounted(s: Heap, w: Heap, r: nat, sz: nat)
    requires Allocated(s, w, r, sz) && Good(w)
    ensures Balance(w) == Balance(s) && w.heap == s.heap
    ensures UsedBytes(w.e, true, TOP) == UsedBytes(s.e, true, TOP) + (if r != 0 && Blocks(sz) > 1 then Blocks(sz) * HBLKSIZE else 0)
  {
    hide UsedBytes;
    ExactNoNull(w.e, 0);
  }

  lemma ReadyToFree(s: Heap, h: nat)
    requires Good(s) && IsUsed(s.e, h)
    ensures TilesHeap(s, h, 0) && Listed(s, 0, 0) && h < TOP
  {
    InHeap(s.e, h);
    ExactNoNull(s.e, 0);
    hide Linked, OnLists, Covers, NoAdjacent;
  }

  lemma {:induction false} UsedBytesHas(e: Entries, multi: bool, h: nat, n: nat)
    requires h < n
    ensures Weight(e, multi, h) <= UsedBytes(e, multi, n)
  {
    if h < n - 1 {
      UsedBytesHas(e, multi, h, n - 1);
    }
  }

  lemma LargeHas(e: Entries, h: nat)
    requires IsUsed(e, h) && h < TOP
    ensures Len(e, h) > 1 ==> Len(e, h) * HBLKSIZE <= UsedBytes(e, true, TOP)
  {
    UsedBytesHas(e, true, h, TOP);
    hide UsedBytes;
  }

  lemma FreedBytes(e: Entries, e': Entries, h: nat)
    requires UsedLess(e, e', h) && IsUsed(e, h) && !IsUsed(e', h) && h < TOP
    ensures UsedBytes(e', false, TOP) + Len(e, h) * HBLKSIZE == UsedBytes(e, false, TOP)
    ensures UsedBytes(e', true, TOP) + (if Len(e, h) > 1 then Len(e, h) * HBLKSIZE else 0) == UsedBytes(e, true, TOP)
  {
    UsedBytesChange(e, e', false, h, TOP);
    UsedBytesChange(e, e', true, h, TOP);
    hide UsedBytes;
  }

  // ----- completeness of the allocator

  lemma TooLarge(s: Heap, q: Request, limit: nat)
    requires Good(s) && q.n * HBLKSIZE >= SIGN
    ensures Choice(s.e, q, limit, 0, 0) && forall h: nat :: IsFree(s.e, h) ==> Len(s.e, h) < q.n
  {
    forall h: nat | IsFree(s.e, h) ensures Len(s.e, h) < q.n {
      LenFacts(s.e, h);
    }
  }

  lemma ExactChoice(e: Entries, q: Request, limit: nat, from: nat, r: nat)
    requires r != 0 && TakenFrom(e, q, FlIndex(q.n), false, from, r)
    ensures Choice(e, q, limit, from, r) && Len(e, from) == q.n
  {
    hide NoPlace, PlacedAt;
  }

  lemma SplitChoice(e: Entries, q: Request, start: nat, i: nat, limit: nat, from: nat, r: nat)
    requires r != 0 && TakenFrom(e, q, i, true, from, r) && start <= i <= limit
    requires start == if FlIndex(q.n) < UNIQUE_THRESHOLD then FlIndex(q.n) + 1 else FlIndex(q.n)
    requires NoneFit(e, FlIndex(q.n), q, false) && forall l: nat :: start <= l < i ==> NoneFit(e, l, q, true)
    ensures Choice(e, q, limit, from, r)
  {
    hide NoPlace, PlacedAt;
    forall h: nat | IsFree(e, h) && Len(e, from) != q.n <= Len(e, h) && (Len(e, h) == q.n || FlIndex(Len(e, h)) < FlIndex(Len(e, from)))
      ensures NoPlace(q, h, Len(e, h))
    {
      FlIndexOrders(q.n, Len(e, h));
      if Len(e, h) == q.n {
        assert !WouldDo(e, h, q, false);
      } else {
        assert NoneFit(e, FlIndex(Len(e, h)), q, true);
        assert !WouldDo(e, h, q, true);
      }
    }
  }

  // The exact fits on the first list and the lists from `start` to `limit` hold all blocks that are large enough
  // and may be split.
  lemma NoBlockFits(e: Entries, q: Request, start: nat, limit: nat, from: nat)
    requires start == if FlIndex(q.n) < UNIQUE_THRESHOLD then FlIndex(q.n) + 1 else FlIndex(q.n)
    requires NoneFit(e, FlIndex(q.n), q, false) && forall l: nat :: start <= l <= limit ==> NoneFit(e, l, q, true)
    ensures Choice(e, q, limit, from, 0)
  {
    hide NoPlace;
    forall h: nat | IsFree(e, h) && q.n <= Len(e, h) && (Len(e, h) == q.n || FlIndex(Len(e, h)) <= limit) ensures NoPlace(q, h, Len(e, h)) {
      FlIndexOrders(q.n, Len(e, h));
      if Len(e, h) == q.n {
        assert !WouldDo(e, h, q, false);
      } else {
        assert NoneFit(e, FlIndex(Len(e, h)), q, true);
        assert !WouldDo(e, h, q, true);
      }
    }
  }

  lemma NothingFits(e: Entries, q: Request, from: nat)
    requires Choice(e, q, N_HBLK_FLS, from, 0) && forall b: nat :: !BlackList.RunIsBad(q.black, b, q.eff)
    ensures forall h: nat :: IsFree(e, h) ==> Len(e, h) < q.n
  {
    hide BlackList.RunIsBad;
    forall h: nat | IsFree(e, h) ensures Len(e, h) < q.n {
      assert !BlackList.RunIsBad(q.black, h, q.eff);
    }
  }

  lemma GoodBytes(s: Heap)
    requires Good(s)
    ensures |s.bytes| == N_HBLK_FLS + 1
  {
    hide Exact, Linked;
  }

  // ----- the sweep's walk

  lemma StartSweep(e: Entries, keys: seq<nat>, dead: set<nat>)
    requires Sorted(keys) && Indexed(e, keys)
    ensures Sweeping(e, e, keys, [], dead, 0, BOTTOM_SZ - 1)
  {
    forall a: nat | IsUsed(e, a) ensures 0 < |keys| && !Visited(keys, 0, BOTTOM_SZ - 1, a) {
      var k :| 0 <= k < |keys| && keys[k] == a / BOTTOM_SZ;
      assert keys[0] <= keys[k];
    }
  }

  lemma SweptOne(e0: Entries, e: Entries, e': Entries, keys: seq<nat>, before: seq<nat>, calls: seq<nat>, dead: set<nat>, i: nat, j: int)
    requires i < |keys| && 0 <= j < BOTTOM_SZ && Sweeping(e0, e, keys, before, dead, i, j) && IsHdr(e, At(keys, i, j))
    requires var p := At(keys, i, j);
             if e[p].free then calls == before && e' == e
             else calls == before + [p] && if p in dead then UsedLess(e, e', p) && !IsUsed(e', p) else e' == e
    ensures Sweeping(e0, e', keys, calls, dead, i, j - 1)
  {
    var p := At(keys, i, j);
    KeyOf(keys[i], j);
    assert p !in before;
    forall a: nat | IsUsed(e0, a) && a !in calls ensures !Visited(keys, i, j - 1, a) {
      assert a !in before && IsUsed(e, a);
    }
    assert forall a: nat :: a in calls <==> a in before || (!e[p].free && a == p);
    assert Distinct(calls);
  }

  lemma SweptNil(e0: Entries, e: Entries, keys: seq<nat>, calls: seq<nat>, dead: set<nat>, i: nat, j: int)
    requires i < |keys| && 0 <= j < BOTTOM_SZ && Sweeping(e0, e, keys, calls, dead, i, j) && !IsHdr(e, At(keys, i, j))
    ensures Sweeping(e0, e, keys, calls, dead, i, j - 1)
  {
    forall a: nat | IsUsed(e0, a) && a !in calls ensures !Visited(keys, i, j - 1, a) {
      assert IsUsed(e, a);
    }
  }

  // The blocks that a count jumps over are none that the sweep still has to visit.
  lemma SweptCount(e0: Entries, e: Entries, keys: seq<nat>, calls: seq<nat>, dead: set<nat>, i: nat, j: int)
    requires i < |keys| && 0 <= j < BOTTOM_SZ && Sweeping(e0, e, keys, calls, dead, i, j) && Exact(e, 0)
    requires var p := At(keys, i, j); p in e && e[p].Forward?
    ensures e[At(keys, i, j)].n > 0 && Sweeping(e0, e, keys, calls, dead, i, j - e[At(keys, i, j)].n)
  {
    var p := At(keys, i, j);
    JumpsBack(e, p, p);
    forall a: nat | IsUsed(e0, a) && a !in calls ensures !Visited(keys, i, j - e[p].n, a) {
      assert IsUsed(e, a);
      assert a <= p ==> a <= p - e[p].n;
    }
  }

  lemma SweptIndex(e0: Entries, e: Entries, keys: seq<nat>, calls: seq<nat>, dead: set<nat>, i: nat, j: int)
    requires i < |keys| && j < 0 && Sweeping(e0, e, keys, calls, dead, i, j) && Sorted(keys) && Indexed(e, keys)
    ensures Sweeping(e0, e, keys, calls, dead, i + 1, BOTTOM_SZ - 1)
  {
    forall a: nat | IsUsed(e0, a) && a !in calls ensures i + 1 < |keys| && !Visited(keys, i + 1, BOTTOM_SZ - 1, a) {
      assert IsUsed(e, a);
      var k :| 0 <= k < |keys| && keys[k] == a / BOTTOM_SZ;
      assert !Visited(keys, i, j, a);
      assert keys[i] < keys[k];
      assert i < k;
      assert keys[i + 1] <= keys[k];
    }
    forall a: nat | a in calls && i + 1 < |keys| ensures Visited(keys, i + 1, BOTTOM_SZ - 1, a) {
      assert Visited(keys, i, j, a);
      assert keys[i] < keys[i + 1];
    }
  }

  lemma SweptAll(e0: Entries, e: Entries, keys: seq<nat>, calls: seq<nat>, dead: set<nat>)
    requires Sweeping(e0, e, keys, calls, dead, |keys|, BOTTOM_SZ - 1)
    ensures Distinct(calls) && forall a: nat :: a in calls <==> IsUsed(e0, a)
    ensures forall a: nat :: IsUsed(e, a) <==> IsUsed(e0, a) && a !in dead
    ensures forall a: nat :: IsUsed(e, a) ==> e[a] == e0[a]
  {
  }

  lemma TailTotal(bytes: seq<nat>, n: nat)
    requires n <= |bytes|
    ensures Total(bytes[n..]) == if n == |bytes| then 0 else bytes[n] + Total(bytes[n + 1..])
  {
    if n < |bytes| {
      assert bytes[n..][1..] == bytes[n + 1..];
    }
  }

  // ----- what the invariant means

  // Every page of the heap belongs to exactly one block, and no other page belongs to any.
  lemma EachPageOnce(s: Heap, p: nat)
    requires Good(s)
    ensures p in s.heap <==> exists a: nat :: Within(s.e, a, p)
    ensures forall a: nat, b: nat :: Within(s.e, a, p) && Within(s.e, b, p) ==> a == b
  {
    forall a: nat, b: nat | Within(s.e, a, p) && Within(s.e, b, p) ensures a == b {
      assert a < b ==> End(s.e, a) <= b;
      assert b < a ==> End(s.e, b) <= a;
    }
  }

  // A free block is on the list for its size, once, and on no other list; only free blocks are on lists.
  lemma OnItsList(s: Heap, h: nat)
    requires Good(s)
    ensures |s.v.lists| == N_HBLK_FLS + 1
    ensures forall i: nat | i <= N_HBLK_FLS :: h in s.v.lists[i] <==> IsFree(s.e, h) && i == FlIndex(Len(s.e, h))
    ensures forall i: nat | i <= N_HBLK_FLS :: Distinct(s.v.lists[i])
  {
    ExactNoNull(s.e, 0);
    forall i: nat | i <= N_HBLK_FLS
      ensures |s.v.lists| == N_HBLK_FLS + 1 && Distinct(s.v.lists[i]) && (h in s.v.lists[i] <==> IsFree(s.e, h) && i == FlIndex(Len(s.e, h)))
    {
      ListFacts(s.v, i);
    }
    hide Exact;
  }

  // What is allocated was in a free block before.
  lemma AllocatedWasFree(s: Heap, w: Heap, r: nat, sz: nat, p: nat)
    requires Good(s) && Good(w) && Allocated(s, w, r, sz) && r != 0 && r <= p < r + Blocks(sz)
    ensures exists a: nat :: IsFree(s.e, a) && Within(s.e, a, p)
  {
    hide UsedBytes, Linked, OnLists;
    assert Within(w.e, r, p);
    assert p in s.heap;
    var a: nat :| Within(s.e, a, p);
    if IsUsed(s.e, a) {
      assert Within(w.e, a, p);
      EachPageOnce(w, p);
    }
  }
}
