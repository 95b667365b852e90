// The map from heap block numbers to block headers: gc/headers.c and gc/include/private/gc_hdrs.h.
//
// A block number is an address shifted right by LOG_HBLKSIZE; number 0 is the null pointer.  An entry
// that is missing from the map is a zero entry, or one whose bottom index does not exist.

module HeaderMap {
  import opened Config

  const BOTTOM_SZ: nat := 1024
  const MAX_JUMP: nat := 4095         // HBLKSIZE - 1
  const TOP: nat := 0x8_0000_0000_0000 // half of a 64 bit address space, in blocks

  /** A forwarding count, or a header with its hb_sz and its FREE_BLK flag. */
  datatype Entry = Forward(n: nat) | Header(sz: nat, free: bool)

  type Entries = map<nat, Entry>

  /** OBJ_SZ_TO_BLOCKS */
  function Blocks(sz: nat): nat {
    (sz + HBLKSIZE - 1) / HBLKSIZE
  }

  predicate IsHdr(e: Entries, h: nat) {
    h in e && e[h].Header?
  }

  predicate IsUsed(e: Entries, h: nat) {
    IsHdr(e, h) && !e[h].free
  }

  predicate IsFree(e: Entries, h: nat) {
    IsHdr(e, h) && e[h].free
  }

  /** How many heap blocks the block at h spans. */
  function Len(e: Entries, h: nat): nat {
    if IsHdr(e, h) then Blocks(e[h].sz) else 0
  }

  function End(e: Entries, h: nat): nat {
    h + Len(e, h)
  }

  predicate Within(e: Entries, a: nat, p: nat) {
    IsHdr(e, a) && a <= p < End(e, a)
  }

  // ----- what the map describes: a flat list of blocks that do not overlap

  predicate SizeOk(e: Entries, a: nat) {
    IsHdr(e, a) ==>
      2 <= a && 0 < e[a].sz && e[a].sz % GRANULE_BYTES == 0 && End(e, a) <= TOP && (e[a].free ==> e[a].sz % HBLKSIZE == 0)
  }

  ghost predicate Tiles(e: Entries) {
    && (forall a: nat :: SizeOk(e, a))
    && (forall a: nat, b: nat :: IsHdr(e, a) && IsHdr(e, b) && a < b ==> End(e, a) <= b)
  }

  function Jump(a: nat, p: nat): nat
    requires a <= p
  {
    if p - a > MAX_JUMP then MAX_JUMP else p - a
  }

  predicate Forwards(e: Entries, a: nat, p: nat)
    requires a <= p
  {
    p in e && e[p] == Forward(Jump(a, p))
  }

  /** Every block but the first one of a used block leads back to it; `skip` may lack its counts. */
  ghost predicate CountsIn(e: Entries, skip: nat) {
    forall a: nat, p: nat :: IsUsed(e, a) && a != skip && a < p < End(e, a) ==> Forwards(e, a, p)
  }

  /** There are no other counts. */
  ghost predicate CountsOnly(e: Entries) {
    forall p: nat :: p in e && e[p].Forward? ==> exists a: nat :: IsUsed(e, a) && a < p < End(e, a) && Forwards(e, a, p)
  }

  ghost predicate Exact(e: Entries, skip: nat) {
    Tiles(e) && CountsIn(e, skip) && CountsOnly(e)
  }

  /** No free block follows another, except next to the block at h. */
  ghost predicate NoAdjacent(e: Entries, h: nat) {
    forall a: nat :: IsFree(e, a) && a != h && End(e, a) != h ==> !IsFree(e, End(e, a))
  }

  /** The blocks cover exactly these pages. */
  ghost predicate Covers(e: Entries, heap: set<nat>) {
    && (forall a: nat, p: nat :: Within(e, a, p) ==> p in heap)
    && (forall p: nat :: p in heap ==> exists a: nat :: Within(e, a, p))
  }

  // ----- the index

  ghost predicate Sorted(keys: seq<nat>) {
    forall i, j | 0 <= i < j < |keys| :: keys[i] < keys[j]
  }

  ghost predicate Indexed(e: Entries, keys: seq<nat>) {
    forall p: nat :: p in e ==> p / BOTTOM_SZ in keys
  }

  class HeaderTable {
    var entries: Entries
    var keys: seq<nat>                // keys of the bottom indices, linked in ascending and descending order

    ghost predicate IndexOk()
      reads this
    {
      Sorted(keys) && Indexed(entries, keys)
    }

    constructor ()
      ensures entries == map[] && keys == [] && IndexOk()
    {
      entries, keys := map[], [];
    }

    // GET_HDR
    function Hdr(h: nat): (r: Entry)
      reads this
      ensures h in entries ==> r == entries[h]
      ensures h !in entries ==> r == Forward(0)
    {
      if h in entries then entries[h] else Forward(0)
    }

    // GET_BI: where in the list of bottom indices the one for this key is, or -1.
    method FindKey(k: nat) returns (i: int)
      ensures -1 <= i < |keys|
      ensures i >= 0 ==> keys[i] == k
      ensures i < 0 ==> k !in keys
    {
      i := 0;
      while i < |keys| && keys[i] != k
        invariant 0 <= i <= |keys| && k !in keys[..i]
      {
        i := i + 1;
      }
      if i == |keys| {
        assert keys[..i] == keys;
        i := -1;
      }
    }

    // get_index: make sure that there is a bottom index for block h.
    method GetIndex(h: nat)
      requires IndexOk()
      modifies this`keys
      ensures IndexOk()
      ensures h / BOTTOM_SZ in keys && forall k :: k in keys <==> k in old(keys) || k == h / BOTTOM_SZ
    {
      var hi := h / BOTTOM_SZ;
      var known := FindKey(hi);
      if known >= 0 { return; }
      var i := 0;
      while i < |keys| && keys[i] < hi
        invariant 0 <= i <= |keys| && forall j | 0 <= j < i :: keys[j] < hi
      {
        i := i + 1;
      }
      InsertKey(keys, i, hi);
      keys := keys[..i] + [hi] + keys[i..];
    }

    // GC_install_header, and what the caller stores in the new header.
    method InstallHeader(h: nat, sz: nat, free: bool)
      requires IndexOk()
      modifies this
      ensures IndexOk() && entries == old(entries)[h := Header(sz, free)]
    {
      GetIndex(h);
      entries := entries[h := Header(sz, free)];
    }

    // GC_install_counts: counts for the blocks h+1 .. h+blocks.
    method InstallCounts(h: nat, blocks: nat)
      requires IndexOk() && blocks > 0
      modifies this
      ensures IndexOk() && entries == WithCounts(old(entries), h, h + blocks)
    {
      hide Sorted, Indexed, WithCounts;
      MakeIndices(h, blocks);
      ghost var e, ks := entries, keys;
      WithIndexed(e, keys, h, h + blocks);
      NoCounts(e, h);
      var p := h + 1;
      while p < h + blocks
        invariant h < p <= h + blocks && keys == ks
        invariant entries == WithCounts(e, h, p)
      {
        OneCount(e, h, p);
        entries := entries[p := Forward(Jump(h, p))];
        p := p + 1;
      }
    }

    // The first half of GC_install_counts: every block in the range gets a bottom index.
    method MakeIndices(h: nat, blocks: nat)
      requires IndexOk() && blocks > 0
      modifies this`keys
      ensures IndexOk() && forall q: nat :: h <= q < h + blocks ==> q / BOTTOM_SZ in keys
    {
      hide Sorted, Indexed;
      var p := h;
      while p < h + blocks
        invariant IndexOk() && entries == old(entries) && h <= p
        invariant forall q: nat :: h <= q < p && q < h + blocks ==> q / BOTTOM_SZ in keys || q / BOTTOM_SZ == p / BOTTOM_SZ
      {
        GetIndex(p);
        p := p + BOTTOM_SZ;
      }
      GetIndex(h + blocks - 1);
    }

    // A store into the fields of the header of h.
    method SetHeader(h: nat, sz: nat, free: bool)
      requires IndexOk() && h in entries
      modifies this`entries
      ensures IndexOk() && entries == old(entries)[h := Header(sz, free)]
    {
      entries := entries[h := Header(sz, free)];
    }

    // GC_remove_header
    method RemoveHeader(h: nat)
      requires IndexOk()
      modifies this`entries
      ensures IndexOk() && entries == old(entries) - {h}
    {
      entries := entries - {h};
    }

    // GC_remove_counts
    method RemoveCounts(h: nat, blocks: nat)
      requires IndexOk() && blocks > 0
      modifies this`entries
      ensures IndexOk() && entries == WithoutCounts(old(entries), h, h + blocks)
    {
      hide Sorted, Indexed;
      var p := h + 1;
      while p < h + blocks
        invariant h < p <= h + blocks
        invariant entries == WithoutCounts(old(entries), h, p)
      {
        assert WithoutCounts(old(entries), h, p + 1) == entries - {p};
        entries := entries - {p};
        p := p + 1;
      }
      WithoutIndexed(old(entries), keys, h, p);
    }

    // GC_prev_block: the highest start of a block, free or not, at or below h; 0 if there is none.
    method PrevBlock(h: nat) returns (r: nat)
      requires IndexOk() && Tiles(entries) && CountsOnly(entries)
      ensures r == 0 ==> forall b: nat :: IsHdr(entries, b) ==> h < b
      ensures r != 0 ==> IsHdr(entries, r) && r <= h && forall b: nat :: IsHdr(entries, b) && b <= h ==> b <= r
    {
      hide Tiles, CountsOnly;
      var hi := h / BOTTOM_SZ;
      var j := h % BOTTOM_SZ;
      var i := FindKey(hi);
      if i < 0 {
        i := |keys| - 1;
        while i >= 0 && keys[i] > hi
          invariant -1 <= i < |keys| && forall k | i < k < |keys| :: keys[k] > hi
        {
          i := i - 1;
        }
        j := BOTTOM_SZ - 1;
      }
      PrevStart(entries, keys, h, i, j);
      while i >= 0
        invariant -1 <= i < |keys| && 0 <= j < BOTTOM_SZ && (i >= 0 ==> At(keys, i, j) <= h)
        invariant NoneAbove(entries, h, if i >= 0 then At(keys, i, j) else -1)
      {
        while j >= 0
          invariant j < BOTTOM_SZ && At(keys, i, j) <= h && NoneAbove(entries, h, At(keys, i, j))
          decreases j
        {
          var p := At(keys, i, j);
          var hhdr := Hdr(p);
          if hhdr == Forward(0) {
            NoHeaderAt(entries, p);
            j := j - 1;
          } else if hhdr.Forward? {
            JumpsBack(entries, h, p);
            j := j - hhdr.n;
          } else {
            HeaderNotNull(entries, p);
            return p;
          }
        }
        j := BOTTOM_SZ - 1;
        PrevIndex(entries, keys, h, i);
        KeysRise(keys, i);
        i := i - 1;
      }
      r := 0;
    }

    // GC_next_used_block: the lowest start of a used block at or above h; 0 if there is none.
    method NextUsedBlock(h: nat) returns (r: nat)
      requires IndexOk() && Tiles(entries)
      ensures r == 0 ==> forall b: nat :: IsUsed(entries, b) ==> b < h
      ensures r != 0 ==> IsUsed(entries, r) && h <= r && forall b: nat :: IsUsed(entries, b) && h <= b ==> r <= b
    {
      hide Tiles;
      var hi := h / BOTTOM_SZ;
      var j := h % BOTTOM_SZ;
      var i := FindKey(hi);
      if i < 0 {
        i := 0;
        while i < |keys| && keys[i] < hi
          invariant 0 <= i <= |keys| && forall k | 0 <= k < i :: keys[k] < hi
        {
          i := i + 1;
        }
        j := 0;
      }
      NextStart(entries, keys, h, i, j);
      while i < |keys|
        invariant 0 <= i <= |keys| && 0 <= j && (i < |keys| ==> h <= At(keys, i, j) && NoneBelow(entries, h, At(keys, i, j)))
        invariant i == |keys| ==> forall b: nat :: IsUsed(entries, b) ==> b < h
      {
        while j < BOTTOM_SZ
          invariant h <= At(keys, i, j) && NoneBelow(entries, h, At(keys, i, j)) && 0 <= j
        {
          var p := At(keys, i, j);
          var hhdr := Hdr(p);
          if hhdr.Forward? {
            j := j + 1;
          } else if !hhdr.free {
            HeaderNotNull(entries, p);
            return p;
          } else {
            PastFree(entries, h, p);
            j := j + hhdr.sz / HBLKSIZE;
          }
        }
        NextIndex(entries, keys, h, i, j);
        j := 0;
        i := i + 1;
      }
      r := 0;
    }

    // GC_free_block_ending_at
    method FreeBlockEndingAt(h: nat) returns (r: nat)
      requires IndexOk() && Tiles(entries) && CountsOnly(entries) && IsHdr(entries, h)
      ensures r == 0 ==> forall b: nat :: IsFree(entries, b) ==> End(entries, b) != h
      ensures r != 0 ==> IsFree(entries, r) && End(entries, r) == h
    {
      hide Tiles, CountsOnly, IndexOk;
      HeaderNotNull(entries, h);
      var p: nat := h - 1;
      while Hdr(p) != Forward(0) && Hdr(p).Forward?
        invariant p < h && (p == h - 1 || InUsed(entries, p, h - 1))
        decreases p
      {
        JumpStays(entries, p, h - 1);
        p := p - Hdr(p).n;
      }
      if Hdr(p) != Forward(0) {
        EndsHere(entries, p, h);
        HeaderNotNull(entries, p);
        return if Hdr(p).free then p else 0;
      }
      p := PrevBlock(h - 1);
      LaterEndsLater(entries, h);
      if p != 0 {
        OnlyLast(entries, p, h);
        var phdr := Hdr(p);
        if phdr.free && p + phdr.sz / HBLKSIZE == h {
          return p;
        }
      }
      r := 0;
    }

    // GC_base: the start of the object slot that contains address p, or 0 if p is in no slot.
    method Base(p: nat) returns (r: nat)
      requires Exact(entries, 0)
      ensures r != 0 ==> InSlot(entries, r, p)
      ensures r == 0 ==> forall s: nat :: !InSlot(entries, s, p)
    {
      hide Exact, InSlot, Reached, Found;
      r := p;
      var h: nat := r / HBLKSIZE;
      var candidate := Hdr(h);
      if candidate == Forward(0) {
        NoSlot(entries, p, h);
        return 0;
      }
      AtFirst(entries, p);
      while candidate.Forward?
        invariant candidate == Hdr(h) && candidate != Forward(0) && Reached(entries, p, h, r)
        decreases h
      {
        JumpReaches(entries, p, h, r);
        h := h - candidate.n;
        r := h * HBLKSIZE;
        candidate := Hdr(h);
      }
      ReachedIsUsed(entries, p, h, r);
      if candidate.free {
        return 0;
      }
      r := r - r % WORD_BYTES;
      var sz := candidate.sz;
      BaseIsSlot(entries, p, h, r);
      var displ := r % HBLKSIZE % sz;
      r := r - displ;
      var limit := r + sz;
      if limit > (h + 1) * HBLKSIZE && sz <= HBLKSIZE {
        return 0;
      }
      if p >= limit {
        return 0;
      }
    }
  }

  /** s is the start of an object slot of a used block, and p is an address in that slot. */
  ghost predicate InSlot(e: Entries, s: nat, p: nat) {
    exists h: nat :: IsUsed(e, h) && SlotOf(e, h, s, p)
  }

  predicate SlotOf(e: Entries, h: nat, s: nat, p: nat)
    requires IsUsed(e, h)
  {
    var sz := e[h].sz;
    && sz > 0 && h * HBLKSIZE <= s <= p < s + sz
    && if sz > HBLKSIZE then s == h * HBLKSIZE
       else (s - h * HBLKSIZE) % sz == 0 && s + sz <= (h + 1) * HBLKSIZE
  }

  /** q and p are in the same used block, q not above p. */
  ghost predicate InUsed(e: Entries, q: nat, p: nat) {
    exists a: nat :: IsUsed(e, a) && a <= q <= p < End(e, a)
  }

  /** No used block starts at or above h and below p. */
  ghost predicate NoneBelow(e: Entries, h: nat, p: int) {
    forall b: nat :: IsUsed(e, b) && h <= b ==> p <= b
  }

  lemma InsertKey(keys: seq<nat>, i: nat, hi: nat)
    requires Sorted(keys) && i <= |keys| && hi !in keys
    requires (forall j | 0 <= j < i :: keys[j] < hi) && (i < |keys| ==> hi <= keys[i])
    ensures var r := keys[..i] + [hi] + keys[i..]; Sorted(r) && forall k :: k in r <==> k in keys || k == hi
  {
    var r := keys[..i] + [hi] + keys[i..];
    assert keys == keys[..i] + keys[i..];
    forall j, k | 0 <= j < k < |r| ensures r[j] < r[k] {
      assert r[j] == if j < i then keys[j] else if j == i then hi else keys[j - 1];
      assert r[k] == if k < i then keys[k] else if k == i then hi else keys[k - 1];
      assert i < |keys| ==> keys[i] in keys;
    }
  }

  // ----- walking the index

  /** The block number of entry j of bottom index i. */
  function At(keys: seq<nat>, i: int, j: int): int
    requires 0 <= i < |keys|
  {
    keys[i] * BOTTOM_SZ + j
  }

  /** No block starts after p and at or before h. */
  ghost predicate NoneAbove(e: Entries, h: nat, p: int) {
    forall b: nat :: IsHdr(e, b) && b <= h ==> b <= p
  }

  lemma KeyOf(k: nat, j: nat)
    requires j < BOTTOM_SZ
    ensures (k * BOTTOM_SZ + j) / BOTTOM_SZ == k && (k * BOTTOM_SZ + j) % BOTTOM_SZ == j
  {
  }

  lemma NoHeaderAt(e: Entries, p: nat)
    requires p !in e || e[p].Forward?
    ensures forall h: nat :: NoneAbove(e, h, p) ==> NoneAbove(e, h, p - 1)
  {
  }

  // A count, capped or not, leads to a place in the same block, so no block starts in between.
  lemma JumpsBack(e: Entries, h: nat, p: nat)
    requires Tiles(e) && CountsOnly(e) && p in e && e[p].Forward? && NoneAbove(e, h, p)
    ensures 0 < e[p].n <= p && NoneAbove(e, h, p - e[p].n)
    ensures exists a: nat :: IsUsed(e, a) && a <= p - e[p].n && p < End(e, a)
  {
    var a: nat :| IsUsed(e, a) && a < p < End(e, a) && Forwards(e, a, p);
    assert a <= p - e[p].n;
    forall b: nat | IsHdr(e, b) && b <= h ensures b <= p - e[p].n {
      assert b <= p;
      assert a < b ==> End(e, a) <= b;
    }
  }

  lemma PrevStart(e: Entries, keys: seq<nat>, h: nat, i: int, j: int)
    requires Sorted(keys) && Indexed(e, keys) && -1 <= i < |keys|
    requires (i >= 0 && j == h % BOTTOM_SZ && keys[i] == h / BOTTOM_SZ)
             || (j == BOTTOM_SZ - 1 && h / BOTTOM_SZ !in keys && (forall k | i < k < |keys| :: keys[k] > h / BOTTOM_SZ) && (i >= 0 ==> keys[i] <= h / BOTTOM_SZ))
    ensures NoneAbove(e, h, if i >= 0 then At(keys, i, j) else -1)
    ensures i >= 0 ==> At(keys, i, j) <= h
  {
    forall b: nat | IsHdr(e, b) && b <= h ensures i >= 0 && b <= At(keys, i, j) {
      assert b / BOTTOM_SZ in keys;
      var k :| 0 <= k < |keys| && keys[k] == b / BOTTOM_SZ;
      assert k <= i;
      assert keys[k] <= keys[i];
    }
  }

  lemma HeaderNotNull(e: Entries, p: nat)
    requires Tiles(e) && IsHdr(e, p)
    ensures p != 0
  {
    assert SizeOk(e, p);
  }

  lemma KeysRise(keys: seq<nat>, i: int)
    requires Sorted(keys) && 0 <= i < |keys|
    ensures i > 0 ==> At(keys, i - 1, BOTTOM_SZ - 1) < At(keys, i, 0)
  {
  }

  lemma PrevIndex(e: Entries, keys: seq<nat>, h: nat, i: int)
    requires Sorted(keys) && Indexed(e, keys) && 0 <= i < |keys|
    requires exists j: int :: j < 0 && NoneAbove(e, h, At(keys, i, j))
    ensures NoneAbove(e, h, if i > 0 then At(keys, i - 1, BOTTOM_SZ - 1) else -1)
  {
    forall b: nat | IsHdr(e, b) && b <= h ensures i > 0 && b <= At(keys, i - 1, BOTTOM_SZ - 1) {
      assert b < keys[i] * BOTTOM_SZ;
      var k :| 0 <= k < |keys| && keys[k] == b / BOTTOM_SZ;
      assert keys[k] < keys[i];
      assert k <= i - 1;
      assert keys[k] <= keys[i - 1];
    }
  }

  // ----- counts

  function WithCounts(e: Entries, h: nat, end: nat): (r: Entries)
    requires h < end
    ensures forall q: nat :: q in r <==> q in e || h < q < end
    ensures forall q: nat :: q in r ==> r[q] == if h < q < end then Forward(Jump(h, q)) else e[q]
    decreases end
  {
    if end == h + 1 then e else WithCounts(e, h, end - 1)[end - 1 := Forward(Jump(h, end - 1))]
  }

  function WithoutCounts(e: Entries, h: nat, end: nat): (r: Entries)
    requires h < end
    ensures forall q: nat :: q in r <==> q in e && !(h < q < end)
    ensures forall q: nat :: q in r ==> r[q] == e[q]
    decreases end
  {
    if end == h + 1 then e else WithoutCounts(e, h, end - 1) - {end - 1}
  }

  lemma NoCounts(e: Entries, h: nat)
    ensures WithCounts(e, h, h + 1) == e
  {
  }

  lemma OneCount(e: Entries, h: nat, p: nat)
    requires h < p
    ensures WithCounts(e, h, p + 1) == WithCounts(e, h, p)[p := Forward(Jump(h, p))]
  {
  }

  lemma WithIndexed(e: Entries, keys: seq<nat>, h: nat, end: nat)
    requires h < end && Indexed(e, keys) && forall q: nat :: h <= q < end ==> q / BOTTOM_SZ in keys
    ensures Indexed(WithCounts(e, h, end), keys)
  {
  }

  lemma WithoutIndexed(e: Entries, keys: seq<nat>, h: nat, end: nat)
    requires h < end && Indexed(e, keys)
    ensures Indexed(WithoutCounts(e, h, end), keys)
  {
  }

  // ----- looking things up

  lemma NextStart(e: Entries, keys: seq<nat>, h: nat, i: nat, j: int)
    requires Sorted(keys) && Indexed(e, keys) && i <= |keys|
    requires (i < |keys| && j == h % BOTTOM_SZ && keys[i] == h / BOTTOM_SZ)
             || (j == 0 && h / BOTTOM_SZ !in keys && (forall k | 0 <= k < i :: keys[k] < h / BOTTOM_SZ) && (i < |keys| ==> keys[i] >= h / BOTTOM_SZ))
    ensures i < |keys| ==> h <= At(keys, i, j) && NoneBelow(e, h, At(keys, i, j))
    ensures i == |keys| ==> forall b: nat :: IsUsed(e, b) ==> b < h
  {
    forall b: nat | IsUsed(e, b) && h <= b ensures i < |keys| && At(keys, i, j) <= b {
      assert b / BOTTOM_SZ in keys;
      var k :| 0 <= k < |keys| && keys[k] == b / BOTTOM_SZ;
      assert i <= k;
      assert keys[i] <= keys[k];
    }
  }

  lemma NextIndex(e: Entries, keys: seq<nat>, h: nat, i: nat, j: int)
    requires Sorted(keys) && Indexed(e, keys) && i < |keys| && j >= BOTTOM_SZ && NoneBelow(e, h, At(keys, i, j)) && h <= At(keys, i, j)
    requires h / BOTTOM_SZ <= keys[i]
    ensures i + 1 < |keys| ==> h <= At(keys, i + 1, 0) && NoneBelow(e, h, At(keys, i + 1, 0))
    ensures i + 1 == |keys| ==> forall b: nat :: IsUsed(e, b) ==> b < h
  {
    forall b: nat | IsUsed(e, b) && h <= b ensures i + 1 < |keys| && At(keys, i + 1, 0) <= b {
      assert b / BOTTOM_SZ in keys;
      var k :| 0 <= k < |keys| && keys[k] == b / BOTTOM_SZ;
      assert keys[i] < keys[k];
      assert i + 1 <= k;
      assert keys[i + 1] <= keys[k];
    }
  }

  lemma PastFree(e: Entries, h: nat, p: nat)
    requires Tiles(e) && IsFree(e, p) && NoneBelow(e, h, p)
    ensures NoneBelow(e, h, p + e[p].sz / HBLKSIZE) && e[p].sz / HBLKSIZE > 0
  {
    assert SizeOk(e, p);
    assert End(e, p) == p + e[p].sz / HBLKSIZE;
    forall b: nat | IsUsed(e, b) && h <= b ensures End(e, p) <= b {
      assert p <= b && p != b;
    }
  }

  // A count stays inside the block.
  lemma JumpStays(e: Entries, q: nat, p: nat)
    requires Tiles(e) && CountsOnly(e) && q in e && e[q].Forward? && (q == p || InUsed(e, q, p))
    ensures 0 < e[q].n <= q && InUsed(e, q - e[q].n, p)
  {
    var a: nat :| IsUsed(e, a) && a < q < End(e, a) && Forwards(e, a, q);
    if q != p {
      var b: nat :| IsUsed(e, b) && b <= q <= p < End(e, b);
      assert b < a ==> End(e, b) <= a;
      assert a < b ==> End(e, a) <= b;
    }
  }

  lemma InUsedHasEntry(e: Entries, q: nat, p: nat)
    requires Exact(e, 0) && InUsed(e, q, p)
    ensures q in e && e[q] != Forward(0)
  {
    var a: nat :| IsUsed(e, a) && a <= q <= p < End(e, a);
    assert SizeOk(e, a);
    if a < q {
      assert Forwards(e, a, q);
    }
  }

  // The header found below h decides whether a free block ends at h.
  lemma EndsHere(e: Entries, p: nat, h: nat)
    requires Tiles(e) && IsHdr(e, h) && IsHdr(e, p) && p < h && (p == h - 1 || InUsed(e, p, h - 1))
    ensures IsFree(e, p) ==> End(e, p) == h
    ensures !IsFree(e, p) ==> forall b: nat :: IsFree(e, b) ==> End(e, b) != h
  {
    assert SizeOk(e, p);
    if p != h - 1 {
      var a: nat :| IsUsed(e, a) && a <= p <= h - 1 < End(e, a);
      assert a == p;
    }
    forall b: nat | IsFree(e, b) && !IsFree(e, p) ensures End(e, b) != h {
      assert SizeOk(e, b);
      assert b < p ==> End(e, b) <= p;
      assert p < b ==> End(e, p) <= b;
    }
  }

  lemma LaterEndsLater(e: Entries, h: nat)
    requires Tiles(e)
    ensures forall b: nat :: IsFree(e, b) && h <= b ==> End(e, b) != h
  {
    forall b: nat | IsFree(e, b) && h <= b ensures End(e, b) != h {
      assert SizeOk(e, b);
    }
  }

  // Only the last block that starts below h can end at h.
  lemma OnlyLast(e: Entries, p: nat, h: nat)
    requires Tiles(e) && IsHdr(e, h) && IsHdr(e, p) && p < h && forall b: nat :: IsHdr(e, b) && b <= h - 1 ==> b <= p
    ensures IsFree(e, p) ==> End(e, p) == p + e[p].sz / HBLKSIZE
    ensures forall b: nat :: IsFree(e, b) && End(e, b) == h ==> b == p
  {
    assert SizeOk(e, p);
    forall b: nat | IsFree(e, b) && End(e, b) == h ensures b == p {
      assert SizeOk(e, b);
      assert b < p ==> End(e, b) <= p;
    }
  }

  // A slot lies in the pages of its block.
  lemma SlotPage(e: Entries, h: nat, s: nat, p: nat)
    requires Tiles(e) && IsUsed(e, h) && SlotOf(e, h, s, p)
    ensures h <= p / HBLKSIZE < End(e, h)
    ensures e[h].sz <= HBLKSIZE ==> p / HBLKSIZE == h
  {
    assert SizeOk(e, h);
  }

  lemma UsedHasEntry(e: Entries, b: nat, q: nat)
    requires Exact(e, 0) && IsUsed(e, b) && b <= q < End(e, b)
    ensures q in e && e[q] != Forward(0) && (b == q || !IsHdr(e, q))
  {
    assert SizeOk(e, b);
    if b < q {
      assert Forwards(e, b, q);
    }
  }

  lemma NoSlot(e: Entries, p: nat, h: nat)
    requires Exact(e, 0) && h == p / HBLKSIZE && (h !in e || e[h] == Forward(0))
    ensures forall s: nat :: !InSlot(e, s, p)
  {
    forall s: nat ensures !InSlot(e, s, p) {
      if InSlot(e, s, p) {
        var b: nat :| IsUsed(e, b) && SlotOf(e, b, s, p);
        SlotPage(e, b, s, p);
        UsedHasEntry(e, b, h);
      }
    }
  }

  /** GC_base follows counts from p's block to h. */
  ghost predicate Reached(e: Entries, p: nat, h: nat, r: nat) {
    if h == p / HBLKSIZE then r == p else r == h * HBLKSIZE && InUsed(e, h, p / HBLKSIZE)
  }

  lemma AtFirst(e: Entries, p: nat)
    ensures Reached(e, p, p / HBLKSIZE, p)
  {
  }

  lemma JumpReaches(e: Entries, p: nat, h: nat, r: nat)
    requires Exact(e, 0) && Reached(e, p, h, r) && h in e && e[h].Forward?
    ensures 0 < e[h].n <= h
    ensures var q := h - e[h].n; Reached(e, p, q, q * HBLKSIZE) && q in e && e[q] != Forward(0)
  {
    JumpStays(e, h, p / HBLKSIZE);
    InUsedHasEntry(e, h - e[h].n, p / HBLKSIZE);
    var a: nat :| IsUsed(e, a) && a <= h - e[h].n <= p / HBLKSIZE < End(e, a);
  }

  lemma ReachedIsUsed(e: Entries, p: nat, h: nat, r: nat)
    requires Exact(e, 0) && Reached(e, p, h, r) && IsHdr(e, h)
    ensures e[h].free ==> forall s: nat :: !InSlot(e, s, p)
    ensures !e[h].free ==> Found(e, p, h, r - r % WORD_BYTES)
  {
    if InUsed(e, h, p / HBLKSIZE) {
      var a: nat :| IsUsed(e, a) && a <= h <= p / HBLKSIZE < End(e, a);
      assert a < h ==> End(e, a) <= h;
    }
    if e[h].free {
      NoSlotInFree(e, p, h);
    }
  }

  lemma NoSlotInFree(e: Entries, p: nat, h: nat)
    requires Exact(e, 0) && IsFree(e, h) && h == p / HBLKSIZE
    ensures forall s: nat :: !InSlot(e, s, p)
  {
    forall s: nat ensures !InSlot(e, s, p) {
      if InSlot(e, s, p) {
        var b: nat :| IsUsed(e, b) && SlotOf(e, b, s, p);
        SlotPage(e, b, s, p);
        UsedHasEntry(e, b, h);
      }
    }
  }

  lemma AlignedBelow(t: nat, h: nat, p: nat)
    requires h * HBLKSIZE <= t <= p && (t - h * HBLKSIZE) % WORD_BYTES == 0
    ensures t <= p - p % WORD_BYTES
  {
  }

  lemma SameMultiple(x: nat, a: nat, sz: nat)
    requires sz > 0 && a % sz == 0 && a <= x < a + sz
    ensures a == x - x % sz
  {
    var q := a / sz;
    assert a == q * sz;
    assert x == q * sz + (x - a);
    ModOf(x, q, x - a, sz);
  }

  lemma ModOf(x: nat, q: nat, r: nat, sz: nat)
    requires r < sz && x == q * sz + r
    ensures x % sz == r
  {
    var d := x / sz - q;
    assert x % sz == x - x / sz * sz;
    assert x % sz == r - d * sz by { assert (q + d) * sz == q * sz + d * sz; }
    assert d >= 1 ==> d * sz >= sz;
    assert d <= -1 ==> d * sz + sz <= 0 by { assert (d + 1) * sz == d * sz + sz; assert d <= -1 ==> (d + 1) * sz <= 0; }
  }

  lemma MultipleIsAligned(a: nat, sz: nat)
    requires sz > 0 && a % sz == 0 && sz % GRANULE_BYTES == 0
    ensures a % WORD_BYTES == 0
  {
    var q, g := a / sz, sz / GRANULE_BYTES;
    assert a == q * sz && sz == 2 * WORD_BYTES * g;
    assert a == WORD_BYTES * (2 * (q * g)) by { assert q * (2 * WORD_BYTES * g) == WORD_BYTES * (2 * (q * g)); }
  }

  lemma RoundedDown(x: nat, sz: nat)
    requires sz > 0
    ensures (x - x % sz) % sz == 0 && x % sz <= x
  {
    var q := x / sz;
    assert x - x % sz == q * sz;
    ModOf(q * sz, q, 0, sz);
  }

  /** What is known of the used block at h when GC_base has found its header for address p. */
  ghost predicate Found(e: Entries, p: nat, h: nat, aligned: nat) {
    && IsUsed(e, h)
    && if h == p / HBLKSIZE then aligned == p - p % WORD_BYTES
       else aligned == h * HBLKSIZE && InUsed(e, h, p / HBLKSIZE)
  }

  lemma OneBlock(e: Entries, p: nat, h: nat, aligned: nat, b: nat)
    requires Tiles(e) && Found(e, p, h, aligned) && IsUsed(e, b) && b <= p / HBLKSIZE < End(e, b)
    ensures b == h && h <= p / HBLKSIZE < End(e, h)
  {
    assert SizeOk(e, h) && SizeOk(e, b);
    if h != p / HBLKSIZE {
      var a: nat :| IsUsed(e, a) && a <= h <= p / HBLKSIZE < End(e, a);
      assert a < h ==> End(e, a) <= h;
    }
    assert b < h ==> End(e, b) <= h;
    assert h < b ==> End(e, h) <= b;
  }

  lemma BaseIsSlot(e: Entries, p: nat, h: nat, aligned: nat)
    requires Exact(e, 0) && Found(e, p, h, aligned)
    ensures var sz := e[h].sz;
            && sz > 0 && h > 0 && aligned % HBLKSIZE % sz <= aligned
            && var s := aligned - aligned % HBLKSIZE % sz;
               && s > 0
               && if (s + sz > (h + 1) * HBLKSIZE && sz <= HBLKSIZE) || p >= s + sz then forall t: nat :: !InSlot(e, t, p)
                  else InSlot(e, s, p)
  {
    assert SizeOk(e, h);
    if e[h].sz > HBLKSIZE {
      LargeBase(e, p, h, aligned);
    } else {
      SmallBase(e, p, h, aligned);
    }
  }

  lemma LargeBase(e: Entries, p: nat, h: nat, aligned: nat)
    requires Tiles(e) && Found(e, p, h, aligned) && e[h].sz > HBLKSIZE && h > 0
    ensures aligned % HBLKSIZE % e[h].sz <= aligned
    ensures aligned - aligned % HBLKSIZE % e[h].sz == h * HBLKSIZE
    ensures if p >= h * HBLKSIZE + e[h].sz then forall t: nat :: !InSlot(e, t, p) else SlotOf(e, h, h * HBLKSIZE, p)
  {
    assert aligned / HBLKSIZE == h;
    ModOf(aligned % HBLKSIZE, 0, aligned % HBLKSIZE, e[h].sz);
    forall t: nat | InSlot(e, t, p) ensures p < h * HBLKSIZE + e[h].sz {
      var b: nat :| IsUsed(e, b) && SlotOf(e, b, t, p);
      SlotPage(e, b, t, p);
      OneBlock(e, p, h, aligned, b);
    }
    assert h * HBLKSIZE <= p;
  }

  lemma SmallFound(e: Entries, p: nat, h: nat, aligned: nat)
    requires Tiles(e) && Found(e, p, h, aligned) && End(e, h) == h + 1
    ensures h == p / HBLKSIZE
  {
    if InUsed(e, h, p / HBLKSIZE) {
      var a: nat :| IsUsed(e, a) && a <= h <= p / HBLKSIZE < End(e, a);
      assert a < h ==> End(e, a) <= h;
    }
  }

  lemma SmallBase(e: Entries, p: nat, h: nat, aligned: nat)
    requires Tiles(e) && Found(e, p, h, aligned) && 0 < e[h].sz <= HBLKSIZE && e[h].sz % GRANULE_BYTES == 0 && h > 0
    ensures var sz := e[h].sz;
            && aligned % HBLKSIZE % sz <= aligned
            && var s := aligned - aligned % HBLKSIZE % sz;
               && s > 0
               && if s + sz > (h + 1) * HBLKSIZE || p >= s + sz then forall t: nat :: !InSlot(e, t, p)
                  else SlotOf(e, h, s, p)
  {
    var sz := e[h].sz;
    assert End(e, h) == h + 1;
    SmallFound(e, p, h, aligned);
    var x := aligned - h * HBLKSIZE;
    assert x == aligned % HBLKSIZE;
    RoundedDown(x, sz);
    var s := aligned - x % sz;
    assert s - h * HBLKSIZE == x - x % sz;
    forall t: nat | InSlot(e, t, p) ensures t == s && s + sz <= (h + 1) * HBLKSIZE && p < s + sz {
      var b: nat :| IsUsed(e, b) && SlotOf(e, b, t, p);
      SlotPage(e, b, t, p);
      OneBlock(e, p, h, aligned, b);
      MultipleIsAligned(t - h * HBLKSIZE, sz);
      AlignedBelow(t, h, p);
      SameMultiple(x, t - h * HBLKSIZE, sz);
    }
  }
}
