// The byte-size to granule-size map: gc/misc.c and the retry in gc/malloc.c.

module SizeMap {
  import opened Config

  const TINY_FREELISTS: nat := 25

  /** ROUNDED_UP_GRANULES; extra is EXTRA_BYTES, 1 when interior pointers are recognised. */
  function RoundedUpGranules(n: nat, extra: nat): (g: nat)
    ensures g * GRANULE_BYTES >= n + extra
    ensures g > 0 ==> (g - 1) * GRANULE_BYTES < n + extra
  {
    (n + (GRANULE_BYTES - 1 + extra)) / GRANULE_BYTES
  }

  /** An entry is unfilled, or big enough for every request that maps to it and no bigger than a small object. */
  ghost predicate EntryOk(v: nat, j: nat, extra: nat) {
    v == 0 || RoundedUpGranules(j, extra) <= v <= MAXOBJGRANULES
  }

  ghost predicate MapOk(m: seq<nat>, extra: nat) {
    && |m| == MAXOBJBYTES + 1
    && (forall j: nat | j < |m| :: EntryOk(m[j], j, extra))
    && (forall j: nat | j <= (TINY_FREELISTS - 1) * GRANULE_BYTES - extra :: m[j] != 0)
  }

  /** The largest even size such that as many objects of it fit in a block as of g granules. */
  function Widen(g: nat): (w: nat)
    requires 0 < g <= MAXOBJGRANULES && g % 2 == 0
    ensures g <= w <= MAXOBJGRANULES && w % 2 == 0
    ensures HBLK_GRANULES / w == HBLK_GRANULES / g
    ensures forall v: nat :: v > w && v % 2 == 0 ==> HBLK_GRANULES / v < HBLK_GRANULES / g
  {
    WidenFits(g);
    WidestFits(g);
    var n := HBLK_GRANULES / g;
    HBLK_GRANULES / n - (HBLK_GRANULES / n) % 2
  }

  lemma WidenFits(g: nat)
    requires 0 < g <= MAXOBJGRANULES && g % 2 == 0
    ensures 2 <= HBLK_GRANULES / g <= HBLK_GRANULES
    ensures var n := HBLK_GRANULES / g; var w := HBLK_GRANULES / n - (HBLK_GRANULES / n) % 2;
            g <= w <= MAXOBJGRANULES && w % 2 == 0 && HBLK_GRANULES / w == n
  {
    WidenBounds(HBLK_GRANULES, MAXOBJGRANULES, g);
    var n := HBLK_GRANULES / g;
    var u := HBLK_GRANULES / n;
    SameCount(HBLK_GRANULES, g, u - u % 2, u);
  }

  lemma WidestFits(g: nat)
    requires 0 < g <= MAXOBJGRANULES
    ensures HBLK_GRANULES / g > 0
    ensures var u := HBLK_GRANULES / (HBLK_GRANULES / g);
            forall v: nat :: v > u - u % 2 && v % 2 == 0 ==> HBLK_GRANULES / v < HBLK_GRANULES / g
  {
    WidenBounds(HBLK_GRANULES, MAXOBJGRANULES, g);
    var n := HBLK_GRANULES / g;
    var u := HBLK_GRANULES / n;
    forall v: nat | v > u - u % 2 && v % 2 == 0 ensures HBLK_GRANULES / v < n {
      TooWide(HBLK_GRANULES, n, u, v);
    }
  }

  lemma TooWide(a: nat, n: nat, u: nat, v: nat)
    requires n > 0 && u == a / n && v > u
    ensures a / v < n
  {
    Quotient(a, n);
    MulMono(u + 1, v, n, n);
    AtMost(a, n, v);
  }

  // Larger objects do not fit more often.
  lemma FitsLess(a: nat, g: nat, h: nat)
    requires 0 < g <= h
    ensures a / h <= a / g
  {
    Quotient(a, h);
    MulMono(a / h, a / h, g, h);
    AtLeast(a, a / h, g);
  }

  lemma WidenBounds(a: nat, max: nat, g: nat)
    requires 0 < g <= max && a == 2 * max
    ensures 2 <= a / g <= a
    ensures g <= a / (a / g) <= max
  {
    AtLeast(a, 2, g);
    Quotient(a, g);
    MulMono(a / g, a / g, 1, g);
    var n := a / g;
    AtLeast(a, g, n);
    MulMono(max + 1, max + 1, 2, n);
    AtMost(a, max + 1, n);
  }

  // If g <= w <= N / (N / g) then as many w's as g's fit in N.
  lemma SameCount(a: nat, g: nat, w: nat, u: nat)
    requires 0 < g <= w <= u && a / g > 0 && u == a / (a / g)
    ensures a / w == a / g
  {
    var n := a / g;
    Quotient(a, n);
    Quotient(a, g);
    MulMono(w, u, n, n);
    AtLeast(a, n, w);
    MulMono(n + 1, n + 1, g, w);
    AtMost(a, n + 1, w);
  }

  lemma Quotient(a: nat, b: nat)
    requires b > 0
    ensures (a / b) * b <= a < (a / b + 1) * b
  {
  }

  lemma AtLeast(a: nat, k: nat, b: nat)
    requires b > 0 && k * b <= a
    ensures k <= a / b
  {
    Quotient(a, b);
    if k > a / b { MulMono(a / b + 1, k, b, b); }
  }

  lemma AtMost(a: nat, k: nat, b: nat)
    requires b > 0 && a < k * b
    ensures a / b < k
  {
    Quotient(a, b);
    if a / b >= k { MulMono(k, a / b, b, b); }
  }

  lemma MulMono(a: nat, b: nat, c: nat, d: nat)
    requires a <= b && c <= d
    ensures a * c <= b * d
  {
  }

  /** Larger sizes are an even number of granules, up to the maximum. */
  function EvenCapped(g: nat): (e: nat)
    requires g > 0
    ensures 0 < e <= MAXOBJGRANULES && e % 2 == 0 && e <= g + 1
    ensures g <= MAXOBJGRANULES ==> g <= e
  {
    var e := g + 1 - (g + 1) % 2;
    if e > MAXOBJGRANULES then MAXOBJGRANULES else e
  }

  // Where the two searches start, for a request beyond the entries filled in at the start.
  lemma Shrunk(i: nat, extra: nat)
    requires extra <= 1 && (TINY_FREELISTS - 1) * GRANULE_BYTES - extra < i && i + extra <= MAXOBJBYTES
    ensures var orig := RoundedUpGranules(i, extra);
            var bytes := orig * GRANULE_BYTES;
            0 < orig <= MAXOBJGRANULES && bytes - bytes / 4 <= bytes - bytes / 8 < i
  {
  }

  // Filling entries with a size that is big enough for the last of them keeps the map in order.
  lemma FilledOk(m: seq<nat>, r: seq<nat>, low: nat, granules: nat, extra: nat)
    requires extra <= 1 && MapOk(m, extra) && |r| == |m| && 0 < granules <= MAXOBJGRANULES
    requires forall j: nat | j < |m| :: r[j] == if low <= j <= granules * GRANULE_BYTES - extra then granules else m[j]
    ensures MapOk(r, extra)
    ensures forall j: nat | j < |m| && m[j] != 0 :: r[j] != 0
  {
    forall j: nat | j < |r| ensures EntryOk(r[j], j, extra) {
      assert EntryOk(m[j], j, extra);
    }
  }

  class SizeTable {
    const extra: nat
    var sizeMap: array<nat>

    ghost predicate Valid()
      reads this, sizeMap
    {
      extra <= 1 && MapOk(sizeMap[..], extra)
    }

    // GC_init_size_map: the exact sizes, up to the largest tiny free list.
    constructor (interior: bool)
      ensures Valid() && fresh(sizeMap) && extra == (if interior then 1 else 0)
      ensures forall j: nat | 0 < j <= (TINY_FREELISTS - 1) * GRANULE_BYTES - extra ::
                sizeMap[j] == RoundedUpGranules(j, extra)
      ensures forall j | (TINY_FREELISTS - 1) * GRANULE_BYTES - extra < j <= MAXOBJBYTES :: sizeMap[j] == 0
    {
      extra := if interior then 1 else 0;
      sizeMap := new nat[MAXOBJBYTES + 1](_ => 0);
      new;
      var limit := (TINY_FREELISTS - 1) * GRANULE_BYTES - extra;
      sizeMap[0] := 1;
      var i := 1;
      while i <= limit
        invariant 1 <= i <= limit + 1 && fresh(sizeMap) && sizeMap.Length == MAXOBJBYTES + 1
        invariant sizeMap[0] == 1
        invariant forall j: nat | 0 < j < i :: sizeMap[j] == RoundedUpGranules(j, extra)
        invariant forall j | i <= j <= MAXOBJBYTES :: sizeMap[j] == 0
      {
        sizeMap[i] := RoundedUpGranules(i, extra);
        i := i + 1;
      }
    }

    // GC_extend_size_map: fill in entries around i, including i.
    method Extend(i: nat)
      requires Valid() && i + extra <= MAXOBJBYTES && sizeMap[i] == 0
      modifies sizeMap
      ensures Valid() && sizeMap[i] != 0
      ensures forall j: nat | j <= MAXOBJBYTES && old(sizeMap[j]) != 0 :: sizeMap[j] != 0
      ensures var orig := RoundedUpGranules(i, extra);
              && orig <= sizeMap[i] && sizeMap[i] % 2 == 0
              && HBLK_GRANULES / sizeMap[i] >= HBLK_GRANULES / (orig + orig / 8 + 1)
              && (forall j: nat | i <= j <= sizeMap[i] * GRANULE_BYTES - extra :: sizeMap[j] == sizeMap[i])
              && (forall j: nat | j <= MAXOBJBYTES && sizeMap[j] != old(sizeMap[j]) ::
                    4 * j >= 3 * orig * GRANULE_BYTES && j <= sizeMap[i] * GRANULE_BYTES - extra && sizeMap[j] == sizeMap[i])
    {
      var low, granules := Section(i);
      ghost var before := sizeMap[..];
      Fill(low, granules * GRANULE_BYTES - extra, granules);
      FilledOk(before, sizeMap[..], low, granules, extra);
    }

    // GC_extend_size_map: the first entry to be filled in, and the size for it and those that follow.
    method Section(i: nat) returns (low: nat, granules: nat)
      requires Valid() && i + extra <= MAXOBJBYTES && sizeMap[i] == 0
      ensures var orig := RoundedUpGranules(i, extra);
              && low <= i <= orig * GRANULE_BYTES - extra && 0 < orig <= granules <= MAXOBJGRANULES && granules % 2 == 0
              && 4 * low >= 3 * orig * GRANULE_BYTES && HBLK_GRANULES / granules >= HBLK_GRANULES / (orig + orig / 8 + 1)
    {
      var orig := RoundedUpGranules(i, extra);
      var bytes := orig * GRANULE_BYTES;
      var smaller, muchSmaller := bytes - bytes / 8, bytes - bytes / 4;
      Shrunk(i, extra);
      granules := orig;
      if sizeMap[smaller] == 0 {
        low := FirstUnfilled(muchSmaller, smaller);
      } else {
        low := FirstUnfilled(smaller + 1, i);
        granules := RoundedUpGranules(low, extra);
        granules := granules + granules / 8;
        if granules < orig { granules := orig; }
      }
      granules := EvenCapped(granules);
      FitsLess(HBLK_GRANULES, granules, orig + orig / 8 + 1);
      granules := Widen(granules);
    }

    // The two search loops: the first unfilled entry from `low` on; `stop` is one that is unfilled.
    method FirstUnfilled(low: nat, ghost stop: nat) returns (k: nat)
      requires sizeMap.Length == MAXOBJBYTES + 1
      requires low <= stop <= MAXOBJBYTES && sizeMap[stop] == 0
      ensures low <= k <= stop && sizeMap[k] == 0
      ensures forall j | low <= j < k :: sizeMap[j] != 0
    {
      k := low;
      while sizeMap[k] != 0
        invariant low <= k <= stop
        invariant forall j | low <= j < k :: sizeMap[j] != 0
        decreases stop - k
      {
        k := k + 1;
      }
    }

    method Fill(low: nat, high: nat, granules: nat)
      requires sizeMap.Length == MAXOBJBYTES + 1 && high <= MAXOBJBYTES
      modifies sizeMap
      ensures forall j: nat | j <= MAXOBJBYTES ::
                sizeMap[j] == if low <= j <= high then granules else old(sizeMap[j])
    {
      var j := low;
      while j <= high
        invariant low <= j
        invariant forall k: nat | k <= MAXOBJBYTES ::
                    sizeMap[k] == if low <= k < j && k <= high then granules else old(sizeMap[k])
      {
        sizeMap[j] := granules;
        j := j + 1;
      }
    }

    // The size-class lookup of GC_generic_malloc_inner: an unfilled entry is filled in and the lookup
    // is tried again.  `depth` counts the retries.
    method SizeClass(lb: nat) returns (lg: nat, depth: nat)
      requires Valid() && lb + extra <= MAXOBJBYTES
      modifies sizeMap
      ensures Valid()
      ensures 0 < lg <= MAXOBJGRANULES && lg * GRANULE_BYTES >= lb + extra && lg == sizeMap[lb]
      ensures depth <= 1 && (depth == 0 <==> old(sizeMap[lb]) != 0)
      ensures old(sizeMap[lb]) != 0 ==> lg == old(sizeMap[lb]) && sizeMap[..] == old(sizeMap[..])
      decreases if sizeMap[lb] == 0 then 1 else 0
    {
      lg := sizeMap[lb];
      if lg == 0 {
        Extend(lb);
        lg, depth := SizeClass(lb);
        depth := depth + 1;
      } else {
        depth := 0;
        assert EntryOk(sizeMap[..][lb], lb, extra);
      }
    }
  }
}
