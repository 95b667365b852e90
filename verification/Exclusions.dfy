// Ranges that are not static roots: gc/mark_rts.c.

module Exclusions {
  import opened Config

  datatype Range = Range(start: nat, end: nat)

  /** Ascending, nonempty, pairwise disjoint ranges. */
  ghost predicate Sorted(t: seq<Range>) {
    && (forall i | 0 <= i < |t| :: t[i].start < t[i].end)
    && (forall i, j | 0 <= i < j < |t| :: t[i].end <= t[j].start)
  }

  ghost predicate Excluded(t: seq<Range>, x: nat) {
    exists i | 0 <= i < |t| :: t[i].start <= x < t[i].end
  }

  ghost predicate Overlaps(t: seq<Range>, start: nat, finish: nat) {
    exists i | 0 <= i < |t| :: t[i].start < finish && start < t[i].end
  }

  ghost predicate Touches(t: seq<Range>, finish: nat) {
    exists i | 0 <= i < |t| :: t[i].start == finish
  }

  /** r is a sorted table that excludes what t excludes and [start, finish), and nothing else. */
  ghost predicate Extended(t: seq<Range>, r: seq<Range>, start: nat, finish: nat) {
    && Sorted(r)
    && forall x: nat :: Excluded(r, x) <==> Excluded(t, x) || start <= x < finish
  }

  /** How many of the ranges contain x. */
  ghost function Cover(t: seq<Range>, x: nat): (n: nat)
    ensures n == 0 <==> !Excluded(t, x)
  {
    if t == [] then 0
    else
      var n := Cover(t[..|t| - 1], x);
      assert t == t[..|t| - 1] + [t[|t| - 1]];
      n + if t[|t| - 1].start <= x < t[|t| - 1].end then 1 else 0
  }

  // In a sorted table no address is in two ranges.
  lemma {:induction false} SortedCoversOnce(t: seq<Range>, x: nat)
    requires Sorted(t)
    ensures Cover(t, x) == if Excluded(t, x) then 1 else 0
  {
    if t != [] {
      var front := t[..|t| - 1];
      SortedCoversOnce(front, x);
      assert Excluded(front, x) ==> x < t[|t| - 1].start;
    }
  }

  /** With a full table, ranges are shifted up, the last one to behind the table, before the capacity is tested. */
  ghost predicate WritesBeyond(t: seq<Range>, capacity: nat, start: nat, finish: nat) {
    && |t| == capacity && !Overlaps(t, start, finish) && !Touches(t, finish)
    && exists i :: 0 <= i < |t| && t[i].end > start
  }

  const MAX_EXCLUSIONS: nat := 512      // MAX_ROOT_SETS / 4; 128 and 2048 in the small and the large configuration

  /** n ranges of 8 bytes with gaps of 8 bytes between them, from address 16 on. */
  function Spaced(n: nat): (t: seq<Range>)
    ensures |t| == n && forall i | 0 <= i < n :: t[i] == Range(16 + 16 * i, 24 + 16 * i)
  {
    seq(n, i requires 0 <= i < n => Range(16 + 16 * i, 24 + 16 * i))
  }

  // In a full table of any size: a range below those that are there.
  lemma BelowFullTable(capacity: nat)
    requires capacity > 0
    ensures Sorted(Spaced(capacity)) && WritesBeyond(Spaced(capacity), capacity, 0, 8)
  {
    assert Spaced(capacity)[0].end > 0;
  }

  // A range above everything in the table, and a range of [0, 8) below everything in it, are new to it.
  lemma OnItsOwn(t: seq<Range>, start: nat, finish: nat)
    requires Sorted(t) && start < finish && forall x: nat | start <= x <= finish :: !Excluded(t, x)
    ensures !Overlaps(t, start, finish) && !Touches(t, finish)
  {
    forall i | 0 <= i < |t| ensures !(t[i].start < finish && start < t[i].end) && t[i].start != finish {
      var x := if t[i].start < start then start else t[i].start;
      assert t[i].start <= x < t[i].end ==> Excluded(t, x);
    }
  }

  // The table of the source, filled with one range after another, and then a range below all of them.
  method FillAndExclude() returns (excl: ExclusionTable, beyond: bool)
    ensures excl.capacity == MAX_EXCLUSIONS && beyond
  {
    hide Extended, Sorted, Overlaps, Touches;
    excl := new ExclusionTable(MAX_EXCLUSIONS);
    var result;
    var k := 0;
    while k < MAX_EXCLUSIONS
      invariant k <= MAX_EXCLUSIONS && excl.Valid() && excl.entries == k && excl.capacity == MAX_EXCLUSIONS
      invariant forall x: nat :: Excluded(excl.Ranges(), x) ==> 16 <= x < 8 + 16 * k
      invariant fresh(excl) && fresh(excl.table)
    {
      ghost var t := excl.Ranges();
      OnItsOwn(t, 16 + 16 * k, 24 + 16 * k);
      result, beyond := excl.ExcludeInner(16 + 16 * k, 24 + 16 * k);
      ExtendedHas(t, excl.Ranges(), 16 + 16 * k, 24 + 16 * k);
      k := k + 1;
    }
    OnItsOwn(excl.Ranges(), 0, 8);
    NotEmpty(excl.Ranges());
    result, beyond := excl.ExcludeInner(0, 8);
  }

  lemma ExtendedHas(t: seq<Range>, r: seq<Range>, start: nat, finish: nat)
    requires Extended(t, r, start, finish)
    ensures forall x: nat :: Excluded(r, x) <==> Excluded(t, x) || start <= x < finish
  {
  }

  lemma NotEmpty(t: seq<Range>)
    requires Sorted(t) && |t| > 0
    ensures exists i :: 0 <= i < |t| && t[i].end > 0
  {
    assert t[0].end > 0;
  }

  /** The last word boundary at or below e. */
  function Rounded(e: nat): (r: nat)
    ensures r <= e < r + 8 && r % 8 == 0
  {
    e - e % WORD_BYTES
  }

  datatype Insertion = Accepted | Overlap | TooMany

  class ExclusionTable {
    const capacity: nat                 // MAX_EXCLUSIONS
    var table: array<Range>
    var entries: nat

    ghost predicate Valid()
      reads this, table
    {
      // The last slot is the memory behind the table.
      && table.Length == capacity + 1
      && entries <= capacity
      && Sorted(table[..entries])
    }

    ghost function Ranges(): seq<Range>
      requires entries <= table.Length
      reads this, table
    {
      table[..entries]
    }

    constructor (capacity: nat)
      ensures Valid() && fresh(table) && Ranges() == [] && this.capacity == capacity
    {
      this.capacity := capacity;
      table := new Range[capacity + 1](_ => Range(0, 0));
      entries := 0;
    }

    // Binary search for the first range that ends above addr.  The source demands a nonempty table.
    method NextExclusion(addr: nat) returns (found: bool, low: nat)
      requires Valid() && entries > 0
      ensures found ==> low < entries && table[low].end > addr
      ensures found ==> forall i | 0 <= i < low :: table[i].end <= addr
      ensures !found ==> forall i | 0 <= i < entries :: table[i].end <= addr
    {
      low := 0;
      var high := entries - 1;
      while high > low
        invariant 0 <= low <= high < entries
        invariant forall i | 0 <= i < low :: table[i].end <= addr
        invariant high < entries - 1 ==> table[high].end > addr
      {
        var mid := (low + high) / 2;
        if table[mid].end <= addr {
          forall i | 0 <= i < mid ensures table[i].end <= addr {
            assert Ranges()[i].end <= Ranges()[mid].start;
          }
          low := mid + 1;
        } else {
          high := mid;
        }
      }
      found := table[low].end > addr;
    }

    // Open a gap at `next` by moving the ranges from there on up by one slot.
    method ShiftUp(next: nat)
      requires next <= entries <= capacity < table.Length
      modifies table
      ensures table[..next] == old(table[..next])
      ensures table[next + 1..entries + 1] == old(table[next..entries])
      ensures entries < capacity || next == entries ==> table[capacity] == old(table[capacity])
    {
      var i := entries;
      while i > next
        invariant next <= i <= entries
        invariant table[..i] == old(table[..i])
        invariant table[i + 1..entries + 1] == old(table[i..entries])
        invariant entries < capacity || i == entries ==> table[capacity] == old(table[capacity])
      {
        table[i] := table[i - 1];
        i := i - 1;
      }
    }

    // GC_exclude_static_roots_inner.  `beyond` is whether the memory behind the table was written.
    method ExcludeInner(start: nat, finish: nat) returns (result: Insertion, beyond: bool)
      requires Valid() && start < finish
      modifies this, table
      ensures table == old(table)
      ensures beyond <==> WritesBeyond(old(Ranges()), capacity, start, finish)
      ensures beyond ==> result.TooMany? && table[capacity] == old(table[capacity - 1])
      ensures !beyond ==> table[capacity] == old(table[capacity])
      ensures result.Overlap? <==> Overlaps(old(Ranges()), start, finish)
      ensures result.TooMany? <==> !result.Overlap? && !Touches(old(Ranges()), finish) && old(entries) == capacity
      ensures result.Accepted? ==> Valid() && Extended(old(Ranges()), Ranges(), start, finish)
      ensures result.Accepted? ==> entries == old(entries) + if Touches(old(Ranges()), finish) then 0 else 1
      ensures result.Overlap? ==> Valid() && Ranges() == old(Ranges())
    {
      hide Sorted, Extended;
      ghost var t := Ranges();
      var found, next := false, entries;
      if entries > 0 {
        found, next := NextExclusion(start);
      }
      if !found { next := entries; }
      assert forall i | 0 <= i < entries :: t[i] == table[i];
      Placement(t, next, start, finish);
      beyond := false;
      if found {
        if table[next].start < finish {
          return Overlap, false;
        }
        if table[next].start == finish {
          ExtendBack(t, next, start, finish);
          table[next] := Range(start, table[next].end);
          assert Ranges() == t[next := Range(start, t[next].end)];
          return Accepted, false;
        }
        ShiftUp(next);
        beyond := entries == capacity;
        assert beyond ==> t[next].end > start;
      }
      if entries == capacity { return TooMany, beyond; }
      InsertAt(t, next, start, finish);
      FillGap(t, next, Range(start, finish));
      return Accepted, false;
    }

    method FillGap(ghost t: seq<Range>, next: nat, r: Range)
      requires next <= entries == |t| < capacity == table.Length - 1
      requires table[..next] == t[..next] && table[next + 1..entries + 1] == t[next..]
      modifies this`entries, table
      ensures entries == |t| + 1 && Ranges() == t[..next] + [r] + t[next..]
      ensures table[capacity] == old(table[capacity])
    {
      table[next] := r;
      entries := entries + 1;
      assert table[..entries] == table[..next] + [r] + table[next + 1..entries];
    }

    // Where a new range falls, given the first range that ends above its start.
    static lemma Placement(t: seq<Range>, next: nat, start: nat, finish: nat)
      requires Sorted(t) && next <= |t| && start < finish
      requires forall i | 0 <= i < next :: t[i].end <= start
      requires next < |t| ==> t[next].end > start
      ensures Overlaps(t, start, finish) <==> next < |t| && t[next].start < finish
      ensures !Overlaps(t, start, finish) ==> (Touches(t, finish) <==> next < |t| && t[next].start == finish)
    {
    }

    static lemma ExtendBack(t: seq<Range>, next: nat, start: nat, finish: nat)
      requires Sorted(t) && next < |t| && start < finish == t[next].start
      requires forall i | 0 <= i < next :: t[i].end <= start
      ensures Extended(t, t[next := Range(start, t[next].end)], start, finish)
      ensures Sorted(t[next := Range(start, t[next].end)])
    {
      var r := t[next := Range(start, t[next].end)];
      forall x: nat ensures Excluded(r, x) <==> Excluded(t, x) || start <= x < finish {
        assert r[next].start <= x < r[next].end <==> start <= x < finish || t[next].start <= x < t[next].end;
        assert forall i | 0 <= i < |t| && i != next :: r[i] == t[i];
      }
    }

    static lemma InsertAt(t: seq<Range>, next: nat, start: nat, finish: nat)
      requires Sorted(t) && next <= |t| && start < finish
      requires forall i | 0 <= i < next :: t[i].end <= start
      requires next < |t| ==> finish <= t[next].start
      ensures Extended(t, t[..next] + [Range(start, finish)] + t[next..], start, finish)
      ensures Sorted(t[..next] + [Range(start, finish)] + t[next..])
    {
      var r := t[..next] + [Range(start, finish)] + t[next..];
      InsertedAt(t, next, Range(start, finish));
      InsertSorted(t, r, next, start, finish);
      InsertExcluded(t, r, next, start, finish);
      hide Sorted, Excluded;
    }

    /** r is t with the element e put in at position k. */
    static predicate IsInserted(t: seq<Range>, r: seq<Range>, k: nat, e: Range) {
      && k <= |t| && |r| == |t| + 1 && r[k] == e
      && (forall i | 0 <= i < k :: r[i] == t[i])
      && (forall i | k < i < |r| :: r[i] == t[i - 1])
    }

    static lemma InsertSorted(t: seq<Range>, r: seq<Range>, next: nat, start: nat, finish: nat)
      requires Sorted(t) && start < finish && IsInserted(t, r, next, Range(start, finish))
      requires forall i | 0 <= i < next :: t[i].end <= start
      requires next < |t| ==> finish <= t[next].start
      ensures Sorted(r)
    {
      forall i, j | 0 <= i < j < |r| ensures r[i].end <= r[j].start {
        if i == next < j - 1 {
          assert t[next].end <= t[j - 1].start;
        }
      }
    }

    static lemma InsertExcluded(t: seq<Range>, r: seq<Range>, next: nat, start: nat, finish: nat)
      requires start < finish && IsInserted(t, r, next, Range(start, finish))
      ensures forall x: nat :: Excluded(r, x) <==> Excluded(t, x) || start <= x < finish
    {
      assert r[next] == Range(start, finish);
      forall x: nat ensures Excluded(r, x) <==> Excluded(t, x) || start <= x < finish {
        if Excluded(t, x) {
          var i :| 0 <= i < |t| && t[i].start <= x < t[i].end;
          assert r[if i < next then i else i + 1] == t[i];
        }
        if Excluded(r, x) && !(start <= x < finish) {
          var i :| 0 <= i < |r| && r[i].start <= x < r[i].end;
          assert r[i] == t[if i < next then i else i - 1];
        }
      }
    }

    static lemma InsertedAt(t: seq<Range>, next: nat, e: Range)
      requires next <= |t|
      ensures IsInserted(t, t[..next] + [e] + t[next..], next, e)
    {
    }

    // The client entry point rounds the upper bound down to a word boundary and ignores an empty range.
    method ExcludeStaticRoots(b: nat, e: nat) returns (result: Insertion, beyond: bool)
      requires Valid() && b % WORD_BYTES == 0 && b <= e
      modifies this, table
      ensures table == old(table) && b <= Rounded(e)
      ensures b == Rounded(e) ==> result.Accepted? && Valid() && Ranges() == old(Ranges())
      ensures beyond <==> b < Rounded(e) && WritesBeyond(old(Ranges()), capacity, b, Rounded(e))
      ensures beyond ==> result.TooMany? && table[capacity] == old(table[capacity - 1])
      ensures !beyond ==> table[capacity] == old(table[capacity])
      ensures result.Overlap? <==> b < Rounded(e) && Overlaps(old(Ranges()), b, Rounded(e))
      ensures result.TooMany? <==>
                b < Rounded(e) && !result.Overlap? && !Touches(old(Ranges()), Rounded(e)) && old(entries) == capacity
      ensures result.Accepted? ==> Valid() && Extended(old(Ranges()), Ranges(), b, Rounded(e))
      ensures result.Overlap? ==> Valid() && Ranges() == old(Ranges())
    {
      var top := Rounded(e);
      if b == top { return Accepted, false; }
      result, beyond := ExcludeInner(b, top);
    }

    // Push the parts of [bottom, top) that no exclusion covers; `pushed` lists the calls of
    // GC_push_conditional.
    method PushWithExclusions(bottom: nat, top: nat) returns (pushed: seq<Range>)
      requires Valid() && entries > 0
      ensures Sorted(pushed)
      ensures forall x: nat :: Excluded(pushed, x) <==> bottom <= x < top && !Excluded(Ranges(), x)
    {
      pushed := [];
      var b := bottom;
      while b < top
        invariant bottom <= b || pushed == []
        invariant bottom <= b
        invariant Sorted(pushed) && forall i | 0 <= i < |pushed| :: pushed[i].end <= b
        invariant forall x: nat :: Excluded(pushed, x) <==> bottom <= x < b && x < top && !Excluded(Ranges(), x)
        decreases top - b
      {
        var found, next := NextExclusion(b);
        if !found || table[next].start >= top {
          GapIsClean(Ranges(), if found then next else entries, b, top);
          PushOne(pushed, b, top);
          return pushed + [Range(b, top)];
        }
        var exclStart := table[next].start;
        GapIsClean(Ranges(), next, b, if exclStart > b then exclStart else b);
        assert Ranges()[next] == table[next];
        assert forall x: nat | exclStart <= x < table[next].end :: Excluded(Ranges(), x);
        if exclStart > b {
          PushOne(pushed, b, exclStart);
          pushed := pushed + [Range(b, exclStart)];
        }
        b := table[next].end;
      }
    }

    static lemma GapIsClean(t: seq<Range>, next: nat, lo: nat, hi: nat)
      requires Sorted(t) && next <= |t|
      requires forall i | 0 <= i < next :: t[i].end <= lo
      requires next < |t| && lo < hi ==> hi <= t[next].start
      ensures forall x: nat | lo <= x < hi :: !Excluded(t, x)
    {
    }

    static lemma PushOne(pushed: seq<Range>, lo: nat, hi: nat)
      requires Sorted(pushed) && lo < hi && forall i | 0 <= i < |pushed| :: pushed[i].end <= lo
      ensures Sorted(pushed + [Range(lo, hi)])
      ensures forall x: nat :: Excluded(pushed + [Range(lo, hi)], x) <==> Excluded(pushed, x) || lo <= x < hi
    {
      var r := pushed + [Range(lo, hi)];
      forall x: nat ensures Excluded(r, x) <==> Excluded(pushed, x) || lo <= x < hi {
        assert r[|pushed|] == Range(lo, hi);
        assert forall i | 0 <= i < |pushed| :: r[i] == pushed[i];
      }
    }
  }
}
