// Which list each free block is on, and the byte counters of the heap: gc/allchblk.c.

module HeapAccounts {
  import opened Config
  import opened HeaderMap
  import opened HeapTiling
  import opened FreeLists

  function Size(e: Entries, h: nat): nat {
    if IsHdr(e, h) then e[h].sz else 0
  }

  function ListBytes(e: Entries, l: seq<nat>): nat {
    if |l| == 0 then 0 else Size(e, l[0]) + ListBytes(e, l[1..])
  }

  function Total(bytes: seq<nat>): nat {
    if |bytes| == 0 then 0 else bytes[0] + Total(bytes[1..])
  }

  /** Bytes of the used blocks below n; of those that span several heap blocks if multi is set. */
  function Weight(e: Entries, multi: bool, a: nat): nat {
    if IsUsed(e, a) && (multi ==> Len(e, a) > 1) then Len(e, a) * HBLKSIZE else 0
  }

  function UsedBytes(e: Entries, multi: bool, n: nat): nat {
    if n == 0 then 0 else UsedBytes(e, multi, n - 1) + Weight(e, multi, n - 1)
  }

  /** Exactly the free blocks are on lists, except that `loose` is on none; each is on the list for its
      size, except perhaps `wrong`; and the counter of each list is the sum over the list. */
  ghost predicate OnLists(e: Entries, v: FreeLists.View, bytes: seq<nat>, loose: nat, wrong: nat) {
    && (forall a: nat :: IsFree(e, a) && a != loose <==> a in v.home)
    && (forall a: nat :: a in v.home && a != wrong ==> v.home[a] == FlIndex(Len(e, a)))
    && CountersOk(e, v.lists, bytes)
  }

  ghost predicate CountersOk(e: Entries, lists: seq<seq<nat>>, bytes: seq<nat>) {
    |lists| == |bytes| == N_HBLK_FLS + 1 && forall i: nat | i <= N_HBLK_FLS :: bytes[i] == ListBytes(e, lists[i])
  }

  // ----- sums

  lemma {:induction false} ListBytesSame(e: Entries, e': Entries, l: seq<nat>)
    requires forall x :: x in l ==> Size(e, x) == Size(e', x)
    ensures ListBytes(e, l) == ListBytes(e', l)
  {
    if |l| > 0 {
      assert l[0] in l;
      assert forall x :: x in l[1..] ==> x in l;
      ListBytesSame(e, e', l[1..]);
    }
  }

  lemma {:induction false} ListBytesWithout(e: Entries, l: seq<nat>, h: nat)
    requires h in l
    ensures ListBytes(e, l) == Size(e, h) + ListBytes(e, Without(l, h))
  {
    if l[0] != h {
      assert h in l[1..];
      ListBytesWithout(e, l[1..], h);
      assert Without(l, h)[1..] == Without(l[1..], h);
    }
  }

  lemma {:induction false} ListBytesRenamed(e: Entries, e': Entries, l: seq<nat>, h: nat, n: nat)
    requires Distinct(l) && h in l
    requires forall x :: x in l && x != h ==> Size(e, x) == Size(e', x)
    ensures ListBytes(e', Renamed(l, h, n)) + Size(e, h) == ListBytes(e, l) + Size(e', n)
  {
    var r := Renamed(l, h, n);
    assert r[1..] == Renamed(l[1..], h, n);
    if l[0] == h {
      assert forall x :: x in l[1..] ==> x in l && x != h;
      assert Renamed(l[1..], h, n) == l[1..];
      ListBytesSame(e, e', l[1..]);
    } else {
      assert h in l[1..];
      assert forall x :: x in l[1..] ==> x in l;
      assert l[0] in l;
      ListBytesRenamed(e, e', l[1..], h, n);
    }
  }

  lemma {:induction false} TotalUpdate(bytes: seq<nat>, i: nat, b: nat)
    requires i < |bytes|
    ensures Total(bytes[i := b]) + bytes[i] == Total(bytes) + b
  {
    if i == 0 {
      assert bytes[i := b][1..] == bytes[1..];
    } else {
      assert bytes[i := b][1..] == bytes[1..][i - 1 := b];
      TotalUpdate(bytes[1..], i - 1, b);
    }
  }

  lemma {:induction false} TotalHas(bytes: seq<nat>, i: nat)
    requires i < |bytes|
    ensures bytes[i] <= Total(bytes)
  {
    if i > 0 {
      TotalHas(bytes[1..], i - 1);
    }
  }

  // Only the block at a contributes differently.
  lemma {:induction false} UsedBytesChange(e: Entries, e': Entries, multi: bool, a: nat, n: nat)
    requires forall b: nat :: b != a && (IsHdr(e, b) || IsHdr(e', b)) ==> Weight(e, multi, b) == Weight(e', multi, b)
    ensures UsedBytes(e', multi, n) + (if a < n then Weight(e, multi, a) else 0)
         == UsedBytes(e, multi, n) + (if a < n then Weight(e', multi, a) else 0)
  {
    if n > 0 {
      UsedBytesChange(e, e', multi, a, n - 1);
      assert n - 1 != a ==> Weight(e, multi, n - 1) == Weight(e', multi, n - 1);
    }
  }

  lemma UsedBytesSame(e: Entries, e': Entries, multi: bool, n: nat)
    requires forall b: nat :: IsUsed(e, b) || IsUsed(e', b) ==> IsHdr(e, b) && IsHdr(e', b) && e[b] == e'[b]
    ensures UsedBytes(e', multi, n) == UsedBytes(e, multi, n)
  {
    UsedBytesChange(e, e', multi, 0, n);
  }

  // ----- the lists, one operation at a time

  lemma SizeListed(e: Entries, v: FreeLists.View, bytes: seq<nat>, loose: nat, wrong: nat, h: nat)
    requires Linked(v) && OnLists(e, v, bytes, loose, wrong) && h in v.home
    ensures v.home[h] <= N_HBLK_FLS && IsFree(e, h) && e[h].sz <= bytes[v.home[h]]
    ensures bytes[v.home[h]] - e[h].sz == ListBytes(e, Without(v.lists[v.home[h]], h))
    ensures Distinct(v.lists[v.home[h]]) && h in v.lists[v.home[h]]
  {
    var k := Position(v, h);
    ListFacts(v, v.home[h]);
    ListBytesWithout(e, v.lists[v.home[h]], h);
  }

  // The blocks on one list keep their sizes when only blocks elsewhere change.
  lemma CountersSame(e: Entries, e': Entries, v: FreeLists.View, bytes: seq<nat>, i: nat)
    requires Linked(v) && CountersOk(e, v.lists, bytes) && i <= N_HBLK_FLS
    requires forall x: nat :: x in v.home && v.home[x] == i ==> Size(e, x) == Size(e', x)
    ensures bytes[i] == ListBytes(e', v.lists[i])
  {
    ListFacts(v, i);
    ListBytesSame(e, e', v.lists[i]);
  }

  // A used block has become a free block that is on no list yet.
  lemma ReleasedOnLists(e: Entries, h: nat, v: FreeLists.View, bytes: seq<nat>)
    requires Exact(e, h) && IsUsed(e, h) && Len(e, h) > 0 && Linked(v) && OnLists(e, v, bytes, 0, 0)
    ensures OnLists(Released(e, h), v, bytes, h, 0) && h !in v.home
  {
    hide Linked;
    ReleasedEnds(e, h);
    var e' := Released(e, h);
    hide Released;
    assert forall a: nat | IsHdr(e, a) && a != h :: IsFree(e', a) == IsFree(e, a) && Len(e', a) == Len(e, a) && Size(e', a) == Size(e, a);
    forall a: nat ensures IsFree(e', a) && a != h <==> a in v.home {
      NotZero(e, h, a);
    }
    forall i: nat | i <= N_HBLK_FLS ensures bytes[i] == ListBytes(e', v.lists[i]) {
      CountersSame(e, e', v, bytes, i);
    }
  }

  lemma NotZero(e: Entries, skip: nat, a: nat)
    requires Exact(e, skip)
    ensures IsHdr(e, a) ==> a != 0
  {
    assert SizeOk(e, a);
  }

  ghost predicate NoNull(e: Entries) {
    forall a: nat :: IsHdr(e, a) ==> a != 0
  }

  lemma ExactNoNull(e: Entries, skip: nat)
    requires Exact(e, skip)
    ensures NoNull(e)
  {
    forall a: nat | IsHdr(e, a) ensures a != 0 {
      NotZero(e, skip, a);
    }
  }

  /** The lists after GC_remove_from_fl. */
  predicate Removes(v: FreeLists.View, w: FreeLists.View, h: nat) {
    && h in v.home && v.home[h] < |v.lists| && w.home == v.home - {h}
    && w.lists == v.lists[v.home[h] := Without(v.lists[v.home[h]], h)]
  }

  /** The lists after GC_add_to_fl. */
  predicate Adds(v: FreeLists.View, w: FreeLists.View, h: nat, i: nat) {
    i < |v.lists| && w.home == v.home[h := i] && w.lists == v.lists[i := [h] + v.lists[i]]
  }

  lemma RemovedOnLists(e: Entries, v: FreeLists.View, w: FreeLists.View, bytes: seq<nat>, h: nat, wrong: nat)
    requires Linked(v) && OnLists(e, v, bytes, 0, wrong) && Removes(v, w, h) && v.home[h] < |bytes| && NoNull(e)
    ensures IsFree(e, h) && e[h].sz <= bytes[v.home[h]]
    ensures var bytes' := bytes[v.home[h] := bytes[v.home[h]] - e[h].sz];
            OnLists(e, w, bytes', h, if wrong == h then 0 else wrong) && Total(bytes') + e[h].sz == Total(bytes)
  {
    SizeListed(e, v, bytes, 0, wrong, h);
    TotalUpdate(bytes, v.home[h], bytes[v.home[h]] - e[h].sz);
    hide Linked;
  }

  lemma AddedOnLists(e: Entries, v: FreeLists.View, w: FreeLists.View, bytes: seq<nat>, h: nat)
    requires IsFree(e, h) && NoNull(e) && OnLists(e, v, bytes, h, 0) && Adds(v, w, h, FlIndex(Len(e, h)))
    ensures var i := FlIndex(Len(e, h));
            var bytes' := bytes[i := bytes[i] + e[h].sz];
            OnLists(e, w, bytes', 0, 0) && Total(bytes') == Total(bytes) + e[h].sz
  {
    var i := FlIndex(Len(e, h));
    TotalUpdate(bytes, i, bytes[i] + e[h].sz);
    assert ([h] + v.lists[i])[1..] == v.lists[i];
  }

  // A loose block takes over its free neighbour, which has just been taken off its list.
  lemma MergedOnLists(e: Entries, a: nat, b: nat, v: FreeLists.View, bytes: seq<nat>)
    requires Exact(e, 0) && IsFree(e, a) && IsFree(e, b) && End(e, a) == b && Linked(v)
    requires a !in v.home && b !in v.home && CountersOk(e, v.lists, bytes)
    requires forall c: nat :: IsFree(e, c) && c != a && c != b <==> c in v.home
    requires forall c: nat :: c in v.home ==> v.home[c] == FlIndex(Len(e, c))
    ensures OnLists(Merged(e, a, b), v, bytes, a, 0)
  {
    hide Linked;
    MergedEnds(e, a, b);
    var e' := Merged(e, a, b);
    hide Merged;
    forall i: nat | i <= N_HBLK_FLS ensures bytes[i] == ListBytes(e', v.lists[i]) {
      CountersSame(e, e', v, bytes, i);
    }
  }

  /** Sizes after the free block at h has been cut in two after n pages. */
  ghost predicate CutSizes(e: Entries, g: Entries, h: nat, n: nat) {
    && 0 < n && n * HBLKSIZE < Size(e, h) && IsFree(e, h) && IsFree(g, h) && !IsHdr(e, h + n) && h != 0
    && (forall c: nat :: IsFree(g, c) <==> IsFree(e, c) || c == h + n)
    && Size(g, h) == n * HBLKSIZE && Len(g, h) == n
    && Size(g, h + n) == Size(e, h) - n * HBLKSIZE && Len(g, h + n) == Len(e, h) - n
    && (forall c: nat :: IsFree(e, c) && c != h ==> Size(e, c) == Size(g, c) && Len(e, c) == Len(g, c))
  }

  lemma CutHasSizes(e: Entries, h: nat, n: nat)
    requires Exact(e, 0) && IsFree(e, h) && 0 < n < Len(e, h)
    ensures n * HBLKSIZE < e[h].sz && CutSizes(e, Cut(e, h, n), h, n)
  {
    CutEnds(e, h, n);
    LenFacts(e, h);
  }

  /** The counter of one list goes up, or down, by b. */
  predicate Raised(bytes: seq<nat>, bytes': seq<nat>, i: nat, b: nat) {
    i < |bytes| && bytes' == bytes[i := bytes[i] + b]
  }

  predicate Lowered(bytes: seq<nat>, bytes': seq<nat>, i: nat, b: nat) {
    i < |bytes| && b <= bytes[i] && bytes' == bytes[i := bytes[i] - b]
  }

  // The front part of a block that was taken off its list is cut off; the rest goes on a list.
  lemma CutAdded(e: Entries, g: Entries, v: FreeLists.View, w: FreeLists.View, bytes: seq<nat>, bytes': seq<nat>, h: nat, n: nat, i: nat)
    requires CutSizes(e, g, h, n) && Linked(v) && OnLists(e, v, bytes, h, 0) && NoNull(e)
    requires i == FlIndex(Len(g, h + n)) && Adds(v, w, h + n, i) && Raised(bytes, bytes', i, Size(g, h + n))
    ensures OnLists(g, w, bytes', h, 0) && Total(bytes') == Total(bytes) + Size(g, h + n)
  {
    hide Linked, FlIndex, Total, ListBytes;
    TotalUpdate(bytes, i, bytes'[i]);
    CutCounters(e, g, v, w, bytes, bytes', h, n, i);
    CutMembers(e, g, v, w, bytes, h, n, i);
  }

  lemma CutCounters(e: Entries, g: Entries, v: FreeLists.View, w: FreeLists.View, bytes: seq<nat>, bytes': seq<nat>, h: nat, n: nat, i: nat)
    requires CutSizes(e, g, h, n) && Linked(v) && OnLists(e, v, bytes, h, 0)
    requires Adds(v, w, h + n, i) && Raised(bytes, bytes', i, Size(g, h + n))
    ensures CountersOk(g, w.lists, bytes')
  {
    hide Linked, Size, Len, FlIndex;
    forall j: nat | j <= N_HBLK_FLS ensures bytes[j] == ListBytes(g, v.lists[j]) {
      CountersSame(e, g, v, bytes, j);
    }
    assert ([h + n] + v.lists[i])[1..] == v.lists[i];
  }

  lemma CutMembers(e: Entries, g: Entries, v: FreeLists.View, w: FreeLists.View, bytes: seq<nat>, h: nat, n: nat, i: nat)
    requires CutSizes(e, g, h, n) && OnLists(e, v, bytes, h, 0) && NoNull(e) && i == FlIndex(Len(g, h + n)) && Adds(v, w, h + n, i)
    ensures forall a: nat :: IsFree(g, a) && a != h <==> a in w.home
    ensures forall a: nat :: a in w.home && a != 0 ==> w.home[a] == FlIndex(Len(g, a))
  {
    hide FlIndex, Len, Size, CountersOk;
  }

  /** The lists after GC_split_block has put n in the place of h. */
  predicate Replaces(v: FreeLists.View, w: FreeLists.View, h: nat, n: nat) {
    && h in v.home && v.home[h] < |v.lists| && w.home == (v.home - {h})[n := v.home[h]]
    && w.lists == v.lists[v.home[h] := Renamed(v.lists[v.home[h]], h, n)]
  }

  // The second part of a block takes its place on the list, whose counter goes down by the first part.
  lemma SplitCounters(e: Entries, g: Entries, v: FreeLists.View, u: FreeLists.View, bytes: seq<nat>, bytes': seq<nat>, h: nat, n: nat, i: nat)
    requires CutSizes(e, g, h, n) && Linked(v) && OnLists(e, v, bytes, 0, 0) && Replaces(v, u, h, h + n)
    requires i == v.home[h] && Lowered(bytes, bytes', i, Size(g, h))
    ensures CountersOk(g, u.lists, bytes') && Total(bytes') + Size(g, h) == Total(bytes)
  {
    TotalUpdate(bytes, i, bytes'[i]);
    SplitList(e, g, v, bytes, h, n, i);
    OtherLists(e, g, v, bytes, h, n, i);
    hide Linked, Size, Total;
  }

  lemma SplitList(e: Entries, g: Entries, v: FreeLists.View, bytes: seq<nat>, h: nat, n: nat, i: nat)
    requires CutSizes(e, g, h, n) && Linked(v) && OnLists(e, v, bytes, 0, 0) && h in v.home && i == v.home[h]
    ensures i <= N_HBLK_FLS && |v.lists| == N_HBLK_FLS + 1 && ListBytes(g, Renamed(v.lists[i], h, h + n)) + Size(g, h) == bytes[i]
  {
    hide Linked;
    SizeListed(e, v, bytes, 0, 0, h);
    ListFacts(v, i);
    ListBytesRenamed(e, g, v.lists[i], h, h + n);
  }

  lemma OtherLists(e: Entries, g: Entries, v: FreeLists.View, bytes: seq<nat>, h: nat, n: nat, i: nat)
    requires CutSizes(e, g, h, n) && Linked(v) && OnLists(e, v, bytes, 0, 0) && h in v.home && i == v.home[h]
    ensures |v.lists| == N_HBLK_FLS + 1 && forall j: nat :: j <= N_HBLK_FLS && j != i ==> bytes[j] == ListBytes(g, v.lists[j])
  {
    hide Linked, Len, FlIndex, Size;
    forall j: nat | j <= N_HBLK_FLS && j != i ensures bytes[j] == ListBytes(g, v.lists[j]) {
      CountersSame(e, g, v, bytes, j);
    }
  }

  // ... and the first part goes on the list for its size.
  lemma SplitOnLists(e: Entries, g: Entries, v: FreeLists.View, u: FreeLists.View, w: FreeLists.View, bytes: seq<nat>, bytes': seq<nat>, h: nat, n: nat, i: nat)
    requires CutSizes(e, g, h, n) && NoNull(e) && Replaces(v, u, h, h + n)
    requires (forall a: nat :: IsFree(e, a) <==> a in v.home) && (forall a: nat :: a in v.home ==> v.home[a] == FlIndex(Len(e, a)))
    requires i == FlIndex(Len(g, h)) && Adds(u, w, h, i) && CountersOk(g, u.lists, bytes) && Raised(bytes, bytes', i, Size(g, h))
    ensures OnLists(g, w, bytes', 0, h + n)
  {
    hide Size, FlIndex;
    assert ([h] + u.lists[i])[1..] == u.lists[i];
  }

  lemma OnListsFacts(e: Entries, v: FreeLists.View, bytes: seq<nat>)
    requires NoNull(e) && OnLists(e, v, bytes, 0, 0)
    ensures forall a: nat :: IsFree(e, a) <==> a in v.home
    ensures forall a: nat :: a in v.home ==> v.home[a] == FlIndex(Len(e, a))
  {
  }

  // A block that is on no list is put to use.
  lemma TakenOnLists(e: Entries, h: nat, sz: nat, v: FreeLists.View, bytes: seq<nat>)
    requires Exact(e, 0) && IsFree(e, h) && sz > 0 && Blocks(sz) == Len(e, h) && Linked(v) && OnLists(e, v, bytes, h, 0)
    ensures OnLists(Taken(e, h, sz), v, bytes, 0, 0)
  {
    TakenEnds(e, h, sz);
    ExactNoNull(e, 0);
    var g := Taken(e, h, sz);
    hide Taken, Linked, Exact;
    assert forall x: nat | x in v.home :: Size(e, x) == Size(g, x) && Len(e, x) == Len(g, x);
    forall j: nat | j <= N_HBLK_FLS ensures bytes[j] == ListBytes(g, v.lists[j]) {
      CountersSame(e, g, v, bytes, j);
    }
  }
}
