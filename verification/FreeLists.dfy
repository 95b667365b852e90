// The segregated free lists of heap blocks: gc/allchblk.c.
//
// hb_prev and hb_next of the header of block h are prev[h] and next[h]; 0 is the null pointer.

module FreeLists {
  const UNIQUE_THRESHOLD: nat := 32
  const HUGE_THRESHOLD: nat := 256
  const FL_COMPRESSION: nat := 8
  const N_HBLK_FLS: nat := 60         // (HUGE_THRESHOLD - UNIQUE_THRESHOLD) / FL_COMPRESSION + UNIQUE_THRESHOLD

  /** GC_hblk_fl_from_blocks */
  function FlIndex(blocks: nat): (i: nat)
    ensures i <= N_HBLK_FLS
  {
    if blocks <= UNIQUE_THRESHOLD then blocks
    else if blocks >= HUGE_THRESHOLD then N_HBLK_FLS
    else (blocks - UNIQUE_THRESHOLD) / FL_COMPRESSION + UNIQUE_THRESHOLD
  }

  // Larger blocks are never on earlier lists, and the lists below the threshold hold one size each.
  lemma FlIndexOrders(a: nat, b: nat)
    ensures a <= b ==> FlIndex(a) <= FlIndex(b)
    ensures FlIndex(a) == FlIndex(b) && FlIndex(a) < UNIQUE_THRESHOLD ==> a == b
  {
  }

  type Links = map<nat, nat>

  function First(l: seq<nat>): nat {
    if |l| > 0 then l[0] else 0
  }

  /** What hb_next of element k of the list is. */
  function After(l: seq<nat>, k: nat): nat {
    if k + 1 < |l| then l[k + 1] else 0
  }

  function Before(l: seq<nat>, k: nat): nat
    requires k <= |l|
  {
    if k > 0 then l[k - 1] else 0
  }

  ghost predicate Distinct(l: seq<nat>) {
    forall j, k | 0 <= j < k < |l| :: l[j] != l[k]
  }

  predicate LinkOk(l: seq<nat>, k: nat, prev: Links, next: Links)
    requires k < |l|
  {
    l[k] != 0 && l[k] in next && next[l[k]] == After(l, k) && l[k] in prev && prev[l[k]] == Before(l, k)
  }

  /** The list is doubly linked through prev and next. */
  ghost predicate Chain(l: seq<nat>, prev: Links, next: Links) {
    Distinct(l) && forall k: nat | k < |l| :: LinkOk(l, k, prev, next)
  }

  function Without(l: seq<nat>, h: nat): seq<nat> {
    if |l| == 0 then [] else if l[0] == h then l[1..] else [l[0]] + Without(l[1..], h)
  }

  function Renamed(l: seq<nat>, h: nat, n: nat): seq<nat> {
    seq(|l|, i requires 0 <= i < |l| => if l[i] == h then n else l[i])
  }

  lemma {:induction false} WithoutAt(l: seq<nat>, k: nat)
    requires Distinct(l) && k < |l|
    ensures Without(l, l[k]) == l[..k] + l[k + 1..]
  {
    if k > 0 {
      assert l[1..][k - 1] == l[k];
      WithoutAt(l[1..], k - 1);
      assert l[1..][..k - 1] == l[1..k];
      assert l[..k] == [l[0]] + l[1..k];
      assert l[1..][k..] == l[k + 1..];
    }
  }

  lemma WithoutHas(l: seq<nat>, h: nat)
    requires Distinct(l) && h in l
    ensures |Without(l, h)| == |l| - 1 && forall x :: x in Without(l, h) <==> x in l && x != h
  {
    var k :| 0 <= k < |l| && l[k] == h;
    WithoutAt(l, k);
    assert l == l[..k] + [l[k]] + l[k + 1..];
  }

  lemma RenamedHas(l: seq<nat>, k: nat, n: nat)
    requires Distinct(l) && k < |l|
    ensures forall x :: x in l[k := n] <==> (x in l && x != l[k]) || x == n
  {
    var r := l[k := n];
    assert r[k] == n;
    forall x | x in l && x != l[k] ensures x in r {
      var j :| 0 <= j < |l| && l[j] == x;
      assert r[j] == x;
    }
  }

  // Links of elements of other lists do not matter.
  lemma ChainFrame(l: seq<nat>, prev: Links, next: Links, prev': Links, next': Links)
    requires Chain(l, prev, next)
    requires forall x :: x in l ==> (x in prev ==> x in prev' && prev'[x] == prev[x]) && (x in next ==> x in next' && next'[x] == next[x])
    ensures Chain(l, prev', next')
  {
    forall k: nat | k < |l| ensures LinkOk(l, k, prev', next') {
      assert LinkOk(l, k, prev, next) && l[k] in l;
    }
  }

  // Unlinking the element at k.
  lemma Unlink(l: seq<nat>, k: nat, prev: Links, next: Links, prev': Links, next': Links)
    requires Chain(l, prev, next) && k < |l|
    requires next' == if Before(l, k) == 0 then next else next[Before(l, k) := After(l, k)]
    requires prev' == if After(l, k) == 0 then prev else prev[After(l, k) := Before(l, k)]
    ensures Chain(l[..k] + l[k + 1..], prev', next')
  {
    var r := l[..k] + l[k + 1..];
    assert forall i: nat | i < |r| :: r[i] == if i < k then l[i] else l[i + 1];
    assert Distinct(r);
    forall i: nat | i < |r| ensures LinkOk(r, i, prev', next') {
      assert LinkOk(l, if i < k then i else i + 1, prev, next);
      if i + 1 == k {
        assert LinkOk(l, k, prev, next);
      }
      if k + 1 < |l| {
        assert LinkOk(l, k + 1, prev, next);
      }
      if k > 0 {
        assert LinkOk(l, k - 1, prev, next);
      }
    }
  }

  // Linking a new element at the front.
  lemma Push(l: seq<nat>, h: nat, prev: Links, next: Links, prev': Links, next': Links)
    requires Chain(l, prev, next) && h !in l && h != 0
    requires next' == next[h := First(l)]
    requires prev' == if First(l) == 0 then prev[h := 0] else prev[h := 0][First(l) := h]
    ensures Chain([h] + l, prev', next')
  {
    var r := [h] + l;
    assert Distinct(r);
    forall i: nat | i < |r| ensures LinkOk(r, i, prev', next') {
      if i > 0 {
        assert LinkOk(l, i - 1, prev, next);
      }
      if |l| > 0 {
        assert LinkOk(l, 0, prev, next);
      }
    }
  }

  // Putting n in the place of the element at k.
  lemma Relink(l: seq<nat>, k: nat, n: nat, prev: Links, next: Links, prev': Links, next': Links)
    requires Chain(l, prev, next) && k < |l| && n !in l && n != 0
    requires next' == if Before(l, k) == 0 then next[n := After(l, k)] else next[n := After(l, k)][Before(l, k) := n]
    requires prev' == if After(l, k) == 0 then prev[n := Before(l, k)] else prev[n := Before(l, k)][After(l, k) := n]
    ensures Chain(l[k := n], prev', next') && Renamed(l, l[k], n) == l[k := n]
  {
    var r := l[k := n];
    assert Distinct(r);
    forall i: nat | i < |r| ensures LinkOk(r, i, prev', next') {
      assert LinkOk(l, i, prev, next);
      if k + 1 < |l| {
        assert LinkOk(l, k + 1, prev, next);
      }
      if k > 0 {
        assert LinkOk(l, k - 1, prev, next);
      }
    }
  }

  // ----- all the lists

  datatype View = View(heads: seq<nat>, prev: Links, next: Links, lists: seq<seq<nat>>, home: map<nat, nat>)

  ghost predicate Linked(v: View) {
    && |v.heads| == |v.lists| == N_HBLK_FLS + 1
    && (forall i | 0 <= i <= N_HBLK_FLS :: v.heads[i] == First(v.lists[i]) && Chain(v.lists[i], v.prev, v.next))
    && (forall i: nat, x: nat :: i <= N_HBLK_FLS && x in v.lists[i] <==> x in v.home && v.home[x] == i)
  }

  // Where a block is on its list, and what its links are.
  lemma Position(v: View, h: nat) returns (k: nat)
    requires Linked(v) && h in v.home
    ensures var i := v.home[h];
            && i <= N_HBLK_FLS && k < |v.lists[i]| && v.lists[i][k] == h
            && h != 0 && h in v.prev && h in v.next && v.prev[h] == Before(v.lists[i], k) && v.next[h] == After(v.lists[i], k)
  {
    var i := v.home[h];
    assert h in v.lists[i];
    k :| 0 <= k < |v.lists[i]| && v.lists[i][k] == h;
    assert LinkOk(v.lists[i], k, v.prev, v.next);
  }

  // Replacing one list by another while the links of all other lists stay.
  lemma OneList(v: View, w: View, i: nat, l: seq<nat>)
    requires Linked(v) && i <= N_HBLK_FLS && w.lists == v.lists[i := l] && w.heads == v.heads[i := First(l)]
    requires Chain(l, w.prev, w.next)
    requires forall x :: x in v.home && v.home[x] != i ==>
               (x in v.prev ==> x in w.prev && w.prev[x] == v.prev[x]) && (x in v.next ==> x in w.next && w.next[x] == v.next[x])
    requires forall x :: x in w.home <==> (x in v.home && v.home[x] != i) || x in l
    requires forall x :: x in w.home ==> w.home[x] == if x in l then i else v.home[x]
    requires forall x :: x in l && x in v.home ==> v.home[x] == i
    ensures Linked(w)
  {
    forall j | 0 <= j <= N_HBLK_FLS ensures w.heads[j] == First(w.lists[j]) && Chain(w.lists[j], w.prev, w.next) {
      if j != i {
        assert forall x | x in v.lists[j] :: x in v.home && v.home[x] == j;
        ChainFrame(v.lists[j], v.prev, v.next, w.prev, w.next);
      }
    }
  }

  // The list of h, seen from h: it starts with h exactly if h has no predecessor.
  lemma Around(v: View, h: nat) returns (k: nat)
    requires Linked(v) && h in v.home
    ensures var i := v.home[h];
            && i <= N_HBLK_FLS && k < |v.lists[i]| && v.lists[i][k] == h
            && h in v.prev && h in v.next && v.prev[h] == Before(v.lists[i], k) && v.next[h] == After(v.lists[i], k)
            && (v.prev[h] == 0 <==> k == 0) && (v.prev[h] != 0 ==> v.prev[h] in v.next)
            && (v.next[h] != 0 ==> v.next[h] in v.prev)
            && v.prev[h] != h && v.next[h] != h
  {
    k := Position(v, h);
    var l := v.lists[v.home[h]];
    if k > 0 {
      assert LinkOk(l, k - 1, v.prev, v.next);
    }
    if k + 1 < |l| {
      assert LinkOk(l, k + 1, v.prev, v.next);
    }
  }

  lemma Unlinked(v: View, w: View, h: nat)
    requires Linked(v) && h in v.home && h in v.prev && h in v.next
    requires var i := v.home[h];
             && w == View(if v.prev[h] == 0 then w.heads else v.heads,
                          if v.next[h] == 0 then v.prev else v.prev[v.next[h] := v.prev[h]],
                          if v.prev[h] == 0 then v.next else v.next[v.prev[h] := v.next[h]],
                          w.lists, v.home - {h})
             && i < |v.heads| && (v.prev[h] == 0 ==> w.heads == v.heads[i := v.next[h]])
             && i < |v.lists| && w.lists == v.lists[i := Without(v.lists[i], h)]
    ensures Linked(w)
  {
    hide Linked, Chain;
    var i := v.home[h];
    var k := Around(v, h);
    ListFacts(v, i);
    var l := v.lists[i];
    var r := l[..k] + l[k + 1..];
    WithoutAt(l, k);
    WithoutHas(l, h);
    Unlink(l, k, v.prev, v.next, w.prev, w.next);
    assert First(r) == if k == 0 then After(l, 0) else First(l);
    assert w.heads == v.heads[i := First(r)];
    OneList(v, w, i, r);
  }

  lemma ListFacts(v: View, i: nat)
    requires Linked(v) && i <= N_HBLK_FLS
    ensures |v.heads| == |v.lists| == N_HBLK_FLS + 1 && v.heads[i] == First(v.lists[i])
    ensures Chain(v.lists[i], v.prev, v.next) && Distinct(v.lists[i])
    ensures forall x: nat :: x in v.lists[i] <==> x in v.home && v.home[x] == i
    ensures forall k: nat | k < |v.lists[i]| :: v.lists[i][k] != 0 && v.lists[i][k] in v.home && v.home[v.lists[i][k]] == i
  {
    forall k: nat | k < |v.lists[i]| ensures v.lists[i][k] != 0 && v.lists[i][k] in v.home && v.home[v.lists[i][k]] == i {
      assert LinkOk(v.lists[i], k, v.prev, v.next);
      assert v.lists[i][k] in v.lists[i];
    }
  }

  lemma Pushed(v: View, w: View, i: nat, h: nat)
    requires Linked(v) && h !in v.home && h != 0 && i <= N_HBLK_FLS
    requires |v.heads| == |v.lists| == N_HBLK_FLS + 1
    requires var second := v.heads[i];
             w == View(v.heads[i := h], if second == 0 then v.prev[h := 0] else v.prev[h := 0][second := h],
                       v.next[h := second], v.lists[i := [h] + v.lists[i]], v.home[h := i])
    ensures Linked(w)
  {
    hide Linked, Chain;
    ListFacts(v, i);
    var l := v.lists[i];
    Push(l, h, v.prev, v.next, w.prev, w.next);
    assert First([h] + l) == h;
    var second := v.heads[i];
    assert second != 0 ==> second == l[0];
    OneList(v, w, i, [h] + l);
  }

  lemma Relinked(v: View, w: View, h: nat, n: nat)
    requires Linked(v) && h in v.home && n !in v.home && n != 0 && h in v.prev && h in v.next
    requires var i := v.home[h];
             && w == View(if v.prev[h] == 0 then w.heads else v.heads,
                          if v.next[h] == 0 then v.prev[n := v.prev[h]] else v.prev[n := v.prev[h]][v.next[h] := n],
                          if v.prev[h] == 0 then v.next[n := v.next[h]] else v.next[n := v.next[h]][v.prev[h] := n],
                          w.lists, (v.home - {h})[n := i])
             && i < |v.heads| && (v.prev[h] == 0 ==> w.heads == v.heads[i := n])
             && i < |v.lists| && w.lists == v.lists[i := Renamed(v.lists[i], h, n)]
    ensures Linked(w)
  {
    hide Linked, Chain;
    var i := v.home[h];
    var k := Around(v, h);
    ListFacts(v, i);
    var l := v.lists[i];
    Relink(l, k, n, v.prev, v.next, w.prev, w.next);
    assert First(l[k := n]) == if k == 0 then n else First(l);
    assert w.heads == v.heads[i := First(l[k := n])];
    RenamedHas(l, k, n);
    OneList(v, w, i, l[k := n]);
  }

  class FreeListTable {
    var heads: seq<nat>               // GC_hblkfreelist
    var bytes: seq<nat>               // GC_free_bytes
    var prev: Links
    var next: Links
    ghost var lists: seq<seq<nat>>    // the blocks on each list, in order
    ghost var home: map<nat, nat>     // the list that each block is on

    ghost function V(): View
      reads this
    {
      View(heads, prev, next, lists, home)
    }

    ghost predicate Ok()
      reads this
    {
      Linked(V()) && |bytes| == N_HBLK_FLS + 1
    }

    constructor ()
      ensures Ok() && home == map[] && lists == seq(N_HBLK_FLS + 1, _ => []) && bytes == seq(N_HBLK_FLS + 1, _ => 0)
    {
      heads, bytes := seq(N_HBLK_FLS + 1, _ => 0), seq(N_HBLK_FLS + 1, _ => 0);
      prev, next := map[], map[];
      lists, home := seq(N_HBLK_FLS + 1, _ => []), map[];
    }

    // GC_remove_from_fl with a known list.  sz is the hb_sz of h.
    method RemoveFrom(h: nat, sz: nat, index: nat)
      requires Ok() && h in home && home[h] == index && index <= N_HBLK_FLS && sz <= bytes[index]
      modifies this
      ensures Ok() && home == old(home) - {h} && lists == old(lists)[index := Without(old(lists)[index], h)]
      ensures bytes == old(bytes)[index := old(bytes)[index] - sz]
    {
      hide Linked;
      ghost var v := V();
      ghost var k := Around(v, h);
      ListFacts(v, index);
      lists := lists[index := Without(lists[index], h)];
      home := home - {h};
      if prev[h] == 0 {
        heads := heads[index := next[h]];
      } else {
        next := next[prev[h] := next[h]];
      }
      bytes := bytes[index := bytes[index] - sz];
      if next[h] != 0 {
        prev := prev[next[h] := prev[h]];
      }
      Unlinked(v, V(), h);
    }

    // GC_add_to_fl
    method AddTo(h: nat, sz: nat, blocks: nat)
      requires Ok() && h !in home && h != 0
      modifies this
      ensures var index := FlIndex(blocks);
              && Ok() && home == old(home)[h := index] && |old(lists)| == N_HBLK_FLS + 1
              && lists == old(lists)[index := [h] + old(lists)[index]]
              && bytes == old(bytes)[index := old(bytes)[index] + sz]
    {
      hide Linked;
      ghost var v := V();
      var index := FlIndex(blocks);
      ListFacts(v, index);
      var second := heads[index];
      heads := heads[index := h];
      bytes := bytes[index := bytes[index] + sz];
      next := next[h := second];
      prev := prev[h := 0];
      if second != 0 {
        prev := prev[second := h];
      }
      lists := lists[index := [h] + lists[index]];
      home := home[h := index];
      Pushed(v, V(), index, h);
    }

    // The first half of GC_split_block: n replaces h on its list.
    method Replace(h: nat, n: nat, hSize: nat, index: nat)
      requires Ok() && h in home && home[h] == index && index <= N_HBLK_FLS && n !in home && n != 0 && hSize <= bytes[index]
      modifies this
      ensures Ok() && home == (old(home) - {h})[n := index] && lists == old(lists)[index := Renamed(old(lists)[index], h, n)]
      ensures bytes == old(bytes)[index := old(bytes)[index] - hSize]
    {
      hide Linked;
      ghost var v := V();
      ghost var k := Around(v, h);
      ListFacts(v, index);
      lists := lists[index := Renamed(lists[index], h, n)];
      home := (home - {h})[n := index];
      var before, after := prev[h], next[h];
      prev := prev[n := before];
      next := next[n := after];
      if before != 0 {
        next := next[before := n];
      } else {
        heads := heads[index := n];
      }
      if after != 0 {
        prev := prev[after := n];
      }
      bytes := bytes[index := bytes[index] - hSize];
      Relinked(v, V(), h, n);
    }
  }
}
