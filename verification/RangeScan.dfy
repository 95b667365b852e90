// How the marker walks a range described by a length descriptor: gc/mark.c.
//
// Addresses and lengths are counted in units of ALIGNMENT.  A word is W units long, so a pointer may
// start at any unit from which W units remain in the range.

module RangeScan {
  import opened Config

  datatype Entry = Entry(start: nat, descr: nat)

  /** Position p is one at which a word of the range lies. */
  ghost predicate InRange(e: Entry, W: nat, p: nat) {
    e.start <= p && p + W <= e.start + e.descr
  }

  /** The sequence holds every position of [lo, hi) exactly once and nothing else. */
  ghost predicate ExactlyOnce(s: seq<nat>, lo: nat, hi: nat) {
    forall p: nat :: multiset(s)[p] == if lo <= p < hi then 1 else 0
  }

  /** ... and here only those that pass the plausibility test. */
  ghost predicate PlausibleOnce(s: seq<nat>, lo: nat, hi: nat, plausible: nat -> bool) {
    forall p: nat :: multiset(s)[p] == if lo <= p < hi && plausible(p) then 1 else 0
  }

  /** The loads and the pushes that scanning the positions of [lo, hi) makes, in some order. */
  ghost predicate Scanned(seen: seq<nat>, pushed: seq<nat>, lo: nat, hi: nat, plausible: nat -> bool) {
    ExactlyOnce(seen, lo, hi) && PlausibleOnce(pushed, lo, hi, plausible)
  }

  lemma Join(s1: seq<nat>, p1: seq<nat>, s2: seq<nat>, p2: seq<nat>, lo: nat, mid: nat, hi: nat, plausible: nat -> bool)
    requires lo <= mid <= hi
    requires Scanned(s1, p1, lo, mid, plausible) && Scanned(s2, p2, mid, hi, plausible)
    ensures Scanned(s1 + s2, p1 + p2, lo, hi, plausible) && Scanned(s2 + s1, p2 + p1, lo, hi, plausible)
  {
  }

  // The backward scan for a word worth prefetching, unrolled once.  The deferred word is the last load.
  method Backward(lo: nat, last: nat, plausible: nat -> bool) returns (found: bool, deferred: nat, seen: seq<nat>)
    requires lo <= last
    ensures found ==> lo <= deferred <= last && plausible(deferred) && Scanned(seen, [deferred], deferred, last + 1, plausible)
    ensures !found ==> Scanned(seen, [], lo, last + 1, plausible)
  {
    seen := [];
    var limit: int := last;
    deferred := last;
    while true
      invariant lo <= limit <= last
      invariant Scanned(seen, [], limit + 1, last + 1, plausible)
      decreases limit
    {
      deferred := limit;
      limit := limit - 1;
      seen := seen + [deferred];
      if plausible(deferred) { return true, deferred, seen; }
      if lo > limit { return false, deferred, seen; }
      deferred := limit;
      limit := limit - 1;
      seen := seen + [deferred];
      if plausible(deferred) { return true, deferred, seen; }
      if lo > limit { return false, deferred, seen; }
    }
  }

  // What the backward scan has passed over is not plausible.
  lemma NoneAbove(seen: seq<nat>, d: nat, hi: nat, plausible: nat -> bool)
    requires Scanned(seen, [d], d, hi, plausible)
    ensures forall p: nat | d < p < hi :: !plausible(p)
  {
    forall p: nat | d < p < hi ensures !plausible(p) {
      assert multiset([d])[p] == 0;
    }
  }

  lemma NoneAtAll(seen: seq<nat>, lo: nat, hi: nat, plausible: nat -> bool)
    requires Scanned(seen, [], lo, hi, plausible)
    ensures forall p: nat | lo <= p < hi :: !plausible(p)
  {
    forall p: nat | lo <= p < hi ensures !plausible(p) {
      assert multiset([])[p] == 0;
    }
  }

  method Forward(lo: nat, hi: nat, plausible: nat -> bool) returns (seen: seq<nat>, pushed: seq<nat>)
    requires lo <= hi
    ensures Scanned(seen, pushed, lo, hi, plausible)
  {
    seen, pushed := [], [];
    var current := lo;
    while current < hi
      invariant lo <= current <= hi
      invariant Scanned(seen, pushed, lo, current, plausible)
    {
      seen := seen + [current];
      if plausible(current) {
        pushed := pushed + [current];
      }
      current := current + 1;
    }
  }

  // One piece, positions lo..last.  A backward scan looks for a word to prefetch and defers it; a
  // forward scan pushes the rest; the deferred word comes last.  `seen` lists the loads in order and
  // `pushed` the words handed to PUSH_CONTENTS.
  method ScanPiece(lo: nat, last: nat, plausible: nat -> bool) returns (seen: seq<nat>, pushed: seq<nat>)
    requires lo <= last
    ensures Scanned(seen, pushed, lo, last + 1, plausible)
  {
    var found, deferred, back := Backward(lo, last, plausible);
    if !found { return back, []; }
    var s, p := Forward(lo, deferred, plausible);
    Join(s, p, back, [deferred], lo, deferred, last + 1, plausible);
    return back + s, p + [deferred];
  }

  ghost function Weight(s: seq<Entry>, W: nat): nat {
    if s == [] then 0
    else Weight(s[..|s| - 1], W) + if s[|s| - 1].descr < 2 * W then 0 else s[|s| - 1].descr - 2 * W
  }

  lemma WeightPush(s: seq<Entry>, e: Entry, W: nat)
    ensures Weight(s + [e], W) == Weight(s, W) + if e.descr < 2 * W then 0 else e.descr - 2 * W
  {
    assert (s + [e])[..|s|] == s;
  }

  /** Some range still on the stack holds position p. */
  ghost predicate OnStack(s: seq<Entry>, W: nat, p: nat) {
    exists i | 0 <= i < |s| :: InRange(s[i], W, p)
  }

  lemma OnStackPush(s: seq<Entry>, e: Entry, W: nat, p: nat)
    ensures OnStack(s + [e], W, p) <==> OnStack(s, W, p) || InRange(e, W, p)
  {
    assert (s + [e])[|s|] == e;
    assert forall i | 0 <= i < |s| :: (s + [e])[i] == s[i];
  }

  // The halving that lets another marker take part of a large range: the two parts overlap by one word.
  lemma HalvingCovers(e: Entry, W: nat, half: nat)
    requires W > 0 && half <= e.descr
    ensures forall p: nat :: InRange(e, W, p) ==>
              InRange(Entry(e.start, half + W), W, p) || InRange(Entry(e.start + half, e.descr - half), W, p)
  {
  }

  function HalfWords(descr: nat, W: nat): (half: nat)
    requires W > 0 && descr > SHARE_WORDS * W
    ensures W < half && half + 2 * W < descr
  {
    HalfBounds(descr, W);
    (descr / (2 * W)) * W
  }

  lemma HalfBounds(descr: nat, W: nat)
    requires W > 0 && descr > SHARE_WORDS * W
    ensures W < (descr / (2 * W)) * W && (descr / (2 * W)) * W + 2 * W < descr
  {
    var d := 2 * W;
    var q := descr / d;
    assert q * d <= descr < (q + 1) * d;
    if q < 128 { Mono(q + 1, 128, d); }
    assert q >= 128;
    assert q * d == 2 * (q * W);
    assert q * W >= 128 * W by { Mono(128, q, W); }
  }

  lemma Mono(a: nat, b: nat, c: nat)
    requires a <= b
    ensures a * c <= b * c
  {
  }

  /** Between steps: a position is still on the stack or was examined exactly if it is in the range. */
  ghost predicate Covered(seen: seq<nat>, pushed: seq<nat>, stack: seq<Entry>, whole: Entry, W: nat, plausible: nat -> bool) {
    && (forall p: nat :: p in seen || OnStack(stack, W, p) <==> InRange(whole, W, p))
    && (forall p: nat :: p in pushed <==> p in seen && plausible(p))
  }

  function EndOf(e: Entry, W: nat): nat {
    if e.descr < W then e.start else e.start + e.descr - W + 1
  }

  /** Without helpers one range is left, and exactly the positions before it have been examined. */
  ghost predicate Sequential(seen: seq<nat>, pushed: seq<nat>, stack: seq<Entry>, whole: Entry, W: nat, plausible: nat -> bool) {
    var at := if stack == [] then EndOf(whole, W) else stack[0].start;
    && |stack| <= 1
    && (stack != [] ==> EndOf(stack[0], W) == EndOf(whole, W) && at <= EndOf(whole, W))
    && whole.start <= at
    && Scanned(seen, pushed, whole.start, at, plausible)
  }

  lemma Initially(whole: Entry, W: nat, plausible: nat -> bool)
    requires W > 0
    ensures Covered([], [], [whole], whole, W, plausible)
    ensures Sequential([], [], [whole], whole, W, plausible)
  {
    forall p: nat ensures OnStack([whole], W, p) <==> InRange(whole, W, p) {
      assert [whole][0] == whole;
    }
  }

  lemma AfterHalving(seen: seq<nat>, pushed: seq<nat>, below: seq<Entry>, top: Entry, half: nat, whole: Entry, W: nat, plausible: nat -> bool)
    requires 0 < W < half && half + 2 * W < top.descr
    requires Covered(seen, pushed, below + [top], whole, W, plausible)
    ensures var r := below + [Entry(top.start, half + W)] + [Entry(top.start + half, top.descr - half)];
            Covered(seen, pushed, r, whole, W, plausible) && Weight(r, W) < Weight(below + [top], W)
  {
    var first, second := Entry(top.start, half + W), Entry(top.start + half, top.descr - half);
    HalvingCovers(top, W, half);
    WeightPush(below, top, W);
    WeightPush(below, first, W);
    WeightPush(below + [first], second, W);
    forall p: nat ensures OnStack(below + [first] + [second], W, p) <==> OnStack(below + [top], W, p) {
      OnStackPush(below, top, W, p);
      OnStackPush(below, first, W, p);
      OnStackPush(below + [first], second, W, p);
    }
  }

  // A piece at the front of the top range has been scanned; `rest` is what stays on the stack of it.
  lemma AfterPiece(seen: seq<nat>, pushed: seq<nat>, below: seq<Entry>, top: Entry, rest: seq<Entry>, s: seq<nat>, t: seq<nat>, mid: nat, whole: Entry, W: nat, plausible: nat -> bool)
    requires W > 0 && top.start <= mid <= EndOf(top, W) && Scanned(s, t, top.start, mid, plausible)
    requires if rest == [] then mid == EndOf(top, W) else rest == [Entry(mid, top.start + top.descr - mid)]
    requires Covered(seen, pushed, below + [top], whole, W, plausible)
    ensures Covered(seen + s, pushed + t, below + rest, whole, W, plausible)
    ensures Sequential(seen, pushed, below + [top], whole, W, plausible) ==> Sequential(seen + s, pushed + t, below + rest, whole, W, plausible)
  {
    forall p: nat ensures p in seen + s || OnStack(below + rest, W, p) <==> p in seen || OnStack(below + [top], W, p) {
      OnStackPush(below, top, W, p);
      assert p in s <==> multiset(s)[p] > 0;
      if rest == [] { assert below + rest == below; } else { OnStackPush(below, rest[0], W, p); }
    }
    forall p: nat ensures p in pushed + t <==> p in seen + s && plausible(p) {
      assert p in s <==> multiset(s)[p] > 0;
      assert p in t <==> multiset(t)[p] > 0;
    }
    if Sequential(seen, pushed, below + [top], whole, W, plausible) {
      assert below == [];
      assert (below + [top])[0] == top;
      Join(seen, pushed, s, t, whole.start, top.start, mid, plausible);
    }
  }

  // The ranges of the mark stack, taken from the top.  Without helpers every position is examined
  // exactly once; with them a large range may first be halved onto the stack while there is room.
  method ScanRange(start: nat, descr: nat, W: nat, parallel: bool, limit: nat, plausible: nat -> bool)
    returns (seen: seq<nat>, pushed: seq<nat>)
    requires W > 0 && limit > 0
    ensures !parallel ==> Scanned(seen, pushed, start, EndOf(Entry(start, descr), W), plausible)
    ensures forall p: nat :: p in seen <==> start <= p && p + W <= start + descr
    ensures forall p: nat :: p in pushed <==> start <= p && p + W <= start + descr && plausible(p)
  {
    seen, pushed := [], [];
    ghost var whole := Entry(start, descr);
    var stack := [Entry(start, descr)];
    Initially(whole, W, plausible);
    while stack != []
      invariant !parallel ==> Sequential(seen, pushed, stack, whole, W, plausible)
      invariant Covered(seen, pushed, stack, whole, W, plausible)
      decreases Weight(stack, W), |stack|
    {
      var top := stack[|stack| - 1];
      var below := stack[..|stack| - 1];
      assert stack == below + [top];
      if top.descr > SHARE_WORDS * W && parallel && |stack| < limit {
        var half := HalfWords(top.descr, W);
        AfterHalving(seen, pushed, below, top, half, whole, W, plausible);
        stack := below + [Entry(top.start, half + W)] + [Entry(top.start + half, top.descr - half)];
      } else {
        seen, pushed, stack := ScanTop(seen, pushed, below, top, W, plausible, whole);
      }
    }
    assert forall p: nat :: !OnStack(stack, W, p);
  }

  // How much of a range is scanned at once, and what of it stays on the stack.
  method Front(ghost below: seq<Entry>, top: Entry, W: nat) returns (rest: seq<Entry>, mid: nat)
    requires W > 0
    ensures top.start <= mid <= EndOf(top, W)
    ensures if rest == [] then mid == EndOf(top, W) else rest == [Entry(mid, top.start + top.descr - mid)]
    ensures Weight(below + rest, W) < Weight(below + [top], W)
            || (Weight(below + rest, W) <= Weight(below + [top], W) && |below + rest| <= |below|)
  {
    WeightPush(below, top, W);
    if top.descr >= SPLIT_RANGE_WORDS * W {
      var cut := (SPLIT_RANGE_WORDS - 1) * W;
      CutFits(top.descr, W);
      mid := top.start + cut;
      rest := [Entry(mid, top.descr - cut)];
      WeightPush(below, rest[0], W);
    } else {
      rest := [];
      mid := EndOf(top, W);
      assert below + rest == below;
    }
  }

  lemma CutFits(descr: nat, W: nat)
    requires W > 0 && descr >= SPLIT_RANGE_WORDS * W
    ensures (SPLIT_RANGE_WORDS - 1) * W + W <= descr && 2 * W < (SPLIT_RANGE_WORDS - 1) * W
  {
  }

  // The top range without halving: its first 127 words if it is large, else all of it.
  method ScanTop(seen: seq<nat>, pushed: seq<nat>, below: seq<Entry>, top: Entry, W: nat, plausible: nat -> bool, ghost whole: Entry)
    returns (seen': seq<nat>, pushed': seq<nat>, stack': seq<Entry>)
    requires W > 0 && Covered(seen, pushed, below + [top], whole, W, plausible)
    ensures Covered(seen', pushed', stack', whole, W, plausible)
    ensures Sequential(seen, pushed, below + [top], whole, W, plausible) ==> Sequential(seen', pushed', stack', whole, W, plausible)
    ensures Weight(stack', W) < Weight(below + [top], W) || (Weight(stack', W) <= Weight(below + [top], W) && |stack'| <= |below|)
  {
    var rest, mid := Front(below, top, W);
    var s, t := [], [];
    if mid > top.start {
      s, t := ScanPiece(top.start, mid - 1, plausible);
    }
    AfterPiece(seen, pushed, below, top, rest, s, t, mid, whole, W, plausible);
    return seen + s, pushed + t, below + rest;
  }
}
