// The memory that the marker traverses: heap blocks, the objects in them, and the roots.
//
// Objects have identities instead of addresses, and a word either points to an object, looks like a
// heap address without being one, or fails the plausibility test.  Pointers into the middle of an
// object are resolved to the object.

module HeapGraph {
  type Obj = nat

  datatype Word = Pointer(target: Obj) | FalseHit | NotPlausible

  /** The object kinds of GC_obj_kinds.  The two atomic kinds have a zero mark descriptor. */
  datatype Kind = PtrFree | Normal | Uncollectable | AtomicUncollectable

  /** A block in use: its first heap block number, how many blocks it spans, the
      size of its objects, and its object slots. */
  datatype Block = Block(pages: nat, kind: Kind, granules: nat, objs: set<Obj>)

  /** GC_push_all pushes a range; GC_push_conditional may push its dirty pages one by one; GC_push_all_eager
      follows the words at once because they may change. */
  datatype Pushing = Whole | Conditional | Eager

  /** A root segment.  Its first word is `skew` words after the start of a page. */
  datatype Root = Root(how: Pushing, skew: nat, words: seq<Word>)

  datatype Memory = Memory(
    blocks: map<nat, Block>,
    home: map<Obj, nat>,
    words: map<Obj, seq<Word>>,
    roots: seq<Root>,
    stale: map<Obj, seq<Word>>,   // where objects were before their blocks were given back
    next: Obj)                    // every identity ever used is below this

  const MAX_OBJS: nat := 256      // HBLK_OBJS of the smallest object size, one granule

  predicate HasDescr(k: Kind) {
    k.Normal? || k.Uncollectable?
  }

  predicate IsUncollectable(k: Kind) {
    k.Uncollectable? || k.AtomicUncollectable?
  }

  ghost predicate BlocksOk(m: Memory) {
    && (forall a | a in m.blocks :: 0 < a && 0 < m.blocks[a].pages && |m.blocks[a].objs| <= MAX_OBJS)
    && (forall a, b | a in m.blocks && b in m.blocks && a < b :: a + m.blocks[a].pages <= b)
    && (forall a, o | a in m.blocks && o in m.blocks[a].objs :: o in m.home && m.home[o] == a)
  }

  ghost predicate Wf(m: Memory) {
    && BlocksOk(m)
    && m.home.Keys == m.words.Keys
    && (forall o | o in m.words :: m.home[o] in m.blocks && o in m.blocks[m.home[o]].objs && |m.words[o]| > 0 && o < m.next)
    && (forall o, k: nat | o in m.words && k < |m.words[o]| && m.words[o][k].Pointer? :: m.words[o][k].target < m.next)
    && (forall i: nat, k: nat | i < |m.roots| && k < |m.roots[i].words| && m.roots[i].words[k].Pointer? ::
          m.roots[i].words[k].target < m.next)
    && StaleOk(m)
  }

  /** The memory of objects that are gone holds anything; the marker may still come to it. */
  ghost predicate StaleOk(m: Memory) {
    && (forall o | o in m.stale :: o !in m.words && o < m.next)
    && (forall o, k: nat | o in m.stale && k < |m.stale[o]| && m.stale[o][k].Pointer? :: m.stale[o][k].target < m.next)
  }

  /** The words of o are followed by the marker: its block's descriptor is not zero. */
  predicate Traced(m: Memory, o: Obj) {
    o in m.home && m.home[o] in m.blocks && HasDescr(m.blocks[m.home[o]].kind)
  }

  /** Where a word lives. */
  datatype Src = Heap(o: Obj) | InRoot(i: nat)

  function WordsOf(m: Memory, s: Src): seq<Word> {
    match s
    case Heap(o) => if o in m.words then m.words[o] else if o in m.stale then m.stale[o] else []
    case InRoot(i) => if i < |m.roots| then m.roots[i].words else []
  }

  /** The object that word k of s points to is t. */
  ghost predicate PointsTo(m: Memory, s: Src, k: nat, t: Obj) {
    && k < |WordsOf(m, s)|
    && WordsOf(m, s)[k] == Pointer(t)
    && t in m.words
  }

  ghost predicate Edge(m: Memory, o: Obj, t: Obj) {
    o in m.words && Traced(m, o) && exists k: nat :: PointsTo(m, Heap(o), k, t)
  }

  /** t is referenced from a root. */
  ghost predicate RootTarget(m: Memory, t: Obj) {
    exists i: nat, k: nat :: i < |m.roots| && PointsTo(m, InRoot(i), k, t)
  }

  ghost function RootTargets(m: Memory): set<Obj> {
    set t | t in m.words && RootTarget(m, t)
  }

  ghost predicate IsPath(m: Memory, p: seq<Obj>) {
    |p| > 0 && forall i | 0 <= i < |p| - 1 :: Edge(m, p[i], p[i + 1])
  }

  /** o is reached from one of the seeds by a chain of zero or more pointers. */
  ghost predicate Reachable(m: Memory, seeds: set<Obj>, o: Obj) {
    o in m.words && exists p: seq<Obj> :: IsPath(m, p) && p[0] in seeds && p[|p| - 1] == o
  }

  ghost function ReachSet(m: Memory, seeds: set<Obj>): set<Obj> {
    set o | o in m.words && Reachable(m, seeds, o)
  }

  /** A set that no pointer leaves. */
  ghost predicate Closed(m: Memory, c: set<Obj>) {
    forall o: Obj, t: Obj | o in c && Edge(m, o, t) :: t in c
  }

  lemma {:induction false} PathStaysIn(m: Memory, c: set<Obj>, p: seq<Obj>)
    requires Closed(m, c) && IsPath(m, p) && p[0] in c
    ensures p[|p| - 1] in c
    decreases |p|
  {
    if |p| > 1 {
      assert Edge(m, p[0], p[1]);
      forall i | 0 <= i < |p[1..]| - 1 ensures Edge(m, p[1..][i], p[1..][i + 1]) {
        assert Edge(m, p[i + 1], p[i + 2]);
      }
      PathStaysIn(m, c, p[1..]);
    }
  }

  // A closed set that holds the seeds holds everything they reach.
  lemma ClosedHoldsReachable(m: Memory, c: set<Obj>, seeds: set<Obj>)
    requires Closed(m, c) && seeds <= c
    ensures ReachSet(m, seeds) <= c
  {
    forall o | o in ReachSet(m, seeds) ensures o in c {
      var p :| IsPath(m, p) && p[0] in seeds && p[|p| - 1] == o;
      PathStaysIn(m, c, p);
    }
  }

  lemma ReachSetClosed(m: Memory, seeds: set<Obj>)
    ensures Closed(m, ReachSet(m, seeds))
    ensures forall o | o in seeds && o in m.words :: o in ReachSet(m, seeds)
  {
    forall o: Obj, t: Obj | o in ReachSet(m, seeds) && Edge(m, o, t) ensures t in ReachSet(m, seeds) {
      var p :| IsPath(m, p) && p[0] in seeds && p[|p| - 1] == o;
      var q := p + [t];
      assert forall i | 0 <= i < |p| - 1 :: Edge(m, p[i], p[i + 1]);
      assert forall i | 0 <= i < |q| - 1 :: Edge(m, q[i], q[i + 1]);
      assert IsPath(m, q) && q[0] in seeds && q[|q| - 1] == t;
    }
    forall o | o in seeds && o in m.words ensures o in ReachSet(m, seeds) {
      assert IsPath(m, [o]) && [o][0] in seeds && [o][|[o]| - 1] == o;
    }
  }
}
