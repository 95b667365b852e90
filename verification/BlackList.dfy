// Page black lists: gc/blacklst.c and the search for a clean start in gc/allchblk.c.
//
// A page hash table holds one bit for each hash bucket, packed into words.  A word is modelled as
// the sequence of its bits; "the word is zero" is equality with the all-clear word.

module BlackList {
  import opened Config

  const WORDSZ: nat := 64
  const TABLE_WORDS: nat := 4096      // PHT_ENTRIES / WORDSZ

  type Word = w: seq<bool> | |w| == WORDSZ witness seq(WORDSZ, _ => false)

  const ZERO: Word := seq(WORDSZ, _ => false)

  /** Bucket of heap block number b: block numbers are addresses shifted right by LOG_HBLKSIZE. */
  function PhtHash(b: nat): (index: nat)
    ensures index < PHT_ENTRIES
  {
    b % PHT_ENTRIES
  }

  function GetBit(t: seq<Word>, index: nat): bool
    requires |t| == TABLE_WORDS && index < PHT_ENTRIES
  {
    t[index / WORDSZ][index % WORDSZ]
  }

  function SetBit(t: seq<Word>, index: nat): (r: seq<Word>)
    requires |t| == TABLE_WORDS && index < PHT_ENTRIES
    ensures |r| == TABLE_WORDS
    ensures forall k: nat | k < PHT_ENTRIES :: GetBit(r, k) == (k == index || GetBit(t, k))
  {
    var w := t[index / WORDSZ];
    var r := t[index / WORDSZ := w[index % WORDSZ := true]];
    assert forall k: nat | k < PHT_ENTRIES && k / WORDSZ == index / WORDSZ && k % WORDSZ == index % WORDSZ :: k == index;
    r
  }

  /** The number of blocks one test looks at: the loop body runs at least once. */
  function Span(len: nat): (n: nat)
    ensures n >= 1
  {
    if len < HBLKSIZE then 1 else len / HBLKSIZE
  }

  /** Is block b in a bucket that either stack table black-lists?  The reference, one block at a time. */
  ghost predicate StackBad(older: seq<Word>, incomplete: seq<Word>, b: nat)
    requires |older| == TABLE_WORDS && |incomplete| == TABLE_WORDS
  {
    GetBit(older, PhtHash(b)) || GetBit(incomplete, PhtHash(b))
  }

  type Table = t: seq<Word> | |t| == TABLE_WORDS witness seq(TABLE_WORDS, _ => ZERO)

  /** The black lists as values. */
  datatype View = View(interior: bool, oldNormal: Table, newNormal: Table, oldStack: Table, newStack: Table)

  /** A run of n blocks starting at b is black-listed: the block-by-block definition. */
  ghost predicate RunIsBad(v: View, b: nat, n: nat) {
    || (!v.interior && (GetBit(v.oldNormal, PhtHash(b)) || GetBit(v.newNormal, PhtHash(b))))
    || exists k: nat :: b <= k < b + n && StackBad(v.oldStack, v.newStack, k)
  }

  // Blocks whose buckets share a table word have consecutive bits up to the end of that word.
  lemma SameWord(b: nat, skip: nat)
    requires PhtHash(b) % WORDSZ + skip < WORDSZ
    ensures PhtHash(b + skip) == PhtHash(b) + skip
    ensures PhtHash(b + skip) / WORDSZ == PhtHash(b) / WORDSZ
  {
    var x := PhtHash(b);
    assert x / WORDSZ < TABLE_WORDS;
    assert x + skip < PHT_ENTRIES;
    assert b == PHT_ENTRIES * (b / PHT_ENTRIES) + x;
    assert (x + skip) / WORDSZ == x / WORDSZ;
  }

  class BlackLists {
    const allInteriorPointers: bool
    var oldNormal: array<Word>
    var incompleteNormal: array<Word>
    var oldStack: array<Word>
    var incompleteStack: array<Word>

    ghost predicate Valid()
      reads this
    {
      && oldNormal.Length == incompleteNormal.Length == TABLE_WORDS
      && oldStack.Length == incompleteStack.Length == TABLE_WORDS
      && oldNormal != incompleteNormal && oldNormal != oldStack && oldNormal != incompleteStack
      && incompleteNormal != oldStack && incompleteNormal != incompleteStack
      && oldStack != incompleteStack
    }

    ghost function Tables(): set<object>
      reads this
    {
      {oldNormal, incompleteNormal, oldStack, incompleteStack}
    }

    ghost predicate NormalBad(b: nat)
      requires Valid()
      reads this, oldNormal, incompleteNormal
    {
      && !allInteriorPointers
      && (GetBit(oldNormal[..], PhtHash(b)) || GetBit(incompleteNormal[..], PhtHash(b)))
    }

    ghost predicate Stack(b: nat)
      requires Valid()
      reads this, oldStack, incompleteStack
    {
      StackBad(oldStack[..], incompleteStack[..], b)
    }

    ghost function V(): View
      requires Valid()
      reads this, oldNormal, incompleteNormal, oldStack, incompleteStack
    {
      View(allInteriorPointers, oldNormal[..], incompleteNormal[..], oldStack[..], incompleteStack[..])
    }

    ghost predicate BadRun(b: nat, n: nat)
      requires Valid()
      reads this, oldNormal, incompleteNormal, oldStack, incompleteStack
    {
      RunIsBad(V(), b, n)
    }

    constructor (interior: bool)
      ensures Valid() && fresh(Tables()) && allInteriorPointers == interior
      ensures forall b: nat :: !NormalBad(b) && !Stack(b)
    {
      allInteriorPointers := interior;
      oldNormal := new Word[TABLE_WORDS](_ => ZERO);
      incompleteNormal := new Word[TABLE_WORDS](_ => ZERO);
      oldStack := new Word[TABLE_WORDS](_ => ZERO);
      incompleteStack := new Word[TABLE_WORDS](_ => ZERO);
    }

    // If the word of a bucket is all clear, so are the blocks up to the end of the word.
    lemma WordIsClear(b: nat, skip: nat)
      requires Valid() && PhtHash(b) % WORDSZ + skip == WORDSZ
      requires oldStack[PhtHash(b) / WORDSZ] == ZERO && incompleteStack[PhtHash(b) / WORDSZ] == ZERO
      ensures forall c: nat | b <= c < b + skip :: !Stack(c)
    {
      forall c: nat | b <= c < b + skip ensures !Stack(c) {
        SameWord(b, c - b);
      }
    }

    lemma RunIs(b: nat, n: nat)
      requires Valid()
      ensures BadRun(b, n) <==> NormalBad(b) || exists k: nat :: b <= k < b + n && Stack(k)
    {
      if k: nat :| b <= k < b + n && Stack(k) {
        assert StackBad(oldStack[..], incompleteStack[..], k);
      }
      if k: nat :| b <= k < b + n && StackBad(oldStack[..], incompleteStack[..], k) {
        assert Stack(k);
      }
    }

    // Every run that starts at or before a black-listed block and includes it is black-listed.
    lemma AllBad(h: nat, bad: nat, n: nat)
      requires Valid() && h <= bad < h + n && Stack(bad)
      ensures forall b: nat | h <= b <= bad :: BadRun(b, n)
    {
      forall b: nat | h <= b <= bad ensures BadRun(b, n) {
        assert b <= bad < b + n;
      }
    }

    // The loop over the stack tables: the first black-listed block, plus one, or 0.
    method NextStack(h: nat, nblocks: nat) returns (r: nat)
      requires Valid()
      ensures r == 0 ==> forall b: nat | h <= b < h + nblocks || b == h :: !Stack(b)
      ensures r != 0 ==> h < r && (r == h + 1 || r <= h + nblocks) && Stack(r - 1) && forall b: nat | h <= b < r - 1 :: !Stack(b)
    {
      hide PhtHash;
      var i := 0;
      while true
        invariant i == 0 || i < nblocks
        invariant forall b: nat | h <= b < h + i :: !Stack(b)
        decreases nblocks - i
      {
        var index := PhtHash(h + i);
        if oldStack[index / WORDSZ] == ZERO && incompleteStack[index / WORDSZ] == ZERO {
          var skip := WORDSZ - index % WORDSZ;
          WordIsClear(h + i, skip);
          i := i + skip;
        } else {
          if oldStack[index / WORDSZ][index % WORDSZ] || incompleteStack[index / WORDSZ][index % WORDSZ] {
            return h + i + 1;
          }
          i := i + 1;
        }
        if i >= nblocks { return 0; }
      }
    }

    // The word-skipping test.  Like the source, it always looks at the first block.
    method IsBlackListed(h: nat, len: nat) returns (r: nat)
      requires Valid()
      ensures r == 0 <==> !BadRun(h, Span(len))
      ensures r != 0 && NormalBad(h) ==> r == h + 1
      ensures r != 0 && !NormalBad(h) ==> h < r && Stack(r - 1) && forall b: nat | h <= b < r - 1 :: !Stack(b)
      ensures r != 0 ==> forall b: nat | h <= b < r :: BadRun(b, Span(len))
    {
      hide RunIsBad;
      var index := PhtHash(h);
      RunIs(h, Span(len));
      if !allInteriorPointers
         && (oldNormal[index / WORDSZ][index % WORDSZ] || incompleteNormal[index / WORDSZ][index % WORDSZ]) {
        return h + 1;
      }
      hide StackBad, PhtHash, NormalBad;
      r := NextStack(h, len / HBLKSIZE);
      RunIs(h, Span(len));
      if r != 0 {
        AllBad(h, r - 1, Span(len));
      }
    }

    // The allocator's search inside a free block: step over black-listed starts until a clean one, or
    // until no start at or before searchEnd is left.
    method FindCleanStart(h: nat, searchEnd: nat, len: nat) returns (start: nat)
      requires Valid() && h <= searchEnd
      ensures h <= start
      ensures forall b: nat | h <= b < start :: BadRun(b, Span(len))
      ensures start <= searchEnd ==> !BadRun(start, Span(len))
    {
      start := h;
      while start <= searchEnd
        invariant h <= start
        invariant forall b: nat | h <= b < start :: BadRun(b, Span(len))
        decreases searchEnd + 1 - start
      {
        var next := IsBlackListed(start, len);
        if next == 0 { return; }
        start := next;
      }
    }

    // A false hit from a stack.  `headerless` is the test HDR(p) == 0.
    method AddStack(b: nat, headerless: bool)
      requires Valid()
      modifies incompleteStack
      ensures Valid()
      ensures var hit := headerless || GetBit(oldStack[..], PhtHash(b));
              forall k: nat | k < PHT_ENTRIES ::
                GetBit(incompleteStack[..], k) == ((hit && k == PhtHash(b)) || GetBit(old(incompleteStack[..]), k))
    {
      var index := PhtHash(b);
      if headerless || oldStack[index / WORDSZ][index % WORDSZ] {
        ghost var before := incompleteStack[..];
        var w := incompleteStack[index / WORDSZ];
        incompleteStack[index / WORDSZ] := w[index % WORDSZ := true];
        assert incompleteStack[..] == SetBit(before, index);
      }
    }

    // A false hit from the heap or from static data, if pointers may have the offset in a word that it has.
    method AddNormal(b: nat, headerless: bool, validOffset: bool)
      requires Valid()
      modifies incompleteNormal
      ensures Valid()
      ensures var hit := validOffset && (headerless || GetBit(oldNormal[..], PhtHash(b)));
              forall k: nat | k < PHT_ENTRIES ::
                GetBit(incompleteNormal[..], k) == ((hit && k == PhtHash(b)) || GetBit(old(incompleteNormal[..]), k))
    {
      if validOffset {
        var index := PhtHash(b);
        if headerless || oldNormal[index / WORDSZ][index % WORDSZ] {
          ghost var before := incompleteNormal[..];
          var w := incompleteNormal[index / WORDSZ];
          incompleteNormal[index / WORDSZ] := w[index % WORDSZ := true];
          assert incompleteNormal[..] == SetBit(before, index);
        }
      }
    }

    // The end of a collection: what was seen since the last one becomes the old list.
    method Promote()
      requires Valid()
      modifies this, oldNormal, oldStack
      ensures Valid() && Tables() == old(Tables())
      ensures oldStack[..] == old(incompleteStack[..]) && oldNormal[..] == old(incompleteNormal[..])
      ensures forall k: nat | k < PHT_ENTRIES :: !GetBit(incompleteStack[..], k)
      ensures !allInteriorPointers ==> forall k: nat | k < PHT_ENTRIES :: !GetBit(incompleteNormal[..], k)
      ensures allInteriorPointers ==> incompleteNormal[..] == old(oldNormal[..])
      ensures forall b: nat :: Stack(b) == old(GetBit(incompleteStack[..], PhtHash(b)))
      ensures !allInteriorPointers ==> forall b: nat :: NormalBad(b) == old(GetBit(incompleteNormal[..], PhtHash(b)))
    {
      var veryOldNormal, veryOldStack := oldNormal, oldStack;
      oldNormal := incompleteNormal;
      oldStack := incompleteStack;
      if !allInteriorPointers {
        forall i | 0 <= i < veryOldNormal.Length { veryOldNormal[i] := ZERO; }
      }
      forall i | 0 <= i < veryOldStack.Length { veryOldStack[i] := ZERO; }
      incompleteNormal := veryOldNormal;
      incompleteStack := veryOldStack;
    }

    // An abandoned collection: the old list is what the next collection starts from.
    method Unpromote()
      requires Valid()
      modifies incompleteNormal, incompleteStack
      ensures Valid()
      ensures incompleteStack[..] == oldStack[..]
      ensures !allInteriorPointers ==> incompleteNormal[..] == oldNormal[..]
      ensures allInteriorPointers ==> incompleteNormal[..] == old(incompleteNormal[..])
    {
      if !allInteriorPointers {
        forall i | 0 <= i < oldNormal.Length { incompleteNormal[i] := oldNormal[i]; }
      }
      forall i | 0 <= i < oldStack.Length { incompleteStack[i] := oldStack[i]; }
    }
  }
}
