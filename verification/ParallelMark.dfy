// The parallel marker: gc/mark.c, GC_do_parallel_mark, GC_help_marker, GC_mark_local and what they call.
//
// Each step below is one access to shared state, or one region that holds the mark lock.  Any helper
// may take its next step at any time, so a run is an arbitrary interleaving of any number of helpers.
// LookAgain, TestWait and Decide are finer than that: a helper that does not have to wait holds the lock
// from the first to the last of them.  What holds of every run holds of those that respect the lock.
// Tests that only serve performance (the credit of GC_mark_from, the check for idle helpers before
// sharing) may come out either way.

module ParallelMark {
  import opened Config
  import opened HeapGraph
  import MI = MarkInvariant

  type Entry = MI.Entry

  const ENTRIES_TO_GET: nat := 5
  const LOCAL_MARK_STACK_SIZE: nat := 4096
  const WORDS_PER_PIECE: nat := SPLIT_RANGE_WORDS - 1

  /** Where a helper is. */
  datatype Pc =
    | Outside                         // waiting to be asked for help
    | Joining                         // counted as a helper, not yet as active
    | ReadFirst                       // at the head of the loop in GC_mark_local
    | Advance(seen: nat)              // has read GC_first_nonempty
    | ReadTop
    | Recheck                         // saw an empty stack; about to look again under the lock
    | Waiting                         // inactive; about to test the wait condition
    | Asleep                          // in GC_wait_marker
    | Woken                           // the wait condition was false
    | Steal(p: nat, n: nat, got: nat, max: nat)               // about to read the descriptor of entry p
    | Zero(p: nat, n: nat, got: nat, max: nat, len: nat)      // read a nonzero one; about to clear it
    | Marking
    | Setting(k: nat)                 // found the mark bit for word k clear; about to set it
    | Notifying(more: bool)           // has copied entries back

  datatype Helper = Helper(
    pc: Pc,
    no: nat,                          // my_mark_no
    first: nat,                       // my_first_nonempty
    local: seq<Entry>,                // the local mark stack
    src: Src, words: set<nat>)        // the words in hand: taken off the local stack, not yet examined

  datatype Starter = Resting | Started | Closing

  datatype State = State(
    m: Memory,
    marked: set<Obj>,
    slots: seq<Entry>,                // the global mark stack; a stolen entry has length 0
    stackSize: nat,
    first: nat,                       // GC_first_nonempty
    active: nat, helperCount: nat, helpWanted: bool, markNo: nat, markers: nat,
    state: MI.MarkState,
    helpers: seq<Helper>,             // the first one is the thread that started the phase
    starter: Starter,
    left: bool,                       // history: some helper has left this phase
    lapsed: iset<(Src, nat)>,         // history: words that have lapsed, as in the sequential marker
    seeds: set<Obj>,                  // history: what was marked at the start, and the targets of the roots
    bound: set<Obj>)                  // history: a closed set that holds the seeds

  datatype Action =
    | Prepare(m: Memory, marked: set<Obj>, slots: seq<Entry>, stackSize: nat, bound: set<Obj>, lapsed: iset<(Src, nat)>)
    | Start | Close | End
    | Renumber(h: nat) | Join(h: nat) | Activate(h: nat)
    | LoadFirst(h: nat) | MoveFirst(h: nat) | LoadTop(h: nat) | LookAgain(h: nat)
    | TestWait(h: nat) | Decide(h: nat)
    | ReadDescr(h: nat) | ClearDescr(h: nat)
    | Halve(h: nat) | Take(h: nat) | Scan(h: nat, k: nat) | SetMark(h: nat)
    | Finish(h: nat) | GiveBack(h: nat) | Share(h: nat) | Notify(h: nat)

  // ----- what a word leads to

  predicate Leads(m: Memory, s: Src, k: nat) {
    k < |WordsOf(m, s)| && WordsOf(m, s)[k].Pointer? && WordsOf(m, s)[k].target in m.words
  }

  function Target(m: Memory, s: Src, k: nat): Obj
    requires Leads(m, s, k)
  {
    WordsOf(m, s)[k].target
  }

  /** The word leads to an object whose mark bit is clear. */
  predicate Loose(s: State, r: Src, k: nat) {
    Leads(s.m, r, k) && Target(s.m, r, k) !in s.marked
  }

  // ----- steps

  /** Every root, and every marked object whose contents are followed. */
  ghost predicate IsSource(m: Memory, marked: set<Obj>, r: Src) {
    match r
    case Heap(o) => o in marked && Traced(m, o)
    case InRoot(_) => true
  }

  /** The targets of the roots, except through words that have lapsed. */
  ghost function LiveRoots(m: Memory, lapsed: iset<(Src, nat)>): set<Obj> {
    RootTargets(MI.Live(m, lapsed))
  }

  /** What GC_mark_some has established when it starts the parallel marker. */
  ghost predicate CanPrepare(m: Memory, marked: set<Obj>, slots: seq<Entry>, bound: set<Obj>, lapsed: iset<(Src, nat)>) {
    && (forall r: Src, k: nat :: IsSource(m, marked, r) && Leads(m, r, k) && Target(m, r, k) !in marked && (r, k) !in lapsed ==>
          MI.OnStack(slots, r, k))
    && (forall r: Src, k: nat :: MI.OnStack(slots, r, k) && Leads(m, r, k) ==> Target(m, r, k) in bound)
    && Closed(m, bound) && marked + RootTargets(m) <= bound && LiveRoots(m, lapsed) <= bound
  }

  predicate IsActive(p: Pc) {
    !p.Outside? && !p.Joining? && !p.Waiting? && !p.Asleep? && !p.Woken?
  }

  predicate IsMember(p: Pc) {
    !p.Outside?
  }

  predicate AtPc(s: State, h: nat) {
    h < |s.helpers|
  }

  predicate Large(e: Entry) {
    e.len > WORDS_PER_PIECE
  }

  /** GC_mark_from splits the range in two so that other helpers can get half of it. */
  predicate Halves(local: seq<Entry>) {
    |local| > 0 && local[|local| - 1].len > SHARE_WORDS && |local| < LOCAL_MARK_STACK_SIZE
  }

  /** GC_mark_thread resynchronizes its number of the phase if it is behind or too far ahead. */
  predicate FarOff(s: State, no: nat) {
    no < s.markNo || no > s.markNo + 2
  }

  ghost predicate Enabled(s: State, a: Action) {
    match a
    case Prepare(m, marked, slots, stackSize, bound, lapsed) =>
      s.starter.Resting? && CanPrepare(m, marked, slots, bound, lapsed) && |slots| <= stackSize
    case Start => s.starter.Resting? && |s.helpers| > 0
    case Close => s.starter.Started? && |s.helpers| > 0 && s.helpers[0].pc.Outside?
    case End => s.starter.Closing? && s.helperCount == 0
    case Renumber(h) => 0 < h && AtPc(s, h) && s.helpers[h].pc.Outside? && FarOff(s, s.helpers[h].no)
    case Join(h) =>
      && 0 < h && AtPc(s, h) && s.helpers[h].pc.Outside?
      && !(s.markNo < s.helpers[h].no || (!s.helpWanted && s.markNo == s.helpers[h].no))
    case Activate(h) => AtPc(s, h) && s.helpers[h].pc.Joining?
    case LoadFirst(h) => AtPc(s, h) && s.helpers[h].pc.ReadFirst?
    case MoveFirst(h) => AtPc(s, h) && s.helpers[h].pc.Advance?
    case LoadTop(h) => AtPc(s, h) && s.helpers[h].pc.ReadTop?
    case LookAgain(h) => AtPc(s, h) && s.helpers[h].pc.Recheck?
    case TestWait(h) => AtPc(s, h) && s.helpers[h].pc.Waiting?
    case Decide(h) => AtPc(s, h) && s.helpers[h].pc.Woken?
    case ReadDescr(h) => AtPc(s, h) && s.helpers[h].pc.Steal? && (s.helpers[h].pc.p < s.helpers[h].pc.n ==> s.helpers[h].pc.p < |s.slots|)
    case ClearDescr(h) => AtPc(s, h) && s.helpers[h].pc.Zero? && s.helpers[h].pc.p < |s.slots|
    case Halve(h) => AtPc(s, h) && s.helpers[h].pc.Marking? && s.helpers[h].words == {} && Halves(s.helpers[h].local)
    case Take(h) =>
      && AtPc(s, h) && s.helpers[h].pc.Marking? && s.helpers[h].words == {}
      && |s.helpers[h].local| > 0 && !Halves(s.helpers[h].local)
    case Scan(h, k) => AtPc(s, h) && s.helpers[h].pc.Marking? && k in s.helpers[h].words
    case SetMark(h) => AtPc(s, h) && s.helpers[h].pc.Setting? && Leads(s.m, s.helpers[h].src, s.helpers[h].pc.k)
    case Finish(h) => AtPc(s, h) && s.helpers[h].pc.Marking? && s.helpers[h].words == {} && s.helpers[h].local == []
    case GiveBack(h) =>
      && AtPc(s, h) && s.helpers[h].pc.Marking? && s.helpers[h].words == {}
      && |s.helpers[h].local| - 1 >= LOCAL_MARK_STACK_SIZE / 2
    case Share(h) =>
      AtPc(s, h) && s.helpers[h].pc.Marking? && s.helpers[h].words == {} && |s.helpers[h].local| - 1 > 1
    case Notify(h) => AtPc(s, h) && s.helpers[h].pc.Notifying?
  }

  function Put(s: State, h: nat, hp: Helper): State
    requires h < |s.helpers|
  {
    s.(helpers := s.helpers[h := hp])
  }

  function Wake(hp: Helper): Helper {
    if hp.pc.Asleep? then hp.(pc := Waiting) else hp
  }

  /** GC_notify_all_marker. */
  function WakeAll(hs: seq<Helper>): seq<Helper> {
    seq(|hs|, i requires 0 <= i < |hs| => Wake(hs[i]))
  }

  function Get(first: nat, n: nat): Pc {
    Steal(first, n, 0, if n - first < 2 * ENTRIES_TO_GET then 1 else ENTRIES_TO_GET)
  }

  /** GC_return_mark_stack: the copied entries go on top of the global stack, if there is room. */
  function Returned(s: State, gift: seq<Entry>): State {
    if |s.slots| + |gift| > s.stackSize then s.(state := MI.Invalid) else s.(slots := s.slots + gift)
  }

  function Range(start: nat, len: nat): (r: set<nat>)
    ensures forall k: nat :: k in r <==> start <= k < start + len
    decreases len
  {
    if len == 0 then {} else {start} + Range(start + 1, len - 1)
  }

  /** The rest of the range that stays on the local stack when a piece is taken off its top. */
  function Below(local: seq<Entry>): seq<Entry>
    requires |local| > 0
  {
    var e := local[|local| - 1];
    local[..|local| - 1] + if Large(e) then [MI.Entry(e.src, e.start + WORDS_PER_PIECE, e.len - WORDS_PER_PIECE)] else []
  }

  function PieceOf(e: Entry): set<nat> {
    Range(e.start, if Large(e) then WORDS_PER_PIECE else e.len)
  }

  function Halved(local: seq<Entry>): seq<Entry>
    requires |local| > 0
  {
    var e := local[|local| - 1];
    var half := e.len / 2;
    local[..|local| - 1] + [MI.Entry(e.src, e.start, half + 1), MI.Entry(e.src, e.start + half, e.len - half)]
  }

  ghost function Do(s: State, a: Action): State
    requires Enabled(s, a)
  {
    match a
    case Prepare(m, marked, slots, stackSize, bound, lapsed) =>
      s.(m := m, lapsed := lapsed, marked := marked, slots := slots, stackSize := stackSize, state := MI.RootsPushed,
         seeds := marked + LiveRoots(m, lapsed), bound := bound, first := 0, left := false)
    case Start => Put(s, 0, s.helpers[0].(pc := Joining)).(
      first := 0, active := 0, helperCount := 1, helpWanted := true, starter := Started, left := false)
    case Close => s.(helpWanted := false, starter := Closing)
    case End => s.(markNo := s.markNo + 1, starter := Resting)
    case Renumber(h) => Put(s, h, s.helpers[h].(no := s.markNo))
    case Join(h) =>
      // GC_help_marker may return at once; GC_mark_thread then goes on to the next number.
      if s.markNo != s.helpers[h].no || s.helperCount >= s.markers then Put(s, h, s.helpers[h].(no := s.helpers[h].no + 1))
      else Put(s, h, s.helpers[h].(pc := Joining)).(helperCount := s.helperCount + 1)
    case Activate(h) => Put(s, h, s.helpers[h].(pc := ReadFirst, first := s.first)).(active := s.active + 1)
    case LoadFirst(h) => Put(s, h, s.helpers[h].(pc := Advance(s.first)))
    case MoveFirst(h) =>
      var hp := s.helpers[h];
      if hp.first < hp.pc.seen then Put(s, h, hp.(pc := ReadTop, first := hp.pc.seen))
      else if hp.pc.seen < hp.first && s.first == hp.pc.seen then Put(s, h, hp.(pc := ReadTop)).(first := hp.first)
      else Put(s, h, hp.(pc := ReadTop))
    case LoadTop(h) =>
      var hp := s.helpers[h];
      if |s.slots| == hp.first then Put(s, h, hp.(pc := Recheck))
      else Put(s, h, hp.(pc := Get(hp.first, |s.slots|)))
    case LookAgain(h) =>
      var hp := s.helpers[h];
      if |s.slots| == hp.first then
        var r := Put(s, h, hp.(pc := Waiting)).(active := if s.active > 0 then s.active - 1 else 0);
        if r.active == 0 then r.(helpers := WakeAll(r.helpers)) else r
      else Put(s, h, hp.(pc := Get(hp.first, |s.slots|)))
    case TestWait(h) =>
      Put(s, h, s.helpers[h].(pc := if s.active > 0 && s.first >= |s.slots| then Asleep else Woken))
    case Decide(h) =>
      if s.active == 0 && s.first >= |s.slots| then
        Put(s, h, s.helpers[h].(pc := Outside, no := s.helpers[h].no + 1)).(helperCount := if s.helperCount > 0 then s.helperCount - 1 else 0, left := true)
      else Put(s, h, s.helpers[h].(pc := ReadFirst)).(active := s.active + 1)
    case ReadDescr(h) =>
      var hp := s.helpers[h];
      var Steal(p, n, got, max) := hp.pc;
      if p < n && got <= max then
        if s.slots[p].len == 0 then Put(s, h, hp.(pc := Steal(p + 1, n, got, max)))
        else Put(s, h, hp.(pc := Zero(p, n, got, max, s.slots[p].len)))
      else Put(s, h, hp.(pc := Marking, first := p))
    case ClearDescr(h) =>
      // The start of an entry never changes, so it does not matter when it is read.
      var hp := s.helpers[h];
      var Zero(p, n, got, max, len) := hp.pc;
      var e := MI.Entry(s.slots[p].src, s.slots[p].start, len);
      Put(s, h, hp.(pc := Steal(p + 1, n, got + 1 + len / 32, max), local := hp.local + [e])).(
        slots := s.slots[p := s.slots[p].(len := 0)])
    case Halve(h) => Put(s, h, s.helpers[h].(local := Halved(s.helpers[h].local)))
    case Take(h) =>
      var hp := s.helpers[h];
      var e := hp.local[|hp.local| - 1];
      Put(s, h, hp.(local := Below(hp.local), src := e.src, words := PieceOf(e)))
    case Scan(h, k) =>
      var hp := s.helpers[h];
      if Loose(s, hp.src, k) then Put(s, h, hp.(pc := Setting(k))) else Put(s, h, hp.(words := hp.words - {k}))
    case SetMark(h) =>
      // Another helper may have set the bit in the meantime; the object is then pushed twice.
      var hp := s.helpers[h];
      var t := Target(s.m, hp.src, hp.pc.k);
      var r := s.(marked := s.marked + {t});
      var hp' := hp.(pc := Marking, words := hp.words - {hp.pc.k});
      if !Traced(s.m, t) then Put(r, h, hp')
      else
        var e := MI.Entry(Heap(t), 0, |s.m.words[t]|);
        if |hp.local| < LOCAL_MARK_STACK_SIZE then Put(r, h, hp'.(local := hp.local + [e]))
        else Put(r.(state := MI.Invalid), h, hp'.(local := hp.local[..|hp.local| - MI.MARK_STACK_DISCARDS] + [e]))
    case Finish(h) => Put(s, h, s.helpers[h].(pc := ReadFirst))
    case GiveBack(h) =>
      Put(Returned(s, s.helpers[h].local), h, s.helpers[h].(pc := Notifying(false), local := []))
    case Share(h) =>
      var local := s.helpers[h].local;
      var cut := (|local| - 1) / 2;
      Put(Returned(s, local[..cut]), h, s.helpers[h].(pc := Notifying(true), local := local[cut..]))
    case Notify(h) =>
      var r := Put(s, h, s.helpers[h].(pc := if s.helpers[h].pc.more then Marking else ReadFirst));
      r.(helpers := WakeAll(r.helpers))
  }

  predicate Initial(s: State) {
    && s.starter.Resting? && !s.helpWanted && s.active == 0 && s.helperCount == 0 && s.first == 0
    && s.slots == [] && s.marked == {} && s.lapsed == iset{} && s.m == Memory(map[], map[], map[], [], map[], 0) && s.bound == {} && s.seeds == {}
    && forall h: nat | h < |s.helpers| :: s.helpers[h].pc.Outside? && s.helpers[h].local == [] && s.helpers[h].words == {}
  }

  // ----- the invariant

  ghost predicate InHelper(hp: Helper, r: Src, k: nat) {
    MI.OnStack(hp.local, r, k) || (hp.src == r && k in hp.words)
  }

  /** Word k of r is in a global entry that nobody has stolen, or in the local work of some helper. */
  ghost predicate Queued(s: State, r: Src, k: nat) {
    MI.OnStack(s.slots, r, k) || exists h: nat :: h < |s.helpers| && InHelper(s.helpers[h], r, k)
  }

  ghost predicate Cover(s: State) {
    s.state.Invalid? || forall r: Src, k: nat :: IsSource(s.m, s.marked, r) && Loose(s, r, k) && (r, k) !in s.lapsed ==> Queued(s, r, k)
  }

  /** The first n entries have been stolen. */
  predicate Clear(slots: seq<Entry>, n: nat) {
    n <= |slots| && forall i | 0 <= i < n :: slots[i].len == 0
  }

  predicate PcOk(slots: seq<Entry>, hp: Helper) {
    match hp.pc
    case Outside => hp.local == []
    case Joining => hp.local == []
    case ReadFirst => hp.local == []
    case Advance(seen) => hp.local == [] && Clear(slots, seen)
    case ReadTop => hp.local == []
    case Recheck => hp.local == []
    case Waiting => hp.local == []
    case Asleep => hp.local == []
    case Woken => hp.local == []
    case Steal(p, n, got, max) => Clear(slots, p) && p <= n <= |slots| && |hp.local| <= got && |hp.local| <= 6 && max <= 5
    case Zero(p, n, got, max, len) =>
      && Clear(slots, p) && p < n <= |slots| && len > 0 && (slots[p].len == len || slots[p].len == 0)
      && |hp.local| <= got <= max <= 5
    case Marking => |hp.local| <= LOCAL_MARK_STACK_SIZE
    case Setting(k) => |hp.local| <= LOCAL_MARK_STACK_SIZE && k in hp.words
    case Notifying(more) => |hp.local| <= LOCAL_MARK_STACK_SIZE && (!more ==> hp.local == [])
  }

  predicate HelperOk(slots: seq<Entry>, hp: Helper) {
    && (IsMember(hp.pc) && !hp.pc.Joining? ==> Clear(slots, hp.first))
    && PcOk(slots, hp)
    && (hp.words != {} ==> hp.pc.Marking? || hp.pc.Setting?)
  }

  function Actives(hs: seq<Helper>): set<nat> {
    set h: nat | h < |hs| && IsActive(hs[h].pc)
  }

  function Members(hs: seq<Helper>): set<nat> {
    set h: nat | h < |hs| && IsMember(hs[h].pc)
  }

  predicate Busy(hp: Helper) {
    hp.local != [] || hp.words != {} || hp.pc.Zero?
  }

  predicate Counts(s: State) {
    && s.active == |Actives(s.helpers)|
    && s.helperCount == |Members(s.helpers)|
    && (s.starter.Resting? ==> s.helperCount == 0)
    && (s.helpWanted <==> s.starter.Started?)
    && (s.starter != Resting ==> |s.helpers| > 0)
    && (s.starter != Resting && s.helpers[0].pc.Outside? ==> s.left)
    && (s.starter.Closing? ==> s.left)
  }

  /** After some helper has left, there is nothing more to do. */
  predicate Quiet(s: State) {
    s.left ==> Clear(s.slots, |s.slots|) && forall h: nat | h < |s.helpers| :: !Busy(s.helpers[h])
  }

  predicate AllOk(s: State) {
    && Clear(s.slots, s.first)
    && forall h: nat | h < |s.helpers| :: HelperOk(s.slots, s.helpers[h])
  }

  predicate Sleepless(s: State) {
    s.active > 0 && s.first >= |s.slots|
  }

  /** A helper sleeps only while it has reason to, or a notification is on its way. */
  ghost predicate NoLostWakeup(s: State) {
    (exists h: nat :: h < |s.helpers| && s.helpers[h].pc.Asleep?) ==>
      Sleepless(s) || exists h: nat :: h < |s.helpers| && s.helpers[h].pc.Notifying?
  }

  ghost predicate HelperBound(s: State, hp: Helper) {
    && (hp.pc.Setting? ==> Leads(s.m, hp.src, hp.pc.k))
    && (forall r: Src, k: nat :: InHelper(hp, r, k) && Leads(s.m, r, k) ==> Target(s.m, r, k) in s.bound)
    && (hp.pc.Zero? && hp.pc.p < |s.slots| ==>
          forall r: Src, k: nat :: MI.InEntry(s.slots[hp.pc.p].(len := hp.pc.len), r, k) && Leads(s.m, r, k) ==> Target(s.m, r, k) in s.bound)
  }

  ghost predicate Bounded(s: State) {
    && Closed(s.m, s.bound) && s.marked <= s.bound && s.seeds <= s.bound && RootTargets(s.m) <= s.bound
    && s.seeds <= s.marked + LiveRoots(s.m, s.lapsed)
    && (forall r: Src, k: nat :: MI.OnStack(s.slots, r, k) && Leads(s.m, r, k) ==> Target(s.m, r, k) in s.bound)
    && (forall h: nat | h < |s.helpers| :: HelperBound(s, s.helpers[h]))
  }

  ghost predicate Inv(s: State) {
    Counts(s) && AllOk(s) && Quiet(s) && Cover(s) && Bounded(s) && NoLostWakeup(s)
  }

  lemma InitialInv(s: State)
    requires Initial(s)
    ensures Inv(s)
  {
    assert Actives(s.helpers) == {};
    assert Members(s.helpers) == {};
  }

  // ----- one helper moves

  /** Entries are only added, and their lengths only cleared. */
  predicate Later(a: seq<Entry>, b: seq<Entry>) {
    && |a| <= |b|
    && forall i | 0 <= i < |a| :: b[i].src == a[i].src && b[i].start == a[i].start && (b[i].len == a[i].len || b[i].len == 0)
  }

  lemma LaterKeeps(a: seq<Entry>, b: seq<Entry>, hp: Helper)
    requires Later(a, b) && HelperOk(a, hp)
    ensures HelperOk(b, hp)
  {
    assert forall n: nat | Clear(a, n) :: Clear(b, n);
  }

  lemma MovedOk(s: State, s': State, h: nat, hp: Helper)
    requires AllOk(s) && h < |s.helpers| && s'.helpers == s.helpers[h := hp]
    requires Later(s.slots, s'.slots) && HelperOk(s'.slots, hp) && Clear(s'.slots, s'.first)
    ensures AllOk(s')
  {
    hide HelperOk, Later, Clear;
    forall g: nat | g < |s'.helpers| ensures HelperOk(s'.slots, s'.helpers[g]) {
      if g != h {
        LaterKeeps(s.slots, s'.slots, s.helpers[g]);
      }
    }
  }

  lemma MovedCover(s: State, s': State, h: nat, hp: Helper)
    requires Cover(s) && h < |s.helpers| && s'.helpers == s.helpers[h := hp]
    requires s'.m == s.m && s'.lapsed == s.lapsed && s.marked <= s'.marked && (s.state.Invalid? ==> s'.state.Invalid?)
    requires s'.state.Invalid? || forall r: Src, k: nat :: MI.OnStack(s.slots, r, k) ==> MI.OnStack(s'.slots, r, k) || InHelper(hp, r, k)
    requires s'.state.Invalid? || forall r: Src, k: nat :: InHelper(s.helpers[h], r, k) && Loose(s', r, k) ==> MI.OnStack(s'.slots, r, k) || InHelper(hp, r, k)
    requires s'.state.Invalid? || forall o, k: nat :: o in s'.marked && o !in s.marked && Traced(s.m, o) && Leads(s.m, Heap(o), k) ==> InHelper(hp, Heap(o), k)
    ensures Cover(s')
  {
    hide InHelper, MI.OnStack, Traced, Leads;
    if !s'.state.Invalid? {
      forall r: Src, k: nat | IsSource(s'.m, s'.marked, r) && Loose(s', r, k) && (r, k) !in s'.lapsed ensures Queued(s', r, k) {
        if IsSource(s.m, s.marked, r) {
          assert Queued(s, r, k);
          if !MI.OnStack(s.slots, r, k) {
            var g: nat :| g < |s.helpers| && InHelper(s.helpers[g], r, k);
            if g != h {
              assert InHelper(s'.helpers[g], r, k);
            }
          }
        }
        assert InHelper(hp, r, k) ==> InHelper(s'.helpers[h], r, k);
      }
    }
  }

  lemma MovedBound(s: State, s': State, h: nat, hp: Helper)
    requires Bounded(s) && h < |s.helpers| && s'.helpers == s.helpers[h := hp]
    requires s'.m == s.m && s'.lapsed == s.lapsed && s'.bound == s.bound && s'.seeds == s.seeds && s.marked <= s'.marked <= s.bound
    requires Later(s.slots, s'.slots)
    requires forall g: nat | g < |s.helpers| && s.helpers[g].pc.Zero? :: s.helpers[g].pc.p < |s.slots|
    requires HelperBound(s', hp)
    requires forall r: Src, k: nat :: MI.OnStack(s'.slots, r, k) ==> MI.OnStack(s.slots, r, k) || InHelper(s.helpers[h], r, k)
    ensures Bounded(s')
  {
    hide MI.OnStack, Leads, RootTargets, LiveRoots, Closed;
    assert HelperBound(s, s.helpers[h]);
    forall g: nat | g < |s'.helpers| ensures HelperBound(s', s'.helpers[g]) {
      assert HelperBound(s, s.helpers[g]);
    }
  }

  lemma MovedSets(hs: seq<Helper>, h: nat, hp: Helper)
    requires h < |hs|
    ensures var a := Actives(hs);
            Actives(hs[h := hp]) == if IsActive(hp.pc) then a + {h} else a - {h}
    ensures var m := Members(hs);
            Members(hs[h := hp]) == if IsMember(hp.pc) then m + {h} else m - {h}
  {
  }

  /** Everything but the wake-ups. */
  ghost predicate Core(s: State) {
    Counts(s) && AllOk(s) && Quiet(s) && Cover(s) && Bounded(s)
  }

  lemma WakeAllKeeps(s: State, s': State)
    requires Core(s) && s' == s.(helpers := WakeAll(s.helpers))
    ensures Inv(s')
  {
    hide Leads, RootTargets, LiveRoots, Closed, MI.OnStack, Clear;
    assert Actives(s'.helpers) == Actives(s.helpers);
    assert Members(s'.helpers) == Members(s.helpers);
    assert forall h: nat | h < |s.helpers| :: s'.helpers[h] == Wake(s.helpers[h]);
    forall r: Src, k: nat | Queued(s, r, k) ensures Queued(s', r, k) {
      if !MI.OnStack(s.slots, r, k) {
        var g: nat :| g < |s.helpers| && InHelper(s.helpers[g], r, k);
        assert InHelper(s'.helpers[g], r, k);
      }
    }
    forall h: nat | h < |s.helpers| ensures HelperBound(s', s'.helpers[h]) {
      assert HelperBound(s, s.helpers[h]);
    }
  }

  /** Helper h moves; nothing else in its own state or in the shared work changes. */
  predicate Quietly(s: State, s': State, h: nat, hp: Helper) {
    && h < |s.helpers|
    && s' == s.(helpers := s.helpers[h := hp], first := s'.first, active := s'.active, helperCount := s'.helperCount, left := s'.left)
    && (var was := s.helpers[h]; hp.local == was.local && hp.src == was.src && hp.words == was.words)
  }

  lemma QuietStep(s: State, s': State, h: nat, hp: Helper)
    requires Core(s) && Quietly(s, s', h, hp)
    requires HelperOk(s.slots, hp) && Clear(s.slots, s'.first) && !hp.pc.Setting?
    requires hp.pc.Zero? ==> hp.pc.p < |s.slots| && s.slots[hp.pc.p].len == hp.pc.len > 0
    ensures AllOk(s') && Cover(s') && Bounded(s')
  {
    hide Clear, PcOk, Leads, RootTargets, LiveRoots, Closed;
    ZeroInRange(s);
    MovedOk(s, s', h, hp);
    MovedCover(s, s', h, hp);
    assert HelperBound(s, s.helpers[h]);
    if hp.pc.Zero? {
      SlotBound(s, hp.pc.p);
    }
    MovedBound(s, s', h, hp);
  }

  lemma ZeroInRange(s: State)
    requires AllOk(s)
    ensures forall g: nat | g < |s.helpers| && s.helpers[g].pc.Zero? :: s.helpers[g].pc.p < |s.slots|
  {
    forall g: nat | g < |s.helpers| && s.helpers[g].pc.Zero? ensures s.helpers[g].pc.p < |s.slots| {
      assert HelperOk(s.slots, s.helpers[g]);
    }
  }

  lemma SlotBound(s: State, p: nat)
    requires Bounded(s) && p < |s.slots|
    ensures forall r: Src, k: nat :: MI.InEntry(s.slots[p], r, k) && Leads(s.m, r, k) ==> Target(s.m, r, k) in s.bound
  {
    hide Leads, RootTargets, LiveRoots, Closed;
    assert forall r: Src, k: nat | MI.InEntry(s.slots[p], r, k) :: MI.OnStack(s.slots, r, k);
  }

  lemma MovedQuiet(s: State, s': State, h: nat, hp: Helper)
    requires Quiet(s) && h < |s.helpers| && s'.helpers == s.helpers[h := hp]
    requires s'.left ==> s.left && !Busy(hp) && s'.slots == s.slots
    ensures Quiet(s')
  {
    hide Busy, Clear;
  }

  lemma CountMoved(hs: seq<Helper>, h: nat, hp: Helper)
    requires h < |hs|
    ensures |Actives(hs[h := hp])| == |Actives(hs)| + (if IsActive(hp.pc) then 1 else 0) - (if IsActive(hs[h].pc) then 1 else 0)
    ensures |Members(hs[h := hp])| == |Members(hs)| + (if IsMember(hp.pc) then 1 else 0) - (if IsMember(hs[h].pc) then 1 else 0)
  {
    MovedSets(hs, h, hp);
    var a, m := Actives(hs), Members(hs);
    assert h in a <==> IsActive(hs[h].pc);
    assert h in m <==> IsMember(hs[h].pc);
    hide Actives, Members, IsActive, IsMember;
    OneMoreOrLess(a, h);
    OneMoreOrLess(m, h);
  }

  lemma OneMoreOrLess(a: set<nat>, h: nat)
    ensures |a + {h}| == if h in a then |a| else |a| + 1
    ensures |a - {h}| == if h in a then |a| - 1 else |a|
  {
    if h in a {
      assert a + {h} == a;
    } else {
      assert a - {h} == a;
    }
  }

  lemma MovedCounts(s: State, s': State, h: nat, hp: Helper)
    requires Counts(s) && h < |s.helpers| && s'.helpers == s.helpers[h := hp]
    requires s'.starter == s.starter && s'.helpWanted == s.helpWanted && (s.left ==> s'.left)
    requires IsMember(s.helpers[h].pc) <==> IsMember(hp.pc)
    requires s'.helperCount == s.helperCount
    requires s'.active == s.active + (if IsActive(hp.pc) then 1 else 0) - (if IsActive(s.helpers[h].pc) then 1 else 0)
    ensures Counts(s')
  {
    hide Actives, Members, IsActive;
    CountMoved(s.helpers, h, hp);
  }

  lemma MovedWake(s: State, s': State, h: nat, hp: Helper)
    requires NoLostWakeup(s) && h < |s.helpers| && s'.helpers == s.helpers[h := hp]
    requires hp.pc.Asleep? ==> Sleepless(s')
    requires Sleepless(s) ==> Sleepless(s') || hp.pc.Notifying?
    requires !s.helpers[h].pc.Notifying?
    ensures NoLostWakeup(s')
  {
    hide Sleepless;
    if exists g: nat :: g < |s'.helpers| && s'.helpers[g].pc.Asleep? {
      var g: nat :| g < |s'.helpers| && s'.helpers[g].pc.Asleep?;
      if g != h {
        assert s.helpers[g].pc.Asleep?;
        if !Sleepless(s) {
          var n: nat :| n < |s.helpers| && s.helpers[n].pc.Notifying?;
          assert s'.helpers[n].pc.Notifying?;
        } else if !Sleepless(s') {
          assert s'.helpers[h].pc.Notifying?;
        }
      }
    }
  }

  // ----- the steps of GC_mark_local around the work

  predicate IsEntry(a: Action) {
    a.Start? || a.Close? || a.Renumber? || a.Join? || a.Activate?
  }

  predicate IsCopy(a: Action) {
    a.GiveBack? || a.Share?
  }

  predicate IsWork(a: Action) {
    a.ReadDescr? || a.ClearDescr? || a.Halve? || a.Take? || a.Scan? || a.SetMark?
  }

  predicate IsControl(a: Action) {
    a.Activate? || a.LoadFirst? || a.MoveFirst? || a.LoadTop? || a.ReadDescr? || a.Finish?
  }

  /** A step in the control of one helper: only its program counter and its first entry change, besides
      GC_first_nonempty and the count of active helpers. */
  predicate Controls(s: State, s': State, h: nat, hp: Helper) {
    && Quietly(s, s', h, hp)
    && HelperOk(s.slots, hp) && Clear(s.slots, s'.first) && s.first <= s'.first && !hp.pc.Setting?
    && (hp.pc.Zero? ==> hp.pc.p < |s.slots| && s.slots[hp.pc.p].len == hp.pc.len > 0)
    && IsMember(s.helpers[h].pc) && IsMember(hp.pc) && IsActive(hp.pc) && !hp.pc.Notifying? && !s.helpers[h].pc.Notifying?
    && s'.active == s.active + (if IsActive(s.helpers[h].pc) then 0 else 1)
    && s'.helperCount == s.helperCount && s'.left == s.left
    && (Busy(hp) ==> Busy(s.helpers[h]) || !Clear(s.slots, |s.slots|))
  }

  lemma ControlStep(s: State, a: Action)
    requires Inv(s) && Enabled(s, a) && IsControl(a)
    ensures Inv(Do(s, a))
  {
    hide Cover, Bounded, Quiet, NoLostWakeup, Counts, CanPrepare, Clear, Do, PcOk, Busy;
    var hp := ControlMove(s, a);
    ControlKeeps(s, Do(s, a), a.h, hp);
  }

  lemma ControlKeeps(s: State, s': State, h: nat, hp: Helper)
    requires Inv(s) && Controls(s, s', h, hp)
    ensures Inv(s')
  {
    hide Cover, Bounded, NoLostWakeup, Counts, Clear, PcOk, Busy;
    QuietStep(s, s', h, hp);
    MovedCounts(s, s', h, hp);
    MovedWake(s, s', h, hp);
    MovedQuiet(s, s', h, hp);
  }

  lemma ControlMove(s: State, a: Action) returns (hp: Helper)
    requires AllOk(s) && Enabled(s, a) && IsControl(a)
    ensures Controls(s, Do(s, a), a.h, hp)
  {
    hide CanPrepare;
    hp := Do(s, a).helpers[a.h];
    if a.MoveFirst? { MoveFirstIs(s, a.h); }
    else if a.ReadDescr? { ReadDescrIs(s, a.h); }
    else { OtherControl(s, a); }
    hide Do, Controls;
  }

  lemma MoveFirstIs(s: State, h: nat)
    requires AllOk(s) && Enabled(s, MoveFirst(h))
    ensures Controls(s, Do(s, MoveFirst(h)), h, Do(s, MoveFirst(h)).helpers[h])
  {
    hide CanPrepare;
    assert HelperOk(s.slots, s.helpers[h]);
  }

  lemma ReadDescrIs(s: State, h: nat)
    requires AllOk(s) && Enabled(s, ReadDescr(h))
    ensures Controls(s, Do(s, ReadDescr(h)), h, Do(s, ReadDescr(h)).helpers[h])
  {
    hide CanPrepare;
    assert HelperOk(s.slots, s.helpers[h]);
  }

  lemma OtherControl(s: State, a: Action)
    requires AllOk(s) && Enabled(s, a) && (a.Activate? || a.LoadFirst? || a.LoadTop? || a.Finish?)
    ensures Controls(s, Do(s, a), a.h, Do(s, a).helpers[a.h])
  {
    hide CanPrepare;
    assert HelperOk(s.slots, s.helpers[a.h]);
  }

  // Going to sleep, waking up and looking again at the wait condition.
  lemma WaitStep(s: State, a: Action)
    requires Inv(s) && Enabled(s, a)
    requires a.TestWait? || (a.LookAgain? && |s.slots| != s.helpers[a.h].first) || (a.Decide? && !(s.active == 0 && s.first >= |s.slots|))
    ensures Inv(Do(s, a))
  {
    hide Cover, Bounded, Quiet, NoLostWakeup, Counts, CanPrepare;
    var h, s' := a.h, Do(s, a);
    var hp := s'.helpers[h];
    assert HelperOk(s.slots, s.helpers[h]);
    QuietStep(s, s', h, hp);
    MovedCounts(s, s', h, hp);
    MovedWake(s, s', h, hp);
    assert Busy(hp) == Busy(s.helpers[h]) == false;
    MovedQuiet(s, s', h, hp);
  }

  // Becoming inactive; the last helper to do so wakes the others.
  lemma GiveUpStep(s: State, h: nat)
    requires Inv(s) && Enabled(s, LookAgain(h)) && |s.slots| == s.helpers[h].first
    ensures Inv(Do(s, LookAgain(h)))
  {
    hide Cover, Bounded, Quiet, NoLostWakeup, CanPrepare, Counts;
    ActiveCounted(s, h);
    var hp := s.helpers[h].(pc := Waiting);
    var r := Put(s, h, hp).(active := s.active - 1);
    assert HelperOk(s.slots, s.helpers[h]);
    QuietStep(s, r, h, hp);
    MovedCounts(s, r, h, hp);
    assert !Busy(hp);
    MovedQuiet(s, r, h, hp);
    if r.active == 0 {
      WakeAllKeeps(r, Do(s, LookAgain(h)));
    } else {
      MovedWake(s, r, h, hp);
    }
  }

  lemma ActiveCounted(s: State, h: nat)
    requires Counts(s) && h < |s.helpers|
    ensures IsActive(s.helpers[h].pc) ==> s.active > 0
    ensures IsMember(s.helpers[h].pc) ==> s.helperCount > 0
  {
    assert IsActive(s.helpers[h].pc) ==> h in Actives(s.helpers);
    assert IsMember(s.helpers[h].pc) ==> h in Members(s.helpers);
  }

  lemma NoneActive(s: State)
    requires Counts(s) && AllOk(s) && s.active == 0
    ensures forall h: nat | h < |s.helpers| :: !IsActive(s.helpers[h].pc) && !Busy(s.helpers[h])
  {
    hide Clear;
    forall h: nat | h < |s.helpers| ensures !IsActive(s.helpers[h].pc) && !Busy(s.helpers[h]) {
      assert HelperOk(s.slots, s.helpers[h]);
      ActiveCounted(s, h);
    }
  }

  // A helper leaves GC_mark_local.  At that moment all stacks are empty.
  lemma LeaveStep(s: State, h: nat)
    requires Inv(s) && Enabled(s, Decide(h)) && s.active == 0 && s.first >= |s.slots|
    ensures Inv(Do(s, Decide(h)))
    ensures Clear(s.slots, |s.slots|)
    ensures forall g: nat | g < |s.helpers| :: s.helpers[g].local == [] && s.helpers[g].words == {}
  {
    hide Cover, Bounded, NoLostWakeup, CanPrepare;
    NoneActive(s);
    var s' := Do(s, Decide(h));
    var hp := s'.helpers[h];
    assert HelperOk(s.slots, s.helpers[h]);
    QuietStep(s, s', h, hp);
    LeaveCounts(s, h);
    MovedWake(s, s', h, hp);
  }

  lemma LeaveCounts(s: State, h: nat)
    requires Counts(s) && Enabled(s, Decide(h)) && s.active == 0 && s.first >= |s.slots|
    ensures Counts(Do(s, Decide(h)))
  {
    hide CanPrepare;
    var s' := Do(s, Decide(h));
    ActiveCounted(s, h);
    MovedSets(s.helpers, h, s'.helpers[h]);
    assert h in Members(s.helpers) && h !in Actives(s.helpers);
    assert Actives(s'.helpers) == Actives(s.helpers);
    assert |Members(s'.helpers)| == |Members(s.helpers)| - 1;
  }

  // ----- joining, starting and finishing a phase

  lemma OutsideStep(s: State, a: Action)
    requires Inv(s) && Enabled(s, a)
    requires a.Renumber? || a.Join?
    ensures Inv(Do(s, a))
  {
    hide Cover, Bounded, NoLostWakeup, CanPrepare, Counts;
    var h, s' := a.h, Do(s, a);
    var hp := s'.helpers[h];
    assert HelperOk(s.slots, s.helpers[h]);
    assert Busy(hp) == Busy(s.helpers[h]);
    QuietStep(s, s', h, hp);
    OutsideCounts(s, a);
    MovedWake(s, s', h, hp);
  }

  lemma OutsideCounts(s: State, a: Action)
    requires Counts(s) && Enabled(s, a)
    requires a.Renumber? || a.Join?
    ensures Counts(Do(s, a))
  {
    hide CanPrepare, Counts;
    if a.Renumber? {
      RenumberCounts(s, Do(s, a), a.h, s.markNo);
    } else if s.markNo != s.helpers[a.h].no || s.helperCount >= s.markers {
      RenumberCounts(s, Do(s, a), a.h, s.helpers[a.h].no + 1);
    } else {
      JoinCounts(s, Do(s, a), a.h);
    }
  }

  lemma RenumberCounts(s: State, s': State, h: nat, no: nat)
    requires Counts(s) && 0 < h < |s.helpers| && s.helpers[h].pc.Outside? && s' == Put(s, h, s.helpers[h].(no := no))
    ensures Counts(s')
  {
    MovedSets(s.helpers, h, s'.helpers[h]);
    NotCounted(s, h);
    hide Actives, Members;
    assert Actives(s'.helpers) == Actives(s.helpers);
    assert Members(s'.helpers) == Members(s.helpers);
  }

  lemma JoinCounts(s: State, s': State, h: nat)
    requires Counts(s) && 0 < h < |s.helpers| && s.helpers[h].pc.Outside?
    requires s' == Put(s, h, s.helpers[h].(pc := Joining)).(helperCount := s.helperCount + 1)
    requires s.helpWanted
    ensures Counts(s')
  {
    MovedSets(s.helpers, h, s'.helpers[h]);
    NotCounted(s, h);
    hide Actives, Members;
    assert Actives(s'.helpers) == Actives(s.helpers);
  }

  lemma NotCounted(s: State, h: nat)
    requires h < |s.helpers| && s.helpers[h].pc.Outside?
    ensures h !in Members(s.helpers) && h !in Actives(s.helpers)
  {
  }

  // No helper is inside while no phase is under way.
  lemma NobodyInside(s: State)
    requires Counts(s) && s.helperCount == 0
    ensures forall h: nat | h < |s.helpers| :: s.helpers[h].pc.Outside?
    ensures Actives(s.helpers) == {} == Members(s.helpers) && s.active == 0
  {
    forall h: nat | h < |s.helpers| ensures s.helpers[h].pc.Outside? {
      ActiveCounted(s, h);
    }
  }

  lemma StartStep(s: State)
    requires Inv(s) && Enabled(s, Start)
    ensures Inv(Do(s, Start))
  {
    hide Cover, Bounded, NoLostWakeup, CanPrepare;
    NobodyInside(s);
    NoneActive(s);
    var s' := Do(s, Start);
    var hp := s'.helpers[0];
    StartRest(s);
    MovedSets(s.helpers, 0, hp);
    assert Members(s'.helpers) == {0};
    assert Actives(s'.helpers) == {};
    assert forall h: nat | h < |s'.helpers| :: HelperOk(s'.slots, s'.helpers[h]);
    assert NoLostWakeup(s') by {
      assert forall h: nat | h < |s'.helpers| :: s'.helpers[h].pc.Outside? || s'.helpers[h].pc.Joining?;
      NobodySleeps(s');
    }
  }

  lemma NobodySleeps(s: State)
    requires forall h: nat | h < |s.helpers| :: !s.helpers[h].pc.Asleep?
    ensures NoLostWakeup(s)
  {
  }

  lemma StartRest(s: State)
    requires Inv(s) && Enabled(s, Start)
    ensures Cover(Do(s, Start)) && Bounded(Do(s, Start))
  {
    hide NoLostWakeup, CanPrepare, Clear, Counts;
    var s' := Do(s, Start);
    var hp := s'.helpers[0];
    ZeroInRange(s);
    MovedCover(s, s', 0, hp);
    assert HelperBound(s, s.helpers[0]);
    MovedBound(s, s', 0, hp);
  }

  lemma EndStep(s: State, a: Action)
    requires Inv(s) && Enabled(s, a) && (a.Close? || a.End?)
    ensures Inv(Do(s, a))
  {
    hide CanPrepare, HelperOk, Clear, Leads, RootTargets, LiveRoots, Closed, Busy;
    var s' := Do(s, a);
    assert Cover(s') by { assert forall r: Src, k: nat | Queued(s, r, k) :: Queued(s', r, k); }
    forall h: nat | h < |s'.helpers| ensures HelperBound(s', s'.helpers[h]) {
      assert HelperBound(s, s.helpers[h]);
    }
    assert NoLostWakeup(s');
  }

  lemma PrepareStep(s: State, a: Action)
    requires Inv(s) && Enabled(s, a) && a.Prepare?
    ensures Inv(Do(s, a))
  {
    hide Leads, RootTargets, LiveRoots, Closed, MI.OnStack;
    var s' := Do(s, a);
    NobodyInside(s);
    NoneActive(s);
    NobodySleeps(s');
    PrepareCover(s, a);
    forall h: nat | h < |s'.helpers| ensures HelperOk(s'.slots, s'.helpers[h]) && HelperBound(s', s'.helpers[h]) {
      assert HelperOk(s.slots, s.helpers[h]);
      assert !Busy(s.helpers[h]);
      NotBusy(s'.helpers[h]);
    }
  }

  lemma NotBusy(hp: Helper)
    requires !Busy(hp)
    ensures forall r: Src, k: nat :: !InHelper(hp, r, k)
  {
  }

  lemma PrepareCover(s: State, a: Action)
    requires Enabled(s, a) && a.Prepare?
    ensures Cover(Do(s, a))
  {
    hide MI.OnStack;
    var s' := Do(s, a);
    assert forall r: Src, k: nat | MI.OnStack(s'.slots, r, k) :: Queued(s', r, k);
  }

  // ----- the work

  // What a helper does to its own stack and hand, without touching anything shared.
  lemma OwnStep(s: State, s': State, h: nat, hp: Helper)
    requires Inv(s) && h < |s.helpers| && s' == Put(s, h, hp)
    requires IsActive(s.helpers[h].pc) && IsActive(hp.pc) && !s.helpers[h].pc.Notifying? && !hp.pc.Zero?
    requires HelperOk(s.slots, hp) && (Busy(s.helpers[h]) || !Busy(hp)) && (hp.pc.Setting? ==> Leads(s.m, hp.src, hp.pc.k))
    requires forall r: Src, k: nat :: InHelper(s.helpers[h], r, k) && Loose(s, r, k) ==> InHelper(hp, r, k)
    requires forall r: Src, k: nat :: InHelper(hp, r, k) ==> InHelper(s.helpers[h], r, k)
    ensures Inv(s')
  {
    hide InHelper, Clear, PcOk, Leads, RootTargets, LiveRoots, Closed, Busy, MI.OnStack;
    ZeroInRange(s);
    MovedOk(s, s', h, hp);
    MovedCover(s, s', h, hp);
    assert HelperBound(s, s.helpers[h]);
    MovedBound(s, s', h, hp);
    MovedCounts(s, s', h, hp);
    MovedWake(s, s', h, hp);
    MovedQuiet(s, s', h, hp);
  }

  lemma ScanStep(s: State, h: nat, k: nat)
    requires Inv(s) && Enabled(s, Scan(h, k))
    ensures Inv(Do(s, Scan(h, k)))
  {
    hide Cover, Bounded, Quiet, NoLostWakeup, Counts, Clear, CanPrepare;
    var s' := Do(s, Scan(h, k));
    assert HelperOk(s.slots, s.helpers[h]);
    OwnStep(s, s', h, s'.helpers[h]);
  }

  lemma OnTop(a: seq<Entry>, e: Entry, r: Src, k: nat)
    ensures MI.OnStack(a + [e], r, k) <==> MI.OnStack(a, r, k) || MI.InEntry(e, r, k)
  {
    MI.OnStackAppend(a, [e], r, k);
    assert MI.OnStack([e], r, k) <==> MI.InEntry([e][0], r, k);
  }

  // Taking a piece off the top: what was on the stack is on it still, or in hand.
  lemma TakeKeeps(local: seq<Entry>, r: Src, k: nat)
    requires |local| > 0
    ensures var e := local[|local| - 1];
            MI.OnStack(local, r, k) <==> MI.OnStack(Below(local), r, k) || (r == e.src && k in PieceOf(e))
  {
    var e := local[|local| - 1];
    var rest := local[..|local| - 1];
    assert local == rest + [e];
    OnTop(rest, e, r, k);
    if Large(e) {
      OnTop(rest, MI.Entry(e.src, e.start + WORDS_PER_PIECE, e.len - WORDS_PER_PIECE), r, k);
    } else {
      assert rest + [] == rest;
    }
  }

  // Halving the top range leaves the same words on the stack; one of them twice.
  lemma HalveKeeps(local: seq<Entry>, r: Src, k: nat)
    requires |local| > 0 && local[|local| - 1].len > 1
    ensures MI.OnStack(local, r, k) <==> MI.OnStack(Halved(local), r, k)
  {
    var e := local[|local| - 1];
    var rest := local[..|local| - 1];
    var low := MI.Entry(e.src, e.start, e.len / 2 + 1);
    var high := MI.Entry(e.src, e.start + e.len / 2, e.len - e.len / 2);
    assert local == rest + [e];
    OnTop(rest, e, r, k);
    OnTop(rest, low, r, k);
    OnTop(rest + [low], high, r, k);
    assert Halved(local) == rest + [low] + [high];
  }

  lemma TakeStep(s: State, h: nat)
    requires Inv(s) && Enabled(s, Take(h))
    ensures Inv(Do(s, Take(h)))
  {
    hide Cover, Bounded, Quiet, NoLostWakeup, Counts, Clear, CanPrepare, Halves, MI.OnStack, PieceOf;
    var s' := Do(s, Take(h));
    assert HelperOk(s.slots, s.helpers[h]);
    forall r: Src, k: nat ensures InHelper(s.helpers[h], r, k) <==> InHelper(s'.helpers[h], r, k) {
      TakeKeeps(s.helpers[h].local, r, k);
    }
    OwnStep(s, s', h, s'.helpers[h]);
  }

  lemma HalveStep(s: State, h: nat)
    requires Inv(s) && Enabled(s, Halve(h))
    ensures Inv(Do(s, Halve(h)))
  {
    hide Cover, Bounded, Quiet, NoLostWakeup, Counts, Clear, CanPrepare, MI.OnStack;
    var s' := Do(s, Halve(h));
    assert HelperOk(s.slots, s.helpers[h]);
    forall r: Src, k: nat ensures InHelper(s.helpers[h], r, k) <==> InHelper(s'.helpers[h], r, k) {
      HalveKeeps(s.helpers[h].local, r, k);
    }
    OwnStep(s, s', h, s'.helpers[h]);
  }

  // Marking an object: its words are on the local stack, unless that overflowed.
  lemma SetMarkStep(s: State, h: nat)
    requires Inv(s) && Enabled(s, SetMark(h))
    ensures Inv(Do(s, SetMark(h)))
  {
    hide Inv, Do, Enabled, SetsMark;
    SetMarkIs(s, h);
    PushCovers(s, Do(s, SetMark(h)), h);
    SetMarkKeeps(s, Do(s, SetMark(h)), h);
  }

  /** What of a step of setting a mark bit matters for the invariant. */
  ghost predicate SetsMark(s: State, s': State, h: nat) {
    && h < |s.helpers| && |s'.helpers| == |s.helpers|
    && var was, hp := s.helpers[h], s'.helpers[h];
       && was.pc.Setting? && hp.pc.Marking? && HelperOk(s'.slots, hp) && Leads(s.m, was.src, was.pc.k)
       && s' == s.(helpers := s.helpers[h := hp], marked := s.marked + {Target(s.m, was.src, was.pc.k)}, state := s'.state)
       && (s.state.Invalid? ==> s'.state.Invalid?)
  }

  lemma SetMarkIs(s: State, h: nat)
    requires Inv(s) && Enabled(s, SetMark(h))
    ensures SetsMark(s, Do(s, SetMark(h)), h)
  {
    hide Cover, Bounded, Quiet, NoLostWakeup, Counts, Clear, CanPrepare, Leads, Traced;
    assert HelperOk(s.slots, s.helpers[h]);
  }

  lemma SetMarkKeeps(s: State, s': State, h: nat)
    requires Inv(s) && SetsMark(s, s', h)
    requires var t := Target(s.m, s.helpers[h].src, s.helpers[h].pc.k); Pushes(s, s', s.helpers[h], s'.helpers[h], t)
    ensures Inv(s')
  {
    hide Cover, Bounded, Quiet, NoLostWakeup, Counts, Clear, CanPrepare, MI.OnStack, Closed, RootTargets, LiveRoots, Leads, Traced, Sleepless, Loose;
    var was, hp := s.helpers[h], s'.helpers[h];
    assert HelperOk(s.slots, was) && Busy(was);
    var t := Target(s.m, was.src, was.pc.k);
    ZeroInRange(s);
    MovedOk(s, s', h, hp);
    MovedCover(s, s', h, hp);
    PushBounded(s, s', h, hp, t);
    SetMarkRest(s, s', h, hp);
  }

  lemma SetMarkRest(s: State, s': State, h: nat, hp: Helper)
    requires Counts(s) && Quiet(s) && NoLostWakeup(s) && h < |s.helpers| && s.helpers[h].pc.Setting? && hp.pc.Marking? && Busy(s.helpers[h])
    requires s' == s.(helpers := s.helpers[h := hp], marked := s'.marked, state := s'.state)
    ensures Counts(s') && Quiet(s') && NoLostWakeup(s')
  {
    hide Clear, NoLostWakeup, Counts, Busy;
    MovedCounts(s, s', h, hp);
    MovedWake(s, s', h, hp);
    MovedQuiet(s, s', h, hp);
  }

  /** Object t has been marked: its words are in the work of the helper unless that overflowed, and nothing else
      is new there. */
  ghost predicate Pushes(s: State, s': State, was: Helper, hp: Helper, t: Obj) {
    && (s'.state.Invalid? || forall r: Src, k: nat :: InHelper(was, r, k) && Loose(s', r, k) ==> InHelper(hp, r, k))
    && (s'.state.Invalid? || forall k: nat :: Traced(s.m, t) && Leads(s.m, Heap(t), k) ==> InHelper(hp, Heap(t), k))
    && (forall r: Src, k: nat :: InHelper(hp, r, k) ==> InHelper(was, r, k) || (Traced(s.m, t) && r == Heap(t)))
  }

  lemma PushCovers(s: State, s': State, h: nat)
    requires Inv(s) && Enabled(s, SetMark(h)) && s' == Do(s, SetMark(h)) && SetsMark(s, s', h)
    ensures var t := Target(s.m, s.helpers[h].src, s.helpers[h].pc.k); Pushes(s, s', s.helpers[h], s'.helpers[h], t)
  {
    hide CanPrepare, Clear, MI.OnStack, Traced, Cover, Bounded, Quiet, NoLostWakeup, Counts;
    assert HelperOk(s.slots, s.helpers[h]);
    var t, hp := Target(s.m, s.helpers[h].src, s.helpers[h].pc.k), s'.helpers[h];
    var local := s.helpers[h].local;
    if Traced(s.m, t) {
      var e := MI.Entry(Heap(t), 0, |s.m.words[t]|);
      if |local| < LOCAL_MARK_STACK_SIZE {
        forall r: Src, k: nat ensures MI.OnStack(hp.local, r, k) <==> MI.OnStack(local, r, k) || MI.InEntry(e, r, k) {
          OnTop(local, e, r, k);
        }
      } else {
        var rest := local[..|local| - MI.MARK_STACK_DISCARDS];
        forall r: Src, k: nat ensures MI.OnStack(hp.local, r, k) ==> MI.OnStack(local, r, k) || MI.InEntry(e, r, k) {
          OnTop(rest, e, r, k);
          MI.OnStackAppend(rest, local[|rest|..], r, k);
          assert rest + local[|rest|..] == local;
        }
      }
    }
  }

  lemma PushBounded(s: State, s': State, h: nat, hp: Helper, t: Obj)
    requires AllOk(s) && Bounded(s) && h < |s.helpers| && hp.pc.Marking?
    requires s' == s.(helpers := s.helpers[h := hp], marked := s.marked + {t}, state := s'.state)
    requires var was := s.helpers[h]; was.pc.Setting? && Leads(s.m, was.src, was.pc.k) && t == Target(s.m, was.src, was.pc.k)
    requires forall r: Src, k: nat :: InHelper(hp, r, k) ==> InHelper(s.helpers[h], r, k) || (Traced(s.m, t) && r == Heap(t))
    ensures Bounded(s')
  {
    hide Clear, MI.OnStack, RootTargets, LiveRoots, Traced;
    var was := s.helpers[h];
    assert HelperOk(s.slots, was) && HelperBound(s, was);
    assert InHelper(was, was.src, was.pc.k);
    assert t in s.bound;
    ZeroInRange(s);
    if Traced(s.m, t) {
      forall k: nat | Leads(s.m, Heap(t), k) ensures Target(s.m, Heap(t), k) in s.bound {
        assert PointsTo(s.m, Heap(t), k, Target(s.m, Heap(t), k));
        assert Edge(s.m, t, Target(s.m, Heap(t), k));
      }
    }
    assert HelperBound(s', hp);
    MovedBound(s, s', h, hp);
  }

  // Clearing a descriptor: the helper that does so has the entry, even if another one got it too.
  lemma ClearStep(s: State, h: nat)
    requires Inv(s) && Enabled(s, ClearDescr(h))
    ensures Inv(Do(s, ClearDescr(h)))
  {
    hide Cover, Bounded, Quiet, NoLostWakeup, Counts, CanPrepare, MI.OnStack, Closed, RootTargets, LiveRoots, Leads, Sleepless;
    var s' := Do(s, ClearDescr(h));
    var was, hp := s.helpers[h], s'.helpers[h];
    assert HelperOk(s.slots, was) && Busy(was);
    ZeroInRange(s);
    MovedOk(s, s', h, hp);
    ClearMoves(s, s', h, hp);
    MovedCover(s, s', h, hp);
    ClearBounded(s, s', h, hp);
    ClearRest(s, s', h, hp);
  }

  lemma ClearRest(s: State, s': State, h: nat, hp: Helper)
    requires Counts(s) && Quiet(s) && NoLostWakeup(s) && h < |s.helpers| && s.helpers[h].pc.Zero? && hp.pc.Steal? && Busy(s.helpers[h])
    requires s' == s.(helpers := s.helpers[h := hp], slots := s'.slots) && |s'.slots| == |s.slots|
    ensures Counts(s') && Quiet(s') && NoLostWakeup(s')
  {
    hide Clear, NoLostWakeup, Counts;
    MovedCounts(s, s', h, hp);
    MovedWake(s, s', h, hp);
  }

  lemma ClearMoves(s: State, s': State, h: nat, hp: Helper)
    requires Enabled(s, ClearDescr(h)) && HelperOk(s.slots, s.helpers[h]) && s' == Do(s, ClearDescr(h)) && hp == s'.helpers[h]
    ensures forall r: Src, k: nat :: MI.OnStack(s.slots, r, k) ==> MI.OnStack(s'.slots, r, k) || InHelper(hp, r, k)
    ensures forall r: Src, k: nat :: InHelper(s.helpers[h], r, k) ==> InHelper(hp, r, k)
    ensures forall r: Src, k: nat :: MI.OnStack(s'.slots, r, k) ==> MI.OnStack(s.slots, r, k)
    ensures forall r: Src, k: nat :: InHelper(hp, r, k) ==>
              InHelper(s.helpers[h], r, k) || MI.InEntry(s.slots[s.helpers[h].pc.p].(len := s.helpers[h].pc.len), r, k)
  {
    hide CanPrepare, Clear;
    var was := s.helpers[h];
    var p := was.pc.p;
    var e := s.slots[p].(len := was.pc.len);
    assert hp.local == was.local + [e];
    forall r: Src, k: nat ensures MI.OnStack(hp.local, r, k) <==> MI.OnStack(was.local, r, k) || MI.InEntry(e, r, k) {
      OnTop(was.local, e, r, k);
    }
    forall r: Src, k: nat | MI.OnStack(s.slots, r, k) ensures MI.OnStack(s'.slots, r, k) || InHelper(hp, r, k) {
      var i :| 0 <= i < |s.slots| && MI.InEntry(s.slots[i], r, k);
      if i != p {
        assert MI.InEntry(s'.slots[i], r, k);
      }
    }
    forall r: Src, k: nat | MI.OnStack(s'.slots, r, k) ensures MI.OnStack(s.slots, r, k) {
      var i :| 0 <= i < |s'.slots| && MI.InEntry(s'.slots[i], r, k);
      assert MI.InEntry(s.slots[i], r, k);
    }
  }

  lemma ClearBounded(s: State, s': State, h: nat, hp: Helper)
    requires AllOk(s) && Bounded(s) && Enabled(s, ClearDescr(h)) && HelperOk(s.slots, s.helpers[h])
    requires s' == Do(s, ClearDescr(h)) && hp == s'.helpers[h]
    ensures Bounded(s')
  {
    hide CanPrepare, Clear, MI.OnStack, Closed, RootTargets, LiveRoots, Leads;
    ClearMoves(s, s', h, hp);
    ZeroInRange(s);
    assert HelperBound(s, s.helpers[h]);
    MovedBound(s, s', h, hp);
  }

  /** The first `cut` entries of the local stack of helper h have been copied back, or dropped. */
  predicate CopiesBack(s: State, s': State, h: nat, cut: nat) {
    && h < |s.helpers| && |s'.helpers| == |s.helpers|
    && var was, hp := s.helpers[h], s'.helpers[h];
       && was.pc.Marking? && hp.pc.Notifying? && was.words == {} && was.local != [] && cut <= |was.local|
       && hp == was.(pc := hp.pc, local := was.local[cut..]) && (hp.pc.more || hp.local == [])
       && var r := Returned(s, was.local[..cut]);
          s' == s.(helpers := s.helpers[h := hp], slots := r.slots, state := r.state)
  }

  lemma ReturnIs(s: State, a: Action) returns (cut: nat)
    requires Enabled(s, a) && (a.GiveBack? || a.Share?)
    ensures CopiesBack(s, Do(s, a), a.h, cut)
  {
    var local := s.helpers[a.h].local;
    cut := if a.Share? then (|local| - 1) / 2 else |local|;
    assert local[..|local|] == local && local[|local|..] == [];
  }

  // Copying entries back: they are on the global stack then, or the state is Invalid.
  lemma ReturnStep(s: State, a: Action)
    requires Inv(s) && Enabled(s, a) && (a.GiveBack? || a.Share?)
    ensures Inv(Do(s, a))
  {
    hide Inv, CopiesBack, Do, Enabled;
    var cut := ReturnIs(s, a);
    ReturnKeeps(s, Do(s, a), a.h, cut);
  }

  lemma ReturnKeeps(s: State, s': State, h: nat, cut: nat)
    requires Inv(s) && CopiesBack(s, s', h, cut)
    ensures Inv(s')
  {
    hide Cover, Bounded, Quiet, NoLostWakeup, Counts, CanPrepare, MI.OnStack, Closed, RootTargets, LiveRoots, Leads, Sleepless;
    var was, hp := s.helpers[h], s'.helpers[h];
    assert HelperOk(s.slots, was) && Busy(was);
    ZeroInRange(s);
    MovedOk(s, s', h, hp);
    ReturnMoves(s, s', was, hp, cut);
    MovedCover(s, s', h, hp);
    ReturnBounded(s, s', h, hp);
    ReturnRest(s, s', h, hp);
  }

  lemma ReturnMoves(s: State, s': State, was: Helper, hp: Helper, cut: nat)
    requires cut <= |was.local| && hp == was.(pc := hp.pc, local := was.local[cut..])
    requires s'.slots == Returned(s, was.local[..cut]).slots && s'.state == Returned(s, was.local[..cut]).state
    ensures s'.state.Invalid? || forall r: Src, k: nat :: InHelper(was, r, k) ==> InHelper(hp, r, k) || MI.OnStack(s'.slots, r, k)
    ensures forall r: Src, k: nat :: MI.OnStack(s.slots, r, k) ==> MI.OnStack(s'.slots, r, k)
    ensures forall r: Src, k: nat :: MI.OnStack(s'.slots, r, k) ==> MI.OnStack(s.slots, r, k) || InHelper(was, r, k)
    ensures forall r: Src, k: nat :: InHelper(hp, r, k) ==> InHelper(was, r, k)
  {
    hide MI.OnStack;
    var gift, rest := was.local[..cut], was.local[cut..];
    assert gift + rest == was.local;
    forall r: Src, k: nat
      ensures MI.OnStack(was.local, r, k) <==> MI.OnStack(gift, r, k) || MI.OnStack(rest, r, k)
      ensures MI.OnStack(s.slots + gift, r, k) <==> MI.OnStack(s.slots, r, k) || MI.OnStack(gift, r, k)
    {
      MI.OnStackAppend(gift, rest, r, k);
      MI.OnStackAppend(s.slots, gift, r, k);
    }
  }

  lemma ReturnBounded(s: State, s': State, h: nat, hp: Helper)
    requires AllOk(s) && Bounded(s) && h < |s.helpers| && hp.pc.Notifying? && Later(s.slots, s'.slots)
    requires s' == s.(helpers := s.helpers[h := hp], slots := s'.slots, state := s'.state)
    requires forall r: Src, k: nat :: MI.OnStack(s'.slots, r, k) ==> MI.OnStack(s.slots, r, k) || InHelper(s.helpers[h], r, k)
    requires forall r: Src, k: nat :: InHelper(hp, r, k) ==> InHelper(s.helpers[h], r, k)
    ensures Bounded(s')
  {
    hide Clear, MI.OnStack, Closed, RootTargets, LiveRoots, Leads, InHelper;
    ZeroInRange(s);
    assert HelperBound(s, s.helpers[h]);
    MovedBound(s, s', h, hp);
  }

  lemma ReturnRest(s: State, s': State, h: nat, hp: Helper)
    requires Counts(s) && Quiet(s) && NoLostWakeup(s) && h < |s.helpers| && s.helpers[h].pc.Marking? && hp.pc.Notifying? && Busy(s.helpers[h])
    requires s' == s.(helpers := s.helpers[h := hp], slots := s'.slots, state := s'.state)
    ensures Counts(s') && Quiet(s') && NoLostWakeup(s')
  {
    hide Clear, NoLostWakeup, Counts, Sleepless, Busy;
    MovedCounts(s, s', h, hp);
    MovedWake(s, s', h, hp);
  }

  lemma NotifyStep(s: State, h: nat)
    requires Inv(s) && Enabled(s, Notify(h))
    ensures Inv(Do(s, Notify(h)))
  {
    hide Cover, Bounded, Quiet, NoLostWakeup, Counts, CanPrepare;
    var r := Put(s, h, s.helpers[h].(pc := if s.helpers[h].pc.more then Marking else ReadFirst));
    assert HelperOk(s.slots, s.helpers[h]);
    QuietStep(s, r, h, r.helpers[h]);
    MovedCounts(s, r, h, r.helpers[h]);
    assert Busy(r.helpers[h]) == Busy(s.helpers[h]);
    NotifyQuiet(s, r, h, r.helpers[h]);
    WakeAllKeeps(r, Do(s, Notify(h)));
  }

  lemma NotifyQuiet(s: State, r: State, h: nat, hp: Helper)
    requires Quiet(s) && h < |s.helpers| && r == Put(s, h, hp) && Busy(hp) == Busy(s.helpers[h])
    ensures Quiet(r)
  {
    hide Busy, Clear;
  }

  lemma StepKeepsInv(s: State, a: Action)
    requires Inv(s) && Enabled(s, a)
    ensures Inv(Do(s, a))
  {
    hide Inv, Do, Enabled;
    if a.Prepare? { PrepareStep(s, a); }
    else if a.Start? { StartStep(s); }
    else if a.Close? || a.End? { EndStep(s, a); }
    else if a.Renumber? || a.Join? { OutsideStep(s, a); }
    else { HelperStep(s, a); }
  }

  lemma HelperStep(s: State, a: Action)
    requires Inv(s) && Enabled(s, a)
    requires !a.Prepare? && !a.Start? && !a.Close? && !a.End? && !a.Renumber? && !a.Join?
    ensures Inv(Do(s, a))
  {
    hide Inv, Do, CanPrepare;
    if IsControl(a) { ControlStep(s, a); }
    else if a.TestWait? { WaitStep(s, a); }
    else if a.LookAgain? { if |s.slots| == s.helpers[a.h].first { GiveUpStep(s, a.h); } else { WaitStep(s, a); } }
    else if a.Decide? { if s.active == 0 && s.first >= |s.slots| { LeaveStep(s, a.h); } else { WaitStep(s, a); } }
    else if a.ClearDescr? { ClearStep(s, a.h); }
    else if a.Halve? { HalveStep(s, a.h); }
    else if a.Take? { TakeStep(s, a.h); }
    else if a.Scan? { ScanStep(s, a.h, a.k); }
    else if a.SetMark? { SetMarkStep(s, a.h); }
    else if a.Notify? { NotifyStep(s, a.h); }
    else { ReturnStep(s, a); }
  }

  // ----- runs

  ghost predicate Legal(s: State, run: seq<Action>)
    decreases |run|
  {
    run == [] || (Enabled(s, run[0]) && Legal(Do(s, run[0]), run[1..]))
  }

  ghost function After(s: State, run: seq<Action>): State
    requires Legal(s, run)
    decreases |run|
  {
    if run == [] then s else After(Do(s, run[0]), run[1..])
  }

  lemma {:induction false} RunKeepsInv(s: State, run: seq<Action>)
    requires Inv(s) && Legal(s, run)
    ensures Inv(After(s, run))
    decreases |run|
  {
    hide Inv, Do, Enabled;
    if run != [] {
      StepKeepsInv(s, run[0]);
      RunKeepsInv(Do(s, run[0]), run[1..]);
    }
  }

  // In every reachable state, a word of a marked object or of a root that leads to an unmarked object
  // is in a global entry at or above GC_first_nonempty that nobody has stolen, or in the local work of
  // an active helper, or the state is Invalid.
  lemma NothingIsLost(s0: State, run: seq<Action>, r: Src, k: nat)
    requires Initial(s0) && Legal(s0, run)
    requires var s := After(s0, run); IsSource(s.m, s.marked, r) && Loose(s, r, k) && (r, k) !in s.lapsed
    ensures var s := After(s0, run);
            || s.state.Invalid?
            || (exists i :: s.first <= i < |s.slots| && MI.InEntry(s.slots[i], r, k))
            || exists h: nat :: h < |s.helpers| && IsActive(s.helpers[h].pc) && InHelper(s.helpers[h], r, k)
  {
    hide Initial, Bounded, Counts, Quiet, NoLostWakeup;
    InitialInv(s0);
    RunKeepsInv(s0, run);
    var s := After(s0, run);
    if !s.state.Invalid? {
      assert Queued(s, r, k);
      if MI.OnStack(s.slots, r, k) {
        var i :| 0 <= i < |s.slots| && MI.InEntry(s.slots[i], r, k);
        assert s.first <= i;
      } else {
        var h: nat :| h < |s.helpers| && InHelper(s.helpers[h], r, k);
        assert HelperOk(s.slots, s.helpers[h]);
      }
    }
  }

  // A helper leaves only when every stack is empty, the global one and those of all helpers.
  lemma LeavesWhenDone(s0: State, run: seq<Action>, h: nat)
    requires Initial(s0) && Legal(s0, run) && Enabled(After(s0, run), Decide(h))
    requires Do(After(s0, run), Decide(h)).helpers[h].pc.Outside?
    ensures var s := After(s0, run);
            && (forall i | 0 <= i < |s.slots| :: s.slots[i].len == 0)
            && (forall g: nat | g < |s.helpers| :: s.helpers[g].local == [] && s.helpers[g].words == {})
  {
    hide Initial, Inv;
    InitialInv(s0);
    RunKeepsInv(s0, run);
    LeaveStep(After(s0, run), h);
  }

  // When GC_do_parallel_mark ends and no work was dropped, everything reachable from the roots and
  // from what was marked before is marked, and nothing outside the bound is.  Words that had lapsed before
  // may or may not have been followed.
  lemma PhaseIsComplete(s0: State, run: seq<Action>)
    requires Initial(s0) && Legal(s0, run)
    requires var s := After(s0, run); Enabled(s, End) && !s.state.Invalid?
    ensures var s := After(s0, run); ReachSet(MI.Live(s.m, s.lapsed), s.seeds) <= s.marked <= s.bound
    ensures var s := After(s0, run); s.bound == ReachSet(MI.Live(s.m, s.lapsed), s.seeds) ==> s.marked == s.bound
  {
    hide Initial, NoLostWakeup;
    InitialInv(s0);
    RunKeepsInv(s0, run);
    var s := After(s0, run);
    NothingQueued(s);
    AllMarked(s);
  }

  lemma NothingQueued(s: State)
    requires Quiet(s) && s.left
    ensures forall r: Src, k: nat :: !Queued(s, r, k)
  {
    forall h: nat | h < |s.helpers| ensures forall r: Src, k: nat :: !InHelper(s.helpers[h], r, k) {
      NotBusy(s.helpers[h]);
    }
  }

  lemma MarksAreClosed(s: State)
    requires Cover(s) && !s.state.Invalid? && (forall r: Src, k: nat :: !Queued(s, r, k))
    ensures Closed(MI.Live(s.m, s.lapsed), s.marked) && LiveRoots(s.m, s.lapsed) <= s.marked
  {
    hide Queued, Traced, MI.Live;
    var live := MI.Live(s.m, s.lapsed);
    forall o: Obj, t: Obj | o in s.marked && Edge(live, o, t) ensures t in s.marked {
      MI.LiveTraced(s.m, s.lapsed, o);
      var k: nat :| PointsTo(live, Heap(o), k, t);
      MI.LivePointsTo(s.m, s.lapsed, Heap(o), k, t);
      assert IsSource(s.m, s.marked, Heap(o)) && Leads(s.m, Heap(o), k);
      assert !Loose(s, Heap(o), k);
    }
    forall t | t in RootTargets(live) ensures t in s.marked {
      MI.LiveTraced(s.m, s.lapsed, 0);
      var i: nat, k: nat :| i < |live.roots| && PointsTo(live, InRoot(i), k, t);
      MI.LivePointsTo(s.m, s.lapsed, InRoot(i), k, t);
      assert IsSource(s.m, s.marked, InRoot(i)) && Leads(s.m, InRoot(i), k);
      assert !Loose(s, InRoot(i), k);
    }
  }

  lemma AllMarked(s: State)
    requires Cover(s) && Bounded(s) && !s.state.Invalid? && (forall r: Src, k: nat :: !Queued(s, r, k))
    requires s.seeds <= s.marked + LiveRoots(s.m, s.lapsed)
    ensures ReachSet(MI.Live(s.m, s.lapsed), s.seeds) <= s.marked
  {
    hide Queued, HelperBound, Closed, RootTargets, LiveRoots, MI.Live;
    MarksAreClosed(s);
    ClosedHoldsReachable(MI.Live(s.m, s.lapsed), s.marked, s.seeds);
  }

  // The phase cannot get stuck: until it has ended, some thread that takes part in it has a step, and
  // a sleeping helper that has reason to go on will be woken.
  lemma NotStuck(s0: State, run: seq<Action>) returns (a: Action)
    requires Initial(s0) && Legal(s0, run) && After(s0, run).starter != Resting
    ensures Enabled(After(s0, run), a)
    ensures !a.Prepare? && !a.Start? && !a.Renumber? && !a.Join?
  {
    hide Initial, Inv, Enabled;
    InitialInv(s0);
    RunKeepsInv(s0, run);
    a := NextStep(After(s0, run));
  }

  lemma NextStep(s: State) returns (a: Action)
    requires Inv(s) && s.starter != Resting
    ensures Enabled(s, a)
    ensures !a.Prepare? && !a.Start? && !a.Renumber? && !a.Join?
  {
    hide Cover, Bounded, Quiet, CanPrepare;
    if s.starter.Closing? && s.helperCount == 0 { return End; }
    if s.starter.Started? && s.helpers[0].pc.Outside? { return Close; }
    var h: nat := 0;
    if s.starter.Closing? {
      h :| h in Members(s.helpers);
    }
    if s.helpers[h].pc.Asleep? {
      if Sleepless(s) {
        h :| h in Actives(s.helpers);
      } else {
        h :| h < |s.helpers| && s.helpers[h].pc.Notifying?;
      }
    }
    assert HelperOk(s.slots, s.helpers[h]);
    SettingLeads(s, h);
    a := MemberStep(s, h);
  }

  lemma SettingLeads(s: State, h: nat)
    requires Bounded(s) && h < |s.helpers|
    ensures s.helpers[h].pc.Setting? ==> Leads(s.m, s.helpers[h].src, s.helpers[h].pc.k)
  {
    assert HelperBound(s, s.helpers[h]);
  }

  lemma MemberStep(s: State, h: nat) returns (a: Action)
    requires h < |s.helpers| && IsMember(s.helpers[h].pc) && !s.helpers[h].pc.Asleep?
    requires HelperOk(s.slots, s.helpers[h]) && (s.helpers[h].pc.Setting? ==> Leads(s.m, s.helpers[h].src, s.helpers[h].pc.k))
    ensures Enabled(s, a)
    ensures !a.Prepare? && !a.Start? && !a.Renumber? && !a.Join?
  {
    hide CanPrepare, Leads, Clear;
    var hp := s.helpers[h];
    match hp.pc
    case Joining => a := Activate(h);
    case ReadFirst => a := LoadFirst(h);
    case Advance(_) => a := MoveFirst(h);
    case ReadTop => a := LoadTop(h);
    case Recheck => a := LookAgain(h);
    case Waiting => a := TestWait(h);
    case Woken => a := Decide(h);
    case Steal(_, _, _, _) => a := ReadDescr(h);
    case Zero(_, _, _, _, _) => a := ClearDescr(h);
    case Notifying(_) => a := Notify(h);
    case Setting(k) => a := SetMark(h);
    case Marking =>
      if hp.words != {} {
        var k: nat :| k in hp.words;
        a := Scan(h, k);
      } else if hp.local == [] { a := Finish(h); }
      else if Halves(hp.local) { a := Halve(h); }
      else { a := Take(h); }
  }

  lemma {:induction false} AfterAppend(s: State, run: seq<Action>, a: Action)
    requires Legal(s, run) && Enabled(After(s, run), a)
    ensures Legal(s, run + [a]) && After(s, run + [a]) == Do(After(s, run), a)
    decreases |run|
  {
    hide Do, Enabled;
    if run == [] {
      assert (run + [a])[1..] == [];
    } else {
      AfterAppend(Do(s, run[0]), run[1..], a);
      assert (run + [a])[1..] == run[1..] + [a];
    }
  }

  lemma Steps(s: State, run: seq<Action>, s1: State, a: Action, s2: State)
    requires Legal(s, run) && After(s, run) == s1 && Enabled(s1, a) && Do(s1, a) == s2
    ensures Legal(s, run + [a]) && After(s, run + [a]) == s2
  {
    hide Do, Enabled;
    AfterAppend(s, run, a);
  }

  // GC_active_count does not stay zero once it has returned to zero: a helper that was counted before may
  // become active later, although it will find no work.  The first one has left, and with it the mark lock.
  lemma ActiveCountRises(s0: State) returns (run: seq<Action>, late: Action)
    requires Initial(s0) && |s0.helpers| == 2 && s0.markers >= 2 && s0.markNo == s0.helpers[1].no
    ensures Legal(s0, run) && After(s0, run).active == 0 && |After(s0, run).helpers| == 2
    ensures After(s0, run).helpers[0].pc.Outside?
    ensures Enabled(After(s0, run), late) && Do(After(s0, run), late).active == 1
  {
    hide Legal, CanPrepare, RootTargets, LiveRoots;
    var idle := s0.helpers[0];
    var s1 := Do(s0, Start);
    var s2 := Do(s1, Join(1));
    var s3 := Do(s2, Activate(0));
    assert Legal(s0, []) && After(s0, []) == s0 by { NoSteps(s0); }
    Steps(s0, [], s0, Start, s1);
    Steps(s0, [] + [Start], s1, Join(1), s2);
    Steps(s0, [] + [Start] + [Join(1)], s2, Activate(0), s3);
    assert s3.active == 1 && s3.first == 0 && s3.slots == [] && s3.helpers[0] == idle.(pc := ReadFirst, first := 0) && s3.helpers[1].pc.Joining?;
    var tail := GiveUp(s0, [] + [Start] + [Join(1)] + [Activate(0)], s3);
    run, late := tail, Activate(1);
  }

  lemma NoSteps(s: State)
    ensures Legal(s, []) && After(s, []) == s
  {
  }

  lemma GiveUp(s0: State, before: seq<Action>, s: State) returns (run: seq<Action>)
    requires Legal(s0, before) && After(s0, before) == s && s.active == 1 && |s.helpers| == 2
    requires s.first == 0 && s.slots == [] && s.helpers[0].pc.ReadFirst? && s.helpers[0].first == 0 && s.helpers[1].pc.Joining?
    ensures Legal(s0, run) && After(s0, run).active == 0 && |After(s0, run).helpers| == 2
    ensures After(s0, run).helpers[0].pc.Outside? && After(s0, run).helpers[1].pc.Joining?
  {
    hide Legal, CanPrepare;
    var s1 := Do(s, LoadFirst(0));
    var s2 := Do(s1, MoveFirst(0));
    var s3 := Do(s2, LoadTop(0));
    Steps(s0, before, s, LoadFirst(0), s1);
    Steps(s0, before + [LoadFirst(0)], s1, MoveFirst(0), s2);
    Steps(s0, before + [LoadFirst(0)] + [MoveFirst(0)], s2, LoadTop(0), s3);
    run := LeaveLast(s0, before + [LoadFirst(0)] + [MoveFirst(0)] + [LoadTop(0)], s3);
  }

  // The region under the mark lock: the helper sees the empty stack again, does not wait, and leaves.
  lemma LeaveLast(s0: State, before: seq<Action>, s: State) returns (run: seq<Action>)
    requires Legal(s0, before) && After(s0, before) == s && s.active == 1 && |s.helpers| == 2
    requires s.first == 0 && s.slots == [] && s.helpers[0].pc.Recheck? && s.helpers[0].first == 0 && s.helpers[1].pc.Joining?
    ensures Legal(s0, run) && After(s0, run).active == 0 && |After(s0, run).helpers| == 2
    ensures After(s0, run).helpers[0].pc.Outside? && After(s0, run).helpers[1].pc.Joining?
  {
    hide Legal, CanPrepare;
    var s1 := Do(s, LookAgain(0));
    var s2 := Do(s1, TestWait(0));
    var s3 := Do(s2, Decide(0));
    Steps(s0, before, s, LookAgain(0), s1);
    Steps(s0, before + [LookAgain(0)], s1, TestWait(0), s2);
    Steps(s0, before + [LookAgain(0)] + [TestWait(0)], s2, Decide(0), s3);
    run := before + [LookAgain(0)] + [TestWait(0)] + [Decide(0)];
  }
}
