// When GC_active_count has returned to zero in a phase of parallel marking, does it stay zero?

module ActiveCount {
  import opened ParallelMark

  /** The count stays zero however the phase goes on. */
  ghost predicate StaysZero(s: State) {
    forall run: seq<Action> :: Legal(s, run) && Within(run) ==> After(s, run).active == 0
  }

  /** The run does not go beyond the end of the phase. */
  predicate Within(run: seq<Action>) {
    forall i | 0 <= i < |run| :: !run[i].End?
  }

  predicate Inside(p: Pc) {
    p.Waiting? || p.Asleep? || p.Woken?
  }

  /** A thread outside whose number of the phase is the present one, or will be when it has been resynchronized. */
  predicate CanCome(s: State, h: nat) {
    0 < h < |s.helpers| && s.helpers[h].pc.Outside? && (s.helpers[h].no == s.markNo || FarOff(s, s.helpers[h].no))
  }

  /** Nobody is about to become active, nobody can still join the phase, and nobody inside will see that there
      is something on the global stack. */
  predicate Over(s: State) {
    && (forall h | 0 <= h < |s.helpers| :: !s.helpers[h].pc.Joining?)
    && !(s.helpWanted && s.markers > 0 && exists h: nat :: h < |s.helpers| && CanCome(s, h))
    && (s.first >= |s.slots| || forall h | 0 <= h < |s.helpers| :: !Inside(s.helpers[h].pc))
  }

  /** Helpers that take part have the number of the phase. */
  predicate Numbered(s: State) {
    forall h | 0 < h < |s.helpers| :: IsMember(s.helpers[h].pc) ==> s.helpers[h].no == s.markNo
  }

  predicate NumberKept(s: State, s': State, h: nat) {
    && s'.markNo == s.markNo && |s'.helpers| == |s.helpers| && h < |s.helpers|
    && (IsMember(s'.helpers[h].pc) ==>
          s'.helpers[h].no == s.helpers[h].no && (IsMember(s.helpers[h].pc) || s.helpers[h].no == s.markNo || h == 0))
    && forall g: nat | g < |s.helpers| && g != h :: s'.helpers[g] == s.helpers[g] || s'.helpers[g] == Wake(s.helpers[g])
  }

  lemma StepNumbers(s: State, a: Action)
    requires Inv(s) && Numbered(s) && Enabled(s, a)
    ensures Numbered(Do(s, a))
  {
    hide Do, Enabled, Numbered;
    if a.Prepare? || a.Close? || a.End? || a.Start? {
      PhaseNumbers(s, a);
    } else {
      if IsCopy(a) { CopyNumbers(s, a); } else if a.SetMark? { MarkNumbers(s, a); }
      else if IsWork(a) { WorkNumbers(s, a); }
      else if IsEntry(a) { EntryNumbers(s, a); } else { MoveNumbers(s, a); }
      KeptNumbers(s, Do(s, a), a.h);
    }
  }

  lemma PhaseNumbers(s: State, a: Action)
    requires Inv(s) && Numbered(s) && Enabled(s, a) && (a.Prepare? || a.Close? || a.End? || a.Start?)
    ensures Numbered(Do(s, a))
  {
    if !a.Close? { NobodyInside(s); }
    hide Inv, CanPrepare;
  }

  lemma KeptNumbers(s: State, s': State, h: nat)
    requires Numbered(s) && NumberKept(s, s', h)
    ensures Numbered(s')
  {
  }

  lemma MoveNumbers(s: State, a: Action)
    requires Enabled(s, a) && !a.Prepare? && !a.End? && !IsEntry(a) && !IsWork(a) && !IsCopy(a)
    ensures NumberKept(s, Do(s, a), a.h)
  {
    hide CanPrepare, Leads, Halves, Below, Halved, PieceOf, Returned, Loose;
  }

  lemma EntryNumbers(s: State, a: Action)
    requires Enabled(s, a) && IsEntry(a) && !a.Start? && !a.Close?
    ensures NumberKept(s, Do(s, a), a.h)
  {
    hide CanPrepare;
  }

  lemma WorkNumbers(s: State, a: Action)
    requires Enabled(s, a) && IsWork(a) && !a.SetMark?
    ensures NumberKept(s, Do(s, a), a.h)
  {
    hide CanPrepare, Leads, Halves, Below, Halved, PieceOf, Loose, WakeAll, Returned;
  }

  lemma MarkNumbers(s: State, a: Action)
    requires Enabled(s, a) && a.SetMark?
    ensures NumberKept(s, Do(s, a), a.h)
  {
    hide CanPrepare, WakeAll;
  }

  lemma CopyNumbers(s: State, a: Action)
    requires Enabled(s, a) && IsCopy(a)
    ensures NumberKept(s, Do(s, a), a.h)
  {
    hide CanPrepare;
  }

  lemma {:induction false} RunNumbers(s: State, run: seq<Action>)
    requires Inv(s) && Numbered(s) && Legal(s, run)
    ensures Inv(After(s, run)) && Numbered(After(s, run))
    decreases |run|
  {
    hide Inv, Numbered, Do, Enabled;
    if run != [] {
      StepKeepsInv(s, run[0]);
      StepNumbers(s, run[0]);
      RunNumbers(Do(s, run[0]), run[1..]);
    }
  }

  // ----- nothing can make the count rise

  /** Nobody is active, and it is over. */
  predicate Still(s: State) {
    s.active == 0 && s.starter != Resting && Over(s)
  }

  lemma StillStep(s: State, a: Action)
    requires Inv(s) && Numbered(s) && Still(s) && Enabled(s, a) && !a.End?
    ensures Still(Do(s, a))
  {
    NoneActive(s);
    hide AllOk, Quiet, Cover, Bounded, NoLostWakeup, CanPrepare, Leads, Halves, Below, Halved, PieceOf;
    if a.Renumber? || a.Join? {
      OutsideStill(s, a);
    } else if a.TestWait? || a.Decide? {
      InsideStill(s, a);
    } else {
      OnlyThese(s, a);
    }
  }

  // Every other step is one of an active helper, or not possible in this state.
  lemma OnlyThese(s: State, a: Action)
    requires Still(s) && Enabled(s, a) && !a.End? && !a.Renumber? && !a.Join? && !a.TestWait? && !a.Decide?
    requires forall h: nat | h < |s.helpers| :: !IsActive(s.helpers[h].pc)
    ensures Still(Do(s, a))
  {
    hide CanPrepare;
    assert a.Close?;
  }

  lemma InsideStill(s: State, a: Action)
    requires Still(s) && Numbered(s) && Enabled(s, a) && (a.TestWait? || a.Decide?)
    ensures Still(Do(s, a))
  {
    var h, s' := a.h, Do(s, a);
    assert Inside(s.helpers[h].pc);
    forall g: nat | g < |s'.helpers| && CanCome(s', g) ensures CanCome(s, g) {
    }
  }

  lemma OutsideStill(s: State, a: Action)
    requires Still(s) && Enabled(s, a) && (a.Renumber? || a.Join?)
    requires (s.helpWanted <==> s.starter.Started?)
    ensures Still(Do(s, a))
  {
    var h := a.h;
    assert CanCome(s, h);
    hide FarOff;
  }

  lemma {:induction false} StillRun(s: State, run: seq<Action>)
    requires Inv(s) && Numbered(s) && Still(s) && Legal(s, run) && Within(run)
    ensures Still(After(s, run))
    decreases |run|
  {
    hide Inv, Numbered, Still, Do, Enabled;
    if run != [] {
      StepKeepsInv(s, run[0]);
      StepNumbers(s, run[0]);
      StillStep(s, run[0]);
      assert Within(run[1..]);
      StillRun(Do(s, run[0]), run[1..]);
    }
  }

  // ----- what else makes it rise

  lemma OneMore(s: State, a: Action, run: seq<Action>)
    requires Enabled(s, a) && !a.End? && Legal(Do(s, a), run) && Within(run)
    ensures Legal(s, [a] + run) && Within([a] + run) && After(s, [a] + run) == After(Do(s, a), run)
  {
    hide Do, Enabled;
    assert ([a] + run)[1..] == run;
  }

  lemma Single(s: State, a: Action)
    requires Enabled(s, a) && !a.End?
    ensures Legal(s, [a]) && Within([a]) && After(s, [a]) == Do(s, a)
  {
    hide Do, Enabled;
    assert [a][1..] == [];
  }

  // A helper inside sees that there is something on the stack.
  lemma WakesUp(s: State, h: nat) returns (run: seq<Action>)
    requires Inv(s) && s.active == 0 && h < |s.helpers| && Inside(s.helpers[h].pc) && s.first < |s.slots|
    ensures Legal(s, run) && Within(run) && After(s, run).active == 1
  {
    NobodyAsleep(s);
    if s.helpers[h].pc.Woken? {
      Single(s, Decide(h));
      run := [Decide(h)];
    } else {
      var s1 := Do(s, TestWait(h));
      Single(s1, Decide(h));
      OneMore(s, TestWait(h), [Decide(h)]);
      run := [TestWait(h)] + [Decide(h)];
    }
  }

  lemma NobodyAsleep(s: State)
    requires Inv(s) && s.active == 0
    ensures forall h | 0 <= h < |s.helpers| :: !s.helpers[h].pc.Asleep? && !IsActive(s.helpers[h].pc)
  {
    NoneActive(s);
  }

  // A helper inside leaves.
  lemma Leaves(s: State, h: nat) returns (run: seq<Action>)
    requires Inv(s) && s.active == 0 && h < |s.helpers| && Inside(s.helpers[h].pc) && s.first >= |s.slots|
    ensures Legal(s, run) && Within(run) && Inv(After(s, run))
    ensures var r := After(s, run);
            && r.active == 0 && r.helperCount < s.helperCount && |r.helpers| == |s.helpers|
            && r.helpWanted == s.helpWanted && r.markers == s.markers && r.markNo == s.markNo && r.first == s.first && r.slots == s.slots
            && r.helpers[h].pc.Outside? && forall g: nat | g < |s.helpers| && g != h :: r.helpers[g] == s.helpers[g]
  {
    NobodyAsleep(s);
    CountedInside(s, h);
    if s.helpers[h].pc.Woken? {
      Single(s, Decide(h));
      StepKeepsInv(s, Decide(h));
      run := [Decide(h)];
    } else {
      var s1 := Do(s, TestWait(h));
      Single(s1, Decide(h));
      OneMore(s, TestWait(h), [Decide(h)]);
      StepKeepsInv(s, TestWait(h));
      StepKeepsInv(s1, Decide(h));
      run := [TestWait(h)] + [Decide(h)];
    }
  }

  lemma CountedInside(s: State, h: nat)
    requires Inv(s) && h < |s.helpers| && Inside(s.helpers[h].pc)
    ensures s.helperCount > 0
  {
    hide AllOk, Quiet, Cover, Bounded, NoLostWakeup;
    ActiveCounted(s, h);
  }

  // A thread outside joins when there is room.
  lemma Comes(s: State, h: nat) returns (run: seq<Action>)
    requires s.active == 0 && s.helpWanted && s.helperCount < s.markers && CanCome(s, h)
    ensures Legal(s, run) && Within(run) && After(s, run).active == 1
  {
    if s.helpers[h].no == s.markNo {
      run := JoinsNow(s, h);
    } else {
      var rest := JoinsNow(Do(s, Renumber(h)), h);
      OneMore(s, Renumber(h), rest);
      run := [Renumber(h)] + rest;
    }
  }

  lemma JoinsNow(s: State, h: nat) returns (run: seq<Action>)
    requires s.active == 0 && s.helpWanted && s.helperCount < s.markers && 0 < h < |s.helpers|
    requires s.helpers[h].pc.Outside? && s.helpers[h].no == s.markNo
    ensures Legal(s, run) && Within(run) && After(s, run).active == 1
  {
    var s1 := Do(s, Join(h));
    Single(s1, Activate(h));
    OneMore(s, Join(h), [Activate(h)]);
    run := [Join(h)] + [Activate(h)];
  }

  // If there is no room, those inside leave first.
  lemma {:induction false} MakesRoom(s: State, h: nat) returns (run: seq<Action>)
    requires Inv(s) && s.active == 0 && s.helpWanted && s.markers > 0 && CanCome(s, h)
    requires forall g | 0 <= g < |s.helpers| :: !s.helpers[g].pc.Joining?
    requires s.first >= |s.slots| || forall g | 0 <= g < |s.helpers| :: !Inside(s.helpers[g].pc)
    ensures Legal(s, run) && Within(run) && After(s, run).active == 1
    decreases s.helperCount
  {
    hide Inv;
    if s.helperCount < s.markers {
      run := Comes(s, h);
    } else {
      var g := SomebodyInside(s);
      var first := Leaves(s, g);
      var rest := MakesRoom(After(s, first), h);
      Joined(s, first, rest);
      run := first + rest;
    }
  }

  lemma SomebodyInside(s: State) returns (h: nat)
    requires Inv(s) && s.active == 0 && s.helperCount > 0
    requires forall g | 0 <= g < |s.helpers| :: !s.helpers[g].pc.Joining?
    ensures h < |s.helpers| && Inside(s.helpers[h].pc)
  {
    NobodyAsleep(s);
    h :| h in Members(s.helpers);
  }

  lemma {:induction false} Joined(s: State, a: seq<Action>, b: seq<Action>)
    requires Legal(s, a) && Within(a) && Legal(After(s, a), b) && Within(b)
    ensures Legal(s, a + b) && Within(a + b) && After(s, a + b) == After(After(s, a), b)
    decreases |a|
  {
    hide Do, Enabled;
    if a == [] {
      assert a + b == b;
    } else {
      assert (a + b)[1..] == a[1..] + b;
      Joined(Do(s, a[0]), a[1..], b);
    }
  }

  // The comment at GC_active_count says that it stays zero for the cycle once it has returned to zero.
  // From a reachable state with a zero count it does so if and only if the phase is over in this sense.
  lemma StaysZeroIff(s0: State, run: seq<Action>)
    requires Initial(s0) && Legal(s0, run)
    requires var s := After(s0, run); s.active == 0 && s.starter != Resting
    ensures StaysZero(After(s0, run)) <==> Over(After(s0, run))
  {
    hide Inv, Initial, Numbered, Legal, Over;
    var s := After(s0, run);
    InitialNumbered(s0);
    RunNumbers(s0, run);
    if Over(s) {
      forall more: seq<Action> | Legal(s, more) && Within(more) ensures After(s, more).active == 0 {
        StillRun(s, more);
      }
    } else {
      var more := Rises(s);
      assert Legal(s, more) && Within(more);
    }
  }

  lemma InitialNumbered(s: State)
    requires Initial(s)
    ensures Inv(s) && Numbered(s)
  {
    InitialInv(s);
    hide Inv;
  }

  lemma Rises(s: State) returns (run: seq<Action>)
    requires Inv(s) && s.active == 0 && !Over(s)
    ensures Legal(s, run) && Within(run) && After(s, run).active == 1
  {
    hide Inv;
    if h: nat :| h < |s.helpers| && s.helpers[h].pc.Joining? {
      Single(s, Activate(h));
      run := [Activate(h)];
    } else if s.first < |s.slots| && exists h: nat :: h < |s.helpers| && Inside(s.helpers[h].pc) {
      var h: nat :| h < |s.helpers| && Inside(s.helpers[h].pc);
      run := WakesUp(s, h);
    } else {
      var h: nat :| h < |s.helpers| && CanCome(s, h);
      run := MakesRoom(s, h);
    }
  }
}
