/** When the concurrent letter board hands out a letter twice. */
module LetterBoardHandOuts {
  import opened Counting
  import opened Semaphores
  import opened Letters
  import opened LetterBoard
  import opened LetterBoardRuns

  ghost predicate Distinct(xs: seq<(int, char)>) {
    forall i, j :: 0 <= i < j < |xs| ==> xs[i] != xs[j]
  }

  lemma DistinctExtended(xs: seq<(int, char)>, x: (int, char))
    ensures Distinct(xs + [x]) <==> Distinct(xs) && x !in xs
  {
    var all := xs + [x];
    assert all[|xs|] == x;
    if Distinct(all) {
      forall k | 0 <= k < |xs| ensures xs[k] != x { assert all[k] != all[|xs|]; }
      forall i, j | 0 <= i < j < |xs| ensures xs[i] != xs[j] { assert all[i] != all[j]; }
    }
  }

  // ---------------------------------------------------------------- overlapping writers

  /** Two writers have read the same free cell, and neither has marked it yet. */
  ghost predicate Overlap(s: Sys) {
    exists g, h :: g != h && Pending(s, g) && Pending(s, h) && s.handlers[g] == s.handlers[h]
  }

  /** A writer is about to mark a cell that is marked already. */
  ghost predicate Stale(s: Sys) {
    exists h :: Pending(s, h) && s.board[s.handlers[h].i] == TAKEN
  }

  /** Some letter was handed out twice, or will be once the writers now inside have marked. */
  ghost predicate Doomed(s: Sys) {
    !Distinct(s.given) || Stale(s) || Overlap(s)
  }

  /** In some state the run passes through, two writers overlap on a free cell. */
  ghost predicate SomeOverlap(shared: bool, s: Sys, actions: seq<Action>)
    decreases |actions|
  {
    || Overlap(s)
    || (actions != [] && Step(shared, s, actions[0]).Some?
        && SomeOverlap(shared, Step(shared, s, actions[0]).value, actions[1..]))
  }

  /** What a marking step does. */
  lemma MarkEffect(shared: bool, s: Sys, h: nat)
    requires Inv(s) && Pending(s, h)
    ensures var i, t := s.handlers[h].i, Step(shared, s, Handle(h));
      && t.Some? && t.value.board == s.board[i := TAKEN] && t.value.given == s.given + [(i, Letter(i))]
      && t.value.handlers == s.handlers[h := WriteMarked(i, Letter(i))]
      && ((i, Letter(i)) in s.given <==> s.board[i] == TAKEN)
      && forall g :: Pending(s, g) ==> s.handlers[g].ch == Letter(s.handlers[g].i)
  {
    hide Counted;
    assert forall g :: g in s.handlers ==> Holds(s.handlers[g], s.board);
  }

  /** What every other step does to writers about to mark. */
  lemma OtherEffect(shared: bool, s: Sys, a: Action)
    requires Inv(s) && Step(shared, s, a).Some? && !(a.Handle? && Pending(s, a.h))
    ensures var t := Step(shared, s, a).value;
      && t.board == s.board && t.given == s.given
      && (forall h :: Pending(s, h) ==> Pending(t, h) && t.handlers[h] == s.handlers[h])
      && (forall h :: Pending(t, h) && !Pending(s, h) ==>
            a == Handle(h) && t.board[t.handlers[h].i] == t.handlers[h].ch)
  {
    hide Semop, ReadersIn, WritersIn, Exits, GivenOut, FirstUnoccupied, Letter, LettersOrTaken;
    if a.Handle? {
      NextHolds(s, a.h);
    } else {
      OtherEffects(shared, s, a);
    }
  }

  /** Once two writers overlapped, the letter is or will be handed out twice. */
  lemma StepKeepsDoomed(shared: bool, s: Sys, a: Action)
    requires Inv(s) && Doomed(s) && Step(shared, s, a).Some?
    ensures Doomed(Step(shared, s, a).value)
  {
    hide Inv, Step, Distinct, Letter;
    var t := Step(shared, s, a).value;
    if a.Handle? && Pending(s, a.h) {
      MarkEffect(shared, s, a.h);
      var i := s.handlers[a.h].i;
      DistinctExtended(s.given, (i, Letter(i)));
      if Distinct(s.given) && s.board[i] != TAKEN {
        if Stale(s) {
          var h :| Pending(s, h) && s.board[s.handlers[h].i] == TAKEN;
          assert Pending(t, h) && t.board[t.handlers[h].i] == TAKEN;
        } else {
          var g, h :| g != h && Pending(s, g) && Pending(s, h) && s.handlers[g] == s.handlers[h];
          if a.h == g {
            assert Pending(t, h) && t.board[t.handlers[h].i] == TAKEN;
          } else if a.h == h {
            assert Pending(t, g) && t.board[t.handlers[g].i] == TAKEN;
          } else {
            assert Pending(t, g) && Pending(t, h) && t.handlers[g] == t.handlers[h];
          }
        }
      }
    } else {
      OtherEffect(shared, s, a);
    }
  }

  /** Without an overlap nothing goes wrong in one step, though an overlap may come about. */
  lemma StepStaysSound(shared: bool, s: Sys, a: Action)
    requires Inv(s) && !Doomed(s) && Step(shared, s, a).Some?
    ensures Distinct(Step(shared, s, a).value.given) && !Stale(Step(shared, s, a).value)
  {
    hide Inv, Step, Distinct, Letter;
    var t := Step(shared, s, a).value;
    if a.Handle? && Pending(s, a.h) {
      MarkEffect(shared, s, a.h);
      var i := s.handlers[a.h].i;
      DistinctExtended(s.given, (i, Letter(i)));
      forall h | Pending(t, h) ensures t.board[t.handlers[h].i] != TAKEN {
        assert Pending(s, h) && h != a.h && s.handlers[h] == t.handlers[h];
        assert s.handlers[h] != s.handlers[a.h];
      }
    } else {
      OtherEffect(shared, s, a);
    }
  }

  /** After any run: a letter was or will be handed out twice if and only if two writers
      overlapped on a free cell somewhere in the run. */
  lemma {:induction false} DoomedIffOverlap(shared: bool, s: Sys, actions: seq<Action>)
    requires Inv(s) && Run(shared, s, actions).Some?
    ensures Doomed(Run(shared, s, actions).value) <==> Doomed(s) || SomeOverlap(shared, s, actions)
    decreases |actions|
  {
    hide Inv, Step, Stale, Overlap, Distinct;
    if actions != [] {
      var s1 := Step(shared, s, actions[0]).value;
      StepKeepsInv(shared, s, actions[0]);
      if Doomed(s) {
        StepKeepsDoomed(shared, s, actions[0]);
      } else {
        StepStaysSound(shared, s, actions[0]);
      }
      DoomedIffOverlap(shared, s1, actions[1..]);
    }
  }

  /** For every run from the start that ends with no writer between reading a free cell and
      marking it: every letter is handed out at most once if and only if in no state of the run
      two different writers had both read the same free cell and not yet marked it. */
  lemma HandedOutOnceIffNoOverlap(shared: bool, s: Sys, actions: seq<Action>)
    requires Start(s) && Run(shared, s, actions).Some?
    requires forall h :: !Pending(Run(shared, s, actions).value, h)
    ensures Distinct(Run(shared, s, actions).value.given) <==> !SomeOverlap(shared, s, actions)
  {
    hide Inv, Run, SomeOverlap;
    StartIsInvariant(s);
    DoomedIffOverlap(shared, s, actions);
    assert !Doomed(s);
  }

  /** At any moment of a run without an overlap, no letter has been handed out twice. */
  lemma NoOverlapHandsOutOnce(shared: bool, s: Sys, actions: seq<Action>)
    requires Start(s) && Run(shared, s, actions).Some? && !SomeOverlap(shared, s, actions)
    ensures Distinct(Run(shared, s, actions).value.given)
  {
    hide Inv, Run, SomeOverlap;
    StartIsInvariant(s);
    DoomedIffOverlap(shared, s, actions);
    assert !Doomed(s);
  }

  // ---------------------------------------------------------------- counting

  /** The step marks a cell that was marked since its writer read it. */
  predicate MarksTaken(s: Sys, a: Action) {
    a.Handle? && Pending(s, a.h) && s.board[s.handlers[a.h].i] == TAKEN
  }

  function DoubleMarks(shared: bool, s: Sys, actions: seq<Action>): nat
    decreases |actions|
  {
    if actions == [] || Step(shared, s, actions[0]).None? then 0
    else
      One(MarksTaken(s, actions[0])) + DoubleMarks(shared, Step(shared, s, actions[0]).value, actions[1..])
  }

  function TakenCells(b: Board): set<int> {
    set j | 0 <= j < SHM_BUFFER_SIZE && b[j] == TAKEN
  }

  lemma StepCountsMarks(shared: bool, s: Sys, a: Action)
    requires Inv(s) && Step(shared, s, a).Some?
    ensures var t := Step(shared, s, a).value;
      |t.given| - |TakenCells(t.board)| == |s.given| - |TakenCells(s.board)| + One(MarksTaken(s, a))
  {
    hide Inv, Step;
    if a.Handle? && Pending(s, a.h) {
      MarkEffect(shared, s, a.h);
      var i := s.handlers[a.h].i;
      assert TakenCells(s.board[i := TAKEN]) == TakenCells(s.board) + {i};
    } else {
      OtherEffect(shared, s, a);
    }
  }

  /** The letters handed out in a run exceed the cells taken by exactly the double marks. */
  lemma {:induction false} HandOutsExceedCellsByDoubleMarks(shared: bool, s: Sys, actions: seq<Action>)
    requires Inv(s) && Run(shared, s, actions).Some?
    ensures var t := Run(shared, s, actions).value;
      |t.given| - |TakenCells(t.board)| == |s.given| - |TakenCells(s.board)| + DoubleMarks(shared, s, actions)
    decreases |actions|
  {
    hide Inv, Step, MarksTaken, TakenCells;
    if actions != [] {
      StepKeepsInv(shared, s, actions[0]);
      StepCountsMarks(shared, s, actions[0]);
      HandOutsExceedCellsByDoubleMarks(shared, Step(shared, s, actions[0]).value, actions[1..]);
    }
  }

  /** Letters stay distinct in a run if and only if it has no double mark. */
  lemma {:induction false} HandedOutOnceIffNoDoubleMark(shared: bool, s: Sys, actions: seq<Action>)
    requires Inv(s) && Run(shared, s, actions).Some?
    ensures Distinct(Run(shared, s, actions).value.given) <==>
      Distinct(s.given) && DoubleMarks(shared, s, actions) == 0
    decreases |actions|
  {
    hide Inv, Step, Distinct, Letter;
    if actions != [] {
      if actions[0].Handle? && Pending(s, actions[0].h) {
        MarkEffect(shared, s, actions[0].h);
        var i := s.handlers[actions[0].h].i;
        DistinctExtended(s.given, (i, Letter(i)));
      } else {
        OtherEffect(shared, s, actions[0]);
      }
      StepKeepsInv(shared, s, actions[0]);
      HandedOutOnceIffNoDoubleMark(shared, Step(shared, s, actions[0]).value, actions[1..]);
    }
  }

  // ---------------------------------------------------------------- one writer at a time

  /** In every state of the run but the last, at most one writer is inside. */
  ghost predicate WritersTakeTurns(shared: bool, s: Sys, actions: seq<Action>)
    decreases |actions|
  {
    actions != [] && Step(shared, s, actions[0]).Some? ==>
      && (forall g, h :: g in WritersIn(s) && h in WritersIn(s) ==> g == h)
      && WritersTakeTurns(shared, Step(shared, s, actions[0]).value, actions[1..])
  }

  lemma TurnsMeanNoOverlap(s: Sys)
    requires forall g, h :: g in WritersIn(s) && h in WritersIn(s) ==> g == h
    ensures !Overlap(s)
  {
    assert forall h :: Pending(s, h) ==> h in WritersIn(s);
  }

  lemma {:induction false} TurnsKeepDistinct(shared: bool, s: Sys, actions: seq<Action>)
    requires Inv(s) && Distinct(s.given) && !Stale(s)
    requires Run(shared, s, actions).Some? && WritersTakeTurns(shared, s, actions)
    ensures Distinct(Run(shared, s, actions).value.given)
    decreases |actions|
  {
    hide Inv, Step, Distinct, Stale, Overlap, WritersIn;
    if actions != [] {
      TurnsMeanNoOverlap(s);
      StepStaysSound(shared, s, actions[0]);
      StepKeepsInv(shared, s, actions[0]);
      TurnsKeepDistinct(shared, Step(shared, s, actions[0]).value, actions[1..]);
    }
  }

  /** With the writers one at a time, which the start array does not see to, every letter is
      handed out at most once. */
  lemma WritersInTurnHandOutOnce(shared: bool, s: Sys, actions: seq<Action>)
    requires Start(s) && Run(shared, s, actions).Some? && WritersTakeTurns(shared, s, actions)
    ensures Distinct(Run(shared, s, actions).value.given)
  {
    hide Inv, Run, WritersTakeTurns;
    StartIsInvariant(s);
    TurnsKeepDistinct(shared, s, actions);
  }
}
