/** What holds in every run of the concurrent letter board, whoever sends requests, and
    whatever they ask for. */
module LetterBoardRuns {
  import opened Options
  import opened Semaphores
  import opened Letters
  import opened LetterBoard

  /** What a handler holds, given the board. */
  predicate Holds(x: Handler, board: Board) {
    match x
    case ReadWait => true
    case Copying(buffer, atStart) => atStart == board && buffer <= board
    case ReadSent(buffer, atStart) => atStart == board && buffer == board
    case ReadDone(buffer) => true
    case WriteWait(i) => true
    case WriteIn(i) => true
    case WriteGot(i, ch) => 0 <= i < SHM_BUFFER_SIZE && if ch == TAKEN then board[i] == TAKEN else ch == Letter(i)
    case WriteMarked(i, ch) => Answered(i, ch, board)
    case WriteSent(i, ch) => Answered(i, ch, board)
    case WriteDone(i, ch) => Answered(i, ch, board)
    case OutOfRange(i) => i < 0 || i >= SHM_BUFFER_SIZE
  }

  predicate Answered(i: int, ch: char, board: Board) {
    0 <= i < SHM_BUFFER_SIZE && board[i] == TAKEN && (ch == TAKEN || ch == Letter(i))
  }

  predicate AllHold(s: Sys) {
    forall h :: h in s.handlers ==> Holds(s.handlers[h], s.board)
  }

  /** The letters handed out are exactly those of the taken cells, some of them perhaps more
      than once. */
  predicate GivenOut(s: Sys) {
    && (forall k :: 0 <= k < |s.given| ==>
          var (i, ch) := s.given[k]; 0 <= i < SHM_BUFFER_SIZE && ch == Letter(i) && s.board[i] == TAKEN)
    && (forall j :: 0 <= j < SHM_BUFFER_SIZE && s.board[j] == TAKEN ==> (j, Letter(j)) in s.given)
  }

  predicate Inv(s: Sys) {
    Counted(s) && LettersOrTaken(s.board) && AllHold(s) && GivenOut(s)
  }

  lemma StartIsInvariant(s: Sys)
    requires Start(s)
    ensures Inv(s)
  {
    assert ReadersIn(s) == {} && WritersIn(s) == {} && Exits(s) == {};
  }

  // ---------------------------------------------------------------- steps

  /** A cell is only marked while no reader is copying. */
  lemma NoReaderWhileWriting(s: Sys, h: nat)
    requires Counted(s) && h in s.handlers && Writing(s.handlers[h])
    ensures forall r :: r in s.handlers ==> !Reading(s.handlers[r])
  {
    assert h in WritersIn(s);
    assert ReadersIn(s) == {};
    forall r | r in s.handlers ensures !Reading(s.handlers[r]) {
      assert r !in ReadersIn(s);
    }
  }

  lemma HoldsAfterMark(x: Handler, board: Board, i: int)
    requires Holds(x, board) && !Reading(x) && 0 <= i < SHM_BUFFER_SIZE
    ensures Holds(x, board[i := TAKEN])
  {
  }

  /** Is h about to mark a cell it read as free? */
  predicate Pending(s: Sys, h: nat) {
    && h in s.handlers && s.handlers[h].WriteGot? && s.handlers[h].ch != TAKEN
    && 0 <= s.handlers[h].i < SHM_BUFFER_SIZE
  }

  lemma MarkKeepsInv(s: Sys, h: nat)
    requires Inv(s) && Pending(s, h)
    ensures HandlerStep(s, h).Some? && Inv(HandlerStep(s, h).value)
  {
    hide Counted, Holds, LettersOrTaken, AllHold, GivenOut;
    MarkedBoard(s, h);
    NoReaderWhileWriting(s, h);
    HandlerKeepsCounted(s, h);
    MarkKeepsHolds(s, h);
    MarkKeepsGivenOut(s, h);
  }

  lemma MarkedBoard(s: Sys, h: nat)
    requires Pending(s, h) && LettersOrTaken(s.board)
    ensures var t := HandlerStep(s, h); t.Some? && LettersOrTaken(t.value.board)
  {
  }

  lemma MarkKeepsHolds(s: Sys, h: nat)
    requires Pending(s, h) && AllHold(s) && forall r :: r in s.handlers ==> !Reading(s.handlers[r])
    ensures HandlerStep(s, h).Some? && AllHold(HandlerStep(s, h).value)
  {
    var t := HandlerStep(s, h).value;
    forall g | g in t.handlers ensures Holds(t.handlers[g], t.board) {
      if g != h {
        HoldsAfterMark(s.handlers[g], s.board, s.handlers[h].i);
      } else {
        assert Holds(s.handlers[h], s.board);
      }
    }
  }

  lemma MarkKeepsGivenOut(s: Sys, h: nat)
    requires Pending(s, h) && AllHold(s) && GivenOut(s)
    ensures HandlerStep(s, h).Some? && GivenOut(HandlerStep(s, h).value)
  {
    hide Letter;
    var t := HandlerStep(s, h).value;
    var i := s.handlers[h].i;
    assert Holds(s.handlers[h], s.board);
    assert t.given == s.given + [(i, Letter(i))];
    forall j | 0 <= j < SHM_BUFFER_SIZE && t.board[j] == TAKEN ensures (j, Letter(j)) in t.given {
      if j != i { assert (j, Letter(j)) in s.given; } else { assert t.given[|s.given|] == (j, Letter(j)); }
    }
  }

  lemma NextReaderHolds(s: Sys, h: nat)
    requires HandlerStep(s, h).Some? && Holds(s.handlers[h], s.board)
    requires s.handlers[h].ReadWait? || Reading(s.handlers[h])
    ensures var t := HandlerStep(s, h).value;
      && h in t.handlers && t.handlers == s.handlers[h := t.handlers[h]] && Holds(t.handlers[h], s.board)
      && t.board == s.board && t.given == s.given
  {
    hide Semop, Letter;
    var x := s.handlers[h];
    if x.Copying? && |x.buffer| < SHM_BUFFER_SIZE {
      assert x.buffer + [s.board[|x.buffer|]] == s.board[..|x.buffer| + 1];
    }
  }

  lemma NextWriterHolds(s: Sys, h: nat)
    requires LettersOrTaken(s.board) && HandlerStep(s, h).Some? && Holds(s.handlers[h], s.board)
    requires !(s.handlers[h].ReadWait? || Reading(s.handlers[h])) && !Pending(s, h)
    ensures var t := HandlerStep(s, h).value;
      && h in t.handlers && t.handlers == s.handlers[h := t.handlers[h]] && Holds(t.handlers[h], s.board)
      && t.board == s.board && t.given == s.given
  {
    hide Semop, Letter;
  }

  /** What a handler's other steps leave. */
  lemma NextHolds(s: Sys, h: nat)
    requires LettersOrTaken(s.board) && AllHold(s) && HandlerStep(s, h).Some? && !Pending(s, h)
    ensures var t := HandlerStep(s, h).value;
      && h in t.handlers && t.handlers == s.handlers[h := t.handlers[h]] && Holds(t.handlers[h], s.board)
      && t.board == s.board && t.given == s.given
  {
    hide Holds, LettersOrTaken, Letter, Semop;
    assert h in s.handlers;
    if s.handlers[h].ReadWait? || Reading(s.handlers[h]) {
      NextReaderHolds(s, h);
    } else {
      NextWriterHolds(s, h);
    }
  }

  lemma HandlerKeepsInv(s: Sys, h: nat)
    requires Inv(s) && HandlerStep(s, h).Some?
    ensures Inv(HandlerStep(s, h).value)
  {
    hide HandlerStep, Counted, Holds, LettersOrTaken;
    if Pending(s, h) {
      MarkKeepsInv(s, h);
    } else {
      NextHolds(s, h);
      HandlerKeepsCounted(s, h);
    }
  }

  /** A step that is no handler's leaves the board alone, and the handlers but for a new one. */
  lemma OtherEffects(shared: bool, s: Sys, a: Action)
    requires !a.Handle? && Step(shared, s, a).Some? && forall h :: h in s.handlers ==> h < s.next
    ensures var t := Step(shared, s, a).value;
      && t.board == s.board && t.given == s.given
      && (forall h :: h in s.handlers ==> h in t.handlers && t.handlers[h] == s.handlers[h])
      && (forall h :: h in t.handlers && h !in s.handlers ==> t.handlers[h].ReadWait? || t.handlers[h].WriteWait?)
  {
    hide FirstUnoccupied;
  }

  lemma OthersKeepInv(shared: bool, s: Sys, a: Action)
    requires Inv(s) && !a.Handle? && Step(shared, s, a).Some?
    ensures Inv(Step(shared, s, a).value)
  {
    hide Step, LettersOrTaken, ReadersIn, WritersIn, Exits, Letter;
    StepKeepsCounted(shared, s, a);
    OtherEffects(shared, s, a);
  }

  lemma StepKeepsInv(shared: bool, s: Sys, a: Action)
    requires Inv(s) && Step(shared, s, a).Some?
    ensures Inv(Step(shared, s, a).value)
  {
    hide Inv, HandlerStep, ClientStep;
    if a.Handle? {
      HandlerKeepsInv(s, a.h);
    } else {
      OthersKeepInv(shared, s, a);
    }
  }

  // ---------------------------------------------------------------- runs

  /** An interleaving of handlers, clients and requests.  None if some action is not enabled in
      its turn. */
  function Run(shared: bool, s: Sys, actions: seq<Action>): Option<Sys>
    decreases |actions|
  {
    if actions == [] then Some(s)
    else
      match Step(shared, s, actions[0])
      case Some(t) => Run(shared, t, actions[1..])
      case None => None
  }

  lemma {:induction false} RunKeepsInv(shared: bool, s: Sys, actions: seq<Action>)
    requires Inv(s) && Run(shared, s, actions).Some?
    ensures Inv(Run(shared, s, actions).value)
    decreases |actions|
  {
    hide Inv, Step;
    if actions != [] {
      StepKeepsInv(shared, s, actions[0]);
      RunKeepsInv(shared, Step(shared, s, actions[0]).value, actions[1..]);
    }
  }

  lemma ReachableIsInvariant(shared: bool, s: Sys, actions: seq<Action>)
    requires Start(s) && Run(shared, s, actions).Some?
    ensures Inv(Run(shared, s, actions).value)
  {
    hide Inv, Run;
    StartIsInvariant(s);
    RunKeepsInv(shared, s, actions);
  }

  /** In every reachable state ACTIVE_READERS counts the readers inside, ACTIVE_WRITER the
      writers inside and all out-of-range exits so far, never both are positive, and both
      WAITING semaphores are 0. */
  lemma SemaphoresCount(shared: bool, s: Sys, actions: seq<Action>)
    requires Start(s) && Run(shared, s, actions).Some?
    ensures var t := Run(shared, s, actions).value;
      && |t.sems| == 4 && t.sems[WAITING_READERS] == 0 && t.sems[WAITING_WRITERS] == 0
      && t.sems[ACTIVE_READERS] == |ReadersIn(t)|
      && t.sems[ACTIVE_WRITER] == |WritersIn(t)| + |Exits(t)|
      && (ReadersIn(t) == {} || (WritersIn(t) == {} && Exits(t) == {}))
  {
    hide Run, AllHold, GivenOut, ReadersIn, WritersIn, Exits;
    ReachableIsInvariant(shared, s, actions);
    var t := Run(shared, s, actions).value;
    assert |ReadersIn(t)| == 0 ==> ReadersIn(t) == {};
    assert |WritersIn(t)| == 0 ==> WritersIn(t) == {};
    assert |Exits(t)| == 0 ==> Exits(t) == {};
  }

  /** What a reader sends is the whole board as it was when it got in, and the board is still
      the same when it gets out, in every reachable state. */
  lemma TornReadFreedom(shared: bool, s: Sys, actions: seq<Action>, h: nat)
    requires Start(s) && Run(shared, s, actions).Some?
    ensures var t := Run(shared, s, actions).value;
      && (h in t.handlers && t.handlers[h].Copying? ==>
            t.handlers[h].atStart == t.board && t.handlers[h].buffer <= t.board)
      && (h in t.handlers && t.handlers[h].ReadSent? ==> t.handlers[h].buffer == t.handlers[h].atStart == t.board)
  {
    hide Run, Counted, GivenOut;
    ReachableIsInvariant(shared, s, actions);
    var t := Run(shared, s, actions).value;
    assert h in t.handlers ==> Holds(t.handlers[h], t.board);
  }

  predicate OnlyTaken(a: Board, b: Board) {
    forall j :: 0 <= j < SHM_BUFFER_SIZE ==> b[j] == a[j] || (a[j] == Letter(j) && b[j] == TAKEN)
  }

  lemma StepOnlyTakes(shared: bool, s: Sys, a: Action)
    requires Inv(s) && Step(shared, s, a).Some?
    ensures OnlyTaken(s.board, Step(shared, s, a).value.board)
  {
    hide Counted, GivenOut, Letter, Semop, FirstUnoccupied;
  }

  /** In every run cells change only from their letter to taken. */
  lemma {:induction false} CellsOnlyBecomeTaken(shared: bool, s: Sys, actions: seq<Action>)
    requires Inv(s) && Run(shared, s, actions).Some?
    ensures OnlyTaken(s.board, Run(shared, s, actions).value.board)
    decreases |actions|
  {
    hide Inv, Step;
    if actions != [] {
      var s1 := Step(shared, s, actions[0]).value;
      StepOnlyTakes(shared, s, actions[0]);
      StepKeepsInv(shared, s, actions[0]);
      CellsOnlyBecomeTaken(shared, s1, actions[1..]);
    }
  }

  /** In every reachable state a writer that answers "occupied" was preceded by one that took
      that letter, whatever index it was asked for. */
  lemma OccupiedImpliesEarlierTaker(shared: bool, s: Sys, actions: seq<Action>, h: nat)
    requires Start(s) && Run(shared, s, actions).Some?
    requires var t := Run(shared, s, actions).value;
      h in t.handlers && t.handlers[h].WriteGot? && t.handlers[h].ch == TAKEN
    ensures var t := Run(shared, s, actions).value;
      var i := t.handlers[h].i;
      0 <= i < SHM_BUFFER_SIZE && (i, Letter(i)) in t.given
  {
    hide Run, Counted, LettersOrTaken;
    ReachableIsInvariant(shared, s, actions);
    var t := Run(shared, s, actions).value;
    assert Holds(t.handlers[h], t.board);
  }

  // ---------------------------------------------------------------- getting in and out

  /** No release array ever blocks. */
  lemma ReleasesNeverBlock(s: Sys, h: nat)
    requires Counted(s) && h in s.handlers && (s.handlers[h].ReadSent? || s.handlers[h].WriteSent?)
    ensures HandlerStep(s, h).Some?
  {
    hide Semop;
    StartEffects(s);
    assert h in ReadersIn(s) || h in WritersIn(s);
  }

  /** A reader gets in exactly while no writer is inside and none has ever left by the
      out-of-range exit; a writer exactly while no reader is inside. */
  lemma WhoGetsIn(s: Sys, h: nat)
    requires Counted(s) && h in s.handlers
    ensures s.handlers[h].ReadWait? ==> (HandlerStep(s, h).Some? <==> WritersIn(s) == {} && Exits(s) == {})
    ensures s.handlers[h].WriteWait? ==> (HandlerStep(s, h).Some? <==> ReadersIn(s) == {})
  {
    hide Semop;
    StartEffects(s);
  }

  /** The same in every reachable state; and every handler that is inside can go on. */
  lemma ReachableEntries(shared: bool, s: Sys, actions: seq<Action>, h: nat)
    requires Start(s) && Run(shared, s, actions).Some? && h in Run(shared, s, actions).value.handlers
    ensures var t := Run(shared, s, actions).value;
      && (t.handlers[h].ReadWait? ==> (HandlerStep(t, h).Some? <==> WritersIn(t) == {} && Exits(t) == {}))
      && (t.handlers[h].WriteWait? ==> (HandlerStep(t, h).Some? <==> ReadersIn(t) == {}))
      && (Reading(t.handlers[h]) || Writing(t.handlers[h]) ==> HandlerStep(t, h).Some?)
  {
    hide Run, Semop, ReadersIn, WritersIn, Exits, Counted, AllHold, GivenOut;
    ReachableIsInvariant(shared, s, actions);
    var t := Run(shared, s, actions).value;
    WhoGetsIn(t, h);
    if t.handlers[h].ReadSent? || t.handlers[h].WriteSent? {
      ReleasesNeverBlock(t, h);
    }
  }

  lemma HandlerExitsStay(s: Sys, h: nat)
    requires HandlerStep(s, h).Some?
    ensures Exits(s) <= Exits(HandlerStep(s, h).value)
  {
    hide Semop;
    assert h in s.handlers && !s.handlers[h].OutOfRange?;
  }

  lemma ExitsStay(shared: bool, s: Sys, a: Action)
    requires Counted(s) && Step(shared, s, a).Some?
    ensures Exits(s) <= Exits(Step(shared, s, a).value)
  {
    hide HandlerStep, ClientStep, ReadersIn, WritersIn;
    if a.Handle? {
      HandlerExitsStay(s, a.h);
    } else {
      OtherEffects(shared, s, a);
    }
  }

  /** After one out-of-range exit no reader ever gets in again, in any continuation. */
  lemma {:induction false} ExitLocksReadersOut(shared: bool, s: Sys, actions: seq<Action>)
    requires Counted(s) && Exits(s) != {} && Run(shared, s, actions).Some?
    ensures var t := Run(shared, s, actions).value;
      && Exits(s) <= Exits(t)
      && forall h :: h in t.handlers && t.handlers[h].ReadWait? ==> HandlerStep(t, h).None?
    decreases |actions|
  {
    hide Step, HandlerStep, Counted, Exits;
    if actions == [] {
      forall h | h in s.handlers && s.handlers[h].ReadWait? ensures HandlerStep(s, h).None? {
        WhoGetsIn(s, h);
      }
    } else {
      StepKeepsCounted(shared, s, actions[0]);
      ExitsStay(shared, s, actions[0]);
      ExitLocksReadersOut(shared, Step(shared, s, actions[0]).value, actions[1..]);
    }
  }
}
