/** What the handlers of the concurrent letter board send: a writer answers with what it read in
    the cell it was asked for, a reader sends what it copied, and the letters sent are those
    handed out. */
module LetterBoardReplies {
  import opened Options
  import opened Semaphores
  import opened Letters
  import opened LetterBoard
  import opened LetterBoardRuns
  import opened LetterBoardHandOuts

  // ---------------------------------------------------------------- one handler

  /** A later state of the same handler. */
  predicate Follows(x: Handler, y: Handler) {
    match x
    case ReadWait => y.ReadWait? || y.Copying? || y.ReadSent? || y.ReadDone?
    case Copying(buffer, atStart) =>
      || (y.Copying? && buffer <= y.buffer && y.atStart == atStart)
      || (y.ReadSent? && buffer <= y.buffer && y.atStart == atStart)
      || (y.ReadDone? && buffer <= y.buffer)
    case ReadSent(buffer, _) => y == x || y == ReadDone(buffer)
    case ReadDone(_) => y == x
    case WriteWait(i) => AskedFor(y, i)
    case WriteIn(i) => AskedFor(y, i) && !y.WriteWait?
    case WriteGot(i, ch) => y == x || y == WriteMarked(i, ch) || y == WriteSent(i, ch) || y == WriteDone(i, ch)
    case WriteMarked(i, ch) => y == x || y == WriteSent(i, ch) || y == WriteDone(i, ch)
    case WriteSent(i, ch) => y == x || y == WriteDone(i, ch)
    case WriteDone(_, _) => y == x
    case OutOfRange(_) => y == x
  }

  predicate AskedFor(y: Handler, i: int) {
    (y.WriteWait? || Writing(y) || y.WriteDone? || y.OutOfRange?) && y.i == i
  }

  lemma FollowsOn(x: Handler, y: Handler, z: Handler)
    requires Follows(x, y) && Follows(y, z)
    ensures Follows(x, z)
  {
  }

  lemma HandlerFollows(s: Sys, h: nat)
    requires HandlerStep(s, h).Some?
    ensures var t := HandlerStep(s, h).value;
      h in s.handlers && t.handlers == s.handlers[h := t.handlers[h]] && Follows(s.handlers[h], t.handlers[h])
  {
    hide Semop, BoardAt, Letter;
  }

  lemma StepFollows(shared: bool, s: Sys, a: Action, h: nat)
    requires Inv(s) && Step(shared, s, a).Some? && h in s.handlers
    ensures h in Step(shared, s, a).value.handlers
    ensures Follows(s.handlers[h], Step(shared, s, a).value.handlers[h])
  {
    hide HandlerStep, ClientStep, Follows, GivenOut, AllHold, LettersOrTaken, ReadersIn, WritersIn, Exits;
    StaysItself(s.handlers[h]);
    if a.Handle? {
      HandlerFollows(s, a.h);
    } else {
      OtherEffects(shared, s, a);
    }
  }

  /** In every run each handler goes on from where it was: in particular a writer keeps the cell
      it was asked for and what it read there, and that is what it answers; and what a reader
      sent is what it has sent ever after. */
  lemma {:induction false} AnswersAreKept(shared: bool, s: Sys, actions: seq<Action>, h: nat)
    requires Inv(s) && Run(shared, s, actions).Some? && h in s.handlers
    ensures h in Run(shared, s, actions).value.handlers
    ensures Follows(s.handlers[h], Run(shared, s, actions).value.handlers[h])
    decreases |actions|
  {
    hide Inv, Step, Follows;
    if actions != [] {
      var s1 := Step(shared, s, actions[0]).value;
      StepFollows(shared, s, actions[0], h);
      StepKeepsInv(shared, s, actions[0]);
      AnswersAreKept(shared, s1, actions[1..], h);
      FollowsOn(s.handlers[h], s1.handlers[h], Run(shared, s, actions).value.handlers[h]);
    } else {
      StaysItself(s.handlers[h]);
    }
  }

  lemma StaysItself(x: Handler)
    ensures Follows(x, x)
  {
  }

  /** From the moment a writer inside looks at its cell: whatever happens afterwards, if it has
      answered then with the letter that was in the cell, or "occupied" if it was taken. */
  lemma AnswerIsWhatWasInTheCell(shared: bool, s: Sys, actions: seq<Action>, h: nat)
    requires Inv(s) && h in s.handlers && s.handlers[h].WriteIn? && 0 <= s.handlers[h].i < SHM_BUFFER_SIZE
    requires Run(shared, s, [Handle(h)] + actions).Some?
    ensures var t := Run(shared, s, [Handle(h)] + actions).value;
      var i := s.handlers[h].i;
      && h in t.handlers
      && (t.handlers[h].WriteSent? || t.handlers[h].WriteDone? ==>
            t.handlers[h].i == i && t.handlers[h].ch == s.board[i] && (s.board[i] == Letter(i) || s.board[i] == TAKEN))
  {
    hide Inv, Run;
    var s1 := HandlerStep(s, h).value;
    assert s1.handlers[h] == WriteGot(s.handlers[h].i, s.board[s.handlers[h].i]);
    FirstOfRun(shared, s, Handle(h), actions);
    HandlerKeepsInv(s, h);
    AnswersAreKept(shared, s1, actions, h);
    CellOfBoard(s, s.handlers[h].i);
  }

  lemma CellOfBoard(s: Sys, i: nat)
    requires Inv(s) && i < SHM_BUFFER_SIZE
    ensures s.board[i] == Letter(i) || s.board[i] == TAKEN
  {
  }

  lemma FirstOfRun(shared: bool, s: Sys, a: Action, rest: seq<Action>)
    ensures Run(shared, s, [a] + rest) ==
      if Step(shared, s, a).Some? then Run(shared, Step(shared, s, a).value, rest) else None
  {
    hide Step;
    assert ([a] + rest)[1..] == rest;
  }

  // ---------------------------------------------------------------- who handed out

  /** Has this writer taken a letter?  It has sent it then, or is about to. */
  predicate Handed(x: Handler) {
    (x.WriteMarked? || x.WriteSent? || x.WriteDone?) && x.ch != TAKEN
  }

  /** The letters handed out are those of the writers that took one, one each. */
  predicate Accounted(s: Sys) {
    && |s.givenTo| == |s.given|
    && (forall k :: 0 <= k < |s.givenTo| ==>
          s.givenTo[k] in s.handlers && Handed(s.handlers[s.givenTo[k]])
          && s.given[k] == (s.handlers[s.givenTo[k]].i, s.handlers[s.givenTo[k]].ch))
    && (forall j, k :: 0 <= j < k < |s.givenTo| ==> s.givenTo[j] != s.givenTo[k])
    && (forall h :: h in s.handlers && Handed(s.handlers[h]) ==> h in s.givenTo)
  }

  lemma MarkKeepsAccounted(s: Sys, h: nat)
    requires Accounted(s) && Pending(s, h)
    ensures HandlerStep(s, h).Some? && Accounted(HandlerStep(s, h).value)
  {
    var t := HandlerStep(s, h).value;
    assert !Handed(s.handlers[h]);
    assert t.givenTo[|s.givenTo|] == h;
    forall g | g in t.handlers && Handed(t.handlers[g]) ensures g in t.givenTo {
      if g != h {
        assert g in s.givenTo;
        var k :| 0 <= k < |s.givenTo| && s.givenTo[k] == g;
        assert t.givenTo[k] == g;
      }
    }
  }

  lemma HandlerStaysHanded(s: Sys, h: nat)
    requires HandlerStep(s, h).Some? && !Pending(s, h) && Holds(s.handlers[h], s.board)
    ensures var t := HandlerStep(s, h).value;
      && t.given == s.given && t.givenTo == s.givenTo
      && (Handed(t.handlers[h]) <==> Handed(s.handlers[h]))
      && (Handed(s.handlers[h]) ==> t.handlers[h].i == s.handlers[h].i && t.handlers[h].ch == s.handlers[h].ch)
  {
    hide Semop, Letter, Follows;
    HandlerFollows(s, h);
  }

  lemma OthersKeepGivenTo(shared: bool, s: Sys, a: Action)
    requires !a.Handle? && Step(shared, s, a).Some?
    ensures Step(shared, s, a).value.givenTo == s.givenTo
  {
    hide FirstUnoccupied;
  }

  /** What a step that takes no letter does to the writers that took one. */
  lemma OthersStayHanded(shared: bool, s: Sys, a: Action)
    requires Inv(s) && Step(shared, s, a).Some? && !(a.Handle? && Pending(s, a.h))
    ensures var t := Step(shared, s, a).value;
      && t.given == s.given && t.givenTo == s.givenTo
      && (forall h :: h in s.handlers && Handed(s.handlers[h]) ==>
            h in t.handlers && Handed(t.handlers[h])
            && t.handlers[h].i == s.handlers[h].i && t.handlers[h].ch == s.handlers[h].ch)
      && (forall h :: h in t.handlers && Handed(t.handlers[h]) ==> h in s.handlers && Handed(s.handlers[h]))
  {
    hide HandlerStep, ClientStep, Holds, GivenOut, LettersOrTaken, ReadersIn, WritersIn, Exits, Follows;
    if a.Handle? {
      HandlerFollows(s, a.h);
      HandlerStaysHanded(s, a.h);
    } else {
      OtherEffects(shared, s, a);
      OthersKeepGivenTo(shared, s, a);
    }
  }

  lemma StepKeepsAccounted(shared: bool, s: Sys, a: Action)
    requires Inv(s) && Accounted(s) && Step(shared, s, a).Some?
    ensures Accounted(Step(shared, s, a).value)
  {
    hide Inv, HandlerStep, ClientStep, Handed;
    if a.Handle? && Pending(s, a.h) {
      hide Accounted;
      MarkKeepsAccounted(s, a.h);
    } else {
      OthersStayHanded(shared, s, a);
    }
  }

  lemma {:induction false} RunKeepsAccounted(shared: bool, s: Sys, actions: seq<Action>)
    requires Inv(s) && Accounted(s) && Run(shared, s, actions).Some?
    ensures Accounted(Run(shared, s, actions).value)
    decreases |actions|
  {
    hide Inv, Accounted, Step;
    if actions != [] {
      StepKeepsInv(shared, s, actions[0]);
      StepKeepsAccounted(shared, s, actions[0]);
      RunKeepsAccounted(shared, Step(shared, s, actions[0]).value, actions[1..]);
    }
  }

  lemma ReachableIsAccounted(shared: bool, s: Sys, actions: seq<Action>)
    requires Start(s) && Run(shared, s, actions).Some?
    ensures Inv(Run(shared, s, actions).value) && Accounted(Run(shared, s, actions).value)
  {
    hide Run, Inv;
    StartIsInvariant(s);
    RunKeepsInv(shared, s, actions);
    RunKeepsAccounted(shared, s, actions);
  }

  /** Has this writer looked at its cell? */
  predicate Looked(x: Handler) {
    x.WriteGot? || x.WriteMarked? || x.WriteSent? || x.WriteDone?
  }

  predicate IsTaker(x: Handler, i: int) {
    Handed(x) && x.i == i && 0 <= i < SHM_BUFFER_SIZE && x.ch == Letter(i)
  }

  lemma TakenCellHasTaker(t: Sys, i: int)
    requires Inv(t) && Accounted(t) && 0 <= i < SHM_BUFFER_SIZE && t.board[i] == TAKEN
    ensures exists g :: g in t.handlers && IsTaker(t.handlers[g], i)
  {
    hide Counted, LettersOrTaken, AllHold, Letter;
    assert (i, Letter(i)) in t.given;
    var k :| 0 <= k < |t.given| && t.given[k] == (i, Letter(i));
    assert IsTaker(t.handlers[t.givenTo[k]], i);
  }

  lemma OccupiedCellIsTaken(t: Sys, h: nat)
    requires Inv(t) && h in t.handlers && Looked(t.handlers[h]) && t.handlers[h].ch == TAKEN
    ensures 0 <= t.handlers[h].i < SHM_BUFFER_SIZE && t.board[t.handlers[h].i] == TAKEN
  {
    hide Counted, LettersOrTaken, GivenOut;
    assert Holds(t.handlers[h], t.board);
  }

  /** In every reachable state a writer that found its cell taken, and answers so, was preceded
      by another one that took that cell's letter, and answers with it. */
  lemma OccupiedReplyHasTaker(shared: bool, s: Sys, actions: seq<Action>, h: nat)
    requires Start(s) && Run(shared, s, actions).Some?
    requires var t := Run(shared, s, actions).value;
      h in t.handlers && Looked(t.handlers[h]) && t.handlers[h].ch == TAKEN
    ensures var t := Run(shared, s, actions).value;
      exists g :: g in t.handlers && g != h && IsTaker(t.handlers[g], t.handlers[h].i)
  {
    hide Run, Inv, Accounted;
    ReachableIsAccounted(shared, s, actions);
    var t := Run(shared, s, actions).value;
    OccupiedCellIsTaken(t, h);
    TakenCellHasTaker(t, t.handlers[h].i);
  }

  // ---------------------------------------------------------------- replies

  /** No two writers took the same letter. */
  predicate TakersDiffer(t: Sys) {
    forall g, h :: g in t.handlers && h in t.handlers && g != h && Handed(t.handlers[g]) && Handed(t.handlers[h]) ==>
      t.handlers[g].ch != t.handlers[h].ch
  }

  lemma TakersDifferIffDistinct(t: Sys)
    requires Inv(t) && Accounted(t)
    ensures TakersDiffer(t) <==> Distinct(t.given)
  {
    hide Counted, LettersOrTaken, AllHold, Letter;
    if Distinct(t.given) {
      forall g, h | g in t.handlers && h in t.handlers && g != h && Handed(t.handlers[g]) && Handed(t.handlers[h])
        ensures t.handlers[g].ch != t.handlers[h].ch
      {
        var j :| 0 <= j < |t.givenTo| && t.givenTo[j] == g;
        var k :| 0 <= k < |t.givenTo| && t.givenTo[k] == h;
        assert t.given[j] != t.given[k];
        if t.given[j].1 == t.given[k].1 {
          LettersAreDistinct(t.given[j].0, t.given[k].0);
        }
      }
    } else {
      var j, k :| 0 <= j < k < |t.given| && t.given[j] == t.given[k];
      assert t.givenTo[j] != t.givenTo[k];
    }
  }

  /** Has this writer sent a letter to its client? */
  predicate SentLetter(x: Handler) {
    (x.WriteSent? || x.WriteDone?) && x.ch != TAKEN
  }

  /** No two clients were sent the same letter. */
  predicate RepliesDiffer(t: Sys) {
    forall g, h ::
      g in t.handlers && h in t.handlers && g != h && SentLetter(t.handlers[g]) && SentLetter(t.handlers[h]) ==>
      t.handlers[g].ch != t.handlers[h].ch
  }

  /** Every writer that read a letter in its cell has sent its reply. */
  predicate AllReplied(t: Sys) {
    forall h :: h in t.handlers ==>
      !((t.handlers[h].WriteGot? || t.handlers[h].WriteMarked?) && t.handlers[h].ch != TAKEN)
  }

  /** For every run from the start after which no letter is still to be sent: all clients were
      sent different letters if and only if in no state of the run two writers had both read the
      same free cell and not yet marked it. */
  lemma RepliesDifferIffNoOverlap(shared: bool, s: Sys, actions: seq<Action>)
    requires Start(s) && Run(shared, s, actions).Some? && AllReplied(Run(shared, s, actions).value)
    ensures RepliesDiffer(Run(shared, s, actions).value) <==> !SomeOverlap(shared, s, actions)
  {
    hide Run, Inv, Accounted, SomeOverlap, Distinct;
    var t := Run(shared, s, actions).value;
    ReachableIsAccounted(shared, s, actions);
    HandedOutOnceIffNoOverlap(shared, s, actions);
    TakersDifferIffDistinct(t);
    assert forall h :: h in t.handlers ==> Handed(t.handlers[h]) == SentLetter(t.handlers[h]);
    hide Handed, SentLetter;
  }

  /** At any moment of a run without an overlap, all clients were sent different letters. */
  lemma NoOverlapRepliesDiffer(shared: bool, s: Sys, actions: seq<Action>)
    requires Start(s) && Run(shared, s, actions).Some? && !SomeOverlap(shared, s, actions)
    ensures RepliesDiffer(Run(shared, s, actions).value)
  {
    hide Run, Inv, Accounted, SomeOverlap, Distinct;
    var t := Run(shared, s, actions).value;
    ReachableIsAccounted(shared, s, actions);
    NoOverlapHandsOutOnce(shared, s, actions);
    TakersDifferIffDistinct(t);
    assert forall h :: SentLetter(h) ==> Handed(h);
  }
}
