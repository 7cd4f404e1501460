/** The copies and indices of the concurrent letter board's own clients: however stale, they
    come from boards that there were. */
module LetterBoardCopies {
  import opened Semaphores
  import opened Letters
  import opened LetterBoard
  import opened LetterBoardRuns
  import opened LetterBoardClients

  /** The boards of all states a run passes through. */
  function BoardsOf(shared: bool, s: Sys, actions: seq<Action>): set<seq<char>>
    decreases |actions|
  {
    {s.board}
    + if actions == [] || Step(shared, s, actions[0]).None? then {}
      else BoardsOf(shared, Step(shared, s, actions[0]).value, actions[1..])
  }

  /** The first free cell of one of these boards. */
  ghost predicate Chosen(i: int, boards: set<seq<char>>) {
    exists b :: b in boards && i == FirstUnoccupied(b)
  }

  predicate Requested(x: Handler) {
    x.WriteWait? || Writing(x) || x.WriteDone? || x.OutOfRange?
  }

  ghost predicate HandlerFrom(x: Handler, boards: set<seq<char>>) {
    && (x.ReadSent? || x.ReadDone? ==> x.buffer in boards)
    && (Requested(x) ==> Chosen(x.i, boards))
  }

  /** What handlers send and clients hold are such boards, and what clients ask for are first
      free cells of such boards. */
  ghost predicate CopiesFrom(s: Sys, boards: set<seq<char>>) {
    && (forall h :: h in s.handlers ==> HandlerFrom(s.handlers[h], boards))
    && (forall c :: c in s.clients && s.clients[c].Received? ==> s.clients[c].buffer in boards)
    && (forall v :: v in s.index ==> Chosen(s.index[v], boards))
  }

  lemma MoreBoards(s: Sys, a: set<seq<char>>, b: set<seq<char>>)
    requires CopiesFrom(s, a) && a <= b
    ensures CopiesFrom(s, b)
  {
    hide FirstUnoccupied;
  }

  lemma NextHandlerFrom(s: Sys, h: nat, boards: set<seq<char>>)
    requires HandlerStep(s, h).Some? && HandlerFrom(s.handlers[h], boards) && s.board in boards
    requires Holds(s.handlers[h], s.board)
    ensures var t := HandlerStep(s, h).value;
      && t.clients == s.clients && t.index == s.index
      && h in t.handlers && t.handlers == s.handlers[h := t.handlers[h]] && HandlerFrom(t.handlers[h], boards)
  {
    hide Semop, Chosen, Letter;
    assert s.handlers[h].Copying? && |s.handlers[h].buffer| >= SHM_BUFFER_SIZE ==> s.handlers[h].buffer == s.board;
  }

  lemma ClientStepFrom(shared: bool, s: Sys, c: nat, boards: set<seq<char>>)
    requires ClientStep(shared, s, c).Some? && CopiesFrom(s, boards) && BoardAt(0) in boards
    ensures CopiesFrom(ClientStep(shared, s, c).value, boards)
  {
    hide FirstUnoccupied, BoardAt;
    StartIsChosen(boards);
    assert s.clients[c].Received? ==> Chosen(FirstUnoccupied(s.clients[c].buffer), boards);
    assert Chosen(IndexOf(s, Variable(shared, c)), boards);
    hide Chosen;
  }

  /** The variable starts as 0, the first free cell of the full board. */
  lemma StartIsChosen(boards: set<seq<char>>)
    requires BoardAt(0) in boards
    ensures Chosen(0, boards)
  {
    FirstUnoccupiedOnBoard(0);
  }

  lemma StepFrom(shared: bool, s: Sys, a: Action, boards: set<seq<char>>)
    requires Inv(s) && Step(shared, s, a).Some? && !a.AskCell?
    requires CopiesFrom(s, boards) && s.board in boards && BoardAt(0) in boards
    ensures CopiesFrom(Step(shared, s, a).value, boards)
  {
    hide HandlerStep, ClientStep, Chosen, BoardAt, Counted, LettersOrTaken, GivenOut, Holds;
    match a
    case Handle(h) =>
      OfHandler(s, h);
      NextHandlerFrom(s, h, boards);
    case ClientTurn(c) => ClientStepFrom(shared, s, c, boards);
    case AskBoard =>
  }

  lemma OfHandler(s: Sys, h: nat)
    requires Inv(s) && HandlerStep(s, h).Some?
    ensures h in s.handlers && Holds(s.handlers[h], s.board)
  {
    hide Counted, LettersOrTaken, GivenOut, Holds, Semop;
  }

  lemma {:induction false} RunFrom(shared: bool, s: Sys, actions: seq<Action>, boards: set<seq<char>>)
    requires Inv(s) && Run(shared, s, actions).Some? && OnlyOwnClients(actions)
    requires CopiesFrom(s, boards) && BoardAt(0) in boards
    ensures CopiesFrom(Run(shared, s, actions).value, boards + BoardsOf(shared, s, actions))
    decreases |actions|
  {
    hide Inv, Step, CopiesFrom, BoardAt;
    MoreBoards(s, boards, boards + {s.board});
    if actions != [] {
      var s1 := Step(shared, s, actions[0]).value;
      StepKeepsInv(shared, s, actions[0]);
      StepFrom(shared, s, actions[0], boards + {s.board});
      RunFrom(shared, s1, actions[1..], boards + {s.board});
      assert boards + {s.board} + BoardsOf(shared, s1, actions[1..]) == boards + BoardsOf(shared, s, actions);
    } else {
      assert boards + {s.board} == boards + BoardsOf(shared, s, actions);
    }
  }

  /** In every run in which only the own clients ask for cells: every board sent or received is,
      whole, one that there was at some time of the run, and every index held or sent is the
      first free cell of such a board. */
  lemma CopiesAreOfTheRun(shared: bool, s: Sys, actions: seq<Action>)
    requires Start(s) && Run(shared, s, actions).Some? && OnlyOwnClients(actions)
    ensures CopiesFrom(Run(shared, s, actions).value, BoardsOf(shared, s, actions))
  {
    hide Inv, Run, BoardAt, OnlyOwnClients;
    StartIsInvariant(s);
    StartInBoards(shared, s, actions);
    RunFrom(shared, s, actions, {s.board});
    assert {s.board} + BoardsOf(shared, s, actions) == BoardsOf(shared, s, actions);
  }

  lemma StartInBoards(shared: bool, s: Sys, actions: seq<Action>)
    ensures s.board in BoardsOf(shared, s, actions)
  {
    hide Step;
  }

  // ---------------------------------------------------------------- one variable or one each

  /** Assigning the index: threads all see it, processes keep theirs apart. */
  lemma AssignmentIsSeenBy(shared: bool, s: Sys, c: nat, other: nat)
    requires c in s.clients && s.clients[c].Received?
    ensures var t := ClientStep(shared, s, c);
      && t.Some?
      && IndexOf(t.value, Variable(shared, other)) ==
         if shared || other == c then FirstUnoccupied(s.clients[c].buffer) else IndexOf(s, Variable(shared, other))
  {
    hide FirstUnoccupied;
  }

  /** No action but the turns of client c, if it is a process, touches its state or its index. */
  lemma {:induction false} ProcessIsUndisturbed(s: Sys, c: nat, actions: seq<Action>)
    requires Run(false, s, actions).Some? && c in s.clients && ClientTurn(c) !in actions
    ensures var t := Run(false, s, actions).value;
      c in t.clients && t.clients[c] == s.clients[c] && IndexOf(t, c) == IndexOf(s, c)
    decreases |actions|
  {
    hide HandlerStep;
    if actions != [] {
      assert actions[0] != ClientTurn(c);
      StepLeavesProcess(s, c, actions[0]);
      ProcessIsUndisturbed(Step(false, s, actions[0]).value, c, actions[1..]);
    }
  }

  lemma StepLeavesProcess(s: Sys, c: nat, a: Action)
    requires Step(false, s, a).Some? && c in s.clients && a != ClientTurn(c)
    ensures var t := Step(false, s, a).value;
      c in t.clients && t.clients[c] == s.clients[c] && IndexOf(t, c) == IndexOf(s, c)
  {
    hide FirstUnoccupied, Semop;
  }

  /** So a process asks for the first free cell of the very board it received, whatever happens
      between its two steps. */
  lemma ProcessAsksForItsChoice(s: Sys, c: nat, actions: seq<Action>)
    requires c in s.clients && s.clients[c].Received? && ClientTurn(c) !in actions
    requires ClientStep(false, s, c).Some? && Run(false, ClientStep(false, s, c).value, actions).Some?
    ensures var t := Run(false, ClientStep(false, s, c).value, actions).value;
      && ClientStep(false, t, c).Some?
      && t.next in ClientStep(false, t, c).value.handlers
      && ClientStep(false, t, c).value.handlers[t.next] == WriteWait(FirstUnoccupied(s.clients[c].buffer))
  {
    hide Run, FirstUnoccupied;
    AssignmentIsSeenBy(false, s, c, c);
    ProcessIsUndisturbed(ClientStep(false, s, c).value, c, actions);
  }
}
