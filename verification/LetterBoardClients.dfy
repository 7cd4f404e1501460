/** The concurrent letter board with the repository's own clients: threads that share one index
    variable, or processes with one each.  Anybody may read the board, but only these clients
    ask for cells. */
module LetterBoardClients {
  import opened Semaphores
  import opened Letters
  import opened LetterBoard
  import opened LetterBoardRuns

  predicate OnlyOwnClients(actions: seq<Action>) {
    forall k :: 0 <= k < |actions| ==> !actions[k].AskCell?
  }

  /** An index a client can hold when d letters are taken: the first free cell of now or of
      some earlier time, or -1 once nothing is left. */
  predicate Fits(i: int, d: int) {
    if i == -1 then d == SHM_BUFFER_SIZE else 0 <= i <= d && i < SHM_BUFFER_SIZE
  }

  /** What a handler holds when the board has d letters taken. */
  predicate HandlerFits(x: Handler, d: int) {
    match x
    case ReadDone(buffer) => Fits(FirstUnoccupied(buffer), d)
    case WriteWait(i) => Fits(i, d)
    case WriteIn(i) => Fits(i, d)
    case WriteGot(i, ch) => i <= d
    case OutOfRange(i) => i == -1 && d == SHM_BUFFER_SIZE
    case _ => true
  }

  predicate ClientFits(x: Client, d: int) {
    x.Received? ==> Fits(FirstUnoccupied(x.buffer), d)
  }

  /** The first d cells, and no others, are taken; every handler, client and index variable
      fits that board. */
  predicate Prefix(s: Sys, d: int) {
    && 0 <= d <= SHM_BUFFER_SIZE && s.board == BoardAt(d)
    && (forall h :: h in s.handlers ==> HandlerFits(s.handlers[h], d))
    && (forall c :: c in s.clients ==> ClientFits(s.clients[c], d))
    && (forall v :: v in s.index ==> Fits(s.index[v], d))
  }

  /** The number of taken cells after a step. */
  function NextTaken(s: Sys, d: int, a: Action): int {
    if a.Handle? && Pending(s, a.h) && s.handlers[a.h].i == d then d + 1 else d
  }

  lemma StartIsPrefix(s: Sys)
    requires Start(s)
    ensures Prefix(s, 0)
  {
  }

  lemma HandlerFitsLater(x: Handler, d: int)
    requires 0 <= d < SHM_BUFFER_SIZE && HandlerFits(x, d)
    ensures HandlerFits(x, d + 1)
  {
  }

  /** A writer's mark, however stale its reading, extends the prefix by one or not at all. */
  lemma MarkingKeepsPrefix(s: Sys, d: int, h: nat)
    requires Prefix(s, d) && Pending(s, h)
    ensures HandlerStep(s, h).Some?
    ensures Prefix(HandlerStep(s, h).value, NextTaken(s, d, Handle(h)))
  {
    hide BoardAt, FirstUnoccupied, Letter;
    var t := HandlerStep(s, h).value;
    var i := s.handlers[h].i;
    assert HandlerFits(s.handlers[h], d);
    MarkingExtendsPrefix(d, i);
    if i == d {
      forall g | g in t.handlers ensures HandlerFits(t.handlers[g], d + 1) {
        if g != h { HandlerFitsLater(s.handlers[g], d); }
      }
    }
  }

  lemma NextHandlerFits(s: Sys, d: int, h: nat)
    requires HandlerStep(s, h).Some? && !Pending(s, h)
    requires 0 <= d <= SHM_BUFFER_SIZE && s.board == BoardAt(d)
    requires Holds(s.handlers[h], s.board) && HandlerFits(s.handlers[h], d)
    ensures var t := HandlerStep(s, h).value;
      && t.board == s.board && t.clients == s.clients && t.index == s.index
      && h in t.handlers && t.handlers == s.handlers[h := t.handlers[h]] && HandlerFits(t.handlers[h], d)
  {
    hide Semop, FirstUnoccupied, BoardAt, Letter;
    FirstUnoccupiedOnBoard(d);
    assert s.handlers[h].WriteIn? && 0 <= s.handlers[h].i < SHM_BUFFER_SIZE ==> s.handlers[h].i <= d;
  }

  lemma StepsAreOfHandlers(s: Sys, h: nat)
    requires HandlerStep(s, h).Some?
    ensures h in s.handlers
  {
  }

  lemma HandlerKeepsPrefix(s: Sys, d: int, h: nat)
    requires Inv(s) && Prefix(s, d) && HandlerStep(s, h).Some? && !Pending(s, h)
    ensures Prefix(HandlerStep(s, h).value, d)
  {
    hide HandlerStep, Counted, GivenOut, LettersOrTaken, Holds, HandlerFits, ClientFits, Fits, BoardAt;
    assert h in s.handlers by {
      StepsAreOfHandlers(s, h);
    }
    NextHandlerFits(s, d, h);
  }

  lemma NextClientFits(shared: bool, s: Sys, d: int, c: nat)
    requires AllHold(s) && Prefix(s, d) && ClientStep(shared, s, c).Some?
    ensures var t := ClientStep(shared, s, c).value;
      && t.board == s.board && c in t.clients && t.clients == s.clients[c := t.clients[c]]
      && ClientFits(t.clients[c], d)
      && (forall v :: v in t.index ==> Fits(t.index[v], d))
  {
    hide FirstUnoccupied, BoardAt, Letter;
    FirstUnoccupiedOnBoard(d);
    assert forall h :: h in s.handlers ==> Holds(s.handlers[h], s.board);
  }

  lemma NextRequestFits(shared: bool, s: Sys, d: int, c: nat)
    requires Prefix(s, d) && ClientStep(shared, s, c).Some? && forall h :: h in s.handlers ==> h < s.next
    ensures var t := ClientStep(shared, s, c).value;
      forall h :: h in t.handlers ==>
        (h in s.handlers && t.handlers[h] == s.handlers[h]) || HandlerFits(t.handlers[h], d)
  {
    hide FirstUnoccupied, BoardAt;
  }

  /** Even through a shared index variable and a stale copy, a client keeps within the prefix. */
  lemma ClientKeepsPrefix(shared: bool, s: Sys, d: int, c: nat)
    requires Inv(s) && Prefix(s, d) && ClientStep(shared, s, c).Some?
    ensures Prefix(ClientStep(shared, s, c).value, d)
  {
    hide ClientStep, HandlerFits, ClientFits, Fits, BoardAt, GivenOut, AllHold, LettersOrTaken;
    hide ReadersIn, WritersIn, Exits;
    NextClientFits(shared, s, d, c);
    NextRequestFits(shared, s, d, c);
  }

  lemma StepKeepsPrefix(shared: bool, s: Sys, d: int, a: Action)
    requires Inv(s) && Prefix(s, d) && !a.AskCell? && Step(shared, s, a).Some?
    ensures Prefix(Step(shared, s, a).value, NextTaken(s, d, a)) && d <= NextTaken(s, d, a)
  {
    hide Inv, HandlerStep, ClientStep, BoardAt, FirstUnoccupied;
    match a
    case Handle(h) =>
      if Pending(s, h) {
        MarkingKeepsPrefix(s, d, h);
      } else {
        HandlerKeepsPrefix(s, d, h);
      }
    case ClientTurn(c) => ClientKeepsPrefix(shared, s, d, c);
    case AskBoard =>
  }

  // ---------------------------------------------------------------- runs

  /** The number of taken cells after a run. */
  function TakenAfter(shared: bool, s: Sys, d: int, actions: seq<Action>): int
    decreases |actions|
  {
    if actions == [] || Step(shared, s, actions[0]).None? then d
    else TakenAfter(shared, Step(shared, s, actions[0]).value, NextTaken(s, d, actions[0]), actions[1..])
  }

  /** In every run of the own clients the taken cells are a prefix of the board that only
      grows. */
  lemma {:induction false} RunKeepsPrefix(shared: bool, s: Sys, d: int, actions: seq<Action>)
    requires Inv(s) && Prefix(s, d) && Run(shared, s, actions).Some? && OnlyOwnClients(actions)
    ensures d <= TakenAfter(shared, s, d, actions)
    ensures Prefix(Run(shared, s, actions).value, TakenAfter(shared, s, d, actions))
    decreases |actions|
  {
    hide Inv, Prefix, Step, NextTaken;
    if actions != [] {
      StepKeepsInv(shared, s, actions[0]);
      StepKeepsPrefix(shared, s, d, actions[0]);
      RunKeepsPrefix(shared, Step(shared, s, actions[0]).value, NextTaken(s, d, actions[0]), actions[1..]);
    }
  }

  /** Every index a client holds or has sent, however stale or overwritten, is at most the
      number of taken cells, or is -1 with every cell taken; the taken cells are a prefix; and
      a request is out of range only when every cell is taken. */
  lemma IndicesStayInPrefix(shared: bool, s: Sys, actions: seq<Action>)
    requires Start(s) && Run(shared, s, actions).Some? && OnlyOwnClients(actions)
    ensures var t, d := Run(shared, s, actions).value, TakenAfter(shared, s, 0, actions);
      && 0 <= d <= SHM_BUFFER_SIZE
      && (forall j :: 0 <= j < SHM_BUFFER_SIZE ==> t.board[j] == if j < d then TAKEN else Letter(j))
      && (forall v :: v in t.index ==> Fits(t.index[v], d))
      && (forall h :: h in t.handlers && (t.handlers[h].WriteWait? || t.handlers[h].WriteIn?) ==>
            Fits(t.handlers[h].i, d))
      && (forall h :: h in t.handlers && t.handlers[h].OutOfRange? ==> d == SHM_BUFFER_SIZE)
  {
    hide Inv, Run, TakenAfter, OnlyOwnClients, Fits, Letter;
    StartIsInvariant(s);
    StartIsPrefix(s);
    RunKeepsPrefix(shared, s, 0, actions);
    var t, d := Run(shared, s, actions).value, TakenAfter(shared, s, 0, actions);
    assert forall h :: h in t.handlers ==> HandlerFits(t.handlers[h], d);
  }
}
