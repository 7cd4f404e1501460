/** Runs of the concurrent letter board that take the out-of-range exit of the writer, which
    locks readers out for ever. */
module LetterBoardExit {
  import opened Options
  import opened Semaphores
  import opened Letters
  import opened LetterBoard
  import opened LetterBoardRuns
  import opened LetterBoardClients
  import opened LetterBoardTwice

  /** One request for a cell that does not exist is enough, in any state with no reader inside
      and whatever letters are left. */
  lemma OutOfRangeRequestExits(shared: bool, s: Sys, i: int)
    requires Counted(s) && ReadersIn(s) == {} && (i < 0 || i >= SHM_BUFFER_SIZE)
    ensures var t := Run(shared, s, [AskCell(i), Handle(s.next), Handle(s.next)]);
      t.Some? && Exits(t.value) == Exits(s) + {s.next} && t.value.board == s.board && t.value.given == s.given
  {
    hide Semop, ReadersIn;
    var actions := [AskCell(i), Handle(s.next), Handle(s.next)];
    assert actions[1..] == [Handle(s.next), Handle(s.next)] && actions[1..][1..] == [Handle(s.next)];
    assert actions[1..][1..][1..] == [];
    var s1 := Accept(s, WriteWait(i));
    StartEffects(s);
    var s2 := Put(s1, s.next, WriteIn(i)).(sems := s.sems[ACTIVE_WRITER := s.sems[ACTIVE_WRITER] + 1]);
    assert Step(shared, s1, Handle(s.next)) == Some(s2);
    assert Run(shared, s1, actions[1..]) == Run(shared, s2, actions[1..][1..]);
    var s3 := Put(s2, s.next, OutOfRange(i));
    assert Step(shared, s2, Handle(s.next)) == Some(s3);
    assert Run(shared, s2, actions[1..][1..]) == Run(shared, s3, actions[1..][1..][1..]);
  }

  /** So from the start one such request leaves the full board unreadable in every
      continuation. */
  lemma OneRequestLocksFullBoard(shared: bool, s: Sys, i: int, actions: seq<Action>)
    requires Start(s) && (i < 0 || i >= SHM_BUFFER_SIZE)
    requires Run(shared, s, [AskCell(i), Handle(0), Handle(0)]).Some?
    requires Run(shared, Run(shared, s, [AskCell(i), Handle(0), Handle(0)]).value, actions).Some?
    ensures var u := Run(shared, s, [AskCell(i), Handle(0), Handle(0)]).value;
      var t := Run(shared, u, actions).value;
      u.board == BoardAt(0) && forall h :: h in t.handlers && t.handlers[h].ReadWait? ==> HandlerStep(t, h).None?
  {
    hide Run, HandlerStep, BoardAt;
    StartIsInvariant(s);
    OutOfRangeRequestExits(shared, s, i);
    RunKeepsInv(shared, s, [AskCell(i), Handle(0), Handle(0)]);
    ExitLocksReadersOut(shared, Run(shared, s, [AskCell(i), Handle(0), Handle(0)]).value, actions);
  }

  // ---------------------------------------------------------------- own clients

  /** Nobody is inside, d letters are taken, and client c is about to begin. */
  predicate Ready(m: Sys, c: nat, d: int) {
    && 0 <= d <= SHM_BUFFER_SIZE && m.board == BoardAt(d) && NobodyInside(m)
    && c in m.clients && m.clients[c].Idle?
    && (forall h :: h in m.handlers ==> h < m.next)
  }

  lemma StopWrite()
    ensures Semop([0, 0, 1, 0], STOP_WRITE) == Done([0, 0, 0, 0])
  {
    ShortEffects([0, 0, 1, 0]);
  }

  lemma LeadsByServingWriter(shared: bool, s: Sys, m: Sys, h: nat, d: int)
    requires Leads(shared, s, m) && NobodyInside(m) && 0 <= d < SHM_BUFFER_SIZE && m.board == BoardAt(d)
    requires h in m.handlers && m.handlers[h] == WriteWait(d)
    ensures exists t ::
      && Leads(shared, s, t) && NobodyInside(t) && t.board == BoardAt(d + 1)
      && t.next == m.next && t.clients == m.clients && t.handlers == m.handlers[h := WriteDone(d, Letter(d))]
  {
    hide Leads, Semop;
    StartAndStopRead();
    StopWrite();
    MarkingExtendsPrefix(d, d);
    var ch := Letter(d);
    var m1 := Put(m, h, WriteIn(d)).(sems := [0, 0, 1, 0]);
    LeadsByStep(shared, s, m, Handle(h), m1);
    var m2 := Put(m1, h, WriteGot(d, ch));
    LeadsByStep(shared, s, m1, Handle(h), m2);
    var m3 := Put(m2, h, WriteMarked(d, ch)).(
      board := m.board[d := TAKEN], given := m.given + [(d, ch)], givenTo := m.givenTo + [h]);
    LeadsByStep(shared, s, m2, Handle(h), m3);
    var m4 := Put(m3, h, WriteSent(d, ch));
    LeadsByStep(shared, s, m3, Handle(h), m4);
    var m5 := Put(m4, h, WriteDone(d, ch)).(sems := [0, 0, 0, 0]);
    LeadsByStep(shared, s, m4, Handle(h), m5);
    assert m5.handlers == m.handlers[h := WriteDone(d, ch)];
  }

  /** A client that is left alone takes the next letter and is ready again. */
  lemma LeadsByTaking(shared: bool, s: Sys, m: Sys, c: nat, d: int)
    requires Leads(shared, s, m) && Ready(m, c, d) && d < SHM_BUFFER_SIZE
    ensures exists t :: Leads(shared, s, t) && Ready(t, c, d + 1)
  {
    hide Leads, BoardAt, HandlerStep, FirstUnoccupied;
    LeadsByFetching(shared, s, m, c);
    var t :| Leads(shared, s, t) && Fetched(m, t, c);
    FirstUnoccupiedOnBoard(d);
    LeadsByServingWriter(shared, s, t, m.next + 1, d);
    var u :|
      && Leads(shared, s, u) && NobodyInside(u) && u.board == BoardAt(d + 1)
      && u.next == t.next && u.clients == t.clients
      && u.handlers == t.handlers[m.next + 1 := WriteDone(d, Letter(d))];
    var v := u.(clients := u.clients[c := Idle]);
    LeadsByStep(shared, s, u, ClientTurn(c), v);
    assert Ready(v, c, d + 1);
  }

  lemma {:induction false} LeadsToTaken(shared: bool, s: Sys, c: nat, d: int)
    requires Start(s) && c in s.clients && 0 <= d <= SHM_BUFFER_SIZE
    ensures exists t :: Leads(shared, s, t) && Ready(t, c, d)
    decreases d
  {
    hide Leads, BoardAt;
    if d == 0 {
      LeadsNowhere(shared, s);
      assert Ready(s, c, 0);
    } else {
      LeadsToTaken(shared, s, c, d - 1);
      var m :| Leads(shared, s, m) && Ready(m, c, d - 1);
      LeadsByTaking(shared, s, m, c, d - 1);
    }
  }

  /** A client that takes letter after letter brings the exit about itself: its next request,
      on the empty board, is for cell -1. */
  lemma OwnClientsReachExit(shared: bool, s: Sys, c: nat)
    requires Start(s) && c in s.clients
    ensures exists actions ::
      OnlyOwnClients(actions) && Run(shared, s, actions).Some? && Exits(Run(shared, s, actions).value) != {}
  {
    hide Leads, BoardAt, Run, Semop, FirstUnoccupied;
    LeadsToTaken(shared, s, c, SHM_BUFFER_SIZE);
    var m :| Leads(shared, s, m) && Ready(m, c, SHM_BUFFER_SIZE);
    LeadsByFetching(shared, s, m, c);
    var t :| Leads(shared, s, t) && Fetched(m, t, c);
    FirstUnoccupiedOnBoard(SHM_BUFFER_SIZE);
    var h := m.next + 1;
    StartAndStopRead();
    var t1 := Put(t, h, WriteIn(-1)).(sems := [0, 0, 1, 0]);
    LeadsByStep(shared, s, t, Handle(h), t1);
    var t2 := Put(t1, h, OutOfRange(-1));
    LeadsByStep(shared, s, t1, Handle(h), t2);
    assert h in Exits(t2);
    LedToBy(shared, s, t2);
  }
}
