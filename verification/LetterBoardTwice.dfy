/** A run of the concurrent letter board in which two of its own clients are handed the same
    letter. */
module LetterBoardTwice {
  import opened Options
  import opened Semaphores
  import opened Letters
  import opened LetterBoard
  import opened LetterBoardRuns
  import opened LetterBoardHandOuts
  import opened LetterBoardClients

  lemma {:induction false} RunOfConcat(shared: bool, s: Sys, a: seq<Action>, b: seq<Action>)
    ensures Run(shared, s, a + b) ==
      if Run(shared, s, a).Some? then Run(shared, Run(shared, s, a).value, b) else None
    decreases |a|
  {
    if a == [] {
      assert a + b == b;
    } else {
      assert (a + b)[1..] == a[1..] + b;
      hide Step;
      if Step(shared, s, a[0]).Some? {
        RunOfConcat(shared, Step(shared, s, a[0]).value, a[1..], b);
      }
    }
  }

  lemma RunOfOne(shared: bool, s: Sys, a: Action)
    ensures Run(shared, s, [a]) == Step(shared, s, a)
  {
    hide Step;
    assert [a][1..] == [];
  }

  /** Some run of the own clients leads from s to t. */
  ghost predicate Leads(shared: bool, s: Sys, t: Sys) {
    exists actions :: OnlyOwnClients(actions) && Run(shared, s, actions) == Some(t)
  }

  lemma LeadsNowhere(shared: bool, s: Sys)
    ensures Leads(shared, s, s)
  {
    assert OnlyOwnClients([]) && Run(shared, s, []) == Some(s);
  }

  lemma LeadsByStep(shared: bool, s: Sys, m: Sys, a: Action, t: Sys)
    requires Leads(shared, s, m) && !a.AskCell? && Step(shared, m, a) == Some(t)
    ensures Leads(shared, s, t)
  {
    hide Step, Run;
    var actions :| OnlyOwnClients(actions) && Run(shared, s, actions) == Some(m);
    RunOfOne(shared, m, a);
    RunOfConcat(shared, s, actions, [a]);
    assert OnlyOwnClients(actions + [a]) && Run(shared, s, actions + [a]) == Some(t);
  }

  lemma {:induction false} LeadsByCopying(shared: bool, s: Sys, m: Sys, h: nat)
    requires Leads(shared, s, m) && h in m.handlers && m.handlers[h].Copying? && m.handlers[h].buffer <= m.board
    ensures Leads(shared, s, Put(m, h, ReadSent(m.board, m.handlers[h].atStart)))
    decreases SHM_BUFFER_SIZE - |m.handlers[h].buffer|
  {
    hide Leads;
    var x := m.handlers[h];
    var m1 := HandlerStep(m, h).value;
    LeadsByStep(shared, s, m, Handle(h), m1);
    if |x.buffer| < SHM_BUFFER_SIZE {
      assert x.buffer + [m.board[|x.buffer|]] == m.board[..|x.buffer| + 1];
      LeadsByCopying(shared, s, m1, h);
      assert Put(m1, h, ReadSent(m.board, x.atStart)) == Put(m, h, ReadSent(m.board, x.atStart));
    } else {
      assert x.buffer == m.board;
    }
  }

  predicate NobodyInside(s: Sys) {
    s.sems == [0, 0, 0, 0]
  }

  /** A client asks for the board while nobody is inside, and its handler serves it. */
  lemma LeadsByServing(shared: bool, s: Sys, m: Sys, c: nat)
    requires Leads(shared, s, m) && NobodyInside(m) && c in m.clients && m.clients[c].Idle?
    requires forall h :: h in m.handlers ==> h < m.next
    ensures exists t :: Leads(shared, s, t) && t == Put(m, m.next, ReadDone(m.board)).(
      next := m.next + 1, clients := m.clients[c := AskedBoard(m.next)])
  {
    hide Leads;
    var h := m.next;
    var m1 := ClientStep(shared, m, c).value;
    LeadsByStep(shared, s, m, ClientTurn(c), m1);
    StartAndStopRead();
    var m2 := Put(m1, h, Copying([], m.board)).(sems := [0, 1, 0, 0]);
    LeadsByStep(shared, s, m1, Handle(h), m2);
    LeadsByCopying(shared, s, m2, h);
    var m3 := Put(m2, h, ReadSent(m.board, m.board));
    var m4 := Put(m3, h, ReadDone(m.board)).(sems := [0, 0, 0, 0]);
    LeadsByStep(shared, s, m3, Handle(h), m4);
    assert m4.handlers == m.handlers[h := ReadDone(m.board)];
  }

  /** A client reads the board while nobody is inside and asks for the first free cell. */
  lemma LeadsByFetching(shared: bool, s: Sys, m: Sys, c: nat)
    requires Leads(shared, s, m) && NobodyInside(m) && c in m.clients && m.clients[c].Idle?
    requires forall h :: h in m.handlers ==> h < m.next
    ensures exists t :: Leads(shared, s, t) && Fetched(m, t, c)
  {
    hide Leads;
    LeadsByServing(shared, s, m, c);
    var m4 := Put(m, m.next, ReadDone(m.board)).(next := m.next + 1, clients := m.clients[c := AskedBoard(m.next)]);
    var m5 := ClientStep(shared, m4, c).value;
    LeadsByStep(shared, s, m4, ClientTurn(c), m5);
    var m6 := ClientStep(shared, m5, c).value;
    LeadsByStep(shared, s, m5, ClientTurn(c), m6);
    var m7 := ClientStep(shared, m6, c).value;
    LeadsByStep(shared, s, m6, ClientTurn(c), m7);
    assert Fetched(m, m7, c);
  }

  lemma StartAndStopRead()
    ensures Semop([0, 0, 0, 0], START_READ) == Done([0, 1, 0, 0])
    ensures Semop([0, 1, 0, 0], STOP_READ) == Done([0, 0, 0, 0])
    ensures Semop([0, 0, 0, 0], START_WRITE) == Done([0, 0, 1, 0])
    ensures Semop([0, 0, 1, 0], START_WRITE) == Done([0, 0, 2, 0])
  {
    WaitingIsInvisible([0, 0, 0, 0]);
    WaitingIsInvisible([0, 0, 1, 0]);
    ShortEffects([0, 0, 0, 0]);
    ShortEffects([0, 1, 0, 0]);
    ShortEffects([0, 0, 1, 0]);
  }

  predicate Fetched(m: Sys, t: Sys, c: nat) {
    && NobodyInside(t) && t.board == m.board && t.given == m.given && t.next == m.next + 2
    && t.handlers == m.handlers[m.next := ReadDone(m.board)][m.next + 1 := WriteWait(FirstUnoccupied(m.board))]
    && c in m.clients && t.clients == m.clients[c := AskedCell(m.next + 1)]
  }

  /** Two writers waiting for the same free cell while nobody is inside: if both get in and
      read the cell before either marks it, both are handed its letter. */
  lemma OverlappingWritersShareALetter(shared: bool, s: Sys, m: Sys, g: nat, h: nat, d: int)
    requires Leads(shared, s, m) && NobodyInside(m) && g != h && 0 <= d < SHM_BUFFER_SIZE && m.board == BoardAt(d)
    requires g in m.handlers && m.handlers[g] == WriteWait(d) && h in m.handlers && m.handlers[h] == WriteWait(d)
    ensures exists t :: Leads(shared, s, t) && t.given == m.given + [(d, Letter(d))] + [(d, Letter(d))]
  {
    hide Leads;
    StartAndStopRead();
    var m1 := Put(m, g, WriteIn(d)).(sems := [0, 0, 1, 0]);
    LeadsByStep(shared, s, m, Handle(g), m1);
    var m2 := Put(m1, h, WriteIn(d)).(sems := [0, 0, 2, 0]);
    LeadsByStep(shared, s, m1, Handle(h), m2);
    var m3 := Put(m2, g, WriteGot(d, Letter(d)));
    LeadsByStep(shared, s, m2, Handle(g), m3);
    var m4 := Put(m3, h, WriteGot(d, Letter(d)));
    LeadsByStep(shared, s, m3, Handle(h), m4);
    var m5 := HandlerStep(m4, g).value;
    LeadsByStep(shared, s, m4, Handle(g), m5);
    var m6 := HandlerStep(m5, h).value;
    LeadsByStep(shared, s, m5, Handle(h), m6);
    assert m6.given == m.given + [(d, Letter(d))] + [(d, Letter(d))];
  }

  /** With two clients, as threads or as processes, some run from the start hands the letter
      'a' out twice. */
  lemma SomeLetterIsHandedOutTwice(shared: bool, s: Sys)
    requires Start(s) && 0 in s.clients && 1 in s.clients
    ensures exists actions ::
      OnlyOwnClients(actions) && Run(shared, s, actions).Some? && !Distinct(Run(shared, s, actions).value.given)
  {
    hide Run, Leads;
    LeadsNowhere(shared, s);
    LeadsByFetching(shared, s, s, 0);
    var m :| Leads(shared, s, m) && Fetched(s, m, 0);
    LeadsByFetching(shared, s, m, 1);
    var t :| Leads(shared, s, t) && Fetched(m, t, 1);
    FirstUnoccupiedOnBoard(0);
    OverlappingWritersShareALetter(shared, s, t, 1, 3, 0);
    var u :| Leads(shared, s, u) && u.given == t.given + [(0, Letter(0))] + [(0, Letter(0))];
    assert u.given[0] == u.given[1];
    LedToBy(shared, s, u);
  }

  lemma LedToBy(shared: bool, s: Sys, u: Sys)
    requires Leads(shared, s, u)
    ensures exists actions ::
      OnlyOwnClients(actions) && Run(shared, s, actions).Some? && Run(shared, s, actions).value == u
  {
    hide Run;
    var actions :| OnlyOwnClients(actions) && Run(shared, s, actions) == Some(u);
    assert Run(shared, s, actions).Some? && Run(shared, s, actions).value == u;
  }
}
