/** The concurrent letter board: server handlers (one per request, processes or threads) that
    share 52 cells under System V semaphores; requests from anybody, for the board or for any
    cell; and the repository's own clients, which read a copy of the board, pick the first free
    cell, and ask for it. */
module LetterBoard {
  import opened Counting
  import opened Options
  import opened Semaphores
  import opened Letters

  const WAITING_READERS := 0
  const ACTIVE_READERS := 1
  const ACTIVE_WRITER := 2
  const WAITING_WRITERS := 3

  const START_READ := [
    Sembuf(WAITING_READERS, V), Sembuf(ACTIVE_WRITER, 0), Sembuf(WAITING_WRITERS, 0),
    Sembuf(WAITING_READERS, P), Sembuf(ACTIVE_READERS, V)]
  const STOP_READ := [Sembuf(ACTIVE_READERS, P)]
  const START_WRITE := [
    Sembuf(WAITING_WRITERS, V), Sembuf(ACTIVE_READERS, 0), Sembuf(ACTIVE_WRITER, V), Sembuf(WAITING_WRITERS, P)]
  const STOP_WRITE := [Sembuf(ACTIVE_WRITER, P)]

  /** The two start arrays without their operations on the WAITING semaphores. */
  const SHORT_START_READ := [Sembuf(ACTIVE_WRITER, 0), Sembuf(ACTIVE_READERS, V)]
  const SHORT_START_WRITE := [Sembuf(ACTIVE_READERS, 0), Sembuf(ACTIVE_WRITER, V)]

  /** While no writer is recorded as waiting, the start arrays act like the short ones. */
  lemma WaitingIsInvisible(sems: seq<nat>)
    requires |sems| == 4 && sems[WAITING_WRITERS] == 0
    ensures Semop(sems, START_READ) == Semop(sems, SHORT_START_READ)
    ensures Semop(sems, START_WRITE) == Semop(sems, SHORT_START_WRITE)
  {
    var mid := [Sembuf(ACTIVE_WRITER, 0), Sembuf(WAITING_WRITERS, 0)];
    var rest := [Sembuf(ACTIVE_READERS, V)];
    BracketIsInvisible(sems, WAITING_READERS, mid, rest);
    assert START_READ == [Sembuf(WAITING_READERS, V)] + mid + [Sembuf(WAITING_READERS, P)] + rest;
    WaitForZeroIsInvisible(sems, WAITING_WRITERS, [Sembuf(ACTIVE_WRITER, 0)], rest);
    assert mid + rest == [Sembuf(ACTIVE_WRITER, 0)] + [Sembuf(WAITING_WRITERS, 0)] + rest;
    assert SHORT_START_READ == [Sembuf(ACTIVE_WRITER, 0)] + rest;
    BracketIsInvisible(sems, WAITING_WRITERS, SHORT_START_WRITE, []);
    assert START_WRITE == [Sembuf(WAITING_WRITERS, V)] + SHORT_START_WRITE + [Sembuf(WAITING_WRITERS, P)] + [];
    assert SHORT_START_WRITE + [] == SHORT_START_WRITE;
  }

  lemma ShortEffects(sems: seq<nat>)
    requires |sems| == 4
    ensures Semop(sems, SHORT_START_READ) ==
      if sems[ACTIVE_WRITER] == 0 then Done(sems[ACTIVE_READERS := sems[ACTIVE_READERS] + 1]) else Blocks
    ensures Semop(sems, SHORT_START_WRITE) ==
      if sems[ACTIVE_READERS] == 0 then Done(sems[ACTIVE_WRITER := sems[ACTIVE_WRITER] + 1]) else Blocks
    ensures Semop(sems, STOP_READ) ==
      if sems[ACTIVE_READERS] > 0 then Done(sems[ACTIVE_READERS := sems[ACTIVE_READERS] - 1]) else Blocks
    ensures Semop(sems, STOP_WRITE) ==
      if sems[ACTIVE_WRITER] > 0 then Done(sems[ACTIVE_WRITER := sems[ACTIVE_WRITER] - 1]) else Blocks
  {
    Perform2(sems, Sembuf(ACTIVE_WRITER, 0), Sembuf(ACTIVE_READERS, V));
    assert sems[ACTIVE_WRITER] == 0 ==> sems[ACTIVE_WRITER := 0] == sems;
    Perform1(sems, Sembuf(ACTIVE_READERS, V));
    Perform2(sems, Sembuf(ACTIVE_READERS, 0), Sembuf(ACTIVE_WRITER, V));
    assert sems[ACTIVE_READERS] == 0 ==> sems[ACTIVE_READERS := 0] == sems;
    Perform1(sems, Sembuf(ACTIVE_WRITER, V));
    Perform1(sems, Sembuf(ACTIVE_READERS, P));
    Perform1(sems, Sembuf(ACTIVE_WRITER, P));
  }

  // ---------------------------------------------------------------- handlers and clients

  /** A request being served.  A reader copies the board cell by cell (`atStart` is history:
      the whole board when it got in), sends the copy, and gets out; a writer reads its cell,
      marks it unless it was taken, sends its reply `ch`, and gets out.  The out-of-range exit
      of the writer replies and returns without getting out. */
  datatype Handler =
    | ReadWait
    | Copying(buffer: seq<char>, atStart: seq<char>)
    | ReadSent(buffer: seq<char>, atStart: seq<char>)
    | ReadDone(buffer: seq<char>)
    | WriteWait(i: int)
    | WriteIn(i: int)
    | WriteGot(i: int, ch: char)
    | WriteMarked(i: int, ch: char)
    | WriteSent(i: int, ch: char)
    | WriteDone(i: int, ch: char)
    | OutOfRange(i: int)

  /** A client in its loop: it asks for the board, receives a copy, assigns the index of the
      first free cell, asks for the cell, and receives the reply. */
  datatype Client = Idle | AskedBoard(h: nat) | Received(buffer: seq<char>) | Assigned | AskedCell(h: nat)

  /** `index` holds the variables first_unoccupied_idx; `given` and `givenTo` are history:
      the letters handed out, with their cells, in order, and the handlers that did. */
  datatype Sys = Sys(
    sems: seq<nat>, board: Board, handlers: map<nat, Handler>, next: nat,
    clients: map<nat, Client>, index: map<nat, int>, given: seq<(int, char)>, givenTo: seq<nat>)

  /** A step of a handler, a step of one of the own clients, or a request from anybody else. */
  datatype Action = Handle(h: nat) | ClientTurn(c: nat) | AskBoard | AskCell(i: int)

  /** Any number of clients; one index variable for all of them if they are threads (`shared`),
      otherwise one each. */
  function Variable(shared: bool, c: nat): nat {
    if shared then 0 else c
  }

  function IndexOf(s: Sys, v: nat): int {
    if v in s.index then s.index[v] else 0
  }

  predicate Start(s: Sys) {
    && s.sems == [0, 0, 0, 0] && s.board == BoardAt(0) && s.handlers == map[] && s.next == 0
    && s.index == map[] && s.given == [] && s.givenTo == []
    && (forall c :: c in s.clients ==> s.clients[c].Idle?)
  }

  function Put(s: Sys, h: nat, x: Handler): Sys {
    s.(handlers := s.handlers[h := x])
  }

  /** A request is accepted: a new handler starts on it. */
  function Accept(s: Sys, x: Handler): Sys {
    Put(s, s.next, x).(next := s.next + 1)
  }

  function AfterSemop(s: Sys, h: nat, ops: seq<Sembuf>, x: Handler): Option<Sys> {
    match Semop(s.sems, ops)
    case Done(sems) => Some(Put(s, h, x).(sems := sems))
    case _ => None
  }

  /** One step of a handler.  None: it sleeps in semop, or it is finished. */
  function HandlerStep(s: Sys, h: nat): Option<Sys> {
    if h !in s.handlers then None
    else match s.handlers[h]
      case ReadWait => AfterSemop(s, h, START_READ, Copying([], s.board))
      case Copying(buffer, atStart) =>
        if |buffer| < SHM_BUFFER_SIZE then Some(Put(s, h, Copying(buffer + [s.board[|buffer|]], atStart)))
        else Some(Put(s, h, ReadSent(buffer, atStart)))
      case ReadSent(buffer, _) => AfterSemop(s, h, STOP_READ, ReadDone(buffer))
      case WriteWait(i) => AfterSemop(s, h, START_WRITE, WriteIn(i))
      case WriteIn(i) =>
        if i < 0 || i >= SHM_BUFFER_SIZE then Some(Put(s, h, OutOfRange(i)))
        else Some(Put(s, h, WriteGot(i, s.board[i])))
      case WriteGot(i, ch) =>
        if ch == TAKEN || i < 0 || i >= SHM_BUFFER_SIZE then Some(Put(s, h, WriteMarked(i, ch)))
        else
          Some(Put(s, h, WriteMarked(i, ch)).(
               board := s.board[i := TAKEN], given := s.given + [(i, ch)], givenTo := s.givenTo + [h]))
      case WriteMarked(i, ch) => Some(Put(s, h, WriteSent(i, ch)))
      case WriteSent(i, ch) => AfterSemop(s, h, STOP_WRITE, WriteDone(i, ch))
      case _ => None
  }

  /** One step of a client.  None: it waits for an answer. */
  function ClientStep(shared: bool, s: Sys, c: nat): Option<Sys> {
    if c !in s.clients then None
    else match s.clients[c]
      case Idle =>
        Some(Accept(s, ReadWait).(clients := s.clients[c := AskedBoard(s.next)]))
      case AskedBoard(h) =>
        if h in s.handlers && (s.handlers[h].ReadSent? || s.handlers[h].ReadDone?)
        then Some(s.(clients := s.clients[c := Received(s.handlers[h].buffer)]))
        else None
      case Received(buffer) =>
        Some(s.(index := s.index[Variable(shared, c) := FirstUnoccupied(buffer)], clients := s.clients[c := Assigned]))
      case Assigned =>
        Some(Accept(s, WriteWait(IndexOf(s, Variable(shared, c)))).(clients := s.clients[c := AskedCell(s.next)]))
      case AskedCell(h) =>
        if h in s.handlers && (s.handlers[h].WriteSent? || s.handlers[h].WriteDone? || s.handlers[h].OutOfRange?)
        then Some(s.(clients := s.clients[c := Idle]))
        else None
  }

  function Step(shared: bool, s: Sys, a: Action): Option<Sys> {
    match a
    case Handle(h) => HandlerStep(s, h)
    case ClientTurn(c) => ClientStep(shared, s, c)
    case AskBoard => Some(Accept(s, ReadWait))
    case AskCell(i) => Some(Accept(s, WriteWait(i)))
  }

  // ---------------------------------------------------------------- semaphores

  function ReadersIn(s: Sys): set<nat> {
    set h | h in s.handlers && (s.handlers[h].Copying? || s.handlers[h].ReadSent?)
  }

  predicate Writing(x: Handler) {
    x.WriteIn? || x.WriteGot? || x.WriteMarked? || x.WriteSent?
  }

  function WritersIn(s: Sys): set<nat> {
    set h | h in s.handlers && Writing(s.handlers[h])
  }

  /** Writers that left by the out-of-range exit. */
  function Exits(s: Sys): set<nat> {
    set h | h in s.handlers && s.handlers[h].OutOfRange?
  }

  /** Both WAITING semaphores are 0; ACTIVE_READERS counts the readers inside and ACTIVE_WRITER
      the writers inside and all past out-of-range exits; the two are never positive together. */
  predicate Counted(s: Sys) {
    && |s.sems| == 4
    && s.sems[WAITING_READERS] == 0 && s.sems[WAITING_WRITERS] == 0
    && s.sems[ACTIVE_READERS] == |ReadersIn(s)|
    && s.sems[ACTIVE_WRITER] == |WritersIn(s)| + |Exits(s)|
    && (s.sems[ACTIVE_READERS] == 0 || s.sems[ACTIVE_WRITER] == 0)
    && (forall h :: h in s.handlers ==> h < s.next)
  }

  lemma StartEffects(s: Sys)
    requires Counted(s)
    ensures Semop(s.sems, START_READ) ==
      if WritersIn(s) == {} && Exits(s) == {}
      then Done(s.sems[ACTIVE_READERS := s.sems[ACTIVE_READERS] + 1]) else Blocks
    ensures Semop(s.sems, START_WRITE) ==
      if ReadersIn(s) == {} then Done(s.sems[ACTIVE_WRITER := s.sems[ACTIVE_WRITER] + 1]) else Blocks
    ensures Semop(s.sems, STOP_READ) ==
      if ReadersIn(s) != {} then Done(s.sems[ACTIVE_READERS := s.sems[ACTIVE_READERS] - 1]) else Blocks
    ensures Semop(s.sems, STOP_WRITE) ==
      if WritersIn(s) != {} || Exits(s) != {}
      then Done(s.sems[ACTIVE_WRITER := s.sems[ACTIVE_WRITER] - 1]) else Blocks
  {
    WaitingIsInvisible(s.sems);
    ShortEffects(s.sems);
    hide Semop;
    assert ReadersIn(s) == {} <==> |ReadersIn(s)| == 0;
    assert WritersIn(s) == {} <==> |WritersIn(s)| == 0;
    assert Exits(s) == {} <==> |Exits(s)| == 0;
  }

  predicate Reading(x: Handler) {
    x.Copying? || x.ReadSent?
  }

  // How the three counts change when handler h changes, or starts.

  lemma RecountReaders(s: Sys, t: Sys, h: nat)
    requires h in t.handlers && t.handlers == s.handlers[h := t.handlers[h]]
    ensures |ReadersIn(t)| ==
      |ReadersIn(s)| - One(h in s.handlers && Reading(s.handlers[h])) + One(Reading(t.handlers[h]))
  {
    var a, b := ReadersIn(s), ReadersIn(t);
    assert h in a <==> h in s.handlers && Reading(s.handlers[h]);
    if Reading(t.handlers[h]) {
      assert b == a + {h};
    } else {
      assert b == a - {h};
    }
    hide ReadersIn;
  }

  lemma RecountWriters(s: Sys, t: Sys, h: nat)
    requires h in t.handlers && t.handlers == s.handlers[h := t.handlers[h]]
    ensures |WritersIn(t)| ==
      |WritersIn(s)| - One(h in s.handlers && Writing(s.handlers[h])) + One(Writing(t.handlers[h]))
  {
    var a, b := WritersIn(s), WritersIn(t);
    assert h in a <==> h in s.handlers && Writing(s.handlers[h]);
    if Writing(t.handlers[h]) {
      assert b == a + {h};
    } else {
      assert b == a - {h};
    }
    hide WritersIn;
  }

  lemma RecountExits(s: Sys, t: Sys, h: nat)
    requires h in t.handlers && t.handlers == s.handlers[h := t.handlers[h]]
    ensures |Exits(t)| ==
      |Exits(s)| - One(h in s.handlers && s.handlers[h].OutOfRange?) + One(t.handlers[h].OutOfRange?)
  {
    var a, b := Exits(s), Exits(t);
    assert h in a <==> h in s.handlers && s.handlers[h].OutOfRange?;
    if t.handlers[h].OutOfRange? {
      assert b == a + {h};
    } else {
      assert b == a - {h};
    }
    hide Exits;
  }

  lemma ReaderKeepsCounted(s: Sys, h: nat)
    requires Counted(s) && HandlerStep(s, h).Some?
    requires s.handlers[h].ReadWait? || Reading(s.handlers[h])
    ensures Counted(HandlerStep(s, h).value)
  {
    StartEffects(s);
    var t := HandlerStep(s, h).value;
    assert ReadersIn(s) == {} ==> |ReadersIn(s)| == 0;
    assert WritersIn(s) == {} ==> |WritersIn(s)| == 0;
    assert Exits(s) == {} ==> |Exits(s)| == 0;
    hide Semop, ReadersIn, WritersIn, Exits;
    RecountReaders(s, t, h);
    RecountWriters(s, t, h);
    RecountExits(s, t, h);
  }

  lemma WriterKeepsCounted(s: Sys, h: nat)
    requires Counted(s) && HandlerStep(s, h).Some?
    requires !(s.handlers[h].ReadWait? || Reading(s.handlers[h]))
    ensures Counted(HandlerStep(s, h).value)
  {
    StartEffects(s);
    var t := HandlerStep(s, h).value;
    assert ReadersIn(s) == {} ==> |ReadersIn(s)| == 0;
    assert WritersIn(s) == {} ==> |WritersIn(s)| == 0;
    assert Exits(s) == {} ==> |Exits(s)| == 0;
    hide Semop, ReadersIn, WritersIn, Exits;
    RecountReaders(s, t, h);
    RecountWriters(s, t, h);
    RecountExits(s, t, h);
  }

  lemma HandlerKeepsCounted(s: Sys, h: nat)
    requires Counted(s) && HandlerStep(s, h).Some?
    ensures Counted(HandlerStep(s, h).value)
  {
    hide Counted;
    if s.handlers[h].ReadWait? || Reading(s.handlers[h]) {
      ReaderKeepsCounted(s, h);
    } else {
      WriterKeepsCounted(s, h);
    }
    hide HandlerStep;
  }

  lemma AcceptKeepsCounted(s: Sys, x: Handler)
    requires Counted(s) && (x.ReadWait? || x.WriteWait?)
    ensures Counted(Accept(s, x))
  {
    hide ReadersIn, WritersIn, Exits;
    RecountReaders(s, Accept(s, x), s.next);
    RecountWriters(s, Accept(s, x), s.next);
    RecountExits(s, Accept(s, x), s.next);
  }

  /** A client's step starts at most a handler, and does not touch the semaphores. */
  lemma ClientKeepsCounted(shared: bool, s: Sys, c: nat)
    requires Counted(s) && ClientStep(shared, s, c).Some?
    ensures Counted(ClientStep(shared, s, c).value)
  {
    hide FirstUnoccupied;
    AcceptKeepsCounted(s, ReadWait);
    AcceptKeepsCounted(s, WriteWait(IndexOf(s, Variable(shared, c))));
  }

  lemma StepKeepsCounted(shared: bool, s: Sys, a: Action)
    requires Counted(s) && Step(shared, s, a).Some?
    ensures Counted(Step(shared, s, a).value)
  {
    hide Counted, HandlerStep, ClientStep, Accept;
    match a
    case Handle(h) => HandlerKeepsCounted(s, h);
    case ClientTurn(c) => ClientKeepsCounted(shared, s, c);
    case AskBoard => AcceptKeepsCounted(s, ReadWait);
    case AskCell(i) => AcceptKeepsCounted(s, WriteWait(i));
  }
}
