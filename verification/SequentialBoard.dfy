/** The letter board of the single-process server: each request is served from beginning to
    end before the next one. */
module SequentialBoard {
  import opened Letters

  const NUL := 0 as char

  datatype Reply = BufferEmpty | SymbolOccupied | Symbol(ch: char)

  function Take(b: Board, i: int): (Board, Reply) {
    if i < 0 || i >= SHM_BUFFER_SIZE then (b, BufferEmpty)
    else if b[i] == TAKEN then (b, SymbolOccupied)
    else (b[i := TAKEN], Symbol(b[i]))
  }

  // ---------------------------------------------------------------- the server

  class Server {
    const shmBuf: array<char>
    var loopFlag: bool

    ghost predicate Valid()
      reads this, shmBuf
    {
      shmBuf.Length == SHM_BUFFER_SIZE && LettersOrTaken(shmBuf[..])
    }

    constructor ()
      ensures Valid() && shmBuf[..] == BoardAt(0) && loopFlag && fresh(shmBuf)
    {
      shmBuf := new char[SHM_BUFFER_SIZE](_ => TAKEN);
      loopFlag := true;
      new;
      FillBoard(shmBuf);
    }

    /** A request out of range raises SIGINT, whose handler ends the server's loop. */
    method Writer(idx: int) returns (r: Reply)
      requires Valid()
      modifies shmBuf, this`loopFlag
      ensures Valid()
      ensures (shmBuf[..], r) == Take(old(shmBuf[..]), idx)
      ensures loopFlag == (old(loopFlag) && 0 <= idx < SHM_BUFFER_SIZE)
      ensures idx < 0 || idx >= SHM_BUFFER_SIZE ==> r == BufferEmpty && shmBuf[..] == old(shmBuf[..])
      ensures 0 <= idx < SHM_BUFFER_SIZE && old(shmBuf[idx]) == '-' ==>
        r == SymbolOccupied && shmBuf[..] == old(shmBuf[..])
      ensures 0 <= idx < SHM_BUFFER_SIZE && old(shmBuf[idx]) != '-' ==>
        r == Symbol(old(shmBuf[idx])) && shmBuf[..] == old(shmBuf[..])[idx := '-']
    {
      if idx < 0 || idx >= SHM_BUFFER_SIZE {
        loopFlag := false;
        r := BufferEmpty;
      } else {
        var ch := shmBuf[idx];
        if ch == TAKEN {
          r := SymbolOccupied;
        } else {
          shmBuf[idx] := TAKEN;
          r := Symbol(ch);
        }
      }
    }

    /** strncpy stops at a NUL and fills up with NULs; no cell ever holds one, so the reply is
        the whole board.  The first letter a client finds in it is the one a request at once
        would be answered with, and it finds none exactly if no letter is left. */
    method Reader() returns (buffer: seq<char>)
      requires Valid()
      ensures buffer == shmBuf[..]
      ensures var i := FirstUnoccupied(buffer);
        if Free(shmBuf[..]) == multiset{} then i == -1
        else 0 <= i < SHM_BUFFER_SIZE && Take(shmBuf[..], i).1 == Symbol(buffer[i])
    {
      var copy := new char[SHM_BUFFER_SIZE + 1](_ => NUL);
      var i := 0;
      while i < SHM_BUFFER_SIZE && shmBuf[i] != NUL
        invariant 0 <= i <= SHM_BUFFER_SIZE
        invariant copy[..i] == shmBuf[..i] && shmBuf[..] == old(shmBuf[..])
      {
        copy[i] := shmBuf[i];
        i := i + 1;
      }
      buffer := copy[..SHM_BUFFER_SIZE];
      assert LettersOrTaken(shmBuf[..]) && shmBuf[..][..i] == shmBuf[..i];
      ReadThenTake(buffer);
    }
  }

  // ---------------------------------------------------------------- any requests

  /** The board and the letters handed out, after any sequence of take requests. */
  function TakeAll(b: Board, idxs: seq<int>): (Board, seq<char>)
    decreases |idxs|
  {
    if idxs == [] then (b, [])
    else
      var (b1, r) := Take(b, idxs[0]);
      var (t, rest) := TakeAll(b1, idxs[1..]);
      (t, (if r.Symbol? then [r.ch] else []) + rest)
  }

  /** The letters still on a board. */
  function Free(b: seq<char>): multiset<char> {
    if b == [] then multiset{} else (if b[0] == TAKEN then multiset{} else multiset{b[0]}) + Free(b[1..])
  }

  lemma {:induction false} FreeIffSomeLetter(b: seq<char>)
    ensures Free(b) == multiset{} <==> forall j :: 0 <= j < |b| ==> b[j] == TAKEN
  {
    if b != [] {
      FreeIffSomeLetter(b[1..]);
      assert b[0] == TAKEN && (forall j :: 0 <= j < |b[1..]| ==> b[1..][j] == TAKEN) ==>
          forall j :: 0 <= j < |b| ==> b[j] == TAKEN by {
        assert forall j :: 0 < j < |b| ==> b[j] == b[1..][j - 1];
      }
      if b[0] != TAKEN {
        assert b[0] in Free(b);
      }
    }
  }

  /** A client that reads the board and asks at once is handed the first letter left; with no
      letter left it asks for cell -1. */
  lemma ReadThenTake(b: Board)
    requires LettersOrTaken(b)
    ensures var i := FirstUnoccupied(b);
      if Free(b) == multiset{} then i == -1 && Take(b, i) == (b, BufferEmpty)
      else
        && 0 <= i < SHM_BUFFER_SIZE && Take(b, i) == (b[i := TAKEN], Symbol(Letter(i)))
        && b[i] == Letter(i) && forall j :: 0 <= j < i ==> b[j] == TAKEN
  {
    FreeIffSomeLetter(b);
    assert forall j :: 0 <= j < SHM_BUFFER_SIZE ==> (IsLetter(b[j]) <==> b[j] != TAKEN);
  }

  lemma {:induction false} TakingRemovesOne(b: seq<char>, i: nat)
    requires i < |b| && b[i] != TAKEN
    ensures Free(b[i := TAKEN]) + multiset{b[i]} == Free(b)
  {
    if i > 0 {
      assert b[i := TAKEN][1..] == b[1..][i - 1 := TAKEN];
      TakingRemovesOne(b[1..], i - 1);
    } else {
      assert b[i := TAKEN][1..] == b[1..];
    }
  }

  /** Whatever is asked for: the letters handed out and the letters still free always make up
      the letters there were. */
  lemma {:induction false} LettersAreConserved(b: Board, idxs: seq<int>)
    ensures multiset(TakeAll(b, idxs).1) + Free(TakeAll(b, idxs).0) == Free(b)
    decreases |idxs|
  {
    if idxs != [] {
      var (b1, r) := Take(b, idxs[0]);
      LettersAreConserved(b1, idxs[1..]);
      var (t, rest) := TakeAll(b1, idxs[1..]);
      if r.Symbol? {
        TakingRemovesOne(b, idxs[0]);
        assert multiset([r.ch] + rest) == multiset{r.ch} + multiset(rest);
        assert TakeAll(b, idxs).1 == [r.ch] + rest;
      } else {
        assert TakeAll(b, idxs).1 == rest;
      }
    }
  }

  lemma {:induction false} FreeCountsCells(b: seq<char>, c: char)
    requires c != TAKEN && forall i, j :: 0 <= i < j < |b| && b[i] == c ==> b[j] != c
    ensures Free(b)[c] <= 1
  {
    if b != [] && b[0] != c {
      FreeCountsCells(b[1..], c);
    } else if b != [] {
      assert forall j :: 0 <= j < |b[1..]| ==> b[1..][j] != c;
      NotOnBoard(b[1..], c);
    }
  }

  lemma {:induction false} NotOnBoard(b: seq<char>, c: char)
    requires forall j :: 0 <= j < |b| ==> b[j] != c
    ensures Free(b)[c] == 0
  {
    if b != [] {
      NotOnBoard(b[1..], c);
    }
  }

  /** Whatever is asked for from the start, no letter is handed out twice. */
  lemma HandedOutAtMostOnce(idxs: seq<int>, c: char)
    requires c != TAKEN
    ensures multiset(TakeAll(BoardAt(0), idxs).1)[c] <= 1
  {
    hide TakeAll, Free;
    LettersAreConserved(BoardAt(0), idxs);
    var b := BoardAt(0);
    forall i, j | 0 <= i < j < |b| && b[i] == c ensures b[j] != c {
      if b[j] == c { LettersAreDistinct(i, j); }
    }
    FreeCountsCells(b, c);
  }

  // ---------------------------------------------------------------- its own clients

  /** Client threads share one index variable: a thread that has a copy of the board assigns
      it, and a thread sends whatever it holds at that time, to be served later.  The actions
      may come in any order, not only in that of a client's program. */
  datatype Action = ReadBoard(c: nat) | AssignIndex(c: nat) | SendIndex(c: nat) | ServeRequest(c: nat)

  /** `copies` are the boards clients have received, `requests` the indices sent and not yet
      served; `served` are the letters handed out so far. */
  datatype Sys = Sys(board: Board, index: int, copies: map<nat, Board>, requests: map<nat, int>, served: seq<char>)

  function Step(s: Sys, a: Action): Sys {
    match a
    case ReadBoard(c) => s.(copies := s.copies[c := s.board])
    case AssignIndex(c) => if c in s.copies then s.(index := FirstUnoccupied(s.copies[c])) else s
    case SendIndex(c) => s.(requests := s.requests[c := s.index])
    case ServeRequest(c) =>
      if c !in s.requests then s
      else
        var (b, r) := Take(s.board, s.requests[c]);
        s.(board := b, requests := s.requests - {c}, served := s.served + if r.Symbol? then [r.ch] else [])
  }

  function Run(s: Sys, actions: seq<Action>): Sys
    decreases |actions|
  {
    if actions == [] then s else Run(Step(s, actions[0]), actions[1..])
  }

  /** The letters in board order. */
  function Alphabet(d: nat): (r: seq<char>)
    requires d <= SHM_BUFFER_SIZE
    ensures |r| == d
  {
    seq(d, j requires 0 <= j < d => Letter(j))
  }

  ghost predicate InOrder(s: Sys, d: nat) {
    && d <= SHM_BUFFER_SIZE && s.board == BoardAt(d) && s.served == Alphabet(d)
    && -1 <= s.index <= d
    && (forall c :: c in s.requests ==> -1 <= s.requests[c] <= d)
    && (forall c :: c in s.copies ==> exists k :: 0 <= k <= d && s.copies[c] == BoardAt(k))
  }

  lemma StepKeepsOrder(s: Sys, d: nat, a: Action)
    requires InOrder(s, d)
    ensures InOrder(Step(s, a), |Step(s, a).served|) && d <= |Step(s, a).served|
  {
    var t := Step(s, a);
    match a
    case ReadBoard(c) =>
      assert t.copies[c] == BoardAt(d);
    case AssignIndex(c) =>
      if c in s.copies {
        var k :| 0 <= k <= d && s.copies[c] == BoardAt(k);
        FirstUnoccupiedOnBoard(k);
      }
    case SendIndex(c) =>
    case ServeRequest(c) =>
      if c in s.requests && 0 <= s.requests[c] < SHM_BUFFER_SIZE && s.board[s.requests[c]] != TAKEN {
        assert s.requests[c] == d;
        MarkingExtendsPrefix(d, d);
        assert Alphabet(d) + [Letter(d)] == Alphabet(d + 1);
      } else {
        assert t.served == s.served;
      }
  }

  /** However the threads interleave and overwrite the index, the successful replies spell, in
      order, a beginning of a..zA..Z, and the taken cells are exactly those letters'. */
  lemma {:induction false} RepliesSpellAlphabet(s: Sys, d: nat, actions: seq<Action>)
    requires InOrder(s, d)
    ensures var t := Run(s, actions);
      && d <= |t.served| <= SHM_BUFFER_SIZE && t.board == BoardAt(|t.served|)
      && (forall k :: 0 <= k < |t.served| ==>
            t.served[k] as int == if k < 26 then 'a' as int + k else 'A' as int + k - 26)
    decreases |actions|
  {
    if actions != [] {
      StepKeepsOrder(s, d, actions[0]);
      RepliesSpellAlphabet(Step(s, actions[0]), |Step(s, actions[0]).served|, actions[1..]);
    }
  }

  /** A client that is left alone for one turn is handed the next letter, or with none left is
      answered that the buffer is empty; no board or letter changes then. */
  lemma LoneClientTakesNext(s: Sys, d: nat, c: nat)
    requires InOrder(s, d)
    ensures var t := Run(s, [ReadBoard(c), AssignIndex(c), SendIndex(c), ServeRequest(c)]);
      t.served == s.served + if d < SHM_BUFFER_SIZE then [Letter(d)] else []
  {
    hide Run, BoardAt, FirstUnoccupied;
    FirstUnoccupiedOnBoard(d);
    RunFour(s, ReadBoard(c), AssignIndex(c), SendIndex(c), ServeRequest(c));
    if d < SHM_BUFFER_SIZE {
      CellOfBoard(d);
    }
  }

  lemma CellOfBoard(d: nat)
    requires d < SHM_BUFFER_SIZE
    ensures BoardAt(d)[d] == Letter(d)
  {
  }

  lemma RunFour(s: Sys, a: Action, b: Action, c: Action, d: Action)
    ensures Run(s, [a, b, c, d]) == Step(Step(Step(Step(s, a), b), c), d)
  {
    hide Step;
    assert [a, b, c, d][1..] == [b, c, d] && [b, c, d][1..] == [c, d] && [c, d][1..] == [d] && [d][1..] == [];
    assert Run(Step(s, a), [b, c, d]) == Run(Step(Step(s, a), b), [c, d]);
    assert Run(Step(Step(s, a), b), [c, d]) == Run(Step(Step(Step(s, a), b), c), [d]);
  }

  lemma StartIsInOrder()
    ensures InOrder(Sys(BoardAt(0), 0, map[], map[], []), 0)
  {
  }
}
