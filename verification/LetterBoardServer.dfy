/** The concurrent board server over its shared memory: one step of a handler at a time. */
module LetterBoardServer {
  import opened Semaphores
  import opened Letters
  import opened LetterBoard
  import opened LetterBoardRuns

  class Server {
    const shmBuf: array<char>
    var sems: seq<nat>
    var handlers: map<nat, Handler>
    var next: nat
    ghost var clients: map<nat, Client>
    ghost var index: map<nat, int>
    ghost var given: seq<(int, char)>
    ghost var givenTo: seq<nat>

    ghost function View(): Sys
      requires shmBuf.Length == SHM_BUFFER_SIZE
      reads this, shmBuf
    {
      Sys(sems, shmBuf[..], handlers, next, clients, index, given, givenTo)
    }

    ghost predicate Valid()
      reads this, shmBuf
    {
      shmBuf.Length == SHM_BUFFER_SIZE && Inv(View())
    }

    constructor (ghost idle: map<nat, Client>)
      requires forall c :: c in idle ==> idle[c].Idle?
      ensures Valid() && Start(View()) && clients == idle && fresh(shmBuf)
    {
      shmBuf := new char[SHM_BUFFER_SIZE](_ => TAKEN);
      sems := [0, 0, 0, 0];
      handlers := map[];
      next := 0;
      clients := idle;
      index := map[];
      given, givenTo := [], [];
      new;
      FillBoard(shmBuf);
      StartIsInvariant(View());
    }

    /** What a new connection asks for: the board, a cell, or something unknown. */
    method HandleClient(op: char, idx: int) returns (accepted: bool)
      requires Valid()
      modifies this`handlers, this`next
      ensures Valid() && accepted == (op == 'r' || op == 'w')
      ensures handlers == if op == 'r' then old(handlers)[old(next) := ReadWait]
        else if op == 'w' then old(handlers)[old(next) := WriteWait(idx)]
        else old(handlers)
      ensures View() == if op == 'r' then old(Step(false, View(), AskBoard)).value
        else if op == 'w' then old(Step(false, View(), AskCell(idx))).value
        else old(View())
    {
      hide Inv;
      accepted := false;
      if op == 'r' {
        OthersKeepInv(false, View(), AskBoard);
        handlers := handlers[next := ReadWait];
        next := next + 1;
        accepted := true;
      } else if op == 'w' {
        OthersKeepInv(false, View(), AskCell(idx));
        handlers := handlers[next := WriteWait(idx)];
        next := next + 1;
        accepted := true;
      }
    }

    method SemopCall(h: nat, ops: seq<Sembuf>, x: Handler) returns (done: bool)
      requires shmBuf.Length == SHM_BUFFER_SIZE
      modifies this`sems, this`handlers
      ensures done == old(LetterBoard.AfterSemop(View(), h, ops, x)).Some?
      ensures View() == if done then old(LetterBoard.AfterSemop(View(), h, ops, x)).value else old(View())
    {
      match Semop(sems, ops) {
        case Done(r) =>
          sems := r;
          handlers := handlers[h := x];
          done := true;
        case _ => done := false;
      }
    }

    /** One step of `reader`. */
    method Reader(h: nat) returns (moved: bool)
      requires Valid() && h in handlers
      requires handlers[h].ReadWait? || handlers[h].Copying? || handlers[h].ReadSent?
      modifies this`sems, this`handlers
      ensures Valid() && moved == old(HandlerStep(View(), h)).Some?
      ensures View() == if moved then old(HandlerStep(View(), h)).value else old(View())
    {
      hide Semop, Inv;
      if HandlerStep(View(), h).Some? { HandlerKeepsInv(View(), h); }
      match handlers[h] {
        case ReadWait => moved := SemopCall(h, START_READ, Copying([], shmBuf[..]));
        case Copying(buffer, atStart) =>
          if |buffer| < SHM_BUFFER_SIZE {
            handlers := handlers[h := Copying(buffer + [shmBuf[|buffer|]], atStart)];
          } else {
            handlers := handlers[h := ReadSent(buffer, atStart)];
          }
          moved := true;
        case ReadSent(buffer, _) => moved := SemopCall(h, STOP_READ, ReadDone(buffer));
      }
    }

    /** One step of `writer`. */
    method Writer(h: nat) returns (moved: bool)
      requires Valid() && h in handlers && (handlers[h].WriteWait? || Writing(handlers[h]))
      modifies this, shmBuf
      ensures Valid() && moved == old(HandlerStep(View(), h)).Some?
      ensures View() == if moved then old(HandlerStep(View(), h)).value else old(View())
    {
      hide Semop, Inv;
      if HandlerStep(View(), h).Some? { HandlerKeepsInv(View(), h); }
      moved := true;
      match handlers[h] {
        case WriteWait(i) => moved := SemopCall(h, START_WRITE, WriteIn(i));
        case WriteIn(i) =>
          if i < 0 || i >= SHM_BUFFER_SIZE {
            handlers := handlers[h := OutOfRange(i)];
          } else {
            handlers := handlers[h := WriteGot(i, shmBuf[i])];
          }
        case WriteGot(i, ch) =>
          if ch != TAKEN && 0 <= i < SHM_BUFFER_SIZE {
            shmBuf[i] := TAKEN;
            given, givenTo := given + [(i, ch)], givenTo + [h];
            assert shmBuf[..] == old(shmBuf[..])[i := TAKEN];
          }
          handlers := handlers[h := WriteMarked(i, ch)];
        case WriteMarked(i, ch) => handlers := handlers[h := WriteSent(i, ch)];
        case WriteSent(i, ch) => moved := SemopCall(h, STOP_WRITE, WriteDone(i, ch));
      }
    }
  }
}
