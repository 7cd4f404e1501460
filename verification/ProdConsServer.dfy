/** The client side of the producer/consumer server (identifiers, results, polling) and the
    server over its static memory. */
module ProdConsServer {
  import opened Processes
  import opened Semaphores
  import opened PcLocks
  import opened ProdCons

  /** What a client with identifier i gets for the result field it sends. */
  function PollReply(s: Sys, i: nat, result: SChar): SChar
    requires Shape(s) && i < MAX_CNT_CLNT
  {
    if result == DASH && LETTER_A <= s.results[i] <= LETTER_Z then s.results[i] else result
  }

  /** A client's result is written by no step but the one of its own worker's that delivers. */
  lemma OnlyOwnWorkerDelivers(s: Sys, a: Action, i: nat)
    requires Inv(s) && Step(s, a).Some? && i < MAX_CNT_CLNT
    requires After(s, a).results[i] != s.results[i]
    ensures a == Advance(i) && s.workers[i].pc == 2 && s.results[i] == 0 && Served(After(s, a), i)
  {
    hide Counted, Positioned, Spelled, Locals, Exclusive;
    hide Semop;
    LockAndRelease(s.sems);
  }

  lemma ProducerKeepsServed(s: Sys, w: nat, i: nat)
    requires Inv(s) && w in s.workers && s.workers[w].role.Producer? && ProducerStep(s, w).Some? && Served(s, i)
    ensures var t := ProducerStep(s, w).value;
      i < MAX_CNT_CLNT && Served(t, i) && |t.results| == MAX_CNT_CLNT && t.results[i] == s.results[i]
  {
    hide Counted, Positioned, Spelled, Locals, Exclusive, Delivered, Semop, Cell, Wrap;
    LockAndRelease(s.sems);
  }

  lemma ConsumerKeepsServed(s: Sys, w: nat, i: nat)
    requires Inv(s) && w in s.workers && s.workers[w].role.Consumer? && ConsumerStep(s, w).Some? && Served(s, i)
    ensures var t := ConsumerStep(s, w).value;
      i < MAX_CNT_CLNT && Served(t, i) && |t.results| == MAX_CNT_CLNT && t.results[i] == s.results[i]
  {
    hide Counted, Positioned, Spelled, Locals, Exclusive, Delivered, Semop, Cell, Wrap;
    LockAndRelease(s.sems);
  }

  lemma StepKeepsServed(s: Sys, a: Action, i: nat)
    requires Inv(s) && Step(s, a).Some? && Served(s, i)
    ensures i < MAX_CNT_CLNT && Served(After(s, a), i) && After(s, a).results[i] == s.results[i]
  {
    hide Counted, Positioned, Spelled, Locals, Exclusive, Delivered, ProducerStep, ConsumerStep;
    match a
    case Connect(_) =>
    case Advance(w) =>
      if s.workers[w].role.Producer? { ProducerKeepsServed(s, w, i); } else { ConsumerKeepsServed(s, w, i); }
  }

  /** Under any interleaving a delivered result is final. */
  lemma {:induction false} ResultsAreFinal(s: Sys, actions: seq<Action>, i: nat)
    requires Inv(s) && Run(s, actions).Some? && Served(s, i)
    ensures Served(Run(s, actions).value, i) && Run(s, actions).value.results[i] == s.results[i]
    decreases |actions|
  {
    hide Counted, Positioned, Spelled, Locals, Exclusive, Delivered;
    if actions != [] {
      StepKeepsServed(s, actions[0], i);
      hide Step;
      ResultsAreFinal(After(s, actions[0]), actions[1..], i);
    }
  }

  /** Polls with '-' are answered '-' until the worker has delivered; after that every poll, at
      whatever later time, gives the worker's byte if and only if it is a lower-case letter. */
  lemma PollsAreConsistent(s: Sys, actions: seq<Action>, i: nat)
    requires Inv(s) && Run(s, actions).Some? && i < MAX_CNT_CLNT
    ensures !Served(s, i) ==> PollReply(s, i, DASH) == DASH
    ensures Served(s, i) ==>
      var byte := s.workers[i].ch;
      PollReply(Run(s, actions).value, i, DASH) == if LETTER_A <= byte <= LETTER_Z then byte else DASH
  {
    if Served(s, i) {
      ResultsAreFinal(s, actions, i);
    }
    hide Counted, Positioned, Spelled, Locals, Exclusive, Run;
  }

  /** The next identifier only grows, so no identifier is given out twice. */
  lemma {:induction false} IdentifiersGrow(s: Sys, actions: seq<Action>)
    requires Inv(s) && Run(s, actions).Some?
    ensures Run(s, actions).value.idx >= s.idx
    decreases |actions|
  {
    hide Counted, Positioned, Spelled, Locals, Exclusive, Delivered, Semop;
    if actions != [] {
      assert After(s, actions[0]).idx >= s.idx;
      hide Step;
      IdentifiersGrow(After(s, actions[0]), actions[1..]);
    }
  }

  lemma IdentifiersAreNeverReused(s: Sys, kind: char, actions: seq<Action>)
    requires Inv(s) && s.idx < MAX_CNT_CLNT && Run(After(s, Connect(kind)), actions).Some?
    ensures s.idx !in s.workers
    ensures Run(After(s, Connect(kind)), actions).value.idx > s.idx
  {
    hide Counted, Positioned, Spelled, Locals, Exclusive, Delivered, Run, ProducerStep, ConsumerStep;
    IdentifiersGrow(After(s, Connect(kind)), actions);
  }

  // ---------------------------------------------------------------- the server

  datatype Reply = Reply(idx: int, result: SChar)

  class Server {
    const buffer: array<SChar>
    const resultBuffer: array<SChar>
    var sems: seq<nat>
    var idx: nat
    var workers: map<nat, Worker>
    ghost var holder: Holder
    ghost var put: seq<SChar>
    ghost var got: seq<SChar>
    ghost var putBy: seq<nat>
    ghost var gotBy: seq<nat>

    ghost function View(): Sys
      reads this, buffer, resultBuffer
    {
      Sys(sems, buffer[..], resultBuffer[..], idx, workers, holder, put, got, putBy, gotBy)
    }

    ghost predicate Valid()
      reads this, buffer, resultBuffer
    {
      buffer != resultBuffer && Inv(View())
    }

    constructor ()
      ensures Valid() && View() == Init && fresh(buffer) && fresh(resultBuffer)
      ensures sems == [29, 0, 1] && buffer.Length == 29 && resultBuffer.Length == 1048576
    {
      buffer := new SChar[BUFFER_SIZE](_ => 0);
      resultBuffer := new SChar[MAX_CNT_CLNT](_ => 0);
      sems := [BUFFER_SIZE, 0, 1];
      idx := 0;
      workers := map[];
      holder := Nobody;
      put, got, putBy, gotBy := [], [], [], [];
      new;
      buffer[0] := 0;
      buffer[1] := 0;
      buffer[2] := LETTER_A;
      assert buffer[..] == Init.buf;
      assert resultBuffer[..] == Init.results;
    }

    /** One remote call: a poll for an identifier already given out, or a first request. */
    method Service(argIdx: int, kind: char, argResult: SChar) returns (r: Reply)
      requires Valid() && argIdx < MAX_CNT_CLNT && (argIdx < 0 ==> idx < MAX_CNT_CLNT)
      modifies this`idx, this`workers
      ensures Valid()
      ensures argIdx >= 0 ==> View() == old(View()) && r == Reply(argIdx, PollReply(View(), argIdx, argResult))
      ensures argIdx < 0 ==> View() == old(After(View(), Connect(kind))) && r == Reply(old(idx), DASH)
      ensures argIdx >= 0 ==>
        && r.idx == argIdx
        && r.result == if argResult == '-' as int && 'a' as int <= resultBuffer[argIdx] <= 'z' as int
                       then resultBuffer[argIdx] else argResult
      ensures argIdx < 0 ==>
        && r.idx == old(idx) && r.result == '-' as int && idx == old(idx) + 1
        && workers == if kind == 'c' then old(workers)[old(idx) := Worker(Role.Consumer, 0, 0, 0)]
                      else if kind == 'p' then old(workers)[old(idx) := Worker(Role.Producer, 0, 0, 0)]
                      else old(workers)
    {
      hide Exclusive, Counted, Positioned, Spelled, Locals, Delivered;
      if argIdx >= 0 {
        r := Reply(argIdx, if argResult == DASH then DASH else argResult);
        if r.result == DASH && LETTER_A <= resultBuffer[argIdx] <= LETTER_Z {
          r := Reply(argIdx, resultBuffer[argIdx]);
        }
        return;
      }
      ConnectKeepsInv(View(), kind);
      r := Reply(idx, DASH);
      idx := idx + 1;
      if kind == 'c' {
        workers := workers[r.idx := Worker(Role.Consumer, 0, 0, 0)];
      } else if kind == 'p' {
        workers := workers[r.idx := Worker(Role.Producer, 0, 0, 0)];
      }
    }

    /** A semop call on the set; the ghost holder is who has the lock afterwards. */
    method SemopCall(ops: seq<Sembuf>, ghost next: Holder) returns (done: bool)
      modifies this`sems, this`holder
      ensures done <==> Semop(old(sems), ops).Done?
      ensures if done then sems == Semop(old(sems), ops).sems && holder == next
              else sems == old(sems) && holder == old(holder)
    {
      match Semop(sems, ops) {
        case Done(r) =>
          sems := r;
          holder := next;
          done := true;
        case _ => done := false;
      }
    }

    /** One step of a producer thread. */
    method Producer(w: nat) returns (moved: bool)
      requires Valid() && w in workers && workers[w].role.Producer?
      modifies this, buffer, resultBuffer
      ensures Valid() && moved == old(Step(View(), Advance(w))).Some?
      ensures View() == if moved then old(Step(View(), Advance(w))).value else old(View())
    {
      hide Exclusive, Counted, Positioned, Spelled, Locals, Delivered;
      hide Semop, ConsumerStep, ProdCons.ProducerInside;
      ghost var before := View();
      if Step(before, Advance(w)).Some? {
        StepKeepsInv(before, Advance(w));
      }
      moved := false;
      var k := workers[w];
      if k.pc == 0 {
        moved := SemopCall(PRODUCER_LOCK, Held(w));
      } else if k.pc < 5 {
        ProducerInside(w);
        return true;
      } else if k.pc == 5 {
        moved := SemopCall(PRODUCER_RELEASE, Nobody);
      }
      if moved {
        workers := workers[w := k.(pc := k.pc + 1)];
      }
    }

    method ProducerInside(w: nat)
      requires Valid() && w in workers && 1 <= workers[w].pc <= 4
      modifies this, buffer, resultBuffer
      ensures View() == old(ProdCons.ProducerInside(View(), w))
    {
      hide Exclusive, Counted, Positioned, Spelled, Locals, Delivered;
      ghost var t := ProdCons.ProducerInside(View(), w);
      var k := workers[w];
      match k.pc {
        case 1 =>
          k := k.(sid := Cell(buffer[0]), ch := buffer[2]);
          buffer[3 + k.sid] := k.ch;
          put, putBy := put + [k.ch], putBy + [w];
        case 2 => resultBuffer[w] := buffer[3 + k.sid];
        case 3 => buffer[2] := Wrap(buffer[2] as int + 1);
        case _ => buffer[0] := Cell(buffer[0] as int + 1);
      }
      workers := workers[w := k.(pc := k.pc + 1)];
      assert buffer[..] == t.buf && resultBuffer[..] == t.results;
    }

    /** One step of a consumer thread. */
    method Consumer(w: nat) returns (moved: bool)
      requires Valid() && w in workers && workers[w].role.Consumer?
      modifies this, buffer, resultBuffer
      ensures Valid() && moved == old(Step(View(), Advance(w))).Some?
      ensures View() == if moved then old(Step(View(), Advance(w))).value else old(View())
    {
      hide Exclusive, Counted, Positioned, Spelled, Locals, Delivered;
      hide Semop, ProducerStep, ProdCons.ConsumerInside;
      ghost var before := View();
      if Step(before, Advance(w)).Some? {
        StepKeepsInv(before, Advance(w));
      }
      moved := false;
      var k := workers[w];
      if k.pc == 0 {
        moved := SemopCall(CONSUMER_LOCK, Held(w));
      } else if k.pc < 5 {
        ConsumerInside(w);
        return true;
      } else if k.pc == 5 {
        moved := SemopCall(CONSUMER_RELEASE, Nobody);
      }
      if moved {
        workers := workers[w := k.(pc := k.pc + 1)];
      }
    }

    method ConsumerInside(w: nat)
      requires Valid() && w in workers && 1 <= workers[w].pc <= 4
      modifies this, buffer, resultBuffer
      ensures View() == old(ProdCons.ConsumerInside(View(), w))
    {
      hide Exclusive, Counted, Positioned, Spelled, Locals, Delivered;
      ghost var t := ProdCons.ConsumerInside(View(), w);
      var k := workers[w];
      match k.pc {
        case 1 =>
          k := k.(sid := Cell(buffer[1]));
          k := k.(ch := buffer[3 + k.sid]);
          got, gotBy := got + [k.ch], gotBy + [w];
        case 2 => resultBuffer[w] := k.ch;
        case 3 => buffer[3 + k.sid] := 0;
        case _ => buffer[1] := Cell(buffer[1] as int + 1);
      }
      workers := workers[w := k.(pc := k.pc + 1)];
      assert buffer[..] == t.buf && resultBuffer[..] == t.results;
    }
  }
}
