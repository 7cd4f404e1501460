/** The ring of the producer/consumer server as a FIFO queue: exactly as long as no more items
    are outstanding than the ring has cells. */
module ProdConsQueue {
  import opened Counting
  import opened Options
  import opened Semaphores
  import opened PcLocks
  import opened ProdCons

  function Outstanding(s: Sys): int {
    |s.put| - |s.got|
  }

  /** The bytes written and not yet read are in their cells, and what was read is, in order,
      what was written. */
  predicate HoldsQueue(s: Sys)
    requires Shape(s)
  {
    && s.got <= s.put
    && (forall j :: |s.got| <= j < |s.put| ==> s.buf[3 + Cell(j)] == s.put[j])
  }

  /** The cells of no outstanding byte hold 0, except the one a consumer is about to clear. */
  predicate FreeCellsClear(s: Sys)
    requires Shape(s)
  {
    && Outstanding(s) <= RING - One(InsideAt(s, Consumer, 2, 5))
    && (forall j :: |s.put| <= j < |s.got| + RING - One(InsideAt(s, Consumer, 2, 3)) ==> s.buf[3 + Cell(j)] == 0)
  }

  lemma CellsDiffer(i: int, j: int)
    requires 0 < j - i < RING
    ensures Cell(i) != Cell(j)
  {
  }

  lemma SameCell(i: int)
    ensures Cell(i + RING) == Cell(i)
  {
  }

  lemma WriteKeepsQueue(s: Sys, w: nat)
    requires Inv(s) && w in s.workers && s.workers[w] == s.workers[w].(role := Producer, pc := 1)
    requires HoldsQueue(s) && FreeCellsClear(s) && Outstanding(s) < RING
    ensures var t := ProducerStep(s, w).value; Shape(t) && HoldsQueue(t) && FreeCellsClear(t)
  {
    hide Delivered, Counted, Spelled;
    var t := ProducerStep(s, w).value;
    var p := |s.put|;
    NextCell(p);
    assert !InsideAt(s, Consumer, 2, 5) && !InsideAt(t, Consumer, 2, 5);
    forall j | |t.got| <= j < |t.put| ensures t.buf[3 + Cell(j)] == t.put[j] {
      if j < p { CellsDiffer(j, p); }
    }
    forall j | |t.put| <= j < |t.got| + RING ensures t.buf[3 + Cell(j)] == 0 {
      CellsDiffer(p, j);
    }
  }

  lemma ReadKeepsQueue(s: Sys, w: nat)
    requires Inv(s) && w in s.workers && s.workers[w] == s.workers[w].(role := Consumer, pc := 1)
    requires HoldsQueue(s) && FreeCellsClear(s)
    ensures var t := ConsumerStep(s, w).value; Shape(t) && HoldsQueue(t) && FreeCellsClear(t)
  {
    hide Delivered, Spelled;
    var t := ConsumerStep(s, w).value;
    NextCell(|s.got|);
    assert |s.got| < |s.put|;
    assert InsideAt(t, Consumer, 2, 3) && !InsideAt(s, Consumer, 2, 5);
    assert t.buf == s.buf && t.got[|s.got|] == s.buf[3 + Cell(|s.got|)] == s.put[|s.got|];
    hide Cell, Counted;
  }

  lemma ClearKeepsQueue(s: Sys, w: nat)
    requires Inv(s) && w in s.workers && s.workers[w] == s.workers[w].(role := Consumer, pc := 3)
    requires HoldsQueue(s) && FreeCellsClear(s)
    ensures var t := ConsumerStep(s, w).value; Shape(t) && HoldsQueue(t) && FreeCellsClear(t)
  {
    hide Delivered, Spelled, Counted;
    var t := ConsumerStep(s, w).value;
    var c := |s.got|;
    assert InsideAt(s, Consumer, 2, 3) && !InsideAt(t, Consumer, 2, 3) && InsideAt(t, Consumer, 2, 5);
    assert t.buf == s.buf[3 + Cell(c - 1) := 0];
    forall j | c <= j < |t.put| ensures t.buf[3 + Cell(j)] == t.put[j] {
      CellsDiffer(c - 1, j);
    }
    forall j | |t.put| <= j < c + RING ensures t.buf[3 + Cell(j)] == 0 {
      if j < c + RING - 1 { CellsDiffer(c - 1, j); } else { SameCell(c - 1); }
    }
  }

  /** A step that does not touch the ring keeps what it holds. */
  lemma SameRingKeepsQueue(s: Sys, t: Sys)
    requires Shape(s) && Shape(t) && HoldsQueue(s) && FreeCellsClear(s)
    requires t.put == s.put && t.got == s.got && t.buf[3..] == s.buf[3..]
    requires InsideAt(t, Consumer, 2, 5) ==> InsideAt(s, Consumer, 2, 5)
    requires InsideAt(t, Consumer, 2, 3) <==> InsideAt(s, Consumer, 2, 3)
    ensures HoldsQueue(t) && FreeCellsClear(t)
  {
    assert forall i :: 0 <= i < RING ==> t.buf[3 + i] == t.buf[3..][i] == s.buf[3..][i] == s.buf[3 + i];
  }

  lemma ConnectTouchesNoCell(s: Sys, kind: char)
    requires Inv(s) && s.idx < MAX_CNT_CLNT && HoldsQueue(s) && FreeCellsClear(s)
    ensures Shape(ConnectStep(s, kind)) && HoldsQueue(ConnectStep(s, kind)) && FreeCellsClear(ConnectStep(s, kind))
  {
    hide Exclusive, Counted, Positioned, Spelled, Locals, Delivered, HoldsQueue, FreeCellsClear;
    ConnectKeepsInv(s, kind);
    SameRingKeepsQueue(s, ConnectStep(s, kind));
  }

  lemma ProducerTouchesNoCell(s: Sys, w: nat)
    requires Inv(s) && w in s.workers && s.workers[w].role.Producer? && ProducerStep(s, w).Some?
    requires s.workers[w].pc != 1 && HoldsQueue(s) && FreeCellsClear(s)
    ensures var t := ProducerStep(s, w).value; Shape(t) && HoldsQueue(t) && FreeCellsClear(t)
  {
    hide Counted, Positioned, Spelled, Locals, Delivered;
    hide Semop;
    LockAndRelease(s.sems);
    var t := ProducerStep(s, w).value;
    SameRingKeepsQueue(s, t);
  }

  lemma ConsumerTouchesNoCell(s: Sys, w: nat)
    requires Inv(s) && w in s.workers && s.workers[w].role.Consumer? && ConsumerStep(s, w).Some?
    requires s.workers[w].pc != 1 && s.workers[w].pc != 3 && HoldsQueue(s) && FreeCellsClear(s)
    ensures var t := ConsumerStep(s, w).value; Shape(t) && HoldsQueue(t) && FreeCellsClear(t)
  {
    hide Counted, Positioned, Spelled, Locals, Delivered;
    hide Semop;
    LockAndRelease(s.sems);
    var t := ConsumerStep(s, w).value;
    SameRingKeepsQueue(s, t);
  }

  /** One step, as long as it does not leave more bytes outstanding than there are cells. */
  lemma StepKeepsQueue(s: Sys, a: Action)
    requires Inv(s) && Step(s, a).Some? && HoldsQueue(s) && FreeCellsClear(s)
    requires Outstanding(Step(s, a).value) <= RING
    ensures var t := Step(s, a).value; Shape(t) && HoldsQueue(t) && FreeCellsClear(t)
  {
    match a
    case Connect(kind) => ConnectTouchesNoCell(s, kind);
    case Advance(w) =>
      if s.workers[w].role.Producer? {
        if s.workers[w].pc == 1 { WriteKeepsQueue(s, w); } else { ProducerTouchesNoCell(s, w); }
      } else if s.workers[w].pc == 1 {
        ReadKeepsQueue(s, w);
      } else if s.workers[w].pc == 3 {
        ClearKeepsQueue(s, w);
      } else {
        ConsumerTouchesNoCell(s, w);
      }
      hide HoldsQueue, FreeCellsClear, Shape, Exclusive, Counted, Positioned, Spelled, Locals, Delivered;
  }

  // ---------------------------------------------------------------- whole runs

  /** In every state the interleaving passes through, at most 26 bytes are outstanding. */
  ghost predicate AlwaysWithinRing(s: Sys, actions: seq<Action>)
    requires Inv(s)
    decreases |actions|
  {
    && Outstanding(s) <= RING
    && (actions != [] && Step(s, actions[0]).Some? ==> AlwaysWithinRing(After(s, actions[0]), actions[1..]))
  }

  /** In every state the interleaving passes through, the ring is the queue. */
  ghost predicate AlwaysQueue(s: Sys, actions: seq<Action>)
    requires Inv(s)
    decreases |actions|
  {
    && HoldsQueue(s)
    && (actions != [] && Step(s, actions[0]).Some? ==> AlwaysQueue(After(s, actions[0]), actions[1..]))
  }

  /** With more than 26 bytes outstanding two of them would have to be in one cell. */
  lemma QueueFitsRing(s: Sys)
    requires Inv(s) && HoldsQueue(s)
    ensures Outstanding(s) <= RING == 26
  {
    hide Delivered, Counted, Positioned, Locals, Exclusive;
    SameCell(|s.got|);
    DifferentBytes(LETTER_A + |s.got|);
  }

  lemma DifferentBytes(x: int)
    ensures Wrap(x) != Wrap(x + RING)
  {
  }

  /** In every interleaving of any number of workers: the ring is a FIFO queue all along if and
      only if at most 26 bytes are outstanding all along. */
  lemma {:induction false} QueueIffWithinRing(s: Sys, actions: seq<Action>)
    requires Inv(s) && HoldsQueue(s) && FreeCellsClear(s)
    ensures AlwaysQueue(s, actions) <==> AlwaysWithinRing(s, actions)
    decreases |actions|
  {
    hide Exclusive, Counted, Positioned, Spelled, Locals, Delivered, HoldsQueue, FreeCellsClear;
    QueueFitsRing(s);
    if actions != [] && Step(s, actions[0]).Some? {
      var t := After(s, actions[0]);
      if HoldsQueue(t) {
        QueueFitsRing(t);
      }
      if Outstanding(t) <= RING {
        StepKeepsQueue(s, actions[0]);
        QueueIffWithinRing(t, actions[1..]);
      }
    }
  }

  lemma {:induction false} WithinRingStaysTidy(s: Sys, actions: seq<Action>)
    requires Inv(s) && HoldsQueue(s) && FreeCellsClear(s)
    requires AlwaysWithinRing(s, actions) && Run(s, actions).Some?
    ensures HoldsQueue(Run(s, actions).value) && FreeCellsClear(Run(s, actions).value)
    decreases |actions|
  {
    hide Exclusive, Counted, Positioned, Spelled, Locals, Delivered, HoldsQueue, FreeCellsClear;
    if actions != [] {
      StepKeepsQueue(s, actions[0]);
      assert Outstanding(After(s, actions[0])) <= RING;
      WithinRingStaysTidy(After(s, actions[0]), actions[1..]);
    }
  }

  lemma TidyBytes(t: Sys)
    requires Inv(t) && HoldsQueue(t)
    ensures t.got <= t.put
    ensures forall k :: 0 <= k < |t.got| ==> t.got[k] == Wrap(LETTER_A + k)
    ensures forall j :: |t.got| <= j < |t.put| ==> t.buf[3 + Cell(j)] == Wrap(LETTER_A + j)
  {
    hide Delivered, Counted, Positioned, Locals, Exclusive, Wrap, Cell;
    assert forall k :: 0 <= k < |t.got| ==> t.got[k] == t.put[k];
  }

  /** The bytes produced are 'a' and its successors, as far as a char holds them. */
  lemma AllBytes(t: Sys)
    requires Inv(t)
    ensures forall k :: 0 <= k < |t.put| ==> (t.put[k] as int - ('a' as int + k)) % 256 == 0
  {
    hide Exclusive, Delivered, Counted, Positioned, Locals, Wrap;
    forall k | 0 <= k < |t.put| ensures (t.put[k] as int - ('a' as int + k)) % 256 == 0 {
      WrapsAround(LETTER_A + k);
    }
  }

  lemma WrapsAround(x: int)
    ensures (Wrap(x) as int - x) % 256 == 0
  {
  }

  lemma TidyPositions(t: Sys)
    requires Inv(t) && FreeCellsClear(t) && t.holder.Nobody?
    ensures t.buf[0] == Cell(|t.put|) && t.buf[1] == Cell(|t.got|)
    ensures forall j :: |t.put| <= j < |t.got| + RING ==> t.buf[3 + Cell(j)] == 0
  {
    hide Delivered, Counted, Spelled, Locals, Exclusive, Cell;
  }

  // ---------------------------------------------------------------- who produced, who consumed

  predicate AllBy(s: Sys, role: Role, ids: seq<nat>, bytes: seq<SChar>) {
    && |ids| == |bytes|
    && (forall k :: 0 <= k < |ids| ==>
          ids[k] in s.workers && s.workers[ids[k]].role == role
          && s.workers[ids[k]].pc >= 2 && s.workers[ids[k]].ch == bytes[k])
    && (forall i, k :: 0 <= i < k < |ids| ==> ids[i] != ids[k])
  }

  /** The k-th byte written is that of the k-th producer, the k-th byte read that of the k-th
      consumer, and each worker writes or reads one byte at most. */
  predicate Attributed(s: Sys) {
    AllBy(s, Producer, s.putBy, s.put) && AllBy(s, Consumer, s.gotBy, s.got)
  }

  /** A step leaves the workers that are past their byte, and their bytes, as they are. */
  predicate KeepsPast(s: Sys, t: Sys) {
    forall w :: w in s.workers && s.workers[w].pc >= 2 ==>
      w in t.workers && t.workers[w].role == s.workers[w].role
      && t.workers[w].pc >= 2 && t.workers[w].ch == s.workers[w].ch
  }

  lemma StepKeepsPast(s: Sys, a: Action)
    requires Inv(s) && Step(s, a).Some?
    ensures KeepsPast(s, After(s, a))
  {
    hide Exclusive, Counted, Positioned, Spelled, Locals, Delivered, Semop;
  }

  /** What a step records. */
  lemma StepRecords(s: Sys, a: Action)
    requires Inv(s) && Step(s, a).Some?
    ensures a.Advance? ==> a.w in s.workers && a.w in After(s, a).workers
    ensures var t := After(s, a);
      if a.Advance? && s.workers[a.w].pc == 1 then
        var x := t.workers[a.w];
        && x.pc == 2 && x.role == s.workers[a.w].role
        && (x.role.Producer? ==>
              t.put == s.put + [x.ch] && t.putBy == s.putBy + [a.w] && t.got == s.got && t.gotBy == s.gotBy)
        && (x.role.Consumer? ==>
              t.got == s.got + [x.ch] && t.gotBy == s.gotBy + [a.w] && t.put == s.put && t.putBy == s.putBy)
      else t.put == s.put && t.got == s.got && t.putBy == s.putBy && t.gotBy == s.gotBy
  {
    hide Exclusive, Counted, Positioned, Spelled, Locals, Delivered, Semop;
  }

  lemma OneMoreBy(s: Sys, t: Sys, role: Role, ids: seq<nat>, bytes: seq<SChar>, w: nat)
    requires AllBy(s, role, ids, bytes) && KeepsPast(s, t)
    requires w in s.workers && s.workers[w].pc == 1
    requires w in t.workers && t.workers[w].role == role && t.workers[w].pc == 2
    ensures AllBy(t, role, ids + [w], bytes + [t.workers[w].ch])
  {
  }

  lemma SameBy(s: Sys, t: Sys, role: Role, ids: seq<nat>, bytes: seq<SChar>)
    requires AllBy(s, role, ids, bytes) && KeepsPast(s, t)
    ensures AllBy(t, role, ids, bytes)
  {
  }

  lemma StepKeepsAttributed(s: Sys, a: Action)
    requires Inv(s) && Attributed(s) && Step(s, a).Some?
    ensures Attributed(After(s, a))
  {
    hide Inv, Step, After, AllBy, KeepsPast;
    StepKeepsPast(s, a);
    StepRecords(s, a);
    var t := After(s, a);
    SameBy(s, t, Producer, s.putBy, s.put);
    SameBy(s, t, Consumer, s.gotBy, s.got);
    if a.Advance? && s.workers[a.w].pc == 1 {
      if t.workers[a.w].role.Producer? {
        OneMoreBy(s, t, Producer, s.putBy, s.put, a.w);
      } else {
        OneMoreBy(s, t, Consumer, s.gotBy, s.got, a.w);
      }
    }
  }

  lemma {:induction false} RunKeepsAttributed(s: Sys, actions: seq<Action>)
    requires Inv(s) && Attributed(s) && Run(s, actions).Some?
    ensures Attributed(Run(s, actions).value)
    decreases |actions|
  {
    hide Inv, Step, After, Attributed;
    if actions != [] {
      StepKeepsAttributed(s, actions[0]);
      RunKeepsAttributed(After(s, actions[0]), actions[1..]);
    }
  }

  /** Once both have delivered, the client of the k-th consumer and the client of the k-th
      producer are given the same byte. */
  predicate ResultsAgree(t: Sys)
    requires Shape(t)
  {
    forall k :: 0 <= k < |t.gotBy| && k < |t.putBy| && Served(t, t.gotBy[k]) && Served(t, t.putBy[k]) ==>
      t.results[t.gotBy[k]] == t.results[t.putBy[k]] == Wrap(LETTER_A + k)
  }

  lemma AttributedResults(t: Sys)
    requires Inv(t) && Attributed(t) && HoldsQueue(t)
    ensures ResultsAgree(t)
  {
    hide Exclusive, Counted, Positioned, Locals, Wrap;
    assert forall k :: 0 <= k < |t.got| ==> t.got[k] == t.put[k];
  }

  // ---------------------------------------------------------------- the main result

  lemma InitIsTidy()
    ensures HoldsQueue(Init) && FreeCellsClear(Init) && Attributed(Init)
  {
    hide Delivered, Counted, Positioned, Spelled, Locals, Exclusive;
  }

  /** Without ever more than 26 bytes outstanding: the k-th byte consumed is the k-th produced,
      and so are the results their clients get; the bytes in between are in the ring in order
      with every other cell 0, and between critical sections the two positions are the numbers
      of bytes produced and consumed. */
  lemma FifoDelivery(actions: seq<Action>)
    requires Run(Init, actions).Some? && AlwaysWithinRing(Init, actions)
    ensures var t := Run(Init, actions).value;
      && t.got <= t.put && Attributed(t) && ResultsAgree(t)
      && (forall k :: 0 <= k < |t.got| ==> t.got[k] == t.put[k] == Wrap(LETTER_A + k))
      && (forall k :: 0 <= k < |t.put| ==> (t.put[k] as int - ('a' as int + k)) % 256 == 0)
      && (forall j :: |t.got| <= j < |t.put| ==> t.buf[3 + Cell(j)] == Wrap(LETTER_A + j))
      && (t.holder.Nobody? ==>
            && t.buf[0] == Cell(|t.put|) && t.buf[1] == Cell(|t.got|)
            && forall j :: |t.put| <= j < |t.got| + RING ==> t.buf[3 + Cell(j)] == 0)
  {
    hide Run, AlwaysWithinRing, Delivered, Counted, Positioned, Spelled, Locals, Exclusive;
    hide Wrap, Cell, HoldsQueue, FreeCellsClear, ResultsAgree, Attributed;
    InitIsTidy();
    WithinRingStaysTidy(Init, actions);
    RunKeepsAttributed(Init, actions);
    var t := Run(Init, actions).value;
    TidyBytes(t);
    AllBytes(t);
    AttributedResults(t);
    if t.holder.Nobody? {
      TidyPositions(t);
    }
  }

  // ---------------------------------------------------------------- more than the ring holds

  lemma {:induction false} RunOfConcat(s: Sys, a: seq<Action>, b: seq<Action>)
    requires Inv(s)
    ensures Run(s, a + b) == if Run(s, a).Some? then Run(Run(s, a).value, b) else None
    decreases |a|
  {
    hide Inv;
    if a == [] {
      assert a + b == b;
    } else {
      assert (a + b)[1..] == a[1..] + b;
      if Step(s, a[0]).Some? {
        RunOfConcat(After(s, a[0]), a[1..], b);
      }
    }
  }

  /** A producer inside its critical section always comes out again: no release blocks. */
  lemma {:induction false} ProducerFinishes(s: Sys, w: nat, rest: nat)
    requires Inv(s) && w in s.workers && s.workers[w].role.Producer? && s.workers[w].pc + rest == 6 && 1 <= rest <= 5
    ensures var t := Run(s, seq(rest, _ => Advance(w)));
      && t.Some? && t.value.holder.Nobody? && t.value.idx == s.idx && t.value.got == s.got
      && |t.value.put| == |s.put| + One(rest == 5)
    decreases rest
  {
    hide Counted, Positioned, Spelled, Locals, Delivered, Semop, ConsumerStep, Cell, Wrap;
    LockAndRelease(s.sems);
    var actions := seq(rest, _ => Advance(w));
    assert Step(s, actions[0]).Some?;
    var t := After(s, actions[0]);
    assert t.workers[w].pc == s.workers[w].pc + 1 && t.workers[w].role.Producer?;
    assert actions[1..] == seq(rest - 1, _ => Advance(w));
    if rest > 1 {
      ProducerFinishes(t, w, rest - 1);
    } else {
      assert actions[1..] == [];
    }
  }

  lemma ProducerEnters(s: Sys)
    requires Inv(s) && s.holder.Nobody? && s.sems[SE] > 0 && s.idx < MAX_CNT_CLNT
    ensures Step(s, Connect('p')).Some?
    ensures var w := s.idx;
      var s1 := After(s, Connect('p'));
      && Step(s1, Advance(w)).Some?
      && var s2 := After(s1, Advance(w));
        && w in s2.workers && s2.workers[w].role.Producer? && s2.workers[w].pc == 1
        && s2.idx == s.idx + 1 && s2.put == s.put && s2.got == s.got
  {
    hide Counted, Spelled, Positioned, Locals, Delivered;
    var s1 := ConnectStep(s, 'p');
    LockAndRelease(s1.sems);
    assert s1.sems[SB] == 1;
  }

  lemma RunOfTwo(s: Sys, a: Action, b: Action)
    requires Inv(s) && Step(s, a).Some? && Step(After(s, a), b).Some?
    ensures Run(s, [a, b]) == Some(After(After(s, a), b))
  {
    hide Inv, Step;
    assert [a, b][1..] == [b] && [b][1..] == [];
    var s1 := After(s, a);
    assert Run(s, [a, b]) == Run(s1, [b]);
    assert Run(s1, [b]) == Run(After(s1, b), []);
  }

  lemma ProduceOne(s: Sys)
    requires Inv(s) && s.holder.Nobody? && s.sems[SE] > 0 && s.idx < MAX_CNT_CLNT
    ensures exists actions :: Run(s, actions).Some? && Produced(s, Run(s, actions).value)
  {
    hide Inv, Step, Run;
    var w := s.idx;
    ProducerEnters(s);
    RunOfTwo(s, Connect('p'), Advance(w));
    var s2 := After(After(s, Connect('p')), Advance(w));
    ProducerFinishes(s2, w, 5);
    var first, rest := [Connect('p'), Advance(w)], seq(5, _ => Advance(w));
    RunOfConcat(s, first, rest);
    assert Run(s, first + rest) == Run(s2, rest);
    assert Produced(s, Run(s, first + rest).value);
  }

  lemma RoomToProduce(t: Sys)
    requires Inv(t) && t.holder.Nobody? && Outstanding(t) < BUFFER_SIZE
    ensures t.sems[SE] > 0
  {
    hide Delivered, Spelled, Locals, Positioned, Exclusive;
  }

  predicate Produced(s: Sys, t: Sys) {
    t.holder.Nobody? && t.idx == s.idx + 1 && t.got == s.got && |t.put| == |s.put| + 1
  }

  predicate Filled(t: Sys, n: nat) {
    t.holder.Nobody? && t.idx == n && t.got == [] && |t.put| == n
  }

  lemma OneMore(t: Sys, n: nat)
    requires Inv(t) && Filled(t, n) && n < BUFFER_SIZE
    ensures exists actions :: Run(t, actions).Some? && Filled(Run(t, actions).value, n + 1)
  {
    hide Step, Run, Counted, Spelled, Positioned, Locals, Delivered, Exclusive;
    RoomToProduce(t);
    ProduceOne(t);
    var b :| Run(t, b).Some? && Produced(t, Run(t, b).value);
    assert Filled(Run(t, b).value, n + 1);
  }

  /** The semaphores do let producers put 29 bytes into the ring of 26 cells. */
  lemma {:induction false} ProducersReach(s: Sys, n: nat)
    requires Inv(s) && Filled(s, 0) && n <= BUFFER_SIZE
    ensures exists actions :: Run(s, actions).Some? && Filled(Run(s, actions).value, n)
  {
    hide Step, Shape, Counted, Spelled, Positioned, Locals, Delivered, Exclusive;
    if n == 0 {
      assert Run(s, []) == Some(s);
    } else {
      hide Run;
      ProducersReach(s, n - 1);
      var a :| Run(s, a).Some? && Filled(Run(s, a).value, n - 1);
      var t := Run(s, a).value;
      OneMore(t, n - 1);
      var b :| Run(t, b).Some? && Filled(Run(t, b).value, n);
      RunOfConcat(s, a, b);
      assert Run(s, a + b) == Run(t, b);
    }
  }

  /** So some interleaving leaves the queue: its ring is not a FIFO queue all along. */
  lemma SomeRunOverwritesTheRing()
    ensures exists actions :: Run(Init, actions).Some? && !HoldsQueue(Run(Init, actions).value)
  {
    hide Run, Step, Shape, Counted, Spelled, Positioned, Locals, Delivered, Exclusive;
    ProducersReach(Init, RING + 1);
    var a :| Run(Init, a).Some? && Filled(Run(Init, a).value, RING + 1);
    var t := Run(Init, a).value;
    if HoldsQueue(t) {
      QueueFitsRing(t);
    }
  }
}
