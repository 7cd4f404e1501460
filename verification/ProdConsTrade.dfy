/** A producer's client and a consumer's client that are given the same letter. */
module ProdConsTrade {
  import opened Counting
  import opened Semaphores
  import opened PcLocks
  import opened ProdCons
  import opened ProdConsQueue
  import opened ProdConsServer

  /** What makes a worker able to begin: nobody inside, and its counter up. */
  predicate CanBegin(s: Sys, w: nat)
    requires Shape(s) && w in s.workers
  {
    s.holder.Nobody? && if s.workers[w].role.Producer? then s.sems[SE] > 0 else s.sems[SF] > 0
  }

  lemma WorkerMoves(s: Sys, w: nat)
    requires Inv(s) && w in s.workers && s.workers[w].pc <= 5 && (s.workers[w].pc == 0 ==> CanBegin(s, w))
    ensures Step(s, Advance(w)).Some?
    ensures var t := After(s, Advance(w));
      && w in t.workers && t.workers == s.workers[w := t.workers[w]]
      && t.workers[w].pc == s.workers[w].pc + 1 && t.workers[w].role == s.workers[w].role
      && (s.workers[w].pc == 5 ==> t.holder.Nobody?)
  {
    hide Counted, Positioned, Spelled, Locals, Delivered, Semop, Cell, Wrap;
    LockAndRelease(s.sems);
  }

  /** The ring is the queue, with every byte its worker's, and room for what a producer that has
      not yet written will write. */
  predicate Tidy(s: Sys, more: nat) {
    Inv(s) && HoldsQueue(s) && FreeCellsClear(s) && Attributed(s) && Outstanding(s) + more <= RING
  }

  function Writes(s: Sys, w: nat): nat
    requires w in s.workers
  {
    One(s.workers[w].role.Producer? && s.workers[w].pc <= 1)
  }

  function Adds(s: Sys, w: nat, role: Role): seq<nat>
    requires w in s.workers
  {
    if s.workers[w].role == role && s.workers[w].pc <= 1 then [w] else []
  }

  lemma StepStaysTidy(s: Sys, w: nat)
    requires Inv(s) && w in s.workers && Tidy(s, Writes(s, w)) && s.workers[w].pc <= 5
    requires s.workers[w].pc == 0 ==> CanBegin(s, w)
    ensures Step(s, Advance(w)).Some?
    ensures var t := After(s, Advance(w));
      && w in t.workers && Tidy(t, Writes(t, w))
      && t.putBy + Adds(t, w, Producer) == s.putBy + Adds(s, w, Producer)
      && t.gotBy + Adds(t, w, Consumer) == s.gotBy + Adds(s, w, Consumer)
  {
    hide Inv, Step, HoldsQueue, FreeCellsClear, Attributed;
    WorkerMoves(s, w);
    StepRecords(s, Advance(w));
    StepKeepsQueue(s, Advance(w));
    StepKeepsAttributed(s, Advance(w));
  }

  /** A worker that can go on does so to its end, alone. */
  lemma {:induction false} WorkerFinishes(s: Sys, w: nat, rest: nat)
    requires Inv(s) && w in s.workers && s.workers[w].pc + rest == 6 && 1 <= rest && Tidy(s, Writes(s, w))
    requires s.workers[w].pc == 0 ==> CanBegin(s, w)
    ensures var t := Run(s, seq(rest, _ => Advance(w)));
      && t.Some? && Tidy(t.value, 0) && t.value.holder.Nobody?
      && w in t.value.workers && t.value.workers == s.workers[w := t.value.workers[w]]
      && t.value.workers[w].pc == 6 && t.value.workers[w].role == s.workers[w].role
      && t.value.putBy == s.putBy + Adds(s, w, Producer) && t.value.gotBy == s.gotBy + Adds(s, w, Consumer)
    decreases rest
  {
    hide Inv, Step, After, Tidy, CanBegin;
    var actions := seq(rest, _ => Advance(w));
    WorkerMoves(s, w);
    StepStaysTidy(s, w);
    var t := After(s, Advance(w));
    assert actions[1..] == seq(rest - 1, _ => Advance(w));
    if rest > 1 {
      WorkerFinishes(t, w, rest - 1);
    } else {
      assert actions[1..] == [];
    }
  }

  /** With nothing outstanding and nobody inside, a waiting producer and then a waiting consumer
      can run to their ends, and both clients' results are the next letter. */
  lemma ClientsTrade(s: Sys, p: nat, c: nat)
    requires Tidy(s, 0) && s.holder.Nobody? && Outstanding(s) == 0
    requires p in s.workers && s.workers[p].role.Producer? && s.workers[p].pc == 0
    requires c in s.workers && s.workers[c].role.Consumer? && s.workers[c].pc == 0
    ensures var t := Run(s, seq(6, _ => Advance(p)) + seq(6, _ => Advance(c)));
      && t.Some? && p < MAX_CNT_CLNT && c < MAX_CNT_CLNT
      && t.value.results[p] == Wrap(LETTER_A + |s.put|) && t.value.results[c] == Wrap(LETTER_A + |s.put|)
  {
    hide Exclusive, Counted, Positioned, Spelled, Locals, Delivered, Run, HoldsQueue, FreeCellsClear, AllBy, Wrap, Step;
    CountersWhenFree(s);
    WorkerFinishes(s, p, 6);
    var m := Run(s, seq(6, _ => Advance(p))).value;
    CountersWhenFree(m);
    SameLength(s);
    SameLength(m);
    WorkerFinishes(m, c, 6);
    RunOfConcat(s, seq(6, _ => Advance(p)), seq(6, _ => Advance(c)));
    var t := Run(m, seq(6, _ => Advance(c))).value;
    SameLength(t);
    AttributedResults(t);
    var k := |s.put|;
    assert t.putBy[k] == p && t.gotBy[k] == c;
  }

  lemma SameLength(s: Sys)
    requires Attributed(s)
    ensures |s.putBy| == |s.put| && |s.gotBy| == |s.got|
  {
  }

  /** From the start, one client of each type: a first request of type 'p', one of type 'c', and
      then their workers; both clients' polls are answered with 'a'. */
  lemma FirstTrade()
    ensures var t := Run(Init, [Connect('p'), Connect('c')] + (seq(6, _ => Advance(0)) + seq(6, _ => Advance(1))));
      t.Some? && PollReply(t.value, 0, '-' as int) == 'a' as int && PollReply(t.value, 1, '-' as int) == 'a' as int
  {
    hide Run, Tidy;
    TwoConnections();
    var s := After(After(Init, Connect('p')), Connect('c'));
    RunOfTwo(Init, Connect('p'), Connect('c'));
    var rest := seq(6, _ => Advance(0)) + seq(6, _ => Advance(1));
    RunOfConcat(Init, [Connect('p'), Connect('c')], rest);
    ClientsTrade(s, 0, 1);
  }

  lemma TwoConnections()
    ensures Step(Init, Connect('p')).Some? && Step(After(Init, Connect('p')), Connect('c')).Some?
    ensures var s := After(After(Init, Connect('p')), Connect('c'));
      && Tidy(s, 0) && s.holder.Nobody? && s.put == s.got == []
      && 0 in s.workers && s.workers[0] == Worker(Producer, 0, 0, 0)
      && 1 in s.workers && s.workers[1] == Worker(Consumer, 0, 0, 0)
  {
    hide Exclusive, Counted, Positioned, Spelled, Locals, Delivered;
    InitIsTidy();
    var s1 := After(Init, Connect('p'));
    StepKeepsQueue(Init, Connect('p'));
    StepKeepsAttributed(Init, Connect('p'));
    StepKeepsQueue(s1, Connect('c'));
    StepKeepsAttributed(s1, Connect('c'));
  }
}
