/** The ticket array as an abstract FIFO queue of clients, and what follows for whole runs. */
module BakeryQueue {
  import opened Bakery

  // ---------------------------------------------------------------- the abstract queue

  function IndexOf(q: seq<ClientId>, i: ClientId): (k: nat)
    requires i in q
    ensures k < |q| && q[k] == i && i !in q[..k]
  {
    if q[0] == i then 0 else 1 + IndexOf(q[1..], i)
  }

  function Without(q: seq<ClientId>, i: ClientId): seq<ClientId> {
    if i in q then q[..IndexOf(q, i)] + q[IndexOf(q, i) + 1..] else q
  }

  /** Taking a ticket sends a client to the back; the head leaves when it is served; a client
      that is not queued is served at once. */
  function QueueStep(q: seq<ClientId>, c: Call): seq<ClientId> {
    match c
    case GetNumber(r) => Without(q, r.idx) + [r.idx]
    case Service(r) => if q != [] && q[0] == r.idx then q[1..] else q
  }

  predicate Admitted(q: seq<ClientId>, i: ClientId) {
    i !in q || q[0] == i
  }

  function QueueRun(q: seq<ClientId>, calls: seq<Call>): seq<ClientId>
    decreases |calls|
  {
    if calls == [] then q else QueueRun(QueueStep(q, calls[0]), calls[1..])
  }

  // ---------------------------------------------------------------- abstraction

  /** The queue lists exactly the ticket holders, by strictly increasing ticket; no client is
      left choosing. */
  ghost predicate Represents(s: Server, q: seq<ClientId>) {
    && (forall i: ClientId :: !s.choosing[i] && s.numbers[i] >= 0)
    && (forall k :: 0 <= k < |q| ==> s.numbers[q[k]] > 0)
    && (forall a, b :: 0 <= a < b < |q| ==> s.numbers[q[a]] < s.numbers[q[b]])
    && (forall i: ClientId {:trigger i in q} :: s.numbers[i] != 0 ==> i in q)
  }

  lemma EmptyIffNoTickets(s: Server, q: seq<ClientId>)
    requires Represents(s, q)
    ensures q == [] <==> AllZero(s.numbers)
  {
    if q == [] {
      forall i: ClientId ensures s.numbers[i] == 0 {
        assert i !in q;
      }
    } else {
      assert s.numbers[q[0]] != 0;
    }
  }

  /** A ticket array is represented by at most one queue. */
  lemma {:induction false} RepresentsUnique(s: Server, q1: seq<ClientId>, q2: seq<ClientId>)
    requires Represents(s, q1) && Represents(s, q2)
    ensures q1 == q2
    decreases |q1|
  {
    EmptyIffNoTickets(s, q1);
    EmptyIffNoTickets(s, q2);
    if q1 != [] {
      assert q1[0] in q2 && q2[0] in q1;
      assert q1[0] == q2[0];
      var rest := s.(numbers := s.numbers[q1[0] := 0]);
      HeadLeaves(s, q1, rest);
      HeadLeaves(s, q2, rest);
      RepresentsUnique(rest, q1[1..], q2[1..]);
    }
  }

  lemma HeadLeaves(s: Server, q: seq<ClientId>, t: Server)
    requires Represents(s, q) && q != []
    requires t.numbers == s.numbers[q[0] := 0] && t.choosing == s.choosing
    ensures Represents(t, q[1..])
  {
    forall i: ClientId | t.numbers[i] != 0 ensures i in q[1..] {
      assert i in q;
      var k :| 0 <= k < |q| && q[k] == i;
      assert q[1..][k - 1] == i;
    }
  }

  lemma RemovingOne(s: Server, q: seq<ClientId>, k: nat)
    requires Represents(s, q) && k < |q|
    ensures Represents(s.(numbers := s.numbers[q[k] := 0]), q[..k] + q[k + 1..])
    ensures q[k] !in q[..k] + q[k + 1..]
  {
    var t: Server := s.(numbers := s.numbers[q[k] := 0]);
    var base := q[..k] + q[k + 1..];
    assert forall a :: 0 <= a < |base| ==> base[a] == if a < k then q[a] else q[a + 1];
    forall j: ClientId | t.numbers[j] != 0 ensures j in base {
      assert j in q;
      var a :| 0 <= a < |q| && q[a] == j;
      assert base[if a < k then a else a - 1] == j;
    }
  }

  lemma LeavingKeepsOrder(s: Server, q: seq<ClientId>, i: ClientId)
    requires Represents(s, q)
    ensures Represents(s.(numbers := s.numbers[i := 0]), Without(q, i)) && i !in Without(q, i)
  {
    hide IndexOf;
    if i in q {
      RemovingOne(s, q, IndexOf(q, i));
    } else {
      assert s.numbers[i := 0] == s.numbers;
    }
  }

  lemma JoiningAtTheBack(s: Server, q: seq<ClientId>, i: ClientId, n: int, t: Server)
    requires Represents(s, q) && i !in q && 0 < n && forall j: ClientId :: s.numbers[j] < n
    requires t.numbers == s.numbers[i := n] && t.choosing == s.choosing
    ensures Represents(t, q + [i])
  {
    var q' := q + [i];
    forall j: ClientId | t.numbers[j] != 0 ensures j in q' {
      if j == i {
        assert q'[|q|] == i;
      } else {
        assert j in q;
      }
    }
  }

  lemma MovesToBack(s: Server, q: seq<ClientId>, c: Call)
    requires Represents(s, q) && c.GetNumber?
    ensures Represents(Step(s, c).0, QueueStep(q, c))
  {
    var i := c.r.idx;
    var t := Step(s, c).0;
    assert s.numbers[0] <= MaxOf(s.numbers);
    assert t.choosing == s.choosing;
    var mid: Server := s.(numbers := s.numbers[i := 0]);
    LeavingKeepsOrder(s, q, i);
    hide Represents;
    JoiningAtTheBack(mid, Without(q, i), i, MaxOf(s.numbers) + 1, t);
  }

  /** With a represented state neither the choosing guard nor the pid tie-break ever decides:
      a client is refused exactly when somebody holds a strictly smaller ticket. */
  lemma GuardIsSmallerTicket(s: Server, q: seq<ClientId>, j: ClientId)
    requires Represents(s, q)
    ensures Refused(s, j) <==> exists i: ClientId :: 0 < s.numbers[i] < s.numbers[j]
    ensures Refused(s, j) <==> !Admitted(q, j)
  {
    forall i: ClientId | Stops(s, i, j) ensures 0 < s.numbers[i] < s.numbers[j] {
      if s.numbers[i] == s.numbers[j] {
        DistinctTickets(s, q, i, j);
      }
    }
    if exists i: ClientId :: 0 < s.numbers[i] < s.numbers[j] {
      var i: ClientId :| 0 < s.numbers[i] < s.numbers[j];
      assert Stops(s, i, j);
      assert i in q && j in q;
    } else if j in q {
      assert q[0] == j;
    }
  }

  /** Between calls nonzero tickets are pairwise distinct. */
  lemma DistinctTickets(s: Server, q: seq<ClientId>, i: ClientId, j: ClientId)
    requires Represents(s, q)
    requires s.numbers[i] == s.numbers[j] != 0
    ensures i == j
  {
    assert i in q && j in q;
    var a :| 0 <= a < |q| && q[a] == i;
    var b :| 0 <= b < |q| && q[b] == j;
  }

  // ---------------------------------------------------------------- refinement

  lemma StepRefinesQueue(s: Server, q: seq<ClientId>, c: Call)
    requires Represents(s, q)
    ensures Represents(Step(s, c).0, QueueStep(q, c))
    ensures c.Service? ==> (Step(s, c).1.Admission? <==> Admitted(q, c.r.idx))
  {
    match c
    case GetNumber(_) => MovesToBack(s, q, c);
    case Service(r) =>
      GuardIsSmallerTicket(s, q, r.idx);
      var t := Step(s, c).0;
      if q != [] && q[0] == r.idx {
        HeadLeaves(s, q, t.(choosing := s.choosing));
        assert t.choosing == s.choosing;
      } else {
        assert t.numbers == s.numbers && t.choosing == s.choosing;
      }
  }

  /** Every sequence of calls acts on the ticket array as on a FIFO queue of clients, and a
      service call is admitted exactly when its caller is then at the head or not queued. */
  lemma {:induction false} RunRefinesQueue(s: Server, q: seq<ClientId>, calls: seq<Call>)
    requires Represents(s, q)
    ensures Represents(Run(s, calls).0, QueueRun(q, calls))
    ensures |Run(s, calls).1| == |calls|
    ensures forall k :: 0 <= k < |calls| && calls[k].Service? ==>
      (Run(s, calls).1[k].Admission? <==> Admitted(QueueRun(q, calls[..k]), calls[k].r.idx))
    decreases |calls|
  {
    hide Represents, Step, QueueStep, Admitted;
    if calls != [] {
      var s1 := Step(s, calls[0]).0;
      var q1 := QueueStep(q, calls[0]);
      StepRefinesQueue(s, q, calls[0]);
      RunRefinesQueue(s1, q1, calls[1..]);
      forall k | 0 <= k < |calls| && calls[k].Service?
        ensures Run(s, calls).1[k].Admission? <==> Admitted(QueueRun(q, calls[..k]), calls[k].r.idx)
      {
        if k > 0 {
          assert calls[..k][1..] == calls[1..][..k - 1];
          assert calls[1..][k - 1] == calls[k];
        }
      }
    }
  }

  lemma InitialIsEmptyQueue()
    ensures Represents(Initial, [])
  {
  }

  // ---------------------------------------------------------------- no overtaking

  predicate CallsAvoid(calls: seq<Call>, h: ClientId) {
    forall k :: 0 <= k < |calls| ==> calls[k].r.idx != h
  }

  /** The tickets ahead of client i. */
  ghost function Ahead(s: Server, i: ClientId): set<ClientId>
  {
    set j: ClientId | 0 < s.numbers[j] < s.numbers[i]
  }

  /** One call by another client: the tickets ahead of i lose the caller if it was among them
      and was served or took a new ticket, and never gain anybody. */
  lemma NobodyOvertakes(s: Server, q: seq<ClientId>, i: ClientId, c: Call)
    requires Represents(s, q) && i in q && c.r.idx != i
    ensures Ahead(Step(s, c).0, i) ==
      if c.GetNumber? || Step(s, c).1.Admission? then Ahead(s, i) - {c.r.idx} else Ahead(s, i)
    ensures Step(s, c).0.numbers[i] == s.numbers[i]
  {
  }

  /** How many calls of a run take away one of the tickets that were ahead of client i. */
  ghost function Departures(s: Server, i: ClientId, calls: seq<Call>): nat
    decreases |calls|
  {
    if calls == [] then 0
    else
      var (s1, a) := Step(s, calls[0]);
      (if calls[0].r.idx in Ahead(s, i) && (calls[0].GetNumber? || a.Admission?) then 1 else 0)
      + Departures(s1, i, calls[1..])
  }

  /** Over any run of other clients' calls the waiting client's place moves up by exactly one
      for each earlier client served or re-ticketed, and by nothing else. */
  lemma {:induction false} PlaceMovesUpByDepartures(s: Server, q: seq<ClientId>, i: ClientId, calls: seq<Call>)
    requires Represents(s, q) && i in q && CallsAvoid(calls, i)
    ensures |Ahead(Run(s, calls).0, i)| + Departures(s, i, calls) == |Ahead(s, i)|
    ensures Ahead(Run(s, calls).0, i) <= Ahead(s, i)
    ensures Run(s, calls).0.numbers[i] == s.numbers[i]
    decreases |calls|
  {
    hide Represents, Step;
    if calls != [] {
      var (s1, a) := Step(s, calls[0]);
      var q1 := QueueStep(q, calls[0]);
      NobodyOvertakes(s, q, i, calls[0]);
      StepRefinesQueue(s, q, calls[0]);
      assert i in q1;
      PlaceMovesUpByDepartures(s1, q1, i, calls[1..]);
    }
  }

  /** A client's place in the queue is the number of smaller tickets. */
  lemma PlaceIsNumberAhead(s: Server, q: seq<ClientId>, k: nat)
    requires Represents(s, q) && k < |q|
    ensures |Ahead(s, q[k])| == k
  {
    var front := Members(q[..k]);
    assert front == Ahead(s, q[k]) by {
      forall j | j in Ahead(s, q[k]) ensures j in front {
        assert j in q;
        var a :| 0 <= a < |q| && q[a] == j;
        assert a < k;
        assert q[..k][a] == j;
      }
      forall j | j in front ensures j in Ahead(s, q[k]) {
        var a :| 0 <= a < k && q[a] == j;
      }
    }
    forall a, b | 0 <= a < b < k ensures q[..k][a] != q[..k][b] {
      assert s.numbers[q[a]] < s.numbers[q[b]];
    }
    DistinctCount(q[..k]);
  }

  ghost function Members(q: seq<ClientId>): set<ClientId> {
    set x | x in q
  }

  lemma {:induction false} DistinctCount(xs: seq<ClientId>)
    requires forall a, b :: 0 <= a < b < |xs| ==> xs[a] != xs[b]
    ensures |Members(xs)| == |xs|
  {
    if xs != [] {
      var n := |xs| - 1;
      DistinctCount(xs[..n]);
      assert xs == xs[..n] + [xs[n]];
      assert Members(xs) == Members(xs[..n]) + {xs[n]};
      assert xs[n] !in Members(xs[..n]);
    }
  }

  // ---------------------------------------------------------------- abandoned tickets

  /** How many calls of a run are service calls admitted to a client that held a ticket. */
  ghost function ServedHolders(s: Server, calls: seq<Call>): nat
    decreases |calls|
  {
    if calls == [] then 0
    else
      var (s1, a) := Step(s, calls[0]);
      (if a.Admission? && s.numbers[calls[0].r.idx] != 0 then 1 else 0) + ServedHolders(s1, calls[1..])
  }

  lemma LaterTicketsAreRefused(s: Server, q: seq<ClientId>, h: ClientId)
    requires Represents(s, q) && h in q
    ensures forall c: ClientId :: c != h && c !in Ahead(s, h) ==> s.numbers[c] == 0 || Refused(s, c)
  {
    forall c: ClientId | c != h && c !in Ahead(s, h) && s.numbers[c] != 0 ensures Refused(s, c) {
      if s.numbers[c] == s.numbers[h] {
        DistinctTickets(s, q, c, h);
      }
      assert Stops(s, h, c);
    }
  }

  lemma AdmittedHoldersWereAhead(s: Server, q: seq<ClientId>, h: ClientId, c: Call)
    requires Represents(s, q) && h in q && c.r.idx != h
    requires Step(s, c).1.Admission? && s.numbers[c.r.idx] != 0
    ensures c.r.idx in Ahead(s, h)
  {
    var i := c.r.idx;
    GuardIsSmallerTicket(s, q, i);
    if s.numbers[i] == s.numbers[h] {
      DistinctTickets(s, q, i, h);
    }
    assert 0 < s.numbers[h];
  }

  /** If a holder stops calling, then in every continuation no later ticket is ever served,
      new tickets are later tickets, and the ticket holders served are at most those that
      were ahead. */
  lemma {:induction false} AbandonedTicketBlocks(s: Server, q: seq<ClientId>, h: ClientId, calls: seq<Call>)
    requires Represents(s, q) && h in q && CallsAvoid(calls, h)
    ensures forall c: ClientId :: c != h && c !in Ahead(s, h) ==>
      Run(s, calls).0.numbers[c] == 0 || Refused(Run(s, calls).0, c)
    ensures ServedHolders(s, calls) <= |Ahead(s, h)|
    decreases |calls|
  {
    hide Represents, Step;
    if calls == [] {
      LaterTicketsAreRefused(s, q, h);
    } else {
      var (s1, a) := Step(s, calls[0]);
      var i := calls[0].r.idx;
      StepRefinesQueue(s, q, calls[0]);
      NobodyOvertakes(s, q, h, calls[0]);
      if a.Admission? && s.numbers[i] != 0 {
        AdmittedHoldersWereAhead(s, q, h, calls[0]);
      }
      AbandonedTicketBlocks(s1, QueueStep(q, calls[0]), h, calls[1..]);
    }
  }

  /** Every call of client h in the run is a service call that is refused. */
  ghost predicate OnlyRefusedPolls(s: Server, h: ClientId, calls: seq<Call>)
    decreases |calls|
  {
    calls != [] ==>
    && (calls[0].r.idx == h ==> Step(s, calls[0]).1.Refusal?)
    && OnlyRefusedPolls(Step(s, calls[0]).0, h, calls[1..])
  }

  lemma {:induction false} RefusedPollsKeepTicket(s: Server, q: seq<ClientId>, h: ClientId, calls: seq<Call>)
    requires Represents(s, q) && h in q && OnlyRefusedPolls(s, h, calls)
    ensures Run(s, calls).0.numbers[h] == s.numbers[h]
    ensures exists q' :: Represents(Run(s, calls).0, q') && h in q'
    decreases |calls|
  {
    if calls != [] {
      StepRefinesQueue(s, q, calls[0]);
      if calls[0].r.idx != h {
        NobodyOvertakes(s, q, h, calls[0]);
      }
      assert h in QueueStep(q, calls[0]);
      hide Represents;
      RefusedPollsKeepTicket(Step(s, calls[0]).0, QueueStep(q, calls[0]), h, calls[1..]);
    }
  }

  /** A client that takes a ticket, has all its polls refused and gives up still holds that
      ticket after any further calls of the others, and everybody with a later one is refused. */
  lemma ExhaustedClientBlocksLaterTickets(
    s: Server, q: seq<ClientId>, r: Request, polling: seq<Call>, later: seq<Call>)
    requires Represents(s, q)
    requires OnlyRefusedPolls(Step(s, GetNumber(r)).0, r.idx, polling)
    requires CallsAvoid(later, r.idx)
    ensures var ticket := Step(s, GetNumber(r)).1.n;
      var u := Run(Run(Step(s, GetNumber(r)).0, polling).0, later).0;
      u.numbers[r.idx] == ticket && forall c: ClientId :: u.numbers[c] > ticket ==> Refused(u, c)
  {
    var (s1, a) := Step(s, GetNumber(r));
    StepRefinesQueue(s, q, GetNumber(r));
    var q1 := QueueStep(q, GetNumber(r));
    assert q1[|q1| - 1] == r.idx && a.n == s1.numbers[r.idx] > 0 by {
      hide Run;
      assert Represents(s1, q1);
    }
    hide Represents;
    RefusedPollsKeepTicket(s1, q1, r.idx, polling);
    var t := Run(s1, polling).0;
    var q2 :| Represents(t, q2) && r.idx in q2;
    PlaceMovesUpByDepartures(t, q2, r.idx, later);
    var u := Run(t, later).0;
    forall c: ClientId | u.numbers[c] > a.n ensures Refused(u, c) {
      assert Stops(u, r.idx, c);
    }
  }

  /** A client that is refused is refused again, as long as only it calls. */
  lemma {:induction false} RefusedAgain(s: Server, r: Request, n: nat)
    requires Refused(s, r.idx)
    ensures OnlyRefusedPolls(s, r.idx, seq(n, _ => Service(r)))
    decreases n
  {
    hide Precedes;
    if n > 0 {
      var t := Step(s, Service(r)).0;
      assert t.numbers == s.numbers && t.pids == s.pids && t.choosing == s.choosing;
      var i: ClientId :| Stops(s, i, r.idx);
      SamePrecedence(s, t, i, r.idx);
      assert Stops(t, i, r.idx);
      RefusedAgain(t, r, n - 1);
      assert seq(n, _ => Service(r))[1..] == seq(n - 1, _ => Service(r));
    }
  }

  lemma SamePrecedence(s: Server, t: Server, i: ClientId, j: ClientId)
    requires t.numbers == s.numbers && t.pids == s.pids
    ensures Precedes(t, i, j) == Precedes(s, i, j)
  {
  }

  /** It does happen, from the start: h takes a ticket after g, uses up its 30 polls while g
      does not call, and from then on blocks everybody that comes later. */
  lemma ExhaustionHappens(g: Request, h: Request, later: seq<Call>)
    requires g.idx != h.idx && CallsAvoid(later, h.idx)
    ensures var s1 := Step(Initial, GetNumber(g)).0;
      var s2 := Step(s1, GetNumber(h)).0;
      var polling := seq(ATTEMPTS, _ => Service(h));
      var u := Run(Run(s2, polling).0, later).0;
      && OnlyRefusedPolls(s2, h.idx, polling)
      && u.numbers[h.idx] == 2 && forall c: ClientId :: u.numbers[c] > 2 ==> Refused(u, c)
  {
    hide OnlyRefusedPolls, CallsAvoid, Run, Represents, Refused, MaxOf;
    var s1 := Step(Initial, GetNumber(g)).0;
    var s2 := Step(s1, GetNumber(h)).0;
    InitialIsEmptyQueue();
    StepRefinesQueue(Initial, [], GetNumber(g));
    FirstTickets(g, h);
    RefusedAgain(s2, h, ATTEMPTS);
    ExhaustedClientBlocksLaterTickets(s1, QueueStep([], GetNumber(g)), h, seq(ATTEMPTS, _ => Service(h)), later);
  }

  // ---------------------------------------------------------------- size of tickets

  predicate AllZero(n: seq<int>) {
    forall i :: 0 <= i < |n| ==> n[i] == 0
  }

  /** The number of get_number calls since all tickets were last 0, counting on from `before`. */
  function CallsSinceIdle(s: Server, calls: seq<Call>, before: nat): nat
    decreases |calls|
  {
    if calls == [] then before
    else
      var s1 := Step(s, calls[0]).0;
      CallsSinceIdle(s1, calls[1..],
        if AllZero(s1.numbers) then 0 else if calls[0].GetNumber? then before + 1 else before)
  }

  /** No ticket exceeds the number of get_number calls since all tickets were last 0; so the
      C increment cannot overflow before INT_MAX such calls. */
  lemma {:induction false} TicketsBoundedByCalls(s: Server, q: seq<ClientId>, calls: seq<Call>, before: nat)
    requires Represents(s, q) && MaxOf(s.numbers) <= before
    ensures MaxOf(Run(s, calls).0.numbers) <= CallsSinceIdle(s, calls, before)
    decreases |calls|
  {
    hide Represents;
    if calls != [] {
      var (s1, a) := Step(s, calls[0]);
      StepRefinesQueue(s, q, calls[0]);
      var now := if AllZero(s1.numbers) then 0 else if calls[0].GetNumber? then before + 1 else before;
      assert MaxOf(s1.numbers) in s1.numbers;
      TicketsBoundedByCalls(s1, QueueStep(q, calls[0]), calls[1..], now);
    }
  }

  // ---------------------------------------------------------------- duplicated calls

  /** A completed service call that is delivered again after any calls that give its client
      no new ticket changes no ticket, and for the operations that compute a value it answers
      the same value again. */
  lemma DuplicateServiceIsHarmless(s: Server, q: seq<ClientId>, r: Request, between: seq<Call>)
    requires Represents(s, q)
    requires Step(s, Service(r)).1.Admission?
    requires forall k :: 0 <= k < |between| ==> between[k].GetNumber? ==> between[k].r.idx != r.idx
    ensures var t := Run(Step(s, Service(r)).0, between).0;
      && Step(t, Service(r)).0.numbers == t.numbers
      && Step(t, Service(r)).1.Admission?
      && (Computes(r) ==> Step(t, Service(r)).1 == Step(s, Service(r)).1)
  {
    var (s1, a) := Step(s, Service(r));
    var q1 := QueueStep(q, Service(r));
    StepRefinesQueue(s, q, Service(r));
    hide Represents;
    StaysTicketless(s1, q1, r.idx, between);
    RunRefinesQueue(s1, q1, between);
    var t := Run(s1, between).0;
    TicketlessIsAdmitted(t, QueueRun(q1, between), r);
    assert a == Admission(Compute(r, s.result));
    ComputedValueIgnoresThePast(r, s.result, t.result);
    hide Step, Compute, Computes, Run, QueueRun, QueueStep;
  }

  lemma ComputedValueIgnoresThePast(r: Request, p1: Reply, p2: Reply)
    ensures Computes(r) ==> Compute(r, p1) == Compute(r, p2)
  {
  }

  lemma TicketlessIsAdmitted(t: Server, q: seq<ClientId>, r: Request)
    requires Represents(t, q) && t.numbers[r.idx] == 0
    ensures Step(t, Service(r)).0.numbers == t.numbers && Step(t, Service(r)).1 == Admission(Compute(r, t.result))
  {
    GuardIsSmallerTicket(t, q, r.idx);
  }

  predicate Computes(r: Request) {
    0 <= r.op <= 2 || (r.op == 3 && r.arg2 != 0.0)
  }

  lemma {:induction false} StaysTicketless(s: Server, q: seq<ClientId>, i: ClientId, calls: seq<Call>)
    requires Represents(s, q) && s.numbers[i] == 0
    requires forall k :: 0 <= k < |calls| ==> calls[k].GetNumber? ==> calls[k].r.idx != i
    ensures Run(s, calls).0.numbers[i] == 0
    decreases |calls|
  {
    hide Represents;
    if calls != [] {
      StepRefinesQueue(s, q, calls[0]);
      StaysTicketless(Step(s, calls[0]).0, QueueStep(q, calls[0]), i, calls[1..]);
    }
  }

  /** An admitted client reads its reply as a refusal exactly when its operation computes
      nothing and the reply left over from the previous call was a refusal. */
  lemma AdmissionReadAsRefusal(s: Server, r: Request)
    requires !Refused(s, r.idx)
    ensures OnTheWire(Step(s, Service(r)).1) == Infinity <==> !Computes(r) && s.result == Infinity
  {
  }

  /** Was the last service call that was refused or computed a value a refusal?  With none in
      the run, `before` is the answer. */
  ghost predicate LastSetWasRefusal(s: Server, calls: seq<Call>, before: bool)
    decreases |calls|
  {
    if calls == [] then before
    else
      var (s1, a) := Step(s, calls[0]);
      LastSetWasRefusal(s1, calls[1..],
        if calls[0].GetNumber? then before else a.Refusal? || (!Computes(calls[0].r) && before))
  }

  lemma {:induction false} ResultIsInfiniteIff(s: Server, calls: seq<Call>)
    ensures Run(s, calls).0.result == Infinity <==> LastSetWasRefusal(s, calls, s.result == Infinity)
    decreases |calls|
  {
    hide Refused;
    if calls != [] {
      ResultIsInfiniteIff(Step(s, calls[0]).0, calls[1..]);
    }
  }

  /** After any calls from the start: an admitted client reads its reply as a refusal exactly
      when its operation computes nothing and the last service call that was refused or
      computed a value was refused. */
  lemma AdmissionReadAsRefusalInRuns(calls: seq<Call>, r: Request)
    requires !Refused(Run(Initial, calls).0, r.idx)
    ensures OnTheWire(Step(Run(Initial, calls).0, Service(r)).1) == Infinity <==>
      !Computes(r) && LastSetWasRefusal(Initial, calls, false)
  {
    hide Refused, Run, LastSetWasRefusal;
    ResultIsInfiniteIff(Initial, calls);
    AdmissionReadAsRefusal(Run(Initial, calls).0, r);
  }

  /** And it does happen, from the start: the client whose operation computes nothing comes to
      its turn just after the other one was refused. */
  lemma AdmittedAfterRefusal(a: Request, b: Request)
    requires a.idx != b.idx && !Computes(a)
    ensures Run(Initial, [GetNumber(a), GetNumber(b), Service(b), Service(a)]).1
         == [Ticket(1), Ticket(2), Refusal, Admission(Infinity)]
  {
    hide Refused, MaxOf, Run;
    FirstTickets(a, b);
    RunFour(Initial, GetNumber(a), GetNumber(b), Service(b), Service(a));
  }

  lemma RunUnfold(s: Server, calls: seq<Call>)
    ensures calls == [] ==> Run(s, calls).1 == []
    ensures calls != [] ==> Run(s, calls).1 == [Step(s, calls[0]).1] + Run(Step(s, calls[0]).0, calls[1..]).1
  {
    hide Step;
  }

  lemma RunFour(s: Server, a: Call, b: Call, c: Call, d: Call)
    ensures var (s1, x1) := Step(s, a);
      var (s2, x2) := Step(s1, b);
      var (s3, x3) := Step(s2, c);
      Run(s, [a, b, c, d]).1 == [x1, x2, x3, Step(s3, d).1]
  {
    hide Step, Run;
    assert [a, b, c, d][1..] == [b, c, d] && [b, c, d][1..] == [c, d] && [c, d][1..] == [d] && [d][1..] == [];
    var (s1, x1) := Step(s, a);
    var (s2, x2) := Step(s1, b);
    var (s3, x3) := Step(s2, c);
    RunUnfold(s, [a, b, c, d]);
    RunUnfold(s1, [b, c, d]);
    RunUnfold(s2, [c, d]);
    RunUnfold(s3, [d]);
    RunUnfold(Step(s3, d).0, []);
  }

  lemma FirstTickets(a: Request, b: Request)
    requires a.idx != b.idx
    ensures MaxOf(Initial.numbers) == 0
    ensures var s1 := Step(Initial, GetNumber(a)).0;
      var s2 := Step(s1, GetNumber(b)).0;
      var s3 := Step(s2, Service(b)).0;
      MaxOf(s1.numbers) == 1 && Refused(s2, b.idx) && !Refused(s3, a.idx)
  {
    assert MaxOf(Initial.numbers) in Initial.numbers;
    var s1 := Step(Initial, GetNumber(a)).0;
    assert MaxOf(s1.numbers) in s1.numbers && s1.numbers[a.idx] == 1;
    var s2 := Step(s1, GetNumber(b)).0;
    assert Stops(s2, a.idx, b.idx);
  }
}
