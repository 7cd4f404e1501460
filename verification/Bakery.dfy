/** The bakery ticket server: two remote procedures over three static arrays.  The server is
    single-threaded, so each call is one atomic step. */
module Bakery {

  const MAX_CLNT_CNT := 128
  const INT_MAX := 0x7fff_ffff

  /** The indices the static arrays allow. */
  type ClientId = i: int | 0 <= i < MAX_CLNT_CNT

  /** The fields of struct REQUEST that the server reads; `num` and `res` are only printed. */
  datatype Request = Request(pid: int, idx: ClientId, op: int, arg1: real, arg2: real)

  /** A float on the wire: a finite value, or INFINITY. */
  datatype Reply = Infinity | Value(v: real)

  datatype Statics = Statics(numbers: seq<int>, pids: seq<int>, choosing: seq<bool>, result: Reply)

  type Server = s: Statics | |s.numbers| == |s.pids| == |s.choosing| == MAX_CLNT_CNT
    witness Statics(seq(MAX_CLNT_CNT, _ => 0), seq(MAX_CLNT_CNT, _ => 0), seq(MAX_CLNT_CNT, _ => false), Value(0.0))

  datatype Call = GetNumber(r: Request) | Service(r: Request)

  datatype Answer = Ticket(n: int) | Refusal | Admission(reply: Reply)

  const Initial: Server := Statics(
    seq(MAX_CLNT_CNT, _ => 0), seq(MAX_CLNT_CNT, _ => 0), seq(MAX_CLNT_CNT, _ => false), Value(0.0))

  function MaxOf(n: seq<int>): (m: int)
    requires n != []
    ensures m in n
    ensures forall j :: 0 <= j < |n| ==> n[j] <= m
  {
    if |n| == 1 then n[0]
    else
      var m := MaxOf(n[..|n| - 1]);
      assert n == n[..|n| - 1] + [n[|n| - 1]];
      if n[|n| - 1] > m then n[|n| - 1] else m
  }

  /** Client i holds a ticket that goes before client j's: smaller, or equal with a smaller pid. */
  predicate Precedes(s: Server, i: ClientId, j: ClientId)
  {
    s.numbers[i] != 0 &&
    (s.numbers[i] < s.numbers[j] || (s.numbers[i] == s.numbers[j] && s.pids[i] < s.pids[j]))
  }

  predicate Stops(s: Server, i: ClientId, j: ClientId)
  {
    s.choosing[i] || Precedes(s, i, j)
  }

  predicate Refused(s: Server, j: ClientId) {
    exists i: ClientId :: Stops(s, i, j)
  }

  lemma RefusedMeans(s: Server, j: ClientId)
    ensures Refused(s, j) <==> exists i: ClientId ::
      (s.choosing[i] ||
        (s.numbers[i] != 0 &&
          (s.numbers[i] < s.numbers[j] || (s.numbers[i] == s.numbers[j] && s.pids[i] < s.pids[j]))))
  {
    if i: ClientId :|
      (s.choosing[i] ||
        (s.numbers[i] != 0 &&
          (s.numbers[i] < s.numbers[j] || (s.numbers[i] == s.numbers[j] && s.pids[i] < s.pids[j])))) {
      assert Stops(s, i, j);
    }
  }

  /** The switch over the operation; division by zero and unknown operations leave the static
      `result` of the previous call in place. */
  function Compute(r: Request, previous: Reply): Reply {
    if r.op == 0 then Value(r.arg1 + r.arg2)
    else if r.op == 1 then Value(r.arg1 - r.arg2)
    else if r.op == 2 then Value(r.arg1 * r.arg2)
    else if r.op == 3 && r.arg2 != 0.0 then Value(r.arg1 / r.arg2)
    else previous
  }

  function Step(s: Server, c: Call): (Server, Answer)
  {
    var i := c.r.idx;
    match c
    case GetNumber(r) =>
      var n := MaxOf(s.numbers) + 1;
      (s.(pids := s.pids[i := r.pid], numbers := s.numbers[i := n], choosing := s.choosing[i := false]), Ticket(n))
    case Service(r) =>
      if Refused(s, i) then (s.(result := Infinity), Refusal)
      else
        var v := Compute(r, s.result);
        (s.(numbers := s.numbers[i := 0], choosing := s.choosing[i := false], result := v), Admission(v))
  }

  /** What reaches the caller: a refusal and an infinite result look the same. */
  function OnTheWire(a: Answer): Reply
    requires !a.Ticket?
  {
    if a.Refusal? then Infinity else a.reply
  }

  function Run(s: Server, calls: seq<Call>): (Server, seq<Answer>)
    decreases |calls|
  {
    if calls == [] then (s, [])
    else
      var (s1, a) := Step(s, calls[0]);
      var (t, rest) := Run(s1, calls[1..]);
      (t, [a] + rest)
  }

  // ---------------------------------------------------------------- the client

  const ATTEMPTS := 30

  /** What one remote call gives the client; `NoReply` is the null pointer. */
  datatype RpcReply = NoReply | Got(reply: Reply)

  /** The polling loop of a client, against whatever the server answers to its k-th poll: it
      stops at the first poll that is not a refusal, or after exactly 30 refusals. */
  method PollServer(answer: nat -> RpcReply) returns (polls: nat, last: RpcReply)
    ensures 1 <= polls <= 30 && last == answer(polls - 1)
    ensures forall k: nat :: k < polls - 1 ==> answer(k) == Got(Infinity)
    ensures last == Got(Infinity) ==> polls == 30
  {
    var at := 0;
    polls, last := 0, NoReply;
    while at < ATTEMPTS
      invariant 0 <= at == polls <= ATTEMPTS
      invariant forall k: nat :: k < polls ==> answer(k) == Got(Infinity)
      invariant polls > 0 ==> last == answer(polls - 1)
    {
      last := answer(polls);
      polls := polls + 1;
      if last == Got(Infinity) {
        at := at + 1;
      } else {
        break;
      }
    }
  }

  // ---------------------------------------------------------------- the static arrays

  /** The server with its static storage; the methods follow the two handlers statement by
      statement and are proved to perform `Step`. */
  class BakeryServer {
    const numbers: array<int>
    const pids: array<int>
    const choosing: array<bool>
    var result: Reply

    ghost predicate Valid()
      reads this
    {
      numbers.Length == pids.Length == choosing.Length == MAX_CLNT_CNT && numbers != pids
    }

    ghost function View(): (s: Server)
      requires Valid()
      reads this, numbers, pids, choosing
    {
      Statics(numbers[..], pids[..], choosing[..], result)
    }

    constructor ()
      ensures Valid() && View() == Initial
      ensures numbers[..] == seq(128, _ => 0) && choosing[..] == seq(128, _ => false) && result == Value(0.0)
      ensures fresh(numbers) && fresh(pids) && fresh(choosing)
    {
      numbers := new int[MAX_CLNT_CNT](_ => 0);
      pids := new int[MAX_CLNT_CNT](_ => 0);
      choosing := new bool[MAX_CLNT_CNT](_ => false);
      result := Value(0.0);
    }

    method MaxNumber() returns (res: int)
      requires Valid()
      ensures res == MaxOf(numbers[..])
    {
      res := numbers[0];
      var i := 1;
      while i < MAX_CLNT_CNT
        invariant 1 <= i <= MAX_CLNT_CNT
        invariant res == MaxOf(numbers[..i])
      {
        assert numbers[..i + 1][..i] == numbers[..i];
        if numbers[i] > res {
          res := numbers[i];
        }
        i := i + 1;
      }
      assert numbers[..i] == numbers[..];
    }

    /** The increment must not overflow a C int. */
    method GetNumber(argp: Request) returns (ticket: int)
      requires Valid()
      requires MaxOf(View().numbers) < INT_MAX
      modifies numbers, pids, choosing
      ensures (View(), Ticket(ticket)) == Step(old(View()), Call.GetNumber(argp))
      ensures ticket == numbers[argp.idx] == MaxOf(old(numbers[..])) + 1
      ensures numbers[..] == old(numbers[..])[argp.idx := ticket] && pids[..] == old(pids[..])[argp.idx := argp.pid]
      ensures choosing[..] == old(choosing[..])[argp.idx := false]
    {
      pids[argp.idx] := argp.pid;
      choosing[argp.idx] := true;
      var m := MaxNumber();
      numbers[argp.idx] := m + 1;
      ticket := numbers[argp.idx];
      choosing[argp.idx] := false;
      assert numbers[..] == old(numbers[..])[argp.idx := m + 1];
      assert pids[..] == old(pids[..])[argp.idx := argp.pid];
      assert choosing[..] == old(choosing[..])[argp.idx := false];
    }

    method Service(argp: Request) returns (reply: Reply)
      requires Valid()
      modifies this, numbers, choosing
      ensures View() == Step(old(View()), Call.Service(argp)).0
      ensures reply == OnTheWire(Step(old(View()), Call.Service(argp)).1)
      ensures var n, p, c, idx := old(numbers[..]), old(pids[..]), old(choosing[..]), argp.idx;
        var refused := exists i: ClientId ::
          (c[i] || (n[i] != 0 && (n[i] < n[idx] || (n[i] == n[idx] && p[i] < p[idx]))));
        && (refused ==> reply == Infinity && numbers[..] == n && choosing[..] == c)
        && (!refused ==>
              && numbers[..] == n[idx := 0] && choosing[..] == c[idx := false]
              && (argp.op == 0 ==> reply == Value(argp.arg1 + argp.arg2))
              && (argp.op == 1 ==> reply == Value(argp.arg1 - argp.arg2))
              && (argp.op == 2 ==> reply == Value(argp.arg1 * argp.arg2))
              && (argp.op == 3 && argp.arg2 != 0.0 ==> reply == Value(argp.arg1 / argp.arg2))
              && (argp.op < 0 || argp.op > 3 || (argp.op == 3 && argp.arg2 == 0.0) ==> reply == old(result)))
    {
      RefusedMeans(View(), argp.idx);
      var i := 0;
      while i < MAX_CLNT_CNT
        invariant 0 <= i <= MAX_CLNT_CNT
        invariant View() == old(View())
        invariant forall j: ClientId :: j < i ==> !Stops(View(), j, argp.idx)
      {
        if choosing[i] {
          assert Stops(View(), i, argp.idx);
          result := Infinity;
          return result;
        }
        if numbers[i] != 0 && (numbers[i] < numbers[argp.idx] ||
                               (numbers[i] == numbers[argp.idx] && pids[i] < pids[argp.idx])) {
          assert Stops(View(), i, argp.idx);
          result := Infinity;
          return result;
        }
        i := i + 1;
      }
      assert !Refused(old(View()), argp.idx);
      match argp.op {
        case 0 => result := Value(argp.arg1 + argp.arg2);
        case 1 => result := Value(argp.arg1 - argp.arg2);
        case 2 => result := Value(argp.arg1 * argp.arg2);
        case 3 => if argp.arg2 != 0.0 { result := Value(argp.arg1 / argp.arg2); }
        case _ =>
      }
      assert result == Compute(argp, old(result));
      numbers[argp.idx] := 0;
      choosing[argp.idx] := false;
      reply := result;
      assert numbers[..] == old(numbers[..])[argp.idx := 0];
      assert choosing[..] == old(choosing[..])[argp.idx := false];
    }
  }
}
