/** The producer/consumer RPC server: a dispatcher that starts one worker per client, and
    workers that share 29 bytes of memory under System V semaphores.  Bytes 0, 1 and 2 are the
    write position, the read position and the next letter; the other 26 are a ring. */
module ProdCons {
  import opened Counting
  import opened Processes
  import opened Options
  import opened Semaphores
  import opened PcLocks

  const MAX_CNT_CLNT := 1024 * 1024
  const RING := 26
  /** The macro is the bare text 26 + 3: the initial value of SE, and with `- 3` the ring. */
  const BUFFER_SIZE := RING + 3

  /** A C char; it is signed and wraps around on the platforms the program is built for. */
  type SChar = c: int | -128 <= c < 128

  function Wrap(x: int): SChar {
    (x + 128) % 256 - 128
  }

  const LETTER_A: SChar := 97
  const LETTER_Z: SChar := 122
  const DASH: SChar := 45

  /** The ring cell of a count. */
  function Cell(n: int): (r: int)
    ensures 0 <= r < RING
  {
    n % RING
  }

  datatype Role = Producer | Consumer

  /** A worker thread: 0 waits for its lock, 1 to 5 are the points inside its critical section,
      6 is after its release; `sid` and `ch` are its local variables. */
  datatype Worker = Worker(role: Role, pc: nat, sid: int, ch: SChar)

  /** The shared state.  The last five fields record history: who is between lock and release, the
      bytes written to the ring and the bytes read from it, in order, and by which workers. */
  datatype Sys = Sys(
    sems: seq<nat>, buf: seq<SChar>, results: seq<SChar>, idx: nat, workers: map<nat, Worker>,
    holder: Holder, put: seq<SChar>, got: seq<SChar>, putBy: seq<nat>, gotBy: seq<nat>)

  datatype Action = Connect(kind: char) | Advance(w: nat)

  const INITIAL := Sys(
    [BUFFER_SIZE, 0, 1], seq(BUFFER_SIZE, i => if i == 2 then LETTER_A else 0),
    seq(MAX_CNT_CLNT, _ => 0), 0, map[], Nobody, [], [], [], [])

  predicate Shape(s: Sys) {
    && |s.sems| == 3 && |s.buf| == BUFFER_SIZE && |s.results| == MAX_CNT_CLNT
    && s.idx <= MAX_CNT_CLNT
    && (forall w :: w in s.workers ==> w < s.idx)
    && (forall w :: w in s.workers ==> s.workers[w].pc >= 2 ==> 0 <= s.workers[w].sid < RING)
  }

  // ---------------------------------------------------------------- steps

  /** A first request: the next identifier, and a worker if the type is known. */
  function ConnectStep(s: Sys, kind: char): Sys {
    var s' := s.(idx := s.idx + 1);
    if kind == 'c' then s'.(workers := s.workers[s.idx := Worker(Consumer, 0, 0, 0)])
    else if kind == 'p' then s'.(workers := s.workers[s.idx := Worker(Producer, 0, 0, 0)])
    else s'
  }

  /** One step of worker w; between its lock and its release each step makes at most one
      write to shared memory.  None: the worker sleeps in semop, or is finished. */
  function ProducerStep(s: Sys, w: nat): Option<Sys>
    requires Shape(s) && w in s.workers
  {
    var k := s.workers[w];
    if k.pc == 0 then AfterSemop(s, w, PRODUCER_LOCK, Held(w))
    else if k.pc < 5 then Some(ProducerInside(s, w))
    else if k.pc == 5 then AfterSemop(s, w, PRODUCER_RELEASE, Nobody)
    else None
  }

  function ConsumerStep(s: Sys, w: nat): Option<Sys>
    requires Shape(s) && w in s.workers
  {
    var k := s.workers[w];
    if k.pc == 0 then AfterSemop(s, w, CONSUMER_LOCK, Held(w))
    else if k.pc < 5 then Some(ConsumerInside(s, w))
    else if k.pc == 5 then AfterSemop(s, w, CONSUMER_RELEASE, Nobody)
    else None
  }

  function AfterSemop(s: Sys, w: nat, ops: seq<Sembuf>, holder: Holder): Option<Sys>
    requires w in s.workers
  {
    match Semop(s.sems, ops)
    case Done(sems) =>
      Some(s.(sems := sems, holder := holder, workers := s.workers[w := s.workers[w].(pc := s.workers[w].pc + 1)]))
    case _ => None
  }

  function ProducerInside(s: Sys, w: nat): Sys
    requires Shape(s) && w in s.workers && 1 <= s.workers[w].pc <= 4
  {
    var k := s.workers[w];
    var next := s.(workers := s.workers[w := k.(pc := k.pc + 1)]);
    match k.pc
    case 1 =>
      var sid := Cell(s.buf[0]);
      var ch := s.buf[2];
      s.(buf := s.buf[3 + sid := ch], put := s.put + [ch], putBy := s.putBy + [w],
         workers := s.workers[w := k.(pc := 2, sid := sid, ch := ch)])
    case 2 => next.(results := s.results[w := s.buf[3 + k.sid]])
    case 3 => next.(buf := s.buf[2 := Wrap(s.buf[2] as int + 1)])
    case _ => next.(buf := s.buf[0 := Cell(s.buf[0] as int + 1)])
  }

  function ConsumerInside(s: Sys, w: nat): Sys
    requires Shape(s) && w in s.workers && 1 <= s.workers[w].pc <= 4
  {
    var k := s.workers[w];
    var next := s.(workers := s.workers[w := k.(pc := k.pc + 1)]);
    match k.pc
    case 1 =>
      var sid := Cell(s.buf[1]);
      var ch := s.buf[3 + sid];
      s.(got := s.got + [ch], gotBy := s.gotBy + [w], workers := s.workers[w := k.(pc := 2, sid := sid, ch := ch)])
    case 2 => next.(results := s.results[w := k.ch])
    case 3 => next.(buf := s.buf[3 + k.sid := 0])
    case _ => next.(buf := s.buf[1 := Cell(s.buf[1] as int + 1)])
  }

  /** Identifiers are array indices, so a connection needs a free one. */
  function Step(s: Sys, a: Action): Option<Sys>
    requires Inv(s)
  {
    match a
    case Connect(kind) => if s.idx < MAX_CNT_CLNT then Some(ConnectStep(s, kind)) else None
    case Advance(w) =>
      if w !in s.workers then None
      else if s.workers[w].role.Producer? then ProducerStep(s, w)
      else ConsumerStep(s, w)
  }

  // ---------------------------------------------------------------- the invariant

  /** Is the holder a worker of this role at a point from `lo` to `hi`? */
  predicate InsideAt(s: Sys, role: Role, lo: nat, hi: nat) {
    s.holder.Held? && s.holder.w in s.workers
    && s.workers[s.holder.w].role == role && lo <= s.workers[s.holder.w].pc <= hi
  }

  /** Only the holder is inside, and the binary semaphore says whether there is one. */
  predicate Exclusive(s: Sys)
    requires Shape(s)
  {
    && s.sems[SB] == One(s.holder.Nobody?)
    && (s.holder.Held? ==> s.holder.w in s.workers)
    && (forall w :: w in s.workers ==> (1 <= s.workers[w].pc <= 5 <==> s.holder == Held(w)))
    && (forall w :: w in s.workers ==> s.workers[w].pc <= 6)
  }

  /** The counting semaphores, and next the two positions, count what was written to and read
      from the ring. */
  predicate Counted(s: Sys)
    requires Shape(s)
  {
    var p, c := |s.put|, |s.got|;
    && s.sems[SE] == BUFFER_SIZE - p - One(InsideAt(s, Producer, 1, 1)) + c - One(InsideAt(s, Consumer, 2, 5))
    && s.sems[SF] == p - One(InsideAt(s, Producer, 2, 5)) - c - One(InsideAt(s, Consumer, 1, 1))
  }

  predicate Positioned(s: Sys)
    requires Shape(s)
  {
    && s.buf[0] == Cell(|s.put| - One(InsideAt(s, Producer, 2, 4)))
    && s.buf[1] == Cell(|s.got| - One(InsideAt(s, Consumer, 2, 4)))
  }

  /** The k-th byte written is the k-th after 'a', with the wrap-around of a char. */
  predicate Spelled(s: Sys)
    requires Shape(s)
  {
    && s.buf[2] == Wrap(LETTER_A + |s.put| - One(InsideAt(s, Producer, 2, 3)))
    && (forall k :: 0 <= k < |s.put| ==> s.put[k] == Wrap(LETTER_A + k))
  }

  /** What the locals of the holder mean. */
  predicate Locals(s: Sys)
    requires Shape(s)
  {
    && (InsideAt(s, Producer, 2, 5) ==>
          var k := s.workers[s.holder.w];
          |s.put| > 0 && k.sid == Cell(|s.put| - 1) && k.ch == s.put[|s.put| - 1])
    && (InsideAt(s, Producer, 2, 2) ==> s.buf[3 + s.workers[s.holder.w].sid] == s.workers[s.holder.w].ch)
    && (InsideAt(s, Consumer, 2, 5) ==>
          var k := s.workers[s.holder.w];
          |s.got| > 0 && k.sid == Cell(|s.got| - 1) && k.ch == s.got[|s.got| - 1])
  }

  /** Every client's result is 0 until its own worker has delivered, and that worker's byte
      from then on. */
  predicate Delivered(s: Sys)
    requires Shape(s)
  {
    forall i :: 0 <= i < MAX_CNT_CLNT ==>
      s.results[i] == if i in s.workers && s.workers[i].pc >= 3 then s.workers[i].ch else 0
  }

  /** Has worker i delivered its client's result? */
  predicate Served(s: Sys, i: nat) {
    i in s.workers && s.workers[i].pc >= 3
  }

  predicate Inv(s: Sys) {
    Shape(s) && Exclusive(s) && Counted(s) && Positioned(s) && Spelled(s) && Locals(s) && Delivered(s)
  }

  /** The states the server can be in. */
  type State = s: Sys | Inv(s) witness INITIAL

  /** After `init`. */
  const Init: State := INITIAL

  lemma ConnectKeepsInside(s: Sys, kind: char)
    requires Shape(s) && Exclusive(s) && s.idx < MAX_CNT_CLNT
    ensures forall role, lo, hi :: InsideAt(ConnectStep(s, kind), role, lo, hi) == InsideAt(s, role, lo, hi)
    ensures s.holder.Held? ==> s.holder.w in s.workers && s.holder.w != s.idx
  {
  }

  lemma ConnectKeepsCounted(s: Sys, kind: char)
    requires Inv(s) && s.idx < MAX_CNT_CLNT
    ensures var t := ConnectStep(s, kind);
      Shape(t) && Counted(t) && Positioned(t) && Spelled(t) && Locals(t)
  {
    hide Delivered, InsideAt, Cell, Wrap;
    ConnectKeepsInside(s, kind);
    LocalsNeedHolder(s);
  }

  lemma LocalsNeedHolder(s: Sys)
    requires Shape(s)
    ensures forall role, lo, hi :: InsideAt(s, role, lo, hi) ==> s.holder.Held? && s.holder.w in s.workers
  {
  }

  lemma ConnectKeepsInv(s: Sys, kind: char)
    requires Inv(s) && s.idx < MAX_CNT_CLNT
    ensures Inv(ConnectStep(s, kind))
  {
    ConnectKeepsCounted(s, kind);
    hide Counted, Positioned, Spelled, Locals;
  }

  lemma NextCell(n: int)
    ensures Cell(Cell(n)) == Cell(n) && Cell(Cell(n - 1) + 1) == Cell(n)
  {
  }

  lemma NextByte(x: int)
    ensures Wrap(Wrap(x - 1) as int + 1) == Wrap(x)
  {
  }

  lemma ProducerKeepsExclusive(s: Sys, w: nat)
    requires Inv(s) && w in s.workers && s.workers[w].role.Producer? && ProducerStep(s, w).Some?
    ensures Shape(ProducerStep(s, w).value) && Exclusive(ProducerStep(s, w).value)
  {
    hide Semop, Counted, Positioned, Spelled, Locals, Delivered;
    LockAndRelease(s.sems);
  }

  lemma ProducerKeepsCounted(s: Sys, w: nat)
    requires Inv(s) && w in s.workers && s.workers[w].role.Producer? && ProducerStep(s, w).Some?
    ensures Shape(ProducerStep(s, w).value) && Counted(ProducerStep(s, w).value)
  {
    hide Semop, Positioned, Spelled, Locals, Delivered;
    LockAndRelease(s.sems);
  }

  lemma HolderIsInside(s: Sys, w: nat)
    requires Inv(s) && w in s.workers
    ensures |s.sems| == 3 && (s.sems[SB] == 0 <==> s.holder.Held?)
    ensures (1 <= s.workers[w].pc <= 5 <==> s.holder == Held(w)) && s.workers[w].pc <= 6
  {
    hide Counted, Positioned, Spelled, Locals, Delivered;
  }

  /** What a step of a producer does to the counts and to its position, by the point it is at. */
  predicate ProducerMoved(s: Sys, t: Sys, pc: nat) {
    && Shape(s) && Shape(t)
    && !InsideAt(s, Consumer, 2, 4) && !InsideAt(t, Consumer, 2, 4)
    && (InsideAt(s, Producer, 2, 4) <==> 2 <= pc <= 4) && (InsideAt(t, Producer, 2, 4) <==> 1 <= pc <= 3)
    && |t.put| == |s.put| + One(pc == 1) && t.got == s.got && t.buf[1] == s.buf[1]
    && t.buf[0] == if pc == 4 then Cell(s.buf[0] as int + 1) else s.buf[0]
  }

  lemma ProducerPasses(s: Sys, w: nat)
    requires Inv(s) && w in s.workers && s.workers[w].role.Producer? && ProducerStep(s, w).Some?
    requires s.workers[w].pc == 0 || s.workers[w].pc == 5
    ensures ProducerMoved(s, ProducerStep(s, w).value, s.workers[w].pc)
  {
    hide Exclusive, Semop, Cell, Counted, Positioned, Spelled, Locals, Delivered, ProducerInside;
    HolderIsInside(s, w);
    LockAndRelease(s.sems);
  }

  lemma ProducerWorks(s: Sys, w: nat)
    requires Inv(s) && w in s.workers && s.workers[w].role.Producer? && 1 <= s.workers[w].pc <= 4
    ensures ProducerStep(s, w).Some? && ProducerMoved(s, ProducerStep(s, w).value, s.workers[w].pc)
  {
    hide Exclusive, AfterSemop, Cell, Counted, Positioned, Spelled, Locals, Delivered;
    HolderIsInside(s, w);
  }

  lemma ProducerMoves(s: Sys, w: nat)
    requires Inv(s) && w in s.workers && s.workers[w].role.Producer? && ProducerStep(s, w).Some?
    ensures ProducerMoved(s, ProducerStep(s, w).value, s.workers[w].pc)
  {
    hide Exclusive, AfterSemop, Cell, Counted, Positioned, Spelled, Locals, Delivered, ProducerInside, ProducerMoved;
    if s.workers[w].pc == 0 || s.workers[w].pc == 5 {
      ProducerPasses(s, w);
    } else {
      ProducerWorks(s, w);
    }
  }

  lemma ProducerKeepsPositioned(s: Sys, w: nat)
    requires Inv(s) && w in s.workers && s.workers[w].role.Producer? && ProducerStep(s, w).Some?
    ensures Shape(ProducerStep(s, w).value) && Positioned(ProducerStep(s, w).value)
  {
    ProducerMoves(s, w);
    hide ProducerStep, InsideAt, Shape, Exclusive, Cell, Counted, Spelled, Locals, Delivered;
    NextCell(|s.put|);
  }

  lemma ProducerKeepsSpelled(s: Sys, w: nat)
    requires Inv(s) && w in s.workers && s.workers[w].role.Producer? && ProducerStep(s, w).Some?
    ensures Shape(ProducerStep(s, w).value) && Spelled(ProducerStep(s, w).value)
  {
    hide Semop, Counted, Locals, Delivered, Wrap;
    LockAndRelease(s.sems);
    NextByte(LETTER_A + |s.put|);
  }

  lemma ProducerKeepsLocals(s: Sys, w: nat)
    requires Inv(s) && w in s.workers && s.workers[w].role.Producer? && ProducerStep(s, w).Some?
    ensures Shape(ProducerStep(s, w).value) && Locals(ProducerStep(s, w).value)
  {
    hide Semop, Cell, Counted, Spelled, Delivered;
    LockAndRelease(s.sems);
    NextCell(|s.put|);
    NextCell(|s.got|);
  }

  lemma ProducerKeepsDelivered(s: Sys, w: nat)
    requires Inv(s) && w in s.workers && s.workers[w].role.Producer? && ProducerStep(s, w).Some?
    ensures Shape(ProducerStep(s, w).value) && Delivered(ProducerStep(s, w).value)
  {
    hide Semop, Counted, Positioned, Spelled;
    LockAndRelease(s.sems);
  }

  lemma ConsumerKeepsExclusive(s: Sys, w: nat)
    requires Inv(s) && w in s.workers && s.workers[w].role.Consumer? && ConsumerStep(s, w).Some?
    ensures Shape(ConsumerStep(s, w).value) && Exclusive(ConsumerStep(s, w).value)
  {
    hide Semop, Counted, Positioned, Spelled, Locals, Delivered;
    LockAndRelease(s.sems);
  }

  lemma ConsumerKeepsCounted(s: Sys, w: nat)
    requires Inv(s) && w in s.workers && s.workers[w].role.Consumer? && ConsumerStep(s, w).Some?
    ensures Shape(ConsumerStep(s, w).value) && Counted(ConsumerStep(s, w).value)
  {
    hide Semop, Positioned, Spelled, Locals, Delivered;
    LockAndRelease(s.sems);
  }

  /** What a step of a consumer does to the counts and to its position, by the point it is at. */
  predicate ConsumerMoved(s: Sys, t: Sys, pc: nat) {
    && Shape(s) && Shape(t)
    && !InsideAt(s, Producer, 2, 4) && !InsideAt(t, Producer, 2, 4)
    && (InsideAt(s, Consumer, 2, 4) <==> 2 <= pc <= 4) && (InsideAt(t, Consumer, 2, 4) <==> 1 <= pc <= 3)
    && |t.got| == |s.got| + One(pc == 1) && t.put == s.put && t.buf[0] == s.buf[0]
    && t.buf[1] == if pc == 4 then Cell(s.buf[1] as int + 1) else s.buf[1]
  }

  lemma ConsumerPasses(s: Sys, w: nat)
    requires Inv(s) && w in s.workers && s.workers[w].role.Consumer? && ConsumerStep(s, w).Some?
    requires s.workers[w].pc == 0 || s.workers[w].pc == 5
    ensures ConsumerMoved(s, ConsumerStep(s, w).value, s.workers[w].pc)
  {
    hide Exclusive, Semop, Cell, Counted, Positioned, Spelled, Locals, Delivered, ConsumerInside;
    HolderIsInside(s, w);
    LockAndRelease(s.sems);
  }

  lemma ConsumerWorks(s: Sys, w: nat)
    requires Inv(s) && w in s.workers && s.workers[w].role.Consumer? && 1 <= s.workers[w].pc <= 4
    ensures ConsumerStep(s, w).Some? && ConsumerMoved(s, ConsumerStep(s, w).value, s.workers[w].pc)
  {
    hide Exclusive, AfterSemop, Cell, Counted, Positioned, Spelled, Locals, Delivered;
    HolderIsInside(s, w);
  }

  lemma ConsumerMoves(s: Sys, w: nat)
    requires Inv(s) && w in s.workers && s.workers[w].role.Consumer? && ConsumerStep(s, w).Some?
    ensures ConsumerMoved(s, ConsumerStep(s, w).value, s.workers[w].pc)
  {
    hide Exclusive, AfterSemop, Cell, Counted, Positioned, Spelled, Locals, Delivered, ConsumerInside, ConsumerMoved;
    if s.workers[w].pc == 0 || s.workers[w].pc == 5 {
      ConsumerPasses(s, w);
    } else {
      ConsumerWorks(s, w);
    }
  }

  lemma ConsumerKeepsPositioned(s: Sys, w: nat)
    requires Inv(s) && w in s.workers && s.workers[w].role.Consumer? && ConsumerStep(s, w).Some?
    ensures Shape(ConsumerStep(s, w).value) && Positioned(ConsumerStep(s, w).value)
  {
    ConsumerMoves(s, w);
    hide ConsumerStep, InsideAt, Shape, Exclusive, Cell, Counted, Spelled, Locals, Delivered;
    NextCell(|s.got|);
  }

  lemma ConsumerKeepsSpelled(s: Sys, w: nat)
    requires Inv(s) && w in s.workers && s.workers[w].role.Consumer? && ConsumerStep(s, w).Some?
    ensures Shape(ConsumerStep(s, w).value) && Spelled(ConsumerStep(s, w).value)
  {
    hide Semop, Counted, Locals, Delivered, Wrap;
    LockAndRelease(s.sems);
    NextByte(LETTER_A + |s.put|);
  }

  lemma ConsumerKeepsLocals(s: Sys, w: nat)
    requires Inv(s) && w in s.workers && s.workers[w].role.Consumer? && ConsumerStep(s, w).Some?
    ensures Shape(ConsumerStep(s, w).value) && Locals(ConsumerStep(s, w).value)
  {
    hide Semop, Cell, Counted, Spelled, Delivered;
    LockAndRelease(s.sems);
    NextCell(|s.put|);
    NextCell(|s.got|);
  }

  lemma ConsumerKeepsDelivered(s: Sys, w: nat)
    requires Inv(s) && w in s.workers && s.workers[w].role.Consumer? && ConsumerStep(s, w).Some?
    ensures Shape(ConsumerStep(s, w).value) && Delivered(ConsumerStep(s, w).value)
  {
    hide Semop, Counted, Positioned, Spelled;
    LockAndRelease(s.sems);
  }

  lemma StepKeepsInv(s: Sys, a: Action)
    requires Inv(s) && Step(s, a).Some?
    ensures Inv(Step(s, a).value)
  {
    match a
    case Connect(kind) => ConnectKeepsInv(s, kind);
    case Advance(w) =>
      if s.workers[w].role.Producer? {
        ProducerKeepsExclusive(s, w);
        ProducerKeepsCounted(s, w);
        ProducerKeepsPositioned(s, w);
        ProducerKeepsSpelled(s, w);
        ProducerKeepsLocals(s, w);
        ProducerKeepsDelivered(s, w);
      } else {
        ConsumerKeepsExclusive(s, w);
        ConsumerKeepsCounted(s, w);
        ConsumerKeepsPositioned(s, w);
        ConsumerKeepsSpelled(s, w);
        ConsumerKeepsLocals(s, w);
        ConsumerKeepsDelivered(s, w);
      }
      hide Exclusive, Counted, Positioned, Spelled, Locals, Delivered, Shape;
  }

  // ---------------------------------------------------------------- runs

  function After(s: Sys, a: Action): (t: Sys)
    requires Inv(s) && Step(s, a).Some?
    ensures Inv(t)
  {
    StepKeepsInv(s, a);
    Step(s, a).value
  }

  /** An interleaving: every action in turn, as long as it is enabled.  None if one is not. */
  function Run(s: Sys, actions: seq<Action>): (t: Option<Sys>)
    requires Inv(s)
    ensures t.Some? ==> Inv(t.value)
    decreases |actions|
  {
    if actions == [] then Some(s)
    else if Step(s, actions[0]).None? then None
    else Run(After(s, actions[0]), actions[1..])
  }

  /** The three semaphores account for all 29 units, whatever the ring holds, so that at most
      29 bytes are ever outstanding; and at most one worker is inside its critical section. */
  lemma UnitsAccountedFor(s: Sys)
    requires Inv(s)
    ensures s.sems[SB] <= 1 && s.sems[SE] + s.sems[SF] + (1 - s.sems[SB]) == 29
    ensures 0 <= |s.put| - |s.got| <= 29
    ensures forall v, w | v in s.workers && w in s.workers ::
      1 <= s.workers[v].pc <= 5 && 1 <= s.workers[w].pc <= 5 ==> v == w
  {
    hide Delivered, Spelled, Locals, Positioned;
  }

  // ---------------------------------------------------------------- deadlock

  /** Some worker of this role is before its lock. */
  predicate Waiting(s: Sys, role: Role) {
    exists w :: w in s.workers && s.workers[w].role == role && s.workers[w].pc == 0
  }

  /** Some worker can take a step. */
  predicate SomebodyMoves(s: Sys)
    requires Inv(s)
  {
    exists w :: w in s.workers && Step(s, Advance(w)).Some?
  }

  lemma HolderMoves(s: Sys)
    requires Inv(s) && s.holder.Held?
    ensures SomebodyMoves(s)
  {
    hide Semop, Counted, Positioned, Spelled, Locals, Delivered;
    LockAndRelease(s.sems);
    assert s.holder.w in s.workers && Step(s, Advance(s.holder.w)).Some?;
  }

  /** With nobody inside, a worker that has not begun gets in exactly if its counter is up. */
  lemma WhoMoves(s: Sys, w: nat)
    requires Inv(s) && s.holder.Nobody? && w in s.workers
    ensures Step(s, Advance(w)).Some? <==>
      s.workers[w].pc == 0 && if s.workers[w].role.Producer? then s.sems[SE] > 0 else s.sems[SF] > 0
  {
    hide Semop, Counted, Positioned, Spelled, Locals, Delivered;
    LockAndRelease(s.sems);
  }

  lemma CountersWhenFree(s: Sys)
    requires Inv(s) && s.holder.Nobody?
    ensures |s.sems| == 3
    ensures s.sems[SE] == BUFFER_SIZE - (|s.put| - |s.got|) && s.sems[SF] == |s.put| - |s.got|
  {
    hide Positioned, Spelled, Locals, Delivered;
  }

  /** After any run some worker can take a step exactly if one is inside, or a producer waits
      and fewer than 29 bytes are outstanding, or a consumer waits and some byte is; so never is
      everybody asleep while both a producer and a consumer wait. */
  lemma NoDeadlock(actions: seq<Action>)
    requires Run(Init, actions).Some?
    ensures var t := Run(Init, actions).value;
      SomebodyMoves(t) <==>
        || t.holder.Held?
        || (Waiting(t, Producer) && |t.put| - |t.got| < BUFFER_SIZE)
        || (Waiting(t, Consumer) && |t.put| - |t.got| > 0)
    ensures var t := Run(Init, actions).value;
      Waiting(t, Producer) && Waiting(t, Consumer) ==> SomebodyMoves(t)
  {
    hide Run, Inv, Step;
    var t := Run(Init, actions).value;
    if t.holder.Held? {
      HolderMoves(t);
    } else {
      CountersWhenFree(t);
      forall w | w in t.workers
        ensures Step(t, Advance(w)).Some? <==>
          t.workers[w].pc == 0 && if t.workers[w].role.Producer? then t.sems[SE] > 0 else t.sems[SF] > 0
      {
        WhoMoves(t, w);
      }
    }
  }
}
