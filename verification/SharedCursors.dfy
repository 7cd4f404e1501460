/** The producer and consumer processes of one shared memory segment: two cursors at its
    start, then one cell per character ever produced, and the same lock arrays. */
module SharedCursors {
  import opened Counting
  import opened Processes
  import opened Options
  import opened Semaphores
  import opened PcLocks

  /** Bytes of the 4096-byte segment behind the two 8-byte cursors. */
  const CELLS := 4080
  const EMPTY := 26

  type Cells = c: seq<int> | |c| == CELLS witness seq(CELLS, _ => 0)

  datatype Role = Producer | Consumer

  /** A process at the top of its loop (0), behind its lock (1), behind its access to the cell
      (2), or behind the move of its cursor (3); `ch` is its local variable. */
  datatype Process = Process(role: Role, pc: nat, ch: int)

  /** `prodCur` and `consCur` are the cursors, counted from the first cell; `consumed` is the
      history of the characters read. */
  datatype Sys = Sys(
    sems: seq<nat>, cells: Cells, prodCur: nat, consCur: nat, procs: map<nat, Process>,
    holder: Holder, consumed: seq<int>)

  /** Any number of processes of both kinds, all at the top of their loops. */
  predicate Start(s: Sys) {
    && s.sems == [EMPTY, 0, 1] && s.prodCur == 0 && s.consCur == 0
    && s.holder.Nobody? && s.consumed == []
    && (forall w :: w in s.procs ==> s.procs[w].pc == 0)
  }

  function Moved(s: Sys, w: nat): Sys
    requires w in s.procs
  {
    s.(procs := s.procs[w := s.procs[w].(pc := (s.procs[w].pc + 1) % 4)])
  }

  function AfterSemop(s: Sys, w: nat, ops: seq<Sembuf>, holder: Holder): Option<Sys>
    requires w in s.procs
  {
    match Semop(s.sems, ops)
    case Done(sems) => Some(Moved(s, w).(sems := sems, holder := holder))
    case _ => None
  }

  function ProducerStep(s: Sys, w: nat): Option<Sys>
    requires w in s.procs
  {
    var k := s.procs[w];
    if k.pc == 0 then AfterSemop(s, w, PRODUCER_LOCK, Held(w))
    else if k.pc == 1 then
      if s.prodCur < CELLS then
        var ch := Letter(s.prodCur);
        Some(s.(cells := s.cells[s.prodCur := ch], procs := s.procs[w := k.(pc := 2, ch := ch)]))
      else None
    else if k.pc == 2 then Some(Moved(s, w).(prodCur := s.prodCur + 1))
    else if k.pc == 3 then AfterSemop(s, w, PRODUCER_RELEASE, Nobody)
    else None
  }

  function ConsumerStep(s: Sys, w: nat): Option<Sys>
    requires w in s.procs
  {
    var k := s.procs[w];
    if k.pc == 0 then AfterSemop(s, w, CONSUMER_LOCK, Held(w))
    else if k.pc == 1 then
      if s.consCur < CELLS then
        var ch := s.cells[s.consCur];
        Some(s.(procs := s.procs[w := k.(pc := 2, ch := ch)], consumed := s.consumed + [ch]))
      else None
    else if k.pc == 2 then Some(Moved(s, w).(consCur := s.consCur + 1))
    else if k.pc == 3 then AfterSemop(s, w, CONSUMER_RELEASE, Nobody)
    else None
  }

  /** One step of process w.  None: it sleeps in semop, or the segment is used up. */
  function Step(s: Sys, w: nat): Option<Sys> {
    if w !in s.procs then None
    else if s.procs[w].role.Producer? then ProducerStep(s, w)
    else ConsumerStep(s, w)
  }

  // ---------------------------------------------------------------- the invariant

  predicate InsideAt(s: Sys, role: Role, lo: nat, hi: nat) {
    s.holder.Held? && s.holder.w in s.procs
    && s.procs[s.holder.w].role == role && lo <= s.procs[s.holder.w].pc <= hi
  }

  predicate Exclusive(s: Sys) {
    && |s.sems| == 3 && s.sems[SB] == One(s.holder.Nobody?)
    && (s.holder.Held? ==> s.holder.w in s.procs)
    && (forall w :: w in s.procs ==> (1 <= s.procs[w].pc <= 3 <==> s.holder == Held(w)))
    && (forall w :: w in s.procs ==> s.procs[w].pc <= 3)
  }

  predicate Counted(s: Sys) {
    && |s.sems| == 3
    && s.sems[SE] == EMPTY - s.prodCur - One(InsideAt(s, Producer, 1, 2)) + s.consCur - One(InsideAt(s, Consumer, 3, 3))
    && s.sems[SF] == s.prodCur - One(InsideAt(s, Producer, 3, 3)) - s.consCur - One(InsideAt(s, Consumer, 1, 2))
  }

  predicate Spelled(s: Sys) {
    && s.prodCur <= CELLS
    && (forall j :: 0 <= j < s.prodCur ==> s.cells[j] == Letter(j))
    && (InsideAt(s, Producer, 2, 2) ==> s.prodCur < CELLS && s.cells[s.prodCur] == Letter(s.prodCur))
    && |s.consumed| == s.consCur + One(InsideAt(s, Consumer, 2, 2))
    && (forall j :: 0 <= j < |s.consumed| ==> s.consumed[j] == Letter(j))
  }

  predicate Inv(s: Sys) {
    Exclusive(s) && Counted(s) && Spelled(s)
  }

  lemma StepKeepsExclusive(s: Sys, w: nat)
    requires Inv(s) && Step(s, w).Some?
    ensures Exclusive(Step(s, w).value)
  {
    LockAndRelease(s.sems);
    hide Semop, Counted;
  }

  lemma StepKeepsCounted(s: Sys, w: nat)
    requires Inv(s) && Step(s, w).Some?
    ensures Counted(Step(s, w).value)
  {
    LockAndRelease(s.sems);
    hide Semop;
  }

  lemma StepKeepsSpelled(s: Sys, w: nat)
    requires Inv(s) && Step(s, w).Some?
    ensures Spelled(Step(s, w).value)
  {
    LockAndRelease(s.sems);
    hide Semop, Letter;
  }

  // ---------------------------------------------------------------- runs

  lemma StepKeepsInv(s: Sys, w: nat)
    requires Inv(s) && Step(s, w).Some?
    ensures Inv(Step(s, w).value)
  {
    StepKeepsExclusive(s, w);
    StepKeepsCounted(s, w);
    StepKeepsSpelled(s, w);
  }

  /** An interleaving, given by the process that takes each step.  None if one sleeps. */
  function Run(s: Sys, turns: seq<nat>): Option<Sys>
    decreases |turns|
  {
    if turns == [] then Some(s)
    else
      match Step(s, turns[0])
      case Some(t) => Run(t, turns[1..])
      case None => None
  }

  lemma {:induction false} RunKeepsInv(s: Sys, turns: seq<nat>)
    requires Inv(s) && Run(s, turns).Some?
    ensures Inv(Run(s, turns).value)
    decreases |turns|
  {
    if turns != [] {
      StepKeepsInv(s, turns[0]);
      hide Inv, Step;
      RunKeepsInv(Step(s, turns[0]).value, turns[1..]);
    }
  }

  /** In every reachable state: the units add up, at most one process is inside, the producer's
      cursor is 0 to 26 cells ahead, and the characters consumed so far are the characters
      produced first, in order: 'a', 'b', ... 'z', 'a', ... */
  lemma ReachableStates(s: Sys, turns: seq<nat>)
    requires Start(s) && Run(s, turns).Some?
    ensures var t := Run(s, turns).value;
      && |t.sems| == 3 && t.sems[SB] <= 1 && t.sems[SE] + t.sems[SF] + (1 - t.sems[SB]) == 26
      && (forall v, w | v in t.procs && w in t.procs :: 1 <= t.procs[v].pc <= 3 && 1 <= t.procs[w].pc <= 3 ==> v == w)
      && 0 <= t.prodCur - t.consCur <= 26
      && |t.consumed| <= t.prodCur <= 4080
      && (forall j :: 0 <= j < t.prodCur ==> t.cells[j] == 'a' as int + j % 26)
      && (forall j :: 0 <= j < |t.consumed| ==> t.consumed[j] == t.cells[j])
  {
    StartIsInvariant(s);
    RunKeepsInv(s, turns);
    hide Run, Start;
  }

  lemma StartIsInvariant(s: Sys)
    requires Start(s)
    ensures Inv(s)
  {
  }

  /** A consumer never reads a cell before it was written, nor outside the segment. */
  lemma ReadsAreOfWrittenCells(s: Sys, w: nat)
    requires Inv(s) && w in s.procs && s.procs[w].role.Consumer? && s.procs[w].pc == 1
    ensures s.consCur < s.prodCur <= CELLS
    ensures ConsumerStep(s, w).value.procs[w].ch == Letter(s.consCur)
  {
    hide Letter;
  }

  /** A producer writes the next letter into the next cell, and the same is what it prints. */
  lemma WritesNextLetter(s: Sys, w: nat)
    requires Inv(s) && w in s.procs && s.procs[w].role.Producer? && s.procs[w].pc == 1 && s.prodCur < CELLS
    ensures var t := ProducerStep(s, w);
      && t.Some? && t.value.cells == s.cells[s.prodCur := 'a' as int + s.prodCur % 26]
      && w in t.value.procs && t.value.procs[w].ch == t.value.cells[s.prodCur]
  {
    hide Exclusive, Counted, Spelled;
  }

  /** No release ever blocks. */
  lemma ReleasesNeverBlock(s: Sys, w: nat)
    requires Inv(s) && w in s.procs && s.procs[w].pc == 3
    ensures Step(s, w).Some?
  {
    LockAndRelease(s.sems);
    hide Semop;
  }

  lemma SomebodyMoves(s: Sys, p: nat, c: nat)
    requires Inv(s) && s.prodCur < CELLS
    requires p in s.procs && s.procs[p].role.Producer? && c in s.procs && s.procs[c].role.Consumer?
    ensures exists w :: Step(s, w).Some?
  {
    hide Semop, Letter;
    LockAndRelease(s.sems);
    var w := if s.holder.Held? then s.holder.w else if s.sems[SE] > 0 then p else c;
    assert Step(s, w).Some?;
  }

  /** Deadlock freedom: with a producer, a consumer and room in the segment, in every reachable
      state some process can take a step. */
  lemma NoDeadlock(s: Sys, turns: seq<nat>, p: nat, c: nat)
    requires Start(s) && Run(s, turns).Some?
    requires var t := Run(s, turns).value;
      && t.prodCur < CELLS
      && p in t.procs && t.procs[p].role.Producer? && c in t.procs && t.procs[c].role.Consumer?
    ensures exists w :: Step(Run(s, turns).value, w).Some?
  {
    hide Run, Inv, Step;
    StartIsInvariant(s);
    RunKeepsInv(s, turns);
    SomebodyMoves(Run(s, turns).value, p, c);
  }

  // ---------------------------------------------------------------- the segment

  class Segment {
    const cells: array<int>
    var sems: seq<nat>
    var prodCur: nat
    var consCur: nat
    var procs: map<nat, Process>
    ghost var holder: Holder
    ghost var consumed: seq<int>

    ghost function View(): Sys
      requires cells.Length == CELLS
      reads this, cells
    {
      Sys(sems, cells[..], prodCur, consCur, procs, holder, consumed)
    }

    ghost predicate Valid()
      reads this, cells
    {
      cells.Length == CELLS && Inv(View())
    }

    constructor (processes: map<nat, Process>)
      requires forall w :: w in processes ==> processes[w].pc == 0
      ensures Valid() && Start(View()) && procs == processes && fresh(cells)
      ensures sems == [26, 0, 1] && cells.Length == 4080
    {
      cells := new int[CELLS](_ => 0);
      sems := [EMPTY, 0, 1];
      prodCur, consCur := 0, 0;
      procs := processes;
      holder := Nobody;
      consumed := [];
      new;
      StartIsInvariant(View());
    }

    method SemopCall(w: nat, ops: seq<Sembuf>, ghost next: Holder) returns (done: bool)
      requires w in procs && cells.Length == CELLS
      modifies this`sems, this`holder, this`procs
      ensures done == old(AfterSemop(View(), w, ops, next)).Some?
      ensures View() == if done then old(AfterSemop(View(), w, ops, next)).value else old(View())
    {
      match Semop(sems, ops) {
        case Done(r) =>
          sems := r;
          holder := next;
          procs := procs[w := procs[w].(pc := (procs[w].pc + 1) % 4)];
          done := true;
        case _ => done := false;
      }
    }

    /** One step of the loop of a producer process. */
    method Producer(w: nat) returns (moved: bool)
      requires Valid() && w in procs && procs[w].role.Producer?
      modifies this, cells
      ensures Valid() && moved == old(Step(View(), w)).Some?
      ensures View() == if moved then old(Step(View(), w)).value else old(View())
    {
      ghost var before := View();
      if Step(before, w).Some? { StepKeepsInv(before, w); }
      hide Exclusive, Counted, Spelled;
      var k := procs[w];
      if k.pc == 0 {
        moved := SemopCall(w, PRODUCER_LOCK, Held(w));
      } else if k.pc == 3 {
        moved := SemopCall(w, PRODUCER_RELEASE, Nobody);
      } else if k.pc == 1 && prodCur < CELLS {
        var ch := Letter(prodCur);
        cells[prodCur] := ch;
        procs := procs[w := k.(pc := 2, ch := ch)];
        moved := true;
        assert cells[..] == before.cells[prodCur := ch];
      } else if k.pc == 2 {
        prodCur := prodCur + 1;
        procs := procs[w := k.(pc := 3)];
        moved := true;
      } else {
        moved := false;
      }
    }

    /** One step of the loop of a consumer process. */
    method Consumer(w: nat) returns (moved: bool)
      requires Valid() && w in procs && procs[w].role.Consumer?
      modifies this
      ensures Valid() && moved == old(Step(View(), w)).Some?
      ensures View() == if moved then old(Step(View(), w)).value else old(View())
    {
      ghost var before := View();
      if Step(before, w).Some? { StepKeepsInv(before, w); }
      hide Exclusive, Counted, Spelled;
      var k := procs[w];
      if k.pc == 0 {
        moved := SemopCall(w, CONSUMER_LOCK, Held(w));
      } else if k.pc == 3 {
        moved := SemopCall(w, CONSUMER_RELEASE, Nobody);
      } else if k.pc == 1 && consCur < CELLS {
        var c := cells[consCur];
        procs := procs[w := k.(pc := 2, ch := c)];
        consumed := consumed + [c];
        moved := true;
      } else if k.pc == 2 {
        consCur := consCur + 1;
        procs := procs[w := k.(pc := 3)];
        moved := true;
      } else {
        moved := false;
      }
    }
  }
}
