/** The readers/writers processes around one shared counter. */
module WriterCounter {
  import opened Counting
  import opened Processes
  import opened Options
  import opened Semaphores

  const WAITING_READERS := 0
  const ACTIVE_READERS := 1
  const ACTIVE_WRITER := 2
  const WAITING_WRITERS := 3
  const BIN_WRITER := 4

  const READER_LOCK := [
    Sembuf(WAITING_READERS, V), Sembuf(BIN_WRITER, 0), Sembuf(WAITING_WRITERS, 0),
    Sembuf(ACTIVE_READERS, V), Sembuf(WAITING_READERS, P)]
  const READER_RELEASE := [Sembuf(ACTIVE_WRITER, 0), Sembuf(ACTIVE_READERS, P)]
  const WRITER_LOCK := [
    Sembuf(WAITING_WRITERS, V), Sembuf(ACTIVE_READERS, 0), Sembuf(BIN_WRITER, P),
    Sembuf(ACTIVE_WRITER, V), Sembuf(WAITING_WRITERS, P)]
  /** The two operations listed; the program passes a count of 3. */
  const WRITER_RELEASE := [Sembuf(ACTIVE_WRITER, P), Sembuf(BIN_WRITER, V)]

  /** The lock arrays without their operations on the WAITING semaphores. */
  const SHORT_READER_LOCK := [Sembuf(BIN_WRITER, 0), Sembuf(ACTIVE_READERS, V)]
  const SHORT_WRITER_LOCK := [Sembuf(ACTIVE_READERS, 0), Sembuf(BIN_WRITER, P), Sembuf(ACTIVE_WRITER, V)]

  /** While no writer is recorded as waiting, the lock arrays act like the short ones. */
  lemma WaitingIsInvisible(sems: seq<nat>)
    requires |sems| == 5 && sems[WAITING_WRITERS] == 0
    ensures Semop(sems, READER_LOCK) == Semop(sems, SHORT_READER_LOCK)
    ensures Semop(sems, WRITER_LOCK) == Semop(sems, SHORT_WRITER_LOCK)
  {
    var mid := [Sembuf(BIN_WRITER, 0), Sembuf(WAITING_WRITERS, 0), Sembuf(ACTIVE_READERS, V)];
    BracketIsInvisible(sems, WAITING_READERS, mid, []);
    assert READER_LOCK == [Sembuf(WAITING_READERS, V)] + mid + [Sembuf(WAITING_READERS, P)] + [];
    WaitForZeroIsInvisible(sems, WAITING_WRITERS, [Sembuf(BIN_WRITER, 0)], [Sembuf(ACTIVE_READERS, V)]);
    assert mid + [] == [Sembuf(BIN_WRITER, 0)] + [Sembuf(WAITING_WRITERS, 0)] + [Sembuf(ACTIVE_READERS, V)];
    assert SHORT_READER_LOCK == [Sembuf(BIN_WRITER, 0)] + [Sembuf(ACTIVE_READERS, V)];
    BracketIsInvisible(sems, WAITING_WRITERS, SHORT_WRITER_LOCK, []);
    assert WRITER_LOCK == [Sembuf(WAITING_WRITERS, V)] + SHORT_WRITER_LOCK + [Sembuf(WAITING_WRITERS, P)] + [];
    assert SHORT_WRITER_LOCK + [] == SHORT_WRITER_LOCK;
  }

  lemma ShortEffects(sems: seq<nat>)
    requires |sems| == 5
    ensures Semop(sems, SHORT_READER_LOCK) ==
      if sems[BIN_WRITER] == 0 then Done(sems[ACTIVE_READERS := sems[ACTIVE_READERS] + 1]) else Blocks
    ensures Semop(sems, SHORT_WRITER_LOCK) ==
      if sems[ACTIVE_READERS] == 0 && sems[BIN_WRITER] > 0
      then Done(sems[BIN_WRITER := sems[BIN_WRITER] - 1][ACTIVE_WRITER := sems[ACTIVE_WRITER] + 1]) else Blocks
    ensures Semop(sems, READER_RELEASE) ==
      if sems[ACTIVE_WRITER] == 0 && sems[ACTIVE_READERS] > 0
      then Done(sems[ACTIVE_READERS := sems[ACTIVE_READERS] - 1]) else Blocks
    ensures Semop(sems, WRITER_RELEASE) ==
      if sems[ACTIVE_WRITER] > 0
      then Done(sems[ACTIVE_WRITER := sems[ACTIVE_WRITER] - 1][BIN_WRITER := sems[BIN_WRITER] + 1]) else Blocks
  {
    Perform2(sems, Sembuf(BIN_WRITER, 0), Sembuf(ACTIVE_READERS, V));
    Perform1(sems, Sembuf(ACTIVE_READERS, V));
    assert sems[BIN_WRITER] == 0 ==> sems[BIN_WRITER := 0] == sems;
    Perform3(sems, Sembuf(ACTIVE_READERS, 0), Sembuf(BIN_WRITER, P), Sembuf(ACTIVE_WRITER, V));
    assert sems[ACTIVE_READERS] == 0 ==> sems[ACTIVE_READERS := 0] == sems;
    Perform2(sems, Sembuf(BIN_WRITER, P), Sembuf(ACTIVE_WRITER, V));
    if sems[BIN_WRITER] > 0 {
      Perform1(sems[BIN_WRITER := sems[BIN_WRITER] - 1], Sembuf(ACTIVE_WRITER, V));
    }
    Perform2(sems, Sembuf(ACTIVE_WRITER, 0), Sembuf(ACTIVE_READERS, P));
    Perform1(sems, Sembuf(ACTIVE_READERS, P));
    assert sems[ACTIVE_WRITER] == 0 ==> sems[ACTIVE_WRITER := 0] == sems;
    Perform2(sems, Sembuf(ACTIVE_WRITER, P), Sembuf(BIN_WRITER, V));
    if sems[ACTIVE_WRITER] > 0 {
      Perform1(sems[ACTIVE_WRITER := sems[ACTIVE_WRITER] - 1], Sembuf(BIN_WRITER, V));
    }
  }

  // ---------------------------------------------------------------- processes

  datatype Role = Reader | Writer

  /** Reader: 0 at the top of its loop, 1 inside, 2 has printed.  Writer: 0 at the top, 1
      inside, 2 has computed its letter, 3 has loaded the counter, 4 has stored it, 5 has
      printed.  `ch` and `v` are the letter and the loaded value. */
  datatype Process = Process(role: Role, pc: nat, ch: int, v: int)

  /** `holder`, `stores` and `printed` are history: the writer inside, how often the counter
      was stored, and the letters writers printed, in order. */
  datatype Sys = Sys(
    sems: seq<nat>, shm: int, procs: map<nat, Process>, holder: Holder, stores: nat, printed: seq<int>)

  /** The remainder of C, which takes the sign of its left operand. */
  function CRemainder(a: int, b: nat): int
    requires b > 0
  {
    if a >= 0 then a % b else -((-a) % b)
  }

  /** What a reader prints. */
  function ReadLetter(shm: int): int {
    'a' as int + CRemainder(shm - 1, 26)
  }

  predicate Start(s: Sys) {
    && s.sems == [0, 0, 0, 0, 1] && s.shm == 0 && s.holder.Nobody? && s.stores == 0 && s.printed == []
    && (forall w :: w in s.procs ==> s.procs[w].pc == 0)
  }

  function AfterSemop(s: Sys, w: nat, ops: seq<Sembuf>, holder: Holder, pc: nat): Option<Sys>
    requires w in s.procs
  {
    match Semop(s.sems, ops)
    case Done(sems) => Some(s.(sems := sems, holder := holder, procs := s.procs[w := s.procs[w].(pc := pc)]))
    case _ => None
  }

  function WriterStep(s: Sys, w: nat): Option<Sys>
    requires w in s.procs
  {
    var k := s.procs[w];
    if k.pc == 0 then AfterSemop(s, w, WRITER_LOCK, Held(w), 1)
    else if k.pc == 1 then Some(s.(procs := s.procs[w := k.(pc := 2, ch := Letter(s.shm))]))
    else if k.pc == 2 then Some(s.(procs := s.procs[w := k.(pc := 3, v := s.shm)]))
    else if k.pc == 3 then Some(s.(shm := k.v + 1, stores := s.stores + 1, procs := s.procs[w := k.(pc := 4)]))
    else if k.pc == 4 then Some(s.(printed := s.printed + [k.ch], procs := s.procs[w := k.(pc := 5)]))
    else if k.pc == 5 then AfterSemop(s, w, WRITER_RELEASE, Nobody, 0)
    else None
  }

  function ReaderStep(s: Sys, w: nat): Option<Sys>
    requires w in s.procs
  {
    var k := s.procs[w];
    if k.pc == 0 then AfterSemop(s, w, READER_LOCK, s.holder, 1)
    else if k.pc == 1 then Some(s.(procs := s.procs[w := k.(pc := 2, ch := ReadLetter(s.shm))]))
    else if k.pc == 2 then AfterSemop(s, w, READER_RELEASE, s.holder, 0)
    else None
  }

  /** One step of process w.  None: it sleeps in semop. */
  function Step(s: Sys, w: nat): Option<Sys> {
    if w !in s.procs then None
    else if s.procs[w].role.Writer? then WriterStep(s, w)
    else ReaderStep(s, w)
  }

  // ---------------------------------------------------------------- the invariant

  function ReadersIn(s: Sys): set<nat> {
    set w | w in s.procs && s.procs[w].role.Reader? && s.procs[w].pc != 0
  }

  predicate WriterAt(s: Sys, lo: nat, hi: nat) {
    s.holder.Held? && s.holder.w in s.procs && lo <= s.procs[s.holder.w].pc <= hi
  }

  /** Both WAITING semaphores are 0, the binary one is the complement of ACTIVE_WRITER, and
      ACTIVE_READERS counts the readers inside. */
  predicate Counted(s: Sys) {
    && |s.sems| == 5
    && s.sems[WAITING_READERS] == 0 && s.sems[WAITING_WRITERS] == 0
    && s.sems[ACTIVE_WRITER] == One(s.holder.Held?)
    && s.sems[BIN_WRITER] + s.sems[ACTIVE_WRITER] == 1
    && s.sems[ACTIVE_READERS] == |ReadersIn(s)|
  }

  predicate Exclusive(s: Sys) {
    && (s.holder.Held? ==> s.holder.w in s.procs)
    && (forall w :: w in s.procs && s.procs[w].role.Writer? ==>
          (s.procs[w].pc != 0 <==> s.holder == Held(w)) && s.procs[w].pc <= 5)
    && (forall w :: w in s.procs && s.procs[w].role.Reader? ==> s.holder != Held(w) && s.procs[w].pc <= 2)
  }

  predicate NothingLost(s: Sys) {
    && s.shm == s.stores == |s.printed| + One(WriterAt(s, 4, 4))
    && (forall k :: 0 <= k < |s.printed| ==> s.printed[k] == Letter(k))
    && (WriterAt(s, 2, 4) ==> s.procs[s.holder.w].ch == Letter(|s.printed|))
    && (WriterAt(s, 3, 3) ==> s.procs[s.holder.w].v == s.shm)
  }

  predicate Inv(s: Sys) {
    Counted(s) && Exclusive(s) && NothingLost(s)
  }

  lemma StartIsInvariant(s: Sys)
    requires Start(s)
    ensures Inv(s)
  {
    assert ReadersIn(s) == {};
  }

  lemma LockEffects(s: Sys)
    requires Counted(s)
    ensures Semop(s.sems, READER_LOCK) ==
      if s.holder.Held? then Done(s.sems[ACTIVE_READERS := s.sems[ACTIVE_READERS] + 1]) else Blocks
    ensures Semop(s.sems, WRITER_LOCK) ==
      if s.holder.Nobody? && ReadersIn(s) == {} then Done(s.sems[BIN_WRITER := 0][ACTIVE_WRITER := 1]) else Blocks
    ensures Semop(s.sems, READER_RELEASE) ==
      if s.holder.Nobody? && ReadersIn(s) != {}
      then Done(s.sems[ACTIVE_READERS := s.sems[ACTIVE_READERS] - 1]) else Blocks
    ensures Semop(s.sems, WRITER_RELEASE) ==
      if s.holder.Held? then Done(s.sems[ACTIVE_WRITER := 0][BIN_WRITER := 1]) else Blocks
  {
    WaitingIsInvisible(s.sems);
    ShortEffects(s.sems);
    hide Semop;
    assert ReadersIn(s) == {} <==> |ReadersIn(s)| == 0;
  }

  lemma WriterKeepsInv(s: Sys, w: nat)
    requires Inv(s) && w in s.procs && s.procs[w].role.Writer? && WriterStep(s, w).Some?
    ensures Inv(WriterStep(s, w).value)
  {
    WriterKeepsCounted(s, w);
    LockEffects(s);
    hide Semop, Letter, Counted;
  }

  lemma WriterKeepsCounted(s: Sys, w: nat)
    requires Counted(s) && Exclusive(s) && w in s.procs && s.procs[w].role.Writer? && WriterStep(s, w).Some?
    ensures Counted(WriterStep(s, w).value)
  {
    LockEffects(s);
    hide Semop;
    assert ReadersIn(WriterStep(s, w).value) == ReadersIn(s);
  }

  lemma ReaderKeepsInv(s: Sys, w: nat)
    requires Inv(s) && w in s.procs && s.procs[w].role.Reader? && ReaderStep(s, w).Some?
    ensures Inv(ReaderStep(s, w).value)
  {
    ReaderKeepsCounted(s, w);
    hide Semop, Letter, Counted, ReadersIn;
  }

  /** How the number of readers inside changes when reader w moves. */
  lemma RecountReaders(s: Sys, t: Sys, w: nat)
    requires w in s.procs && w in t.procs && t.procs == s.procs[w := t.procs[w]]
    requires s.procs[w].role.Reader? && t.procs[w].role.Reader?
    ensures |ReadersIn(t)| == |ReadersIn(s)| - One(s.procs[w].pc != 0) + One(t.procs[w].pc != 0)
  {
    var a, b := ReadersIn(s), ReadersIn(t);
    assert w in a <==> s.procs[w].pc != 0;
    forall v | v != w ensures v in b <==> v in a {
    }
    if t.procs[w].pc != 0 {
      assert b == a + {w};
    } else {
      assert b == a - {w};
    }
    hide ReadersIn;
  }

  lemma ReaderKeepsCounted(s: Sys, w: nat)
    requires Counted(s) && Exclusive(s) && w in s.procs && s.procs[w].role.Reader? && ReaderStep(s, w).Some?
    ensures Counted(ReaderStep(s, w).value)
  {
    LockEffects(s);
    hide Semop, ReadersIn;
    RecountReaders(s, ReaderStep(s, w).value, w);
  }

  // ---------------------------------------------------------------- runs

  /** An interleaving, given by the process that takes each step.  None if one sleeps. */
  function Run(s: Sys, turns: seq<nat>): Option<Sys>
    decreases |turns|
  {
    if turns == [] then Some(s)
    else
      match Step(s, turns[0])
      case Some(t) => Run(t, turns[1..])
      case None => None
  }

  lemma {:induction false} RunKeepsInv(s: Sys, turns: seq<nat>)
    requires Inv(s) && Run(s, turns).Some?
    ensures Inv(Run(s, turns).value)
    decreases |turns|
  {
    if turns != [] {
      if s.procs[turns[0]].role.Writer? { WriterKeepsInv(s, turns[0]); } else { ReaderKeepsInv(s, turns[0]); }
      hide Inv, WriterStep, ReaderStep;
      RunKeepsInv(Step(s, turns[0]).value, turns[1..]);
    }
  }

  /** In every reachable state: both WAITING semaphores are 0, at most one writer is inside,
      the counter is the number of increments completed, and the writers have printed the
      alphabet in order, whatever the readers did. */
  lemma NoLostUpdate(s: Sys, turns: seq<nat>)
    requires Start(s) && Run(s, turns).Some?
    ensures var t := Run(s, turns).value;
      && |t.sems| == 5 && t.sems[WAITING_READERS] == 0 && t.sems[WAITING_WRITERS] == 0
      && t.sems[BIN_WRITER] + t.sems[ACTIVE_WRITER] == 1
      && (forall v, w | v in t.procs && w in t.procs && t.procs[v].role.Writer? && t.procs[w].role.Writer? ::
            t.procs[v].pc != 0 && t.procs[w].pc != 0 ==> v == w)
      && t.shm == t.stores
      && |t.printed| <= t.shm <= |t.printed| + 1
      && (forall k :: 0 <= k < |t.printed| ==> t.printed[k] == 'a' as int + k % 26)
  {
    StartIsInvariant(s);
    RunKeepsInv(s, turns);
    hide Run, Start;
  }

  /** Readers and writers do not exclude each other: a reader at its lock gets in exactly while
      a writer is inside, and a reader that has printed gets out exactly while none is. */
  lemma ReaderEntersIffWriterInside(s: Sys, w: nat)
    requires Inv(s) && w in s.procs && s.procs[w].role.Reader?
    ensures s.procs[w].pc == 0 ==>
      (Step(s, w).Some? <==> exists v :: v in s.procs && s.procs[v].role.Writer? && s.procs[v].pc != 0)
    ensures s.procs[w].pc == 2 ==>
      (Step(s, w).Some? <==> !exists v :: v in s.procs && s.procs[v].role.Writer? && s.procs[v].pc != 0)
  {
    LockEffects(s);
    hide Semop, NothingLost, Counted;
    if s.procs[w].pc == 2 {
      assert w in ReadersIn(s);
    }
    if s.holder.Held? {
      assert s.procs[s.holder.w].role.Writer?;
    }
  }

  /** And it does happen, from the start, with any writer and any reader. */
  lemma ReaderJoinsWriter(s: Sys, w: nat, r: nat)
    requires Start(s) && w in s.procs && s.procs[w].role.Writer? && r in s.procs && s.procs[r].role.Reader?
    ensures var t := Run(s, [w, r]);
      && t.Some? && w in t.value.procs && r in t.value.procs
      && t.value.procs[w].pc == 1 && t.value.procs[r].pc == 1
  {
    hide Semop, NothingLost;
    assert [w, r][1..] == [r] && [r][1..] == [];
    StartIsInvariant(s);
    LockEffects(s);
    assert ReadersIn(s) == {};
    var s1 := WriterStep(s, w).value;
    WriterKeepsInv(s, w);
    LockEffects(s1);
    assert Run(s, [w, r]) == Run(s1, [r]);
    assert Run(s1, [r]) == Run(ReaderStep(s1, r).value, []);
  }

  lemma SomebodyMoves(s: Sys, w: nat)
    requires Inv(s) && w in s.procs && s.procs[w].role.Writer?
    ensures exists v :: Step(s, v).Some?
  {
    hide Semop, NothingLost, Letter;
    LockEffects(s);
    if s.holder.Held? {
      assert Step(s, s.holder.w).Some?;
    } else if ReadersIn(s) == {} {
      assert Step(s, w).Some?;
    } else {
      var r :| r in ReadersIn(s);
      assert Step(s, r).Some?;
    }
  }

  /** Deadlock freedom: with a writer, in every reachable state some process can take a step. */
  lemma NoDeadlock(s: Sys, turns: seq<nat>, w: nat)
    requires Start(s) && Run(s, turns).Some?
    requires w in Run(s, turns).value.procs && Run(s, turns).value.procs[w].role.Writer?
    ensures exists v :: Step(Run(s, turns).value, v).Some?
  {
    hide Run, Inv, Step;
    StartIsInvariant(s);
    RunKeepsInv(s, turns);
    SomebodyMoves(Run(s, turns).value, w);
  }

  /** A reader prints the letter of the last increment stored: the one printed last, or the one
      the writer inside is about to print; before the first increment it is the character
      before 'a'. */
  lemma ReaderPrintsLatestLetter(s: Sys, w: nat)
    requires Inv(s) && w in s.procs && s.procs[w].role.Reader? && s.procs[w].pc == 1
    ensures ReaderStep(s, w).Some? && (s.stores == |s.printed| || WriterAt(s, 4, 4))
    ensures ReaderStep(s, w).value.procs[w].ch ==
      if s.stores == 0 then 'a' as int - 1
      else if s.stores == |s.printed| then s.printed[s.stores - 1]
      else s.procs[s.holder.w].ch
  {
    hide Counted;
  }

  // ---------------------------------------------------------------- the segment

  class Segment {
    var sems: seq<nat>
    var shm: int
    var procs: map<nat, Process>
    ghost var holder: Holder
    ghost var stores: nat
    ghost var printed: seq<int>

    ghost function View(): Sys
      reads this
    {
      Sys(sems, shm, procs, holder, stores, printed)
    }

    ghost predicate Valid()
      reads this
    {
      Inv(View())
    }

    constructor (processes: map<nat, Process>)
      requires forall w :: w in processes ==> processes[w].pc == 0
      ensures Valid() && Start(View()) && procs == processes
    {
      sems := [0, 0, 0, 0, 1];
      shm := 0;
      procs := processes;
      holder := Nobody;
      stores := 0;
      printed := [];
      new;
      StartIsInvariant(View());
    }

    method SemopCall(w: nat, ops: seq<Sembuf>, ghost next: Holder, pc: nat) returns (done: bool)
      requires w in procs
      modifies this`sems, this`holder, this`procs
      ensures done == old(AfterSemop(View(), w, ops, next, pc)).Some?
      ensures View() == if done then old(AfterSemop(View(), w, ops, next, pc)).value else old(View())
    {
      match Semop(sems, ops) {
        case Done(r) =>
          sems := r;
          holder := next;
          procs := procs[w := procs[w].(pc := pc)];
          done := true;
        case _ => done := false;
      }
    }

    /** One step of the loop of a writer process; the increment is a load and a store. */
    method Writer(w: nat) returns (moved: bool)
      requires Valid() && w in procs && procs[w].role.Writer?
      modifies this
      ensures Valid() && moved == old(Step(View(), w)).Some?
      ensures View() == if moved then old(Step(View(), w)).value else old(View())
    {
      hide Semop, Inv;
      if WriterStep(View(), w).Some? { WriterKeepsInv(View(), w); }
      var k := procs[w];
      moved := true;
      match k.pc {
        case 0 => moved := SemopCall(w, WRITER_LOCK, Held(w), 1);
        case 1 => procs := procs[w := k.(pc := 2, ch := Letter(shm))];
        case 2 => procs := procs[w := k.(pc := 3, v := shm)];
        case 3 =>
          shm := k.v + 1;
          stores := stores + 1;
          procs := procs[w := k.(pc := 4)];
        case 4 =>
          printed := printed + [k.ch];
          procs := procs[w := k.(pc := 5)];
        case 5 => moved := SemopCall(w, WRITER_RELEASE, Nobody, 0);
        case _ => moved := false;
      }
    }

    /** One step of the loop of a reader process. */
    method Reader(w: nat) returns (moved: bool)
      requires Valid() && w in procs && procs[w].role.Reader?
      modifies this
      ensures Valid() && moved == old(Step(View(), w)).Some?
      ensures View() == if moved then old(Step(View(), w)).value else old(View())
    {
      hide Semop, Inv;
      if ReaderStep(View(), w).Some? { ReaderKeepsInv(View(), w); }
      var k := procs[w];
      match k.pc {
        case 0 => moved := SemopCall(w, READER_LOCK, holder, 1);
        case 1 =>
          procs := procs[w := k.(pc := 2, ch := ReadLetter(shm))];
          moved := true;
        case 2 => moved := SemopCall(w, READER_RELEASE, holder, 0);
        case _ => moved := false;
      }
    }
  }
}
