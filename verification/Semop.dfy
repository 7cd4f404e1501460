/** System V semaphore arrays: one `semop` call is a sequence of operations that takes effect
    as a whole or not at all (the `semop()` page of POSIX.1-2017, section 2.7 of its System
    Interfaces volume).  Every protocol in this project takes its locks through `Semop`. */
module Semaphores {

  /** struct sembuf, without its flags, which are 0 in every array of the repository. */
  datatype Sembuf = Sembuf(num: nat, op: int)

  const P := -1
  const V := 1

  /** `Blocks` means the caller is put to sleep, `Fails` that the call returns -1 (EFBIG). */
  datatype Outcome = Done(sems: seq<nat>) | Blocks | Fails

  predicate InRange(count: nat, ops: seq<Sembuf>) {
    forall j :: 0 <= j < |ops| ==> ops[j].num < count
  }

  /** Can one operation proceed on a semaphore of value `v`?  0 waits for zero. */
  predicate Enabled(v: int, op: int) {
    if op == 0 then v == 0 else v + op >= 0
  }

  /** Carries the operations out in array order on a private copy of the set. */
  function Perform(sems: seq<nat>, ops: seq<Sembuf>): Outcome
    requires InRange(|sems|, ops)
    decreases |ops|
  {
    if ops == [] then Done(sems)
    else
      var v := sems[ops[0].num];
      if Enabled(v, ops[0].op) then Perform(sems[ops[0].num := v + ops[0].op], ops[1..]) else Blocks
  }

  function Semop(sems: seq<nat>, ops: seq<Sembuf>): Outcome {
    if InRange(|sems|, ops) then Perform(sems, ops) else Fails
  }

  /** What the set holds after the call: only a call that gets through changes it. */
  function SetAfter(sems: seq<nat>, ops: seq<Sembuf>): seq<nat> {
    match Semop(sems, ops)
    case Done(r) => r
    case _ => sems
  }

  /** The sum of the operations that name semaphore `k`. */
  function Net(ops: seq<Sembuf>, k: nat): int {
    if ops == [] then 0 else (if ops[0].num == k then ops[0].op else 0) + Net(ops[1..], k)
  }

  lemma {:induction false} NetOfConcat(a: seq<Sembuf>, b: seq<Sembuf>, k: nat)
    ensures Net(a + b, k) == Net(a, k) + Net(b, k)
  {
    if a == [] {
      assert a + b == b;
    } else {
      assert (a + b)[1..] == a[1..] + b;
      NetOfConcat(a[1..], b, k);
    }
  }

  /** A call that gets through adds to each semaphore the sum of its operations; a call that
      does not get through changes nothing. */
  lemma {:induction false} CallAddsNetOrNothing(sems: seq<nat>, ops: seq<Sembuf>)
    ensures |SetAfter(sems, ops)| == |sems|
    ensures forall k :: 0 <= k < |sems| ==>
      SetAfter(sems, ops)[k] == sems[k] + if Semop(sems, ops).Done? then Net(ops, k) else 0
    decreases |ops|
  {
    if InRange(|sems|, ops) && ops != [] && Enabled(sems[ops[0].num], ops[0].op) {
      var next := sems[ops[0].num := sems[ops[0].num] + ops[0].op];
      CallAddsNetOrNothing(next, ops[1..]);
      assert Semop(sems, ops) == Semop(next, ops[1..]);
      forall k | 0 <= k < |sems|
        ensures SetAfter(sems, ops)[k] == sems[k] + if Semop(sems, ops).Done? then Net(ops, k) else 0
      {
        assert Semop(next, ops[1..]).Done? ==> SetAfter(next, ops[1..])[k] == next[k] + Net(ops[1..], k);
      }
    }
  }

  /** The value that operation j of a call finds. */
  function Found(sems: seq<nat>, ops: seq<Sembuf>, j: nat): int
    requires InRange(|sems|, ops) && j < |ops|
  {
    sems[ops[j].num] + Net(ops[..j], ops[j].num)
  }

  lemma FoundLater(sems: seq<nat>, ops: seq<Sembuf>, j: nat)
    requires InRange(|sems|, ops) && j + 1 < |ops| && Enabled(sems[ops[0].num], ops[0].op)
    ensures Found(sems, ops, j + 1) == Found(sems[ops[0].num := sems[ops[0].num] + ops[0].op], ops[1..], j)
  {
    assert ops[..j + 1][1..] == ops[1..][..j];
  }

  /** A call gets through exactly when each operation is enabled at the value its semaphore
      has after the operations before it. */
  lemma {:induction false} CallSucceedsIffEachEnabled(sems: seq<nat>, ops: seq<Sembuf>)
    requires InRange(|sems|, ops)
    ensures Semop(sems, ops).Done? <==> forall j :: 0 <= j < |ops| ==> Enabled(Found(sems, ops, j), ops[j].op)
    decreases |ops|
  {
    if ops != [] {
      assert Found(sems, ops, 0) == sems[ops[0].num];
      if Enabled(sems[ops[0].num], ops[0].op) {
        var next := sems[ops[0].num := sems[ops[0].num] + ops[0].op];
        var tail := ops[1..];
        CallSucceedsIffEachEnabled(next, tail);
        forall j | 0 <= j < |tail| ensures Found(next, tail, j) == Found(sems, ops, j + 1) && tail[j] == ops[j + 1] {
          FoundLater(sems, ops, j);
        }
        hide Found, Enabled;
        forall j | 0 < j < |ops| ensures Found(sems, ops, j) == Found(next, tail, j - 1) && tail[j - 1] == ops[j] {
        }
      }
    }
  }

  /** A call fails exactly when some operation names no semaphore of the set, whatever the
      operations before it would have done. */
  lemma CallFailsIffOutOfRange(sems: seq<nat>, ops: seq<Sembuf>)
    ensures Semop(sems, ops).Fails? <==> exists j :: 0 <= j < |ops| && ops[j].num >= |sems|
  {
    if InRange(|sems|, ops) {
      PerformNeverFails(sems, ops);
    }
  }

  lemma {:induction false} PerformNeverFails(sems: seq<nat>, ops: seq<Sembuf>)
    requires InRange(|sems|, ops)
    ensures !Perform(sems, ops).Fails?
    decreases |ops|
  {
    if ops != [] && Enabled(sems[ops[0].num], ops[0].op) {
      PerformNeverFails(sems[ops[0].num := sems[ops[0].num] + ops[0].op], ops[1..]);
    }
  }

  predicate Mentions(ops: seq<Sembuf>, k: nat) {
    exists j :: 0 <= j < |ops| && ops[j].num == k
  }

  /** Raising a semaphore and lowering it again around operations that do not name it
      leaves the outcome of the whole call as it is without the pair. */
  lemma BracketIsInvisible(sems: seq<nat>, w: nat, mid: seq<Sembuf>, rest: seq<Sembuf>)
    requires w < |sems| && !Mentions(mid, w)
    ensures Semop(sems, [Sembuf(w, V)] + mid + [Sembuf(w, P)] + rest) == Semop(sems, mid + rest)
  {
    var whole := [Sembuf(w, V)] + mid + [Sembuf(w, P)] + rest;
    InRangeOfConcat(|sems|, mid, rest);
    InRangeOfConcat(|sems|, [Sembuf(w, V)], mid);
    InRangeOfConcat(|sems|, [Sembuf(w, V)] + mid, [Sembuf(w, P)]);
    InRangeOfConcat(|sems|, [Sembuf(w, V)] + mid + [Sembuf(w, P)], rest);
    if InRange(|sems|, mid + rest) {
      assert whole[0] == Sembuf(w, V) && whole[1..] == mid + [Sembuf(w, P)] + rest;
      LoweringCommutes(sems, w, mid, rest);
    }
  }

  lemma {:induction false} LoweringCommutes(sems: seq<nat>, w: nat, mid: seq<Sembuf>, rest: seq<Sembuf>)
    requires w < |sems| && !Mentions(mid, w) && InRange(|sems|, mid) && InRange(|sems|, rest)
    ensures InRange(|sems|, mid + [Sembuf(w, P)] + rest) && InRange(|sems|, mid + rest)
    ensures Perform(sems[w := sems[w] + 1], mid + [Sembuf(w, P)] + rest) == Perform(sems, mid + rest)
    decreases |mid|
  {
    var raised := sems[w := sems[w] + 1];
    if mid == [] {
      var ops := mid + [Sembuf(w, P)] + rest;
      assert ops[1..] == rest && ops[0] == Sembuf(w, P);
      assert mid + rest == rest;
      assert raised[w := raised[w] - 1] == sems;
    } else {
      var a := mid + [Sembuf(w, P)] + rest;
      var b := mid + rest;
      assert a[0] == mid[0] == b[0];
      assert a[1..] == mid[1..] + [Sembuf(w, P)] + rest;
      assert b[1..] == mid[1..] + rest;
      var k := mid[0].num;
      assert k != w;
      assert !Mentions(mid[1..], w);
      assert raised[k] == sems[k];
      if Enabled(sems[k], mid[0].op) {
        var next := sems[k := sems[k] + mid[0].op];
        assert raised[k := raised[k] + mid[0].op] == next[w := next[w] + 1];
        LoweringCommutes(next, w, mid[1..], rest);
      }
    }
  }

  /** Waiting for zero on a semaphore that is 0 and that the earlier operations do not name
      can be left out. */
  lemma WaitForZeroIsInvisible(sems: seq<nat>, w: nat, mid: seq<Sembuf>, rest: seq<Sembuf>)
    requires w < |sems| && sems[w] == 0 && !Mentions(mid, w)
    ensures Semop(sems, mid + [Sembuf(w, 0)] + rest) == Semop(sems, mid + rest)
  {
    InRangeOfConcat(|sems|, mid, rest);
    InRangeOfConcat(|sems|, mid, [Sembuf(w, 0)]);
    InRangeOfConcat(|sems|, mid + [Sembuf(w, 0)], rest);
    if InRange(|sems|, mid + rest) {
      WaitingCommutes(sems, w, mid, rest);
    }
  }

  lemma InRangeOfConcat(count: nat, a: seq<Sembuf>, b: seq<Sembuf>)
    ensures InRange(count, a + b) <==> InRange(count, a) && InRange(count, b)
  {
    if InRange(count, a + b) {
      forall j | 0 <= j < |a| ensures a[j].num < count { assert a[j] == (a + b)[j]; }
      forall j | 0 <= j < |b| ensures b[j].num < count { assert b[j] == (a + b)[|a| + j]; }
    }
  }

  lemma {:induction false} WaitingCommutes(sems: seq<nat>, w: nat, mid: seq<Sembuf>, rest: seq<Sembuf>)
    requires w < |sems| && sems[w] == 0 && !Mentions(mid, w) && InRange(|sems|, mid) && InRange(|sems|, rest)
    ensures InRange(|sems|, mid + [Sembuf(w, 0)] + rest) && InRange(|sems|, mid + rest)
    ensures Perform(sems, mid + [Sembuf(w, 0)] + rest) == Perform(sems, mid + rest)
    decreases |mid|
  {
    var a := mid + [Sembuf(w, 0)] + rest;
    var b := mid + rest;
    if mid == [] {
      assert a[1..] == rest == b && a[0] == Sembuf(w, 0);
      assert sems[w := 0] == sems;
    } else {
      assert a[0] == mid[0] == b[0];
      assert a[1..] == mid[1..] + [Sembuf(w, 0)] + rest;
      assert b[1..] == mid[1..] + rest;
      var k := mid[0].num;
      if Enabled(sems[k], mid[0].op) {
        WaitingCommutes(sems[k := sems[k] + mid[0].op], w, mid[1..], rest);
      }
    }
  }

  /** The outcome of a call of one, two or three operations, read off the array. */
  lemma Perform1(sems: seq<nat>, a: Sembuf)
    requires a.num < |sems|
    ensures Semop(sems, [a]) == if Enabled(sems[a.num], a.op) then Done(sems[a.num := sems[a.num] + a.op]) else Blocks
  {
    assert [a][1..] == [];
    assert InRange(|sems|, [a]);
    if Enabled(sems[a.num], a.op) {
      assert Perform(sems, [a]) == Perform(sems[a.num := sems[a.num] + a.op], []);
    }
  }

  lemma Perform2(sems: seq<nat>, a: Sembuf, b: Sembuf)
    requires a.num < |sems| && b.num < |sems|
    ensures Semop(sems, [a, b]) ==
      if Enabled(sems[a.num], a.op) then Semop(sems[a.num := sems[a.num] + a.op], [b]) else Blocks
  {
    assert [a, b][1..] == [b];
  }

  lemma Perform3(sems: seq<nat>, a: Sembuf, b: Sembuf, c: Sembuf)
    requires a.num < |sems| && b.num < |sems| && c.num < |sems|
    ensures Semop(sems, [a, b, c]) ==
      if Enabled(sems[a.num], a.op) then Semop(sems[a.num := sems[a.num] + a.op], [b, c]) else Blocks
  {
    assert [a, b, c][1..] == [b, c];
  }
}
