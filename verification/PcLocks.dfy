/** The lock and release arrays that both producer/consumer programs use on the semaphores
    SE (empty cells), SF (full cells) and SB (binary). */
module PcLocks {
  import opened Semaphores

  const SE := 0
  const SF := 1
  const SB := 2

  const PRODUCER_LOCK := [Sembuf(SE, P), Sembuf(SB, P)]
  const PRODUCER_RELEASE := [Sembuf(SB, V), Sembuf(SF, V)]
  const CONSUMER_LOCK := [Sembuf(SF, P), Sembuf(SB, P)]
  const CONSUMER_RELEASE := [Sembuf(SB, V), Sembuf(SE, V)]

  /** A lock gets through exactly when its counter and the binary semaphore are up, and lowers
      both; a release always gets through and raises both of its semaphores. */
  lemma LockAndRelease(sems: seq<nat>)
    requires |sems| == 3
    ensures Semop(sems, PRODUCER_LOCK) ==
      if sems[SE] > 0 && sems[SB] > 0 then Done([sems[SE] - 1, sems[SF], sems[SB] - 1]) else Blocks
    ensures Semop(sems, CONSUMER_LOCK) ==
      if sems[SF] > 0 && sems[SB] > 0 then Done([sems[SE], sems[SF] - 1, sems[SB] - 1]) else Blocks
    ensures Semop(sems, PRODUCER_RELEASE) == Done([sems[SE], sems[SF] + 1, sems[SB] + 1])
    ensures Semop(sems, CONSUMER_RELEASE) == Done([sems[SE] + 1, sems[SF], sems[SB] + 1])
  {
    Pair(sems, Sembuf(SE, P), Sembuf(SB, P));
    Pair(sems, Sembuf(SF, P), Sembuf(SB, P));
    Pair(sems, Sembuf(SB, V), Sembuf(SF, V));
    Pair(sems, Sembuf(SB, V), Sembuf(SE, V));
  }

  lemma Pair(sems: seq<nat>, a: Sembuf, b: Sembuf)
    requires a.num < |sems| && b.num < |sems| && a.num != b.num
    ensures Semop(sems, [a, b]) ==
      if Enabled(sems[a.num], a.op) && Enabled(sems[b.num], b.op)
      then Done(sems[a.num := sems[a.num] + a.op][b.num := sems[b.num] + b.op])
      else Blocks
  {
    Perform2(sems, a, b);
    if Enabled(sems[a.num], a.op) {
      Perform1(sems[a.num := sems[a.num] + a.op], b);
    }
  }
}
