/** The board of 52 letters, and the search the clients make in a copy of it. */
module Letters {

  const SHM_BUFFER_SIZE := 52
  const TAKEN := '-'

  /** The letter a cell starts with: a to z, then A to Z. */
  function Letter(j: int): (c: char)
    requires 0 <= j < SHM_BUFFER_SIZE
    ensures IsLetter(c)
  {
    if j < 26 then 'a' + j as char else 'A' + (j - 26) as char
  }

  predicate IsLetter(c: char) {
    'a' <= c <= 'z' || 'A' <= c <= 'Z'
  }

  /** Cells hold distinct letters. */
  lemma LettersAreDistinct(i: int, j: int)
    requires 0 <= i < SHM_BUFFER_SIZE && 0 <= j < SHM_BUFFER_SIZE && Letter(i) == Letter(j)
    ensures i == j
  {
  }

  /** The board with its first d letters taken. */
  function BoardAt(d: int): (b: seq<char>)
    requires 0 <= d <= SHM_BUFFER_SIZE
    ensures |b| == SHM_BUFFER_SIZE
  {
    seq(SHM_BUFFER_SIZE, j requires 0 <= j < SHM_BUFFER_SIZE => if j < d then TAKEN else Letter(j))
  }

  type Board = b: seq<char> | |b| == SHM_BUFFER_SIZE witness BoardAt(0)

  /** Every cell holds its letter, or is taken. */
  predicate LettersOrTaken(b: seq<char>) {
    |b| == SHM_BUFFER_SIZE && forall j :: 0 <= j < SHM_BUFFER_SIZE ==> b[j] == Letter(j) || b[j] == TAKEN
  }

  /** strpbrk over all letters, as an index; -1 if there is none. */
  function FirstUnoccupied(buffer: seq<char>): (r: int)
    ensures -1 <= r < |buffer|
    ensures r >= 0 ==> IsLetter(buffer[r])
    ensures forall j :: 0 <= j < (if r >= 0 then r else |buffer|) ==> !IsLetter(buffer[j])
  {
    if buffer == [] then -1
    else if IsLetter(buffer[0]) then 0
    else
      var r := FirstUnoccupied(buffer[1..]);
      if r < 0 then -1 else r + 1
  }

  /** On a board with its first d letters taken the search finds cell d, or none. */
  lemma FirstUnoccupiedOnBoard(d: int)
    requires 0 <= d <= SHM_BUFFER_SIZE
    ensures FirstUnoccupied(BoardAt(d)) == if d == SHM_BUFFER_SIZE then -1 else d
  {
    var r := FirstUnoccupied(BoardAt(d));
    if d < SHM_BUFFER_SIZE {
      assert IsLetter(BoardAt(d)[d]);
    }
  }

  /** Marking a cell at most one past the taken ones leaves a board of the same form. */
  lemma MarkingExtendsPrefix(d: int, i: int)
    requires 0 <= i <= d <= SHM_BUFFER_SIZE && i < SHM_BUFFER_SIZE
    ensures BoardAt(d)[i := TAKEN] == if i == d then BoardAt(d + 1) else BoardAt(d)
  {
  }

  /** The two loops with which each server fills its board. */
  method FillBoard(shmBuf: array<char>)
    requires shmBuf.Length == SHM_BUFFER_SIZE
    modifies shmBuf
    ensures forall j :: 0 <= j < 26 ==> shmBuf[j] as int == 'a' as int + j
    ensures forall j :: 26 <= j < 52 ==> shmBuf[j] as int == 'A' as int + j - 26
    ensures shmBuf[..] == BoardAt(0)
  {
    var index := 0;
    var c := 'a';
    while c <= 'z' && index < SHM_BUFFER_SIZE
      invariant 0 <= index <= 26 && 'a' <= c && c as int == 'a' as int + index
      invariant forall j :: 0 <= j < index ==> shmBuf[j] == Letter(j)
      decreases SHM_BUFFER_SIZE - index
    {
      shmBuf[index] := c;
      index := index + 1;
      c := c + 1 as char;
    }
    c := 'A';
    while c <= 'Z' && index < SHM_BUFFER_SIZE
      invariant 26 <= index <= SHM_BUFFER_SIZE && 'A' <= c && c as int == 'A' as int + index - 26
      invariant forall j :: 0 <= j < index ==> shmBuf[j] == Letter(j)
      decreases SHM_BUFFER_SIZE - index
    {
      shmBuf[index] := c;
      index := index + 1;
      c := c + 1 as char;
    }
  }

  /** `find_first_unoccupied_index`, as the search strpbrk performs. */
  method FindFirstUnoccupied(buffer: seq<char>) returns (r: int)
    ensures r == FirstUnoccupied(buffer)
    ensures r == -1 || (0 <= r < |buffer| && ('a' <= buffer[r] <= 'z' || 'A' <= buffer[r] <= 'Z'))
    ensures forall j :: 0 <= j < (if r == -1 then |buffer| else r) ==>
      !('a' <= buffer[j] <= 'z' || 'A' <= buffer[j] <= 'Z')
  {
    r := 0;
    while r < |buffer|
      invariant 0 <= r <= |buffer|
      invariant FirstUnoccupied(buffer) ==
        if FirstUnoccupied(buffer[r..]) < 0 then -1 else r + FirstUnoccupied(buffer[r..])
    {
      if IsLetter(buffer[r]) {
        return;
      }
      assert buffer[r..][1..] == buffer[r + 1..];
      r := r + 1;
    }
    r := -1;
  }
}
