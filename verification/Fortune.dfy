/** The fortune cookie pot: one page of bytes holding NUL-terminated records, with a write
    cursor and a read cursor. */
module Fortune {
  import opened Octets

  const NUL: Byte := 0
  const NEWLINE: Byte := 10

  /** The page size of x86; no proof depends on the value. */
  const PAGE_SIZE: nat := 4096

  datatype IoResult = Count(n: nat) | NoSpace | Fault

  // ---------------------------------------------------------------- records

  /** The bytes before the first NUL. */
  function CString(bytes: seq<Byte>): (r: seq<Byte>)
    ensures |r| <= |bytes| && r == bytes[..|r|] && NUL !in r
    ensures |r| < |bytes| ==> bytes[|r|] == NUL
  {
    if bytes == [] || bytes[0] == NUL then [] else [bytes[0]] + CString(bytes[1..])
  }

  /** The records of a stretch of bytes: it is cut after every NUL. */
  function Records(bytes: seq<Byte>): seq<seq<Byte>>
    decreases |bytes|
  {
    if bytes == [] then []
    else
      var r := CString(bytes);
      [r] + (if |r| < |bytes| then Records(bytes[|r| + 1..]) else [])
  }

  /** The bytes of a list of records, each closed by a NUL. */
  function Bytes(records: seq<seq<Byte>>): seq<Byte> {
    if records == [] then [] else records[0] + [NUL] + Bytes(records[1..])
  }

  ghost predicate NulFree(records: seq<seq<Byte>>) {
    forall k :: 0 <= k < |records| ==> NUL !in records[k]
  }

  lemma {:induction false} CStringStops(a: seq<Byte>, b: seq<Byte>)
    requires NUL !in a
    ensures CString(a + [NUL] + b) == a
  {
    var all := a + [NUL] + b;
    if a == [] {
      assert all[0] == NUL;
    } else {
      assert all[1..] == a[1..] + [NUL] + b;
      CStringStops(a[1..], b);
    }
  }

  lemma AfterFirst(r: seq<Byte>, rest: seq<Byte>)
    ensures (r + [NUL] + rest)[|r| + 1..] == rest
  {
  }

  /** Cutting undoes writing: records without NUL are recovered from their bytes. */
  lemma {:induction false} RecordsOfBytes(records: seq<seq<Byte>>)
    requires NulFree(records)
    ensures Records(Bytes(records)) == records
    decreases |records|
  {
    hide CString;
    if records != [] {
      var r, rest := records[0], records[1..];
      CStringStops(r, Bytes(rest));
      AfterFirst(r, Bytes(rest));
      RecordsOfBytes(rest);
    }
  }

  lemma RecordsUnfold(bytes: seq<Byte>)
    requires bytes != [] && bytes[|bytes| - 1] == NUL
    ensures var r := CString(bytes);
      && |r| < |bytes| && bytes == r + [NUL] + bytes[|r| + 1..]
      && Records(bytes) == [r] + Records(bytes[|r| + 1..])
  {
    hide CString;
    var r := CString(bytes);
    assert bytes[|bytes| - 1] !in r;
    assert |r| == |bytes| ==> r == bytes;
  }

  lemma BytesUnfold(r: seq<Byte>, rest: seq<seq<Byte>>)
    ensures Bytes([r] + rest) == r + [NUL] + Bytes(rest)
  {
    assert ([r] + rest)[1..] == rest;
  }

  /** Writing undoes cutting: a stretch that ends with NUL is the bytes of its records. */
  lemma {:induction false} BytesOfRecords(bytes: seq<Byte>)
    requires bytes == [] || bytes[|bytes| - 1] == NUL
    ensures Bytes(Records(bytes)) == bytes
    decreases |bytes|
  {
    if bytes != [] {
      RecordsUnfold(bytes);
      var r := CString(bytes);
      var rest := bytes[|r| + 1..];
      hide Records, Bytes;
      BytesOfRecords(rest);
      BytesUnfold(r, Records(rest));
      hide CString;
    }
  }

  lemma {:induction false} RecordsAreNulFree(bytes: seq<Byte>)
    ensures NulFree(Records(bytes))
    decreases |bytes|
  {
    var r := CString(bytes);
    if |r| < |bytes| {
      RecordsAreNulFree(bytes[|r| + 1..]);
    }
  }

  lemma {:induction false} BytesOfConcat(a: seq<seq<Byte>>, b: seq<seq<Byte>>)
    ensures Bytes(a + b) == Bytes(a) + Bytes(b)
  {
    if a == [] {
      assert a + b == b;
    } else {
      assert (a + b)[1..] == a[1..] + b;
      BytesOfConcat(a[1..], b);
    }
  }

  /** What a write of `buf` adds: its last byte is replaced by NUL. */
  function Written(buf: seq<Byte>): seq<seq<Byte>>
    requires buf != []
  {
    Records(buf[|buf| - 1 := NUL])
  }

  /** A write whose only NUL, if any, is its last byte is one record. */
  lemma PlainWriteIsOneRecord(buf: seq<Byte>)
    requires buf != [] && NUL !in buf[..|buf| - 1]
    ensures Written(buf) == [buf[..|buf| - 1]]
  {
    var r := buf[..|buf| - 1];
    assert Bytes([r]) == r + [NUL] == buf[|buf| - 1 := NUL];
    assert NulFree([r]);
    RecordsOfBytes([r]);
  }

  /** Such a write is read back with its last byte replaced by a newline exactly when it is
      shorter than a page, so a newline-ended one that is comes back byte for byte. */
  lemma ComesBackWithNewline(buf: seq<Byte>)
    requires buf != [] && NUL !in buf[..|buf| - 1]
    ensures Shown(Written(buf)[0]) == buf[|buf| - 1 := NEWLINE] <==> |buf| < PAGE_SIZE
    ensures Shown(Written(buf)[0]) == buf <==> buf[|buf| - 1] == if |buf| < PAGE_SIZE then NEWLINE else NUL
  {
    PlainWriteIsOneRecord(buf);
    hide Written;
    var r := buf[..|buf| - 1];
    assert buf == r + [buf[|buf| - 1]];
    assert Shown(r)[|buf| - 1] == if |buf| < PAGE_SIZE then NEWLINE else NUL;
  }

  /** What a read hands out for a record: snprintf prints it with a newline into a page, and
      returns the untruncated length; a record that fills the page loses the newline to the
      closing NUL. */
  function Shown(record: seq<Byte>): (r: seq<Byte>)
    ensures |r| == |record| + 1
  {
    record + if |record| + 1 < PAGE_SIZE then [NEWLINE] else [NUL]
  }

  // ---------------------------------------------------------------- the abstract pot

  /** The records written so far and the number of the record to be read next. */
  datatype Pot = Pot(records: seq<seq<Byte>>, next: nat)

  const EmptyPot := Pot([], 0)

  function AfterWrite(p: Pot, buf: seq<Byte>): Pot
    requires buf != []
  {
    p.(records := p.records + Written(buf))
  }

  /** The record number served next: back to the first only when none is left. */
  function Turn(p: Pot): nat {
    if p.next >= |p.records| then 0 else p.next
  }

  function AfterRead(p: Pot): Pot {
    if p.records == [] then p else p.(next := Turn(p) + 1)
  }

  // ---------------------------------------------------------------- whole runs

  /** A write, or a read of a freshly opened file.  The records know only writes that fit; a
      run of the page may contain others, which it drops. */
  datatype Op = Put(buf: seq<Byte>) | Get

  predicate ValidOps(ops: seq<Op>) {
    forall k :: 0 <= k < |ops| ==> ops[k].Put? ==> ops[k].buf != []
  }

  function After(p: Pot, op: Op): Pot
    requires op.Put? ==> op.buf != []
  {
    if op.Put? then AfterWrite(p, op.buf) else AfterRead(p)
  }

  function RunPot(p: Pot, ops: seq<Op>): Pot
    requires ValidOps(ops)
    decreases |ops|
  {
    if ops == [] then p else RunPot(After(p, ops[0]), ops[1..])
  }

  /** A read that found a record: its number, the number of records there then, its text. */
  datatype Serving = Serving(record: nat, count: nat, text: seq<Byte>)

  /** The reads of a run that found a record, in order. */
  function Servings(p: Pot, ops: seq<Op>): seq<Serving>
    requires ValidOps(ops)
    decreases |ops|
  {
    if ops == [] then []
    else
      (if ops[0].Get? && p.records != [] then [Serving(Turn(p), |p.records|, p.records[Turn(p)])] else [])
      + Servings(After(p, ops[0]), ops[1..])
  }

  lemma ServingsUnfold(p: Pot, ops: seq<Op>)
    requires ValidOps(ops) && ops != []
    ensures var later := Servings(After(p, ops[0]), ops[1..]);
      Servings(p, ops) ==
        if ops[0].Get? && p.records != [] then [Serving(Turn(p), |p.records|, p.records[Turn(p)])] + later else later
  {
    hide After, Turn;
    var later := Servings(After(p, ops[0]), ops[1..]);
    assert [] + later == later;
  }

  lemma AfterKeepsRecords(p: Pot, op: Op)
    requires p.next <= |p.records| && (op.Put? ==> op.buf != [])
    ensures p.records <= After(p, op).records && After(p, op).next <= |After(p, op).records|
    ensures op.Put? || p.records == [] ==> After(p, op).next == p.next
    ensures op.Get? && p.records != [] ==> After(p, op) == Pot(p.records, Turn(p) + 1)
  {
  }

  /** Each serving is of record `next`, or of the first one if there is no record `next` at
      that time; then it is the following record's turn. */
  predicate InTurn(next: nat, served: seq<Serving>)
    decreases |served|
  {
    served != [] ==>
      && served[0].record == (if next < served[0].count then next else 0)
      && InTurn(served[0].record + 1, served[1..])
  }

  /** In any interleaving of writes and reads, each read serves the record after the one served
      before it, and the first one again only when none is left. */
  lemma {:induction false} RoundRobin(p: Pot, ops: seq<Op>)
    requires ValidOps(ops) && p.next <= |p.records|
    ensures InTurn(p.next, Servings(p, ops))
    decreases |ops|
  {
    if ops != [] {
      ServingsUnfold(p, ops);
      AfterKeepsRecords(p, ops[0]);
      var p1 := After(p, ops[0]);
      RoundRobin(p1, ops[1..]);
      hide After, Servings, ValidOps;
    }
  }

  /** Records keep their number and their text for ever, so every read hands out what was
      written under the number it serves. */
  lemma {:induction false} ServedTextIsWritten(p: Pot, ops: seq<Op>)
    requires ValidOps(ops) && p.next <= |p.records|
    ensures p.records <= RunPot(p, ops).records
    ensures forall s :: s in Servings(p, ops) ==>
      s.record < s.count <= |RunPot(p, ops).records| && RunPot(p, ops).records[s.record] == s.text
    decreases |ops|
  {
    if ops != [] {
      ServingsUnfold(p, ops);
      AfterKeepsRecords(p, ops[0]);
      var p1 := After(p, ops[0]);
      ServedTextIsWritten(p1, ops[1..]);
      assert RunPot(p, ops) == RunPot(p1, ops[1..]);
      hide After, Servings, RunPot, ValidOps;
    }
  }

  // ---------------------------------------------------------------- the page

  /** `snprintf(tmpBuf, PAGE_SIZE, "%s\n", s)`, followed by copying the returned length: at most
      PAGE_SIZE - 1 characters are printed, then a NUL. */
  function Printed(s: seq<Byte>): (out: seq<Byte>)
    requires |s| + 1 <= PAGE_SIZE
    ensures out == Shown(s)
  {
    var text := s + [NEWLINE];
    var kept := if |text| > PAGE_SIZE - 1 then text[..PAGE_SIZE - 1] else text;
    (kept + [NUL])[..|text|]
  }

  lemma {:induction false} LastByteIsNul(records: seq<seq<Byte>>)
    ensures records == [] <==> Bytes(records) == []
    ensures records != [] ==> Bytes(records)[|Bytes(records)| - 1] == NUL
  {
    if records != [] {
      LastByteIsNul(records[1..]);
    }
  }

  /** The cursor is at the end of the written part exactly when no record is left. */
  lemma BoundaryAtEnd(records: seq<seq<Byte>>, k: nat)
    requires k <= |records|
    ensures |Bytes(records[..k])| <= |Bytes(records)|
    ensures |Bytes(records[..k])| == |Bytes(records)| <==> k == |records|
  {
    assert records == records[..k] + records[k..];
    BytesOfConcat(records[..k], records[k..]);
    LastByteIsNul(records[k..]);
  }

  /** From a record boundary the C string is the next record, and one byte past it is the next
      boundary. */
  lemma RecordAtCursor(page: seq<Byte>, r: nat, w: nat, records: seq<seq<Byte>>, k: nat)
    requires r <= w <= |page| && k < |records| && NulFree(records)
    requires page[..w] == Bytes(records) && page[..r] == Bytes(records[..k])
    ensures CString(page[r..]) == records[k]
    ensures r + |records[k]| + 1 <= w
    ensures page[..r + |records[k]| + 1] == Bytes(records[..k + 1])
  {
    var record := records[k];
    var rest := Bytes(records[k + 1..]);
    BytesSplitAt(records, k);
    BytesOfConcat(records[..k], [record]);
    assert records[..k + 1] == records[..k] + [record];
    assert Bytes([record]) == record + [NUL];
    SplitAtCursor(page, r, w, record + [NUL], rest);
    CStringStops(record, rest + page[w..]);
    assert page[r..] == record + [NUL] + (rest + page[w..]);
  }

  lemma SplitAtCursor(page: seq<Byte>, r: nat, w: nat, a: seq<Byte>, b: seq<Byte>)
    requires r <= w <= |page| && page[..w] == page[..r] + (a + b)
    ensures page[r..] == a + (b + page[w..]) && r + |a| <= w
    ensures page[..r + |a|] == page[..r] + a
  {
    assert page == page[..w] + page[w..];
    assert page == page[..r] + (a + (b + page[w..]));
  }

  lemma PrefixKept(before: seq<Byte>, after: seq<Byte>, r: nat, w: nat)
    requires r <= w <= |before| == |after| && after[..w] == before[..w]
    ensures after[..r] == before[..r]
  {
    assert after[..r] == after[..w][..r];
    assert before[..r] == before[..w][..r];
  }

  /** A page whose written part is the records, extended by a write. */
  lemma PageExtended(before: seq<Byte>, after: seq<Byte>, r: nat, w: nat, buf: seq<Byte>, p: Pot)
    requires r <= w && w + |buf| <= |before| == |after| && buf != [] && p.next <= |p.records|
    requires after[..w] == before[..w] && after[w..w + |buf|] == buf[|buf| - 1 := NUL]
    requires NulFree(p.records) && before[..w] == Bytes(p.records) && before[..r] == Bytes(p.records[..p.next])
    ensures var q := AfterWrite(p, buf);
      && NulFree(q.records)
      && after[..w + |buf|] == Bytes(q.records)
      && after[..r] == Bytes(q.records[..q.next])
  {
    BytesOfRecords(buf[|buf| - 1 := NUL]);
    RecordsAreNulFree(buf[|buf| - 1 := NUL]);
    BytesOfConcat(p.records, Written(buf));
    PrefixKept(before, after, r, w);
    assert AfterWrite(p, buf).records[..p.next] == p.records[..p.next];
    hide Bytes, Records, NulFree;
    assert after[..w + |buf|] == after[..w] + after[w..w + |buf|];
  }

  lemma BytesSplitAt(records: seq<seq<Byte>>, k: nat)
    requires k < |records|
    ensures Bytes(records) == Bytes(records[..k]) + (records[k] + [NUL] + Bytes(records[k + 1..]))
  {
    assert records == records[..k] + records[k..];
    BytesOfConcat(records[..k], records[k..]);
    assert records[k..][1..] == records[k + 1..];
  }

  /** The page and its two cursors, as values. */
  datatype RawPage = Page(bytes: seq<Byte>, readInd: nat, writeInd: nat)

  /** The cursors stay inside, and the written part ends with NUL. */
  predicate InPage(p: RawPage) {
    && |p.bytes| == PAGE_SIZE && p.readInd <= p.writeInd <= PAGE_SIZE
    && (p.writeInd > 0 ==> p.bytes[p.writeInd - 1] == NUL)
  }

  type Page = p: RawPage | InPage(p) witness Page(seq(PAGE_SIZE, _ => NUL), 0, 0)

  const EmptyPage: Page := Page(seq(PAGE_SIZE, _ => NUL), 0, 0)

  /** The two writes excluded are the ones that leave the page: an empty first write, and the
      one length over the free space that the guard lets through. */
  predicate StaysInPage(p: Page, buf: seq<Byte>) {
    (buf == [] ==> p.writeInd > 0) && |buf| != PAGE_SIZE - p.writeInd + 1
  }

  /** The guard of the write. */
  predicate GuardAccepts(p: Page, buf: seq<Byte>) {
    |buf| <= PAGE_SIZE - p.writeInd + 1
  }

  /** An accepted write stores its bytes from the write cursor on, and then the closing NUL. */
  predicate StoresAt(p: Page, buf: seq<Byte>, i: int) {
    p.writeInd <= i < p.writeInd + |buf| || i == p.writeInd + |buf| - 1
  }

  /** An accepted write stores inside the page exactly when it is not one of the two. */
  lemma StoresInPageIff(p: Page, buf: seq<Byte>)
    requires GuardAccepts(p, buf)
    ensures (forall i :: StoresAt(p, buf, i) ==> 0 <= i < PAGE_SIZE) <==> StaysInPage(p, buf)
  {
    if buf == [] || |buf| == PAGE_SIZE - p.writeInd + 1 {
      assert StoresAt(p, buf, p.writeInd + |buf| - 1);
    }
  }

  predicate HasRoom(p: Page, buf: seq<Byte>) {
    p.writeInd + |buf| <= PAGE_SIZE
  }

  /** Bytes overwritten from a position on. */
  function Spliced(bytes: seq<Byte>, at: nat, buf: seq<Byte>): (r: seq<Byte>)
    requires at + |buf| <= |bytes|
    ensures |r| == |bytes|
  {
    bytes[..at] + buf + bytes[at + |buf|..]
  }

  lemma SplicedInParts(before: seq<Byte>, after: seq<Byte>, at: nat, buf: seq<Byte>)
    requires at + |buf| <= |before| == |after| && after[..at] == before[..at]
    requires after[at..at + |buf|] == buf && after[at + |buf|..] == before[at + |buf|..]
    ensures after == Spliced(before, at, buf)
  {
    assert after == after[..at] + after[at..at + |buf|] + after[at + |buf|..];
  }

  function WritePage(p: Page, buf: seq<Byte>): Page
    requires StaysInPage(p, buf)
  {
    if !HasRoom(p, buf) then p
    else
      var w := p.writeInd + |buf|;
      Page(Spliced(p.bytes, p.writeInd, buf)[w - 1 := NUL], p.readInd, w)
  }

  /** Where a read begins: back at the first byte when the cursor is at the end. */
  function ReadFrom(p: Page): nat {
    if p.readInd >= p.writeInd then 0 else p.readInd
  }

  lemma StringEndsInPage(p: Page)
    requires p.writeInd > 0
    ensures ReadFrom(p) + |CString(p.bytes[ReadFrom(p)..])| < p.writeInd
  {
    var rest := p.bytes[ReadFrom(p)..];
    assert rest[p.writeInd - 1 - ReadFrom(p)] == NUL;
    var s := CString(rest);
    assert forall j :: 0 <= j < |s| ==> s[j] == rest[j] && s[j] in s;
  }

  function ReadPage(p: Page): (Page, seq<Byte>) {
    if p.writeInd == 0 then (p, [])
    else
      StringEndsInPage(p);
      var s := CString(p.bytes[ReadFrom(p)..]);
      (p.(readInd := ReadFrom(p) + |s| + 1), Printed(s))
  }

  lemma ReadPageHandsOut(p: Page)
    requires p.writeInd > 0
    ensures var s := CString(p.bytes[ReadFrom(p)..]);
      && ReadFrom(p) + |s| < p.writeInd
      && ReadPage(p) == (p.(readInd := ReadFrom(p) + |s| + 1), Printed(s))
  {
    StringEndsInPage(p);
  }

  /** The written part of the page is the records, and the read cursor is on the boundary
      before record number `pot.next`. */
  ghost predicate OnPage(p: Page, pot: Pot) {
    && NulFree(pot.records) && pot.next <= |pot.records|
    && p.bytes[..p.writeInd] == Bytes(pot.records)
    && p.bytes[..p.readInd] == Bytes(pot.records[..pot.next])
  }

  lemma BeyondTheWritten(p: Page, q: RawPage, pot: Pot)
    requires OnPage(p, pot) && |q.bytes| == PAGE_SIZE && q.readInd == p.readInd && q.writeInd == p.writeInd
    requires q.bytes[..p.writeInd] == p.bytes[..p.writeInd]
    ensures InPage(q) && OnPage(q, pot)
  {
    PrefixKept(p.bytes, q.bytes, p.readInd, p.writeInd);
    assert p.writeInd > 0 ==> q.bytes[p.writeInd - 1] == q.bytes[..p.writeInd][p.writeInd - 1];
  }

  lemma WriteKeepsOnPage(p: Page, pot: Pot, buf: seq<Byte>)
    requires OnPage(p, pot) && StaysInPage(p, buf)
    ensures OnPage(WritePage(p, buf), if HasRoom(p, buf) && buf != [] then AfterWrite(pot, buf) else pot)
  {
    hide Bytes, NulFree, Records;
    if HasRoom(p, buf) {
      var q := WritePage(p, buf);
      if buf == [] {
        assert Spliced(p.bytes, p.writeInd, buf) == p.bytes;
        assert q.bytes == p.bytes;
      } else {
        assert q.bytes[..p.writeInd] == p.bytes[..p.writeInd];
        assert q.bytes[p.writeInd..p.writeInd + |buf|] == buf[|buf| - 1 := NUL];
        PageExtended(p.bytes, q.bytes, p.readInd, p.writeInd, buf, pot);
      }
    }
  }

  /** Going back to the first byte at the end is going back to the first record. */
  lemma RewindKeepsOnPage(p: Page, pot: Pot)
    requires OnPage(p, pot) && p.writeInd > 0
    ensures Turn(pot) < |pot.records| && Turn(pot.(next := Turn(pot))) == Turn(pot)
    ensures AfterRead(pot) == pot.(next := Turn(pot) + 1)
    ensures OnPage(p.(readInd := ReadFrom(p)), pot.(next := Turn(pot)))
  {
    hide NulFree;
    LastByteIsNul(pot.records);
    BoundaryAtEnd(pot.records, pot.next);
  }

  /** A read hands out the record whose turn it is, and moves to the next boundary. */
  lemma ReadKeepsOnPage(p: Page, pot: Pot)
    requires OnPage(p, pot)
    ensures p.writeInd == 0 <==> pot.records == []
    ensures pot.records != [] ==> Turn(pot) < |pot.records|
    ensures OnPage(ReadPage(p).0, AfterRead(pot))
    ensures ReadPage(p).1 == if pot.records == [] then [] else Shown(pot.records[Turn(pot)])
  {
    hide CString, NulFree, Shown;
    LastByteIsNul(pot.records);
    if pot.records != [] {
      RewindKeepsOnPage(p, pot);
      RecordAtCursor(p.bytes, ReadFrom(p), p.writeInd, pot.records, Turn(pot));
    }
  }

  // ---------------------------------------------------------------- runs of the page

  function StepPage(p: Page, op: Op): Page
    requires op.Put? ==> StaysInPage(p, op.buf)
  {
    if op.Put? then WritePage(p, op.buf) else ReadPage(p).0
  }

  predicate StaysInPageAlong(p: Page, ops: seq<Op>)
    decreases |ops|
  {
    ops != [] ==>
      (ops[0].Put? ==> StaysInPage(p, ops[0].buf)) && StaysInPageAlong(StepPage(p, ops[0]), ops[1..])
  }

  function RunPage(p: Page, ops: seq<Op>): Page
    requires StaysInPageAlong(p, ops)
    decreases |ops|
  {
    if ops == [] then p else RunPage(StepPage(p, ops[0]), ops[1..])
  }

  /** What the reads of a run hand out, apart from those that find nothing written. */
  function Reads(p: Page, ops: seq<Op>): seq<seq<Byte>>
    requires StaysInPageAlong(p, ops)
    decreases |ops|
  {
    if ops == [] then []
    else
      (if ops[0].Get? && p.writeInd > 0 then [ReadPage(p).1] else []) + Reads(StepPage(p, ops[0]), ops[1..])
  }

  /** The run without the writes that find no room, and without empty ones. */
  function Accepted(p: Page, ops: seq<Op>): (r: seq<Op>)
    requires StaysInPageAlong(p, ops)
    decreases |ops|
  {
    if ops == [] then []
    else
      (if ops[0].Get? || (HasRoom(p, ops[0].buf) && ops[0].buf != []) then [ops[0]] else [])
      + Accepted(StepPage(p, ops[0]), ops[1..])
  }

  function Texts(served: seq<Serving>): seq<seq<Byte>> {
    if served == [] then [] else [Shown(served[0].text)] + Texts(served[1..])
  }

  lemma TextsOfConcat(a: Serving, b: seq<Serving>)
    ensures Texts([a] + b) == [Shown(a.text)] + Texts(b)
  {
    assert ([a] + b)[1..] == b;
  }

  lemma FirstOp(op: Op, rest: seq<Op>)
    ensures ([op] + rest)[0] == op && ([op] + rest)[1..] == rest
  {
  }

  lemma StepKeepsOnPage(p: Page, pot: Pot, op: Op)
    requires OnPage(p, pot) && (op.Put? ==> StaysInPage(p, op.buf))
    ensures var kept := op.Get? || (HasRoom(p, op.buf) && op.buf != []);
      OnPage(StepPage(p, op), if kept then After(pot, op) else pot)
  {
    hide OnPage, WritePage, ReadPage;
    if op.Put? {
      WriteKeepsOnPage(p, pot, op.buf);
    } else {
      ReadKeepsOnPage(p, pot);
    }
  }

  /** Every run of the page acts as the run of its accepted operations on the records. */
  lemma {:induction false} PageRunServesRecords(p: Page, pot: Pot, ops: seq<Op>)
    requires OnPage(p, pot) && StaysInPageAlong(p, ops)
    ensures ValidOps(Accepted(p, ops))
    ensures OnPage(RunPage(p, ops), RunPot(pot, Accepted(p, ops)))
    ensures Reads(p, ops) == Texts(Servings(pot, Accepted(p, ops)))
    decreases |ops|
  {
    hide OnPage, StepPage, ReadPage, After, Turn, Shown, StaysInPage;
    if ops != [] {
      var op := ops[0];
      var rest := Accepted(StepPage(p, op), ops[1..]);
      StepKeepsOnPage(p, pot, op);
      ReadKeepsOnPage(p, pot);
      if op.Get? || (HasRoom(p, op.buf) && op.buf != []) {
        PageRunServesRecords(StepPage(p, op), After(pot, op), ops[1..]);
        FirstOp(op, rest);
        ServingsUnfold(pot, [op] + rest);
        if op.Get? && pot.records != [] {
          TextsOfConcat(Serving(Turn(pot), |pot.records|, pot.records[Turn(pot)]), Servings(After(pot, op), rest));
        }
      } else {
        PageRunServesRecords(StepPage(p, op), pot, ops[1..]);
        assert Accepted(p, ops) == rest;
      }
    }
  }

  /** The records of all writes of a run, in order. */
  function AllWritten(ops: seq<Op>): seq<seq<Byte>>
    requires ValidOps(ops)
  {
    if ops == [] then [] else (if ops[0].Put? then Written(ops[0].buf) else []) + AllWritten(ops[1..])
  }

  lemma {:induction false} RunPotCollects(p: Pot, ops: seq<Op>)
    requires ValidOps(ops)
    ensures RunPot(p, ops).records == p.records + AllWritten(ops)
    decreases |ops|
  {
    hide Written, Turn;
    if ops != [] {
      RunPotCollects(After(p, ops[0]), ops[1..]);
    }
  }

  /** Over the bytes and cursors of the page, from the empty one, in any interleaving of writes
      and reads that stay in it: the reads hand out the records of the accepted writes in turn,
      each with its last byte as `Shown` says, going back to the first only when none is left;
      and at the end the written part is those records and the read cursor is on a boundary. */
  lemma ReadsAreRoundRobin(ops: seq<Op>)
    requires StaysInPageAlong(EmptyPage, ops)
    ensures ValidOps(Accepted(EmptyPage, ops))
    ensures var records := AllWritten(Accepted(EmptyPage, ops));
      var served := Servings(EmptyPot, Accepted(EmptyPage, ops));
      var p := RunPage(EmptyPage, ops);
      && Reads(EmptyPage, ops) == Texts(served) && InTurn(0, served)
      && (forall s :: s in served ==> s.record < s.count <= |records| && s.text == records[s.record])
      && p.bytes[..p.writeInd] == Bytes(records)
      && exists k :: 0 <= k <= |records| && p.bytes[..p.readInd] == Bytes(records[..k])
  {
    hide Accepted, Servings, Reads, Texts, RunPage, RunPot, AllWritten, InTurn, ValidOps, StaysInPageAlong, NulFree;
    assert OnPage(EmptyPage, EmptyPot) by {
      EmptyIsOnPage();
    }
    PageRunServesRecords(EmptyPage, EmptyPot, ops);
    var accepted := Accepted(EmptyPage, ops);
    RoundRobin(EmptyPot, accepted);
    ServedTextIsWritten(EmptyPot, accepted);
    RunPotCollects(EmptyPot, accepted);
    assert EmptyPot.records + AllWritten(accepted) == AllWritten(accepted);
  }

  /** Over the page: what a first write without NUL before its last byte is read back as, and a
      write of a whole page in particular without its newline. */
  lemma FirstWriteReadBack(buf: seq<Byte>)
    requires 0 < |buf| <= PAGE_SIZE && NUL !in buf[..|buf| - 1]
    ensures StaysInPageAlong(EmptyPage, [Put(buf), Get])
    ensures Reads(EmptyPage, [Put(buf), Get]) == [buf[|buf| - 1 := if |buf| < PAGE_SIZE then NEWLINE else NUL]]
  {
    hide ReadPage, WritePage, Written, OnPage, CString, Printed;
    EmptyIsOnPage();
    PlainWriteIsOneRecord(buf);
    var p := WritePage(EmptyPage, buf);
    var pot := AfterWrite(EmptyPot, buf);
    WriteKeepsOnPage(EmptyPage, EmptyPot, buf);
    ReadKeepsOnPage(p, pot);
    assert pot.records == [buf[..|buf| - 1]] && Turn(pot) == 0;
    assert [Put(buf), Get][1..] == [Get] && [Get][1..] == [];
    assert Reads(p, [Get]) == [ReadPage(p).1] + Reads(ReadPage(p).0, []);
    assert Reads(EmptyPage, [Put(buf), Get]) == [] + Reads(p, [Get]);
    assert Shown(buf[..|buf| - 1]) == buf[|buf| - 1 := if |buf| < PAGE_SIZE then NEWLINE else NUL];
  }

  lemma EmptyIsOnPage()
    ensures OnPage(EmptyPage, EmptyPot)
  {
  }

  // ---------------------------------------------------------------- the module

  class CookiePot {
    const cookiePot: array<Byte>
    var readInd: nat
    var writeInd: nat
    ghost var pot: Pot

    ghost function View(): RawPage
      reads this, cookiePot
    {
      Page(cookiePot[..], readInd, writeInd)
    }

    /** The page holds the records of `pot`, which tells the record to be read next. */
    ghost predicate Valid()
      reads this, cookiePot
    {
      InPage(View()) && OnPage(View(), pot)
    }

    constructor ()
      ensures Valid() && View() == EmptyPage && pot == EmptyPot && fresh(cookiePot)
    {
      cookiePot := new Byte[PAGE_SIZE](_ => NUL);
      readInd, writeInd := 0, 0;
      pot := EmptyPot;
      new;
      assert cookiePot[..] == EmptyPage.bytes;
    }

    /** copy_from_user: `copied` is how many bytes it can fetch; what is left is returned.  What
        becomes of the bytes it could not fetch is not promised; the kernel fills them with NULs. */
    method CopyFromUser(at: nat, buf: seq<Byte>, copied: nat) returns (left: nat)
      requires at + |buf| <= cookiePot.Length
      modifies cookiePot
      ensures left == if copied < |buf| then |buf| - copied else 0
      ensures cookiePot[..at] == old(cookiePot[..at]) && cookiePot[at + |buf|..] == old(cookiePot[at + |buf|..])
      ensures cookiePot[at..at + |buf| - left] == buf[..|buf| - left]
      ensures left == 0 ==> cookiePot[..] == Spliced(old(cookiePot[..]), at, buf)
    {
      left := if copied < |buf| then |buf| - copied else 0;
      var i := 0;
      while i < |buf|
        invariant 0 <= i <= |buf|
        invariant cookiePot[..at] == old(cookiePot[..at])
        invariant cookiePot[at + |buf|..] == old(cookiePot[at + |buf|..])
        invariant forall k :: 0 <= k < i && k < |buf| - left ==> cookiePot[at + k] == buf[k]
      {
        cookiePot[at + i] := if i < copied then buf[i] else NUL;
        i := i + 1;
      }
      if left == 0 {
        SplicedInParts(old(cookiePot[..]), cookiePot[..], at, buf);
      }
    }

    method Write(buf: seq<Byte>, copied: nat) returns (r: IoResult)
      requires Valid() && StaysInPage(View(), buf)
      modifies this, cookiePot
      ensures Valid()
      ensures r == if |buf| > PAGE_SIZE - old(writeInd) then NoSpace
                   else if copied < |buf| then Fault else Count(|buf|)
      ensures r.Count? ==> View() == WritePage(old(View()), buf)
      ensures pot == if r.Count? && buf != [] then AfterWrite(old(pot), buf) else old(pot)
      ensures readInd == old(readInd) && (!r.Count? ==> writeInd == old(writeInd))
    {
      hide OnPage, AfterWrite, Spliced;
      ghost var before: Page := View();
      if |buf| > PAGE_SIZE - writeInd + 1 {
        return NoSpace;
      }
      var left := CopyFromUser(writeInd, buf, copied);
      if left != 0 {
        BeyondTheWritten(before, View(), pot);
        return Fault;
      }
      writeInd := writeInd + |buf|;
      cookiePot[writeInd - 1] := NUL;
      WriteKeepsOnPage(before, pot, buf);
      if buf != [] {
        pot := AfterWrite(pot, buf);
      }
      r := Count(|buf|);
    }

    /** `fPos` is the file position, `reachable` whether copy_to_user succeeds.  A read at the
        start of the file hands out the record whose turn it is. */
    method Read(fPos: nat, reachable: bool) returns (r: IoResult, out: seq<Byte>, fPos': nat)
      requires Valid()
      modifies this
      ensures Valid() && writeInd == old(writeInd)
      ensures fPos > 0 || old(pot).records == [] ==>
        r == Count(0) && out == [] && fPos' == fPos && pot == old(pot) && View() == old(View())
      ensures fPos == 0 && old(pot).records != [] && !reachable ==>
        r == Fault && out == [] && fPos' == 0 && Turn(pot) == Turn(old(pot)) && pot.records == old(pot).records
      ensures fPos == 0 && old(pot).records != [] && reachable ==>
        && (View(), out) == ReadPage(old(View()))
        && out == Shown(old(pot).records[Turn(old(pot))])
        && r == Count(|out|) && fPos' == |out|
        && pot == AfterRead(old(pot))
    {
      hide OnPage, CString, Shown, Turn, AfterRead, ReadPage, Printed;
      ghost var before: Page := View();
      ReadKeepsOnPage(before, pot);
      if fPos > 0 || writeInd == 0 {
        return Count(0), [], fPos;
      }
      RewindKeepsOnPage(before, pot);
      ReadPageHandsOut(before);
      if readInd >= writeInd {
        readInd := 0;
      }
      pot := pot.(next := Turn(pot));
      var s := CString(cookiePot[readInd..]);
      assert cookiePot[readInd..] == before.bytes[readInd..];
      var readLen := |s| + 1;
      var tmpBuf := Printed(s);
      if !reachable {
        return Fault, [], 0;
      }
      out := tmpBuf;
      readInd := readInd + readLen;
      pot := pot.(next := pot.next + 1);
      fPos' := fPos + readLen;
      r := Count(readLen);
    }
  }
}
