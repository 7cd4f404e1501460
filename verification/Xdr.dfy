/** The XDR codec of the bakery request on a memory stream: seven 4-byte words, written and
    read either one by one or four at once through an inline buffer (RFC 4506, sections 4.1,
    4.6 and 4.14).  Floats are their 32-bit patterns. */
module Xdr {
  import opened Octets
  import opened Options

  const UNIT := 4
  const TWO31 := 0x8000_0000
  const TWO32 := 0x1_0000_0000

  type Int32 = i: int | -TWO31 <= i < TWO31
  type Word = w: int | 0 <= w < TWO32

  datatype Request = Request(pid: Int32, idx: Int32, num: Int32, op: Int32, arg1: Word, arg2: Word, res: Word)

  // ---------------------------------------------------------------- the standard's encoding

  /** Two's complement. */
  function FromInt(i: Int32): Word {
    if i < 0 then i + TWO32 else i
  }

  function ToInt(w: Word): Int32 {
    if w >= TWO31 then w - TWO32 else w
  }

  /** Most significant byte first. */
  function Bytes4(w: Word): (b: seq<Byte>)
    ensures |b| == UNIT
  {
    [w / 0x100_0000, w / 0x1_0000 % 256, w / 0x100 % 256, w % 256]
  }

  function Word4(b: seq<Byte>): Word
    requires |b| == UNIT
  {
    (b[0] as int) * 0x100_0000 + (b[1] as int) * 0x1_0000 + (b[2] as int) * 0x100 + b[3] as int
  }

  /** The components of the structure, in the order of its declaration. */
  function Words(r: Request): (ws: seq<Word>)
    ensures |ws| == 7
  {
    [FromInt(r.pid), FromInt(r.idx), FromInt(r.num), FromInt(r.op), r.arg1, r.arg2, r.res]
  }

  function Encoding(ws: seq<Word>): (b: seq<Byte>)
    ensures |b| == UNIT * |ws|
  {
    if ws == [] then [] else Encoding(ws[..|ws| - 1]) + Bytes4(ws[|ws| - 1])
  }

  function Parse(b: seq<Byte>, n: nat): (ws: seq<Word>)
    requires UNIT * n <= |b|
    ensures |ws| == n
  {
    if n == 0 then [] else Parse(b, n - 1) + [Word4(b[UNIT * (n - 1)..UNIT * n])]
  }

  lemma WordRoundTrip(w: Word)
    ensures Word4(Bytes4(w)) == w
  {
    var a, b, c := w / 0x100_0000, w / 0x1_0000, w / 0x100;
    assert w == c * 0x100 + w % 256;
    assert c == b * 0x100 + c % 256;
    assert b == a * 0x100 + b % 256;
  }

  lemma SplitAtWord(front: seq<Byte>, word: seq<Byte>, rest: seq<Byte>)
    ensures (front + word) + rest == front + (word + rest)
    ensures ((front + word) + rest)[|front|..|front| + |word|] == word
  {
  }

  lemma {:induction false} ParseUndoesEncoding(ws: seq<Word>, rest: seq<Byte>)
    ensures Parse(Encoding(ws) + rest, |ws|) == ws
  {
    hide Bytes4, Word4;
    if ws != [] {
      var n := |ws| - 1;
      var all := Encoding(ws) + rest;
      WordRoundTrip(ws[n]);
      SplitAtWord(Encoding(ws[..n]), Bytes4(ws[n]), rest);
      ParseUndoesEncoding(ws[..n], Bytes4(ws[n]) + rest);
    }
  }

  /** The value of four bytes from a place on, the first weighing most. */
  function ValueAt(b: seq<Byte>, i: nat): int
    requires i + 4 <= |b|
  {
    (b[i] as int) * 0x100_0000 + (b[i + 1] as int) * 0x1_0000 + (b[i + 2] as int) * 0x100 + b[i + 3] as int
  }

  /** Values as the standard lays them out, at every fourth byte. */
  predicate LaidOut(b: seq<Byte>, at: nat, values: seq<int>) {
    && at + 4 * |values| <= |b|
    && forall k :: 0 <= k < |values| ==> ValueAt(b, at + 4 * k) == values[k] % 0x1_0000_0000
  }

  /** The fields in the order of the declaration; modulo 2 to the 32nd a negative int is its
      two's complement. */
  function Fields(r: Request): (values: seq<int>)
    ensures |values| == 7
  {
    [r.pid as int, r.idx as int, r.num as int, r.op as int, r.arg1 as int, r.arg2 as int, r.res as int]
  }

  lemma ValueOfWord(b: seq<Byte>, i: nat, w: Word)
    requires i + 4 <= |b| && b[i..i + 4] == Bytes4(w)
    ensures ValueAt(b, i) == w
  {
    hide Bytes4;
    WordRoundTrip(w);
    FourBytes(b, i);
  }

  lemma FourBytes(b: seq<Byte>, i: nat)
    requires i + 4 <= |b|
    ensures ValueAt(b, i) == Word4(b[i..i + 4])
  {
  }

  lemma {:induction false} EncodingIsLaidOut(ws: seq<Word>, front: seq<Byte>, rest: seq<Byte>)
    ensures forall k :: 0 <= k < |ws| ==> ValueAt(front + Encoding(ws) + rest, |front| + 4 * k) == ws[k]
  {
    hide Bytes4, ValueAt;
    if ws != [] {
      var n := |ws| - 1;
      var word := Bytes4(ws[n]);
      SplitAtWord(front + Encoding(ws[..n]), word, rest);
      assert front + Encoding(ws) + rest == (front + Encoding(ws[..n])) + word + rest;
      EncodingIsLaidOut(ws[..n], front, word + rest);
      ValueOfWord(front + Encoding(ws) + rest, |front| + 4 * n, ws[n]);
    }
  }

  lemma IntAsWord(i: Int32)
    ensures FromInt(i) == i % 0x1_0000_0000
  {
  }

  lemma WordsOfFields(r: Request)
    ensures forall k :: 0 <= k < 7 ==> Words(r)[k] == Fields(r)[k] % 0x1_0000_0000
  {
    hide FromInt;
    IntAsWord(r.pid);
    IntAsWord(r.idx);
    IntAsWord(r.num);
    IntAsWord(r.op);
  }

  lemma {:induction false} ParsedIsLaidOut(b: seq<Byte>, n: nat)
    requires 4 * n <= |b|
    ensures forall k :: 0 <= k < n ==> ValueAt(b, 4 * k) == Parse(b, n)[k]
  {
    hide ValueAt, Word4;
    if n > 0 {
      ParsedIsLaidOut(b, n - 1);
      FourBytes(b, 4 * (n - 1));
    }
  }

  lemma SameValue(b: seq<Byte>, at: nat, i: nat)
    requires at + i + 4 <= |b|
    ensures ValueAt(b[at..], i) == ValueAt(b, at + i)
  {
  }

  // ---------------------------------------------------------------- what a codec call does

  /** How many of the seven words fit into the bytes left. */
  function Fitting(left: nat): (n: nat)
    ensures n <= 7 && UNIT * n <= left
    ensures n == 7 <==> left >= UNIT * 7
  {
    if left / UNIT >= 7 then 7 else left / UNIT
  }

  /** Encoding at a position: as many words as fit, and nothing else changes. */
  function Written(stream: seq<Byte>, at: nat, ws: seq<Word>): (s: seq<Byte>)
    requires at + UNIT * |ws| <= |stream|
    ensures |s| == |stream|
  {
    stream[..at] + Encoding(ws) + stream[at + UNIT * |ws|..]
  }

  /** Decoding up to seven words into a request: as many of its fields are replaced. */
  function Filled(r: Request, ws: seq<Word>): Request
    requires |ws| <= 7
  {
    Request(
      if |ws| > 0 then ToInt(ws[0]) else r.pid,
      if |ws| > 1 then ToInt(ws[1]) else r.idx,
      if |ws| > 2 then ToInt(ws[2]) else r.num,
      if |ws| > 3 then ToInt(ws[3]) else r.op,
      if |ws| > 4 then ws[4] else r.arg1,
      if |ws| > 5 then ws[5] else r.arg2,
      if |ws| > 6 then ws[6] else r.res)
  }

  /** An encoded request takes 28 bytes; decoding them, whatever follows, gives it back. */
  lemma RequestRoundTrip(r: Request, other: Request, stream: seq<Byte>, at: nat)
    requires at + UNIT * 7 <= |stream|
    ensures |Encoding(Words(r))| == 28
    ensures Filled(other, Parse(Written(stream, at, Words(r))[at..], 7)) == r
    ensures Written(stream, at, Words(r))[at + 28..] == stream[at + 28..]
  {
    var rest := stream[at + UNIT * 7..];
    assert Written(stream, at, Words(r))[at..] == Encoding(Words(r)) + rest;
    ParseUndoesEncoding(Words(r), rest);
  }

  lemma WrittenIsLaidOut(stream: seq<Byte>, at: nat, r: Request)
    requires at + UNIT * 7 <= |stream|
    ensures LaidOut(Written(stream, at, Words(r)), at, Fields(r))
  {
    hide ValueAt, Words, Fields, Encoding;
    EncodingIsLaidOut(Words(r), stream[..at], stream[at + UNIT * 7..]);
    WordsOfFields(r);
  }

  lemma FilledIsLaidOut(b: seq<Byte>, at: nat, other: Request)
    requires at + UNIT * 7 <= |b|
    ensures LaidOut(b, at, Fields(Filled(other, Parse(b[at..], 7))))
  {
    hide ValueAt, Parse, Words, Fields;
    var ws := Parse(b[at..], 7);
    ParsedIsLaidOut(b[at..], 7);
    FieldsOfFilled(other, ws);
    forall k | 0 <= k < 7 ensures ValueAt(b, at + 4 * k) == ws[k] {
      SameValue(b, at, 4 * k);
    }
  }

  lemma FieldsOfFilled(other: Request, ws: seq<Word>)
    requires |ws| == 7
    ensures forall k :: 0 <= k < 7 ==> Fields(Filled(other, ws))[k] % 0x1_0000_0000 == ws[k]
  {
  }

  // ---------------------------------------------------------------- the stream

  class Stream {
    const bytes: array<Byte>
    var pos: nat

    ghost predicate Valid()
      reads this
    {
      pos <= bytes.Length
    }

    constructor (content: seq<Byte>)
      ensures Valid() && pos == 0 && bytes[..] == content && fresh(bytes)
    {
      bytes := new Byte[|content|](i requires 0 <= i < |content| => content[i]);
      pos := 0;
    }

    /** Stores a word at a position inside the stream. */
    method Store(at: nat, w: Word)
      requires at + UNIT <= bytes.Length
      modifies bytes
      ensures bytes[..] == Written(old(bytes[..]), at, [w])
    {
      var b := Bytes4(w);
      bytes[at] := b[0];
      bytes[at + 1] := b[1];
      bytes[at + 2] := b[2];
      bytes[at + 3] := b[3];
      assert [w][..0] == [];
      assert Encoding([w]) == b;
      assert bytes[..] == old(bytes[..])[..at] + b + old(bytes[..])[at + UNIT..];
    }

    /** XDR_INLINE: if the stream is willing and has the bytes, their place, and moves on. */
    method Inline(count: nat, willing: bool) returns (place: Option<nat>)
      requires Valid()
      modifies this`pos
      ensures Valid()
      ensures place == if willing && count <= bytes.Length - old(pos) then Some(old(pos)) else None
      ensures pos == if place.Some? then old(pos) + count else old(pos)
    {
      if willing && count <= bytes.Length - pos {
        place := Some(pos);
        pos := pos + count;
      } else {
        place := None;
      }
    }

    /** xdr_int and xdr_float on encoding: false without any effect if no word is left. */
    method PutWord(w: Word) returns (ok: bool)
      requires Valid()
      modifies this`pos, bytes
      ensures Valid() && ok == (old(pos) + UNIT <= bytes.Length)
      ensures pos == if ok then old(pos) + UNIT else old(pos)
      ensures bytes[..] == if ok then Written(old(bytes[..]), old(pos), [w]) else old(bytes[..])
    {
      ok := pos + UNIT <= bytes.Length;
      if ok {
        Store(pos, w);
        pos := pos + UNIT;
      }
    }

    method GetWord() returns (r: Option<Word>)
      requires Valid()
      modifies this`pos
      ensures Valid()
      ensures r == if old(pos) + UNIT <= bytes.Length then Some(Word4(bytes[old(pos)..old(pos) + UNIT])) else None
      ensures pos == if r.Some? then old(pos) + UNIT else old(pos)
    {
      if pos + UNIT <= bytes.Length {
        r := Some(Word4(bytes[pos..pos + UNIT]));
        pos := pos + UNIT;
      } else {
        r := None;
      }
    }

    /** Since position `at` of a stream that held `stream`, the first k words of `ws` were
        written. */
    ghost predicate Wrote(stream: seq<Byte>, at: nat, ws: seq<Word>, k: nat)
      reads this, bytes
    {
      && |stream| == bytes.Length && k <= |ws| && at + UNIT * k <= |stream|
      && bytes[..] == Written(stream, at, ws[..k])
    }

    method StoreField(w: Word, ghost stream: seq<Byte>, ghost at: nat, ghost ws: seq<Word>, ghost k: nat, place: nat)
      requires Wrote(stream, at, ws, k) && k < |ws| && w == ws[k]
      requires place == at + UNIT * k && place + UNIT <= bytes.Length
      modifies bytes
      ensures Wrote(stream, at, ws, k + 1)
    {
      Store(place, w);
      WrittenOneMore(stream, at, ws, k);
    }

    method PutField(w: Word, ghost stream: seq<Byte>, ghost at: nat, ghost ws: seq<Word>, ghost k: nat)
      returns (ok: bool)
      requires Valid() && Wrote(stream, at, ws, k) && |ws| == 7 && k < 7 && w == ws[k] && pos == at + UNIT * k
      modifies this`pos, bytes
      ensures Valid()
      ensures if ok then Wrote(stream, at, ws, k + 1) && pos == at + UNIT * (k + 1)
              else Wrote(stream, at, ws, k) && pos == old(pos) && Fitting(bytes.Length - at) == k
    {
      ok := PutWord(w);
      if ok {
        WrittenOneMore(stream, at, ws, k);
      }
    }

    /** The four int fields on encoding, by an inline buffer or one by one. */
    method EncodeInts(r: Request, willing: bool, ghost stream: seq<Byte>, ghost at: nat) returns (ok: bool)
      requires Valid() && pos == at && Wrote(stream, at, Words(r), 0)
      modifies this`pos, bytes
      ensures Valid()
      ensures if ok then pos == at + UNIT * 4 && Wrote(stream, at, Words(r), 4)
        else
          var n := Fitting(bytes.Length - at);
          n < 4 && pos == at + UNIT * n && Wrote(stream, at, Words(r), n)
    {
      ghost var ws := Words(r);
      hide Written, Fitting, Encoding;
      var buf := Inline(4 * UNIT, willing);
      if buf == None {
        ok := PutField(FromInt(r.pid), stream, at, ws, 0);
        if !ok { return; }
        ok := PutField(FromInt(r.idx), stream, at, ws, 1);
        if !ok { return; }
        ok := PutField(FromInt(r.num), stream, at, ws, 2);
        if !ok { return; }
        ok := PutField(FromInt(r.op), stream, at, ws, 3);
      } else {
        StoreField(FromInt(r.pid), stream, at, ws, 0, buf.value);
        StoreField(FromInt(r.idx), stream, at, ws, 1, buf.value + UNIT);
        StoreField(FromInt(r.num), stream, at, ws, 2, buf.value + 2 * UNIT);
        StoreField(FromInt(r.op), stream, at, ws, 3, buf.value + 3 * UNIT);
        ok := true;
      }
    }

    /** `xdr_REQUEST` on encoding.  Whether or not the stream gives out an inline buffer, it
        writes the words that fit, and succeeds exactly if all seven do. */
    method Encode(r: Request, willing: bool) returns (ok: bool)
      requires Valid()
      modifies this`pos, bytes
      ensures Valid()
      ensures var n := Fitting(bytes.Length - old(pos));
        && ok == (n == 7)
        && pos == old(pos) + UNIT * n
        && Wrote(old(bytes[..]), old(pos), Words(r), n)
      ensures ok ==> LaidOut(bytes[..], old(pos), Fields(r))
    {
      ghost var stream, at, ws := bytes[..], pos, Words(r);
      WrittenNothing(stream, at, ws);
      ok := EncodeInts(r, willing, stream, at);
      if !ok { return; }
      hide Written, Encoding;
      ok := PutField(r.arg1, stream, at, ws, 4);
      if !ok { return; }
      ok := PutField(r.arg2, stream, at, ws, 5);
      if !ok { return; }
      ok := PutField(r.res, stream, at, ws, 6);
      if ok {
        assert ws[..7] == ws;
        WrittenIsLaidOut(stream, at, r);
      }
    }

    /** The word at an offset of k words, if it is there. */
    method GetField(ghost at: nat, ghost k: nat) returns (w: Option<Word>)
      requires Valid() && at <= bytes.Length && k < 7 && pos == at + UNIT * k
      modifies this`pos
      ensures Valid()
      ensures if w.Some? then
          && pos == at + UNIT * (k + 1)
          && Parse(bytes[at..], k + 1) == Parse(bytes[at..], k) + [w.value]
        else pos == old(pos) && Fitting(bytes.Length - at) == k
    {
      w := GetWord();
      assert w.Some? ==> bytes[at..][UNIT * k..UNIT * (k + 1)] == bytes[old(pos)..old(pos) + UNIT];
    }

    /** The four int fields on decoding, by an inline buffer or one by one. */
    method DecodeInts(objp: Request, willing: bool) returns (ok: bool, r: Request)
      requires Valid()
      modifies this`pos
      ensures Valid()
      ensures ok ==> pos == old(pos) + UNIT * 4 && r == Filled(objp, Parse(bytes[old(pos)..], 4))
      ensures !ok ==>
        var n := Fitting(bytes.Length - old(pos));
        n < 4 && pos == old(pos) + UNIT * n && r == Filled(objp, Parse(bytes[old(pos)..], n))
    {
      ghost var at := pos;
      ok, r := false, objp;
      hide Word4, ToInt, Parse;
      var buf := Inline(4 * UNIT, willing);
      if buf == None {
        NoWords(bytes[at..]);
        var w := GetField(at, 0);
        if w == None { return; }
        r := r.(pid := ToInt(w.value));
        w := GetField(at, 1);
        if w == None { return; }
        r := r.(idx := ToInt(w.value));
        w := GetField(at, 2);
        if w == None { return; }
        r := r.(num := ToInt(w.value));
        w := GetField(at, 3);
        if w == None { return; }
        r := r.(op := ToInt(w.value));
      } else {
        var p := buf.value;
        r := r.(pid := ToInt(Word4(bytes[p..p + 4])));
        r := r.(idx := ToInt(Word4(bytes[p + 4..p + 8])));
        r := r.(num := ToInt(Word4(bytes[p + 8..p + 12])));
        r := r.(op := ToInt(Word4(bytes[p + 12..p + 16])));
        ParseFour(bytes[at..]);
        assert bytes[at..][0..4] == bytes[p..p + 4] && bytes[at..][4..8] == bytes[p + 4..p + 8];
        assert bytes[at..][8..12] == bytes[p + 8..p + 12] && bytes[at..][12..16] == bytes[p + 12..p + 16];
      }
      ok := true;
    }

    /** `xdr_REQUEST` on decoding: likewise, the fields whose words are there are filled in. */
    method Decode(objp: Request, willing: bool) returns (ok: bool, r: Request)
      requires Valid()
      modifies this`pos
      ensures Valid()
      ensures var n := Fitting(bytes.Length - old(pos));
        && ok == (n == 7)
        && pos == old(pos) + UNIT * n
        && r == Filled(objp, Parse(bytes[old(pos)..], n))
      ensures ok ==> LaidOut(bytes[..], old(pos), Fields(r))
    {
      ghost var at := pos;
      ok, r := DecodeInts(objp, willing);
      if !ok { return; }
      hide Parse, Word4, ToInt;
      ok := false;
      var w := GetField(at, 4);
      if w == None { return; }
      r := r.(arg1 := w.value);
      w := GetField(at, 5);
      if w == None { return; }
      r := r.(arg2 := w.value);
      w := GetField(at, 6);
      if w == None { return; }
      r := r.(res := w.value);
      ok := true;
      FilledIsLaidOut(bytes[..], at, objp);
      assert bytes[..][at..] == bytes[at..];
    }
  }

  lemma NoWords(b: seq<Byte>)
    ensures Parse(b, 0) == []
  {
  }

  lemma ParseFour(b: seq<Byte>)
    requires |b| >= 16
    ensures Parse(b, 4) == [Word4(b[0..4]), Word4(b[4..8]), Word4(b[8..12]), Word4(b[12..16])]
  {
    assert Parse(b, 2) == Parse(b, 1) + [Word4(b[4..8])];
    assert Parse(b, 3) == Parse(b, 2) + [Word4(b[8..12])];
    assert Parse(b, 4) == Parse(b, 3) + [Word4(b[12..16])];
  }

  lemma WrittenNothing(stream: seq<Byte>, at: nat, ws: seq<Word>)
    requires at <= |stream|
    ensures Written(stream, at, ws[..0]) == stream
  {
  }

  lemma WrittenOneMore(stream: seq<Byte>, at: nat, ws: seq<Word>, k: nat)
    requires k < |ws| && at + UNIT * (k + 1) <= |stream|
    ensures Written(Written(stream, at, ws[..k]), at + UNIT * k, [ws[k]]) == Written(stream, at, ws[..k + 1])
  {
    assert ws[..k + 1][..k] == ws[..k];
    assert [ws[k]][..0] == [];
    assert Encoding([ws[k]]) == Bytes4(ws[k]);
  }
}
