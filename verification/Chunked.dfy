/** The chunked transfer coding, section 7.1 of RFC 9112, without extensions and trailers: a decoder that takes
    its input in arbitrary pieces. */
module Chunked {
  import opened Bytes

  const CR: byte := 13
  const LF: byte := 10

  predicate IsHex(c: byte) {
    47 < c < 58 || 96 < c < 103 || 64 < c < 71
  }

  function Digit(c: byte): (d: nat)
    requires IsHex(c)
    ensures d < 16
  {
    if c < 58 then c - 48 else if c < 71 then c - 55 else c - 87
  }

  predicate AllHex(digits: seq<byte>) {
    forall i :: 0 <= i < |digits| ==> IsHex(digits[i])
  }

  type Digits = ds: seq<byte> | AllHex(ds) witness []

  function HexValue(digits: Digits): nat {
    if digits == [] then 0 else 16 * HexValue(digits[..|digits| - 1]) + Digit(digits[|digits| - 1])
  }

  // ------------------------------------------------------------ hexadecimal numbers

  const HEX := "0123456789abcdef"
  const UPPER_HEX := "0123456789ABCDEF"

  /** `n` in hexadecimal digits, without leading zeros. */
  function Printed(n: nat): (s: seq<byte>)
    ensures s != []
  {
    if n < 16 then [HEX[n] as byte] else Printed(n / 16) + [HEX[n % 16] as byte]
  }

  function LowerCase(c: byte): byte {
    if 'A' as byte <= c <= 'F' as byte then c + 32 else c
  }

  function Lower(digits: seq<byte>): (s: seq<byte>)
    ensures |s| == |digits|
  {
    seq(|digits|, i requires 0 <= i < |digits| => LowerCase(digits[i]))
  }

  function Noughts(k: nat): seq<byte> {
    seq(k, i => '0' as byte)
  }

  /** Digits that stand for `n`: in any case and behind any number of zeros. */
  ghost predicate Spells(digits: seq<byte>, n: nat) {
    exists k: nat :: Lower(digits) == Noughts(k) + Printed(n)
  }

  /** Each character of the two alphabets is the digit of its place there. */
  lemma DigitIs(d: nat)
    requires d < 16
    ensures IsHex(HEX[d] as byte) && Digit(HEX[d] as byte) == d
    ensures IsHex(UPPER_HEX[d] as byte) && Digit(UPPER_HEX[d] as byte) == d
    ensures LowerCase(UPPER_HEX[d] as byte) == LowerCase(HEX[d] as byte) == HEX[d] as byte
  {
  }

  lemma OnlyHex(c: byte)
    requires IsHex(c)
    ensures LowerCase(c) == HEX[Digit(c)] as byte
  {
  }

  lemma Longer(ds: Digits, c: byte)
    requires IsHex(c)
    ensures AllHex(ds + [c]) && HexValue(ds + [c]) == 16 * HexValue(ds) + Digit(c)
  {
    assert (ds + [c])[..|ds|] == ds;
  }

  lemma {:induction false} PrintedValue(n: nat)
    ensures AllHex(Printed(n)) && HexValue(Printed(n)) == n
  {
    hide HexValue, Digit, IsHex;
    var d := n % 16;
    DigitIs(d);
    if n < 16 {
      Longer([], HEX[n] as byte);
      NoDigits();
      assert [] + [HEX[n] as byte] == [HEX[n] as byte];
    } else {
      PrintedValue(n / 16);
      Longer(Printed(n / 16), HEX[d] as byte);
    }
  }

  lemma NoDigits()
    ensures HexValue([]) == 0
  {
  }

  lemma {:induction false} LeadingNoughts(k: nat, ds: Digits)
    ensures AllHex(Noughts(k) + ds) && HexValue(Noughts(k) + ds) == HexValue(ds)
    decreases k + |ds|
  {
    if ds != [] {
      var m := |ds| - 1;
      LeadingNoughts(k, ds[..m]);
      assert Noughts(k) + ds == Noughts(k) + ds[..m] + [ds[m]];
      Longer(Noughts(k) + ds[..m], ds[m]);
    } else if k > 0 {
      LeadingNoughts(k - 1, ds);
      assert Noughts(k) + ds == Noughts(k - 1) + ds + [48];
      Longer(Noughts(k - 1) + ds, 48);
    } else {
      assert Noughts(k) + ds == ds;
    }
  }

  lemma {:induction false} LowerValue(ds: Digits)
    ensures AllHex(Lower(ds)) && HexValue(Lower(ds)) == HexValue(ds)
    decreases |ds|
  {
    hide Digit, IsHex, LowerCase;
    if ds == [] {
      assert Lower(ds) == ds;
    } else {
      var m := |ds| - 1;
      LowerValue(ds[..m]);
      assert Lower(ds) == Lower(ds[..m]) + [LowerCase(ds[m])];
      assert IsHex(ds[m]);
      OnlyHex(ds[m]);
      DigitIs(Digit(ds[m]));
      Longer(Lower(ds[..m]), LowerCase(ds[m]));
    }
  }

  lemma {:induction false} SomeSpelling(ds: Digits)
    requires ds != []
    ensures Spells(ds, HexValue(ds))
    decreases |ds|
  {
    hide Digit, IsHex, LowerCase;
    var m, n := |ds| - 1, HexValue(ds);
    assert IsHex(ds[m]);
    OnlyHex(ds[m]);
    var last := [LowerCase(ds[m])];
    if m == 0 {
      NoDigits();
      assert Lower(ds) == Noughts(0) + Printed(n);
    } else {
      var h := HexValue(ds[..m]);
      SomeSpelling(ds[..m]);
      var k: nat :| Lower(ds[..m]) == Noughts(k) + Printed(h);
      assert Lower(ds) == Lower(ds[..m]) + last;
      if h == 0 {
        assert Lower(ds) == Noughts(k + 1) + Printed(n);
      } else {
        assert n / 16 == h && n % 16 == Digit(ds[m]);
        assert Lower(ds) == Noughts(k) + Printed(n);
      }
    }
  }

  /** `parseInt` of the digits is the number that they spell, and no other. */
  lemma SpellsExact(ds: Digits, n: nat)
    requires ds != []
    ensures Spells(ds, n) <==> HexValue(ds) == n
  {
    hide HexValue, Printed, Noughts, Lower;
    SomeSpelling(ds);
    if Spells(ds, n) {
      var k: nat :| Lower(ds) == Noughts(k) + Printed(n);
      LowerValue(ds);
      PrintedValue(n);
      LeadingNoughts(k, Printed(n));
    }
  }

  // ------------------------------------------------------------ one octet at a time

  /** What the decoder reports, octet by octet. */
  datatype Output = Body(b: byte) | End

  datatype State = State(inHeader: bool, chunkLen: nat, ending: bool, digits: Digits, failed: bool)

  const START := State(true, 0, false, [], false)

  function LineFeed(s: State): (State, seq<Output>) {
    if s.ending then (s.(ending := false), [End])
    else if s.digits == [] then (s, [])
    else
      var n := HexValue(s.digits);
      if n > 0 then (s.(inHeader := false, chunkLen := n, digits := []), [])
      else (s.(chunkLen := 0, ending := true, digits := []), [])
  }

  function Step(s: State, c: byte): (State, seq<Output>) {
    if s.failed then (s, [])
    else if !s.inHeader then
      (s.(chunkLen := if s.chunkLen <= 1 then 0 else s.chunkLen - 1, inHeader := s.chunkLen <= 1), [Body(c)])
    else if c == CR then (s, [])
    else if c == LF then LineFeed(s)
    else if IsHex(c) then (s.(digits := s.digits + [c]), [])
    else (s.(failed := true), [])
  }

  function Run(s: State, data: seq<byte>): (State, seq<Output>) {
    if data == [] then (s, [])
    else
      var n := |data| - 1;
      var before := Run(s, data[..n]);
      var last := Step(before.0, data[n]);
      (last.0, before.1 + last.1)
  }

  /** However the input is cut, the reports are the same. */
  lemma {:induction false} RunAppend(s: State, a: seq<byte>, b: seq<byte>)
    ensures Run(s, a + b).0 == Run(Run(s, a).0, b).0
    ensures Run(s, a + b).1 == Run(s, a).1 + Run(Run(s, a).0, b).1
    decreases |b|
  {
    hide Step;
    if b == [] {
      assert a + b == a;
    } else {
      var n := |b| - 1;
      assert (a + b)[..|a| + n] == a + b[..n];
      RunAppend(s, a, b[..n]);
    }
  }

  lemma RunOne(s: State, c: byte)
    ensures Run(s, [c]) == Step(s, c)
  {
    assert |[c][..0]| == 0;
    assert [] + Step(s, c).1 == Step(s, c).1;
  }

  // ------------------------------------------------------------ what a body looks like

  /** A chunk: its size in hexadecimal, any case and leading zeros, and as many octets. */
  datatype Chunk = Chunk(size: Digits, data: seq<byte>)

  ghost predicate ValidChunk(c: Chunk) {
    c.size != [] && c.data != [] && Spells(c.size, |c.data|)
  }

  function EncodeChunk(c: Chunk): seq<byte> {
    c.size + [CR, LF] + c.data + [CR, LF]
  }

  function EncodeChunks(cs: seq<Chunk>): seq<byte> {
    if cs == [] then [] else EncodeChunks(cs[..|cs| - 1]) + EncodeChunk(cs[|cs| - 1])
  }

  ghost predicate Zeros(zeros: Digits) {
    zeros != [] && Spells(zeros, 0)
  }

  /** All chunks, a last one of size zero, and the empty line. */
  function EncodeBody(cs: seq<Chunk>, zeros: Digits): seq<byte> {
    EncodeChunks(cs) + zeros + [CR, LF] + [CR, LF]
  }

  function Decoded(cs: seq<Chunk>): seq<byte> {
    if cs == [] then [] else Decoded(cs[..|cs| - 1]) + cs[|cs| - 1].data
  }

  function Told(data: seq<byte>): seq<Output> {
    seq(|data|, i requires 0 <= i < |data| => Body(data[i]))
  }

  predicate AtHeader(s: State) {
    !s.failed && s.inHeader && s.digits == []
  }

  lemma {:induction false} RunDigits(s: State, ds: Digits)
    requires AtHeader(s)
    ensures Run(s, ds) == (s.(digits := ds), [])
    decreases |ds|
  {
    hide HexValue;
    if ds != [] {
      var n := |ds| - 1;
      RunDigits(s, ds[..n]);
      assert IsHex(ds[n]) && ds[n] != CR && ds[n] != LF;
      assert ds[..n] + [ds[n]] == ds;
      var nothing: seq<Output> := [];
      assert nothing + nothing == [];
      assert Step(s.(digits := ds[..n]), ds[n]) == (s.(digits := ds), []);
    }
  }

  lemma {:induction false} RunData(s: State, data: seq<byte>)
    requires !s.failed && !s.inHeader && |data| <= s.chunkLen
    ensures Run(s, data) == (
              if |data| == s.chunkLen then s.(chunkLen := 0, inHeader := data != [])
              else s.(chunkLen := s.chunkLen - |data|),
              Told(data))
    decreases |data|
  {
    if data == [] {
      assert Told(data) == [];
    } else {
      var n := |data| - 1;
      RunData(s, data[..n]);
      assert Told(data[..n]) + [Body(data[n])] == Told(data);
    }
  }

  lemma RunLineEnd(s: State)
    requires !s.failed && s.inHeader
    ensures Run(s, [CR, LF]) == LineFeed(s)
  {
    hide LineFeed;
    assert [CR, LF] == [CR] + [LF];
    RunAppend(s, [CR], [LF]);
    RunOne(s, CR);
    RunOne(s, LF);
  }

  lemma RunChunk(s: State, c: Chunk)
    requires AtHeader(s) && !s.ending && s.chunkLen == 0 && ValidChunk(c)
    ensures Run(s, EncodeChunk(c)) == (s, Told(c.data))
  {
    hide Run, HexValue, Spells;
    SpellsExact(c.size, |c.data|);
    var open := s.(inHeader := false, chunkLen := |c.data|);
    RunDigits(s, c.size);
    RunLineEnd(s.(digits := c.size));
    RunAppend(s, c.size, [CR, LF]);
    RunData(open, c.data);
    RunAppend(s, c.size + [CR, LF], c.data);
    RunLineEnd(s);
    RunAppend(s, c.size + [CR, LF] + c.data, [CR, LF]);
    assert Run(s, c.size + [CR, LF]) == (open, []);
    assert Run(s, c.size + [CR, LF] + c.data).0 == s.(inHeader := true);
    assert Run(s, c.size + [CR, LF] + c.data).1 == Told(c.data);
    assert LineFeed(s) == (s, []);
    assert Told(c.data) + [] == Told(c.data);
    assert Run(s, EncodeChunk(c)).0 == s;
    assert Run(s, EncodeChunk(c)).1 == Told(c.data);
  }

  lemma ToldAppend(a: seq<byte>, b: seq<byte>)
    ensures Told(a + b) == Told(a) + Told(b)
  {
  }

  lemma {:induction false} RunChunks(cs: seq<Chunk>)
    requires forall c :: c in cs ==> ValidChunk(c)
    ensures Run(START, EncodeChunks(cs)) == (START, Told(Decoded(cs)))
    decreases |cs|
  {
    hide Told, ValidChunk, EncodeChunk;
    if cs == [] {
      ToldNothing();
    } else {
      var n := |cs| - 1;
      RunChunks(cs[..n]);
      RunChunk(START, cs[n]);
      RunAppend(START, EncodeChunks(cs[..n]), EncodeChunk(cs[n]));
      ToldAppend(Decoded(cs[..n]), cs[n].data);
    }
  }

  lemma ToldNothing()
    ensures Told([]) == []
  {
  }

  /** Of a whole body the decoder reports the octets it carries, and its end once, on the last line feed; and it
      is ready for another. */
  lemma DecodesBody(cs: seq<Chunk>, zeros: Digits)
    requires (forall c :: c in cs ==> ValidChunk(c)) && Zeros(zeros)
    ensures var body := EncodeBody(cs, zeros);
      && Run(START, body) == (START, Told(Decoded(cs)) + [End])
      && Run(START, body[..|body| - 1]).1 == Told(Decoded(cs))
  {
    hide Run, HexValue, EncodeChunks, Told, Decoded, Spells;
    SpellsExact(zeros, 0);
    var all, out := EncodeChunks(cs), Told(Decoded(cs));
    RunChunks(cs);
    RunDigits(START, zeros);
    RunAppend(START, all, zeros);
    RunLineEnd(START.(digits := zeros));
    RunAppend(START, all + zeros, [CR, LF]);
    var ending := START.(ending := true);
    assert Run(START, all + zeros).1 == out;
    assert Run(START, all + zeros + [CR, LF]) == (ending, out);
    var front := all + zeros + [CR, LF];
    RunLineEnd(ending);
    RunAppend(START, front, [CR, LF]);
    RunOne(ending, CR);
    RunAppend(START, front, [CR]);
    assert EncodeBody(cs, zeros)[..|EncodeBody(cs, zeros)| - 1] == front + [CR];
  }

  // ------------------------------------------------------------ the code

  datatype Event = OnData(data: seq<byte>) | OnEnd

  function Flat(events: seq<Event>): seq<Output> {
    if events == [] then []
    else
      var e := events[|events| - 1];
      Flat(events[..|events| - 1]) + (if e.OnData? then Told(e.data) else [End])
  }

  lemma FlatSnoc(events: seq<Event>, e: Event)
    ensures Flat(events + [e]) == Flat(events) + (if e.OnData? then Told(e.data) else [End])
  {
    assert (events + [e])[..|events|] == events;
  }

  class ChunkedParser {
    const buf: array<byte>
    var bufOffset: nat          // where the caller has put the next octets
    var inHeader: bool
    var offset: nat
    var chunkLen: nat
    var ending: bool
    var digits: Digits
    ghost var events: seq<Event>

    ghost function Now(): State
      reads this
    {
      State(inHeader, chunkLen, ending, digits, false)
    }

    ghost predicate Valid()
      reads this
    {
      inHeader <==> chunkLen == 0
    }

    constructor (buf: array<byte>)
      ensures Valid() && Now() == START && events == [] && this.buf == buf
    {
      this.buf := buf;
      bufOffset, inHeader, offset, chunkLen, ending, digits, events := 0, true, 0, 0, false, [], [];
    }

    /** One octet of a header; false where the code throws. */
    method HeaderOctet() returns (ok: bool)
      requires Valid() && inHeader && offset < buf.Length
      modifies this
      ensures offset == old(offset) + 1 && Valid()
      ensures var next := Step(old(Now()), buf[old(offset)]);
        && ok == !next.0.failed
        && (ok ==> Now() == next.0 && Flat(events) == Flat(old(events)) + next.1)
    {
      hide HexValue, Flat;
      ok := true;
      var c := buf[offset];
      offset := offset + 1;
      if c == 13 {
      } else if c == 10 {
        if ending {
          bufOffset := offset;
          FlatSnoc(events, OnEnd);
          events := events + [OnEnd];
          ending := false;
        } else if |digits| > 0 {
          chunkLen := HexValue(digits);
          if chunkLen > 0 {
            inHeader := false;
          } else if chunkLen == 0 {
            ending := true;
          }
          digits := [];
        }
      } else if 47 < c < 58 {
        digits := digits + [c];
      } else if 96 < c < 103 {
        digits := digits + [c];
      } else if 64 < c < 71 {
        digits := digits + [c];
      } else {
        ok := false;
      }
    }

    /** As much of a chunk's data as there is; behind a piece that ends within the chunk the offset stays. */
    method ChunkData(bytes: nat) returns (rest: nat)
      requires Valid() && !inHeader && bytes > 0 && offset + bytes <= buf.Length
      modifies this
      ensures rest < bytes && Valid() && bufOffset == old(offset)
      ensures offset == if inHeader then old(offset) + bytes - rest else old(offset)
      ensures !inHeader ==> rest == 0
      ensures var run := Run(old(Now()), buf[old(offset)..old(offset) + bytes - rest]);
        Now() == run.0 && Flat(events) == Flat(old(events)) + run.1
    {
      hide Flat, Run;
      bufOffset := offset;
      if bytes >= chunkLen {
        RunData(Now(), buf[offset..offset + chunkLen]);
        FlatSnoc(events, OnData(buf[offset..offset + chunkLen]));
        events := events + [OnData(buf[offset..offset + chunkLen])];
        inHeader := true;
        offset := offset + chunkLen;
        rest := bytes - chunkLen;
        chunkLen := 0;
      } else {
        RunData(Now(), buf[offset..offset + bytes]);
        FlatSnoc(events, OnData(buf[offset..offset + bytes]));
        events := events + [OnData(buf[offset..offset + bytes])];
        chunkLen := chunkLen - bytes;
        rest := 0;
      }
    }

    /** `parse`: the reports for any piece are those of its octets one by one. */
    method Parse(count: nat) returns (ok: bool)
      requires Valid() && bufOffset + count <= buf.Length
      modifies this
      ensures var run := Run(old(Now()), buf[old(bufOffset)..old(bufOffset) + count]);
        && ok == !run.0.failed
        && (ok ==> Valid() && Now() == run.0 && Flat(events) == Flat(old(events)) + run.1)
    {
      hide Run, Flat, Step;
      offset := bufOffset;
      var bytes := count;
      ghost var from, start, told := offset, Now(), Flat(events);
      ghost var at := from;   // how far the piece has been read
      RunNothing(start, buf[from..at]);
      assert told + [] == told;
      while bytes > 0
        invariant Valid() && from <= at <= at + bytes == from + count <= buf.Length && (bytes > 0 ==> offset == at)
        invariant Now() == Run(start, buf[from..at]).0
        invariant Flat(events) == told + Run(start, buf[from..at]).1
      {
        ghost var was, before, said := at, buf[from..at], Flat(events);
        if inHeader {
          RunOne(Now(), buf[at]);
          ok := HeaderOctet();
          bytes := bytes - 1;
          at := at + 1;
          assert before + [buf[was]] == buf[from..at];
          RunAppend(start, before, [buf[was]]);
          if !ok {
            StaysFailed(start, buf[from..at], buf[at..from + count]);
            assert buf[from..at] + buf[at..from + count] == buf[from..from + count];
            return;
          }
          Told2(told, Run(start, before).1, Step(Run(start, before).0, buf[was]).1);
        } else {
          var rest := ChunkData(bytes);
          at := at + bytes - rest;
          bytes := rest;
          assert before + buf[was..at] == buf[from..at];
          RunAppend(start, before, buf[was..at]);
          Told2(told, Run(start, before).1, Run(Run(start, before).0, buf[was..at]).1);
          bufOffset := offset;
        }
      }
      ok := true;
    }
  }

  lemma Told2(a: seq<Output>, b: seq<Output>, c: seq<Output>)
    ensures a + (b + c) == a + b + c
  {
  }

  lemma RunNothing(s: State, data: seq<byte>)
    requires data == []
    ensures Run(s, data) == (s, [])
  {
  }

  lemma {:induction false} StaysFailed(s: State, a: seq<byte>, b: seq<byte>)
    requires Run(s, a).0.failed
    ensures Run(s, a + b).0.failed
    decreases |b|
  {
    if b == [] {
      assert a + b == a;
    } else {
      var n := |b| - 1;
      assert (a + b)[..|a| + n] == a + b[..n];
      StaysFailed(s, a, b[..n]);
    }
  }

  /** A body in any pieces: each is put into the buffer and parsed, and in the end the octets that the body
      carries have been reported, in order, and its end after them. */
  method DecodePieces(parser: ChunkedParser, pieces: seq<seq<byte>>, ghost cs: seq<Chunk>, ghost zeros: Digits)
    requires parser.Valid() && parser.Now() == START && parser.events == []
    requires (forall c :: c in cs ==> ValidChunk(c)) && Zeros(zeros) && Joined(pieces) == EncodeBody(cs, zeros)
    requires forall p :: p in pieces ==> |p| <= parser.buf.Length
    modifies parser, parser.buf
    ensures parser.Valid() && parser.Now() == START
    ensures Flat(parser.events) == Told(Decoded(cs)) + [End]
  {
    hide Run, Flat, EncodeBody, Told, Decoded, HexValue;
    DecodesBody(cs, zeros);
    NothingYet(START);
    for k := 0 to |pieces|
      invariant parser.Valid() && parser.Now() == Run(START, Joined(pieces[..k])).0
      invariant Flat(parser.events) == Run(START, Joined(pieces[..k])).1
    {
      var piece := pieces[k];
      assert pieces[..k + 1][..k] == pieces[..k];
      forall j | 0 <= j < |piece| { parser.buf[j] := piece[j]; }
      parser.bufOffset := 0;
      assert parser.buf[0..|piece|] == piece;
      NeverFails(START, Joined(pieces[..k]), piece, pieces, k);
      RunAppend(START, Joined(pieces[..k]), piece);
      var ok := parser.Parse(|piece|);
    }
    assert pieces[..|pieces|] == pieces;
  }

  function Joined(pieces: seq<seq<byte>>): seq<byte> {
    if pieces == [] then [] else Joined(pieces[..|pieces| - 1]) + pieces[|pieces| - 1]
  }

  lemma NothingYet(s: State)
    ensures Run(s, Joined([])) == (s, []) && Flat([]) == []
  {
  }

  /** If the whole is decoded, so is every beginning of it. */
  lemma {:induction false} NeverFails(s: State, done: seq<byte>, piece: seq<byte>, pieces: seq<seq<byte>>, k: nat)
    requires k < |pieces| && done == Joined(pieces[..k]) && piece == pieces[k]
    requires !Run(s, Joined(pieces)).0.failed
    ensures !Run(s, done + piece).0.failed
    decreases |pieces|
  {
    hide Run;
    var n := |pieces| - 1;
    if k == n {
      assert pieces[..n] == pieces[..k];
    } else {
      if Run(s, Joined(pieces[..n])).0.failed { StaysFailed(s, Joined(pieces[..n]), pieces[n]); }
      assert pieces[..n][..k] == pieces[..k];
      NeverFails(s, done, piece, pieces[..n], k);
    }
  }
}
