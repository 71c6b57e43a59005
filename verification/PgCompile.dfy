/** The compiled statement: seven client messages laid out in one buffer, and parameters patched in place. */
module PgCompile {
  import opened Bytes
  import opened PgFrames

  const CAPACITY := 24 * 1024
  const BINARY := 1

  const PARSE: byte := 80
  const DESCRIBE: byte := 68
  const BIND: byte := 66
  const EXECUTE: byte := 69
  const SYNC: byte := 83
  const FLUSH: byte := 72
  const CLOSE: byte := 67
  const STATEMENT: byte := 83

  datatype Format = Format(oid: nat, format: nat)

  /** A parameter as a number, and as the text that `toString` makes of it. */
  datatype Param = Param(number: int, text: Octets)

  datatype Query = Query(name: Octets, sql: Octets, portal: Octets, params: seq<Param>, formats: seq<Format>,
                         fields: seq<nat>, maxRows: nat)

  /** Text is UTF-8, and a parameter without a format of its own has the first one's. */
  predicate Sound(q: Query) {
    && Utf8(q.name) && Utf8(q.sql) && Utf8(q.portal)
    && (forall i :: 0 <= i < |q.params| ==> Utf8(q.params[i].text))
    && (q.params != [] ==> q.formats != [])
  }

  predicate IsBinary(q: Query, i: nat)
    requires q.formats != []
  {
    (if i < |q.formats| then q.formats[i] else q.formats[0]).format == BINARY
  }

  predicate AllBinary(q: Query)
    requires q.params != [] ==> q.formats != []
  {
    forall i :: 0 <= i < |q.params| ==> IsBinary(q, i)
  }

  // ------------------------------------------------------------ the messages, as section 55.7 lays them out

  function CString(s: Octets): Octets {
    s + [0]
  }

  function Oids(formats: seq<Format>): (s: Octets)
    ensures |s| == 4 * |formats|
  {
    if formats == [] then [] else Oids(formats[..|formats| - 1]) + PutU32(formats[|formats| - 1].oid)
  }

  function Shorts(codes: seq<nat>): (s: Octets)
    ensures |s| == 2 * |codes|
  {
    if codes == [] then [] else Shorts(codes[..|codes| - 1]) + PutU16(codes[|codes| - 1])
  }

  function Codes(formats: seq<Format>): (codes: seq<nat>)
    ensures |codes| == |formats|
  {
    seq(|formats|, i requires 0 <= i < |formats| => formats[i].format)
  }

  function ParseBody(q: Query): Octets {
    CString(q.name) + CString(q.sql) + PutU16(|q.formats|) + Oids(q.formats)
  }

  function StatementBody(q: Query): Octets {
    [STATEMENT] + CString(q.name)
  }

  function ExecuteBody(q: Query): Octets {
    CString(q.portal) + PutU32(q.maxRows)
  }

  /** A parameter value: its size in octets, and the octets. */
  function ValueOf(p: Param, binary: bool): Octets {
    if binary then PutU32(4) + PutU32(p.number) else PutU32(|p.text|) + p.text
  }

  /** What `compile` writes for it: a text's size in UTF-16 code units. */
  function WrittenValue(p: Param, binary: bool): (s: Octets)
    ensures |s| == |ValueOf(p, binary)|
  {
    if binary then PutU32(4) + PutU32(p.number) else PutU32(JsLength(p.text)) + p.text
  }

  function Values(q: Query, n: nat): Octets
    requires n <= |q.params| && (q.params != [] ==> q.formats != [])
  {
    if n == 0 then [] else Values(q, n - 1) + ValueOf(q.params[n - 1], IsBinary(q, n - 1))
  }

  function WrittenValues(q: Query, n: nat): (s: Octets)
    requires n <= |q.params| && (q.params != [] ==> q.formats != [])
    ensures |s| == |Values(q, n)|
  {
    if n == 0 then [] else WrittenValues(q, n - 1) + WrittenValue(q.params[n - 1], IsBinary(q, n - 1))
  }

  function BindFront(q: Query): Octets {
    CString(q.portal) + CString(q.name) + PutU16(|q.formats|) + Shorts(Codes(q.formats)) + PutU16(|q.params|)
  }

  function BindBack(q: Query): Octets {
    PutU16(|q.fields|) + Shorts(q.fields)
  }

  /** The seven messages that the statement needs, in the order in which they lie. */
  function Messages(q: Query): seq<Octets>
    requires Sound(q)
  {
    [EncodeFrame(PARSE, ParseBody(q)), EncodeFrame(DESCRIBE, StatementBody(q)),
     EncodeFrame(BIND, BindFront(q) + Values(q, |q.params|) + BindBack(q)),
     EncodeFrame(EXECUTE, ExecuteBody(q)), EncodeFrame(SYNC, []), EncodeFrame(FLUSH, []),
     EncodeFrame(CLOSE, StatementBody(q))]
  }

  // ------------------------------------------------------------ what `compile` writes

  /** A message whose length field is computed from lengths in code units. */
  function Sized(kind: byte, size: nat, body: Octets): (s: Octets)
    ensures |s| == |body| + 5
  {
    [kind] + PutU32(size) + body
  }

  function ParseSize(q: Query): nat {
    1 + 4 + JsLength(q.sql) + 1 + JsLength(q.name) + 1 + 2 + 4 * |q.formats| - 1
  }

  function WrittenParse(q: Query): Octets {
    Sized(PARSE, ParseSize(q), ParseBody(q))
  }

  function WrittenDescribe(q: Query): Octets {
    Sized(DESCRIBE, 7 + JsLength(q.name) - 1, StatementBody(q))
  }

  function WrittenBind(q: Query): Octets
    requires Sound(q)
  {
    EncodeFrame(BIND, BindFront(q) + WrittenValues(q, |q.params|) + BindBack(q))
  }

  function WrittenExecute(q: Query): Octets {
    Sized(EXECUTE, 6 + JsLength(q.portal) + 4 - 1, ExecuteBody(q))
  }

  function WrittenClose(q: Query): Octets {
    Sized(CLOSE, 6 + JsLength(q.name), StatementBody(q))
  }

  function Parts(q: Query): seq<Octets>
    requires Sound(q)
  {
    [WrittenParse(q), WrittenDescribe(q), WrittenBind(q), WrittenExecute(q), EncodeFrame(SYNC, []),
     EncodeFrame(FLUSH, []), WrittenClose(q)]
  }

  predicate Fits(q: Query)
    requires Sound(q)
  {
    |Concat(Parts(q))| <= CAPACITY
  }

  predicate AsciiValues(q: Query, n: nat)
    requires Sound(q) && n <= |q.params|
  {
    forall i :: 0 <= i < n ==> IsBinary(q, i) || Ascii(q.params[i].text)
  }

  // ------------------------------------------------------------ length fields

  lemma {:induction false} SameParts(a: seq<Octets>, b: seq<Octets>)
    requires |a| == |b| && forall i :: 0 <= i < |a| ==> |a[i]| == |b[i]|
    ensures Concat(a) == Concat(b) <==> a == b
  {
    if a != [] {
      SameParts(a[1..], b[1..]);
      if Concat(a) == Concat(b) {
        var k := |a[0]|;
        assert Concat(a)[..k] == a[0] && Concat(a)[k..] == Concat(a[1..]);
        assert Concat(b)[..k] == b[0] && Concat(b)[k..] == Concat(b[1..]);
        assert a == [a[0]] + a[1..] && b == [b[0]] + b[1..];
      }
    }
  }

  lemma {:induction false} PartAt(parts: seq<Octets>, i: nat)
    requires i < |parts|
    ensures |parts[i]| <= |Concat(parts)|
  {
    if i > 0 { PartAt(parts[1..], i - 1); }
  }

  lemma SameField(m: nat, n: nat)
    requires m < 0x1_0000_0000 && n < 0x1_0000_0000
    ensures PutU32(m) == PutU32(n) <==> m == n
  {
    PutGetU32(m, [], []);
    PutGetU32(n, [], []);
    assert [] + PutU32(m) + [] == PutU32(m) && [] + PutU32(n) + [] == PutU32(n);
  }

  lemma SizedRight(kind: byte, size: nat, body: Octets)
    requires size <= |body| + 4 < 0x1_0000_0000
    ensures Sized(kind, size, body) == EncodeFrame(kind, body) <==> size == |body| + 4
  {
    SameField(size, |body| + 4);
    assert Sized(kind, size, body)[1..5] == PutU32(size);
    assert EncodeFrame(kind, body)[1..5] == PutU32(|body| + 4);
  }

  lemma ValueRight(p: Param, binary: bool)
    requires Utf8(p.text) && (!binary ==> |p.text| < 0x1_0000_0000)
    ensures WrittenValue(p, binary) == ValueOf(p, binary) <==> binary || Ascii(p.text)
  {
    hide Utf8, JsLength;
    LengthAgrees(p.text);
    if !binary {
      SameField(JsLength(p.text), |p.text|);
      assert WrittenValue(p, binary)[..4] == PutU32(JsLength(p.text));
      assert ValueOf(p, binary)[..4] == PutU32(|p.text|);
    }
  }

  lemma {:induction false} ValuesRight(q: Query, n: nat)
    requires Sound(q) && n <= |q.params| && |Values(q, n)| < 0x1_0000_0000
    ensures WrittenValues(q, n) == Values(q, n) <==> AsciiValues(q, n)
  {
    hide ValueOf, WrittenValue, Utf8, Ascii, IsBinary;
    if n > 0 {
      var p, binary := q.params[n - 1], IsBinary(q, n - 1);
      ValueSize(p, binary);
      assert |Values(q, n)| == |Values(q, n - 1)| + |ValueOf(p, binary)|;
      ValuesRight(q, n - 1);
      ValueRight(p, binary);
      var k := |Values(q, n - 1)|;
      assert Values(q, n)[..k] == Values(q, n - 1) && WrittenValues(q, n)[..k] == WrittenValues(q, n - 1);
      assert Values(q, n)[k..] == ValueOf(p, binary) && WrittenValues(q, n)[k..] == WrittenValue(p, binary);
    }
  }

  lemma ValueSize(p: Param, binary: bool)
    ensures !binary ==> |p.text| <= |ValueOf(p, binary)|
    ensures binary ==> |ValueOf(p, binary)| == 8
  {
  }

  predicate AsciiTexts(q: Query)
    requires Sound(q)
  {
    Ascii(q.name) && Ascii(q.sql) && Ascii(q.portal) && AsciiValues(q, |q.params|)
  }

  lemma NamesRight(q: Query)
    requires Utf8(q.name) && Utf8(q.sql) && Utf8(q.portal)
    requires |ParseBody(q)| <= CAPACITY && |ExecuteBody(q)| <= CAPACITY
    ensures WrittenParse(q) == EncodeFrame(PARSE, ParseBody(q)) <==> Ascii(q.name) && Ascii(q.sql)
    ensures WrittenDescribe(q) == EncodeFrame(DESCRIBE, StatementBody(q)) <==> Ascii(q.name)
    ensures WrittenExecute(q) == EncodeFrame(EXECUTE, ExecuteBody(q)) <==> Ascii(q.portal)
    ensures WrittenClose(q) == EncodeFrame(CLOSE, StatementBody(q)) <==> Ascii(q.name)
  {
    hide Utf8, JsLength, Ascii, Oids, EncodeFrame, Sized;
    LengthAgrees(q.name);
    LengthAgrees(q.sql);
    LengthAgrees(q.portal);
    SizedRight(PARSE, ParseSize(q), ParseBody(q));
    SizedRight(DESCRIBE, 7 + JsLength(q.name) - 1, StatementBody(q));
    SizedRight(EXECUTE, 6 + JsLength(q.portal) + 4 - 1, ExecuteBody(q));
    SizedRight(CLOSE, 6 + JsLength(q.name), StatementBody(q));
  }

  /** Message by message, what is written is what is needed exactly if the texts in it are ASCII. */
  lemma PartsRight(q: Query)
    requires Sound(q) && Fits(q)
    ensures |Parts(q)| == |Messages(q)| == 7 && forall i :: 0 <= i < 7 ==> |Parts(q)[i]| == |Messages(q)[i]|
    ensures Parts(q) == Messages(q) <==> AsciiTexts(q)
  {
    hide Utf8, ParseSize, JsLength, Ascii, ParseBody, StatementBody, ExecuteBody, BindFront, BindBack, Concat, Values,
      WrittenValues, AsciiValues, PutU32;
    PartAt(Parts(q), 0);
    PartAt(Parts(q), 2);
    PartAt(Parts(q), 3);
    NamesRight(q);
    BindRight(q);
    assert Parts(q) == Messages(q) <==> forall i :: 0 <= i < 7 ==> Parts(q)[i] == Messages(q)[i];
  }

  lemma BindRight(q: Query)
    requires Sound(q) && |WrittenBind(q)| <= CAPACITY
    ensures var proper := EncodeFrame(BIND, BindFront(q) + Values(q, |q.params|) + BindBack(q));
      && |WrittenBind(q)| == |proper|
      && (WrittenBind(q) == proper <==> AsciiValues(q, |q.params|))
  {
    hide Values, WrittenValues, AsciiValues, BindFront, BindBack;
    var f, v, w, b := BindFront(q), Values(q, |q.params|), WrittenValues(q, |q.params|), BindBack(q);
    ValuesRight(q, |q.params|);
    assert WrittenBind(q)[5 + |f|..][..|w|] == w;
    assert EncodeFrame(BIND, f + v + b)[5 + |f|..][..|v|] == v;
  }

  lemma {:induction false} FramesOfMessages(kinds: seq<byte>, bodies: seq<Octets>)
    requires |kinds| == |bodies| && forall i :: 0 <= i < |bodies| ==> |bodies[i]| < 0x1_0000_0000 - 4
    ensures var ms := seq(|kinds|, i requires 0 <= i < |kinds| => EncodeFrame(kinds[i], bodies[i]));
      Frames(Concat(ms)) == ms && Pending(Concat(ms)) == []
    decreases |kinds|
  {
    hide EncodeFrame, HasFrame, FrameSize;
    var ms := seq(|kinds|, i requires 0 <= i < |kinds| => EncodeFrame(kinds[i], bodies[i]));
    if kinds == [] {
      assert ms == [];
      NoFrame([]) by { NothingIsNoFrame(); }
    } else {
      FramesOfMessages(kinds[1..], bodies[1..]);
      var rest := seq(|kinds[1..]|, i requires 0 <= i < |kinds[1..]| => EncodeFrame(kinds[1..][i], bodies[1..][i]));
      assert ms[1..] == rest && ms == [ms[0]] + rest;
      OneFrame(kinds[0], bodies[0], Concat(rest));
    }
  }

  lemma NothingIsNoFrame()
    ensures !HasFrame([])
  {
  }

  /** A server that reads what was written finds the seven messages it needs exactly if all texts are ASCII. */
  lemma ServerReads(q: Query)
    requires Sound(q) && Fits(q)
    ensures Frames(Concat(Parts(q))) == Messages(q) <==> AsciiTexts(q)
  {
    hide Frames, Concat, AsciiTexts, Parts, Messages;
    var ps, ms := Parts(q), Messages(q);
    PartsRight(q);
    SameParts(ps, ms);
    MessageFrames(q);
    FramesPartition(Concat(ps));
    SameLength(ps, ms);
    if Frames(Concat(ps)) == ms {
      assert |Concat(ms)| == |Concat(ps)|;
      assert Concat(ps)[..|Concat(ms)|] == Concat(ms);
    }
  }

  lemma {:induction false} SameLength(a: seq<Octets>, b: seq<Octets>)
    requires |a| == |b| && forall i :: 0 <= i < |a| ==> |a[i]| == |b[i]|
    ensures |Concat(a)| == |Concat(b)|
  {
    if a != [] { SameLength(a[1..], b[1..]); }
  }

  lemma MessageFrames(q: Query)
    requires Sound(q) && Fits(q)
    ensures Frames(Concat(Messages(q))) == Messages(q)
  {
    hide Frames, Concat, ParseBody, StatementBody, ExecuteBody, BindFront, BindBack, Values, AsciiTexts, Pending;
    PartsRight(q);
    forall i | 0 <= i < 7 ensures |Messages(q)[i]| <= CAPACITY {
      PartAt(Parts(q), i);
      assert |Parts(q)[i]| == |Messages(q)[i]|;
    }
    var bind := BindFront(q) + Values(q, |q.params|) + BindBack(q);
    var kinds := [PARSE, DESCRIBE, BIND, EXECUTE, SYNC, FLUSH, CLOSE];
    var bodies := [ParseBody(q), StatementBody(q), bind, ExecuteBody(q), [], [], StatementBody(q)];
    forall i | 0 <= i < 7 ensures Messages(q)[i] == EncodeFrame(kinds[i], bodies[i]) && |bodies[i]| < CAPACITY {
    }
    FramesOfMessages(kinds, bodies);
    assert Messages(q) == seq(|kinds|, i requires 0 <= i < |kinds| => EncodeFrame(kinds[i], bodies[i]));
  }

  // ------------------------------------------------------------ patching

  /** Where the parameter values start. */
  function ParamStart(q: Query): nat {
    |WrittenParse(q)| + |WrittenDescribe(q)| + 5 + |BindFront(q)|
  }

  /** The numbers of `ps` stored over the values, as if each took eight octets. */
  function Patch(s: Octets, at: nat, ps: seq<Param>): (t: Octets)
    requires at + 8 * |ps| <= |s|
    ensures |t| == |s|
  {
    if ps == [] then s
    else
      var n := |ps| - 1;
      var t := Patch(s, at, ps[..n]);
      t[..at + 8 * n + 4] + PutU32(ps[n].number) + t[at + 8 * n + 8..]
  }

  /** The values as numbers of four octets. */
  function Numbers(ps: seq<Param>): (s: Octets)
    ensures |s| == 8 * |ps|
  {
    if ps == [] then [] else Numbers(ps[..|ps| - 1]) + (PutU32(4) + PutU32(ps[|ps| - 1].number))
  }

  lemma {:induction false} BinaryValues(q: Query, n: nat)
    requires n <= |q.params| && (q.params != [] ==> q.formats != []) && AllBinary(q)
    ensures WrittenValues(q, n) == Numbers(q.params[..n])
  {
    hide IsBinary;
    if n > 0 {
      BinaryValues(q, n - 1);
      assert q.params[..n][..n - 1] == q.params[..n - 1];
      assert IsBinary(q, n - 1);
    }
  }

  /** One number stored among the values. */
  lemma StoreNumber(front: Octets, ps: seq<Param>, n: nat, p: Param, back: Octets)
    requires n < |ps|
    ensures var t, k := front + Numbers(ps) + back, |front| + 8 * n;
      t[..k + 4] + PutU32(p.number) + t[k + 8..] == front + Numbers(ps[n := p]) + back
  {
    hide PutU32, Numbers;
    var x := Numbers(ps);
    NumbersAt(ps, n, p);
    var t, k := front + x + back, |front| + 8 * n;
    assert t[..k + 4] == front + x[..8 * n + 4];
    assert t[k + 8..] == x[8 * n + 8..] + back;
  }

  lemma TakesOver(ps: seq<Param>, qs: seq<Param>)
    requires 0 < |ps| <= |qs|
    ensures var n := |ps| - 1; ps + qs[n + 1..] == (ps[..n] + qs[n..])[n := ps[n]]
  {
  }

  lemma {:induction false} PatchNumbers(front: Octets, ps: seq<Param>, qs: seq<Param>, back: Octets)
    requires |ps| <= |qs|
    ensures Patch(front + Numbers(qs) + back, |front|, ps) == front + Numbers(ps + qs[|ps|..]) + back
    decreases |ps|
  {
    hide PutU32, Numbers;
    if ps == [] {
      assert ps + qs[|ps|..] == qs;
    } else {
      var n := |ps| - 1;
      var part := ps[..n] + qs[n..];
      PatchNumbers(front, ps[..n], qs, back);
      TakesOver(ps, qs);
      StoreNumber(front, part, n, ps[n], back);
    }
  }

  lemma {:induction false} NumbersAt(ps: seq<Param>, n: nat, p: Param)
    requires n < |ps|
    ensures Numbers(ps[n := p]) == Numbers(ps)[..8 * n + 4] + PutU32(p.number) + Numbers(ps)[8 * n + 8..]
    decreases |ps|
  {
    hide PutU32;
    var m, qs := |ps| - 1, ps[n := p];
    if n == m {
      assert qs[..m] == ps[..m];
    } else {
      assert qs[..m] == ps[..m][n := p];
      NumbersAt(ps[..m], n, p);
    }
  }

  /** What lies in front of the values, and behind them. */
  function Front(q: Query): Octets
    requires Sound(q)
  {
    WrittenParse(q) + WrittenDescribe(q) + [BIND]
      + PutU32(|BindFront(q) + WrittenValues(q, |q.params|) + BindBack(q)| + 4) + BindFront(q)
  }

  function Back(q: Query): Octets
    requires Sound(q)
  {
    BindBack(q) + WrittenExecute(q) + EncodeFrame(SYNC, []) + EncodeFrame(FLUSH, []) + WrittenClose(q)
  }

  lemma ConcatSeven(a: Octets, b: Octets, c: Octets, d: Octets, e: Octets, f: Octets, g: Octets)
    ensures Concat([a, b, c, d, e, f, g]) == a + b + c + d + e + f + g
  {
    assert [a, b, c, d, e, f, g] == [a] + [b] + [c] + [d] + [e] + [f] + [g];
    ConcatSnoc([], a);
    ConcatSnoc([a], b);
    ConcatSnoc([a] + [b], c);
    ConcatSnoc([a] + [b] + [c], d);
    ConcatSnoc([a] + [b] + [c] + [d], e);
    ConcatSnoc([a] + [b] + [c] + [d] + [e], f);
    ConcatSnoc([a] + [b] + [c] + [d] + [e] + [f], g);
    assert [] + [a] == [a];
  }

  lemma Regroup(a: Octets, b: Octets, x: Octets, f: Octets, v: Octets, g: Octets,
                d: Octets, e: Octets, h: Octets, c: Octets)
    ensures a + b + (x + (f + v + g)) + d + e + h + c == (a + b + x + f) + v + (g + d + e + h + c)
  {
    assert a + b + (x + (f + v + g)) == (a + b + x + f) + v + g;
  }

  lemma Halves(q: Query)
    requires Sound(q)
    ensures Concat(Parts(q)) == Front(q) + WrittenValues(q, |q.params|) + Back(q)
    ensures |Front(q)| == ParamStart(q)
  {
    hide BindFront, BindBack, WrittenParse, WrittenDescribe, WrittenExecute, WrittenClose, WrittenValues,
      PutU32, Concat;
    var f, v, g := BindFront(q), WrittenValues(q, |q.params|), BindBack(q);
    var x := [BIND] + PutU32(|f + v + g| + 4);
    assert WrittenBind(q) == x + (f + v + g);
    var sync, flush := EncodeFrame(SYNC, []), EncodeFrame(FLUSH, []);
    Regroup(WrittenParse(q), WrittenDescribe(q), x, f, v, g, WrittenExecute(q), sync, flush, WrittenClose(q));
    ConcatSeven(WrittenParse(q), WrittenDescribe(q), WrittenBind(q), WrittenExecute(q), sync, flush, WrittenClose(q));
    assert Front(q) == WrittenParse(q) + WrittenDescribe(q) + x + f;
  }

  lemma SameElsewhere(q: Query, ps: seq<Param>)
    requires |ps| == |q.params|
    ensures var r := q.(params := ps);
      && WrittenParse(r) == WrittenParse(q) && WrittenDescribe(r) == WrittenDescribe(q)
      && WrittenExecute(r) == WrittenExecute(q) && WrittenClose(r) == WrittenClose(q)
      && BindFront(r) == BindFront(q) && BindBack(r) == BindBack(q)
  {
    hide PutU32, PutU16, Oids, Shorts, JsLength, CString, Codes, Sized;
  }

  /** Only the values of a statement with other parameters differ, if those take as much room. */
  lemma OtherParams(q: Query, ps: seq<Param>)
    requires Sound(q) && |ps| == |q.params| && Sound(q.(params := ps))
    requires |WrittenValues(q.(params := ps), |ps|)| == |WrittenValues(q, |q.params|)|
    ensures Front(q.(params := ps)) == Front(q) && Back(q.(params := ps)) == Back(q)
  {
    hide PutU32, WrittenParse, WrittenDescribe, WrittenExecute, WrittenClose, BindFront, BindBack,
      WrittenValues, EncodeFrame;
    SameElsewhere(q, ps);
  }

  /** With numbers alone, patching a compiled statement is compiling it anew. */
  lemma PatchIsRecompile(q: Query, ps: seq<Param>)
    requires Sound(q) && AllBinary(q) && |ps| == |q.params| && Sound(q.(params := ps))
    ensures ParamStart(q) + 8 * |ps| <= |Concat(Parts(q))|
    ensures Patch(Concat(Parts(q)), ParamStart(q), ps) == Concat(Parts(q.(params := ps)))
  {
    hide Front, Back, Parts, Numbers, Patch, WrittenValues, ParamStart, IsBinary;
    var r := q.(params := ps);
    SameFormats(q, ps);
    BinaryValues(q, |q.params|);
    BinaryValues(r, |ps|);
    assert q.params[..|q.params|] == q.params && ps[..|ps|] == ps;
    Halves(q);
    Halves(r);
    OtherParams(q, ps);
    PatchNumbers(Front(q), ps, q.params, Back(q));
    assert ps + q.params[|ps|..] == ps;
  }

  lemma SameFormats(q: Query, ps: seq<Param>)
    requires |ps| == |q.params| && (ps != [] ==> q.formats != []) && AllBinary(q)
    ensures AllBinary(q.(params := ps))
  {
    forall i | 0 <= i < |ps| ensures IsBinary(q.(params := ps), i) { assert IsBinary(q, i); }
  }

  /** For any new values, patching does what compiling anew does. */
  ghost predicate PatchWorks(q: Query)
    requires Sound(q)
  {
    forall ps :: |ps| == |q.params| && Sound(q.(params := ps)) ==>
      && ParamStart(q) + 8 * |ps| <= |Concat(Parts(q))|
      && Patch(Concat(Parts(q)), ParamStart(q), ps) == Concat(Parts(q.(params := ps)))
  }

  lemma NoValues(q: Query)
    requires Sound(q)
    ensures WrittenValues(q, 0) == []
  {
  }

  lemma OneValue(q: Query, i: nat, before: Octets)
    requires Sound(q) && i < |q.params|
    ensures var v := WrittenValue(q.params[i], IsBinary(q, i));
      && |WrittenValues(q, i + 1)| == |WrittenValues(q, i)| + |v|
      && before + WrittenValues(q, i + 1) == before + WrittenValues(q, i) + v
  {
    hide WrittenValue, IsBinary;
  }

  lemma FormatOf(q: Query, i: nat)
    requires q.formats != []
    ensures IsBinary(q, i) == ((if i < |q.formats| then q.formats[i] else q.formats[0]).format == BINARY)
  {
  }

  lemma SameFormat(q: Query, r: Query, i: nat)
    requires q.formats != [] && r.formats == q.formats
    ensures IsBinary(r, i) == IsBinary(q, i)
  {
  }

  lemma TextSize(p: Param)
    ensures |WrittenValue(p, false)| == |p.text| + 4
  {
  }

  lemma {:induction false} OtherText(q: Query, k: nat, p: Param, n: nat)
    requires k < |q.params| && n <= |q.params| && q.formats != [] && !IsBinary(q, k)
    ensures var r := q.(params := q.params[k := p]);
      |WrittenValues(r, n)| == |WrittenValues(q, n)| + if k < n then |p.text| - |q.params[k].text| else 0
  {
    hide WrittenValue, ValueOf, IsBinary;
    if n > 0 {
      var r := q.(params := q.params[k := p]);
      OtherText(q, k, p, n - 1);
      SameFormat(q, r, n - 1);
      TextSize(p);
      TextSize(q.params[k]);
    }
  }

  /** A text in the place of another can need more or less room, which patching never makes. */
  lemma TextBreaks(q: Query, k: nat)
    requires Sound(q) && k < |q.params| && !IsBinary(q, k)
    ensures !PatchWorks(q)
  {
    hide Parts, Concat, IsBinary, Patch, ParamStart, WrittenValues;
    var p := Param(0, if q.params[k].text == [] then [48] else []);
    var ps := q.params[k := p];
    var r := q.(params := ps);
    assert Utf8(p.text) by { AnyDigit(); }
    assert Sound(r);
    OtherText(q, k, p, |ps|);
    SameElsewhere(q, ps);
    Halves(q);
    Halves(r);
    SameRoom(q, ps);
    assert |Concat(Parts(r))| != |Concat(Parts(q))|;
  }

  lemma AnyDigit()
    ensures Utf8([]) && Utf8([48])
  {
    assert |[48 as byte][1..]| == 0;
  }

  lemma SameRoom(q: Query, ps: seq<Param>)
    requires |ps| == |q.params| && Sound(q) && Sound(q.(params := ps))
    ensures ParamStart(q.(params := ps)) == ParamStart(q) && |Back(q.(params := ps))| == |Back(q)|
  {
    hide WrittenParse, WrittenDescribe, WrittenExecute, WrittenClose, BindFront, BindBack, EncodeFrame;
    SameElsewhere(q, ps);
  }

  /** Patching is right for any new values exactly if no parameter is sent as text. */
  lemma PatchExact(q: Query)
    requires Sound(q)
    ensures PatchWorks(q) <==> AllBinary(q)
  {
    hide Parts, Concat, IsBinary, Patch, ParamStart;
    if AllBinary(q) {
      forall ps | |ps| == |q.params| && Sound(q.(params := ps))
        ensures ParamStart(q) + 8 * |ps| <= |Concat(Parts(q))|
        ensures Patch(Concat(Parts(q)), ParamStart(q), ps) == Concat(Parts(q.(params := ps)))
      {
        PatchIsRecompile(q, ps);
      }
    } else {
      var k :| 0 <= k < |q.params| && !IsBinary(q, k);
      TextBreaks(q, k);
    }
  }

  // ------------------------------------------------------------ the code

  datatype Region = Region(start: nat, len: nat)

  /** What `compile` builds around its buffer. */
  class Statement {
    const buf: array<byte>
    const buffer: array<byte>   // calls that wait to be sent together
    var bufferOffset: nat
    var off: nat
    var prepare: Region
    var describe: Region
    var bind: Region
    var exec: Region
    var sync: Region
    var flush: Region
    var close: Region
    var paramStart: nat
    var size: nat
    ghost var text: Octets   // everything written

    ghost predicate Valid()
      reads `off, `text, buf
    {
      off <= buf.Length && buf[..off] == text
    }

    method SetUint8(x: byte)
      requires Valid() && off + 1 <= buf.Length
      modifies buf, `off, `text
      ensures Valid() && off == old(off) + 1 && text == old(text) + [x]
    {
      buf[off] := x;
      off := off + 1;
      text := text + [x];
    }

    method SetUint16(n: nat)
      requires Valid() && off + 2 <= buf.Length
      modifies buf, `off, `text
      ensures Valid() && off == old(off) + 2 && text == old(text) + PutU16(n)
    {
      var w := PutU16(n);
      buf[off], buf[off + 1] := w[0], w[1];
      off := off + 2;
      text := text + w;
    }

    method SetUint32(n: int)
      requires Valid() && off + 4 <= buf.Length
      modifies buf, `off, `text
      ensures Valid() && off == old(off) + 4 && text == old(text) + PutU32(n)
    {
      var w := PutU32(n);
      buf[off], buf[off + 1], buf[off + 2], buf[off + 3] := w[0], w[1], w[2], w[3];
      off := off + 4;
      text := text + w;
    }

    method WriteString(s: Octets)
      requires Valid() && off + |s| <= buf.Length
      modifies buf, `off, `text
      ensures Valid() && off == old(off) + |s| && text == old(text) + s
    {
      forall j | 0 <= j < |s| { buf[off + j] := s[j]; }
      off := off + |s|;
      assert forall j :: 0 <= j < |text| ==> buf[j] == text[j];
      text := text + s;
    }

    method WriteCString(s: Octets)
      requires Valid() && off + |s| + 1 <= buf.Length
      modifies buf, `off, `text
      ensures Valid() && off == old(off) + |s| + 1 && text == old(text) + CString(s)
    {
      hide Valid;
      ghost var before := text;
      WriteString(s);
      SetUint8(0);
      assert before + s + [0] == before + (s + [0]);
    }

    /** Room left for a number that is filled in later. */
    method Skip() returns (ghost hole: Octets)
      requires Valid() && off + 4 <= buf.Length
      modifies `off, `text
      ensures Valid() && off == old(off) + 4 && |hole| == 4 && text == old(text) + hole
    {
      hole := buf[off..off + 4];
      off := off + 4;
      text := text + hole;
    }

    /** `setUint32` at a place already written. */
    method PatchUint32(at: nat, n: int)
      requires Valid() && at + 4 <= |text|
      modifies buf, `text
      ensures Valid() && |text| == |old(text)| && text == old(text)[..at] + PutU32(n) + old(text)[at + 4..]
    {
      var w := PutU32(n);
      buf[at], buf[at + 1], buf[at + 2], buf[at + 3] := w[0], w[1], w[2], w[3];
      text := text[..at] + w + text[at + 4..];
    }

    method WriteOids(formats: seq<Format>)
      requires Valid() && off + 4 * |formats| <= buf.Length
      modifies buf, `off, `text
      ensures Valid() && off == old(off) + 4 * |formats| && text == old(text) + Oids(formats)
    {
      hide PutU32, Valid;
      for i := 0 to |formats|
        invariant Valid() && off == old(off) + 4 * i && text == old(text) + Oids(formats[..i])
      {
        SetUint32(formats[i].oid);
        assert formats[..i + 1][..i] == formats[..i];
      }
      assert formats[..|formats|] == formats;
    }

    method WriteShorts(codes: seq<nat>)
      requires Valid() && off + 2 * |codes| <= buf.Length
      modifies buf, `off, `text
      ensures Valid() && off == old(off) + 2 * |codes| && text == old(text) + Shorts(codes)
    {
      hide PutU16, Valid;
      for i := 0 to |codes|
        invariant Valid() && off == old(off) + 2 * i && text == old(text) + Shorts(codes[..i])
      {
        SetUint16(codes[i]);
        assert codes[..i + 1][..i] == codes[..i];
      }
      assert codes[..|codes|] == codes;
    }

    method WriteParse(q: Query)
      requires Valid() && off + |WrittenParse(q)| <= buf.Length
      modifies buf, `off, `text, `prepare
      ensures Valid() && off == old(off) + |WrittenParse(q)| && text == old(text) + WrittenParse(q)
      ensures prepare == Region(old(off), |WrittenParse(q)|)
    {
      hide PutU32, PutU16, Oids, JsLength, Valid, CString;
      CStringSize(q.name);
      CStringSize(q.sql);
      ghost var before, sql, n, oids := text, CString(q.sql), PutU16(|q.formats|), Oids(q.formats);
      var start := off;
      var len := 1 + 4 + JsLength(q.sql) + 1 + JsLength(q.name) + 1 + 2 + 4 * |q.formats|;
      SetUint8(PARSE);
      SetUint32(len - 1);
      WriteCString(q.name);
      WriteCString(q.sql);
      SetUint16(|q.formats|);
      WriteOids(q.formats);
      prepare := Region(start, off - start);
      Joins4(before, [PARSE], PutU32(len - 1), CString(q.name), sql, n, oids);
    }

    method WriteStatementName(kind: byte, size: nat, q: Query)
      requires Valid() && off + |StatementBody(q)| + 5 <= buf.Length
      modifies buf, `off, `text
      ensures Valid() && off == old(off) + |StatementBody(q)| + 5
      ensures text == old(text) + Sized(kind, size, StatementBody(q))
    {
      hide PutU32, Valid;
      ghost var before := text;
      SetUint8(kind);
      SetUint32(size);
      SetUint8(STATEMENT);
      WriteCString(q.name);
      Joins2(before, [kind], PutU32(size), [STATEMENT], CString(q.name));
    }

    method WriteDescribe(q: Query)
      requires Valid() && off + |WrittenDescribe(q)| <= buf.Length
      modifies buf, `off, `text, `describe
      ensures Valid() && off == old(off) + |WrittenDescribe(q)| && text == old(text) + WrittenDescribe(q)
      ensures describe == Region(old(off), |WrittenDescribe(q)|)
    {
      hide StatementBody, JsLength, PutU32, Valid;
      var start := off;
      var len := 7 + JsLength(q.name);
      WriteStatementName(DESCRIBE, len - 1, q);
      describe := Region(start, off - start);
    }

    method WriteClose(q: Query)
      requires Valid() && off + |WrittenClose(q)| <= buf.Length
      modifies buf, `off, `text, `close
      ensures Valid() && off == old(off) + |WrittenClose(q)| && text == old(text) + WrittenClose(q)
      ensures close == Region(old(off), |WrittenClose(q)|)
    {
      hide StatementBody, JsLength, PutU32, Valid;
      var start := off;
      WriteStatementName(CLOSE, 6 + JsLength(q.name), q);
      close := Region(start, off - start);
    }

    method WriteValue(p: Param, binary: bool)
      requires Valid() && off + |WrittenValue(p, binary)| <= buf.Length
      modifies buf, `off, `text
      ensures Valid() && off == old(off) + |WrittenValue(p, binary)| && text == old(text) + WrittenValue(p, binary)
    {
      hide PutU32, JsLength, Valid;
      ghost var before := text;
      if binary {
        SetUint32(4);
        SetUint32(p.number);
        assert before + PutU32(4) + PutU32(p.number) == before + (PutU32(4) + PutU32(p.number));
      } else {
        SetUint32(JsLength(p.text));
        WriteString(p.text);
        assert before + PutU32(JsLength(p.text)) + p.text == before + (PutU32(JsLength(p.text)) + p.text);
      }
    }

    method WriteValues(q: Query)
      requires Valid() && Sound(q) && off + |WrittenValues(q, |q.params|)| <= buf.Length
      modifies buf, `off, `text
      ensures Valid() && off == old(off) + |WrittenValues(q, |q.params|)|
      ensures text == old(text) + WrittenValues(q, |q.params|)
    {
      hide WrittenValue, WrittenValues, ValueOf, Utf8, Valid, IsBinary;
      ghost var before := text;
      NoValues(q);
      for i := 0 to |q.params|
        invariant Valid() && off == old(off) + |WrittenValues(q, i)| && text == before + WrittenValues(q, i)
      {
        ValuesGrow(q, i + 1, |q.params|);
        FormatOf(q, i);
        OneValue(q, i, before);
        var format := if i < |q.formats| then q.formats[i] else q.formats[0];
        WriteValue(q.params[i], format.format == BINARY);
      }
    }

    method WriteBindFront(q: Query)
      requires Valid() && off + |BindFront(q)| <= buf.Length
      modifies buf, `off, `text
      ensures Valid() && off == old(off) + |BindFront(q)| && text == old(text) + BindFront(q)
    {
      hide PutU16, Shorts, Codes, CString, Valid;
      CStringSize(q.portal);
      CStringSize(q.name);
      ghost var before, codes := text, Shorts(Codes(q.formats));
      if |q.portal| > 0 {
        WriteString(q.portal);
        SetUint8(0);
        WriteString(q.name);
        SetUint8(0);
      } else {
        SetUint8(0);
        WriteString(q.name);
        SetUint8(0);
      }
      TwoNames(before, q.portal, q.name);
      SetUint16(|q.formats|);
      WriteShorts(Codes(q.formats));
      SetUint16(|q.params|);
      Joins5(before, CString(q.portal), CString(q.name), PutU16(|q.formats|), codes, PutU16(|q.params|));
    }

    method WriteBindBack(q: Query)
      requires Valid() && off + |BindBack(q)| <= buf.Length
      modifies buf, `off, `text
      ensures Valid() && off == old(off) + |BindBack(q)| && text == old(text) + BindBack(q)
    {
      hide PutU16, Shorts, Valid;
      ghost var before := text;
      SetUint16(|q.fields|);
      WriteShorts(q.fields);
      assert before + PutU16(|q.fields|) + Shorts(q.fields) == before + (PutU16(|q.fields|) + Shorts(q.fields));
    }

    /** The Bind message, whose length is filled in once it is known. */
    method WriteBind(q: Query)
      requires Valid() && off == |text| && Sound(q) && off + |WrittenBind(q)| <= buf.Length
      modifies buf, `off, `text, `bind, `paramStart
      ensures Valid() && off == old(off) + |WrittenBind(q)| && text == old(text) + WrittenBind(q)
      ensures bind == Region(old(off), |WrittenBind(q)|) && paramStart == old(off) + 5 + |BindFront(q)|
    {
      hide PutU32, WrittenValues, BindFront, BindBack, Valid, Utf8;
      ghost var before, f, v, g := text, BindFront(q), WrittenValues(q, |q.params|), BindBack(q);
      var start := off;
      SetUint8(BIND);
      ghost var hole := Skip();
      WriteBindFront(q);
      paramStart := off;
      WriteValues(q);
      WriteBindBack(q);
      bind := Region(start, off - start);
      FillHole(before, hole, f, v, g, bind.len - 1);
      PatchUint32(bind.start + 1, bind.len - 1);
    }

    method WriteExecute(q: Query)
      requires Valid() && off + |WrittenExecute(q)| <= buf.Length
      modifies buf, `off, `text, `exec
      ensures Valid() && off == old(off) + |WrittenExecute(q)| && text == old(text) + WrittenExecute(q)
      ensures exec == Region(old(off), |WrittenExecute(q)|)
    {
      hide PutU32, JsLength, Valid;
      ghost var before := text;
      var start, len := off, 6 + JsLength(q.portal) + 4;
      SetUint8(EXECUTE);
      SetUint32(len - 1);
      ghost var head := text;
      if |q.portal| > 0 {
        WriteString(q.portal);
      }
      SetUint8(0);
      assert text == head + CString(q.portal);
      SetUint32(q.maxRows);
      exec := Region(start, off - start);
      Joins2(before, [EXECUTE], PutU32(len - 1), CString(q.portal), PutU32(q.maxRows));
    }

    method WriteBare(kind: byte) returns (r: Region)
      requires Valid() && off + 5 <= buf.Length
      modifies buf, `off, `text
      ensures Valid() && off == old(off) + 5 && text == old(text) + EncodeFrame(kind, []) && r == Region(old(off), 5)
    {
      hide PutU32, Valid;
      ghost var before := text;
      var start := off;
      SetUint8(kind);
      SetUint32(4);
      r := Region(start, off - start);
      assert before + [kind] + PutU32(4) == before + ([kind] + PutU32(4) + []);
    }

    /** The regions of the messages lie one behind another and fill the statement. */
    ghost predicate Tiled(q: Query)
      reads `prepare, `describe, `bind, `exec, `sync, `flush, `close, `size, `paramStart
      requires Sound(q)
    {
      && prepare == Region(0, |WrittenParse(q)|)
      && describe == Region(prepare.start + prepare.len, |WrittenDescribe(q)|)
      && bind == Region(describe.start + describe.len, |WrittenBind(q)|)
      && exec == Region(bind.start + bind.len, |WrittenExecute(q)|)
      && sync == Region(exec.start + exec.len, 5)
      && flush == Region(sync.start + sync.len, 5)
      && close == Region(flush.start + flush.len, |WrittenClose(q)|)
      && size == close.start + close.len
      && paramStart == ParamStart(q)
    }

    /** The buffer holds the compiled query. */
    ghost predicate Compiled(q: Query)
      reads this, buf
      requires Sound(q)
    {
      Valid() && off == size && text == Concat(Parts(q)) && Tiled(q)
    }

    /** `compile` */
    constructor (q: Query)
      requires Sound(q) && Fits(q)
      ensures Compiled(q) && fresh(buf) && fresh(buffer) && buffer != buf && bufferOffset == 0
    {
      buf := new byte[CAPACITY];
      buffer := new byte[4096];
      bufferOffset := 0;
      off, paramStart, size, text := 0, 0, 0, [];
      prepare, describe, bind, exec := Region(0, 0), Region(0, 0), Region(0, 0), Region(0, 0);
      sync, flush, close := Region(0, 0), Region(0, 0), Region(0, 0);
      new;
      Compile(q);
    }

    method Compile(q: Query)
      requires Sound(q) && Fits(q) && Valid() && text == [] && off == 0 && buf.Length == CAPACITY
      modifies this, buf
      ensures Compiled(q) && bufferOffset == old(bufferOffset)
    {
      hide WrittenParse, WrittenDescribe, WrittenBind, WrittenExecute, WrittenClose, Concat, Sound, EncodeFrame, Valid,
        ParamStart, Parts, BindFront;
      PartsAdd(q);
      WriteParse(q);
      WriteDescribe(q);
      WriteBind(q) by { assert off == |text|; }
      assert text == WrittenParse(q) + WrittenDescribe(q) + WrittenBind(q);
      WriteRest(q);
      size := off;
    }

    method WriteRest(q: Query)
      requires Valid() && off + |WrittenExecute(q)| + 10 + |WrittenClose(q)| <= buf.Length
      modifies buf, `off, `text, `exec, `sync, `flush, `close
      ensures Valid() && off == old(off) + |WrittenExecute(q)| + 10 + |WrittenClose(q)|
      ensures text == old(text) + WrittenExecute(q) + EncodeFrame(SYNC, []) + EncodeFrame(FLUSH, []) + WrittenClose(q)
      ensures exec == Region(old(off), |WrittenExecute(q)|) && sync == Region(exec.start + exec.len, 5)
      ensures flush == Region(sync.start + sync.len, 5)
      ensures close == Region(flush.start + flush.len, |WrittenClose(q)|) && off == close.start + close.len
    {
      hide WrittenExecute, WrittenClose, EncodeFrame, Valid;
      WriteExecute(q);
      sync := WriteBare(SYNC);
      flush := WriteBare(FLUSH);
      WriteClose(q);
    }

    /** Stores new numbers over the values. */
    method Store(ps: seq<Param>)
      requires Valid() && paramStart + 8 * |ps| <= |text|
      modifies buf, `text
      ensures Valid() && |text| == |old(text)| && text == Patch(old(text), paramStart, ps)
    {
      hide PutU32, Valid;
      ghost var whole := text;
      var off := paramStart;
      for i := 0 to |ps|
        invariant off == paramStart + 8 * i && Valid() && |text| == |whole|
        invariant text == Patch(whole, paramStart, ps[..i])
      {
        off := off + 4;
        PatchUint32(off, ps[i].number);
        off := off + 4;
        assert ps[..i + 1][..i] == ps[..i];
      }
      assert ps[..|ps|] == ps;
    }

    /** How much of the statement a call writes. */
    function Length(syncIt: bool, flushIt: bool): int
      reads this
    {
      (if flushIt then flush.start + flush.len
       else if syncIt then sync.start + sync.len
       else exec.start + exec.len) - bind.start
    }

    method Write(start: nat, len: nat) returns (sent: Octets)
      requires Valid() && start + len <= |text|
      ensures sent == text[start..start + len]
    {
      sent := buf[start..start + len];
      assert forall k :: 0 <= k < |text| ==> buf[k] == text[k];
    }

    method Send(q: Query, ps: seq<Param>, syncIt: bool, flushIt: bool) returns (sent: Octets)
      requires Sound(q) && Compiled(q) && paramStart + 8 * |ps| <= size
      modifies buf, `text
      ensures Valid() && |text| == size && text == Patch(Concat(Parts(q)), ParamStart(q), ps)
      ensures 0 <= Length(syncIt, flushIt) <= size - bind.start
      ensures sent == text[bind.start..bind.start + Length(syncIt, flushIt)]
    {
      hide Parts, Concat, Called, Patch, Tiled, Valid, ParamStart, WrittenParse, WrittenDescribe;
      Filled(q);
      Tiles(q, syncIt, flushIt);
      Store(ps);
      sent := Write(bind.start, Length(syncIt, flushIt));
    }

    /** `fun.call`: stores the new numbers, and writes from the Bind message on; with numbers alone, this sends
        what a statement compiled for the new values would send. */
    method Call(q: Query, ps: seq<Param>, syncIt: bool, flushIt: bool) returns (sent: Octets)
      requires Sound(q) && Compiled(q) && paramStart + 8 * |ps| <= size
      modifies buf, `text
      ensures Valid() && |text| == size && text == Patch(Concat(Parts(q)), ParamStart(q), ps)
      ensures 0 <= Length(syncIt, flushIt) <= size - bind.start
      ensures sent == text[bind.start..bind.start + Length(syncIt, flushIt)]
      ensures Renewed(q, ps) ==> Compiled(q.(params := ps)) && sent == Called(q.(params := ps), syncIt, flushIt)
    {
      hide Parts, Concat, Called, Patch, Tiled, Valid, ParamStart, Sound, Renewed;
      Filled(q);
      Tiles(q, syncIt, flushIt);
      sent := Send(q, ps, syncIt, flushIt);
      if Renewed(q, ps) {
        Anew(q, ps, syncIt, flushIt);
      }
    }

    /** `fun.append`: like `fun.call`, but behind the calls that wait already. */
    method Append(q: Query, ps: seq<Param>, syncIt: bool, flushIt: bool)
      requires Sound(q) && Compiled(q) && paramStart + 8 * |ps| <= size && buffer != buf
      requires bufferOffset + Length(syncIt, flushIt) <= buffer.Length
      modifies buf, `text, buffer, `bufferOffset
      ensures Valid() && |text| == size && text == Patch(Concat(Parts(q)), ParamStart(q), ps)
      ensures 0 <= Length(syncIt, flushIt) <= size - bind.start
      ensures bufferOffset == old(bufferOffset) + Length(syncIt, flushIt) <= buffer.Length
      ensures buffer[..bufferOffset]
           == old(buffer[..bufferOffset]) + text[bind.start..bind.start + Length(syncIt, flushIt)]
      ensures Renewed(q, ps) ==>
        (Compiled(q.(params := ps))
         && buffer[..bufferOffset] == old(buffer[..bufferOffset]) + Called(q.(params := ps), syncIt, flushIt))
    {
      hide Parts, Concat, Called, Patch, Tiled, Valid, ParamStart, Sound, Renewed;
      var sent := Call(q, ps, syncIt, flushIt);
      Gather(sent);
    }

    method Gather(octets: Octets)
      requires bufferOffset + |octets| <= buffer.Length
      modifies buffer, `bufferOffset
      ensures bufferOffset == old(bufferOffset) + |octets|
      ensures buffer[..bufferOffset] == old(buffer[..bufferOffset]) + octets
    {
      ghost var before := buffer[..bufferOffset];
      forall j | 0 <= j < |octets| { buffer[bufferOffset + j] := octets[j]; }
      bufferOffset := bufferOffset + |octets|;
      assert forall j :: 0 <= j < |before| ==> buffer[j] == before[j];
    }

    /** `fun.send`: what was appended, in order. */
    method SendAppended() returns (sent: Octets)
      requires bufferOffset <= buffer.Length
      modifies `bufferOffset
      ensures sent == old(buffer[..bufferOffset]) && bufferOffset == 0
    {
      sent := buffer[..bufferOffset];
      bufferOffset := 0;
    }

    lemma Anew(q: Query, ps: seq<Param>, syncIt: bool, flushIt: bool)
      requires Sound(q) && Renewed(q, ps) && Tiled(q)
      requires ParamStart(q) + 8 * |ps| <= |Concat(Parts(q))| && text == Patch(Concat(Parts(q)), ParamStart(q), ps)
      ensures var r := q.(params := ps);
        && Tiled(r) && text == Concat(Parts(r))
        && bind.start <= bind.start + Length(syncIt, flushIt) <= |text|
        && text[bind.start..bind.start + Length(syncIt, flushIt)] == Called(r, syncIt, flushIt)
    {
      hide Parts, Concat, Called, Patch, Tiled, ParamStart, Sound, WrittenParse, WrittenDescribe, AllBinary;
      PatchIsRecompile(q, ps);
      SameTiles(q, ps);
      Tiles(q.(params := ps), syncIt, flushIt);
      CalledIs(q.(params := ps), syncIt, flushIt);
    }

    lemma Tiles(q: Query, syncIt: bool, flushIt: bool)
      requires Sound(q) && Tiled(q)
      ensures bind.start == |WrittenParse(q)| + |WrittenDescribe(q)| && paramStart == ParamStart(q)
      ensures Length(syncIt, flushIt) == |Called(q, syncIt, flushIt)| && bind.start + Length(syncIt, flushIt) <= size
    {
      hide WrittenParse, WrittenDescribe, WrittenBind, WrittenExecute, WrittenClose, Sound;
    }

    lemma Filled(q: Query)
      requires Sound(q) && Compiled(q)
      ensures |text| == size
    {
    }

    lemma SameTiles(q: Query, ps: seq<Param>)
      requires Sound(q) && Sound(q.(params := ps)) && Tiled(q) && AllBinary(q) && |ps| == |q.params|
      ensures Tiled(q.(params := ps))
    {
      hide WrittenParse, WrittenDescribe, WrittenExecute, WrittenClose, BindFront, BindBack, WrittenValues, PutU32;
      SameElsewhere(q, ps);
      SameFormats(q, ps);
      BinaryValues(q, |ps|);
      BinaryValues(q.(params := ps), |ps|);
      assert q.params[..|ps|] == q.params && ps[..|ps|] == ps;
    }
  }

  /** New values for a statement whose parameters are all numbers. */
  predicate Renewed(q: Query, ps: seq<Param>)
    requires Sound(q)
  {
    AllBinary(q) && |ps| == |q.params| && Sound(q.(params := ps))
  }

  /** What a fresh statement would send: Bind and Execute, with Sync, and with Flush behind that. */
  function Called(q: Query, syncIt: bool, flushIt: bool): Octets
    requires Sound(q)
  {
    WrittenBind(q) + WrittenExecute(q)
      + (if flushIt then EncodeFrame(SYNC, []) + EncodeFrame(FLUSH, [])
         else if syncIt then EncodeFrame(SYNC, [])
         else [])
  }

  lemma CalledIs(q: Query, syncIt: bool, flushIt: bool)
    requires Sound(q)
    ensures var start := |WrittenParse(q)| + |WrittenDescribe(q)|;
      var end := start + |Called(q, syncIt, flushIt)|;
      end <= |Concat(Parts(q))| && Concat(Parts(q))[start..end] == Called(q, syncIt, flushIt)
  {
    hide WrittenParse, WrittenDescribe, WrittenBind, WrittenExecute, WrittenClose, Concat, Parts, Sound, EncodeFrame;
    PartsAdd(q);
    var x, y := WrittenParse(q) + WrittenDescribe(q), Called(q, syncIt, flushIt);
    var s, f, c := EncodeFrame(SYNC, []), EncodeFrame(FLUSH, []), WrittenClose(q);
    var z := if flushIt then c else if syncIt then f + c else s + f + c;
    assert Concat(Parts(q)) == x + y + z;
  }

  lemma CStringSize(s: Octets)
    ensures |CString(s)| == |s| + 1
  {
  }

  lemma Joins2(t: Octets, a: Octets, b: Octets, c: Octets, d: Octets)
    ensures t + a + b + c + d == t + (a + b + (c + d))
  {
  }

  lemma Joins4(t: Octets, a: Octets, b: Octets, c: Octets, d: Octets, e: Octets, f: Octets)
    ensures t + a + b + c + d + e + f == t + (a + b + (c + d + e + f))
  {
  }

  lemma Joins5(t: Octets, a: Octets, b: Octets, c: Octets, d: Octets, e: Octets)
    ensures t + a + b + c + d + e == t + (a + b + c + d + e)
  {
  }

  lemma TwoNames(t: Octets, a: Octets, b: Octets)
    ensures t + a + [0] + b + [0] == t + CString(a) + CString(b)
    ensures a == [] ==> t + [0] + b + [0] == t + CString(a) + CString(b)
  {
  }

  lemma FillHole(t: Octets, hole: Octets, f: Octets, v: Octets, g: Octets, len: nat)
    requires |hole| == 4 && len == 4 + |f + v + g|
    ensures var s := t + [BIND] + hole + f + v + g;
      s[..|t| + 1] + PutU32(len) + s[|t| + 5..] == t + EncodeFrame(BIND, f + v + g)
  {
    hide PutU32;
    var s := t + [BIND] + hole + f + v + g;
    assert s == t + [BIND] + hole + (f + v + g);
  }

  lemma {:induction false} ValuesGrow(q: Query, m: nat, n: nat)
    requires m <= n <= |q.params| && (q.params != [] ==> q.formats != [])
    ensures |WrittenValues(q, m)| <= |WrittenValues(q, n)|
    decreases n
  {
    hide WrittenValue, ValueOf, IsBinary;
    if m < n { ValuesGrow(q, m, n - 1); }
  }

  /** The sizes of the messages add up to the size of the statement. */
  lemma PartsAdd(q: Query)
    requires Sound(q)
    ensures Concat(Parts(q)) == WrittenParse(q) + WrittenDescribe(q) + WrittenBind(q) + WrittenExecute(q)
                                + EncodeFrame(SYNC, []) + EncodeFrame(FLUSH, []) + WrittenClose(q)
    ensures |Concat(Parts(q))| == |WrittenParse(q)| + |WrittenDescribe(q)| + |WrittenBind(q)| + |WrittenExecute(q)|
                                  + 10 + |WrittenClose(q)|
    ensures |EncodeFrame(SYNC, [])| == |EncodeFrame(FLUSH, [])| == 5
    ensures ParamStart(q) == |WrittenParse(q)| + |WrittenDescribe(q)| + 5 + |BindFront(q)|
  {
    ConcatSeven(WrittenParse(q), WrittenDescribe(q), WrittenBind(q), WrittenExecute(q), EncodeFrame(SYNC, []),
                EncodeFrame(FLUSH, []), WrittenClose(q));
  }
}
