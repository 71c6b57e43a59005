/** Messages of the server, laid out as section 55.7 of the PostgreSQL 16 documentation has them, and read back. */
module PgMessages {
  import opened Bytes
  import opened PgFrames

  /** The types as the documentation writes them. */
  lemma MessageTypes()
    ensures AUTHENTICATION as char == 'R' && ERROR_RESPONSE as char == 'E' && ROW_DESCRIPTION as char == 'T'
    ensures COMMAND_COMPLETE as char == 'C' && PARSE_COMPLETE as char == '1' && CLOSE_COMPLETE as char == '3'
    ensures BIND_COMPLETE as char == '2' && READY_FOR_QUERY as char == 'Z' && BACKEND_KEY_DATA as char == 'K'
    ensures PARAMETER_STATUS as char == 'S' && PARAMETER_DESCRIPTION as char == 't' && DATA_ROW as char == 'D'
    ensures NO_DATA as char == 'n'
  {
  }

  /** A character string ends in a zero octet. */
  predicate Plain(s: Octets) {
    Ascii(s) && 0 !in s
  }

  predicate Int16(n: int) {
    -0x8000 <= n < 0x8000
  }

  predicate Int32(n: int) {
    -0x8000_0000 <= n < 0x8000_0000
  }

  lemma Int16Back(n: int, rest: Octets)
    requires Int16(n)
    ensures Signed16(GetU16(PutU16(n) + rest, 0)) == n
  {
    hide PutU16, GetU16;
    var m: nat := n % 0x1_0000;
    SameHalf(n, m);
    assert [] + PutU16(m) + rest == PutU16(m) + rest;
    PutGetU16(m, [], rest);
  }

  lemma Int32Back(n: int, rest: Octets)
    requires Int32(n)
    ensures Signed32(GetU32(PutU32(n) + rest, 0)) == n
  {
    hide PutU32, GetU32;
    var m: nat := n % 0x1_0000_0000;
    SameWord(n, m);
    assert [] + PutU32(m) + rest == PutU32(m) + rest;
    PutGetU32(m, [], rest);
  }

  // ------------------------------------------------------------ RowDescription

  /** The column's name; the object ID of its table, its number in it, the object ID of its type, the size of
      that, the type modifier, and the format code. */
  function EncodeField(f: Field): Octets {
    f.name + [0] + PutU32(f.tid) + PutU16(f.attrib) + PutU32(f.oid) + PutU16(f.size) + PutU32(f.mod) + PutU16(f.format)
  }

  predicate ValidField(f: Field) {
    Plain(f.name) && Int32(f.tid) && Int16(f.attrib) && Int32(f.oid) && Int16(f.size) && Int32(f.mod) && Int16(f.format)
  }

  predicate ValidFields(fs: seq<Field>) {
    |fs| < 0x8000 && forall i :: 0 <= i < |fs| ==> ValidField(fs[i])
  }

  function EncodeFields(fs: seq<Field>): seq<Octets> {
    seq(|fs|, i requires 0 <= i < |fs| => EncodeField(fs[i]))
  }

  /** The number of columns, and then one after another. */
  function RowDescription(fs: seq<Field>): Octets {
    PutU16(|fs|) + Concat(EncodeFields(fs))
  }

  lemma Later(s: Octets, k: nat)
    requires k <= |s|
    ensures k + 2 <= |s| ==> GetU16(s[k..], 0) == GetU16(s, k)
    ensures k + 4 <= |s| ==> GetU32(s[k..], 0) == GetU32(s, k)
  {
  }

  lemma Behind(s: Octets, k: nat, w: Octets, rest: Octets)
    requires k <= |s| && s[k..] == w + rest
    ensures k + |w| <= |s| && s[k + |w|..] == rest
  {
    assert s[k + |w|..] == s[k..][|w|..];
  }

  lemma WordsBack(a: int, b: int, c: int, d: int, e: int, f: int, rest: Octets)
    requires Int32(a) && Int16(b) && Int32(c) && Int16(d) && Int32(e) && Int16(f)
    ensures var s := PutU32(a) + PutU16(b) + PutU32(c) + PutU16(d) + PutU32(e) + PutU16(f) + rest;
      && Signed32(GetU32(s, 0)) == a && Signed16(GetU16(s, 4)) == b && Signed32(GetU32(s, 6)) == c
      && Signed16(GetU16(s, 10)) == d && Signed32(GetU32(s, 12)) == e && Signed16(GetU16(s, 16)) == f
  {
    hide PutU16, PutU32, GetU16, GetU32, Signed16, Signed32;
    var t5 := PutU16(f) + rest;
    var t4 := PutU32(e) + t5;
    var t3 := PutU16(d) + t4;
    var t2 := PutU32(c) + t3;
    var t1 := PutU16(b) + t2;
    var s := PutU32(a) + PutU16(b) + PutU32(c) + PutU16(d) + PutU32(e) + PutU16(f) + rest;
    assert s[0..] == s == PutU32(a) + t1;
    Behind(s, 0, PutU32(a), t1);
    Behind(s, 4, PutU16(b), t2);
    Behind(s, 6, PutU32(c), t3);
    Behind(s, 10, PutU16(d), t4);
    Behind(s, 12, PutU32(e), t5);
    Int32Back(a, t1);
    Int16Back(b, t2);
    Later(s, 4);
    Int32Back(c, t3);
    Later(s, 6);
    Int16Back(d, t4);
    Later(s, 10);
    Int32Back(e, t5);
    Later(s, 12);
    Int16Back(f, rest);
    Later(s, 16);
  }

  lemma FieldBack(f: Field, rest: Octets)
    requires ValidField(f)
    ensures ReadField(EncodeField(f) + rest) == Some((f, rest))
  {
    hide PutU16, PutU32, GetU16, GetU32, Signed16, Signed32, ZeroAt, ReadCString;
    var words := PutU32(f.tid) + PutU16(f.attrib) + PutU32(f.oid) + PutU16(f.size) + PutU32(f.mod) + PutU16(f.format);
    assert EncodeField(f) + rest == f.name + [0] + (words + rest);
    ReadText(f.name, words + rest);
    WordsBack(f.tid, f.attrib, f.oid, f.size, f.mod, f.format, rest);
    assert (words + rest)[18..] == rest;
  }

  lemma {:induction false} FieldsBack(fs: seq<Field>, rest: Octets)
    requires forall i :: 0 <= i < |fs| ==> ValidField(fs[i])
    ensures ReadFields(Concat(EncodeFields(fs)) + rest, |fs|) == Some((fs, rest))
  {
    hide EncodeField, ReadField, ValidField;
    if fs == [] {
      assert Concat(EncodeFields(fs)) + rest == rest;
    } else {
      var more := fs[1..];
      assert EncodeFields(fs)[1..] == EncodeFields(more);
      FieldBack(fs[0], Concat(EncodeFields(more)) + rest);
      FieldsBack(more, rest);
      assert Concat(EncodeFields(fs)) + rest == EncodeField(fs[0]) + (Concat(EncodeFields(more)) + rest);
      assert [fs[0]] + more == fs;
    }
  }

  /** A RowDescription is well formed, and its columns are read back, member by member and in order. */
  lemma RowDescriptionBack(fs: seq<Field>)
    requires ValidFields(fs)
    ensures var b := RowDescription(fs);
      && WellFormedBody(ROW_DESCRIPTION, b)
      && ReadFields(b[2..], Max0(Signed16(GetU16(b, 0)))) == Some((fs, []))
  {
    hide PutU16, GetU16, Signed16, ReadFields, EncodeFields, ValidField;
    var all := Concat(EncodeFields(fs));
    Int16Back(|fs|, all);
    FieldsBack(fs, []);
    assert RowDescription(fs)[2..] == all + [];
  }

  // ------------------------------------------------------------ ErrorResponse

  /** A code that is not zero, and its text; at the end a zero octet. */
  function ErrorResponse(es: seq<ErrorField>): Octets {
    if es == [] then [0] else [es[0].kind] + es[0].text + [0] + ErrorResponse(es[1..])
  }

  predicate ValidErrors(es: seq<ErrorField>) {
    forall i :: 0 <= i < |es| ==> es[i].kind != 0 && Plain(es[i].text)
  }

  lemma ErrorFirst(e: ErrorField, rest: Octets, es: seq<ErrorField>)
    requires e.kind != 0 && Plain(e.text) && ReadErrors(rest) == Some((es, []))
    ensures ReadErrors([e.kind] + e.text + [0] + rest) == Some(([e] + es, []))
  {
    hide ReadCString;
    var s := [e.kind] + e.text + [0] + rest;
    ReadText(e.text, rest);
    assert s[1..] == e.text + [0] + rest;
  }

  lemma NoError(s: Octets)
    requires s == [0]
    ensures ReadErrors(s) == Some(([], []))
  {
    assert |s[1..]| == 0;
  }

  /** An ErrorResponse is well formed, and its fields are read back, in order. */
  lemma {:induction false} ErrorResponseBack(es: seq<ErrorField>)
    requires ValidErrors(es)
    ensures ReadErrors(ErrorResponse(es)) == Some((es, [])) && WellFormedBody(ERROR_RESPONSE, ErrorResponse(es))
  {
    hide ReadErrors, Plain;
    if es == [] {
      NoError(ErrorResponse(es));
    } else {
      ErrorResponseBack(es[1..]);
      ErrorFirst(es[0], ErrorResponse(es[1..]), es[1..]);
      assert [es[0]] + es[1..] == es;
    }
  }

  // ------------------------------------------------------------ ParameterStatus and ParameterDescription

  function ParameterStatus(key: Octets, val: Octets): Octets {
    key + [0] + val + [0]
  }

  lemma ParameterStatusBack(key: Octets, val: Octets)
    requires Plain(key) && Plain(val)
    ensures var b := ParameterStatus(key, val); var k := ReadCString(b);
      && WellFormedBody(PARAMETER_STATUS, b)
      && k.Some? && k.value.0 == key && ReadCString(k.value.1) == Some((val, []))
  {
    hide ReadCString;
    assert ParameterStatus(key, val) == key + [0] + (val + [0] + []);
    ReadText(key, val + [0] + []);
    ReadText(val, []);
  }

  /** The number of parameters, and the object ID of the type of each. */
  function ParameterDescription(oids: seq<nat>): Octets {
    PutU16(|oids|) + Concat(seq(|oids|, i requires 0 <= i < |oids| => PutU32(oids[i])))
  }

  predicate ValidOids(oids: seq<nat>) {
    |oids| < 0x8000 && forall i :: 0 <= i < |oids| ==> oids[i] < 0x1_0000_0000
  }

  lemma {:induction false} WordsAt(front: Octets, oids: seq<nat>, i: nat)
    requires ValidOids(oids) && i < |oids|
    ensures var s := front + Concat(seq(|oids|, j requires 0 <= j < |oids| => PutU32(oids[j])));
      |s| == |front| + 4 * |oids| && GetU32(s, |front| + 4 * i) == oids[i]
    decreases |oids|
  {
    hide PutU32, GetU32;
    var words := seq(|oids|, j requires 0 <= j < |oids| => PutU32(oids[j]));
    var more := seq(|oids[1..]|, j requires 0 <= j < |oids[1..]| => PutU32(oids[1..][j]));
    assert words[1..] == more && words[0] == PutU32(oids[0]);
    var s := front + Concat(words);
    assert s == front + PutU32(oids[0]) + Concat(more);
    if i == 0 {
      PutGetU32(oids[0], front, Concat(more));
      if |oids| > 1 { WordsAt(front + PutU32(oids[0]), oids[1..], 0); } else { assert |more| == 0; }
    } else {
      WordsAt(front + PutU32(oids[0]), oids[1..], i - 1);
    }
  }

  /** A ParameterDescription is well formed, and type `i` is where it is looked for. */
  lemma ParameterDescriptionBack(oids: seq<nat>)
    requires ValidOids(oids)
    ensures var b := ParameterDescription(oids);
      && WellFormedBody(PARAMETER_DESCRIPTION, b) && |b| == 2 + 4 * |oids|
      && forall i :: 0 <= i < |oids| ==> GetU32(b, 2 + 4 * i) == oids[i]
  {
    hide PutU16, GetU16, PutU32, GetU32, Signed16;
    var words := seq(|oids|, j requires 0 <= j < |oids| => PutU32(oids[j]));
    Int16Back(|oids|, Concat(words));
    if oids == [] { assert |words| == 0; }
    forall i | 0 <= i < |oids| ensures |ParameterDescription(oids)| == 2 + 4 * |oids|
      && GetU32(ParameterDescription(oids), 2 + 4 * i) == oids[i]
    {
      WordsAt(PutU16(|oids|), oids, i);
    }
    if oids != [] { WordsAt(PutU16(|oids|), oids, 0); }
  }

  // ------------------------------------------------------------ the others

  /** A request for an MD5 password carries a salt, and the other requests that are modelled carry nothing. */
  lemma AuthenticationBack(request: nat, salt: Octets)
    requires request < 0x8000_0000 && |salt| == if request == 5 then 4 else 0
    ensures WellFormedBody(AUTHENTICATION, PutU32(request) + salt)
  {
    hide PutU32, GetU32, Signed32;
    Int32Back(request, salt);
  }

  /** Whatever has a body that is accepted is accepted as a frame: the types with a body of their own above, one octet
      for ReadyForQuery, two words for BackendKeyData, and any body for any other type. */
  lemma Accepted(kind: byte, body: Octets)
    requires |body| < 0x1_0000_0000 - 4
    ensures WellFormedFrame(EncodeFrame(kind, body)) <==> WellFormedBody(kind, body)
    ensures kind == READY_FOR_QUERY ==> (WellFormedBody(kind, body) <==> |body| == 1)
    ensures kind == BACKEND_KEY_DATA ==> (WellFormedBody(kind, body) <==> |body| == 8)
    ensures kind as char !in "RETStZK" ==> WellFormedBody(kind, body)
  {
    hide ReadErrors, ReadFields, ReadCString, Signed16, Signed32, GetU16;
    OneFrame(kind, body, []);
    SizeOf(kind, body);
  }

  lemma SizeOf(kind: byte, body: Octets)
    requires |body| < 0x1_0000_0000 - 4
    ensures FrameSize(EncodeFrame(kind, body)) == |EncodeFrame(kind, body)|
  {
    hide PutU32, GetU32;
    PutGetU32(|body| + 4, [kind], body);
  }
}
