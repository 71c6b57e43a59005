/** The server's side of a compiled statement: each message read as section 55.7 of the PostgreSQL 16 documentation
    lays it out, and what it says. */
module PgServer {
  import opened Bytes
  import opened PgFrames
  import opened PgCompile

  // ------------------------------------------------------------ reading

  /** `n` 16-bit integers, and what follows. */
  function ReadHalves(s: Octets, n: nat): Option<(seq<nat>, Octets)> {
    if n == 0 then Some(([], s))
    else if |s| < 2 then None
    else
      var r := ReadHalves(s[2..], n - 1);
      if r.None? then None else Some(([GetU16(s, 0)] + r.value.0, r.value.1))
  }

  /** `n` 32-bit integers, and what follows. */
  function ReadWords(s: Octets, n: nat): Option<(seq<nat>, Octets)> {
    if n == 0 then Some(([], s))
    else if |s| < 4 then None
    else
      var r := ReadWords(s[4..], n - 1);
      if r.None? then None else Some(([GetU32(s, 0)] + r.value.0, r.value.1))
  }

  /** `n` values, each with its length in front, and what follows. */
  function ReadValues(s: Octets, n: nat): Option<(seq<Octets>, Octets)> {
    if n == 0 then Some(([], s))
    else if |s| < 4 || |s| - 4 < GetU32(s, 0) then None
    else
      var end := 4 + GetU32(s, 0);
      var r := ReadValues(s[end..], n - 1);
      if r.None? then None else Some(([s[4..end]] + r.value.0, r.value.1))
  }

  datatype Prepared = Prepared(name: Octets, sql: Octets, oids: seq<nat>)

  /** Parse: the statement's name, the query, and the types of the parameters. */
  function ReadParse(b: Octets): Option<Prepared> {
    var name := ReadCString(b);
    if name.None? then None
    else
      var sql := ReadCString(name.value.1);
      if sql.None? || |sql.value.1| < 2 then None
      else
        var oids := ReadWords(sql.value.1[2..], GetU16(sql.value.1, 0));
        if oids.Some? && oids.value.1 == [] then Some(Prepared(name.value.0, sql.value.0, oids.value.0)) else None
  }

  datatype Bound = Bound(portal: Octets, name: Octets, formats: seq<nat>, values: seq<Octets>, results: seq<nat>)

  /** Bind: the portal's name, the statement's, the parameters' formats, their values, and the formats of the
      results. */
  function ReadBind(b: Octets): Option<Bound> {
    var portal := ReadCString(b);
    if portal.None? then None
    else
      var name := ReadCString(portal.value.1);
      if name.None? || |name.value.1| < 2 then None
      else
        var formats := ReadHalves(name.value.1[2..], GetU16(name.value.1, 0));
        if formats.None? || |formats.value.1| < 2 then None
        else
          var values := ReadValues(formats.value.1[2..], GetU16(formats.value.1, 0));
          if values.None? || |values.value.1| < 2 then None
          else
            var results := ReadHalves(values.value.1[2..], GetU16(values.value.1, 0));
            if results.Some? && results.value.1 == [] then
              Some(Bound(portal.value.0, name.value.0, formats.value.0, values.value.0, results.value.0))
            else None
  }

  /** Execute: the portal's name, and how many rows to return. */
  function ReadExecute(b: Octets): Option<(Octets, nat)> {
    var portal := ReadCString(b);
    if portal.None? || |portal.value.1| != 4 then None else Some((portal.value.0, GetU32(portal.value.1, 0)))
  }

  /** Describe and Close: an octet for the kind of object, and its name. */
  function ReadNamed(b: Octets): Option<(byte, Octets)> {
    if b == [] then None
    else
      var name := ReadCString(b[1..]);
      if name.None? || name.value.1 != [] then None else Some((b[0], name.value.0))
  }

  // ------------------------------------------------------------ what was written

  /** Names and texts that a zero octet can end, and numbers that fit their fields. */
  predicate Sayable(q: Query) {
    && 0 !in q.name && 0 !in q.sql && 0 !in q.portal && q.maxRows < 0x1_0000_0000
    && |q.formats| < 0x1_0000 && |q.params| < 0x1_0000 && |q.fields| < 0x1_0000
    && (forall f :: f in q.formats ==> f.oid < 0x1_0000_0000 && f.format < 0x1_0000)
    && (forall p :: p in q.params ==> |p.text| < 0x8000_0000)
    && (forall i :: 0 <= i < |q.fields| ==> q.fields[i] < 0x1_0000)
  }

  lemma TextBack(text: Octets, rest: Octets)
    requires 0 !in text
    ensures ReadCString(CString(text) + rest) == Some((text, rest))
  {
    ReadText(text, rest);
  }

  lemma HalfBack(n: nat, rest: Octets)
    requires n < 0x1_0000
    ensures var s := PutU16(n) + rest; GetU16(s, 0) == n && s[2..] == rest
  {
    PutGetU16(n, [], rest);
    assert [] + PutU16(n) + rest == PutU16(n) + rest;
  }

  lemma WordBack(n: nat, rest: Octets)
    requires n < 0x1_0000_0000
    ensures var s := PutU32(n) + rest; GetU32(s, 0) == n && s[4..] == rest
  {
    hide PutU32, GetU32;
    PutGetU32(n, [], rest);
    assert [] + PutU32(n) + rest == PutU32(n) + rest;
  }

  function OidsOf(formats: seq<Format>): seq<nat> {
    seq(|formats|, i requires 0 <= i < |formats| => formats[i].oid)
  }

  lemma {:induction false} OidsFirst(f: Format, formats: seq<Format>)
    ensures Oids([f] + formats) == PutU32(f.oid) + Oids(formats)
    decreases |formats|
  {
    hide PutU32;
    var all := [f] + formats;
    if formats == [] {
      assert Oids(all[..0]) == [];
    } else {
      assert all[..|all| - 1] == [f] + formats[..|formats| - 1];
      OidsFirst(f, formats[..|formats| - 1]);
    }
  }

  lemma {:induction false} OidsBack(formats: seq<Format>, rest: Octets)
    requires forall f :: f in formats ==> f.oid < 0x1_0000_0000
    ensures ReadWords(Oids(formats) + rest, |formats|) == Some((OidsOf(formats), rest))
    decreases |formats|
  {
    hide PutU32, GetU32, Oids;
    if formats == [] {
      assert Oids(formats) + rest == rest;
    } else {
      var more := formats[1..];
      assert formats == [formats[0]] + more;
      OidsFirst(formats[0], more);
      assert Oids(formats) + rest == PutU32(formats[0].oid) + (Oids(more) + rest);
      WordBack(formats[0].oid, Oids(more) + rest);
      OidsBack(more, rest);
      assert OidsOf(formats) == [formats[0].oid] + OidsOf(more);
    }
  }

  lemma {:induction false} ShortsFirst(c: nat, codes: seq<nat>)
    ensures Shorts([c] + codes) == PutU16(c) + Shorts(codes)
    decreases |codes|
  {
    hide PutU16;
    var all := [c] + codes;
    if codes == [] {
      assert Shorts(all[..0]) == [];
    } else {
      assert all[..|all| - 1] == [c] + codes[..|codes| - 1];
      ShortsFirst(c, codes[..|codes| - 1]);
    }
  }

  lemma {:induction false} ShortsBack(codes: seq<nat>, rest: Octets)
    requires forall i :: 0 <= i < |codes| ==> codes[i] < 0x1_0000
    ensures ReadHalves(Shorts(codes) + rest, |codes|) == Some((codes, rest))
    decreases |codes|
  {
    hide PutU16, GetU16, Shorts;
    if codes == [] {
      assert Shorts(codes) + rest == rest;
    } else {
      var more := codes[1..];
      assert codes == [codes[0]] + more && forall i :: 0 <= i < |more| ==> more[i] == codes[i + 1];
      ShortsFirst(codes[0], more);
      assert Shorts(codes) + rest == PutU16(codes[0]) + (Shorts(more) + rest);
      HalfBack(codes[0], Shorts(more) + rest);
      ShortsBack(more, rest);
    }
  }

  /** The octets of parameter `i`: its number in four, or its text. */
  function ValueBytes(q: Query, i: nat): Octets
    requires i < |q.params| && q.formats != []
  {
    if IsBinary(q, i) then PutU32(q.params[i].number) else q.params[i].text
  }

  function ValuesFrom(q: Query, i: nat): seq<Octets>
    requires i <= |q.params| && (q.params != [] ==> q.formats != [])
    decreases |q.params| - i
  {
    if i == |q.params| then [] else [ValueBytes(q, i)] + ValuesFrom(q, i + 1)
  }

  lemma ValueBack(q: Query, i: nat, rest: Octets)
    requires i < |q.params| && q.formats != [] && |q.params[i].text| < 0x8000_0000
    ensures var s := ValueOf(q.params[i], IsBinary(q, i)) + rest; var v := ValueBytes(q, i);
      4 + |v| <= |s| && GetU32(s, 0) == |v| && s[4..4 + |v|] == v && s[4 + |v|..] == rest
  {
    hide PutU32, GetU32, IsBinary;
    var v := ValueBytes(q, i);
    var s := ValueOf(q.params[i], IsBinary(q, i)) + rest;
    assert s == PutU32(|v|) + (v + rest);
    WordBack(|v|, v + rest);
    assert s[4..4 + |v|] == s[4..][..|v|] == v && s[4 + |v|..] == s[4..][|v|..] == rest;
  }

  lemma NextPart(all: Octets, front: Octets, v: Octets, rest: Octets)
    requires front + v <= all
    ensures all[|front|..] + rest == v + (all[|front + v|..] + rest)
  {
    assert all == front + v + all[|front + v|..];
  }

  /** What stands between the values before `i` and those before `n`. */
  lemma {:induction false} ValuesBack(q: Query, i: nat, front: Octets, rest: Octets)
    requires i <= |q.params| && (q.params != [] ==> q.formats != []) && front == Values(q, i)
    requires forall p :: p in q.params ==> |p.text| < 0x8000_0000
    ensures front <= Values(q, |q.params|)
    ensures ReadValues(Values(q, |q.params|)[|front|..] + rest, |q.params| - i) == Some((ValuesFrom(q, i), rest))
    decreases |q.params| - i
  {
    hide PutU32, GetU32, IsBinary, ValueBytes, ValueOf;
    var all := Values(q, |q.params|);
    if i == |q.params| {
      assert all[|front|..] + rest == rest;
    } else {
      var v := ValueOf(q.params[i], IsBinary(q, i));
      assert Values(q, i + 1) == front + v;
      ValuesBack(q, i + 1, front + v, rest);
      NextPart(all, front, v, rest);
      ValueBack(q, i, all[|front + v|..] + rest);
    }
  }

  /** Parse says the name, the query, and the type of each parameter in its place. */
  lemma ParseRead(q: Query)
    requires Sayable(q)
    ensures ReadParse(ParseBody(q)) == Some(Prepared(q.name, q.sql, OidsOf(q.formats)))
  {
    hide PutU16, GetU16, ReadCString, CString, Oids, ReadWords;
    var words := Oids(q.formats);
    assert ParseBody(q) == CString(q.name) + (CString(q.sql) + (PutU16(|q.formats|) + words));
    TextBack(q.name, CString(q.sql) + (PutU16(|q.formats|) + words));
    TextBack(q.sql, PutU16(|q.formats|) + words);
    HalfBack(|q.formats|, words);
    OidsBack(q.formats, []);
    assert words + [] == words;
  }

  lemma BindRest(q: Query)
    requires Sayable(q)
    ensures var b := BindBack(q);
      2 <= |b| && ReadHalves(b[2..], GetU16(b, 0)) == Some((q.fields, []))
  {
    hide PutU16, GetU16, Shorts, ReadHalves;
    HalfBack(|q.fields|, Shorts(q.fields));
    ShortsBack(q.fields, []);
    assert Shorts(q.fields) + [] == Shorts(q.fields);
  }

  lemma BindValues(q: Query, back: Octets)
    requires Sound(q) && Sayable(q)
    ensures var s := PutU16(|q.params|) + (Values(q, |q.params|) + back);
      2 <= |s| && ReadValues(s[2..], GetU16(s, 0)) == Some((ValuesFrom(q, 0), back))
  {
    hide PutU16, GetU16, ReadValues;
    var all := Values(q, |q.params|);
    HalfBack(|q.params|, all + back);
    ValuesBack(q, 0, Values(q, 0), back);
    assert all[0..] == all;
  }

  lemma BindFormats(q: Query, rest: Octets)
    requires Sayable(q)
    ensures var s := PutU16(|q.formats|) + (Shorts(Codes(q.formats)) + rest);
      2 <= |s| && ReadHalves(s[2..], GetU16(s, 0)) == Some((Codes(q.formats), rest))
  {
    hide PutU16, GetU16, ReadHalves, Shorts;
    HalfBack(|q.formats|, Shorts(Codes(q.formats)) + rest);
    assert forall i :: 0 <= i < |q.formats| ==> q.formats[i] in q.formats;
    ShortsBack(Codes(q.formats), rest);
  }

  lemma Nested(a: Octets, b: Octets, c: Octets, d: Octets, e: Octets, f: Octets, g: Octets)
    ensures a + b + c + d + e + f + g == a + (b + (c + (d + (e + (f + g)))))
  {
  }

  /** Bind says the portal, the statement, the format of each parameter, its value, and the result formats. */
  lemma BindRead(q: Query)
    requires Sound(q) && Sayable(q)
    ensures ReadBind(BindFront(q) + Values(q, |q.params|) + BindBack(q))
         == Some(Bound(q.portal, q.name, Codes(q.formats), ValuesFrom(q, 0), q.fields))
  {
    hide PutU16, GetU16, ReadCString, CString, Shorts, ReadHalves, ReadValues, Values, BindBack;
    var values := PutU16(|q.params|) + (Values(q, |q.params|) + BindBack(q));
    var formats := PutU16(|q.formats|) + (Shorts(Codes(q.formats)) + values);
    Nested(CString(q.portal), CString(q.name), PutU16(|q.formats|), Shorts(Codes(q.formats)), PutU16(|q.params|),
           Values(q, |q.params|), BindBack(q));
    TextBack(q.portal, CString(q.name) + formats);
    TextBack(q.name, formats);
    BindFormats(q, values);
    BindValues(q, BindBack(q));
    BindRest(q);
  }

  lemma {:induction false} ValuesCount(q: Query, from: nat)
    requires from <= |q.params| && (q.params != [] ==> q.formats != [])
    ensures |ValuesFrom(q, from)| == |q.params| - from
    decreases |q.params| - from
  {
    if from < |q.params| { ValuesCount(q, from + 1); }
  }

  lemma ExecuteRead(q: Query)
    requires Sayable(q)
    ensures ReadExecute(ExecuteBody(q)) == Some((q.portal, q.maxRows))
  {
    hide PutU32, GetU32, ReadCString, CString;
    TextBack(q.portal, PutU32(q.maxRows));
    WordBack(q.maxRows, []);
    assert PutU32(q.maxRows) + [] == PutU32(q.maxRows);
  }

  lemma NamedRead(q: Query)
    requires Sayable(q)
    ensures ReadNamed(StatementBody(q)) == Some((83, q.name))
  {
    hide ReadCString, CString;
    TextBack(q.name, []);
    assert StatementBody(q)[1..] == CString(q.name) + [];
  }

  // ------------------------------------------------------------ nothing else says the same

  lemma TextOnly(s: Octets, text: Octets, rest: Octets)
    requires ReadCString(s) == Some((text, rest))
    ensures s == CString(text) + rest
  {
  }

  lemma HalfOnly(s: Octets)
    requires 2 <= |s|
    ensures s == PutU16(GetU16(s, 0)) + s[2..]
  {
  }

  lemma WordOnly(s: Octets)
    requires 4 <= |s|
    ensures s == PutU32(GetU32(s, 0)) + s[4..]
  {
    hide PutU32;
    WordParts(s[0], s[1], s[2], s[3]);
    PutParts(GetU32(s, 0));
  }

  lemma LowByte(q: nat, r: byte)
    ensures (256 * q + r) / 256 == q && (256 * q + r) % 256 == r
  {
  }

  lemma WordParts(a: byte, b: byte, c: byte, d: byte)
    ensures var n: nat := a as int * 0x100_0000 + b as int * 0x1_0000 + c as int * 0x100 + d;
      n / 0x100_0000 == a && n / 0x1_0000 % 0x100 == b && n / 0x100 % 0x100 == c && n % 0x100 == d
  {
    var n1: nat := 256 * a as int + b;
    var n2: nat := 256 * n1 + c;
    var n: nat := 256 * n2 + d;
    LowByte(a, b);
    LowByte(n1, c);
    LowByte(n2, d);
    assert n / 0x1_0000 == n / 256 / 256 && n / 0x100_0000 == n / 256 / 256 / 256;
  }

  lemma {:induction false} WordsOnly(s: Octets, formats: seq<Format>, rest: Octets)
    requires ReadWords(s, |formats|) == Some((OidsOf(formats), rest))
    ensures s == Oids(formats) + rest
    decreases |formats|
  {
    hide PutU32, GetU32, Oids;
    if formats == [] {
      assert s == [] + rest;
    } else {
      var more := formats[1..];
      assert formats == [formats[0]] + more && OidsOf(formats) == [formats[0].oid] + OidsOf(more);
      WordOnly(s);
      OidsFirst(formats[0], more);
      var r := ReadWords(s[4..], |more|);
      assert OidsOf(formats)[1..] == r.value.0 && OidsOf(formats)[1..] == OidsOf(more);
      assert OidsOf(formats)[0] == GetU32(s, 0);
      WordsOnly(s[4..], more, rest);
    }
  }

  lemma {:induction false} HalvesOnly(s: Octets, codes: seq<nat>, rest: Octets)
    requires ReadHalves(s, |codes|) == Some((codes, rest))
    ensures s == Shorts(codes) + rest
    decreases |codes|
  {
    hide PutU16, GetU16, Shorts;
    if codes == [] {
      assert s == [] + rest;
    } else {
      var more := codes[1..];
      assert codes == [codes[0]] + more;
      HalfOnly(s);
      ShortsFirst(codes[0], more);
      var r := ReadHalves(s[2..], |more|);
      assert codes[1..] == r.value.0 && codes[0] == GetU16(s, 0);
      HalvesOnly(s[2..], more, rest);
    }
  }

  lemma ValueOnly(q: Query, i: nat, s: Octets)
    requires i < |q.params| && q.formats != [] && 4 <= |s| && GetU32(s, 0) <= |s| - 4
    requires s[4..4 + GetU32(s, 0)] == ValueBytes(q, i)
    ensures s == ValueOf(q.params[i], IsBinary(q, i)) + s[4 + GetU32(s, 0)..]
  {
    hide PutU32, GetU32, IsBinary;
    var n := GetU32(s, 0);
    WordOnly(s);
    assert s[4..] == s[4..4 + n] + s[4 + n..];
    assert n == |ValueBytes(q, i)|;
  }

  lemma {:induction false} ValuesOnly(q: Query, i: nat, s: Octets, rest: Octets)
    requires i <= |q.params| && (q.params != [] ==> q.formats != [])
    requires ReadValues(s, |q.params| - i) == Some((ValuesFrom(q, i), rest))
    ensures Values(q, i) + s == Values(q, |q.params|) + rest
    decreases |q.params| - i
  {
    hide PutU32, GetU32, IsBinary, ValueBytes, ValueOf;
    if i < |q.params| {
      var n := GetU32(s, 0);
      var r := ReadValues(s[4 + n..], |q.params| - i - 1);
      assert ValuesFrom(q, i)[0] == s[4..4 + n] && ValuesFrom(q, i)[1..] == r.value.0;
      assert ([ValueBytes(q, i)] + ValuesFrom(q, i + 1))[1..] == ValuesFrom(q, i + 1);
      ValueOnly(q, i, s);
      ValuesOnly(q, i + 1, s[4 + n..], rest);
      var v := ValueOf(q.params[i], IsBinary(q, i));
      assert Values(q, i + 1) + s[4 + n..] == Values(q, i) + (v + s[4 + n..]);
    }
  }

  lemma ParseOnly(q: Query, b: Octets)
    requires ReadParse(b) == Some(Prepared(q.name, q.sql, OidsOf(q.formats)))
    ensures b == ParseBody(q)
  {
    hide PutU16, GetU16, ReadCString, CString, Oids, ReadWords;
    var name := ReadCString(b).value.1;
    var sql := ReadCString(name).value.1;
    TextOnly(b, q.name, name);
    TextOnly(name, q.sql, sql);
    HalfOnly(sql);
    WordsSize(sql[2..], GetU16(sql, 0));
    WordsOnly(sql[2..], q.formats, []);
    assert Oids(q.formats) + [] == Oids(q.formats);
  }

  lemma {:induction false} WordsSize(s: Octets, n: nat)
    requires ReadWords(s, n).Some?
    ensures |ReadWords(s, n).value.0| == n
  {
    if n > 0 { WordsSize(s[4..], n - 1); }
  }

  lemma {:induction false} HalvesSize(s: Octets, n: nat)
    requires ReadHalves(s, n).Some?
    ensures |ReadHalves(s, n).value.0| == n
  {
    if n > 0 { HalvesSize(s[2..], n - 1); }
  }

  lemma {:induction false} ValuesSize(s: Octets, n: nat)
    requires ReadValues(s, n).Some?
    ensures |ReadValues(s, n).value.0| == n
  {
    if n > 0 { ValuesSize(s[4 + GetU32(s, 0)..], n - 1); }
  }

  lemma HalvesThere(s: Octets, codes: seq<nat>, rest: Octets)
    requires 2 <= |s| && ReadHalves(s[2..], GetU16(s, 0)) == Some((codes, rest))
    ensures s == PutU16(|codes|) + Shorts(codes) + rest
  {
    hide PutU16, GetU16, ReadHalves, Shorts;
    HalfOnly(s);
    HalvesSize(s[2..], GetU16(s, 0));
    HalvesOnly(s[2..], codes, rest);
  }

  lemma ValuesThere(q: Query, s: Octets, rest: Octets)
    requires Sound(q) && 2 <= |s| && ReadValues(s[2..], GetU16(s, 0)) == Some((ValuesFrom(q, 0), rest))
    ensures s == PutU16(|q.params|) + Values(q, |q.params|) + rest
  {
    hide PutU16, GetU16, ReadValues;
    HalfOnly(s);
    ValuesSize(s[2..], GetU16(s, 0));
    ValuesCount(q, 0);
    ValuesOnly(q, 0, s[2..], rest);
    assert Values(q, 0) + s[2..] == s[2..];
  }

  lemma BindOnly(q: Query, b: Octets)
    requires Sound(q)
    requires ReadBind(b) == Some(Bound(q.portal, q.name, Codes(q.formats), ValuesFrom(q, 0), q.fields))
    ensures b == BindFront(q) + Values(q, |q.params|) + BindBack(q)
  {
    hide PutU16, GetU16, ReadCString, CString, Shorts, ReadHalves, ReadValues, Values, ValuesFrom, Codes;
    var portal := ReadCString(b).value.1;
    var name := ReadCString(portal).value.1;
    var formats := ReadHalves(name[2..], GetU16(name, 0)).value.1;
    var values := ReadValues(formats[2..], GetU16(formats, 0)).value.1;
    TextOnly(b, q.portal, portal);
    TextOnly(portal, q.name, name);
    HalvesThere(name, Codes(q.formats), formats);
    ValuesThere(q, formats, values);
    HalvesThere(values, q.fields, []);
    assert values == BindBack(q);
  }

  lemma ExecuteOnly(q: Query, b: Octets)
    requires ReadExecute(b) == Some((q.portal, q.maxRows))
    ensures b == ExecuteBody(q)
  {
    hide PutU32, GetU32, ReadCString, CString;
    var rest := ReadCString(b).value.1;
    TextOnly(b, q.portal, rest);
    WordOnly(rest);
    assert |rest[4..]| == 0;
  }

  lemma NamedOnly(q: Query, b: Octets)
    requires ReadNamed(b) == Some((STATEMENT, q.name))
    ensures b == StatementBody(q)
  {
    hide ReadCString, CString;
    TextOnly(b[1..], q.name, []);
    assert b == [b[0]] + b[1..];
    assert CString(q.name) + [] == CString(q.name);
  }

  lemma FrameOnly(f: Octets, kind: byte, body: Octets)
    requires 5 <= |f| && |f| == FrameSize(f) && f[0] == kind && FrameBody(f) == body
    ensures f == EncodeFrame(kind, body)
  {
    hide PutU32, GetU32;
    WordOnly(f[1..]);
    WordShift(f);
    assert f[1..][4..] == f[5..] && f == [f[0]] + f[1..];
  }

  lemma WordShift(f: Octets)
    requires 5 <= |f|
    ensures GetU32(f[1..], 0) == GetU32(f, 1)
  {
  }

  lemma {:induction false} FramesSized(s: Octets)
    ensures forall i :: 0 <= i < |Frames(s)| && 5 <= |Frames(s)[i]| ==> |Frames(s)[i]| == FrameSize(Frames(s)[i])
    decreases |s|
  {
    hide GetU32, FrameSize;
    if HasFrame(s) {
      var n := FrameSize(s);
      FramesSized(s[n..]);
      FirstSized(s, n);
    }
  }

  lemma FirstSized(s: Octets, n: nat)
    requires 5 <= |s| && n == FrameSize(s) <= |s|
    ensures 5 <= |s[..n]| ==> FrameSize(s[..n]) == n
  {
  }

  /** The format of parameter `i`: its own, or the first. */
  function FormatAt(q: Query, i: nat): nat
    requires q.formats != []
  {
    (if i < |q.formats| then q.formats[i] else q.formats[0]).format
  }

  /** Binary parameters are numbers modulo 2^32 in four octets, and others texts. */
  predicate SaysValue(q: Query, i: nat, v: Octets)
    requires i < |q.params| && q.formats != []
  {
    if FormatAt(q, i) == 1 then |v| == 4 && GetU32(v, 0) == q.params[i].number % 0x1_0000_0000
    else v == q.params[i].text
  }

  predicate SaysParse(q: Query, m: Prepared) {
    && m.name == q.name && m.sql == q.sql && |m.oids| == |q.formats|
    && forall i :: 0 <= i < |m.oids| ==> m.oids[i] == q.formats[i].oid
  }

  predicate SaysBind(q: Query, m: Bound)
    requires Sound(q)
  {
    && m.portal == q.portal && m.name == q.name && m.results == q.fields
    && |m.formats| == |q.formats| && (forall i :: 0 <= i < |m.formats| ==> m.formats[i] == q.formats[i].format)
    && |m.values| == |q.params| && forall i :: 0 <= i < |m.values| ==> SaysValue(q, i, m.values[i])
  }

  /** What seven messages say: the statement in full. */
  ghost predicate Says(q: Query, fs: seq<Octets>)
    requires Sound(q)
  {
    && |fs| == 7 && (forall i :: 0 <= i < 7 ==> 5 <= |fs[i]|)
    && (var m := ReadParse(FrameBody(fs[0])); fs[0][0] as char == 'P' && m.Some? && SaysParse(q, m.value))
    && fs[1][0] as char == 'D' && ReadNamed(FrameBody(fs[1])) == Some(('S' as int, q.name))
    && (var m := ReadBind(FrameBody(fs[2])); fs[2][0] as char == 'B' && m.Some? && SaysBind(q, m.value))
    && fs[3][0] as char == 'E' && ReadExecute(FrameBody(fs[3])) == Some((q.portal, q.maxRows))
    && fs[4][0] as char == 'S' && FrameBody(fs[4]) == []
    && fs[5][0] as char == 'H' && FrameBody(fs[5]) == []
    && fs[6][0] as char == 'C' && ReadNamed(FrameBody(fs[6])) == Some(('S' as int, q.name))
  }

  lemma ValueExact(q: Query, i: nat, v: Octets)
    requires i < |q.params| && q.formats != []
    ensures SaysValue(q, i, v) <==> v == ValueBytes(q, i)
  {
    hide PutU32, GetU32;
    var m: nat := q.params[i].number % 0x1_0000_0000;
    SameWord(q.params[i].number, m);
    WordBack(m, []);
    assert PutU32(m) + [] == PutU32(m);
    if |v| == 4 {
      WordOnly(v);
      assert v[4..] == [];
    }
  }

  lemma {:induction false} ValueThere(q: Query, from: nat, i: nat)
    requires from <= i < |q.params| && q.formats != []
    ensures |ValuesFrom(q, from)| == |q.params| - from && ValuesFrom(q, from)[i - from] == ValueBytes(q, i)
    decreases i - from
  {
    hide ValueBytes;
    ValuesCount(q, from);
    if from < i { ValueThere(q, from + 1, i); }
  }

  lemma ParseExact(q: Query, m: Prepared)
    ensures SaysParse(q, m) <==> m == Prepared(q.name, q.sql, OidsOf(q.formats))
  {
    if SaysParse(q, m) { assert m.oids == OidsOf(q.formats); }
  }

  lemma BindExact(q: Query, m: Bound)
    requires Sound(q)
    ensures SaysBind(q, m) <==> m == Bound(q.portal, q.name, Codes(q.formats), ValuesFrom(q, 0), q.fields)
  {
    hide SaysValue, ValuesFrom, ValueBytes;
    ValuesCount(q, 0);
    forall i | 0 <= i < |m.values| && |m.values| == |q.params|
      ensures SaysValue(q, i, m.values[i]) <==> m.values[i] == ValuesFrom(q, 0)[i]
    {
      ValueThere(q, 0, i);
      ValueExact(q, i, m.values[i]);
    }
    if SaysBind(q, m) { assert m.formats == Codes(q.formats) && m.values == ValuesFrom(q, 0); }
  }

  lemma BodyOf(kind: byte, body: Octets)
    ensures var f := EncodeFrame(kind, body); 5 <= |f| && f[0] == kind && FrameBody(f) == body
  {
  }

  lemma MessagesSay(q: Query)
    requires Sound(q) && Sayable(q)
    ensures Says(q, Messages(q))
  {
    hide EncodeFrame, FrameBody, ParseBody, StatementBody, ExecuteBody, BindFront, BindBack, Values, ReadParse;
    hide ReadBind, ReadExecute, ReadNamed, Sayable, ValuesFrom, Codes, OidsOf, SaysParse, SaysBind;
    var bind := BindFront(q) + Values(q, |q.params|) + BindBack(q);
    BodyOf(PARSE, ParseBody(q));
    BodyOf(DESCRIBE, StatementBody(q));
    BodyOf(BIND, bind);
    BodyOf(EXECUTE, ExecuteBody(q));
    BodyOf(SYNC, []);
    BodyOf(FLUSH, []);
    BodyOf(CLOSE, StatementBody(q));
    ParseRead(q);
    NamedRead(q);
    BindRead(q);
    ExecuteRead(q);
    ParseExact(q, ReadParse(ParseBody(q)).value);
    BindExact(q, ReadBind(bind).value);
  }

  lemma OnlyMessages(q: Query, fs: seq<Octets>)
    requires Sound(q) && Says(q, fs) && forall i :: 0 <= i < 7 ==> |fs[i]| == FrameSize(fs[i])
    ensures fs == Messages(q)
  {
    hide EncodeFrame, FrameBody, ParseBody, StatementBody, ExecuteBody, BindFront, BindBack, Values, ReadParse;
    hide ReadBind, ReadExecute, ReadNamed, ValuesFrom, Codes, OidsOf, FrameSize, SaysParse, SaysBind;
    ParseExact(q, ReadParse(FrameBody(fs[0])).value);
    BindExact(q, ReadBind(FrameBody(fs[2])).value);
    ParseOnly(q, FrameBody(fs[0]));
    NamedOnly(q, FrameBody(fs[1]));
    BindOnly(q, FrameBody(fs[2]));
    ExecuteOnly(q, FrameBody(fs[3]));
    NamedOnly(q, FrameBody(fs[6]));
    FrameOnly(fs[0], PARSE, ParseBody(q));
    FrameOnly(fs[1], DESCRIBE, StatementBody(q));
    FrameOnly(fs[2], BIND, BindFront(q) + Values(q, |q.params|) + BindBack(q));
    FrameOnly(fs[3], EXECUTE, ExecuteBody(q));
    FrameOnly(fs[4], SYNC, []);
    FrameOnly(fs[5], FLUSH, []);
    FrameOnly(fs[6], CLOSE, StatementBody(q));
    assert fs == [fs[0], fs[1], fs[2], fs[3], fs[4], fs[5], fs[6]];
  }

  /** A server that is sent the compiled statement and splits it by its length fields takes from it just what was
      meant, if and only if all texts are ASCII. */
  lemma Understood(q: Query)
    requires Sound(q) && Fits(q) && Sayable(q)
    ensures Says(q, Frames(Concat(Parts(q)))) <==> AsciiTexts(q)
  {
    hide Says, Frames, Concat, Parts, Messages, AsciiTexts, Sayable, FrameSize;
    var fs := Frames(Concat(Parts(q)));
    ServerReads(q);
    MessagesSay(q);
    if Says(q, fs) {
      FramesSized(Concat(Parts(q)));
      SevenSized(q, fs);
      OnlyMessages(q, fs);
    }
  }

  lemma SevenSized(q: Query, fs: seq<Octets>)
    requires Sound(q) && Says(q, fs)
    ensures |fs| == 7 && forall i :: 0 <= i < 7 ==> 5 <= |fs[i]|
  {
    hide FrameBody, ReadParse, ReadBind, ReadExecute, ReadNamed, SaysParse, SaysBind;
  }

  /** So it is with the octets that `compile` leaves in its buffer. */
  method CompileFor(q: Query) returns (s: Statement)
    requires Sound(q) && Fits(q) && Sayable(q)
    ensures fresh(s) && s.Compiled(q) && s.size <= s.buf.Length
    ensures Says(q, Frames(s.buf[..s.size])) <==> AsciiTexts(q)
  {
    hide Says, Frames, Concat, Parts, AsciiTexts, Sayable;
    s := new Statement(q);
    Understood(q);
  }
}
