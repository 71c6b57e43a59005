/** DNS messages, sections 4.1 and 4.1.4 of RFC 1035: a query as it is written and read back, names that are
    compressed with pointers, and the answers of a response. */
module Dns {
  import opened Bytes

  // ------------------------------------------------------------ names in full

  /** Labels with their lengths in front, as `setUint8` stores those, and a zero octet at the end. */
  function EncodeLabels(labels: seq<Octets>): Octets {
    if labels == [] then [] else [|labels[0]| % 256] + labels[0] + EncodeLabels(labels[1..])
  }

  function EncodeName(labels: seq<Octets>): Octets {
    EncodeLabels(labels) + [0]
  }

  /** What the question loop reads: labels as long as it has not passed `stop`, and where it then is. */
  function Sections(s: Octets, off: nat, stop: nat): Option<(seq<Octets>, nat)>
    decreases |s| - off
  {
    if off >= stop then Some(([], off))
    else if off >= |s| || off + 1 + s[off] > |s| then None
    else
      var next := off + 1 + s[off];
      var rest := Sections(s, next, stop);
      if rest.None? then None else Some(([s[off + 1..next]] + rest.value.0, rest.value.1))
  }

  predicate Sized(labels: seq<Octets>) {
    forall i :: 0 <= i < |labels| ==> 1 <= |labels[i]| <= 255
  }

  /** No zero octet but in the last label. */
  predicate ZeroFree(labels: seq<Octets>) {
    forall i :: 0 <= i < |labels| - 1 ==> 0 !in labels[i]
  }

  lemma ZeroBehind(front: Octets, s: Octets)
    requires 0 !in front
    ensures ZeroAt(front + s) == |front| + ZeroAt(s)
    decreases |front|
  {
    if front == [] {
      assert front + s == s;
    } else {
      assert (front + s)[1..] == front[1..] + s;
      ZeroBehind(front[1..], s);
    }
  }

  lemma ZeroInside(front: Octets, s: Octets)
    requires 0 in front
    ensures ZeroAt(front + s) < |front|
  {
    var k :| 0 <= k < |front| && front[k] == 0;
    assert (front + s)[k] == 0;
  }

  /** The label at the front. */
  lemma Peel(s: Octets, off: nat, l: Octets, tail: Octets)
    requires off <= |s| && |l| < 256 && [|l| as byte] + l + tail <= s[off..]
    ensures var next := off + 1 + |l|;
      && next <= |s| && s[off] == |l| && s[off + 1..next] == l && tail <= s[next..]
      && (s[off..] == [|l| as byte] + l + tail ==> s[next..] == tail)
  {
    var t, k := s[off..], 1 + |l|;
    var h := [|l| as byte] + l + tail;
    assert t[..|h|] == h;
    assert t[0] == h[0] && t[1..k] == h[1..k] && t[k..|h|] == h[k..];
    assert s[off + k..] == t[k..];
  }

  /** The zero octet that ends the labels, with one label more or less in front. */
  lemma PeelZero(s: Octets, off: nat, l: Octets, tail: Octets)
    requires off <= |s| && 1 <= |l| < 256 && s[off..] == [|l| as byte] + l + tail
    ensures var next, stop := off + 1 + |l|, off + ZeroAt(s[off..]);
      && next <= |s| && off < stop && (0 in l ==> stop < next) && (0 !in l ==> stop == next + ZeroAt(s[next..]))
  {
    hide ZeroAt;
    var head := [|l| as byte] + l;
    Peel(s, off, l, tail);
    assert s[off..] == head + tail;
    if 0 in l {
      ZeroInside(head, tail);
      assert s[off..][0] != 0;
    } else {
      ZeroBehind(head, tail);
    }
  }

  lemma LabelsFront(labels: seq<Octets>)
    requires labels != [] && |labels[0]| < 256
    ensures EncodeLabels(labels) == [|labels[0]| as byte] + labels[0] + EncodeLabels(labels[1..])
  {
  }

  /** Of labels that fit their length octets, the loop reads back all exactly if no zero octet comes before the
      last of them. */
  lemma {:induction false} SectionsExact(s: Octets, off: nat, labels: seq<Octets>, rest: Octets)
    requires off <= |s| && s[off..] == EncodeName(labels) + rest && Sized(labels)
    ensures var r := Sections(s, off, off + ZeroAt(s[off..]));
      && r.Some?
      && (r.value.0 == labels <==> ZeroFree(labels))
      && (ZeroFree(labels) ==> r.value.1 == off + |EncodeLabels(labels)|)
    decreases |labels|
  {
    hide EncodeLabels, ZeroAt, ZeroFree, Sections;
    var stop := off + ZeroAt(s[off..]);
    if labels == [] {
      NoLabels(labels);
      assert s[off..] == [0] + rest;
      FirstZero(s[off..], 0);
      SectionsDone(s, off, stop);
      NoLabelIsZeroFree(labels);
    } else {
      var l, more := labels[0], labels[1..];
      var tail, next := EncodeName(more) + rest, off + 1 + |l|;
      LabelsFront(labels);
      assert s[off..] == [|l| as byte] + l + tail;
      Peel(s, off, l, tail);
      PeelZero(s, off, l, tail);
      SectionsStep(s, off, stop, l);
      if 0 in l {
        SectionsDone(s, next, stop);
        SameRest(labels, []);
        ZeroInFirst(labels);
      } else {
        SectionsExact(s, next, more, rest);
        SameRest(labels, Sections(s, next, stop).value.0);
        OneFewer(labels);
      }
    }
  }

  lemma SectionsDone(s: Octets, off: nat, stop: nat)
    requires off >= stop
    ensures Sections(s, off, stop) == Some(([], off))
  {
  }

  lemma SectionsNeed(s: Octets, off: nat, stop: nat)
    requires off < stop && Sections(s, off, stop).Some?
    ensures off < |s| && off + 1 + s[off] <= |s|
  {
  }

  lemma SectionsStep(s: Octets, off: nat, stop: nat, l: Octets)
    requires off < stop && off + 1 + |l| <= |s| && s[off] == |l| && s[off + 1..off + 1 + |l|] == l
    ensures var rest := Sections(s, off + 1 + |l|, stop);
      Sections(s, off, stop) == if rest.None? then None else Some(([l] + rest.value.0, rest.value.1))
  {
  }

  lemma SameRest(labels: seq<Octets>, rest: seq<Octets>)
    requires labels != []
    ensures [labels[0]] + rest == labels <==> rest == labels[1..]
    ensures rest == [] ==> ([labels[0]] + rest == labels <==> |labels| == 1)
  {
    assert labels == [labels[0]] + labels[1..];
    assert ([labels[0]] + rest)[1..] == rest;
  }

  lemma NoLabelIsZeroFree(labels: seq<Octets>)
    requires labels == []
    ensures ZeroFree(labels)
  {
  }

  lemma ZeroInFirst(labels: seq<Octets>)
    requires labels != [] && 0 in labels[0]
    ensures ZeroFree(labels) <==> |labels| == 1
    ensures |labels| == 1 ==> EncodeLabels(labels) == [|labels[0]| % 256] + labels[0]
  {
    if |labels| == 1 { assert labels[1..] == []; }
  }

  lemma OneFewer(labels: seq<Octets>)
    requires labels != [] && 0 !in labels[0]
    ensures ZeroFree(labels) <==> ZeroFree(labels[1..])
  {
    assert forall i :: 0 <= i < |labels| - 1 ==> labels[1..][i] == labels[i + 1];
    if ZeroFree(labels[1..]) {
      forall i | 0 <= i < |labels| - 1 ensures 0 !in labels[i] {
        if i > 0 { assert labels[1..][i - 1] == labels[i]; }
      }
    }
  }

  /** What is read has one to 255 octets, if nothing before `stop` is zero. */
  lemma {:induction false} SectionsSized(s: Octets, off: nat, stop: nat)
    requires forall j :: off <= j < stop && j < |s| ==> s[j] != 0
    ensures Sections(s, off, stop).Some? ==> Sized(Sections(s, off, stop).value.0)
    decreases |s| - off
  {
    if off < stop && off < |s| && off + 1 + s[off] <= |s| {
      SectionsSized(s, off + 1 + s[off], stop);
    }
  }

  // ------------------------------------------------------------ a query, written and read

  function Header(id: nat, flags: nat, questions: nat, answers: nat, authorities: nat, additionals: nat): Octets {
    PutU16(id) + PutU16(flags) + PutU16(questions) + PutU16(answers) + PutU16(authorities) + PutU16(additionals)
  }

  datatype Question = Question(name: seq<Octets>, qtype: nat, qclass: nat)

  function EncodeQuestion(q: Question): Octets {
    EncodeName(q.name) + PutU16(q.qtype) + PutU16(q.qclass)
  }

  /** Behind the zero octet of the name come the type and then the class. */
  lemma QuestionLayout(q: Question)
    requires Words(q)
    ensures var s, k := EncodeQuestion(q), |EncodeLabels(q.name)|;
      s[..k] == EncodeLabels(q.name) && s[k] == 0 && |s| == k + 5
      && GetU16(s, k + 1) == q.qtype && GetU16(s, k + 3) == q.qclass
  {
    hide PutU16, GetU16, EncodeLabels;
    var s, front := EncodeQuestion(q), EncodeLabels(q.name) + [0];
    assert s == front + PutU16(q.qtype) + PutU16(q.qclass) == (front + PutU16(q.qtype)) + PutU16(q.qclass) + [];
    PutGetU16(q.qtype, front, PutU16(q.qclass));
    PutGetU16(q.qclass, front + PutU16(q.qtype), []);
  }

  const QUERY_FLAGS := 0x140

  function EncodeQuery(id: nat, q: Question): Octets {
    Header(id, QUERY_FLAGS, 1, 0, 0, 0) + EncodeQuestion(q)
  }

  /** What `parse` makes of the one question at offset 12, and where the answers begin. */
  function QuestionAt(s: Octets): Option<(Question, nat)>
    requires |s| >= 12
  {
    var r := Sections(s, 12, 12 + ZeroAt(s[12..]));
    if r.None? || r.value.1 + 5 > |s| then None
    else
      var off := r.value.1 + 1;
      Some((Question(r.value.0, GetU16(s, off), GetU16(s, off + 2)), off + 4))
  }

  predicate Words(q: Question) {
    q.qtype < 0x1_0000 && q.qclass < 0x1_0000
  }

  /** A question is read back, type, class and labels, exactly if each label has one to 255 octets and none but
      the last holds a zero octet. */
  lemma QuestionExact(head: Octets, q: Question, rest: Octets)
    requires |head| == 12 && Words(q)
    ensures var s := head + EncodeQuestion(q) + rest;
      && (QuestionAt(s).Some? && QuestionAt(s).value.0 == q <==> Sized(q.name) && ZeroFree(q.name))
      && (Sized(q.name) && ZeroFree(q.name) ==> QuestionAt(s) == Some((q, 12 + |EncodeQuestion(q)|)))
  {
    hide Sections, ZeroFree, EncodeLabels, PutU16, GetU16;
    var s := head + EncodeQuestion(q) + rest;
    var words := PutU16(q.qtype) + PutU16(q.qclass) + rest;
    var stop := 12 + ZeroAt(s[12..]);
    assert s[12..] == EncodeName(q.name) + words;
    if Sized(q.name) {
      SectionsExact(s, 12, q.name, words);
      if ZeroFree(q.name) {
        var n := EncodeLabels(q.name);
        var front := head + n + [0];
        assert s == front + PutU16(q.qtype) + (PutU16(q.qclass) + rest);
        PutGetU16(q.qtype, front, PutU16(q.qclass) + rest);
        assert s == (front + PutU16(q.qtype)) + PutU16(q.qclass) + rest;
        PutGetU16(q.qclass, front + PutU16(q.qtype), rest);
      }
    } else {
      forall j | 12 <= j < stop && j < |s| ensures s[j] != 0 { assert s[12..][j - 12] == s[j]; }
      SectionsSized(s, 12, stop);
    }
  }

  function Id(s: Octets): nat
    requires |s| >= 12
  {
    GetU16(s, 0)
  }

  /** `parse` after `create` recovers the identifier, and the question exactly under that condition. */
  lemma QueryRoundTrip(id: nat, q: Question, rest: Octets)
    requires id < 0x1_0000 && Words(q)
    ensures var s := EncodeQuery(id, q) + rest;
      && |s| >= 12 && Id(s) == id && GetU16(s, 4) == 1 && GetU16(s, 6) == 0
      && (QuestionAt(s).Some? && QuestionAt(s).value.0 == q <==> Sized(q.name) && ZeroFree(q.name))
  {
    hide QuestionAt, EncodeQuestion, PutU16, GetU16, Sized, ZeroFree;
    var head := Header(id, QUERY_FLAGS, 1, 0, 0, 0);
    var s := EncodeQuery(id, q) + rest;
    QuestionExact(head, q, rest);
    assert s == head + EncodeQuestion(q) + rest;
    HeaderFields(id, QUERY_FLAGS, 1, 0, 0, 0, EncodeQuestion(q) + rest);
    assert s == head + (EncodeQuestion(q) + rest);
  }

  lemma HeaderFields(id: nat, flags: nat, questions: nat, answers: nat, authorities: nat, additionals: nat,
                     rest: Octets)
    requires id < 0x1_0000 && flags < 0x1_0000 && questions < 0x1_0000 && answers < 0x1_0000
    ensures var s := Header(id, flags, questions, answers, authorities, additionals) + rest;
      && GetU16(s, 0) == id && GetU16(s, 2) == flags && GetU16(s, 4) == questions && GetU16(s, 6) == answers
  {
    hide PutU16, GetU16;
    var s := Header(id, flags, questions, answers, authorities, additionals) + rest;
    var a, b, c, d := PutU16(id), PutU16(flags), PutU16(questions), PutU16(answers);
    var e := PutU16(authorities) + PutU16(additionals) + rest;
    assert s == [] + a + (b + c + d + e) == a + b + (c + d + e) == (a + b) + c + (d + e) == (a + b + c) + d + e;
    PutGetU16(id, [], b + c + d + e);
    PutGetU16(flags, a, c + d + e);
    PutGetU16(questions, a + b, d + e);
    PutGetU16(answers, a + b + c, e);
  }

  // ------------------------------------------------------------ compressed names

  predicate IsPointer(c: byte) {
    c >= 192
  }

  /** Where the pointer at `off` points. */
  function PointerAt(s: Octets, off: nat): nat
    requires off + 1 < |s| && IsPointer(s[off])
  {
    (s[off] as int - 192) * 256 + s[off + 1]
  }

  /** `name` is what the octets at `off` stand for: labels up to a zero octet, or up to a pointer and then what
      that stands for; found in `n` steps. */
  predicate Names(s: Octets, off: nat, name: seq<Octets>, n: nat)
    decreases n
  {
    && n > 0 && off < |s|
    && if s[off] == 0 then name == []
       else if IsPointer(s[off]) then off + 1 < |s| && Names(s, PointerAt(s, off), name, n - 1)
       else
         && off + 1 + s[off] <= |s| && name != [] && name[0] == s[off + 1..off + 1 + s[off]]
         && Names(s, off + 1 + s[off], name[1..], n - 1)
  }

  ghost predicate Expands(s: Octets, off: nat, name: seq<Octets>) {
    exists n: nat :: Names(s, off, name, n)
  }

  /** The octets at an offset stand for one name at most. */
  lemma {:induction false} OneName(s: Octets, off: nat, a: seq<Octets>, b: seq<Octets>, m: nat, n: nat)
    requires Names(s, off, a, m) && Names(s, off, b, n)
    ensures a == b
    decreases m
  {
    if s[off] != 0 {
      if IsPointer(s[off]) {
        OneName(s, PointerAt(s, off), a, b, m - 1, n - 1);
      } else {
        OneName(s, off + 1 + s[off], a[1..], b[1..], m - 1, n - 1);
        assert a == [a[0]] + a[1..] && b == [b[0]] + b[1..];
      }
    }
  }

  /** The name at `off`, in a stretch that begins at `began`, if every pointer leads to before the stretch that
      it ends. */
  function Backward(s: Octets, began: nat, off: nat): Option<seq<Octets>>
    decreases began, |s| - off
  {
    if off >= |s| then None
    else if s[off] == 0 then Some([])
    else if IsPointer(s[off]) then
      if off + 1 < |s| && PointerAt(s, off) < began then Backward(s, PointerAt(s, off), PointerAt(s, off)) else None
    else if off + 1 + s[off] > |s| then None
    else
      var rest := Backward(s, began, off + 1 + s[off]);
      if rest.None? then None else Some([s[off + 1..off + 1 + s[off]]] + rest.value)
  }

  /** With such pointers there is a name. */
  lemma {:induction false} BackwardExpands(s: Octets, began: nat, off: nat)
    requires Backward(s, began, off).Some?
    ensures Expands(s, off, Backward(s, began, off).value)
    decreases began, |s| - off
  {
    var name := Backward(s, began, off).value;
    if s[off] == 0 {
      assert Names(s, off, name, 1);
    } else if IsPointer(s[off]) {
      var to := PointerAt(s, off);
      BackwardExpands(s, to, to);
      var n: nat :| Names(s, to, name, n);
      assert Names(s, off, name, n + 1);
    } else {
      var next := off + 1 + s[off];
      BackwardExpands(s, began, next);
      var n: nat :| Names(s, next, Backward(s, began, next).value, n);
      assert name[1..] == Backward(s, began, next).value;
      assert Names(s, off, name, n + 1);
    }
  }

  /** A pointer to itself stands for nothing. */
  lemma {:induction false} SelfPointer(s: Octets, off: nat, name: seq<Octets>, n: nat)
    requires off + 1 < |s| && IsPointer(s[off]) && PointerAt(s, off) == off
    ensures !Names(s, off, name, n)
    decreases n
  {
    if n > 0 { SelfPointer(s, off, name, n - 1); }
  }

  predicate Short(labels: seq<Octets>) {
    forall i :: 0 <= i < |labels| ==> 1 <= |labels[i]| < 192
  }

  /** A name in full stands for itself; and in front of a pointer, labels stand before what that stands for. */
  lemma {:induction false} NameInFull(s: Octets, off: nat, labels: seq<Octets>, tail: seq<Octets>)
    requires Short(labels) && off <= |s| && EncodeLabels(labels) <= s[off..]
    requires Expands(s, off + |EncodeLabels(labels)|, tail)
    ensures Expands(s, off, labels + tail)
    decreases |labels|
  {
    hide EncodeLabels;
    if labels == [] {
      NoLabels(labels);
      assert labels + tail == tail;
    } else {
      var l, more := labels[0], labels[1..];
      var next := off + 1 + |l|;
      LabelsFront(labels);
      Peel(s, off, l, EncodeLabels(more));
      NameInFull(s, next, more, tail);
      var n: nat :| Names(s, next, more + tail, n);
      assert (labels + tail)[1..] == more + tail;
      assert Names(s, off, labels + tail, n + 1);
    }
  }

  /** `readName`: what the octets at `from` stand for, whenever they stand for something. */
  method ReadName(from: nat, s: Octets, ghost name: seq<Octets>, ghost n: nat) returns (r: seq<Octets>)
    requires Names(s, from, name, n)
    ensures r == name
    decreases n
  {
    r := [];
    var offset := from;
    var qnameSize: nat := s[offset];
    offset := offset + 1;
    ghost var rest := name;
    ghost var m: nat := n;
    assert [] + name == name;
    while qnameSize != 0
      invariant r + rest == name
      invariant qnameSize == 0 ==> rest == []
      invariant qnameSize != 0 ==>
                  0 < offset <= |s| && qnameSize == s[offset - 1] && m <= n && Names(s, offset - 1, rest, m)
      decreases m
    {
      if IsPointer(qnameSize) {
        var off := (qnameSize - 192) * 256;
        off := off + s[offset];
        offset := offset + 1;
        var tail := ReadName(off, s, rest, m - 1);
        r := r + tail;
        rest := [];
        qnameSize := 0;
      } else {
        assert rest == [rest[0]] + rest[1..];
        r := r + [s[offset..offset + qnameSize]];
        offset := offset + qnameSize;
        rest := rest[1..];
        qnameSize := s[offset];
        offset := offset + 1;
      }
      m := m - 1;
    }
    assert r + [] == r;
  }

  // ------------------------------------------------------------ answers

  /** The owner of a record: labels, and then a zero octet or a pointer. */
  datatype Ending = Root | Pointer(to: nat)

  datatype Owner = Owner(labels: seq<Octets>, ending: Ending)

  datatype Record = Record(owner: Owner, name: seq<Octets>, rtype: nat, rclass: nat, ttl: nat, data: Octets,
                           cname: seq<Octets>)

  const TYPE_A := 1
  const TYPE_CNAME := 5

  function EncodeEnding(e: Ending): Octets {
    match e
    case Root => [0]
    case Pointer(to) => PutU16(0xc000 + to)
  }

  function EncodeOwner(r: Record): Octets {
    EncodeLabels(r.owner.labels) + EncodeEnding(r.owner.ending)
  }

  function Fixed(r: Record): Octets {
    PutU16(r.rtype) + PutU16(r.rclass) + PutU32(r.ttl) + PutU16(|r.data|)
  }

  function EncodeRecord(r: Record): Octets {
    EncodeOwner(r) + Fixed(r) + r.data
  }

  predicate ValidRecord(r: Record) {
    && r.rtype < 0x1_0000 && r.rclass < 0x1_0000 && r.ttl < 0x1_0000_0000 && |r.data| < 0x1_0000
    && Short(r.owner.labels) && (r.owner.ending.Pointer? ==> r.owner.ending.to < 0x4000)
  }

  /** The owner stands for the record's name. */
  ghost predicate OwnerNames(s: Octets, r: Record) {
    var k := |r.owner.labels|;
    match r.owner.ending
    case Root => r.name == r.owner.labels
    case Pointer(to) => r.owner.labels <= r.name && Expands(s, to, r.name[k..])
  }

  /** The record lies at `off`, its owner stands for its name, and the data of a CNAME for another. */
  ghost predicate RecordAt(s: Octets, off: nat, r: Record) {
    && ValidRecord(r) && off <= |s| && EncodeRecord(r) <= s[off..] && OwnerNames(s, r)
    && (r.rtype == TYPE_CNAME ==> Expands(s, off + |EncodeOwner(r)| + 10, r.cname))
  }

  /** The owners that the code steps over rightly: a pointer alone, and names in full. */
  predicate SteppedOver(r: Record) {
    r.owner.labels == [] || r.owner.ending.Root?
  }

  ghost predicate RecordsAt(s: Octets, off: nat, rs: seq<Record>)
    decreases |rs|
  {
    rs == [] || (RecordAt(s, off, rs[0]) && RecordsAt(s, off + |EncodeRecord(rs[0])|, rs[1..]))
  }

  datatype Answer =
    | Address(name: seq<Octets>, rclass: nat, ttl: nat, ip: Octets)
    | Alias(name: seq<Octets>, rclass: nat, ttl: nat, cname: seq<Octets>)

  /** The answers that are kept: addresses and aliases. */
  function Kept(r: Record): seq<Answer> {
    if r.rtype == TYPE_CNAME then [Alias(r.name, r.rclass, r.ttl, r.cname)]
    else if r.rtype == TYPE_A then [Address(r.name, r.rclass, r.ttl, r.data)]
    else []
  }

  function Answers(rs: seq<Record>): seq<Answer> {
    if rs == [] then [] else Kept(rs[0]) + Answers(rs[1..])
  }

  /** How many of the records are addresses or aliases. */
  function Wanted(rs: seq<Record>): nat {
    if rs == [] then 0 else (if rs[0].rtype in {1, 5} then 1 else 0) + Wanted(rs[1..])
  }

  lemma {:induction false} AnswersCount(rs: seq<Record>)
    ensures |Answers(rs)| == Wanted(rs)
  {
    if rs != [] { AnswersCount(rs[1..]); }
  }

  /** An answer for each address and each alias, in the order of the records, with the name, class and time to
      live of its record, and its address or the name it stands for. */
  lemma {:induction false} AnswerOf(rs: seq<Record>, i: nat)
    requires i < |rs| && rs[i].rtype in {1, 5}
    ensures var r, k := rs[i], Wanted(rs[..i]);
      && k < |Answers(rs)| == Wanted(rs)
      && var a := Answers(rs)[k];
      && a.name == r.name && a.rclass == r.rclass && a.ttl == r.ttl
      && (r.rtype == 1 ==> a.Address? && a.ip == r.data)
      && (r.rtype == 5 ==> a.Alias? && a.cname == r.cname)
  {
    AnswersCount(rs);
    if i > 0 {
      assert rs[..i][1..] == rs[1..][..i - 1];
      AnswerOf(rs[1..], i - 1);
    }
  }

  function Total(name: seq<Octets>): nat {
    if name == [] then 0 else |name[0]| + Total(name[1..])
  }

  /** `off += name.length + (sum of the lengths) + 1` steps over a name in full. */
  lemma {:induction false} FullNameSize(name: seq<Octets>)
    ensures |EncodeName(name)| == |name| + Total(name) + 1
  {
    if name != [] { FullNameSize(name[1..]); }
  }

  /** But never over labels in front of a pointer, whatever that stands for. */
  lemma MixedNameMisread(labels: seq<Octets>, tail: seq<Octets>)
    requires forall l :: l in tail ==> l != []
    ensures var name := labels + tail; |name| + Total(name) + 1 != |EncodeLabels(labels)| + 2
  {
    FullNameSize(labels);
    TotalAppend(labels, tail);
    if tail != [] { assert tail[0] in tail; }
  }

  lemma {:induction false} NamesHold(s: Octets, off: nat, name: seq<Octets>, n: nat)
    requires Names(s, off, name, n)
    ensures forall l :: l in name ==> l != []
    decreases n
  {
    if s[off] != 0 {
      if IsPointer(s[off]) {
        NamesHold(s, PointerAt(s, off), name, n - 1);
      } else {
        NamesHold(s, off + 1 + s[off], name[1..], n - 1);
        assert name == [name[0]] + name[1..];
      }
    }
  }

  lemma {:induction false} TotalAppend(a: seq<Octets>, b: seq<Octets>)
    ensures Total(a + b) == Total(a) + Total(b)
  {
    if a == [] {
      assert a + b == b;
    } else {
      assert (a + b)[1..] == a[1..] + b;
      TotalAppend(a[1..], b);
    }
  }

  /** The name in front of a record, whatever its form; and the offset behind it, which is right exactly if the
      owner is a pointer alone or a name in full. */
  method ReadOwner(s: Octets, off: nat, ghost r: Record) returns (name: seq<Octets>, next: nat)
    requires RecordAt(s, off, r)
    ensures name == r.name
    ensures next == off + |EncodeOwner(r)| <==> SteppedOver(r)
  {
    hide Names, EncodeLabels, Expands, RecordAt;
    OwnerWord(s, off, r);
    OwnerExpands(s, off, r);
    var word := GetU16(s, off);
    if word / 0x4000 == 3 {
      PointerAlone(s, off, r);
      ghost var n := Steps(s, word % 0x4000, r.name);
      name := ReadName(word % 0x4000, s, r.name, n);
      next := off + 2;
    } else {
      ghost var n := Steps(s, off, r.name);
      name := ReadName(off, s, r.name, n);
      next := off + |name| + Total(name) + 1;
      OwnerSize(s, off, r);
    }
  }

  lemma PointerAlone(s: Octets, off: nat, r: Record)
    requires RecordAt(s, off, r) && r.owner.labels == [] && r.owner.ending.Pointer?
    ensures Expands(s, r.owner.ending.to, r.name) && |EncodeOwner(r)| == 2
  {
    hide Expands;
    assert r.name[0..] == r.name;
  }

  /** The computed step against the size of the owner. */
  lemma OwnerSize(s: Octets, off: nat, r: Record)
    requires RecordAt(s, off, r) && !(r.owner.labels == [] && r.owner.ending.Pointer?)
    ensures |r.name| + Total(r.name) + 1 == |EncodeOwner(r)| <==> SteppedOver(r)
  {
    hide Expands, EncodeLabels;
    if r.owner.ending.Root? {
      FullNameSize(r.name);
    } else {
      var labels, tail := r.owner.labels, r.name[|r.owner.labels|..];
      assert r.name == labels + tail;
      var n := Steps(s, r.owner.ending.to, tail);
      NamesHold(s, r.owner.ending.to, tail, n);
      MixedNameMisread(labels, tail);
    }
  }

  lemma Steps(s: Octets, off: nat, name: seq<Octets>) returns (n: nat)
    requires Expands(s, off, name)
    ensures Names(s, off, name, n)
  {
    n :| Names(s, off, name, n);
  }

  /** The first word of a record tells a pointer from labels. */
  lemma OwnerWord(s: Octets, off: nat, r: Record)
    requires RecordAt(s, off, r)
    ensures off + 2 <= |s|
    ensures GetU16(s, off) / 0x4000 == 3 <==> r.owner.labels == [] && r.owner.ending.Pointer?
    ensures r.owner.labels == [] && r.owner.ending.Pointer? ==> GetU16(s, off) % 0x4000 == r.owner.ending.to
  {
    hide Expands, OwnerNames, EncodeLabels;
    OwnerAt(s, off, r);
    var owner := EncodeOwner(r);
    if r.owner.labels == [] {
      NoLabels(r.owner.labels);
      if r.owner.ending.Pointer? {
        assert s[off..][..2] == PutU16(0xc000 + r.owner.ending.to);
        PointerWord(s, off, r.owner.ending.to);
      } else {
        assert s[off] == s[off..][0] == owner[0] == 0;
      }
    } else {
      LabelsFront(r.owner.labels);
      assert s[off] == s[off..][0] == owner[0] == |r.owner.labels[0]|;
    }
  }

  lemma OwnerAt(s: Octets, off: nat, r: Record)
    requires RecordAt(s, off, r)
    ensures var owner := EncodeOwner(r);
      && off + |owner| + 10 <= |s| && s[off..][..|owner|] == owner
  {
    hide OwnerNames, EncodeOwner, Expands;
    var owner := EncodeOwner(r);
    assert owner == EncodeRecord(r)[..|owner|];
    assert owner == s[off..][..|owner|];
  }

  /** What lies at the record stands for its name. */
  lemma OwnerExpands(s: Octets, off: nat, r: Record)
    requires RecordAt(s, off, r)
    ensures Expands(s, off, r.name)
  {
    hide EncodeLabels, EncodeRecord;
    OwnerAt(s, off, r);
    var labels, k, code := r.owner.labels, |EncodeLabels(r.owner.labels)|, EncodeOwner(r);
    var at, tail := off + k, r.name[|labels|..];
    assert r.name == labels + tail;
    assert EncodeLabels(labels) == code[..k] == s[off..][..k];
    assert s[at] == s[off..][k] == code[k];
    if r.owner.ending.Root? {
      assert Names(s, at, [], 1);
      assert tail == [];
    } else {
      var to := r.owner.ending.to;
      assert s[at + 1] == s[off..][k + 1] == code[k + 1];
      PointerOctets(to);
      assert code[k] == PutU16(0xc000 + to)[0] && code[k + 1] == PutU16(0xc000 + to)[1];
      var n := Steps(s, to, tail);
      assert Names(s, at, tail, n + 1);
    }
    NameInFull(s, off, labels, tail);
  }

  lemma PointerOctets(to: nat)
    requires to < 0x4000
    ensures var w := PutU16(0xc000 + to); w[0] >= 192 && (w[0] as int - 192) * 256 + w[1] == to
  {
  }

  lemma PointerWord(s: Octets, off: nat, to: nat)
    requires to < 0x4000 && off + 2 <= |s| && s[off..][..2] == PutU16(0xc000 + to)
    ensures GetU16(s, off) == 0xc000 + to && GetU16(s, off) % 0x4000 == to
  {
    hide PutU16, GetU16;
    assert s[off..off + 2] == s[off..][..2];
    Word16(s, off, 0xc000 + to);
  }

  /** Octets inside a stretch of `s`. */
  lemma Within(s: Octets, at: nat, before: Octets, w: Octets, after: Octets)
    requires at <= |s| && before + w + after <= s[at..]
    ensures var k := at + |before|; k + |w| + |after| <= |s| && s[k..k + |w|] == w
  {
    var all, t, k := before + w + after, s[at..], |before|;
    assert all == t[..|all|];
    assert w == all[k..k + |w|] == t[k..k + |w|];
  }

  lemma Word16(s: Octets, k: nat, n: nat)
    requires n < 0x1_0000 && k + 2 <= |s| && s[k..k + 2] == PutU16(n)
    ensures GetU16(s, k) == n
  {
    hide PutU16, GetU16;
    assert s == s[..k] + PutU16(n) + s[k + 2..];
    PutGetU16(n, s[..k], s[k + 2..]);
  }

  lemma Word32(s: Octets, k: nat, n: nat)
    requires n < 0x1_0000_0000 && k + 4 <= |s| && s[k..k + 4] == PutU32(n)
    ensures GetU32(s, k) == n
  {
    hide PutU32, GetU32;
    assert s == s[..k] + PutU32(n) + s[k + 4..];
    PutGetU32(n, s[..k], s[k + 4..]);
  }

  lemma FixedFields(s: Octets, at: nat, r: Record)
    requires ValidRecord(r) && at <= |s| && Fixed(r) + r.data <= s[at..]
    ensures at + 10 + |r.data| <= |s|
    ensures GetU16(s, at) == r.rtype && GetU16(s, at + 2) == r.rclass && GetU32(s, at + 4) == r.ttl
    ensures GetU16(s, at + 8) == |r.data| && s[at + 10..at + 10 + |r.data|] == r.data
  {
    hide PutU16, PutU32, GetU16, GetU32;
    var a, b, c, d, e := PutU16(r.rtype), PutU16(r.rclass), PutU32(r.ttl), PutU16(|r.data|), r.data;
    var all := Fixed(r) + e;
    assert all == [] + a + (b + c + d + e);
    Within(s, at, [], a, b + c + d + e);
    assert all == a + b + (c + d + e);
    Within(s, at, a, b, c + d + e);
    assert all == (a + b) + c + (d + e);
    Within(s, at, a + b, c, d + e);
    Within(s, at, a + b + c, d, e);
    assert all == (a + b + c + d) + e + [];
    Within(s, at, a + b + c + d, e, []);
    Word16(s, at, r.rtype);
    Word16(s, at + 2, r.rclass);
    Word32(s, at + 4, r.ttl);
    Word16(s, at + 8, |e|);
  }

  lemma FixedAt(s: Octets, off: nat, r: Record)
    requires RecordAt(s, off, r)
    ensures var at := off + |EncodeOwner(r)|;
      && at <= |s| && Fixed(r) + r.data <= s[at..]
      && |EncodeRecord(r)| == |EncodeOwner(r)| + 10 + |r.data|
  {
    hide EncodeOwner, PutU16, PutU32;
    var k := |EncodeOwner(r)|;
    assert EncodeRecord(r)[k..] == Fixed(r) + r.data;
    assert s[off..][k..] == s[off + k..];
    assert s[off..][..|EncodeRecord(r)|][k..] == Fixed(r) + r.data;
  }

  /** One answer: what it adds to the answers kept, and where the next one is. */
  method ReadRecord(s: Octets, from: nat, ghost r: Record) returns (kept: seq<Answer>, next: nat)
    requires RecordAt(s, from, r) && SteppedOver(r)
    ensures kept == Kept(r) && next == from + |EncodeRecord(r)|
  {
    hide Names, EncodeOwner, EncodeRecord, Fixed, GetU16, GetU32, ValidRecord, Expands, OwnerNames;
    var name, off := ReadOwner(s, from, r);
    FixedAt(s, from, r);
    assert ValidRecord(r);
    FixedFields(s, off, r);
    var qtype := GetU16(s, off);
    off := off + 2;
    var qclass := GetU16(s, off);
    off := off + 2;
    var ttl := GetU32(s, off);
    off := off + 4;
    var rdLength := GetU16(s, off);
    off := off + 2;
    kept := [];
    if qtype == 5 {
      ghost var n := Steps(s, off, r.cname);
      var cname := ReadName(off, s, r.cname, n);
      kept := [Alias(name, qclass, ttl, cname)];
    } else if qtype == 1 {
      kept := [Address(name, qclass, ttl, s[off..off + rdLength])];
    }
    next := off + rdLength;
  }

  /** The loop over the labels of the question. */
  method ReadSections(s: Octets, from: nat, size: nat) returns (sections: seq<Octets>, off: nat)
    requires from <= |s| && Sections(s, from, from + size).Some?
    ensures Sections(s, from, from + size) == Some((sections, off))
  {
    hide Sections;
    sections, off := [], from;
    ghost var stop := from + size;
    while off - from < size
      invariant from <= off && Sections(s, off, stop).Some?
      invariant Sections(s, from, stop).value.0 == sections + Sections(s, off, stop).value.0
      invariant Sections(s, from, stop).value.1 == Sections(s, off, stop).value.1
      decreases |s| - off
    {
      SectionsNeed(s, off, stop);
      var qnameSize: nat := s[off];
      ghost var l := s[off + 1..off + 1 + qnameSize];
      SectionsStep(s, off, stop, l);
      ghost var rest := Sections(s, off + 1 + qnameSize, stop).value.0;
      assert sections + ([l] + rest) == (sections + [l]) + rest;
      off := off + 1;
      sections := sections + [s[off..off + qnameSize]];
      off := off + qnameSize;
    }
    SectionsDone(s, off, stop);
    assert sections + [] == sections;
  }

  /** The question, as `parse` reads it. */
  method ReadQuestion(s: Octets) returns (q: Question, off: nat)
    requires |s| >= 12 && QuestionAt(s).Some?
    ensures QuestionAt(s) == Some((q, off))
  {
    hide GetU16, ZeroAt;
    var size := 0;
    while size < |s| - 12 && s[12 + size] != 0
      invariant size <= |s| - 12 && forall j :: 12 <= j < 12 + size ==> s[j] != 0
    {
      size := size + 1;
    }
    FirstZero(s[12..], size);
    var sections;
    sections, off := ReadSections(s, 12, size);
    off := off + 1;
    q := Question(sections, GetU16(s, off), GetU16(s, off + 2));
    off := off + 4;
  }

  lemma FirstZero(s: Octets, k: nat)
    requires k <= |s| && (forall j :: 0 <= j < k ==> s[j] != 0) && (k < |s| ==> s[k] == 0)
    ensures ZeroAt(s) == k
  {
  }

  /** `parse` on a response to one question: its identifier, the question, and the answers that are addresses
      or aliases, in order, with all their names expanded. */
  method Parse(s: Octets, ghost id: nat, ghost flags: nat, ghost q: Question, ghost rs: seq<Record>,
               ghost authorities: nat, ghost additionals: nat, ghost rest: Octets)
    returns (theId: nat, theFlags: nat, question: Question, answers: seq<Answer>)
    requires id < 0x1_0000 && flags < 0x1_0000 && Words(q) && Sized(q.name) && ZeroFree(q.name) && |rs| < 0x1_0000
    requires s == Header(id, flags, 1, |rs|, authorities, additionals) + EncodeQuestion(q) + rest
    requires RecordsAt(s, 12 + |EncodeQuestion(q)|, rs) && forall r :: r in rs ==> SteppedOver(r)
    ensures theId == id && theFlags == flags && question == q && answers == Answers(rs)
  {
    hide GetU16, QuestionAt, EncodeQuestion, RecordAt, EncodeRecord, Kept, Header, SteppedOver;
    ghost var head := Header(id, flags, 1, |rs|, authorities, additionals);
    HeaderSize(id, flags, 1, |rs|, authorities, additionals);
    QuestionExact(head, q, rest);
    assert s == head + (EncodeQuestion(q) + rest);
    HeaderFields(id, flags, 1, |rs|, authorities, additionals, EncodeQuestion(q) + rest);
    theId := GetU16(s, 0);
    theFlags := GetU16(s, 2);
    var off;
    question, off := ReadQuestion(s);
    var counter := GetU16(s, 6);
    answers := [];
    ghost var left := rs;
    while counter > 0
      invariant counter == |left| && RecordsAt(s, off, left) && forall r :: r in left ==> SteppedOver(r)
      invariant answers + Answers(left) == Answers(rs)
    {
      counter := counter - 1;
      var kept, next := ReadRecord(s, off, left[0]);
      assert answers + (kept + Answers(left[1..])) == answers + kept + Answers(left[1..]);
      answers := answers + kept;
      off := next;
      left := left[1..];
    }
    assert answers + [] == answers;
  }

  lemma HeaderSize(id: nat, flags: nat, questions: nat, answers: nat, authorities: nat, additionals: nat)
    ensures |Header(id, flags, questions, answers, authorities, additionals)| == 12
  {
  }

  // ------------------------------------------------------------ `create`

  /** `domain.split('.')` */
  function Split(domain: Octets): (parts: seq<Octets>)
    ensures parts != []
  {
    if domain == [] then [[]]
    else
      var n := |domain| - 1;
      var before := Split(domain[..n]);
      if domain[n] == 46 then before + [[]]
      else before[..|before| - 1] + [before[|before| - 1] + [domain[n]]]
  }

  method Put8(buf: array<byte>, off: nat, x: byte) returns (next: nat)
    requires off < buf.Length
    modifies buf
    ensures next == off + 1 && buf[..next] == old(buf[..off]) + [x]
  {
    buf[off] := x;
    next := off + 1;
  }

  method Put16(buf: array<byte>, off: nat, n: nat) returns (next: nat)
    requires off + 2 <= buf.Length
    modifies buf
    ensures next == off + 2 && buf[..next] == old(buf[..off]) + PutU16(n)
  {
    var w := PutU16(n);
    buf[off], buf[off + 1] := w[0], w[1];
    next := off + 2;
  }

  method PutPart(buf: array<byte>, off: nat, part: Octets) returns (next: nat)
    requires off + 1 + |part| <= buf.Length
    modifies buf
    ensures next == off + 1 + |part| && buf[..next] == old(buf[..off]) + ([|part| % 256] + part)
  {
    buf[off] := |part| % 256;
    forall j | 0 <= j < |part| { buf[off + 1 + j] := part[j]; }
    next := off + 1 + |part|;
  }

  lemma {:induction false} LabelsSnoc(labels: seq<Octets>, l: Octets)
    ensures EncodeLabels(labels + [l]) == EncodeLabels(labels) + ([|l| % 256] + l)
  {
    var all := labels + [l];
    if labels == [] {
      assert all[1..] == [] && EncodeLabels(all[1..]) == [];
    } else {
      assert all[1..] == labels[1..] + [l];
      LabelsSnoc(labels[1..], l);
    }
  }

  lemma {:induction false} LabelsGrow(labels: seq<Octets>, k: nat)
    requires k <= |labels|
    ensures |EncodeLabels(labels[..k])| <= |EncodeLabels(labels)|
  {
    if k > 0 {
      assert labels[..k][1..] == labels[1..][..k - 1];
      LabelsGrow(labels[1..], k - 1);
    }
  }

  method PutHeader(buf: array<byte>, id: nat)
    requires buf.Length >= 12
    modifies buf
    ensures buf[..12] == Header(id, QUERY_FLAGS, 1, 0, 0, 0)
  {
    hide PutU16;
    var off := Put16(buf, 0, id);
    off := Put16(buf, off, 0x140);
    off := Put16(buf, off, 1);
    off := Put16(buf, off, 0);
    off := Put16(buf, off, 0);
    off := Put16(buf, off, 0);
  }

  method PutLabels(buf: array<byte>, from: nat, parts: seq<Octets>) returns (off: nat)
    requires from + |EncodeLabels(parts)| <= buf.Length
    modifies buf
    ensures off == from + |EncodeLabels(parts)| && buf[..off] == old(buf[..from]) + EncodeLabels(parts)
  {
    hide EncodeLabels;
    ghost var head := buf[..from];
    off := from;
    NoLabels(parts[..0]);
    for k := 0 to |parts|
      invariant off == from + |EncodeLabels(parts[..k])| && off <= buf.Length
      invariant buf[..off] == head + EncodeLabels(parts[..k])
    {
      LabelsSnoc(parts[..k], parts[k]);
      assert parts[..k] + [parts[k]] == parts[..k + 1];
      LabelsGrow(parts, k + 1);
      ghost var piece := [(|parts[k]| % 256) as byte] + parts[k];
      off := PutPart(buf, off, parts[k]);
      assert head + EncodeLabels(parts[..k]) + piece == head + (EncodeLabels(parts[..k]) + piece);
    }
    assert parts[..|parts|] == parts;
  }

  method PutQuestionTail(buf: array<byte>, from: nat, qtype: nat, qclass: nat) returns (off: nat)
    requires from + 5 <= buf.Length
    modifies buf
    ensures off == from + 5 && buf[..off] == old(buf[..from]) + ([0] + PutU16(qtype) + PutU16(qclass))
  {
    hide PutU16;
    ghost var head := buf[..from];
    off := Put8(buf, from, 0);
    off := Put16(buf, off, qtype);
    off := Put16(buf, off, qclass);
    assert head + [0] + PutU16(qtype) + PutU16(qclass) == head + ([0] + PutU16(qtype) + PutU16(qclass));
  }

  /** `create`: the query for a domain. */
  method Create(buf: array<byte>, domain: Octets, id: nat, qtype: nat, qclass: nat) returns (off: nat)
    requires |EncodeQuery(id, Question(Split(domain), qtype, qclass))| <= buf.Length
    modifies buf
    ensures off <= buf.Length && buf[..off] == EncodeQuery(id, Question(Split(domain), qtype, qclass))
  {
    hide PutU16, EncodeLabels, Header;
    HeaderSize(id, QUERY_FLAGS, 1, 0, 0, 0);
    var parts := Split(domain);
    PutHeader(buf, id);
    off := PutLabels(buf, 12, parts);
    off := PutQuestionTail(buf, off, qtype, qclass);
    QueryParts(id, parts, qtype, qclass);
  }

  lemma QueryParts(id: nat, parts: seq<Octets>, qtype: nat, qclass: nat)
    ensures EncodeQuery(id, Question(parts, qtype, qclass))
         == Header(id, QUERY_FLAGS, 1, 0, 0, 0) + EncodeLabels(parts) + ([0] + PutU16(qtype) + PutU16(qclass))
  {
    hide PutU16, EncodeLabels, Header;
  }

  lemma NoLabels(labels: seq<Octets>)
    requires labels == []
    ensures EncodeLabels(labels) == []
  {
  }

  /** The parts of a domain, with dots between them. */
  function Dotted(parts: seq<Octets>): Octets
    requires parts != []
  {
    if |parts| == 1 then parts[0] else Dotted(parts[..|parts| - 1]) + [46] + parts[|parts| - 1]
  }

  /** Splitting loses nothing, and leaves no dot. */
  lemma {:induction false} SplitParts(domain: Octets)
    ensures Dotted(Split(domain)) == domain && forall l :: l in Split(domain) ==> 46 !in l
    decreases |domain|
  {
    if domain != [] {
      var n := |domain| - 1;
      var before, parts := Split(domain[..n]), Split(domain);
      SplitParts(domain[..n]);
      var m := |before| - 1;
      assert domain == domain[..n] + [domain[n]];
      assert forall k :: 0 <= k < |before| ==> 46 !in before[k];
      if domain[n] == 46 {
        assert parts[..|parts| - 1] == before;
      } else if m > 0 {
        assert parts[..m] == before[..m];
        assert Dotted(before[..m]) + [46] + (before[m] + [domain[n]]) == Dotted(before) + [domain[n]];
      }
    }
  }

  /** A query written and read back: for every domain whose labels fit and of which none but the last holds a
      zero octet. */
  method CreateThenParse(buf: array<byte>, domain: Octets, id: nat, qtype: nat, qclass: nat)
    returns (theId: nat, question: Question)
    requires |EncodeQuery(id, Question(Split(domain), qtype, qclass))| <= buf.Length
    requires id < 0x1_0000 && qtype < 0x1_0000 && qclass < 0x1_0000
    requires Sized(Split(domain)) && ZeroFree(Split(domain))
    modifies buf
    ensures theId == id && question == Question(Split(domain), qtype, qclass)
  {
    hide Header, EncodeQuestion;
    ghost var q := Question(Split(domain), qtype, qclass);
    var off := Create(buf, domain, id, qtype, qclass);
    ghost var head := Header(id, QUERY_FLAGS, 1, 0, 0, 0);
    var s := buf[..off];
    assert s == head + EncodeQuestion(q) + [];
    var theFlags, answers;
    theId, theFlags, question, answers := Parse(s, id, QUERY_FLAGS, q, [], 0, 0, []);
  }
}
