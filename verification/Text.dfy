/** Text as octets and as UTF-16 code units: what is well formed in the one is in the other, and how long it is. */
module Text {
  import B = Bytes
  import opened Bits
  import opened Utf8

  function AsByte(o: Octet): B.byte {
    o as int
  }

  function AsBytes(s: seq<Octet>): (t: B.Octets)
    ensures |t| == |s|
  {
    seq(|s|, i requires 0 <= i < |s| => AsByte(s[i]))
  }

  function AsOctets(t: B.Octets): (s: seq<Octet>)
    ensures |s| == |t|
  {
    seq(|t|, i requires 0 <= i < |t| => AsOctet(t[i]))
  }

  lemma SameOrder(a: Octet, b: Octet)
    ensures a < b <==> AsByte(a) < AsByte(b)
  {
  }

  lemma BytesBack(t: B.Octets)
    ensures AsBytes(AsOctets(t)) == t
  {
    hide AsOctet;
    forall i | 0 <= i < |t| ensures AsBytes(AsOctets(t))[i] == t[i] { OctetValue(t[i]); }
  }

  // ------------------------------------------------------------ characters

  predicate Trail(o: Octet) {
    0x80 <= o < 0xc0
  }

  predicate Second(a: Octet, b: Octet) {
    && (a == 0xe0 ==> 0xa0 <= b) && (a == 0xed ==> b < 0xa0)
    && (a == 0xf0 ==> 0x90 <= b) && (a == 0xf4 ==> b < 0x90)
  }

  /** Octets of the character at the head of `s`, or 0 when there is none. */
  function Size(s: seq<Octet>): (n: nat)
    requires s != []
    ensures n <= |s| && n <= 4
  {
    if s[0] < 0x80 then 1
    else if 0xc2 <= s[0] < 0xe0 && 2 <= |s| && Trail(s[1]) then 2
    else if 0xe0 <= s[0] < 0xf0 && 3 <= |s| && Trail(s[1]) && Trail(s[2]) && Second(s[0], s[1]) then 3
    else if 0xf0 <= s[0] < 0xf5 && 4 <= |s| && Trail(s[1]) && Trail(s[2]) && Trail(s[3]) && Second(s[0], s[1]) then 4
    else 0
  }

  lemma SameTrail(o: Octet)
    ensures Trail(o) <==> 0x80 <= AsByte(o) < 0xc0
  {
    SameOrder(o, 0x80);
    SameOrder(o, 0xc0);
  }

  lemma SameSecond(a: Octet, b: Octet)
    ensures Second(a, b) <==> B.Second(AsByte(a), AsByte(b))
  {
  }

  lemma SameLead(a: Octet)
    ensures a < 0x80 <==> AsByte(a) < 0x80
    ensures 0xc2 <= a < 0xe0 <==> 0xc2 <= AsByte(a) < 0xe0
    ensures 0xe0 <= a < 0xf0 <==> 0xe0 <= AsByte(a) < 0xf0
    ensures 0xf0 <= a < 0xf5 <==> 0xf0 <= AsByte(a) < 0xf5
  {
  }

  lemma SameSize(s: seq<Octet>)
    requires s != []
    ensures B.CharSize(AsBytes(s)) == Size(s)
  {
    hide AsByte, Trail, Second, B.Second;
    var t := AsBytes(s);
    SameLead(s[0]);
    if 2 <= |s| {
      assert t[1] == AsByte(s[1]);
      SameTrail(s[1]);
      SameSecond(s[0], s[1]);
    }
    if 3 <= |s| {
      assert t[2] == AsByte(s[2]);
      SameTrail(s[2]);
    }
    if 4 <= |s| {
      assert t[3] == AsByte(s[3]);
      SameTrail(s[3]);
    }
    assert B.Trails(t, 1) <==> 2 <= |s| && Trail(s[1]);
    assert B.Trails(t, 2) <==> 3 <= |s| && Trail(s[1]) && Trail(s[2]);
    assert B.Trails(t, 3) <==> 4 <= |s| && Trail(s[1]) && Trail(s[2]) && Trail(s[3]);
  }

  lemma TwoAre(p: Point)
    requires 0x80 <= p < 0x800
    ensures 0xc2 <= LeadOfTwo(p) < 0xe0 && Trail(Tail(p))
  {
  }

  lemma ThreeAre(p: Point)
    requires 0x800 <= p < 0x10000 && Scalar(p)
    ensures 0xe0 <= LeadOfThree(p) < 0xf0 && Trail(Tail(p >> 6)) && Trail(Tail(p))
    ensures Second(LeadOfThree(p), Tail(p >> 6))
  {
  }

  lemma FourAre(p: Point)
    requires 0x10000 <= p < 0x110000
    ensures 0xf0 <= LeadOfFour(p) < 0xf5 && Trail(Tail(p >> 12)) && Trail(Tail(p >> 6)) && Trail(Tail(p))
    ensures Second(LeadOfFour(p), Tail(p >> 12))
  {
  }

  /** What is written for a code point is one character, whatever follows. */
  lemma OneCharacter(p: Point, rest: seq<Octet>)
    requires Scalar(p)
    ensures var e := EncodePoint(p);
      && Size(e + rest) == |e| && |e| == if p < 0x80 then 1 else if p < 0x800 then 2 else if p < 0x10000 then 3 else 4
  {
    hide LeadOfTwo, LeadOfThree, LeadOfFour, Tail, Trail, Second;
    var e := EncodePoint(p);
    var s := e + rest;
    assert forall i :: 0 <= i < |e| ==> s[i] == e[i];
    if p < 0x80 {
    } else if p < 0x800 {
      TwoAre(p);
    } else if p < 0x10000 {
      ThreeAre(p);
    } else {
      FourAre(p);
    }
  }

  lemma TwoFrom(a: Octet, b: Octet)
    requires 0xc2 <= a < 0xe0 && Trail(b)
    ensures var p := TwoOf(a, b); 0x80 <= p < 0x800 && Scalar(p) && LeadOfTwo(p) == a && Tail(p) == b
  {
  }

  lemma ThreeFrom(a: Octet, b: Octet, c: Octet)
    requires 0xe0 <= a < 0xf0 && Trail(b) && Trail(c) && Second(a, b)
    ensures var p := ThreeOf(a, b, c);
      0x800 <= p < 0x10000 && Scalar(p) && LeadOfThree(p) == a && Tail(p >> 6) == b && Tail(p) == c
  {
  }

  lemma FourFrom(a: Octet, b: Octet, c: Octet, d: Octet)
    requires 0xf0 <= a < 0xf5 && Trail(b) && Trail(c) && Trail(d) && Second(a, b)
    ensures var p := FourOf(a, b, c, d);
      && 0x10000 <= p < 0x110000 && Scalar(p)
      && LeadOfFour(p) == a && Tail(p >> 12) == b && Tail(p >> 6) == c && Tail(p) == d
  {
  }

  lemma EncodeTwo(a: Octet, b: Octet)
    requires 0xc2 <= a < 0xe0 && Trail(b)
    ensures var p := TwoOf(a, b); Scalar(p) && EncodePoint(p) == [a, b]
  {
    hide LeadOfTwo, Tail, Trail, TwoOf, Scalar;
    TwoFrom(a, b);
  }

  lemma EncodeThree(a: Octet, b: Octet, c: Octet)
    requires 0xe0 <= a < 0xf0 && Trail(b) && Trail(c) && Second(a, b)
    ensures var p := ThreeOf(a, b, c); Scalar(p) && EncodePoint(p) == [a, b, c]
  {
    hide LeadOfThree, Tail, Trail, Second, ThreeOf, Scalar;
    ThreeFrom(a, b, c);
  }

  lemma EncodeFour(a: Octet, b: Octet, c: Octet, d: Octet)
    requires 0xf0 <= a < 0xf5 && Trail(b) && Trail(c) && Trail(d) && Second(a, b)
    ensures var p := FourOf(a, b, c, d); Scalar(p) && EncodePoint(p) == [a, b, c, d]
  {
    hide LeadOfFour, Tail, Trail, Second, FourOf, Scalar;
    FourFrom(a, b, c, d);
  }

  lemma EncodeOne(a: Octet)
    requires a < 0x80
    ensures Scalar(a as Point) && EncodePoint(a as Point) == [a]
  {
  }

  /** And every character is what is written for some code point. */
  lemma SomePoint(s: seq<Octet>) returns (p: Point)
    requires s != [] && Size(s) != 0
    ensures Scalar(p) && EncodePoint(p) == s[..Size(s)]
  {
    hide Trail, Second, TwoOf, ThreeOf, FourOf, EncodePoint, Scalar;
    var n := Size(s);
    if n == 1 {
      p := s[0] as Point;
      EncodeOne(s[0]);
    } else if n == 2 {
      p := TwoOf(s[0], s[1]);
      EncodeTwo(s[0], s[1]);
    } else if n == 3 {
      p := ThreeOf(s[0], s[1], s[2]);
      EncodeThree(s[0], s[1], s[2]);
    } else {
      p := FourOf(s[0], s[1], s[2], s[3]);
      EncodeFour(s[0], s[1], s[2], s[3]);
    }
  }

  // ------------------------------------------------------------ strings

  function HighOf(p: Point): Unit {
    (0xd800 + (((p - 0x10000) >> 10) & 0x3ff)) as Unit
  }

  function LowOf(p: Point): Unit {
    (0xdc00 + ((p - 0x10000) & 0x3ff)) as Unit
  }

  lemma PairBack(p: Point)
    requires 0x10000 <= p < 0x110000
    ensures High(HighOf(p)) && Low(LowOf(p)) && Pair(HighOf(p), LowOf(p)) == p
  {
  }

  lemma OneUnit(p: Point)
    requires Scalar(p) && p < 0x10000
    ensures var u := p as Unit; !High(u) && !Low(u) && u as Point == p
  {
  }

  lemma Within(p: Point)
    requires Scalar(p)
    ensures p < 0x110000
  {
  }

  /** A code point in units: one below 0x10000, else a surrogate pair. */
  lemma UnitsOf(p: Point, rest: seq<Unit>) returns (units: seq<Unit>)
    requires Scalar(p) && WellFormed(rest)
    ensures |units| == (if p < 0x10000 then 1 else 2) && WellFormed(units + rest)
    ensures Points(units + rest) == [p] + Points(rest)
  {
    hide Scalar, Pair, High, Low, HighOf, LowOf;
    if p < 0x10000 {
      OneUnit(p);
      units := [p as Unit];
      assert (units + rest)[1..] == rest;
    } else {
      Within(p);
      PairBack(p);
      units := [HighOf(p), LowOf(p)];
      assert (units + rest)[2..] == rest;
    }
  }

  lemma PairIsLong(high: Unit, low: Unit)
    requires High(high) && Low(low)
    ensures 0x10000 <= Pair(high, low) < 0x110000
  {
  }

  lemma SplitBytes(a: seq<Octet>, b: seq<Octet>)
    ensures AsBytes(a + b) == AsBytes(a) + AsBytes(b) && AsBytes(a + b)[|a|..] == AsBytes(b)
  {
    hide AsByte;
  }

  /** One character more in front. */
  lemma CharacterFirst(p: Point, rest: seq<Octet>)
    requires Scalar(p)
    ensures var e := EncodePoint(p); var s := AsBytes(e + rest);
      && (B.Utf8(s) <==> B.Utf8(AsBytes(rest)))
      && B.JsLength(s) == (if p < 0x10000 then 1 else 2) + B.JsLength(AsBytes(rest))
  {
    hide EncodePoint, B.CharSize, Size;
    var e := EncodePoint(p);
    OneCharacter(p, rest);
    SameSize(e + rest);
    SplitBytes(e, rest);
  }

  lemma NoCharacters(s: seq<Octet>)
    requires s == []
    ensures AsBytes(s) == [] && B.Utf8(AsBytes(s)) && B.JsLength(AsBytes(s)) == 0
  {
  }

  /** The octets of a well-formed string are well-formed UTF-8, and as a string they are as long as it was. */
  lemma {:induction false} UnitsCounted(u: seq<Unit>)
    requires WellFormed(u)
    ensures Scalars(Points(u))
    ensures var s := AsBytes(Encode(Points(u))); B.Utf8(s) && B.JsLength(s) == |u|
    decreases |u|
  {
    hide EncodePoint, Pair, Scalar;
    if u == [] {
      NoCharacters(Encode(Points(u)));
    } else if High(u[0]) {
      var p, rest := Pair(u[0], u[1]), Points(u[2..]);
      PairIsScalar(u[0], u[1]);
      PairIsLong(u[0], u[1]);
      UnitsCounted(u[2..]);
      EncodeFirst(p, rest);
      CharacterFirst(p, Encode(rest));
    } else {
      var p, rest := u[0] as Point, Points(u[1..]);
      SingleUnit(u, 0);
      UnitsCounted(u[1..]);
      EncodeFirst(p, rest);
      CharacterFirst(p, Encode(rest));
    }
  }

  /** Every well-formed UTF-8 text is what some well-formed string is written as. */
  lemma {:induction false} SomeString(s: seq<Octet>) returns (u: seq<Unit>)
    requires B.Utf8(AsBytes(s))
    ensures WellFormed(u) && Scalars(Points(u)) && Encode(Points(u)) == s
    decreases |s|
  {
    hide EncodePoint, Scalar, Size, B.CharSize;
    if s == [] {
      u := [];
      Empty(u);
    } else {
      SameSize(s);
      var n := Size(s);
      var rest := s[n..];
      var p := SomePoint(s);
      assert s == s[..n] + rest;
      SplitBytes(s[..n], rest);
      var more := SomeString(rest);
      var units := UnitsOf(p, more);
      EncodeFirst(p, Points(more));
      u := units + more;
    }
  }

  /** Octets are well-formed UTF-8 exactly if they are what a well-formed string is written as; and `JsLength`
      is then the number of its code units. */
  lemma TextExact(t: B.Octets)
    ensures B.Utf8(t) <==> exists u: seq<Unit> :: WellFormed(u) && AsBytes(Octets(u, 0)) == t
    ensures forall u: seq<Unit> :: WellFormed(u) && AsBytes(Octets(u, 0)) == t ==> B.JsLength(t) == |u|
  {
    hide WellFormed, Encode, Points, Octets, AsBytes, B.Utf8, B.JsLength;
    forall u: seq<Unit> | WellFormed(u) && AsBytes(Octets(u, 0)) == t ensures B.Utf8(t) && B.JsLength(t) == |u| {
      WellFormedAsUtf8(u);
      UnitsCounted(u);
    }
    if B.Utf8(t) {
      BytesBack(t);
      var u := SomeString(AsOctets(t));
      WellFormedAsUtf8(u);
      assert AsBytes(Octets(u, 0)) == t;
    }
  }
}
