/** UTF-16 strings and their UTF-8 octets, RFC 3629. */
module Utf8 {
  type Unit = bv16
  type Point = bv32
  type Octet = bv8

  predicate High(u: Unit) { 0xd800 <= u < 0xdc00 }

  predicate Low(u: Unit) { 0xdc00 <= u < 0xe000 }

  /** Every surrogate is half of a pair. */
  predicate WellFormed(s: seq<Unit>)
    decreases |s|
  {
    s == [] ||
    if High(s[0]) then 2 <= |s| && Low(s[1]) && WellFormed(s[2..])
    else !Low(s[0]) && WellFormed(s[1..])
  }

  function Pair(high: Unit, low: Unit): Point {
    var h, l := high as Point, low as Point;
    0x10000 + (((h - 0xd800) << 10) + (l - 0xdc00))
  }

  /** The characters of a well-formed string. */
  function Points(s: seq<Unit>): seq<Point>
    requires WellFormed(s)
    decreases |s|
  {
    if s == [] then []
    else if High(s[0]) then [Pair(s[0], s[1])] + Points(s[2..])
    else [s[0] as Point] + Points(s[1..])
  }

  predicate Scalar(p: Point) {
    p < 0x110000 && !(0xd800 <= p < 0xe000)
  }

  /** Section 3 of RFC 3629: one to four octets. */
  function EncodePoint(p: Point): (s: seq<Octet>)
    requires Scalar(p)
    ensures 1 <= |s| <= 4
  {
    if p < 0x80 then [p as Octet]
    else if p < 0x800 then [LeadOfTwo(p), Tail(p)]
    else if p < 0x10000 then [LeadOfThree(p), Tail(p >> 6), Tail(p)]
    else [LeadOfFour(p), Tail(p >> 12), Tail(p >> 6), Tail(p)]
  }

  /** The first octets: the high bits of `p` under a marker that gives the number of octets. */
  function LeadOfTwo(p: Point): Octet
    requires p < 0x800
  {
    (0xc0 | (p >> 6)) as Octet
  }

  function LeadOfThree(p: Point): Octet
    requires p < 0x10000
  {
    (0xe0 | (p >> 12)) as Octet
  }

  function LeadOfFour(p: Point): Octet
    requires p < 0x110000
  {
    (0xf0 | (p >> 18)) as Octet
  }

  /** A continuation octet: the low six bits of `p` under the marker 10. */
  function Tail(p: Point): Octet {
    (0x80 | (p & 0x3f)) as Octet
  }

  lemma PairIsScalar(high: Unit, low: Unit)
    requires High(high) && Low(low)
    ensures Scalar(Pair(high, low)) && 0x10000 <= Pair(high, low)
  {
  }

  predicate Scalars(ps: seq<Point>) {
    forall i :: 0 <= i < |ps| ==> Scalar(ps[i])
  }

  function Encode(ps: seq<Point>): seq<Octet>
    requires Scalars(ps)
  {
    if ps == [] then [] else EncodePoint(ps[0]) + Encode(ps[1..])
  }

  // ------------------------------------------------------------ the encoding can be read back

  /** The bits that two, three or four octets carry. */
  function TwoOf(a: Octet, b: Octet): Point {
    (((a as Point) & 0x1f) << 6) | ((b as Point) & 0x3f)
  }

  function ThreeOf(a: Octet, b: Octet, c: Octet): Point {
    (((a as Point) & 0x0f) << 12) | (((b as Point) & 0x3f) << 6) | ((c as Point) & 0x3f)
  }

  function FourOf(a: Octet, b: Octet, c: Octet, d: Octet): Point {
    (((a as Point) & 0x07) << 18) | (((b as Point) & 0x3f) << 12) | (((c as Point) & 0x3f) << 6) | ((d as Point) & 0x3f)
  }

  /** The first character of an encoding, and its length. */
  function DecodePoint(s: seq<Octet>): (Point, nat)
    requires s != []
  {
    if s[0] < 0x80 || |s| < 2 then (s[0] as Point, 1)
    else if s[0] < 0xe0 || |s| < 3 then (TwoOf(s[0], s[1]), 2)
    else if s[0] < 0xf0 || |s| < 4 then (ThreeOf(s[0], s[1], s[2]), 3)
    else (FourOf(s[0], s[1], s[2], s[3]), 4)
  }

  lemma TwoBits(p: Point)
    requires 0x80 <= p < 0x800
    ensures 0x80 <= LeadOfTwo(p) < 0xe0 && TwoOf(LeadOfTwo(p), Tail(p)) == p
  {
  }

  lemma ThreeBits(p: Point)
    requires 0x800 <= p < 0x10000
    ensures 0xe0 <= LeadOfThree(p) < 0xf0 && ThreeOf(LeadOfThree(p), Tail(p >> 6), Tail(p)) == p
  {
  }

  lemma FourBits(p: Point)
    requires 0x10000 <= p < 0x110000
    ensures 0xf0 <= LeadOfFour(p) && FourOf(LeadOfFour(p), Tail(p >> 12), Tail(p >> 6), Tail(p)) == p
  {
  }

  /** The octets of `p` announce their number and decode to `p`. */
  ghost predicate Reads(p: Point)
    requires Scalar(p)
  {
    var s := EncodePoint(p);
    |s| == Length(s[0]) && DecodePoint(s) == (p, |s|)
  }

  lemma ReadsOne(p: Point)
    requires p < 0x80
    ensures Reads(p)
  {
  }

  lemma ReadsTwo(p: Point)
    requires 0x80 <= p < 0x800
    ensures Reads(p)
  {
    hide Tail, LeadOfTwo, TwoOf;
    TwoBits(p);
  }

  lemma ReadsThree(p: Point)
    requires Scalar(p) && 0x800 <= p < 0x10000
    ensures Reads(p)
  {
    hide Tail, LeadOfThree, ThreeOf;
    ThreeBits(p);
  }

  lemma ReadsFour(p: Point)
    requires Scalar(p) && 0x10000 <= p
    ensures Reads(p)
  {
    hide Tail, LeadOfFour, FourOf;
    FourBits(p);
  }

  /** Each character is recovered from the octets written for it, whatever follows them. */
  lemma PointRoundTrip(p: Point, rest: seq<Octet>)
    requires Scalar(p)
    ensures DecodePoint(EncodePoint(p) + rest) == (p, |EncodePoint(p)|)
  {
    hide DecodePoint, EncodePoint, Length;
    if p < 0x80 { ReadsOne(p); }
    else if p < 0x800 { ReadsTwo(p); }
    else if p < 0x10000 { ReadsThree(p); }
    else { ReadsFour(p); }
    ReadsFirst(EncodePoint(p), rest);
  }

  /** The first octet says how many octets to read. */
  function Length(a: Octet): nat {
    if a < 0x80 then 1 else if a < 0xe0 then 2 else if a < 0xf0 then 3 else 4
  }

  lemma ReadsFirst(s: seq<Octet>, rest: seq<Octet>)
    requires s != [] && |s| == Length(s[0])
    ensures DecodePoint(s + rest) == DecodePoint(s)
  {
    hide TwoOf, ThreeOf, FourOf;
    assert forall i :: 0 <= i < |s| ==> (s + rest)[i] == s[i];
  }

  // ------------------------------------------------------------ the encoder of the MD5 client

  /** The octets the client writes for the unit at `k`, and how many units it takes.  A surrogate takes the
      next unit with it; past the end of the string that unit counts as zero. */
  function UnitOctets(s: seq<Unit>, k: nat): (r: (seq<Octet>, nat))
    requires k < |s|
    ensures 1 <= |r.0| <= 4 && 1 <= r.1 <= 2
  {
    var code := s[k] as Point;
    if code < 0x80 then ([code as Octet], 1)
    else if code < 0x800 then ([(0xc0 | (code >> 6)) as Octet, (0x80 | (code & 0x3f)) as Octet], 1)
    else if code < 0xd800 || code >= 0xe000 then
      ([(0xe0 | (code >> 12)) as Octet, (0x80 | ((code >> 6) & 0x3f)) as Octet, (0x80 | (code & 0x3f)) as Octet], 1)
    else
      var next := if k + 1 < |s| then s[k + 1] as Point else 0;
      var code := 0x10000 + (((code & 0x3ff) << 10) | (next & 0x3ff));
      ([(0xf0 | (code >> 18)) as Octet, (0x80 | ((code >> 12) & 0x3f)) as Octet,
        (0x80 | ((code >> 6) & 0x3f)) as Octet, (0x80 | (code & 0x3f)) as Octet], 2)
  }

  function Octets(s: seq<Unit>, k: nat): seq<Octet>
    decreases |s| - k
  {
    if |s| <= k then [] else UnitOctets(s, k).0 + Octets(s, k + UnitOctets(s, k).1)
  }

  lemma SingleUnit(s: seq<Unit>, k: nat)
    requires k < |s| && !High(s[k]) && !Low(s[k])
    ensures Scalar(s[k] as Point) && UnitOctets(s, k) == (EncodePoint(s[k] as Point), 1)
  {
  }

  lemma SurrogateBits(h: Point, l: Point)
    requires 0xd800 <= h < 0xdc00 && 0xdc00 <= l < 0xe000
    ensures h - 0xd800 == h & 0x3ff && l - 0xdc00 == l & 0x3ff && h & 0x3ff < 1024 && l & 0x3ff < 1024
  {
  }

  lemma Joined(x: Point, y: Point)
    requires x < 1024 && y < 1024
    ensures (x << 10) + y == (x << 10) | y
  {
  }

  lemma PairBits(h: Point, l: Point)
    requires 0xd800 <= h < 0xdc00 && 0xdc00 <= l < 0xe000
    ensures 0x10000 + (((h - 0xd800) << 10) + (l - 0xdc00)) == 0x10000 + (((h & 0x3ff) << 10) | (l & 0x3ff))
  {
    SurrogateBits(h, l);
    Joined(h & 0x3ff, l & 0x3ff);
  }

  lemma PairOfUnits(s: seq<Unit>, k: nat)
    requires k + 1 < |s| && High(s[k]) && Low(s[k + 1])
    ensures Scalar(Pair(s[k], s[k + 1])) && UnitOctets(s, k) == (EncodePoint(Pair(s[k], s[k + 1])), 2)
  {
    PairBits(s[k] as Point, s[k + 1] as Point);
    PairIsScalar(s[k], s[k + 1]);
  }

  lemma EncodeFirst(p: Point, ps: seq<Point>)
    requires Scalar(p) && Scalars(ps)
    ensures Scalars([p] + ps) && Encode([p] + ps) == EncodePoint(p) + Encode(ps)
  {
    hide Scalar, EncodePoint;
    assert ([p] + ps)[1..] == ps;
  }

  lemma Empty(s: seq<Unit>)
    requires s == []
    ensures Points(s) == [] && Scalars(Points(s)) && Encode(Points(s)) == []
  {
  }

  lemma {:induction false} OctetsFrom(s: seq<Unit>, k: nat)
    requires k <= |s| && WellFormed(s[k..])
    ensures Scalars(Points(s[k..])) && Octets(s, k) == Encode(Points(s[k..]))
    decreases |s| - k
  {
    hide UnitOctets, EncodePoint, Encode, Scalar, Scalars, Pair, High, Low;
    if k == |s| {
      Empty(s[k..]);
    } else {
      var t := s[k..];
      if High(s[k]) {
        assert t[2..] == s[k + 2..];
        PairOfUnits(s, k);
        OctetsFrom(s, k + 2);
        EncodeFirst(Pair(s[k], s[k + 1]), Points(s[k + 2..]));
      } else {
        assert t[1..] == s[k + 1..];
        SingleUnit(s, k);
        OctetsFrom(s, k + 1);
        EncodeFirst(s[k] as Point, Points(s[k + 1..]));
      }
    }
  }

  /** A well-formed string is written as its UTF-8 octets. */
  lemma WellFormedAsUtf8(s: seq<Unit>)
    requires WellFormed(s)
    ensures Scalars(Points(s)) && Octets(s, 0) == Encode(Points(s))
  {
    assert s[0..] == s;
    OctetsFrom(s, 0);
  }
}
