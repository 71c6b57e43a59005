/** MD5 as RFC 1321 defines it: one block is sixty-four operations on four registers. */
module Rfc1321 {
  import opened Bits

  type Word = bv32
  datatype Regs = Regs(a: Word, b: Word, c: Word, d: Word)

  // Section 3.3: the initial registers.
  const IV := Regs(0x67452301, 0xefcdab89, 0x98badcfe, 0x10325476)

  // Section 3.4: the four auxiliary functions.
  function F(x: Word, y: Word, z: Word): Word { (x & y) | (!x & z) }

  function G(x: Word, y: Word, z: Word): Word { (x & z) | (y & !z) }

  function H(x: Word, y: Word, z: Word): Word { x ^ y ^ z }

  function I(x: Word, y: Word, z: Word): Word { y ^ (x | !z) }

  function Aux(i: nat, x: Word, y: Word, z: Word): Word {
    if i < 16 then F(x, y, z) else if i < 32 then G(x, y, z) else if i < 48 then H(x, y, z) else I(x, y, z)
  }

  /** Which word of the block operation `i` uses. */
  function K(i: nat): (k: nat)
    ensures k < 16
  {
    if i < 16 then i
    else if i < 32 then (5 * i + 1) % 16
    else if i < 48 then (3 * i + 5) % 16
    else 7 * i % 16
  }

  /** How far operation `i` rotates. */
  function S(i: nat): (s: Word)
    ensures 4 <= s <= 23
  {
    var j := i % 4;
    if i < 16 then (if j == 0 then 7 else if j == 1 then 12 else if j == 2 then 17 else 22)
    else if i < 32 then (if j == 0 then 5 else if j == 1 then 9 else if j == 2 then 14 else 20)
    else if i < 48 then (if j == 0 then 4 else if j == 1 then 11 else if j == 2 then 16 else 23)
    else (if j == 0 then 6 else if j == 1 then 10 else if j == 2 then 15 else 21)
  }

  /** The entry for `i` among the four of its row. */
  function Row(i: nat, t0: Word, t1: Word, t2: Word, t3: Word): Word {
    if i % 4 == 0 then t0 else if i % 4 == 1 then t1 else if i % 4 == 2 then t2 else t3
  }

  /** The integer part of 2^32 times |sin(i + 1)|, from the table in the RFC's appendix. */
  function T(i: nat): Word {
    if i < 16 then
      if i < 4 then Row(i, 0xd76aa478, 0xe8c7b756, 0x242070db, 0xc1bdceee)
      else if i < 8 then Row(i, 0xf57c0faf, 0x4787c62a, 0xa8304613, 0xfd469501)
      else if i < 12 then Row(i, 0x698098d8, 0x8b44f7af, 0xffff5bb1, 0x895cd7be)
      else Row(i, 0x6b901122, 0xfd987193, 0xa679438e, 0x49b40821)
    else if i < 32 then
      if i < 20 then Row(i, 0xf61e2562, 0xc040b340, 0x265e5a51, 0xe9b6c7aa)
      else if i < 24 then Row(i, 0xd62f105d, 0x02441453, 0xd8a1e681, 0xe7d3fbc8)
      else if i < 28 then Row(i, 0x21e1cde6, 0xc33707d6, 0xf4d50d87, 0x455a14ed)
      else Row(i, 0xa9e3e905, 0xfcefa3f8, 0x676f02d9, 0x8d2a4c8a)
    else if i < 48 then
      if i < 36 then Row(i, 0xfffa3942, 0x8771f681, 0x6d9d6122, 0xfde5380c)
      else if i < 40 then Row(i, 0xa4beea44, 0x4bdecfa9, 0xf6bb4b60, 0xbebfbc70)
      else if i < 44 then Row(i, 0x289b7ec6, 0xeaa127fa, 0xd4ef3085, 0x04881d05)
      else Row(i, 0xd9d4d039, 0xe6db99e5, 0x1fa27cf8, 0xc4ac5665)
    else
      if i < 52 then Row(i, 0xf4292244, 0x432aff97, 0xab9423a7, 0xfc93a039)
      else if i < 56 then Row(i, 0x655b59c3, 0x8f0ccc92, 0xffeff47d, 0x85845dd1)
      else if i < 60 then Row(i, 0x6fa87e4f, 0xfe2ce6e0, 0xa3014314, 0x4e0811a1)
      else Row(i, 0xf7537e82, 0xbd3af235, 0x2ad7d2bb, 0xeb86d391)
  }

  function Plus(x: Word, y: Word): Word {
    x + y
  }

  /** u <<< left: a shift left, and a shift right by the rest. */
  function Rotated(u: Word, left: Word, right: Word): Word
    requires 0 < left < 32 && right == 32 - left
  {
    (u << left) | (u >> right)
  }

  /** w + ((v + f + x + t) <<< left) */
  function Mix(v: Word, f: Word, x: Word, t: Word, left: Word, right: Word, w: Word): Word
    requires 0 < left < 32 && right == 32 - left
  {
    Plus(Rotated(Sum(v, f, x, t), left, right), w)
  }

  function Sum(v: Word, f: Word, x: Word, t: Word): Word {
    v + f + x + t
  }

  /** Operation `i`: [ABCD k s i], after which the registers change places. */
  function Op(i: nat, r: Regs, x: seq<Word>): Regs
    requires |x| == 16
  {
    Regs(r.d, Mix(r.a, Aux(i, r.b, r.c, r.d), x[K(i)], T(i), S(i), 32 - S(i), r.b), r.b, r.c)
  }

  /** Operations `i` to `n - 1`. */
  function Ops(r: Regs, x: seq<Word>, i: nat, n: nat): Regs
    requires |x| == 16 && i <= n
    decreases n - i
  {
    if i == n then r else Ops(Op(i, r, x), x, i + 1, n)
  }

  function Compress(h: Regs, x: seq<Word>): Regs
    requires |x| == 16
  {
    var r := Ops(h, x, 0, 4 * |x|);
    Regs(Plus(h.a, r.a), Plus(h.b, r.b), Plus(h.c, r.c), Plus(h.d, r.d))
  }

  // ------------------------------------------------------------ octets and padding

  type Octet = bv8

  /** Sixteen little-endian words. */
  function LittleWord(a: Octet, b: Octet, c: Octet, d: Octet): Word {
    (a as Word) | (b as Word << 8) | (c as Word << 16) | (d as Word << 24)
  }

  function Words(s: seq<Octet>): (x: seq<Word>)
    requires |s| == 64
    ensures |x| == 16
  {
    seq(16, i requires 0 <= i < 16 => LittleWord(s[4 * i], s[4 * i + 1], s[4 * i + 2], s[4 * i + 3]))
  }

  function Chain(h: Regs, s: seq<Octet>): Regs
    requires |s| % 64 == 0
    decreases |s|
  {
    if s == [] then h
    else
      assert |s[64..]| == |s| - 64;
      Chain(Compress(h, Words(s[..64])), s[64..])
  }

  function Zeros(n: nat): (s: seq<Octet>)
    ensures |s| == n && forall i :: 0 <= i < n ==> s[i] == 0
  {
    seq(n, i => 0)
  }

  /** The 32-bit word `n` modulo 2^32, low-order octet first. */
  function WordOf(n: nat): (s: seq<Octet>)
    ensures |s| == 4
  {
    var m := n % 0x1_0000_0000;
    [AsOctet(m % 0x100), AsOctet(m / 0x100 % 0x100), AsOctet(m / 0x1_0000 % 0x100), AsOctet(m / 0x100_0000)]
  }

  /** Sections 3.1 and 3.2: a single one bit, zeros up to 56 modulo 64, the length in bits modulo 2^64 as two
      words, low-order word first. */
  function Padding(n: nat): (s: seq<Octet>)
    ensures (n + |s|) % 64 == 0
  {
    var z := (119 - n % 64) % 64;
    assert (n + 1 + z + 8) % 64 == 0;
    [0x80] + Zeros(z) + WordOf(8 * n) + WordOf(8 * n / 0x1_0000_0000)
  }

  /** Octet `j` of a word, low-order octet first. */
  function OctetOf(w: Word, j: nat): Octet
    requires j < 4
  {
    if j == 0 then (w & 0xff) as Octet
    else if j == 1 then ((w >> 8) & 0xff) as Octet
    else if j == 2 then ((w >> 16) & 0xff) as Octet
    else ((w >> 24) & 0xff) as Octet
  }

  function WordOctets(w: Word): seq<Octet> {
    [OctetOf(w, 0), OctetOf(w, 1), OctetOf(w, 2), OctetOf(w, 3)]
  }

  /** A message with its padding: whole blocks. */
  function Padded(m: seq<Octet>): (p: seq<Octet>)
    ensures |p| % 64 == 0
  {
    m + Padding(|m|)
  }

  /** The message digest of `m`. */
  function Digest(m: seq<Octet>): seq<Octet> {
    var h := Chain(IV, Padded(m));
    WordOctets(h.a) + WordOctets(h.b) + WordOctets(h.c) + WordOctets(h.d)
  }

  // ------------------------------------------------------------ what the operations on words are

  /** Section 2: four octets are a word with the low-order octet first. */
  function Value(s: seq<Octet>): nat
    requires |s| == 4
  {
    s[0] as int + 0x100 * s[1] as int + 0x1_0000 * s[2] as int + 0x100_0000 * s[3] as int
  }

  lemma PairValue(a: Octet, b: Octet)
    ensures ((a as bv16) | (b as bv16 << 8)) as int == a as int + 0x100 * b as int
  {
  }

  lemma JoinedValue(x: bv16, y: bv16)
    ensures ((x as Word) | (y as Word << 16)) as int == x as int + 0x1_0000 * y as int
  {
  }

  lemma TwoPairs(a: Octet, b: Octet, c: Octet, d: Octet)
    ensures var x, y := (a as bv16) | (b as bv16 << 8), (c as bv16) | (d as bv16 << 8);
      LittleWord(a, b, c, d) == (x as Word) | (y as Word << 16)
  {
  }

  lemma LittleWordValue(a: Octet, b: Octet, c: Octet, d: Octet)
    ensures LittleWord(a, b, c, d) as int == Value([a, b, c, d])
  {
    hide LittleWord;
    var x, y := (a as bv16) | (b as bv16 << 8), (c as bv16) | (d as bv16 << 8);
    TwoPairs(a, b, c, d);
    PairValue(a, b);
    PairValue(c, d);
    JoinedValue(x, y);
  }

  lemma OctetsOfLittle(a: Octet, b: Octet, c: Octet, d: Octet)
    ensures var w := LittleWord(a, b, c, d);
      OctetOf(w, 0) == a && OctetOf(w, 1) == b && OctetOf(w, 2) == c && OctetOf(w, 3) == d
  {
  }

  lemma LittleOfOctets(w: Word)
    ensures LittleWord(OctetOf(w, 0), OctetOf(w, 1), OctetOf(w, 2), OctetOf(w, 3)) == w
  {
  }

  /** A block is sixteen words, each of the next four octets, the low-order one first. */
  lemma WordsAre(s: seq<Octet>, i: nat)
    requires |s| == 64 && i < 16
    ensures Words(s)[i] as int == Value(s[4 * i..4 * i + 4])
    ensures forall j :: 0 <= j < 4 ==> OctetOf(Words(s)[i], j) == s[4 * i + j]
  {
    hide LittleWord, OctetOf;
    var a, b, c, d := s[4 * i], s[4 * i + 1], s[4 * i + 2], s[4 * i + 3];
    LittleWordValue(a, b, c, d);
    OctetsOfLittle(a, b, c, d);
    assert s[4 * i..4 * i + 4] == [a, b, c, d];
    assert Words(s)[i] == LittleWord(a, b, c, d);
  }

  /** And there is no other reading of a block. */
  lemma WordsExact(s: seq<Octet>, x: seq<Word>)
    requires |s| == 64 && |x| == 16
    ensures x == Words(s) <==> forall i, j :: 0 <= i < 16 && 0 <= j < 4 ==> OctetOf(x[i], j) == s[4 * i + j]
  {
    hide LittleWord, OctetOf;
    forall i | 0 <= i < 16
      ensures forall j :: 0 <= j < 4 ==> OctetOf(Words(s)[i], j) == s[4 * i + j]
      ensures x[i] == LittleWord(OctetOf(x[i], 0), OctetOf(x[i], 1), OctetOf(x[i], 2), OctetOf(x[i], 3))
    {
      WordsAre(s, i);
      LittleOfOctets(x[i]);
    }
    if forall i, j :: 0 <= i < 16 && 0 <= j < 4 ==> OctetOf(x[i], j) == s[4 * i + j] {
      forall i | 0 <= i < 16 ensures x[i] == Words(s)[i] {
        assert OctetOf(x[i], 0) == s[4 * i + 0] && OctetOf(x[i], 1) == s[4 * i + 1];
        assert OctetOf(x[i], 2) == s[4 * i + 2] && OctetOf(x[i], 3) == s[4 * i + 3];
      }
    }
  }

  /** The octets of the digest: each register with its low-order octet first. */
  lemma WordOctetsValue(w: Word)
    ensures Value(WordOctets(w)) == w as int
  {
    hide LittleWord, OctetOf;
    LittleOfOctets(w);
    LittleWordValue(OctetOf(w, 0), OctetOf(w, 1), OctetOf(w, 2), OctetOf(w, 3));
  }

  lemma Digits(m: nat)
    ensures m == m % 0x100 + 0x100 * (m / 0x100 % 0x100) + 0x1_0000 * (m / 0x1_0000 % 0x100)
                 + 0x100_0000 * (m / 0x100_0000)
  {
    var a, b, c := m / 0x100, m / 0x1_0000, m / 0x100_0000;
    assert b == a / 0x100 && c == b / 0x100;
    assert m == a * 0x100 + m % 0x100 && a == b * 0x100 + a % 0x100 && b == c * 0x100 + b % 0x100;
  }

  /** The octets of the message length: its value modulo 2^32, the low-order octet first. */
  lemma WordOfValue(n: nat)
    ensures Value(WordOf(n)) == n % 0x1_0000_0000
  {
    hide AsOctet;
    var m := n % 0x1_0000_0000;
    OctetValue(m % 0x100);
    OctetValue(m / 0x100 % 0x100);
    OctetValue(m / 0x1_0000 % 0x100);
    OctetValue(m / 0x100_0000);
    Digits(m);
  }

  /** By each of the sixteen numbers in S, this is the rotation to the left. */
  lemma RotatesLeft(u: Word)
    ensures Rotated(u, 4, 28) == u.RotateLeft(4)
    ensures Rotated(u, 5, 27) == u.RotateLeft(5)
    ensures Rotated(u, 6, 26) == u.RotateLeft(6)
    ensures Rotated(u, 7, 25) == u.RotateLeft(7)
    ensures Rotated(u, 9, 23) == u.RotateLeft(9)
    ensures Rotated(u, 10, 22) == u.RotateLeft(10)
    ensures Rotated(u, 11, 21) == u.RotateLeft(11)
    ensures Rotated(u, 12, 20) == u.RotateLeft(12)
    ensures Rotated(u, 14, 18) == u.RotateLeft(14)
    ensures Rotated(u, 15, 17) == u.RotateLeft(15)
    ensures Rotated(u, 16, 16) == u.RotateLeft(16)
    ensures Rotated(u, 17, 15) == u.RotateLeft(17)
    ensures Rotated(u, 20, 12) == u.RotateLeft(20)
    ensures Rotated(u, 21, 11) == u.RotateLeft(21)
    ensures Rotated(u, 22, 10) == u.RotateLeft(22)
    ensures Rotated(u, 23, 9) == u.RotateLeft(23)
  {
  }
}
