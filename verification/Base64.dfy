/** Base64, section 4 of RFC 4648: two encoders, and a decoder with a fast loop over clean groups and a slow
    path for the others. */
module Base64 {
  import B = Bytes

  type Octet = bv8
  type Octets = seq<Octet>

  const PAD: Octet := 61

  // ------------------------------------------------------------ the alphabet

  function Alphabet(v: Octet): Octet
    requires v < 64
  {
    if v < 26 then v + 65 else if v < 52 then v + 71 else if v < 62 then v - 4 else if v == 62 then 43 else 47
  }

  /** The decoder's table, which also takes the two letters of the URL-safe alphabet; 255 and 254 stand for
      the negative entries. */
  function Unbase64(c: Octet): Octet {
    if 65 <= c <= 90 then c - 65
    else if 97 <= c <= 122 then c - 71
    else if 48 <= c <= 57 then c + 4
    else if c == 43 || c == 45 then 62
    else if c == 47 || c == 95 then 63
    else if c == 10 || c == 13 || c == 32 then 254
    else 255
  }

  predicate Legal(c: Octet) {
    Unbase64(c) < 64
  }

  lemma AlphabetInverse(v: Octet)
    requires v < 64
    ensures Unbase64(Alphabet(v)) == v && Alphabet(v) != PAD
  {
  }

  const CAPITALS := "ABCDEFGHIJKLMNOPQRSTUVWXYZ"
  const SMALL := "abcdefghijklmnopqrstuvwxyz"
  const DIGITS := "0123456789"

  /** The 64 characters of Table 1 of RFC 4648, in order. */
  function Letter(k: nat): char
    requires k < 64
  {
    if k < 26 then CAPITALS[k] else if k < 52 then SMALL[k - 26] else if k < 62 then DIGITS[k - 52] else "+/"[k - 62]
  }

  lemma LetterCode(k: nat)
    requires k < 64
    ensures Letter(k) as int
         == if k < 26 then k + 65 else if k < 52 then k + 71 else if k < 62 then k - 4 else if k == 62 then 43 else 47
  {
  }

  lemma SixBits(v: Octet)
    requires v < 64
    ensures v as int < 64
    ensures (v < 26 <==> v as int < 26) && (v < 52 <==> v as int < 52) && (v < 62 <==> v as int < 62)
    ensures v == 62 <==> v as int == 62
  {
  }

  lemma AlphabetCode(v: Octet)
    requires v < 64
    ensures v < 26 ==> (v + 65) as int == v as int + 65
    ensures 26 <= v < 52 ==> (v + 71) as int == v as int + 71
    ensures 52 <= v < 62 ==> (v - 4) as int == v as int - 4
  {
  }

  /** Symbol `v` is letter `v` of the table. */
  lemma AlphabetIs(v: Octet)
    requires v < 64
    ensures v as int < 64 && Alphabet(v) as int == Letter(v as int) as int
  {
    hide Letter;
    SixBits(v);
    AlphabetCode(v);
    LetterCode(v as int);
  }

  /** The decoder takes the letters of the table for their numbers, '-' and '_' for the last two, and nothing else. */
  lemma Unbase64Exact(c: Octet)
    ensures Legal(c) <==> (exists v: Octet :: v < 64 && Alphabet(v) == c) || c as char in "-_"
    ensures Legal(c) ==>
      Alphabet(Unbase64(c)) == c || (c as char == '-' && Unbase64(c) == 62) || (c as char == '_' && Unbase64(c) == 63)
  {
    if Legal(c) && c != 45 && c != 95 { assert Unbase64(c) < 64 && Alphabet(Unbase64(c)) == c; }
  }

  // ------------------------------------------------------------ groups of 24 bits

  /** Sextet `j` of the 24 bits of three octets. */
  function Sextet(a: Octet, b: Octet, c: Octet, j: nat): (v: Octet)
    requires j < 4
    ensures v < 64
  {
    var g := (a as bv24 << 16) | (b as bv24 << 8) | (c as bv24);
    if j == 0 then (g >> 18) as Octet
    else if j == 1 then ((g >> 12) & 0x3f) as Octet
    else if j == 2 then ((g >> 6) & 0x3f) as Octet
    else (g & 0x3f) as Octet
  }

  /** Octet `j` of the 24 bits of four sextets. */
  function OctetOf(p: Octet, q: Octet, r: Octet, s: Octet, j: nat): Octet
    requires p < 64 && q < 64 && r < 64 && s < 64 && j < 3
  {
    var g := (p as bv24 << 18) | (q as bv24 << 12) | (r as bv24 << 6) | (s as bv24);
    if j == 0 then (g >> 16) as Octet else if j == 1 then ((g >> 8) & 0xff) as Octet else (g & 0xff) as Octet
  }

  function Symbol(a: Octet, b: Octet, c: Octet, j: nat): Octet
    requires j < 4
  {
    Alphabet(Sextet(a, b, c, j))
  }

  /** Three octets make four symbols; one or two at the end make two or three, and padding. */
  function Encode(s: Octets): Octets {
    if s == [] then []
    else if |s| == 1 then [Symbol(s[0], 0, 0, 0), Symbol(s[0], 0, 0, 1), PAD, PAD]
    else if |s| == 2 then [Symbol(s[0], s[1], 0, 0), Symbol(s[0], s[1], 0, 1), Symbol(s[0], s[1], 0, 2), PAD]
    else Four(s[0], s[1], s[2]) + Encode(s[3..])
  }

  function Four(a: Octet, b: Octet, c: Octet): (t: Octets)
    ensures |t| == 4
  {
    [Symbol(a, b, c, 0), Symbol(a, b, c, 1), Symbol(a, b, c, 2), Symbol(a, b, c, 3)]
  }

  predicate AllSextets(x: Octets) {
    forall i :: 0 <= i < |x| ==> x[i] < 64
  }

  /** The values of the legal symbols before the first padding; anything else is passed over. */
  function Sextets(t: Octets): (x: Octets)
    ensures AllSextets(x) && |x| <= |t|
  {
    if t == [] || t[0] == PAD then []
    else if Legal(t[0]) then [Unbase64(t[0])] + Sextets(t[1..])
    else Sextets(t[1..])
  }

  /** The whole octets among the bits of the sextets. */
  function Bytes(x: Octets): Octets
    requires AllSextets(x)
  {
    if |x| < 2 then []
    else if |x| == 2 then [OctetOf(x[0], x[1], 0, 0, 0)]
    else if |x| == 3 then [OctetOf(x[0], x[1], x[2], 0, 0), OctetOf(x[0], x[1], x[2], 0, 1)]
    else Three(x[0], x[1], x[2], x[3]) + Bytes(x[4..])
  }

  function Three(p: Octet, q: Octet, r: Octet, s: Octet): (t: Octets)
    requires p < 64 && q < 64 && r < 64 && s < 64
    ensures |t| == 3
  {
    [OctetOf(p, q, r, s, 0), OctetOf(p, q, r, s, 1), OctetOf(p, q, r, s, 2)]
  }

  // ------------------------------------------------------------ round trip

  lemma GroupInverse(a: Octet, b: Octet, c: Octet)
    ensures var p, q, r, s := Sextet(a, b, c, 0), Sextet(a, b, c, 1), Sextet(a, b, c, 2), Sextet(a, b, c, 3);
      OctetOf(p, q, r, s, 0) == a && OctetOf(p, q, r, s, 1) == b && OctetOf(p, q, r, s, 2) == c
  {
  }

  lemma EmptyBits(a: Octet, b: Octet)
    ensures Sextet(a, 0, 0, 2) == 0 && Sextet(a, b, 0, 3) == 0
  {
  }

  lemma SymbolLegal(a: Octet, b: Octet, c: Octet, j: nat, rest: Octets)
    requires j < 4
    ensures Sextets([Symbol(a, b, c, j)] + rest) == [Sextet(a, b, c, j)] + Sextets(rest)
  {
    hide Sextet, Unbase64, Alphabet;
    AlphabetInverse(Sextet(a, b, c, j));
    assert ([Symbol(a, b, c, j)] + rest)[1..] == rest;
  }

  lemma PadStops(rest: Octets)
    ensures Sextets([PAD] + rest) == []
  {
  }

  /** Decoding what was encoded gives it back. */
  lemma {:induction false} RoundTrip(s: Octets)
    ensures Bytes(Sextets(Encode(s))) == s
    decreases |s|
  {
    hide Sextet, OctetOf, Symbol, Sextets;
    if |s| == 1 {
      var a := s[0];
      assert Encode(s) == [Symbol(a, 0, 0, 0)] + ([Symbol(a, 0, 0, 1)] + ([PAD] + [PAD]));
      PadStops([PAD]);
      SymbolLegal(a, 0, 0, 1, [PAD] + [PAD]);
      SymbolLegal(a, 0, 0, 0, [Symbol(a, 0, 0, 1)] + ([PAD] + [PAD]));
      GroupInverse(a, 0, 0);
      EmptyBits(a, 0);
    } else if |s| == 2 {
      var a, b := s[0], s[1];
      assert Encode(s) == [Symbol(a, b, 0, 0)] + ([Symbol(a, b, 0, 1)] + ([Symbol(a, b, 0, 2)] + ([PAD] + [])));
      PadStops([]);
      SymbolLegal(a, b, 0, 2, [PAD] + []);
      SymbolLegal(a, b, 0, 1, [Symbol(a, b, 0, 2)] + ([PAD] + []));
      SymbolLegal(a, b, 0, 0, [Symbol(a, b, 0, 1)] + ([Symbol(a, b, 0, 2)] + ([PAD] + [])));
      GroupInverse(a, b, 0);
      EmptyBits(a, b);
    } else if |s| >= 3 {
      var a, b, c, rest := s[0], s[1], s[2], Encode(s[3..]);
      RoundTrip(s[3..]);
      FourSextets(a, b, c, rest);
      GroupInverse(a, b, c);
      var x := [Sextet(a, b, c, 0), Sextet(a, b, c, 1), Sextet(a, b, c, 2), Sextet(a, b, c, 3)];
      assert (x + Sextets(rest))[4..] == Sextets(rest);
      assert s == [a, b, c] + s[3..];
    } else {
      NoSextets();
    }
  }

  lemma NoSextets()
    ensures Sextets([]) == []
  {
  }

  lemma FourSextets(a: Octet, b: Octet, c: Octet, rest: Octets)
    ensures Sextets(Four(a, b, c) + rest)
         == [Sextet(a, b, c, 0), Sextet(a, b, c, 1), Sextet(a, b, c, 2), Sextet(a, b, c, 3)] + Sextets(rest)
  {
    hide Sextet, Symbol, Sextets;
    var r3 := [Symbol(a, b, c, 3)] + rest;
    var r2 := [Symbol(a, b, c, 2)] + r3;
    var r1 := [Symbol(a, b, c, 1)] + r2;
    assert Four(a, b, c) + rest == [Symbol(a, b, c, 0)] + r1;
    SymbolLegal(a, b, c, 3, rest);
    SymbolLegal(a, b, c, 2, r3);
    SymbolLegal(a, b, c, 1, r2);
    SymbolLegal(a, b, c, 0, r1);
  }

  // ------------------------------------------------------------ sizes

  function EncodedSize(size: nat): nat {
    (size + 2 - (size + 2) % 3) / 3 * 4
  }

  lemma SizeStep(n: nat)
    ensures EncodedSize(n + 3) == EncodedSize(n) + 4
  {
    var r := (n + 2) % 3;
    assert (n + 3 + 2) % 3 == r;
  }

  lemma SmallSizes()
    ensures EncodedSize(0) == 0 && EncodedSize(1) == 4 && EncodedSize(2) == 4
  {
  }

  lemma {:induction false} EncodedSizeExact(s: Octets)
    ensures |Encode(s)| == EncodedSize(|s|)
    decreases |s|
  {
    hide Symbol, EncodedSize;
    SmallSizes();
    if |s| >= 3 {
      EncodedSizeExact(s[3..]);
      SizeStep(|s| - 3);
    }
  }

  function DecodedSizeFast(size: nat): nat {
    var remainder, whole := size % 4, size / 4 * 3;
    if remainder == 0 then whole
    else if whole == 0 && remainder == 1 then 0
    else whole + 1 + (if remainder == 3 then 1 else 0)
  }

  function DecodedSize(src: Octets): nat {
    if src == [] then 0
    else
      var size := if src[|src| - 1] == PAD then |src| - 1 else |src|;
      DecodedSizeFast(if size > 0 && src[size - 1] == PAD then size - 1 else size)
  }

  lemma {:induction false} BytesSize(x: Octets)
    requires AllSextets(x)
    ensures |Bytes(x)| == |x| / 4 * 3 + (if |x| % 4 < 2 then 0 else |x| % 4 - 1)
    decreases |x|
  {
    hide OctetOf;
    if |x| >= 4 { BytesSize(x[4..]); }
  }

  lemma {:induction false} PadBounds(t: Octets, i: nat)
    requires i < |t| && t[i] == PAD
    ensures |Sextets(t)| <= i
    decreases |t|
  {
    hide Legal, Unbase64;
    if i > 0 && t[0] != PAD { PadBounds(t[1..], i - 1); }
  }

  /** The size computed from the text is never below what decodes from it. */
  lemma DecodedSizeEnough(src: Octets)
    ensures |Bytes(Sextets(src))| <= DecodedSize(src)
  {
    hide Sextets, Bytes;
    var n := |src|;
    BytesSize(Sextets(src));
    if n > 0 && src[n - 1] == PAD { PadBounds(src, n - 1); }
    if n > 1 && src[n - 2] == PAD { PadBounds(src, n - 2); }
  }

  // ------------------------------------------------------------ the bit operations of the code

  lemma EncodeBits(a: Octet, b: Octet, c: Octet)
    ensures a >> 2 == Sextet(a, b, c, 0)
    ensures ((a & 3) << 4) | (b >> 4) == Sextet(a, b, c, 1)
    ensures ((b & 0x0f) << 2) | (c >> 6) == Sextet(a, b, c, 2)
    ensures c & 0x3f == Sextet(a, b, c, 3)
  {
  }

  lemma EncodeTailBits(a: Octet, b: Octet)
    ensures (a & 3) << 4 == Sextet(a, 0, 0, 1)
    ensures (b & 0x0f) << 2 == Sextet(a, b, 0, 2)
  {
  }

  function Slow1(hi: Octet, lo: Octet): Octet {
    ((hi & 0x3f) << 2) | ((lo & 0x30) >> 4)
  }

  function Slow2(hi: Octet, lo: Octet): Octet {
    ((hi & 0x0f) << 4) | ((lo & 0x3c) >> 2)
  }

  function Slow3(hi: Octet, lo: Octet): Octet {
    ((hi & 0x03) << 6) | (lo & 0x3f)
  }

  lemma SlowBits(p: Octet, q: Octet, r: Octet, s: Octet)
    requires p < 64 && q < 64 && r < 64 && s < 64
    ensures Slow1(p, q) == OctetOf(p, q, r, s, 0)
    ensures Slow2(q, r) == OctetOf(p, q, r, s, 1)
    ensures Slow3(r, s) == OctetOf(p, q, r, s, 2)
  {
  }

  /** A table entry widened with its sign. */
  function Widened(u: Octet): bv32 {
    if u >= 0x80 then 0xffffff00 | (u as bv32) else u as bv32
  }

  function Packed(p: Octet, q: Octet, r: Octet, s: Octet): bv32 {
    (Widened(p) << 24) | (Widened(q) << 16) | (Widened(r) << 8) | Widened(s)
  }

  predicate Clean(v: bv32) {
    v & 0x80808080 == 0
  }

  function Fast1(v: bv32): Octet {
    (((v >> 22) & 0xfc) | ((v >> 20) & 0x03)) as Octet
  }

  function Fast2(v: bv32): Octet {
    (((v >> 12) & 0xf0) | ((v >> 10) & 0x0f)) as Octet
  }

  function Fast3(v: bv32): Octet {
    (((v >> 2) & 0xc0) | (v & 0x3f)) as Octet
  }

  lemma CleanMeansLegal(p: Octet, q: Octet, r: Octet, s: Octet)
    requires (p < 64 || p >= 254) && (q < 64 || q >= 254) && (r < 64 || r >= 254) && (s < 64 || s >= 254)
    ensures Clean(Packed(p, q, r, s)) <==> p < 64 && q < 64 && r < 64 && s < 64
  {
  }

  lemma FastBits(p: Octet, q: Octet, r: Octet, s: Octet)
    requires p < 64 && q < 64 && r < 64 && s < 64
    ensures var v := Packed(p, q, r, s);
      Fast1(v) == OctetOf(p, q, r, s, 0) && Fast2(v) == OctetOf(p, q, r, s, 1) && Fast3(v) == OctetOf(p, q, r, s, 2)
  {
  }

  lemma EntryRange(c: Octet)
    ensures Unbase64(c) < 64 || Unbase64(c) >= 254
  {
  }

  // ------------------------------------------------------------ the encoders

  method EncodeGroup(dst: array<Octet>, k: nat, a: Octet, b: Octet, c: Octet)
    requires k + 4 <= dst.Length
    modifies dst
    ensures dst[..k + 4] == old(dst[..k]) + Four(a, b, c)
  {
    hide Sextet, Alphabet;
    EncodeBits(a, b, c);
    dst[k] := Alphabet(a >> 2);
    dst[k + 1] := Alphabet(((a & 3) << 4) | (b >> 4));
    dst[k + 2] := Alphabet(((b & 0x0f) << 2) | (c >> 6));
    dst[k + 3] := Alphabet(c & 0x3f);
  }

  method EncodeTail(dst: array<Octet>, k: nat, src: Octets)
    requires 1 <= |src| <= 2 && k + 4 <= dst.Length
    modifies dst
    ensures dst[..k + 4] == old(dst[..k]) + Encode(src)
  {
    hide Sextet, Alphabet;
    var a := src[0];
    if |src| == 1 {
      EncodeBits(a, 0, 0);
      EncodeTailBits(a, 0);
      dst[k] := Alphabet(a >> 2);
      dst[k + 1] := Alphabet((a & 3) << 4);
      dst[k + 2] := PAD;
      dst[k + 3] := PAD;
    } else {
      var b := src[1];
      EncodeBits(a, b, 0);
      EncodeTailBits(a, b);
      dst[k] := Alphabet(a >> 2);
      dst[k + 1] := Alphabet(((a & 3) << 4) | (b >> 4));
      dst[k + 2] := Alphabet((b & 0x0f) << 2);
      dst[k + 3] := PAD;
    }
  }

  /** `base64_encode` */
  method Base64Encode(dst: array<Octet>, src: Octets) returns (dlen: nat)
    requires EncodedSize(|src|) <= dst.Length
    modifies dst
    ensures dlen <= dst.Length && dst[..dlen] == Encode(src)
  {
    hide Four, Encode, EncodedSize;
    EncodedSizeExact(src);
    dlen := EncodedSize(|src|);
    var i, k, n := 0, 0, |src| / 3 * 3;
    EncodeNothing();
    assert src[0..] == src && dst[..0] == [];
    while i < n
      invariant 0 <= i <= n && i % 3 == 0 && k <= dst.Length
      invariant Encode(src) == dst[..k] + Encode(src[i..])
    {
      EncodeStep(src[i..]);
      assert src[i..][3..] == src[i + 3..];
      ghost var done := dst[..k];
      EncodeGroup(dst, k, src[i], src[i + 1], src[i + 2]);
      assert done + (Four(src[i], src[i + 1], src[i + 2]) + Encode(src[i + 3..]))
          == done + Four(src[i], src[i + 1], src[i + 2]) + Encode(src[i + 3..]);
      i := i + 3;
      k := k + 4;
    }
    if n != |src| {
      EncodedSizeExact(src[i..]);
      SmallSizes();
      ghost var done := dst[..k];
      EncodeTail(dst, k, src[i..]);
    } else {
      assert src[i..] == [];
    }
  }

  lemma EncodeNothing()
    ensures Encode([]) == []
  {
  }

  lemma EncodeStep(s: Octets)
    requires |s| >= 3
    ensures Encode(s) == Four(s[0], s[1], s[2]) + Encode(s[3..]) && |Encode(s)| >= 4
  {
    hide Four;
  }

  // ------------------------------------------------------------ the decoder

  /** Passes over what is not in the alphabet, up to a symbol, a padding, or the end. */
  method NextLegal(src: Octets, from: nat) returns (i: nat, lo: Octet, found: bool)
    requires from < |src|
    ensures from < i <= |src|
    ensures found ==> lo < 64 && Sextets(src[from..]) == [lo] + Sextets(src[i..])
    ensures !found ==> Sextets(src[from..]) == []
  {
    hide Unbase64;
    i := from;
    while true
      invariant from <= i < |src| && Sextets(src[i..]) == Sextets(src[from..])
      decreases |src| - i
    {
      var c := src[i];
      assert src[i..][0] == c && src[i..][1..] == src[i + 1..];
      lo := Unbase64(c);
      EntryRange(c);
      PadIllegal();
      i := i + 1;
      if lo < 64 { return i, lo, true; }
      if c == PAD || i >= |src| {
        if i == |src| { assert |src[i..]| == 0; }
        return i, lo, false;
      }
    }
  }

  lemma PadIllegal()
    ensures !Legal(PAD)
  {
  }

  /** What a partial or whole group leaves: `written` is all that `x` holds, or as much of it as there is room for. */
  ghost predicate Settled(x: Octets, written: Octets, full: bool)
    requires AllSextets(x)
  {
    written == Bytes(x) || (full && written <= Bytes(x))
  }

  lemma FewBytes(p: Octet, q: Octet, r: Octet, rest: Octets)
    requires p < 64 && q < 64 && r < 64 && AllSextets(rest)
    ensures Bytes([]) == [] && Bytes([p]) == []
    ensures Bytes([p, q]) == [Slow1(p, q)]
    ensures Bytes([p, q, r]) == [Slow1(p, q), Slow2(q, r)]
    ensures [Slow1(p, q)] <= Bytes([p, q] + rest)
    ensures [Slow1(p, q), Slow2(q, r)] <= Bytes([p, q, r] + rest)
  {
    hide Slow1, Slow2, OctetOf;
    SlowBits(p, q, r, 0);
    SlowBits(p, q, 0, 0);
    if rest != [] {
      SlowBits(p, q, rest[0], 0);
      SlowBits(p, q, r, rest[0]);
      if |rest| > 1 { SlowBits(p, q, rest[0], rest[1]); }
    } else {
      assert [p, q] + rest == [p, q] && [p, q, r] + rest == [p, q, r];
    }
  }

  lemma WholeGroup(p: Octet, q: Octet, r: Octet, s: Octet, rest: Octets)
    requires p < 64 && q < 64 && r < 64 && s < 64 && AllSextets(rest)
    ensures Bytes([p, q, r, s] + rest) == [Slow1(p, q), Slow2(q, r), Slow3(r, s)] + Bytes(rest)
  {
    hide Slow1, Slow2, Slow3, OctetOf;
    SlowBits(p, q, r, s);
    assert ([p, q, r, s] + rest)[4..] == rest;
  }

  /** `base64_decode_group_slow`: one group, symbol by symbol. */
  method DecodeGroupSlow(dst: array<Octet>, dstlen: nat, src: Octets, from: nat, at: nat)
    returns (more: bool, i: nat, k: nat)
    requires from < |src| && at < dstlen <= dst.Length
    modifies dst
    ensures from < i <= |src| && at <= k <= dstlen && dst[..at] == old(dst[..at])
    ensures !more ==> Settled(Sextets(src[from..]), dst[at..k], k == dstlen)
    ensures more ==> i < |src| && k == at + 3 && k < dstlen
    ensures more ==> Bytes(Sextets(src[from..])) == dst[at..k] + Bytes(Sextets(src[i..]))
  {
    hide Sextets, Bytes, Slow1, Slow2, Slow3;
    more, k := false, at;
    var hi, lo, found;
    FewBytes(0, 0, 0, []);
    NoSextets();
    assert src[|src|..] == [];
    i, lo, found := NextLegal(src, from);
    if !found { return; }
    FewBytes(lo, 0, 0, []);
    if i >= |src| { assert [lo] + [] == [lo]; return; }
    hi := lo;
    ghost var p := lo;
    i, lo, found := NextLegal(src, i);
    if !found { assert [p] + [] == [p]; return; }
    ghost var rest := Sextets(src[i..]);
    assert Sextets(src[from..]) == [p, lo] + rest;
    FewBytes(p, lo, 0, rest);
    dst[k] := Slow1(hi, lo);
    k := k + 1;
    assert dst[at..k] == [Slow1(p, lo)];
    if i >= |src| { assert [p, lo] + [] == [p, lo]; return; }
    if k >= dstlen { return; }
    more, i, k := DecodeGroupRest(dst, dstlen, src, from, i, at, p, lo);
  }

  /** The third symbol of the group. */
  method DecodeGroupRest(dst: array<Octet>, dstlen: nat, src: Octets, ghost from: nat, next: nat, at: nat,
                         ghost p: Octet, q: Octet)
    returns (more: bool, i: nat, k: nat)
    requires from < next < |src| && at + 1 < dstlen <= dst.Length && p < 64 && q < 64
    requires Sextets(src[from..]) == [p, q] + Sextets(src[next..]) && dst[at] == Slow1(p, q)
    modifies dst
    ensures from < i <= |src| && at <= k <= dstlen && dst[..at] == old(dst[..at])
    ensures !more ==> Settled(Sextets(src[from..]), dst[at..k], k == dstlen)
    ensures more ==> i < |src| && k == at + 3 && k < dstlen
    ensures more ==> Bytes(Sextets(src[from..])) == dst[at..k] + Bytes(Sextets(src[i..]))
  {
    hide Sextets, Bytes, Slow1, Slow2, Slow3;
    more, k := false, at + 1;
    var lo, found := q, false;
    NoSextets();
    assert src[|src|..] == [];
    assert dst[at..k] == [Slow1(p, q)];
    i, lo, found := NextLegal(src, next);
    if !found {
      FewBytes(p, q, 0, []);
      assert [p, q] + [] == [p, q];
      return;
    }
    ghost var r, rest := lo, Sextets(src[i..]);
    assert Sextets(src[from..]) == [p, q, r] + rest;
    FewBytes(p, q, r, rest);
    dst[k] := Slow2(q, lo);
    k := k + 1;
    assert dst[at..k] == [Slow1(p, q), Slow2(q, r)];
    if i >= |src| { assert [p, q, r] + [] == [p, q, r]; return; }
    if k >= dstlen { return; }
    more, i, k := DecodeGroupLast(dst, dstlen, src, from, i, at, p, q, lo);
  }

  /** The fourth symbol of the group. */
  method DecodeGroupLast(dst: array<Octet>, dstlen: nat, src: Octets, ghost from: nat, next: nat, at: nat,
                         ghost p: Octet, ghost q: Octet, r: Octet)
    returns (more: bool, i: nat, k: nat)
    requires from < next < |src| && at + 2 < dstlen <= dst.Length && p < 64 && q < 64 && r < 64
    requires Sextets(src[from..]) == [p, q, r] + Sextets(src[next..]) && dst[at..at + 2] == [Slow1(p, q), Slow2(q, r)]
    modifies dst
    ensures from < i <= |src| && at <= k <= dstlen && dst[..at] == old(dst[..at])
    ensures !more ==> Settled(Sextets(src[from..]), dst[at..k], k == dstlen)
    ensures more ==> i < |src| && k == at + 3 && k < dstlen
    ensures more ==> Bytes(Sextets(src[from..])) == dst[at..k] + Bytes(Sextets(src[i..]))
  {
    hide Sextets, Bytes, Slow1, Slow2, Slow3;
    more, k := false, at + 2;
    var lo, found;
    FewBytes(p, q, r, []);
    i, lo, found := NextLegal(src, next);
    if !found { assert [p, q, r] + [] == [p, q, r]; return; }
    ghost var rest := Sextets(src[i..]);
    assert Sextets(src[from..]) == [p, q, r, lo] + rest;
    WholeGroup(p, q, r, lo, rest);
    dst[k] := Slow3(r, lo);
    k := k + 1;
    assert dst[at..k] == [Slow1(p, q), Slow2(q, r), Slow3(r, lo)];
    if i >= |src| {
      NoSextets();
      assert src[|src|..] == [];
      FewBytes(0, 0, 0, []);
      return;
    }
    if k >= dstlen { return; }
    more := true;
  }

  /** Four clean symbols. */
  lemma CleanGroup(t: Octets)
    requires |t| >= 4 && Clean(Packed(Unbase64(t[0]), Unbase64(t[1]), Unbase64(t[2]), Unbase64(t[3])))
    ensures var v := Packed(Unbase64(t[0]), Unbase64(t[1]), Unbase64(t[2]), Unbase64(t[3]));
      Bytes(Sextets(t)) == [Fast1(v), Fast2(v), Fast3(v)] + Bytes(Sextets(t[4..]))
  {
    hide Clean, Packed, Fast1, Fast2, Fast3, OctetOf, Unbase64, Bytes, Sextets;
    var p, q, r, s := Unbase64(t[0]), Unbase64(t[1]), Unbase64(t[2]), Unbase64(t[3]);
    EntryRange(t[0]);
    EntryRange(t[1]);
    EntryRange(t[2]);
    EntryRange(t[3]);
    CleanMeansLegal(p, q, r, s);
    FastBits(p, q, r, s);
    LegalFour(t);
    ThreeOf(p, q, r, s, Sextets(t[4..]));
  }

  lemma LegalFour(t: Octets)
    requires |t| >= 4 && Legal(t[0]) && Legal(t[1]) && Legal(t[2]) && Legal(t[3])
    ensures Sextets(t) == [Unbase64(t[0]), Unbase64(t[1]), Unbase64(t[2]), Unbase64(t[3])] + Sextets(t[4..])
  {
    hide Unbase64, Sextets, Legal;
    var u := t[2..];
    assert u[0] == t[2] && u[1] == t[3] && u[2..] == t[4..];
    LegalTwo(t);
    LegalTwo(u);
    JoinPairs(Unbase64(t[0]), Unbase64(t[1]), Unbase64(t[2]), Unbase64(t[3]), Sextets(t[4..]));
  }

  lemma JoinPairs(a: Octet, b: Octet, c: Octet, d: Octet, rest: Octets)
    ensures [a, b] + ([c, d] + rest) == [a, b, c, d] + rest
  {
  }

  lemma LegalTwo(t: Octets)
    requires |t| >= 2 && Legal(t[0]) && Legal(t[1])
    ensures Sextets(t) == [Unbase64(t[0]), Unbase64(t[1])] + Sextets(t[2..])
  {
    hide Unbase64, Sextets, Legal;
    var u := t[1..];
    assert u[0] == t[1] && u[1..] == t[2..];
    LegalFront(t);
    LegalFront(u);
    JoinOnes(Unbase64(t[0]), Unbase64(t[1]), Sextets(t[2..]));
  }

  lemma JoinOnes(a: Octet, b: Octet, rest: Octets)
    ensures [a] + ([b] + rest) == [a, b] + rest
  {
  }

  lemma LegalFront(t: Octets)
    requires t != [] && Legal(t[0])
    ensures Sextets(t) == [Unbase64(t[0])] + Sextets(t[1..])
  {
    hide Unbase64;
    PadIllegal();
  }

  lemma ThreeOf(p: Octet, q: Octet, r: Octet, s: Octet, rest: Octets)
    requires p < 64 && q < 64 && r < 64 && s < 64 && AllSextets(rest)
    ensures Bytes([p, q, r, s] + rest) == Three(p, q, r, s) + Bytes(rest)
  {
    hide OctetOf;
    assert ([p, q, r, s] + rest)[4..] == rest;
  }

  /** How the decoder ends: with all that the text holds, or as much as there is room for. */
  ghost predicate Decoded(src: Octets, written: Octets, dstlen: nat) {
    Settled(Sextets(src), written, |written| == dstlen)
  }

  /** The rest of the text settles the whole. */
  lemma SettledBehind(all: Octets, front: Octets, x: Octets, back: Octets, full: bool)
    requires AllSextets(all) && AllSextets(x) && Bytes(all) == front + Bytes(x) && Settled(x, back, full)
    ensures Settled(all, front + back, full)
  {
    hide Bytes;
    if back != Bytes(x) {
      assert (front + Bytes(x))[..|front + back|] == front + Bytes(x)[..|back|];
    }
  }

  /** A remainder of less than four symbols, or less than three octets, is not followed by more. */
  lemma LastGroup(x: Octets)
    requires AllSextets(x)
    ensures |Bytes(x)| < 3 <==> |x| < 4
  {
    hide OctetOf;
    BytesSize(x);
  }

  /** The octets before `written` come from the text before `i`, and the rest from what is left. */
  ghost predicate Underway(src: Octets, written: Octets, i: nat) {
    i <= |src| && Bytes(Sextets(src)) == written + Bytes(Sextets(src[i..]))
  }

  lemma SetOut(src: Octets)
    ensures Underway(src, [], 0)
  {
    hide Bytes, Sextets;
    assert src[0..] == src;
  }

  /** `base64_decode_fast` */
  method DecodeFast(dst: array<Octet>, dstlen: nat, src: Octets, decodedSize: nat) returns (k: nat)
    requires dstlen <= dst.Length && |Bytes(Sextets(src))| <= decodedSize
    modifies dst
    ensures k <= dstlen && Decoded(src, dst[..k], dstlen)
  {
    hide Sextets, Bytes, Clean, Packed, Unbase64, Decoded, Underway;
    var available := if dstlen < decodedSize then dstlen else decodedSize;
    var maxK := available / 3 * 3;
    var maxI := |src| / 4 * 4;
    var i := 0;
    k := 0;
    ghost var groups: nat, done: nat, room := |src| / 4, 0, available / 3;
    SetOut(src);
    assert dst[..0] == [];
    while i < maxI && k < maxK
      invariant i <= maxI <= |src| < maxI + 4 && k <= dstlen && Underway(src, dst[..k], i)
      invariant maxI == i + 4 * groups && k == 3 * done && maxK == 3 * room
      decreases |src| - i
    {
      var v := Packed(Unbase64(src[i]), Unbase64(src[i + 1]), Unbase64(src[i + 2]), Unbase64(src[i + 3]));
      if !Clean(v) {
        var more;
        more, i, k := DecodeSlowly(dst, dstlen, src, i, k);
        if !more { return; }
        maxI := i + (|src| - i) / 4 * 4;
        groups := (|src| - i) / 4;
      } else {
        StoreClean(dst, src, i, k, v);
        i := i + 4;
        k := k + 3;
        groups := groups - 1;
      }
      done := done + 1;
    }
    k := DecodeEnd(dst, dstlen, src, i, k);
  }

  /** A group with a symbol that is not in the alphabet: the loop goes on behind it, or all is done. */
  method DecodeSlowly(dst: array<Octet>, dstlen: nat, src: Octets, from: nat, at: nat)
    returns (more: bool, i: nat, k: nat)
    requires from < |src| && at < dstlen <= dst.Length && Underway(src, dst[..at], from)
    modifies dst
    ensures from < i <= |src| && k <= dstlen
    ensures more ==> k == at + 3 && Underway(src, dst[..k], i)
    ensures !more ==> Decoded(src, dst[..k], dstlen)
  {
    hide Sextets, Bytes, Settled, Decoded;
    ghost var front := dst[..at];
    more, i, k := DecodeGroupSlow(dst, dstlen, src, from, at);
    ghost var back := dst[at..k];
    assert dst[..k] == front + back;
    if more {
      JoinThree(front, back, Bytes(Sextets(src[i..])));
    } else {
      DecodedBehind(src, front, from, back, dstlen);
    }
  }

  lemma JoinThree(a: Octets, b: Octets, c: Octets)
    ensures a + (b + c) == a + b + c
  {
  }

  /** A group of four symbols: three octets at once. */
  method StoreClean(dst: array<Octet>, src: Octets, i: nat, k: nat, v: bv32)
    requires i + 4 <= |src| && k + 3 <= dst.Length && Underway(src, dst[..k], i)
    requires v == Packed(Unbase64(src[i]), Unbase64(src[i + 1]), Unbase64(src[i + 2]), Unbase64(src[i + 3]))
    requires Clean(v)
    modifies dst
    ensures Underway(src, dst[..k + 3], i + 4)
  {
    hide Sextets, Bytes, Clean, Packed, Fast1, Fast2, Fast3, Unbase64;
    ghost var front, rest := dst[..k], src[i..];
    assert rest[0] == src[i] && rest[1] == src[i + 1] && rest[2] == src[i + 2] && rest[3] == src[i + 3];
    assert rest[4..] == src[i + 4..];
    CleanGroup(rest);
    StoreThree(dst, k, Fast1(v), Fast2(v), Fast3(v));
    JoinThree(front, [Fast1(v), Fast2(v), Fast3(v)], Bytes(Sextets(src[i + 4..])));
  }

  method StoreThree(dst: array<Octet>, k: nat, a: Octet, b: Octet, c: Octet)
    requires k + 3 <= dst.Length
    modifies dst
    ensures dst[..k + 3] == old(dst[..k]) + [a, b, c]
  {
    dst[k], dst[k + 1], dst[k + 2] := a, b, c;
  }

  /** What the loop leaves is one group at most. */
  method DecodeEnd(dst: array<Octet>, dstlen: nat, src: Octets, i: nat, at: nat) returns (k: nat)
    requires at <= dstlen <= dst.Length && i <= |src|
    requires Underway(src, dst[..at], i)
    requires |src| - i < 4 || dstlen - at < 3 || |Bytes(Sextets(src))| - at < 3
    modifies dst
    ensures k <= dstlen && Decoded(src, dst[..k], dstlen)
  {
    hide Sextets, Bytes, Settled;
    ghost var front, x := dst[..at], Sextets(src[i..]);
    k := at;
    LastGroup(x);
    if i < |src| && at < dstlen {
      var more, i', k' := DecodeGroupSlow(dst, dstlen, src, i, at);
      assert dst[..k'] == front + dst[at..k'];
      k := k';
      SettledBehind(Sextets(src), front, x, dst[at..k'], k' == dstlen);
    } else {
      EndSettled(src, front, i, dstlen);
    }
  }

  lemma DecodedBehind(src: Octets, front: Octets, i: nat, back: Octets, dstlen: nat)
    requires i <= |src| && Bytes(Sextets(src)) == front + Bytes(Sextets(src[i..]))
    requires Settled(Sextets(src[i..]), back, |front + back| == dstlen)
    ensures Decoded(src, front + back, dstlen)
  {
    hide Sextets, Bytes, Settled;
    SettledBehind(Sextets(src), front, Sextets(src[i..]), back, |front + back| == dstlen);
  }

  lemma EndSettled(src: Octets, front: Octets, i: nat, dstlen: nat)
    requires i <= |src| && Bytes(Sextets(src)) == front + Bytes(Sextets(src[i..]))
    requires i == |src| || |front| == dstlen
    ensures Decoded(src, front, dstlen)
  {
    if i == |src| {
      assert src[i..] == [];
      NoSextets();
    }
  }

  /** `base64_decode`: whatever the text, the octets it holds, up to the room there is. */
  method Base64Decode(dst: array<Octet>, dstlen: nat, src: Octets) returns (k: nat)
    requires dstlen <= dst.Length
    modifies dst
    ensures var bytes := Bytes(Sextets(src));
      k == (if |bytes| <= dstlen then |bytes| else dstlen) && dst[..k] == bytes[..k]
  {
    hide Sextets, Bytes;
    DecodedSizeEnough(src);
    k := DecodeFast(dst, dstlen, src, DecodedSize(src));
    assert |dst[..k]| == k;
  }

  /** Encoding into one buffer and decoding into another of at least the first text's size gives it back. */
  method EncodeThenDecode(src: Octets, text: array<Octet>, dst: array<Octet>) returns (k: nat)
    requires text != dst && EncodedSize(|src|) <= text.Length && |src| <= dst.Length
    modifies text, dst
    ensures k == |src| && dst[..k] == src
  {
    var n := Base64Encode(text, src);
    RoundTrip(src);
    k := Base64Decode(dst, dst.Length, text[..n]);
  }

  // ------------------------------------------------------------ the other encoder

  function Narrow(data: seq<bv16>): Octets
    requires forall i :: 0 <= i < |data| ==> data[i] <= 255
  {
    seq(|data|, i requires 0 <= i < |data| => Low(data[i]))
  }

  function Low(unit: bv16): Octet
    requires unit <= 255
  {
    unit as Octet
  }

  /** The script encoder: refuses code units above 255, and else writes the same text. */
  method EncodeString(data: seq<bv16>) returns (out: B.Option<Octets>)
    ensures out.None? <==> exists i :: 0 <= i < |data| && data[i] > 255
    ensures out.Some? ==> out.value == Encode(Narrow(data))
  {
    hide Encode, Four;
    for i := 0 to |data|
      invariant forall j :: 0 <= j < i ==> data[j] <= 255
    {
      if data[i] > 255 { return B.None; }
    }
    var s := Narrow(data);
    var text, i := [], 0;
    EncodeNothing();
    assert s[0..] == s;
    while i < |data|
      invariant 0 <= i && (i < |data| ==> i % 3 == 0)
      invariant Encode(s) == text + (if i <= |s| then Encode(s[i..]) else [])
      decreases |data| - i
    {
      var group := EncodeUnits(s[i..]);
      ghost var done := text;
      text := text + group;
      if i + 3 <= |s| {
        assert s[i..][3..] == s[i + 3..];
        assert done + (group + Encode(s[i + 3..])) == text + Encode(s[i + 3..]);
      }
      i := i + 3;
    }
    if i <= |s| { assert s[i..] == []; }
    out := B.Some(text);
  }

  /** The sextets of one group; those that no octet gives stay undefined. */
  method GroupOfSix(s: Octets) returns (g: seq<B.Option<Octet>>)
    requires |s| > 0
    ensures |g| == 4 && g[0] == B.Some(Sextet(s[0], 0, 0, 0))
    ensures |s| == 1 ==> g[1] == B.Some(Sextet(s[0], 0, 0, 1)) && g[2] == B.None
    ensures |s| == 2 ==> g[1] == B.Some(Sextet(s[0], s[1], 0, 1)) && g[2] == B.Some(Sextet(s[0], s[1], 0, 2))
    ensures |s| <= 2 ==> g[3] == B.None
    ensures |s| > 2 ==> g[1] == B.Some(Sextet(s[0], s[1], s[2], 1)) && g[2] == B.Some(Sextet(s[0], s[1], s[2], 2))
    ensures |s| > 2 ==> g[0] == B.Some(Sextet(s[0], s[1], s[2], 0)) && g[3] == B.Some(Sextet(s[0], s[1], s[2], 3))
    ensures |s| == 2 ==> g[0] == B.Some(Sextet(s[0], s[1], 0, 0))
  {
    hide Sextet;
    var a := s[0];
    var g0, g1, g2, g3 := B.Some(a >> 2), B.Some((a & 3) << 4), B.None, B.None;
    EncodeTailBits(a, 0);
    EncodeBits(a, 0, 0);
    if |s| > 1 {
      var b := s[1];
      g1 := B.Some(g1.value | (b >> 4));
      g2 := B.Some((b & 0x0f) << 2);
      EncodeTailBits(a, b);
      EncodeBits(a, b, 0);
      if |s| > 2 {
        var c := s[2];
        g2 := B.Some(g2.value | (c >> 6));
        g3 := B.Some(c & 0x3f);
        EncodeBits(a, b, c);
      }
    }
    g := [g0, g1, g2, g3];
  }

  /** One group of the output, with padding for what is undefined. */
  method EncodeUnits(s: Octets) returns (group: Octets)
    requires |s| > 0
    ensures Encode(s) == if |s| >= 3 then group + Encode(s[3..]) else group
  {
    hide Sextet, Alphabet;
    var g := GroupOfSix(s);
    group := [];
    for j := 0 to 4
      invariant |group| == j
      invariant forall m :: 0 <= m < j ==> group[m] == if g[m].None? then PAD else Alphabet(g[m].value)
    {
      group := group + [if g[j].None? then PAD else Alphabet(g[j].value)];
    }
    assert group == [group[0], group[1], group[2], group[3]];
  }
}
