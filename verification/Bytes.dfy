/** Octets, big-endian integers, text, and the few sequence facts that every protocol module shares. */
module Bytes {
  type byte = x: int | 0 <= x < 256
  type Octets = seq<byte>

  datatype Option<+T> = None | Some(value: T)

  /** Index of the first zero octet of `s`, or its length. */
  function ZeroAt(s: Octets): (k: nat)
    ensures k <= |s|
    ensures k < |s| ==> s[k] == 0
    ensures forall j :: 0 <= j < k ==> s[j] != 0
  {
    if s == [] || s[0] == 0 then 0
    else
      var k := ZeroAt(s[1..]);
      assert forall j :: 0 < j < k + 1 ==> s[j] == s[1..][j - 1];
      k + 1
  }

  /** The 16-bit big-endian unsigned integer at `off`. */
  function GetU16(s: seq<byte>, off: nat): nat
    requires off + 2 <= |s|
  {
    s[off] as int * 0x100 + s[off + 1]
  }

  /** The 32-bit big-endian unsigned integer at `off`. */
  function GetU32(s: seq<byte>, off: nat): nat
    requires off + 4 <= |s|
  {
    s[off] as int * 0x100_0000 + s[off + 1] as int * 0x1_0000 + s[off + 2] as int * 0x100 + s[off + 3]
  }

  /** Two's complement reading of a 16-bit word. */
  function Signed16(n: nat): int {
    if n < 0x8000 then n else n - 0x1_0000
  }

  /** Two's complement reading of a 32-bit word. */
  function Signed32(n: nat): int {
    if n < 0x8000_0000 then n else n - 0x1_0000_0000
  }

  /** The two octets a 16-bit store writes; values wrap modulo 2^16. */
  function PutU16(n: int): (s: seq<byte>)
    ensures |s| == 2
  {
    var m := n % 0x1_0000;
    [m / 0x100, m % 0x100]
  }

  /** The four octets a 32-bit store writes; values wrap modulo 2^32. */
  function PutU32(n: int): (s: seq<byte>)
    ensures |s| == 4
  {
    var m := n % 0x1_0000_0000;
    [m / 0x100_0000, m / 0x1_0000 % 0x100, m / 0x100 % 0x100, m % 0x100]
  }

  lemma PutGetU16(n: nat, pre: seq<byte>, post: seq<byte>)
    requires n < 0x1_0000
    ensures GetU16(pre + PutU16(n) + post, |pre|) == n
  {
    var s := pre + PutU16(n) + post;
    assert s[|pre|] == PutU16(n)[0] && s[|pre| + 1] == PutU16(n)[1];
  }

  lemma Digits32(n: nat)
    requires n < 0x1_0000_0000
    ensures n == (n / 0x100_0000) * 0x100_0000 + (n / 0x1_0000 % 0x100) * 0x1_0000
                 + (n / 0x100 % 0x100) * 0x100 + n % 0x100
  {
    var a, b, c := n / 0x100, n / 0x1_0000, n / 0x100_0000;
    assert n == a * 0x100 + n % 0x100;
    assert b == a / 0x100 && a == b * 0x100 + a % 0x100;
    assert c == b / 0x100 && b == c * 0x100 + b % 0x100;
  }

  lemma PutGetU32(n: nat, pre: seq<byte>, post: seq<byte>)
    requires n < 0x1_0000_0000
    ensures GetU32(pre + PutU32(n) + post, |pre|) == n
  {
    var s, w := pre + PutU32(n) + post, PutU32(n);
    assert forall i :: 0 <= i < 4 ==> s[|pre| + i] == w[i];
    Digits32(n);
    assert n % 0x1_0000_0000 == n;
  }

  /** A word below 2^32, octet by octet. */
  lemma PutParts(n: nat)
    requires n < 0x1_0000_0000
    ensures PutU32(n) == [n / 0x100_0000, n / 0x1_0000 % 0x100, n / 0x100 % 0x100, n % 0x100]
  {
  }

  lemma SameWord(m: int, n: int)
    requires m % 0x1_0000_0000 == n % 0x1_0000_0000
    ensures PutU32(m) == PutU32(n)
  {
  }

  lemma SameHalf(m: int, n: int)
    requires m % 0x1_0000 == n % 0x1_0000
    ensures PutU16(m) == PutU16(n)
  {
  }

  /** Comparing octets from the first on. */
  predicate Before(a: Octets, b: Octets)
    requires |a| == |b|
  {
    a != [] && (a[0] < b[0] || (a[0] == b[0] && Before(a[1..], b[1..])))
  }

  lemma OneBefore(a: Octets, b: Octets)
    requires |a| == |b| == 1
    ensures Before(a, b) <==> a[0] < b[0]
  {
  }

  lemma TwoBefore(a: Octets, b: Octets)
    requires |a| == |b| == 2
    ensures Before(a, b) <==> GetU16(a, 0) < GetU16(b, 0)
  {
    OneBefore(a[1..], b[1..]);
  }

  lemma FourBefore(a: Octets, b: Octets)
    requires |a| == |b| == 4
    ensures Before(a, b) <==> GetU32(a, 0) < GetU32(b, 0)
  {
    assert a[1..][1..] == a[2..] && b[1..][1..] == b[2..];
    assert Before(a[1..], b[1..]) <==> a[1] < b[1] || (a[1] == b[1] && Before(a[2..], b[2..]));
    TwoBefore(a[2..], b[2..]);
  }

  /** Network byte order: words are in the order of the octets that they are stored as, from the first on. */
  lemma NetworkOrder16(m: nat, n: nat)
    requires m < 0x1_0000 && n < 0x1_0000
    ensures Before(PutU16(m), PutU16(n)) <==> m < n
  {
    hide PutU16, Before;
    TwoBefore(PutU16(m), PutU16(n));
    PutGetU16(m, [], []);
    PutGetU16(n, [], []);
    assert forall k :: [] + PutU16(k) + [] == PutU16(k);
  }

  lemma NetworkOrder32(m: nat, n: nat)
    requires m < 0x1_0000_0000 && n < 0x1_0000_0000
    ensures Before(PutU32(m), PutU32(n)) <==> m < n
  {
    hide PutU32, GetU32, Before;
    FourBefore(PutU32(m), PutU32(n));
    PutGetU32(m, [], []);
    PutGetU32(n, [], []);
    assert forall k :: [] + PutU32(k) + [] == PutU32(k);
  }

  /** Concatenation of a list of octet strings. */
  function Concat(parts: seq<seq<byte>>): seq<byte> {
    if parts == [] then [] else parts[0] + Concat(parts[1..])
  }

  lemma {:induction false} ConcatAppend(a: seq<seq<byte>>, b: seq<seq<byte>>)
    ensures Concat(a + b) == Concat(a) + Concat(b)
  {
    if a == [] {
      assert a + b == b;
    } else {
      assert (a + b)[0] == a[0] && (a + b)[1..] == a[1..] + b;
      ConcatAppend(a[1..], b);
    }
  }

  lemma ConcatSnoc(a: seq<seq<byte>>, x: seq<byte>)
    ensures Concat(a + [x]) == Concat(a) + x
  {
    ConcatAppend(a, [x]);
    assert Concat([x]) == x + Concat([x][1..]) == x;
  }

  // ------------------------------------------------------------ text

  predicate Trails(s: Octets, n: nat) {
    n < |s| && forall i :: 1 <= i <= n ==> 0x80 <= s[i] < 0xc0
  }

  /** Section 4 of RFC 3629: the second octet excludes longer forms than needed, surrogates, and what lies
      beyond the last code point. */
  predicate Second(a: byte, b: byte) {
    && (a == 0xe0 ==> 0xa0 <= b) && (a == 0xed ==> b < 0xa0)
    && (a == 0xf0 ==> 0x90 <= b) && (a == 0xf4 ==> b < 0x90)
  }

  /** Octets of the UTF-8 character at the head of `s`, or 0 when there is none. */
  function CharSize(s: Octets): (n: nat)
    requires s != []
    ensures n <= |s| && n <= 4
  {
    if s[0] < 0x80 then 1
    else if 0xc2 <= s[0] < 0xe0 && Trails(s, 1) then 2
    else if 0xe0 <= s[0] < 0xf0 && Trails(s, 2) && Second(s[0], s[1]) then 3
    else if 0xf0 <= s[0] < 0xf5 && Trails(s, 3) && Second(s[0], s[1]) then 4
    else 0
  }

  /** UTF-16 code units of the string that `readString` makes of `s`; an octet that starts no character
      becomes one replacement character. */
  function JsLength(s: Octets): (n: nat)
    ensures n <= |s|
    decreases |s|
  {
    if s == [] then 0
    else
      var n := CharSize(s);
      if n == 0 then 1 + JsLength(s[1..]) else (if n == 4 then 2 else 1) + JsLength(s[n..])
  }

  predicate Utf8(s: Octets)
    decreases |s|
  {
    s == [] || (CharSize(s) != 0 && Utf8(s[CharSize(s)..]))
  }

  predicate Ascii(s: Octets) {
    forall i :: 0 <= i < |s| ==> s[i] < 0x80
  }

  /** Text is as long in code units as in octets exactly when it is ASCII. */
  lemma {:induction false} LengthAgrees(s: Octets)
    requires Utf8(s)
    ensures JsLength(s) == |s| <==> Ascii(s)
    decreases |s|
  {
    if s != [] {
      var n := CharSize(s);
      LengthAgrees(s[n..]);
      if n == 1 { assert Ascii(s) <==> Ascii(s[1..]) by { assert forall i :: 1 <= i < |s| ==> s[i] == s[1..][i - 1]; } }
    }
  }
}
