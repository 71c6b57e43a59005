/** The block function of the client's MD5, unrolled as its source has it. */
module Md5Block {
  import opened Rfc1321

  // Each round spells its auxiliary function in its own way.

  lemma FirstAux(i: nat, b: Word, c: Word, d: Word)
    requires 0 <= i < 16
    ensures Aux(i, b, c, d) == d ^ (b & (c ^ d))
  {
  }

  lemma SecondAux(i: nat, b: Word, c: Word, d: Word)
    requires 16 <= i < 32
    ensures Aux(i, b, c, d) == c ^ (d & (b ^ c))
  {
  }

  lemma ThirdAux(i: nat, b: Word, c: Word, d: Word)
    requires 32 <= i < 48
    ensures Aux(i, b, c, d) == (b ^ c) ^ d
  {
  }

  lemma FourthAux(i: nat, b: Word, c: Word, d: Word)
    requires 48 <= i < 64
    ensures Aux(i, b, c, d) == c ^ (b | !d)
  {
  }

  /** The operations from `i` on, with the first one spelled out. */
  lemma OpsStep(i: nat, a: Word, b: Word, c: Word, d: Word, x: seq<Word>, n: nat)
    requires i < n && |x| == 16
    ensures Ops(Regs(a, b, c, d), x, i, n)
         == Ops(Regs(d, Mix(a, Aux(i, b, c, d), x[K(i)], T(i), S(i), 32 - S(i), b), b, c), x, i + 1, n)
  {
    hide T, S, K, Mix, Aux;
  }

  method Add(x: Word, y: Word) returns (sum: Word)
    ensures sum == Plus(x, y)
  {
    sum := x + y;
  }

  method AddFour(v: Word, f: Word, x: Word, t: Word) returns (sum: Word)
    ensures sum == Sum(v, f, x, t)
  {
    sum := v + f + x + t;
  }

  method Rotate(u: Word, left: Word, right: Word) returns (r: Word)
    requires 0 < left < 32 && right == 32 - left
    ensures r == Rotated(u, left, right)
  {
    r := (u << left) | (u >> right);
  }

  /** The two statements of a line: add up, then rotate and add. */
  method Line(v: Word, f: Word, x: Word, t: Word, left: Word, right: Word, w: Word) returns (r: Word)
    requires 0 < left < 32 && right == 32 - left
    ensures r == Mix(v, f, x, t, left, right, w)
  {
    hide Plus, Sum, Rotated;
    r := AddFour(v, f, x, t);
    r := Rotate(r, left, right);
    r := Add(r, w);
  }

  /** A line of the first round: operation `i` on word `k`. */
  method FF(ghost i: nat, a: Word, b: Word, c: Word, d: Word, x: seq<Word>,
            k: nat, t: Word, left: Word, right: Word, ghost n: nat) returns (r: Word)
    requires 0 <= i < 16 && i < n && |x| == 16
    requires k == K(i) && t == T(i) && left == S(i) && right == 32 - left
    ensures Ops(Regs(a, b, c, d), x, i, n) == Ops(Regs(d, r, b, c), x, i + 1, n)
  {
    hide T, K, S, Mix;
    FirstAux(i, b, c, d);
    r := Line(a, d ^ (b & (c ^ d)), x[k], t, left, right, b);
  }

  /** A line of the second round: operation `i` on word `k`. */
  method GG(ghost i: nat, a: Word, b: Word, c: Word, d: Word, x: seq<Word>,
            k: nat, t: Word, left: Word, right: Word, ghost n: nat) returns (r: Word)
    requires 16 <= i < 32 && i < n && |x| == 16
    requires k == K(i) && t == T(i) && left == S(i) && right == 32 - left
    ensures Ops(Regs(a, b, c, d), x, i, n) == Ops(Regs(d, r, b, c), x, i + 1, n)
  {
    hide T, K, S, Mix;
    SecondAux(i, b, c, d);
    r := Line(a, c ^ (d & (b ^ c)), x[k], t, left, right, b);
  }

  /** A line of the third round: operation `i` on word `k`. */
  method HH(ghost i: nat, a: Word, b: Word, c: Word, d: Word, x: seq<Word>,
            k: nat, t: Word, left: Word, right: Word, ghost n: nat) returns (r: Word)
    requires 32 <= i < 48 && i < n && |x| == 16
    requires k == K(i) && t == T(i) && left == S(i) && right == 32 - left
    ensures Ops(Regs(a, b, c, d), x, i, n) == Ops(Regs(d, r, b, c), x, i + 1, n)
  {
    hide T, K, S, Mix;
    ThirdAux(i, b, c, d);
    r := Line(a, (b ^ c) ^ d, x[k], t, left, right, b);
  }

  /** A line of the fourth round: operation `i` on word `k`. */
  method II(ghost i: nat, a: Word, b: Word, c: Word, d: Word, x: seq<Word>,
            k: nat, t: Word, left: Word, right: Word, ghost n: nat) returns (r: Word)
    requires 48 <= i < 64 && i < n && |x| == 16
    requires k == K(i) && t == T(i) && left == S(i) && right == 32 - left
    ensures Ops(Regs(a, b, c, d), x, i, n) == Ops(Regs(d, r, b, c), x, i + 1, n)
  {
    hide T, K, S, Mix;
    FourthAux(i, b, c, d);
    r := Line(a, c ^ (b | !d), x[k], t, left, right, b);
  }

  method StartOfRound1(x: seq<Word>, a0: Word, b0: Word, c0: Word, d0: Word, ghost n: nat)
    returns (a: Word, b: Word, c: Word, d: Word)
    requires |x| == 16 && 4 <= n
    ensures Ops(Regs(a0, b0, c0, d0), x, 0, n) == Ops(Regs(a, b, c, d), x, 4, n)
  {
    hide Ops;
    a, b, c, d := a0, b0, c0, d0;
    a := FF(0, a, b, c, d, x, 0, -680876936, 7, 25, n);
    d := FF(1, d, a, b, c, x, 1, -389564586, 12, 20, n);
    c := FF(2, c, d, a, b, x, 2, 606105819, 17, 15, n);
    b := FF(3, b, c, d, a, x, 3, -1044525330, 22, 10, n);
  }

  method Ops4To8(x: seq<Word>, a0: Word, b0: Word, c0: Word, d0: Word, ghost n: nat)
    returns (a: Word, b: Word, c: Word, d: Word)
    requires |x| == 16 && 8 <= n
    ensures Ops(Regs(a0, b0, c0, d0), x, 4, n) == Ops(Regs(a, b, c, d), x, 8, n)
  {
    hide Ops;
    a, b, c, d := a0, b0, c0, d0;
    a := FF(4, a, b, c, d, x, 4, -176418897, 7, 25, n);
    d := FF(5, d, a, b, c, x, 5, 1200080426, 12, 20, n);
    c := FF(6, c, d, a, b, x, 6, -1473231341, 17, 15, n);
    b := FF(7, b, c, d, a, x, 7, -45705983, 22, 10, n);
  }

  method Ops8To16(x: seq<Word>, a0: Word, b0: Word, c0: Word, d0: Word, ghost n: nat)
    returns (a: Word, b: Word, c: Word, d: Word)
    requires |x| == 16 && 16 <= n
    ensures Ops(Regs(a0, b0, c0, d0), x, 8, n) == Ops(Regs(a, b, c, d), x, 16, n)
  {
    hide Ops;
    a, b, c, d := a0, b0, c0, d0;
    a := FF(8, a, b, c, d, x, 8, 1770035416, 7, 25, n);
    d := FF(9, d, a, b, c, x, 9, -1958414417, 12, 20, n);
    c := FF(10, c, d, a, b, x, 10, -42063, 17, 15, n);
    b := FF(11, b, c, d, a, x, 11, -1990404162, 22, 10, n);
    a := FF(12, a, b, c, d, x, 12, 1804603682, 7, 25, n);
    d := FF(13, d, a, b, c, x, 13, -40341101, 12, 20, n);
    c := FF(14, c, d, a, b, x, 14, -1502002290, 17, 15, n);
    b := FF(15, b, c, d, a, x, 15, 1236535329, 22, 10, n);
  }

  method Ops16To24(x: seq<Word>, a0: Word, b0: Word, c0: Word, d0: Word, ghost n: nat)
    returns (a: Word, b: Word, c: Word, d: Word)
    requires |x| == 16 && 24 <= n
    ensures Ops(Regs(a0, b0, c0, d0), x, 16, n) == Ops(Regs(a, b, c, d), x, 24, n)
  {
    hide Ops;
    a, b, c, d := a0, b0, c0, d0;
    a := GG(16, a, b, c, d, x, 1, -165796510, 5, 27, n);
    d := GG(17, d, a, b, c, x, 6, -1069501632, 9, 23, n);
    c := GG(18, c, d, a, b, x, 11, 643717713, 14, 18, n);
    b := GG(19, b, c, d, a, x, 0, -373897302, 20, 12, n);
    a := GG(20, a, b, c, d, x, 5, -701558691, 5, 27, n);
    d := GG(21, d, a, b, c, x, 10, 38016083, 9, 23, n);
    c := GG(22, c, d, a, b, x, 15, -660478335, 14, 18, n);
    b := GG(23, b, c, d, a, x, 4, -405537848, 20, 12, n);
  }

  method Ops24To32(x: seq<Word>, a0: Word, b0: Word, c0: Word, d0: Word, ghost n: nat)
    returns (a: Word, b: Word, c: Word, d: Word)
    requires |x| == 16 && 32 <= n
    ensures Ops(Regs(a0, b0, c0, d0), x, 24, n) == Ops(Regs(a, b, c, d), x, 32, n)
  {
    hide Ops;
    a, b, c, d := a0, b0, c0, d0;
    a := GG(24, a, b, c, d, x, 9, 568446438, 5, 27, n);
    d := GG(25, d, a, b, c, x, 14, -1019803690, 9, 23, n);
    c := GG(26, c, d, a, b, x, 3, -187363961, 14, 18, n);
    b := GG(27, b, c, d, a, x, 8, 1163531501, 20, 12, n);
    a := GG(28, a, b, c, d, x, 13, -1444681467, 5, 27, n);
    d := GG(29, d, a, b, c, x, 2, -51403784, 9, 23, n);
    c := GG(30, c, d, a, b, x, 7, 1735328473, 14, 18, n);
    b := GG(31, b, c, d, a, x, 12, -1926607734, 20, 12, n);
  }

  method Ops32To40(x: seq<Word>, a0: Word, b0: Word, c0: Word, d0: Word, ghost n: nat)
    returns (a: Word, b: Word, c: Word, d: Word)
    requires |x| == 16 && 40 <= n
    ensures Ops(Regs(a0, b0, c0, d0), x, 32, n) == Ops(Regs(a, b, c, d), x, 40, n)
  {
    hide Ops;
    a, b, c, d := a0, b0, c0, d0;
    a := HH(32, a, b, c, d, x, 5, -378558, 4, 28, n);
    d := HH(33, d, a, b, c, x, 8, -2022574463, 11, 21, n);
    c := HH(34, c, d, a, b, x, 11, 1839030562, 16, 16, n);
    b := HH(35, b, c, d, a, x, 14, -35309556, 23, 9, n);
    a := HH(36, a, b, c, d, x, 1, -1530992060, 4, 28, n);
    d := HH(37, d, a, b, c, x, 4, 1272893353, 11, 21, n);
    c := HH(38, c, d, a, b, x, 7, -155497632, 16, 16, n);
    b := HH(39, b, c, d, a, x, 10, -1094730640, 23, 9, n);
  }

  method Ops40To48(x: seq<Word>, a0: Word, b0: Word, c0: Word, d0: Word, ghost n: nat)
    returns (a: Word, b: Word, c: Word, d: Word)
    requires |x| == 16 && 48 <= n
    ensures Ops(Regs(a0, b0, c0, d0), x, 40, n) == Ops(Regs(a, b, c, d), x, 48, n)
  {
    hide Ops;
    a, b, c, d := a0, b0, c0, d0;
    a := HH(40, a, b, c, d, x, 13, 681279174, 4, 28, n);
    d := HH(41, d, a, b, c, x, 0, -358537222, 11, 21, n);
    c := HH(42, c, d, a, b, x, 3, -722521979, 16, 16, n);
    b := HH(43, b, c, d, a, x, 6, 76029189, 23, 9, n);
    a := HH(44, a, b, c, d, x, 9, -640364487, 4, 28, n);
    d := HH(45, d, a, b, c, x, 12, -421815835, 11, 21, n);
    c := HH(46, c, d, a, b, x, 15, 530742520, 16, 16, n);
    b := HH(47, b, c, d, a, x, 2, -995338651, 23, 9, n);
  }

  method Ops48To56(x: seq<Word>, a0: Word, b0: Word, c0: Word, d0: Word, ghost n: nat)
    returns (a: Word, b: Word, c: Word, d: Word)
    requires |x| == 16 && 56 <= n
    ensures Ops(Regs(a0, b0, c0, d0), x, 48, n) == Ops(Regs(a, b, c, d), x, 56, n)
  {
    hide Ops;
    a, b, c, d := a0, b0, c0, d0;
    a := II(48, a, b, c, d, x, 0, -198630844, 6, 26, n);
    d := II(49, d, a, b, c, x, 7, 1126891415, 10, 22, n);
    c := II(50, c, d, a, b, x, 14, -1416354905, 15, 17, n);
    b := II(51, b, c, d, a, x, 5, -57434055, 21, 11, n);
    a := II(52, a, b, c, d, x, 12, 1700485571, 6, 26, n);
    d := II(53, d, a, b, c, x, 3, -1894986606, 10, 22, n);
    c := II(54, c, d, a, b, x, 10, -1051523, 15, 17, n);
    b := II(55, b, c, d, a, x, 1, -2054922799, 21, 11, n);
  }

  method Ops56To64(x: seq<Word>, a0: Word, b0: Word, c0: Word, d0: Word, ghost n: nat)
    returns (a: Word, b: Word, c: Word, d: Word)
    requires |x| == 16 && 64 <= n
    ensures Ops(Regs(a0, b0, c0, d0), x, 56, n) == Ops(Regs(a, b, c, d), x, 64, n)
  {
    hide Ops;
    a, b, c, d := a0, b0, c0, d0;
    a := II(56, a, b, c, d, x, 8, 1873313359, 6, 26, n);
    d := II(57, d, a, b, c, x, 15, -30611744, 10, 22, n);
    c := II(58, c, d, a, b, x, 6, -1560198380, 15, 17, n);
    b := II(59, b, c, d, a, x, 13, 1309151649, 21, 11, n);
    a := II(60, a, b, c, d, x, 4, -145523070, 6, 26, n);
    d := II(61, d, a, b, c, x, 11, -1120210379, 10, 22, n);
    c := II(62, c, d, a, b, x, 2, 718787259, 15, 17, n);
    b := II(63, b, c, d, a, x, 9, -343485551, 21, 11, n);
  }

}
