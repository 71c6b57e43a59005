/** The streaming MD5 object: a 68-octet buffer whose last word takes what a character writes past the
    block, a block hashed as soon as it is full, and a shortcut for the first block. */
module Md5Stream {
  import opened Rfc1321
  import Md5Block
  import Utf8

  const WRAP := 0x1_0000_0000

  /** What `update` accepts: octets, or a string hashed as the octets its encoder writes. */
  datatype Message = Bytes(bytes: seq<Octet>) | Text(units: seq<bv16>)

  function Length(message: Message): nat {
    match message
    case Bytes(s) => |s|
    case Text(u) => |u|
  }

  /** The octets still to come from position `k` on. */
  function From(message: Message, k: nat): seq<Octet> {
    match message
    case Bytes(s) => if k <= |s| then s[k..] else []
    case Text(u) => Utf8.Octets(u, k)
  }

  // ------------------------------------------------------------ facts about the padded message

  lemma {:induction false} ChainSnoc(h: Regs, s: seq<Octet>, block: seq<Octet>)
    requires |s| % 64 == 0 && |block| == 64
    ensures Chain(h, s + block) == Compress(Chain(h, s), Words(block))
    decreases |s|
  {
    hide Compress, Words;
    if s == [] {
      assert s + block == block && block[..64] == block && |block[64..]| == 0;
    } else {
      assert (s + block)[..64] == s[..64] && (s + block)[64..] == s[64..] + block;
      ChainSnoc(Compress(h, Words(s[..64])), s[64..], block);
    }
  }

  // ------------------------------------------------------------ the first block

  /** A sum of three words. */
  function Sum3(f: Word, x: Word, t: Word): Word {
    f + x + t
  }

  method AddThree(f: Word, x: Word, t: Word) returns (sum: Word)
    ensures sum == Sum3(f, x, t)
  {
    sum := f + x + t;
  }

  // The constants of the shortcut fold the standard registers into the table entries.

  lemma FoldA(x: Word)
    ensures Plus(x, -680876937) == Sum(IV.a, IV.d ^ (IV.b & (IV.c ^ IV.d)), x, -680876936)
  {
  }

  lemma Commutes(u: Word, v: Word)
    ensures u + v == v + u
  {
  }

  lemma Associates(u: Word, v: Word, w: Word)
    ensures (u + v) + w == u + (v + w)
  {
  }

  /** The first summand can be added to the last before the others are known. */
  lemma Regroup(v: Word, f: Word, x: Word, t: Word)
    ensures Sum(v, f, x, t) == Sum3(f, x, v + t)
  {
    Commutes(v, f);
    Associates(f, v, x);
    Commutes(v, x);
    Associates(f, x, v);
    Associates(f + x, v, t);
  }

  lemma FoldD(f: Word, x: Word)
    ensures Sum3(f, x, -117830708) == Sum(IV.d, f, x, -389564586)
  {
    hide Sum, Sum3;
    Regroup(IV.d, f, x, -389564586);
  }

  lemma FoldC(f: Word, x: Word)
    ensures Sum3(f, x, -1126478375) == Sum(IV.c, f, x, 606105819)
  {
    hide Sum, Sum3;
    Regroup(IV.c, f, x, 606105819);
  }

  lemma FoldB(f: Word, x: Word)
    ensures Sum3(f, x, -1316259209) == Sum(IV.b, f, x, -1044525330)
  {
    hide Sum, Sum3;
    Regroup(IV.b, f, x, -1044525330);
  }

  lemma FoldAux(a: Word, d: Word)
    ensures -1732584194 ^ (a & 2004318071) == IV.c ^ (a & (IV.b ^ IV.c))
    ensures -271733879 ^ (d & (a ^ -271733879)) == IV.b ^ (d & (a ^ IV.b))
    ensures IV.b == -271733879
  {
  }

  method ShortcutA(x: Word) returns (a: Word)
    ensures a == Mix(IV.a, Aux(0, IV.b, IV.c, IV.d), x, T(0), S(0), 32 - S(0), IV.b)
  {
    hide Plus, Rotated, Sum, Sum3, Aux;
    a := Md5Block.Add(x, -680876937);
    a := Md5Block.Rotate(a, 7, 25);
    a := Md5Block.Add(a, -271733879);
    FoldA(x);
    Md5Block.FirstAux(0, IV.b, IV.c, IV.d);
  }

  method ShortcutD(x: Word, a: Word) returns (d: Word)
    ensures d == Mix(IV.d, Aux(1, a, IV.b, IV.c), x, T(1), S(1), 32 - S(1), a)
  {
    hide Plus, Rotated, Sum, Sum3, Aux;
    d := AddThree(-1732584194 ^ (a & 2004318071), x, -117830708);
    d := Md5Block.Rotate(d, 12, 20);
    d := Md5Block.Add(d, a);
    FoldAux(a, 0);
    FoldD(-1732584194 ^ (a & 2004318071), x);
    Md5Block.FirstAux(1, a, IV.b, IV.c);
  }

  method ShortcutC(x: Word, a: Word, d: Word) returns (c: Word)
    ensures c == Mix(IV.c, Aux(2, d, a, IV.b), x, T(2), S(2), 32 - S(2), d)
  {
    hide Plus, Rotated, Sum, Sum3, Aux;
    c := AddThree(-271733879 ^ (d & (a ^ -271733879)), x, -1126478375);
    c := Md5Block.Rotate(c, 17, 15);
    c := Md5Block.Add(c, d);
    FoldAux(a, d);
    FoldC(-271733879 ^ (d & (a ^ -271733879)), x);
    Md5Block.FirstAux(2, d, a, IV.b);
  }

  method ShortcutB(x: Word, a: Word, d: Word, c: Word) returns (b: Word)
    ensures b == Mix(IV.b, Aux(3, c, d, a), x, T(3), S(3), 32 - S(3), c)
  {
    hide Plus, Rotated, Sum, Sum3, Aux;
    b := AddThree(a ^ (c & (d ^ a)), x, -1316259209);
    b := Md5Block.Rotate(b, 22, 10);
    b := Md5Block.Add(b, c);
    FoldB(a ^ (c & (d ^ a)), x);
    Md5Block.FirstAux(3, c, d, a);
  }

  /** The first four operations from the standard registers, with the constants folded in. */
  method ShortcutOfRound1(x: seq<Word>, ghost n: nat) returns (a: Word, b: Word, c: Word, d: Word)
    requires |x| == 16 && 4 <= n
    ensures Ops(IV, x, 0, n) == Ops(Regs(a, b, c, d), x, 4, n)
  {
    hide Ops, Mix, T, S, Sum, Aux;
    a := ShortcutA(x[0]);
    Md5Block.OpsStep(0, IV.a, IV.b, IV.c, IV.d, x, n);
    d := ShortcutD(x[1], a);
    Md5Block.OpsStep(1, IV.d, a, IV.b, IV.c, x, n);
    c := ShortcutC(x[2], a, d);
    Md5Block.OpsStep(2, IV.c, d, a, IV.b, x, n);
    b := ShortcutB(x[3], a, d, c);
    Md5Block.OpsStep(3, IV.b, c, d, a, x, n);
  }

  // ------------------------------------------------------------ the object

  class Md5 {
    const buffer8: array<Octet>
    var h0: Word
    var h1: Word
    var h2: Word
    var h3: Word
    var start: nat
    var bytes: nat
    var hBytes: nat
    var lastByteIndex: nat
    var finalized: bool
    var hashed: bool
    var first: bool
    ghost var m: seq<Octet>   // everything taken so far

    /** The registers after the blocks hashed so far. */
    ghost function Registers(): Regs
      reads `first, `h0, `h1, `h2, `h3
    {
      if first then IV else Regs(h0, h1, h2, h3)
    }

    /** The registers are those after the blocks of `p`. */
    ghost predicate HashedTo(p: seq<Octet>)
      reads `first, `h0, `h1, `h2, `h3
    {
      |p| % 64 == 0 && Registers() == Chain(IV, p)
    }

    /** What has been hashed, and where the rest of the message lies: after a full block that is still in
        the buffer, or at its front with zeros behind it. */
    ghost predicate Aligned()
      reads this, buffer8
    {
      && buffer8.Length == 68
      && start < 64 && start <= |m| && (|m| - start) % 64 == 0
      && HashedTo(m[..|m| - start])
      && (first ==> start == |m| && !hashed)
      && (if hashed then
            && start <= 3 && lastByteIndex == 64 + start
            && buffer8[64..] == m[|m| - start..] + Zeros(4 - start)
          else
            && lastByteIndex == start
            && buffer8[..] == m[|m| - start..] + Zeros(68 - start))
    }

    ghost predicate Valid()
      reads this, buffer8
    {
      !finalized && Aligned() && bytes < WRAP && hBytes * WRAP + bytes == |m|
    }

    constructor ()
      ensures Valid() && m == [] && fresh(buffer8)
    {
      buffer8 := new Octet[68](_ => 0);
      h0, h1, h2, h3 := 0, 0, 0, 0;
      start, bytes, hBytes, lastByteIndex := 0, 0, 0, 0;
      finalized, hashed, first := false, false, true;
      m := [];
      new;
      assert buffer8[..] == Zeros(68);
    }

    /** `hash`: the block function on the first sixteen words of the buffer, after the blocks of `p`. */
    method Hash(ghost p: seq<Octet>)
      requires buffer8.Length == 68 && HashedTo(p)
      modifies `h0, `h1, `h2, `h3, `first
      ensures !first && HashedTo(p + buffer8[..64])
    {
      hide Chain, Compress, Words;
      AddBlock();
      ChainSnoc(IV, p, buffer8[..64]);
    }

    method AddBlock()
      requires buffer8.Length == 68
      modifies `h0, `h1, `h2, `h3, `first
      ensures !first && Registers() == Compress(old(Registers()), Words(buffer8[..64]))
    {
      hide Ops, Plus, Words;
      var x := Words(buffer8[..64]);
      var a, b, c, d := Permute(x);
      CompressIs(Registers(), x);
      if first {
        FoldIV(a, b, c, d);
        h0 := Md5Block.Add(a, 1732584193);
        h1 := Md5Block.Add(b, -271733879);
        h2 := Md5Block.Add(c, -1732584194);
        h3 := Md5Block.Add(d, 271733878);
        first := false;
      } else {
        h0 := Md5Block.Add(h0, a);
        h1 := Md5Block.Add(h1, b);
        h2 := Md5Block.Add(h2, c);
        h3 := Md5Block.Add(h3, d);
      }
    }

    /** The sixty-four operations, starting with the shortcut on the first block. */
    method Permute(x: seq<Word>) returns (a: Word, b: Word, c: Word, d: Word)
      requires |x| == 16
      ensures Regs(a, b, c, d) == Ops(Registers(), x, 0, 64)
    {
      hide Ops;
      if first {
        a, b, c, d := ShortcutOfRound1(x, 64);
      } else {
        a, b, c, d := Md5Block.StartOfRound1(x, h0, h1, h2, h3, 64);
      }
      a, b, c, d := Md5Block.Ops4To8(x, a, b, c, d, 64);
      a, b, c, d := Md5Block.Ops8To16(x, a, b, c, d, 64);
      a, b, c, d := Md5Block.Ops16To24(x, a, b, c, d, 64);
      a, b, c, d := Md5Block.Ops24To32(x, a, b, c, d, 64);
      a, b, c, d := Md5Block.Ops32To40(x, a, b, c, d, 64);
      a, b, c, d := Md5Block.Ops40To48(x, a, b, c, d, 64);
      a, b, c, d := Md5Block.Ops48To56(x, a, b, c, d, 64);
      a, b, c, d := Md5Block.Ops56To64(x, a, b, c, d, 64);
      OpsDone(Regs(a, b, c, d), x);
    }

    /** Starts the next block with the octets that ran past the last one. */
    method Recycle()
      requires Aligned() && hashed
      modifies buffer8, `hashed, `lastByteIndex
      ensures Aligned() && !hashed && m == old(m)
    {
      hide HashedTo;
      ghost var over := m[|m| - start..];
      assert forall j :: 0 <= j < 4 ==> buffer8[64 + j] == buffer8[64..][j];
      hashed := false;
      lastByteIndex := start;
      forall j | 0 <= j < 4 { buffer8[j] := buffer8[64 + j]; }
      forall j | 4 <= j < 68 { buffer8[j] := 0; }
      assert buffer8[..] == over + Zeros(68 - start);
    }

    /** Writes octets at the end of what the buffer holds. */
    method Put(i: nat, octets: seq<Octet>, ghost held: seq<Octet>)
      requires buffer8.Length == 68 && i == |held| && i + |octets| <= 68 && buffer8[..] == held + Zeros(68 - i)
      modifies buffer8
      ensures buffer8[..] == held + octets + Zeros(68 - i - |octets|)
    {
      ghost var before := buffer8[..];
      forall j | 0 <= j < |octets| { buffer8[i + j] := octets[j]; }
      assert forall j :: 0 <= j < 68 && !(i <= j < i + |octets|) ==> buffer8[j] == before[j];
    }

    /** The inner loop: fills the block from `start` on; the write index never leaves the buffer. */
    method Fill(message: Message, from: nat) returns (index: nat, i: nat, ghost taken: seq<Octet>)
      requires buffer8.Length == 68 && start < 64 && start <= |m| && from < Length(message)
      requires buffer8[..] == m[|m| - start..] + Zeros(68 - start)
      modifies buffer8
      ensures from < index && i == start + |taken| && i <= 67
      ensures From(message, from) == taken + From(message, index)
      ensures buffer8[..] == m[|m| - start..] + taken + Zeros(68 - i)
      ensures i < 64 ==> Length(message) <= index
    {
      hide From, Length, Zeros;
      ghost var tail := m[|m| - start..];
      index, i, taken := from, start, [];
      assert tail + taken == tail;
      while index < Length(message) && i < 64
        invariant from <= index && (from < index || (i < 64 && index < Length(message)))
        invariant i == start + |taken| && i <= 67 && |tail| == start
        invariant From(message, from) == taken + From(message, index)
        invariant buffer8[..] == tail + taken + Zeros(68 - i)
        decreases Length(message) as int - index
      {
        var octets, used := NextOctets(message, index);
        Put(i, octets, tail + taken);
        assert tail + taken + octets == tail + (taken + octets);
        taken := taken + octets;
        i := i + |octets|;
        index := index + used;
      }
    }

    /** One round of the outer loop: fills a block, and hashes it if it is full. */
    method TakeBlock(message: Message, index: nat) returns (next: nat)
      requires Aligned() && !hashed && index < Length(message)
      modifies this, buffer8
      ensures Aligned() && finalized == old(finalized) && hBytes == old(hBytes)
      ensures index < next && old(m) <= m && bytes == old(bytes) + |m| - |old(m)|
      ensures m + From(message, next) == old(m) + From(message, index)
    {
      hide HashedTo, From, Length, Zeros;
      var i;
      ghost var taken;
      ghost var base, was := |m| - start, m;
      next, i, taken := Fill(message, index);
      m := m + taken;
      assert m + From(message, next) == was + (taken + From(message, next));
      assert m[..base] == was[..base] && m[base..] == was[base..] + taken;
      lastByteIndex := i;
      bytes := bytes + (i - start);
      if i >= 64 {
        HashFull(i, was, taken);
      } else {
        start := i;
      }
    }

    /** Hashes the block that the write index has run past. */
    method HashFull(i: nat, ghost was: seq<Octet>, ghost taken: seq<Octet>)
      requires buffer8.Length == 68 && m == was + taken && start < 64 && start <= |was| && (|was| - start) % 64 == 0
      requires HashedTo(was[..|was| - start])
      requires 64 <= i <= 67 && i == start + |taken| && lastByteIndex == i
      requires buffer8[..] == was[|was| - start..] + taken + Zeros(68 - i)
      modifies `start, `hashed, `h0, `h1, `h2, `h3, `first
      ensures Aligned()
    {
      hide HashedTo, Zeros;
      ghost var base, data := |was| - start, buffer8[..];
      FullBlock(was, taken, base, data, i);
      assert buffer8[..64] == data[..64] && buffer8[64..] == data[64..];
      Hash(was[..base]);
      start := i - 64;
      hashed := true;
    }

    method NormalizeCount()
      requires Aligned()
      modifies `bytes, `hBytes
      ensures Aligned() && bytes < WRAP && hBytes * WRAP + bytes == old(hBytes * WRAP + bytes)
    {
      hide HashedTo, Zeros;
      if bytes >= WRAP {
        hBytes := hBytes + bytes / WRAP;
        bytes := bytes % WRAP;
      }
    }

    /** `update`: takes all of the message. */
    method Update(message: Message)
      requires Valid()
      modifies this, buffer8
      ensures Valid() && m == old(m) + From(message, 0)
    {
      hide Aligned, From, Length;
      var index, length := 0, Length(message);
      while index < length
        invariant Aligned() && !finalized && hBytes * WRAP + bytes == |m|
        invariant m + From(message, index) == old(m) + From(message, 0)
        decreases length as int - index
      {
        if hashed { Recycle(); }
        index := TakeBlock(message, index);
      }
      Finished(message, index);
      NormalizeCount();
    }

    /** blocks[i >> 2] |= EXTRA[i & 3] */
    method MarkEnd(i: nat)
      requires buffer8.Length == 68 && i < 68 && buffer8[i] == 0
      modifies buffer8
      ensures buffer8[..] == old(buffer8[..])[i := 0x80]
    {
      MarkOctet(i / 4, i % 4);
    }

    method MarkOctet(k: nat, j: nat)
      requires buffer8.Length == 68 && k < 17 && j < 4 && buffer8[4 * k + j] == 0
      modifies buffer8
      ensures buffer8[..] == old(buffer8[..])[4 * k + j := 0x80]
    {
      hide Marked, OctetOf, WordOctets;
      ghost var before := buffer8[..];
      var a, b, c, d := buffer8[4 * k], buffer8[4 * k + 1], buffer8[4 * k + 2], buffer8[4 * k + 3];
      var w := Marked(a, b, c, d, j);
      ghost var word := [a, b, c, d];
      assert before[4 * k..4 * k + 4] == word && word[j] == before[4 * k + j];
      MarkWord(a, b, c, d, j);
      MarkedWord(before, k, j, word);
      StoreOctets(k, WordOctets(w));
    }

    method StoreOctets(k: nat, octets: seq<Octet>)
      requires buffer8.Length == 68 && k < 17 && |octets| == 4
      modifies buffer8
      ensures buffer8[..] == old(buffer8[..])[..4 * k] + octets + old(buffer8[..])[4 * k + 4..]
    {
      buffer8[4 * k], buffer8[4 * k + 1], buffer8[4 * k + 2], buffer8[4 * k + 3] :=
        octets[0], octets[1], octets[2], octets[3];
    }

    /** blocks[k] = n */
    method StoreWord(k: nat, n: nat)
      requires buffer8.Length == 68 && k < 17
      modifies buffer8
      ensures buffer8[..] == old(buffer8[..])[..4 * k] + WordOf(n) + old(buffer8[..])[4 * k + 4..]
    {
      hide WordOf;
      StoreOctets(k, WordOf(n));
    }

    /** blocks[0] = blocks[16], and every other word zero. */
    method CarryOver()
      requires buffer8.Length == 68
      modifies buffer8
      ensures buffer8[..] == old(buffer8[64..]) + Zeros(64)
    {
      forall j | 0 <= j < 4 { buffer8[j] := buffer8[64 + j]; }
      forall j | 4 <= j < 68 { buffer8[j] := 0; }
    }

    /** The first half of `finalize`: the end mark, and room for the length.  `p` is what has been hashed
        then, `x` what the buffer still holds of the marked message. */
    method CloseMessage() returns (ghost p: seq<Octet>, ghost x: seq<Octet>)
      requires Aligned()
      modifies buffer8, `h0, `h1, `h2, `h3, `first
      ensures |x| <= 56 && buffer8[..] == x + Zeros(68 - |x|)
      ensures |p| == (|m| + 8) / 64 * 64 && HashedTo(p)
      ensures |m| < |p + x| && p + x == m + [0x80] + Zeros(|p + x| - |m| - 1)
    {
      hide HashedTo;
      ghost var base, tail := |m| - start, m[|m| - start..];
      assert m == m[..base] + tail;
      p, x := m[..base], tail + [0x80];
      var i := lastByteIndex;
      if hashed {
        CloseOverflow(i, tail);
      } else {
        CloseFront(i, tail);
        if i >= 56 {
          CloseBlock(p, x);
          p, x := p + (x + Zeros(63 - start)), [];
        }
      }
    }

    /** The mark goes behind the octets that ran past the block, and those to the front. */
    method CloseOverflow(i: nat, ghost tail: seq<Octet>)
      requires buffer8.Length == 68 && |tail| <= 3 && i == 64 + |tail|
      requires buffer8[64..] == tail + Zeros(4 - |tail|)
      modifies buffer8
      ensures buffer8[..] == tail + [0x80] + Zeros(67 - |tail|)
    {
      ghost var before := buffer8[..];
      assert before[64..] == tail + Zeros(4 - |tail|);
      assert before[i] == before[64..][|tail|] == 0;
      MarkEnd(i);
      assert buffer8[64..] == before[i := 0x80][64..] == tail + [0x80] + Zeros(3 - |tail|);
      CarryOver();
      assert buffer8[..] == tail + [0x80] + (Zeros(3 - |tail|) + Zeros(64));
    }

    method CloseFront(i: nat, ghost tail: seq<Octet>)
      requires buffer8.Length == 68 && |tail| < 64 && i == |tail| && buffer8[..] == tail + Zeros(68 - |tail|)
      modifies buffer8
      ensures buffer8[..] == tail + [0x80] + Zeros(67 - |tail|)
    {
      ghost var before := buffer8[..];
      assert before[i] == 0;
      MarkEnd(i);
    }

    /** No room for the length behind the mark: the block goes, and an empty one is left. */
    method CloseBlock(ghost p: seq<Octet>, ghost x: seq<Octet>)
      requires buffer8.Length == 68 && |x| <= 64 && buffer8[..] == x + Zeros(68 - |x|) && HashedTo(p)
      modifies buffer8, `h0, `h1, `h2, `h3, `first
      ensures HashedTo(p + (x + Zeros(64 - |x|))) && buffer8[..] == Zeros(68)
    {
      hide HashedTo;
      assert buffer8[..64] == x + Zeros(64 - |x|) && buffer8[64..] == Zeros(4);
      Hash(p);
      CarryOver();
      assert buffer8[..] == Zeros(4) + Zeros(64) == Zeros(68);
    }

    /** The second half of `finalize`: the length, and the last block. */
    method HashLength(ghost p: seq<Octet>, ghost x: seq<Octet>)
      requires |x| <= 56 && buffer8.Length == 68 && buffer8[..] == x + Zeros(68 - |x|)
      requires HashedTo(p)
      modifies buffer8, `h0, `h1, `h2, `h3, `first
      ensures !first
      ensures HashedTo(p + (x + Zeros(56 - |x|) + WordOf(8 * bytes) + WordOf(8 * hBytes % WRAP + bytes / 0x2000_0000)))
    {
      hide HashedTo, WordOf;
      var low, high := 8 * bytes, 8 * hBytes % WRAP + bytes / 0x2000_0000;
      StoreWord(14, low);
      StoreWord(15, high);
      ghost var block := x + Zeros(56 - |x|) + WordOf(low) + WordOf(high);
      assert buffer8[..64] == block;
      Hash(p);
    }

    /** `finalize`: pads the message and hashes what is left of it. */
    method Finalize()
      requires Valid()
      modifies this, buffer8
      ensures finalized && !first && m == old(m) && HashedTo(Padded(m))
    {
      hide HashedTo, Padded, WordOf, Zeros;
      finalized := true;
      ghost var p, x := CloseMessage();
      LengthWords(bytes, hBytes);
      PaddedIs(m, p, x);
      HashLength(p, x);
    }

    /** `digest`: the digest of everything taken, octet by octet. */
    method Digest() returns (digest: seq<Octet>)
      requires Valid()
      modifies this, buffer8
      ensures digest == Rfc1321.Digest(m) && m == old(m)
    {
      hide Chain, Padded;
      Finalize();
      digest := WordOctets(h0) + WordOctets(h1) + WordOctets(h2) + WordOctets(h3);
    }
  }

  lemma OpsDone(r: Regs, x: seq<Word>)
    requires |x| == 16
    ensures Ops(r, x, 64, 64) == r
  {
  }

  lemma CompressIs(h: Regs, x: seq<Word>)
    requires |x| == 16
    ensures var r := Ops(h, x, 0, 64);
      Compress(h, x) == Regs(Plus(h.a, r.a), Plus(h.b, r.b), Plus(h.c, r.c), Plus(h.d, r.d))
  {
    hide Ops, Plus;
  }

  lemma FoldIV(a: Word, b: Word, c: Word, d: Word)
    ensures Plus(a, 1732584193) == Plus(IV.a, a) && Plus(b, -271733879) == Plus(IV.b, b)
    ensures Plus(c, -1732584194) == Plus(IV.c, c) && Plus(d, 271733878) == Plus(IV.d, d)
  {
  }

  method NextOctets(message: Message, index: nat) returns (octets: seq<Octet>, used: nat)
    requires index < Length(message)
    ensures 1 <= |octets| <= 4 && 1 <= used
    ensures From(message, index) == octets + From(message, index + used)
  {
    if message.Bytes? {
      octets, used := [message.bytes[index]], 1;
      assert message.bytes[index..] == octets + message.bytes[index + 1..];
    } else {
      var u := Utf8.UnitOctets(message.units, index);
      octets, used := u.0, u.1;
    }
  }

  lemma Finished(message: Message, index: nat)
    requires Length(message) <= index
    ensures From(message, index) == []
  {
  }

  /** A full buffer: its first sixteen words are the next block of the message. */
  lemma FullBlock(m: seq<Octet>, taken: seq<Octet>, base: nat, data: seq<Octet>, i: nat)
    requires base <= |m| < base + 64 && base % 64 == 0 && |m| + |taken| - base == i && 64 <= i <= 67
    requires |data| == 68 && data == m[base..] + taken + Zeros(68 - i)
    ensures var n := m + taken;
      && n[..base + 64] == m[..base] + data[..64]
      && data[64..] == n[base + 64..] + Zeros(68 - i)
  {
    var n := m + taken;
    assert data == n[base..] + Zeros(68 - i);
    assert n[..base + 64] == m[..base] + data[..64];
  }

  /** The table EXTRA: the top bit of octet `j` of a word. */
  function Extra(j: nat): Word {
    if j == 0 then 128 else if j == 1 then 32768 else if j == 2 then 8388608 else -2147483648
  }

  function Marked(a: Octet, b: Octet, c: Octet, d: Octet, j: nat): Word {
    LittleWord(a, b, c, d) | Extra(j)
  }

  // Setting the top bit of a zero octet through the word that holds it.

  lemma Mark0(b: Octet, c: Octet, d: Octet)
    ensures OctetOf(Marked(0, b, c, d, 0), 0) == 0x80
    ensures OctetOf(Marked(0, b, c, d, 0), 1) == b
    ensures OctetOf(Marked(0, b, c, d, 0), 2) == c
    ensures OctetOf(Marked(0, b, c, d, 0), 3) == d
  {
  }

  lemma Mark1(a: Octet, c: Octet, d: Octet)
    ensures OctetOf(Marked(a, 0, c, d, 1), 0) == a
    ensures OctetOf(Marked(a, 0, c, d, 1), 1) == 0x80
    ensures OctetOf(Marked(a, 0, c, d, 1), 2) == c
    ensures OctetOf(Marked(a, 0, c, d, 1), 3) == d
  {
  }

  lemma Mark2(a: Octet, b: Octet, d: Octet)
    ensures OctetOf(Marked(a, b, 0, d, 2), 0) == a
    ensures OctetOf(Marked(a, b, 0, d, 2), 1) == b
    ensures OctetOf(Marked(a, b, 0, d, 2), 2) == 0x80
    ensures OctetOf(Marked(a, b, 0, d, 2), 3) == d
  {
  }

  lemma Mark3(a: Octet, b: Octet, c: Octet)
    ensures OctetOf(Marked(a, b, c, 0, 3), 0) == a
    ensures OctetOf(Marked(a, b, c, 0, 3), 1) == b
    ensures OctetOf(Marked(a, b, c, 0, 3), 2) == c
    ensures OctetOf(Marked(a, b, c, 0, 3), 3) == 0x80
  {
  }

  lemma MarkWord(a: Octet, b: Octet, c: Octet, d: Octet, j: nat)
    requires j < 4 && [a, b, c, d][j] == 0
    ensures WordOctets(Marked(a, b, c, d, j)) == [a, b, c, d][j := 0x80]
  {
    hide Marked, OctetOf;
    if j == 0 { Mark0(b, c, d); }
    else if j == 1 { Mark1(a, c, d); }
    else if j == 2 { Mark2(a, b, d); }
    else { Mark3(a, b, c); }
  }

  lemma MarkedWord(s: seq<Octet>, k: nat, j: nat, word: seq<Octet>)
    requires 4 * k + 4 <= |s| && j < 4 && s[4 * k..4 * k + 4] == word
    ensures s[..4 * k] + word[j := 0x80] + s[4 * k + 4..] == s[4 * k + j := 0x80]
  {
    assert s == s[..4 * k] + word + s[4 * k + 4..];
  }

  lemma SameWord(x: nat, y: nat)
    requires x % WRAP == y % WRAP
    ensures WordOf(x) == WordOf(y)
  {
  }

  /** The two length words hold eight times the octet count modulo 2^64. */
  lemma LengthWords(bytes: nat, hBytes: nat)
    requires bytes < WRAP
    ensures var n := hBytes * WRAP + bytes;
      && WordOf(8 * bytes) == WordOf(8 * n)
      && WordOf(8 * hBytes % WRAP + bytes / 0x2000_0000) == WordOf(8 * n / WRAP)
  {
    hide WordOf;
    var n := hBytes * WRAP + bytes;
    assert 8 * n == 8 * hBytes * WRAP + 8 * bytes;
    SameWord(8 * bytes, 8 * n);
    var q := bytes / 0x2000_0000;
    assert 8 * n / WRAP == 8 * hBytes + q;
    assert (8 * hBytes % WRAP + q) % WRAP == (8 * hBytes + q) % WRAP;
    SameWord(8 * hBytes % WRAP + q, 8 * n / WRAP);
  }

  lemma PaddedIs(m: seq<Octet>, p: seq<Octet>, x: seq<Octet>)
    requires |x| <= 56 && |p| == (|m| + 8) / 64 * 64
    requires |m| < |p + x| && p + x == m + [0x80] + Zeros(|p + x| - |m| - 1)
    ensures Padded(m) == p + (x + Zeros(56 - |x|) + WordOf(8 * |m|) + WordOf(8 * |m| / WRAP))
  {
    hide WordOf;
    var n, k := |m|, |p + x| - |m| - 1;
    var z := (119 - n % 64) % 64;
    assert n + 1 + z + 8 == |p| + 64;
    assert Zeros(k) + Zeros(56 - |x|) == Zeros(z);
    var len := WordOf(8 * n) + WordOf(8 * n / WRAP);
    assert p + (x + Zeros(56 - |x|) + WordOf(8 * n) + WordOf(8 * n / WRAP)) == (p + x) + (Zeros(56 - |x|) + len);
    assert m + Padding(n) == m + [0x80] + Zeros(z) + len;
    assert (p + x) + (Zeros(56 - |x|) + len) == m + [0x80] + (Zeros(k) + Zeros(56 - |x|)) + len;
  }

  // ------------------------------------------------------------ whole messages

  /** The octets of several messages taken in turn. */
  function All(messages: seq<Message>): seq<Octet> {
    if messages == [] then [] else All(messages[..|messages| - 1]) + From(messages[|messages| - 1], 0)
  }

  /** However a message is cut into `update` calls, its digest is the one RFC 1321 gives it. */
  method DigestOf(messages: seq<Message>) returns (digest: seq<Octet>)
    ensures digest == Rfc1321.Digest(All(messages))
  {
    hide Rfc1321.Digest, From, Md5.Aligned;
    var md5 := new Md5();
    for i := 0 to |messages|
      invariant md5.Valid() && md5.m == All(messages[..i]) && fresh(md5) && fresh(md5.buffer8)
    {
      md5.Update(messages[i]);
      assert messages[..i + 1][..i] == messages[..i];
    }
    assert messages[..|messages|] == messages;
    digest := md5.Digest();
  }

  /** A well-formed string is hashed as its UTF-8 octets. */
  lemma TextIsUtf8(units: seq<bv16>)
    requires Utf8.WellFormed(units)
    ensures Utf8.Scalars(Utf8.Points(units))
    ensures From(Text(units), 0) == Utf8.Encode(Utf8.Points(units))
  {
    Utf8.WellFormedAsUtf8(units);
  }
}
