/** WebSocket frames, section 5.2 of RFC 6455: the client's header automaton, its frame writer, and what
    they make of a stream of frames. */
module WebSocket {
  import opened Bytes

  datatype Key = Key(k0: byte, k1: byte, k2: byte, k3: byte)

  const NO_KEY := Key(0, 0, 0, 0)

  /** What the parser knows of the current frame. */
  datatype Hybi = Hybi(fin: nat, rsv1: nat, rsv2: nat, rsv3: nat, opcode: nat, mask: nat, length: int, key: Key)

  /** What the callbacks see, with the payload octet by octet. */
  datatype Event = Header(h: Hybi) | Octet(b: byte) | Message(m: Hybi)

  datatype State = State(
    current: Hybi, pos: nat, bpos: int, complete: bool, inHeader: bool, payload16: bool, payload64: bool)

  datatype Result = Result(st: State, events: seq<Event>)

  const START := State(Hybi(1, 0, 0, 0, 1, 0, 0, NO_KEY), 0, 0, false, true, false, false)

  // ------------------------------------------------------------ one octet at a time

  /** JavaScript's `b << n`: the shift count is taken modulo 32, the result is a signed 32-bit integer. */
  function ShiftLeft(b: byte, n: nat): int {
    Signed32(b as int * Pow2(n % 32) % 0x1_0000_0000)
  }

  function Pow2(n: nat): nat
    requires n < 32
  {
    if n == 0 then 1 else if n == 8 then 0x100 else if n == 16 then 0x1_0000 else if n == 24 then 0x100_0000
    else 2 * Pow2(n - 1)
  }

  /** The header is complete: a frame with a payload goes on to its body, an empty one is a message. */
  function HeaderDone(s: State): Result {
    if s.current.length != 0 then Result(s.(inHeader := false, bpos := 0), [Header(s.current)])
    else MessageDone(s)
  }

  function MessageDone(s: State): Result {
    Result(s.(pos := 0, complete := true), [Message(s.current)])
  }

  /** The switch over the header position. */
  function HeaderOctet(s: State, c: byte): Result {
    var m := s.current;
    match s.pos
    case 0 =>
      Result(s.(payload16 := false, payload64 := false, complete := false,
                current := m.(fin := c / 128 % 2, rsv1 := c / 64 % 2, rsv2 := c / 32 % 2, rsv3 := c / 16 % 2,
                              opcode := c % 16, key := NO_KEY)), [])
    case 1 =>
      var s := s.(current := m.(mask := c / 128 % 2, length := c % 128));
      if s.current.length == 126 then Result(s.(payload16 := true), [])
      else if s.current.length == 127 then Result(s.(payload64 := true), [])
      else if s.current.length == 0 then MessageDone(s)
      else if s.current.mask == 0 then HeaderDone(s)
      else Result(s, [])
    case 2 =>
      if s.payload16 then Result(s.(current := m.(length := ShiftLeft(c, 8))), [])
      else if !s.payload64 then Result(s.(current := m.(key := m.key.(k0 := c))), [])
      else Result(s, [])
    case 3 =>
      if s.payload16 then
        var s := s.(current := m.(length := m.length + c));
        if m.mask == 0 then HeaderDone(s) else Result(s, [])
      else if s.payload64 then Result(s.(current := m.(length := ShiftLeft(c, 48))), [])
      else Result(s.(current := m.(key := m.key.(k1 := c))), [])
    case 4 =>
      if s.payload16 then Result(s.(current := m.(key := m.key.(k0 := c))), [])
      else if s.payload64 then Result(s.(current := m.(length := m.length + ShiftLeft(c, 40))), [])
      else Result(s.(current := m.(key := m.key.(k2 := c))), [])
    case 5 =>
      if s.payload16 then Result(s.(current := m.(key := m.key.(k1 := c))), [])
      else if s.payload64 then Result(s.(current := m.(length := m.length + ShiftLeft(c, 32))), [])
      else HeaderDone(s.(current := m.(key := m.key.(k3 := c))))
    case 6 =>
      if s.payload16 then Result(s.(current := m.(key := m.key.(k2 := c))), [])
      else if s.payload64 then Result(s.(current := m.(length := m.length + ShiftLeft(c, 24))), [])
      else Result(s, [])
    case 7 =>
      if s.payload16 then HeaderDone(s.(current := m.(key := m.key.(k3 := c))))
      else if s.payload64 then Result(s.(current := m.(length := m.length + ShiftLeft(c, 16))), [])
      else Result(s, [])
    case 8 =>
      if s.payload64 then Result(s.(current := m.(length := m.length + ShiftLeft(c, 8))), []) else Result(s, [])
    case 9 =>
      if s.payload64 then
        var s := s.(current := m.(length := m.length + c));
        if m.mask == 0 then HeaderDone(s) else Result(s, [])
      else Result(s, [])
    case 10 => if s.payload64 then Result(s.(current := m.(key := m.key.(k0 := c))), []) else Result(s, [])
    case 11 => if s.payload64 then Result(s.(current := m.(key := m.key.(k1 := c))), []) else Result(s, [])
    case 12 => if s.payload64 then Result(s.(current := m.(key := m.key.(k2 := c))), []) else Result(s, [])
    case 13 => if s.payload64 then HeaderDone(s.(current := m.(key := m.key.(k3 := c)))) else Result(s, [])
    case _ => Result(s, [])
  }

  /** The end of the switch: the next position, unless a message just ended. */
  function After(r: Result): Result {
    if r.st.complete then r.(st := r.st.(complete := false)) else r.(st := r.st.(pos := r.st.pos + 1))
  }

  /** One octet: of a header, or of a body that it may complete. */
  function Step(s: State, c: byte): Result {
    if s.inHeader then
      After(HeaderOctet(s, c))
    else
      var s := s.(bpos := s.bpos + 1);
      if s.bpos == s.current.length then
        Result(MessageDone(s).st.(inHeader := true), [Octet(c), Message(s.current)])
      else Result(s, [Octet(c)])
  }

  function Run(s: State, data: Octets): Result
    decreases |data|
  {
    if data == [] then Result(s, [])
    else
      var r := Step(s, data[0]);
      var t := Run(r.st, data[1..]);
      Result(t.st, r.events + t.events)
  }

  /** How the octets arrive is invisible: what the parser does with `a` then `b` is what it does with both. */
  lemma {:induction false} RunAppend(s: State, a: Octets, b: Octets)
    ensures var r := Run(s, a); var t := Run(r.st, b);
      Run(s, a + b) == Result(t.st, r.events + t.events)
    decreases |a|
  {
    hide Step;
    if a == [] {
      assert a + b == b;
    } else {
      assert (a + b)[0] == a[0] && (a + b)[1..] == a[1..] + b;
      RunAppend(Step(s, a[0]).st, a[1..], b);
    }
  }

  // ------------------------------------------------------------ frames

  /** The three ways section 5.2 writes a payload length. */
  datatype Form = Short | Medium | Long

  datatype Frame = Frame(
    fin: nat, rsv1: nat, rsv2: nat, rsv3: nat, opcode: nat, masked: bool, key: Key, form: Form, payload: Octets)

  predicate WellFormed(f: Frame) {
    && f.fin < 2 && f.rsv1 < 2 && f.rsv2 < 2 && f.rsv3 < 2 && f.opcode < 16
    && match f.form
       case Short => |f.payload| < 126
       case Medium => |f.payload| < 0x1_0000
       case Long => |f.payload| < 0x8000_0000_0000_0000
  }

  function LengthOctets(form: Form, n: nat): Octets
    requires n < 0x1_0000_0000_0000_0000
  {
    match form
    case Short => []
    case Medium => PutU16(n)
    case Long => PutU32(n / 0x1_0000_0000) + PutU32(n)
  }

  function EncodeHeader(f: Frame): Octets
    requires WellFormed(f)
  {
    var n := match f.form case Short => |f.payload| case Medium => 126 case Long => 127;
    [f.fin * 128 + f.rsv1 * 64 + f.rsv2 * 32 + f.rsv3 * 16 + f.opcode, (if f.masked then 128 else 0) + n]
    + LengthOctets(f.form, |f.payload|)
    + if f.masked then [f.key.k0, f.key.k1, f.key.k2, f.key.k3] else []
  }

  function EncodeFrame(f: Frame): Octets
    requires WellFormed(f)
  {
    EncodeHeader(f) + f.payload
  }

  /** What the callbacks should be told about a frame. */
  function Told(f: Frame): Hybi {
    Hybi(f.fin, f.rsv1, f.rsv2, f.rsv3, f.opcode, if f.masked then 1 else 0, |f.payload|,
         if f.masked then f.key else NO_KEY)
  }

  function OctetEvents(data: Octets): seq<Event> {
    if data == [] then [] else [Octet(data[0])] + OctetEvents(data[1..])
  }

  function Expected(f: Frame): seq<Event> {
    if f.payload == [] then [Message(Told(f))]
    else [Header(Told(f))] + OctetEvents(f.payload) + [Message(Told(f))]
  }

  /** Between frames. */
  predicate Ready(s: State) {
    s.inHeader && s.pos == 0 && !s.complete
  }

  /** The client reads the frames whose length a signed 32-bit integer holds, except a masked empty frame
      in the short form: its key would be taken for the next header. */
  predicate Supported(f: Frame) {
    |f.payload| < 0x8000_0000 && !(f.masked && f.payload == [] && f.form.Short?)
  }

  /** After its header, a frame is announced correctly and the parser stands where it should. */
  predicate HeaderRead(f: Frame, r: Result) {
    if f.payload == [] then Ready(r.st) && r.events == [Message(Told(f))]
    else !r.st.inHeader && r.st.bpos == 0 && r.st.current == Told(f) && r.events == [Header(Told(f))]
  }

  /** What the header automaton makes of the eight octets of a long length. */
  function LongLength(b: Octets): int
    requires |b| == 8
  {
    ShiftLeft(b[1], 48) + ShiftLeft(b[2], 40) + ShiftLeft(b[3], 32) + ShiftLeft(b[4], 24) + ShiftLeft(b[5], 16)
    + ShiftLeft(b[6], 8) + b[7]
  }

  // A shift by `n` multiplies by the power for `n % 32`.

  lemma Shift0(b: byte, n: nat)
    requires n % 32 == 0
    ensures ShiftLeft(b, n) == b
  {
    assert b as int * Pow2(n % 32) == b;
  }

  lemma Shift8(b: byte, n: nat)
    requires n % 32 == 8
    ensures ShiftLeft(b, n) == b as int * 0x100
  {
    assert b as int * Pow2(n % 32) == b as int * 0x100;
  }

  lemma Shift16(b: byte, n: nat)
    requires n % 32 == 16
    ensures ShiftLeft(b, n) == b as int * 0x1_0000
  {
    assert b as int * Pow2(n % 32) == b as int * 0x1_0000;
  }

  lemma Shift24(b: byte, n: nat)
    requires n % 32 == 24
    ensures ShiftLeft(b, n) == b as int * 0x100_0000 - if b < 128 then 0 else 0x1_0000_0000
  {
    assert b as int * Pow2(n % 32) == b as int * 0x100_0000;
  }

  lemma Shifts(b: byte)
    ensures ShiftLeft(b, 8) == b as int * 0x100 && ShiftLeft(b, 16) == b as int * 0x1_0000
    ensures ShiftLeft(b, 24) == b as int * 0x100_0000 - if b < 128 then 0 else 0x1_0000_0000
    ensures ShiftLeft(b, 32) == b && ShiftLeft(b, 40) == b as int * 0x100 && ShiftLeft(b, 48) == b as int * 0x1_0000
  {
    hide ShiftLeft;
    Shift8(b, 8);
    Shift16(b, 16);
    Shift24(b, 24);
    Shift0(b, 32);
    Shift8(b, 40);
    Shift16(b, 48);
  }

  lemma Low24(n: nat)
    ensures (n / 0x1_0000 % 0x100) * 0x1_0000 + (n / 0x100 % 0x100) * 0x100 + n % 0x100 == n % 0x100_0000
  {
    var q := n / 0x100_0000;
    assert n / 0x1_0000 / 0x100 == q;
    assert n / 0x100 / 0x100 == n / 0x1_0000;
  }

  lemma LongOctets(h: Octets, l: Octets)
    requires |h| == 4 && |l| == 4
    ensures LongLength(h + l)
         == h[1] as int * 0x1_0000 + h[2] as int * 0x100 + h[3]
          + l[0] as int * 0x100_0000 + l[1] as int * 0x1_0000 + l[2] as int * 0x100 + l[3]
          - if l[0] < 128 then 0 else 0x1_0000_0000
  {
    hide ShiftLeft;
    Shifts(h[1]); Shifts(h[2]); Shifts(h[3]); Shifts(l[0]); Shifts(l[1]); Shifts(l[2]);
  }

  /** The first octet is lost, and the fifth counts with a sign. */
  lemma LongLengthIs(hi: nat, lo: nat)
    requires hi < 0x8000_0000 && lo < 0x1_0000_0000
    ensures LongLength(PutU32(hi) + PutU32(lo))
         == hi % 0x100_0000 + lo - if lo < 0x8000_0000 then 0 else 0x1_0000_0000
  {
    hide LongLength, PutU32;
    PutParts(hi);
    PutParts(lo);
    LongOctets(PutU32(hi), PutU32(lo));
    Low24(hi);
    Digits32(lo);
  }

  /** A long length is read correctly exactly when it is below 2^31. */
  lemma LongLengthExact(n: nat)
    requires n < 0x8000_0000_0000_0000
    ensures LongLength(LengthOctets(Long, n)) == n <==> n < 0x8000_0000
  {
    hide LongLength;
    var hi, lo := n / 0x1_0000_0000, n % 0x1_0000_0000;
    SameWord(n, lo);
    LongLengthIs(hi, lo);
  }

  // ------------------------------------------------------------ reading headers, form by form

  /** The first octet of a frame, from any boundary. */
  lemma FirstOctet(s: State, f: Frame)
    requires Ready(s) && WellFormed(f)
    ensures var r := Step(s, EncodeHeader(f)[0]);
      && r.events == []
      && r.st == State(Hybi(f.fin, f.rsv1, f.rsv2, f.rsv3, f.opcode, s.current.mask, s.current.length, NO_KEY),
                       1, s.bpos, false, true, false, false)
  {
    hide LengthOctets;
    var c: byte := EncodeHeader(f)[0];
    Bits(f, c);
    assert Step(s, c) == After(HeaderOctet(s, c));
  }

  lemma Bits(f: Frame, c: byte)
    requires f.fin < 2 && f.rsv1 < 2 && f.rsv2 < 2 && f.rsv3 < 2 && f.opcode < 16
    requires c as int == f.fin * 128 + f.rsv1 * 64 + f.rsv2 * 32 + f.rsv3 * 16 + f.opcode
    ensures c / 128 % 2 == f.fin && c / 64 % 2 == f.rsv1 && c / 32 % 2 == f.rsv2 && c / 16 % 2 == f.rsv3
    ensures c % 16 == f.opcode
  {
    var a, b, d := 2 * f.fin + f.rsv1, 4 * f.fin + 2 * f.rsv1 + f.rsv2, 8 * f.fin + 4 * f.rsv1 + 2 * f.rsv2 + f.rsv3;
    Nibble(c, d, f.opcode);
    Half(d, b, f.rsv3);
    Half(b, a, f.rsv2);
    Half(a, f.fin, f.rsv1);
  }

  lemma Nibble(c: nat, q: nat, low: nat)
    requires c == 16 * q + low && low < 16
    ensures c / 16 == q && c / 32 == q / 2 && c / 64 == q / 2 / 2 && c / 128 == q / 2 / 2 / 2 && c % 16 == low
  {
  }

  lemma Half(q: nat, h: nat, bit: nat)
    requires q == 2 * h + bit && bit < 2
    ensures q / 2 == h && q % 2 == bit
  {
  }

  lemma GoesOn(s: State, c: byte, rest: Octets)
    ensures var r := Step(s, c); var t := Run(r.st, rest);
      Run(s, [c] + rest) == Result(t.st, r.events + t.events)
  {
    assert ([c] + rest)[1..] == rest;
  }

  lemma RunOne(s: State, c: byte)
    ensures Run(s, [c]) == Step(s, c)
  {
    assert |[c][1..]| == 0;
    var r := Step(s, c);
    assert r.events + [] == r.events;
  }

  /** Four octets that are read one after the other, the first three without an event. */
  lemma RunFour(s: State, k: Key, s1: State, s2: State, s3: State)
    requires Step(s, k.k0) == Result(s1, []) && Step(s1, k.k1) == Result(s2, []) && Step(s2, k.k2) == Result(s3, [])
    ensures Run(s, [k.k0, k.k1, k.k2, k.k3]) == Step(s3, k.k3)
  {
    hide Step;
    RunOne(s3, k.k3);
    GoesOn(s2, k.k2, [k.k3]);
    GoesOn(s1, k.k1, [k.k2, k.k3]);
    GoesOn(s, k.k0, [k.k1, k.k2, k.k3]);
    assert [k.k2] + [k.k3] == [k.k2, k.k3] && [k.k1] + [k.k2, k.k3] == [k.k1, k.k2, k.k3];
    assert [k.k0] + [k.k1, k.k2, k.k3] == [k.k0, k.k1, k.k2, k.k3];
  }

  /** The masking key of any form ends the header. */
  lemma KeyRead(s: State, k: Key)
    requires s.inHeader && !s.complete
    requires (s.pos, s.payload16, s.payload64) in {(2, false, false), (4, true, false), (10, false, true)}
    ensures Run(s, [k.k0, k.k1, k.k2, k.k3])
         == After(HeaderDone(s.(pos := s.pos + 3, current := s.current.(key := k))))
  {
    hide HeaderDone;
    var m := s.current;
    var s1 := s.(pos := s.pos + 1, current := m.(key := m.key.(k0 := k.k0)));
    var s2 := s.(pos := s.pos + 2, current := m.(key := m.key.(k0 := k.k0, k1 := k.k1)));
    var s3 := s.(pos := s.pos + 3, current := m.(key := m.key.(k0 := k.k0, k1 := k.k1, k2 := k.k2)));
    RunFour(s, k, s1, s2, s3);
  }

  lemma MediumRead(s: State, b0: byte, b1: byte)
    requires s.inHeader && !s.complete && s.pos == 2 && s.payload16
    ensures var t := s.(current := s.current.(length := b0 as int * 0x100 + b1), pos := 3);
      Run(s, [b0, b1]) == if s.current.mask == 0 then After(HeaderDone(t)) else Result(t.(pos := 4), [])
  {
    hide HeaderDone;
    Shifts(b0);
    RunOne(s.(current := s.current.(length := b0 as int * 0x100), pos := 3), b1);
    GoesOn(s, b0, [b1]);
    assert [b0] + [b1] == [b0, b1];
  }

  lemma LongHigh(s: State, k: Key)
    requires s.inHeader && !s.complete && s.pos == 2 && s.payload64 && !s.payload16
    ensures Run(s, [k.k0, k.k1, k.k2, k.k3])
         == Result(s.(pos := 6, current := s.current.(
                     length := ShiftLeft(k.k1, 48) + ShiftLeft(k.k2, 40) + ShiftLeft(k.k3, 32))), [])
  {
    hide HeaderDone, ShiftLeft;
    var m, l := s.current, ShiftLeft(k.k1, 48);
    RunFour(s, k, s.(pos := 3), s.(pos := 4, current := m.(length := l)),
            s.(pos := 5, current := m.(length := l + ShiftLeft(k.k2, 40))));
  }

  lemma LongLow(s: State, k: Key)
    requires s.inHeader && !s.complete && s.pos == 6 && s.payload64 && !s.payload16
    ensures var t := s.(pos := 9, current := s.current.(
                          length := s.current.length + ShiftLeft(k.k0, 24) + ShiftLeft(k.k1, 16)
                                    + ShiftLeft(k.k2, 8) + k.k3));
      Run(s, [k.k0, k.k1, k.k2, k.k3])
        == if s.current.mask == 0 then After(HeaderDone(t)) else Result(t.(pos := 10), [])
  {
    hide HeaderDone, ShiftLeft;
    var m, l := s.current, s.current.length + ShiftLeft(k.k0, 24);
    RunFour(s, k, s.(pos := 7, current := m.(length := l)),
            s.(pos := 8, current := m.(length := l + ShiftLeft(k.k1, 16))),
            s.(pos := 9, current := m.(length := l + ShiftLeft(k.k1, 16) + ShiftLeft(k.k2, 8))));
  }

  lemma LongRead(s: State, b: Octets)
    requires |b| == 8 && s.inHeader && !s.complete && s.pos == 2 && s.payload64 && !s.payload16
    ensures var t := s.(current := s.current.(length := LongLength(b)), pos := 9);
      Run(s, b) == if s.current.mask == 0 then After(HeaderDone(t)) else Result(t.(pos := 10), [])
  {
    hide HeaderDone, ShiftLeft, Run, After;
    LongHigh(s, Key(b[0], b[1], b[2], b[3]));
    var t := Run(s, [b[0], b[1], b[2], b[3]]).st;
    LongLow(t, Key(b[4], b[5], b[6], b[7]));
    RunAppend(s, [b[0], b[1], b[2], b[3]], [b[4], b[5], b[6], b[7]]);
    assert [b[0], b[1], b[2], b[3]] + [b[4], b[5], b[6], b[7]] == b;
    var e := Run(t, [b[4], b[5], b[6], b[7]]).events;
    assert [] + e == e;
  }

  /** The length the header automaton arrives at. */
  function Parsed(f: Frame): int
    requires WellFormed(f)
  {
    if f.form.Long? then LongLength(LengthOctets(Long, |f.payload|)) else |f.payload|
  }

  predicate EmptyMaskedShort(f: Frame) {
    f.masked && f.payload == [] && f.form.Short?
  }

  /** The first two octets. */
  lemma SecondOctet(s: State, f: Frame) returns (t: State)
    requires Ready(s) && WellFormed(f)
    ensures t.inHeader && !t.complete && t.pos == 1
    ensures t.current == Told(f).(key := NO_KEY, length := EncodeHeader(f)[1] % 128)
    ensures Run(s, EncodeHeader(f)[..2]) ==
      if f.form.Medium? then Result(t.(pos := 2, payload16 := true), [])
      else if f.form.Long? then Result(t.(pos := 2, payload64 := true), [])
      else if f.payload == [] || !f.masked then After(HeaderDone(t))
      else Result(t.(pos := 2), [])
    ensures !t.payload16 && !t.payload64
  {
    hide HeaderDone, LengthOctets;
    var h := EncodeHeader(f);
    FirstOctet(s, f);
    var s1 := Step(s, h[0]).st;
    RunOne(s1, h[1]);
    GoesOn(s, h[0], [h[1]]);
    assert [h[0]] + [h[1]] == h[..2];
    t := s1.(current := Told(f).(key := NO_KEY, length := h[1] % 128));
    SecondStep(s1, f, t);
    assert [] + Step(s1, h[1]).events == Step(s1, h[1]).events;
  }

  lemma SecondStep(s: State, f: Frame, t: State)
    requires WellFormed(f) && s.inHeader && !s.complete && s.pos == 1
    requires s.current.(mask := 0, length := 0)
          == Hybi(f.fin, f.rsv1, f.rsv2, f.rsv3, f.opcode, 0, 0, NO_KEY)
    requires t == s.(current := Told(f).(key := NO_KEY, length := EncodeHeader(f)[1] % 128))
    ensures Step(s, EncodeHeader(f)[1]) ==
      if f.form.Medium? then Result(t.(pos := 2, payload16 := true), [])
      else if f.form.Long? then Result(t.(pos := 2, payload64 := true), [])
      else if f.payload == [] || !f.masked then After(HeaderDone(t))
      else Result(t.(pos := 2), [])
  {
  }

  function KeyOctets(f: Frame): Octets {
    if f.masked then [f.key.k0, f.key.k1, f.key.k2, f.key.k3] else []
  }

  /** The rest of a header once its length is known: the key, if there is one. */
  lemma KeyRest(v: State, f: Frame, data: Octets, t: State) returns (u: State)
    requires v.inHeader && !v.complete && t.inHeader && !t.complete
    requires t.current == Told(f).(key := NO_KEY, length := t.current.length)
    requires Run(v, data) == if f.masked then Result(t, []) else After(HeaderDone(t))
    requires f.masked ==>
      (t.pos, t.payload16, t.payload64) in {(2, false, false), (4, true, false), (10, false, true)}
    ensures u.inHeader && !u.complete && u.current == Told(f).(length := t.current.length)
    ensures Run(v, data + KeyOctets(f)) == After(HeaderDone(u))
  {
    hide HeaderDone, After;
    if f.masked {
      KeyRead(t, f.key);
      RunAppend(v, data, KeyOctets(f));
      u := t.(pos := t.pos + 3, current := t.current.(key := f.key));
      var e := Run(t, KeyOctets(f)).events;
      assert [] + e == e;
    } else {
      u := t;
      assert data + KeyOctets(f) == data;
    }
  }

  lemma MediumRest(f: Frame, v: State) returns (t: State)
    requires WellFormed(f) && f.form.Medium?
    requires v.inHeader && !v.complete && v.pos == 2 && v.payload16 && !v.payload64
    requires v.current == Told(f).(key := NO_KEY, length := 126)
    ensures t.inHeader && !t.complete && t.current == Told(f).(key := NO_KEY)
    ensures Run(v, LengthOctets(Medium, |f.payload|)) == if f.masked then Result(t, []) else After(HeaderDone(t))
    ensures f.masked ==> (t.pos, t.payload16, t.payload64) == (4, true, false)
  {
    hide HeaderDone, After;
    var n := |f.payload|;
    var b := PutU16(n);
    assert b[0] as int * 0x100 + b[1] == n;
    assert b == [b[0], b[1]];
    MediumRead(v, b[0], b[1]);
    t := v.(current := v.current.(length := n), pos := if f.masked then 4 else 3);
  }

  lemma LongRest(f: Frame, v: State) returns (t: State)
    requires WellFormed(f) && f.form.Long?
    requires v.inHeader && !v.complete && v.pos == 2 && !v.payload16 && v.payload64
    requires v.current == Told(f).(key := NO_KEY, length := 127)
    ensures t.inHeader && !t.complete && t.current == Told(f).(key := NO_KEY, length := Parsed(f))
    ensures Run(v, LengthOctets(Long, |f.payload|)) == if f.masked then Result(t, []) else After(HeaderDone(t))
    ensures f.masked ==> (t.pos, t.payload16, t.payload64) == (10, false, true)
  {
    hide HeaderDone, After, LongLength, LengthOctets;
    var b := LengthOctets(Long, |f.payload|);
    EightOctets(|f.payload|);
    LongRead(v, b);
    t := v.(current := v.current.(length := LongLength(b)), pos := if f.masked then 10 else 9);
  }

  lemma EightOctets(n: nat)
    requires n < 0x8000_0000_0000_0000
    ensures |LengthOctets(Long, n)| == 8
  {
  }

  lemma HeaderParts(f: Frame)
    requires WellFormed(f)
    ensures var h := EncodeHeader(f);
      && 2 <= |h| && h == h[..2] + (LengthOctets(f.form, |f.payload|) + KeyOctets(f))
      && h[1] % 128 == match f.form case Short => |f.payload| case Medium => 126 case Long => 127
    ensures f.form.Short? ==> LengthOctets(f.form, |f.payload|) == []
  {
    hide PutU16, PutU32;
    var n := match f.form case Short => |f.payload| case Medium => 126 case Long => 127;
    var front: Octets := [f.fin * 128 + f.rsv1 * 64 + f.rsv2 * 32 + f.rsv3 * 16 + f.opcode,
                          (if f.masked then 128 else 0) + n];
    ThreeParts(front, LengthOctets(f.form, |f.payload|), KeyOctets(f));
  }

  lemma ThreeParts(front: Octets, middle: Octets, end: Octets)
    ensures var s := front + middle + end; s == s[..|front|] + (middle + end) && s[..|front|] == front
  {
  }

  /** Every header but that of a masked empty short frame ends in `HeaderDone` with the parsed length. */
  lemma HeaderRun(s: State, f: Frame) returns (u: State)
    requires Ready(s) && WellFormed(f) && !EmptyMaskedShort(f)
    ensures u.inHeader && !u.complete && u.current == Told(f).(length := Parsed(f))
    ensures Run(s, EncodeHeader(f)) == After(HeaderDone(u))
  {
    hide HeaderDone, LongLength, After, EncodeHeader, LengthOctets;
    var h := EncodeHeader(f);
    var t := SecondOctet(s, f);
    var ext, key := LengthOctets(f.form, |f.payload|), KeyOctets(f);
    HeaderParts(f);
    var v := Run(s, h[..2]).st;
    RunAppend(s, h[..2], ext + key);
    if f.form.Short? {
      if f.masked {
        assert Run(v, []) == Result(v, []);
        u := KeyRest(v, f, [], v);
        assert [] + key == ext + key;
      } else {
        u := t;
        assert ext + key == [];
        var r := Run(s, h[..2]);
        assert r.events + [] == r.events;
      }
    } else {
      var w;
      if f.form.Medium? { w := MediumRest(f, v); } else { w := LongRest(f, v); }
      u := KeyRest(v, f, ext, w);
      var e := Run(v, ext + key).events;
      assert [] + e == e;
    }
  }

  /** A header is read correctly, from any boundary, exactly when the frame is supported. */
  lemma HeaderExact(s: State, f: Frame)
    requires Ready(s) && WellFormed(f)
    ensures HeaderRead(f, Run(s, EncodeHeader(f))) <==> Supported(f)
  {
    hide Run, LongLength, EncodeHeader;
    if EmptyMaskedShort(f) {
      KeyTakenForHeader(s, f);
    } else {
      if f.form.Long? { LongLengthExact(|f.payload|); }
      var u := HeaderRun(s, f);
    }
  }

  /** The key of a masked empty short frame is read as two header octets, twice or not at all. */
  lemma KeyTakenForHeader(s: State, f: Frame)
    requires Ready(s) && WellFormed(f) && EmptyMaskedShort(f)
    ensures var e := Run(s, EncodeHeader(f)).events;
      e != [] && e[0] == Message(Told(f).(key := NO_KEY)) && (f.key == NO_KEY ==> 2 <= |e|)
  {
    var h := EncodeHeader(f);
    var t := SecondOctet(s, f);
    var key := KeyOctets(f);
    HeaderParts(f);
    assert h == h[..2] + ([] + key);
    var v := Run(s, h[..2]).st;
    RunAppend(s, h[..2], key);
    assert [] + key == key;
    var e := Run(v, key).events;
    assert Run(s, h).events == [Message(Told(f).(key := NO_KEY))] + e;
    if f.key == NO_KEY { ZeroKey(v); }
  }

  lemma ZeroKey(v: State)
    requires Ready(v)
    ensures Run(v, [0, 0, 0, 0]).events != []
  {
    RunOne(v, 0);
    GoesOn(v, 0, [0, 0, 0]);
    assert [0] + [0, 0, 0] == [0, 0, 0, 0];
    GoesOn(Step(v, 0).st, 0, [0, 0]);
    assert [0] + [0, 0] == [0, 0, 0];
    assert Step(Step(v, 0).st, 0).events != [];
  }

  // ------------------------------------------------------------ bodies and streams

  /** In body mode there is something left to read. */
  predicate Healthy(s: State) {
    !s.inHeader ==> 0 <= s.bpos < s.current.length
  }

  /** At most the rest of a body, in one piece. */
  lemma {:induction false} BodyRun(s: State, data: Octets)
    requires !s.inHeader && Healthy(s) && s.bpos + |data| <= s.current.length
    ensures Run(s, data) ==
      var t := s.(bpos := s.bpos + |data|);
      if t.bpos < s.current.length then Result(t, OctetEvents(data))
      else Result(MessageDone(t).st.(inHeader := true), OctetEvents(data) + [Message(s.current)])
    decreases |data|
  {
    hide HeaderOctet, After;
    if data != [] {
      var r := Step(s, data[0]);
      if s.bpos + 1 < s.current.length {
        BodyRun(r.st, data[1..]);
        assert [Octet(data[0])] + (OctetEvents(data[1..]) + [Message(s.current)])
            == OctetEvents(data) + [Message(s.current)];
      } else {
        assert |data[1..]| == 0;
        assert OctetEvents(data) == [Octet(data[0])] + [];
        assert r.events + [] == r.events;
      }
    }
  }

  /** Between frames, whether or not a message has just ended. */
  predicate AtBoundary(s: State) {
    s.inHeader && s.pos == 0
  }

  /** The flag that a message leaves behind is cleared by the next octet. */
  lemma FlagForgotten(s: State, data: Octets)
    requires AtBoundary(s)
    ensures Run(s, data).events == Run(s.(complete := false), data).events
    ensures data != [] ==> Run(s, data).st == Run(s.(complete := false), data).st
  {
    hide Run;
    if data == [] { NoOctets(s); NoOctets(s.(complete := false)); }
    else {
      assert Step(s, data[0]) == Step(s.(complete := false), data[0]);
      assert data == [data[0]] + data[1..];
      GoesOn(s, data[0], data[1..]);
      GoesOn(s.(complete := false), data[0], data[1..]);
    }
  }

  lemma NoOctets(s: State)
    ensures Run(s, []) == Result(s, [])
  {
  }

  /** The header of an unsupported frame already produces an event that should not come. */
  lemma HeaderWrong(s: State, f: Frame)
    requires Ready(s) && WellFormed(f) && !Supported(f)
    ensures var e := Run(s, EncodeHeader(f)).events;
      exists i :: 0 <= i < |e| && (i < |Expected(f)| ==> e[i] != Expected(f)[i])
  {
    hide Run, EncodeHeader, LongLength;
    var e := Run(s, EncodeHeader(f)).events;
    if EmptyMaskedShort(f) {
      KeyTakenForHeader(s, f);
      if f.key == NO_KEY {
        assert 1 < |e| && |Expected(f)| == 1;
        var x := e[1];
      } else {
        assert e[0] != Expected(f)[0];
      }
    } else {
      LongLengthExact(|f.payload|);
      var u := HeaderRun(s, f);
      assert e[0] != Expected(f)[0];
    }
  }

  /** A frame is parsed into what the callbacks should be told, from any boundary to the next one, exactly
      when it is supported. */
  lemma FrameExact(s: State, f: Frame)
    requires AtBoundary(s) && WellFormed(f)
    ensures var r := Run(s, EncodeFrame(f));
      AtBoundary(r.st) && r.events == Expected(f) <==> Supported(f)
  {
    hide Run, Step, EncodeHeader, HeaderOctet;
    var t := s.(complete := false);
    HeaderParts(f);
    FlagForgotten(s, EncodeFrame(f));
    HeaderExact(t, f);
    var h := EncodeHeader(f);
    var r := Run(t, h);
    RunAppend(t, h, f.payload);
    if Supported(f) {
      if f.payload == [] {
        NoOctets(r.st);
        assert r.events + [] == r.events;
      } else {
        BodyRun(r.st, f.payload);
        assert [Header(Told(f))] + (OctetEvents(f.payload) + [Message(Told(f))]) == Expected(f);
      }
    } else {
      HeaderWrong(t, f);
    }
  }

  function Stream(fs: seq<Frame>): Octets
    requires forall i :: 0 <= i < |fs| ==> WellFormed(fs[i])
  {
    if fs == [] then [] else EncodeFrame(fs[0]) + Stream(fs[1..])
  }

  function AllExpected(fs: seq<Frame>): seq<Event> {
    if fs == [] then [] else Expected(fs[0]) + AllExpected(fs[1..])
  }

  /** Every stream of supported frames is reported frame by frame. */
  lemma {:induction false} StreamRead(s: State, fs: seq<Frame>)
    requires AtBoundary(s) && forall i :: 0 <= i < |fs| ==> WellFormed(fs[i]) && Supported(fs[i])
    ensures AtBoundary(Run(s, Stream(fs)).st) && Run(s, Stream(fs)).events == AllExpected(fs)
    decreases |fs|
  {
    hide Run, EncodeFrame, Expected;
    if fs == [] {
      NoOctets(s);
    } else {
      FrameExact(s, fs[0]);
      var r := Run(s, EncodeFrame(fs[0]));
      RunAppend(s, EncodeFrame(fs[0]), Stream(fs[1..]));
      StreamRead(r.st, fs[1..]);
    }
  }

  // ------------------------------------------------------------ the parser object

  datatype Call = OnHeader(h: Hybi) | OnChunk(data: Octets) | OnMessage(m: Hybi)

  /** The calls with the payload spelled octet by octet: where the chunks end does not matter. */
  function Flat(calls: seq<Call>): seq<Event> {
    if calls == [] then []
    else Flat(calls[..|calls| - 1]) + FlatOne(calls[|calls| - 1])
  }

  function FlatOne(call: Call): seq<Event> {
    match call
    case OnHeader(h) => [Header(h)]
    case OnChunk(data) => OctetEvents(data)
    case OnMessage(m) => [Message(m)]
  }

  /** Every state on the way through `data` is healthy: no header claims a negative length. */
  ghost predicate Sound(s: State, data: Octets)
    decreases |data|
  {
    Healthy(s) && (data == [] || Sound(Step(s, data[0]).st, data[1..]))
  }

  class Parser {
    var current: Hybi
    var pos: nat
    var bpos: int
    var complete: bool
    var inHeader: bool
    var payload16: bool
    var payload64: bool
    var calls: seq<Call>

    function Now(): State
      reads this
    {
      State(current, pos, bpos, complete, inHeader, payload16, payload64)
    }

    constructor ()
      ensures Now() == START && calls == []
    {
      current := START.current;
      pos, bpos, complete, inHeader, payload16, payload64 := 0, 0, false, true, false, false;
      calls := [];
    }

    method Callback(call: Call)
      modifies `calls
      ensures Flat(calls) == Flat(old(calls)) + FlatOne(call)
    {
      FlatSnoc(calls, call);
      calls := calls + [call];
    }

    /** The state is that of `r`, and the calls since `told` say its events. */
    ghost predicate Did(r: Result, told: seq<Event>)
      reads this
    {
      Now() == r.st && Flat(calls) == told + r.events
    }

    /** `onMessage` */
    method Complete()
      modifies this
      ensures Did(MessageDone(old(Now())), old(Flat(calls)))
    {
      hide Flat;
      Callback(OnMessage(current));
      pos := 0;
      complete := true;
    }

    /** The header is complete: on to the payload, or, without one, a message. */
    method HeaderComplete()
      modifies this
      ensures Did(HeaderDone(old(Now())), old(Flat(calls)))
    {
      hide Flat;
      if current.length != 0 {
        inHeader := false;
        bpos := 0;
        Callback(OnHeader(current));
      } else {
        Complete();
      }
    }

    /** The first two octets. */
    method SwitchFirst(cbyte: byte)
      requires pos < 2
      modifies this
      ensures Did(HeaderOctet(old(Now()), cbyte), old(Flat(calls)))
    {
      hide Flat, HeaderDone, MessageDone;
      assert Flat(calls) + [] == Flat(calls);
      match pos
      case 0 =>
        payload16 := false;
        payload64 := false;
        complete := false;
        current := current.(fin := cbyte / 128 % 2);
        current := current.(rsv1 := cbyte / 64 % 2);
        current := current.(rsv2 := cbyte / 32 % 2);
        current := current.(rsv3 := cbyte / 16 % 2);
        current := current.(opcode := cbyte % 16);
        current := current.(key := NO_KEY);
      case 1 =>
        current := current.(mask := cbyte / 128 % 2);
        current := current.(length := cbyte % 128);
        if current.length == 126 {
          payload16 := true;
        } else if current.length == 127 {
          payload64 := true;
        } else if current.length == 0 {
          Complete();
        } else if current.mask == 0 {
          NonEmpty(Now());
          inHeader := false;
          bpos := 0;
          Callback(OnHeader(current));
        }
    }

    /** Octets two to five: a length in two octets, the high half of one in eight, or the key. */
    method SwitchSecond(cbyte: byte)
      requires 2 <= pos < 6
      modifies this
      ensures Did(HeaderOctet(old(Now()), cbyte), old(Flat(calls)))
    {
      hide Flat, HeaderDone, ShiftLeft;
      assert Flat(calls) + [] == Flat(calls);
      match pos
      case 2 =>
        if payload16 {
          current := current.(length := ShiftLeft(cbyte, 8));
        } else if !payload64 {
          current := current.(key := current.key.(k0 := cbyte));
        }
      case 3 =>
        if payload16 {
          current := current.(length := current.length + cbyte);
          if current.mask == 0 { HeaderComplete(); }
        } else if payload64 {
          current := current.(length := ShiftLeft(cbyte, 48));
        } else {
          current := current.(key := current.key.(k1 := cbyte));
        }
      case 4 =>
        if payload16 {
          current := current.(key := current.key.(k0 := cbyte));
        } else if payload64 {
          current := current.(length := current.length + ShiftLeft(cbyte, 40));
        } else {
          current := current.(key := current.key.(k2 := cbyte));
        }
      case 5 =>
        if payload16 {
          current := current.(key := current.key.(k1 := cbyte));
        } else if payload64 {
          current := current.(length := current.length + ShiftLeft(cbyte, 32));
        } else {
          current := current.(key := current.key.(k3 := cbyte));
          HeaderComplete();
        }
    }

    /** Octets six to nine: the key behind two octets of length, or the low half of eight. */
    method SwitchThird(cbyte: byte)
      requires 6 <= pos < 10
      modifies this
      ensures Did(HeaderOctet(old(Now()), cbyte), old(Flat(calls)))
    {
      hide Flat, HeaderDone, ShiftLeft;
      assert Flat(calls) + [] == Flat(calls);
      match pos
      case 6 =>
        if payload16 {
          current := current.(key := current.key.(k2 := cbyte));
        } else if payload64 {
          current := current.(length := current.length + ShiftLeft(cbyte, 24));
        }
      case 7 =>
        if payload16 {
          current := current.(key := current.key.(k3 := cbyte));
          HeaderComplete();
        } else if payload64 {
          current := current.(length := current.length + ShiftLeft(cbyte, 16));
        }
      case 8 =>
        if payload64 {
          current := current.(length := current.length + ShiftLeft(cbyte, 8));
        }
      case 9 =>
        if payload64 {
          current := current.(length := current.length + cbyte);
          if current.mask == 0 { HeaderComplete(); }
        }
    }

    /** The rest: the key behind eight octets of length. */
    method SwitchLast(cbyte: byte)
      requires 10 <= pos
      modifies this
      ensures Did(HeaderOctet(old(Now()), cbyte), old(Flat(calls)))
    {
      hide Flat, HeaderDone;
      assert Flat(calls) + [] == Flat(calls);
      match pos
      case 10 =>
        if payload64 { current := current.(key := current.key.(k0 := cbyte)); }
      case 11 =>
        if payload64 { current := current.(key := current.key.(k1 := cbyte)); }
      case 12 =>
        if payload64 { current := current.(key := current.key.(k2 := cbyte)); }
      case 13 =>
        if payload64 {
          current := current.(key := current.key.(k3 := cbyte));
          HeaderComplete();
        }
      case _ =>
    }

    /** One octet of a header: the switch over its position, and the next position. */
    method HeaderStep(cbyte: byte)
      requires inHeader
      modifies this
      ensures Now() == Step(old(Now()), cbyte).st
      ensures Flat(calls) == Flat(old(calls)) + Step(old(Now()), cbyte).events
    {
      hide HeaderOctet, Flat;
      if pos < 2 {
        SwitchFirst(cbyte);
      } else if pos < 6 {
        SwitchSecond(cbyte);
      } else if pos < 10 {
        SwitchThird(cbyte);
      } else {
        SwitchLast(cbyte);
      }
      if !complete { pos := pos + 1; } else { complete := false; }
    }

    /** As much of a body as there is; after its last octet, a message. */
    method BodyStep(buffer: array<byte>, start: nat, end: nat) returns (next: nat)
      requires start < end <= buffer.Length && !inHeader && Healthy(Now())
      modifies this
      ensures start < next <= end
      ensures Now() == Run(old(Now()), buffer[start..next]).st
      ensures Flat(calls) == Flat(old(calls)) + Run(old(Now()), buffer[start..next]).events
    {
      hide Flat, Run, OctetEvents;
      ghost var s, e := Now(), Flat(calls);
      var toread := current.length - bpos;
      if toread == 0 {
        assert false;
      } else if toread <= end - start {
        var chunk := buffer[start..start + toread];
        BodyRun(s, chunk);
        Callback(OnChunk(chunk));
        next := start + toread;
        bpos := bpos + toread;
        Callback(OnMessage(current));
        assert e + OctetEvents(chunk) + [Message(current)] == e + (OctetEvents(chunk) + [Message(current)]);
        pos := 0;
        complete := true;
        inHeader := true;
      } else {
        toread := end - start;
        var chunk := buffer[start..start + toread];
        BodyRun(s, chunk);
        Callback(OnChunk(chunk));
        next := start + toread;
        bpos := bpos + toread;
      }
    }

    /** `execute`: what the calls say, and where the parser ends, depend on the octets alone. */
    method Execute(buffer: array<byte>, start: nat, end: nat)
      requires start <= end <= buffer.Length && Sound(Now(), buffer[start..end])
      modifies this
      ensures Now() == Run(old(Now()), buffer[start..end]).st
      ensures Flat(calls) == Flat(old(calls)) + Run(old(Now()), buffer[start..end]).events
    {
      hide Step, Run, Flat, Sound, Healthy;
      var i: nat := start;
      ghost var data, s0, e0 := buffer[start..end], Now(), Flat(calls);
      NoOctets(s0);
      assert data[0..] == data && data[..0] == [];
      while i < end
        invariant start <= i <= end
        invariant Now() == Run(s0, data[..i - start]).st
        invariant Flat(calls) == e0 + Run(s0, data[..i - start]).events
        invariant Sound(Now(), data[i - start..])
      {
        ghost var was, s, rest := i, Now(), data[i - start..];
        SoundNow(s, rest);
        if inHeader {
          HeaderStep(buffer[i]);
          RunOne(s, buffer[i]);
          i := i + 1;
          assert buffer[was..i] == [buffer[was]];
        } else {
          i := BodyStep(buffer, i, end);
        }
        SoundAfter(s, rest, i - was);
        assert rest[..i - was] == buffer[was..i];
        RunAppend(s0, data[..was - start], rest[..i - was]);
        assert data[..was - start] + rest[..i - was] == data[..i - start];
        assert rest[i - was..] == data[i - start..];
      }
      assert data[..i - start] == data;
    }
  }

  lemma NonEmpty(s: State)
    requires s.current.length != 0
    ensures HeaderDone(s) == Result(s.(inHeader := false, bpos := 0), [Header(s.current)])
  {
  }

  lemma FlatSnoc(calls: seq<Call>, call: Call)
    ensures Flat(calls + [call]) == Flat(calls) + FlatOne(call)
  {
    assert (calls + [call])[..|calls|] == calls;
  }

  lemma SoundNow(s: State, data: Octets)
    requires Sound(s, data)
    ensures Healthy(s)
  {
  }

  lemma {:induction false} SoundAfter(s: State, data: Octets, n: nat)
    requires Sound(s, data) && n <= |data|
    ensures Sound(Run(s, data[..n]).st, data[n..])
    decreases n
  {
    hide Step;
    if n == 0 {
      assert data[..0] == [] && data[0..] == data;
    } else {
      SoundAfter(Step(s, data[0]).st, data[1..], n - 1);
      assert data[..n] == [data[0]] + data[1..][..n - 1] && data[1..][n - 1..] == data[n..];
      GoesOn(s, data[0], data[1..][..n - 1]);
    }
  }

  /** The way through `data` is sound exactly when no header on it claims a negative length. */
  lemma {:induction false} SoundExact(s: State, data: Octets)
    requires Healthy(s)
    ensures Sound(s, data) <==> NoNegative(Run(s, data).events)
    decreases |data|
  {
    hide Step, Healthy;
    if data != [] {
      var r := Step(s, data[0]);
      StepHealth(s, data[0]);
      var t := Run(r.st, data[1..]).events;
      Negatives(r.events, t);
      if Healthy(r.st) { SoundExact(r.st, data[1..]); } else { Unsound(r.st, data[1..]); }
    }
  }

  ghost predicate NoNegative(events: seq<Event>) {
    forall i :: 0 <= i < |events| && events[i].Header? ==> 0 <= events[i].h.length
  }

  lemma Negatives(a: seq<Event>, b: seq<Event>)
    ensures NoNegative(a + b) <==> NoNegative(a) && NoNegative(b)
  {
    if NoNegative(a + b) {
      assert forall i :: 0 <= i < |a| ==> a[i] == (a + b)[i];
      assert forall i :: 0 <= i < |b| ==> b[i] == (a + b)[|a| + i];
    }
  }

  lemma Unsound(s: State, data: Octets)
    requires !Healthy(s)
    ensures !Sound(s, data)
  {
  }

  lemma StepHealth(s: State, c: byte)
    requires Healthy(s)
    ensures Healthy(Step(s, c).st) <==> NoNegative(Step(s, c).events)
  {
    hide HeaderOctet;
    if s.inHeader {
      var r := Step(s, c);
      HeaderHealth(s, c);
      if r.st.inHeader {
        assert forall i :: 0 <= i < |r.events| ==> !r.events[i].Header?;
      } else {
        assert r.events[0] == Header(r.st.current);
      }
    } else {
      var e := Step(s, c).events;
      assert forall i :: 0 <= i < |e| ==> !e[i].Header?;
    }
  }

  lemma HeaderHealth(s: State, c: byte)
    requires s.inHeader
    ensures var r := HeaderOctet(s, c);
      && (r.st.inHeader ==> r.events == [] || r.events == [Message(r.st.current)])
      && (!r.st.inHeader ==> r.st.bpos == 0 && r.st.current.length != 0 && r.events == [Header(r.st.current)])
  {
  }

  lemma {:induction false} SoundPrefix(s: State, a: Octets, b: Octets)
    requires Sound(s, a + b)
    ensures Sound(s, a)
    decreases |a|
  {
    hide Step;
    if a != [] {
      assert (a + b)[0] == a[0] && (a + b)[1..] == a[1..] + b;
      SoundPrefix(Step(s, a[0]).st, a[1..], b);
    }
  }

  lemma {:induction false} ExpectedLengths(fs: seq<Frame>)
    ensures NoNegative(AllExpected(fs))
  {
    if fs != [] {
      OctetsOnly(fs[0].payload);
      ExpectedLengths(fs[1..]);
      Negatives(Expected(fs[0]), AllExpected(fs[1..]));
    }
  }

  lemma {:induction false} OctetsOnly(data: Octets)
    ensures |OctetEvents(data)| == |data| && forall i :: 0 <= i < |data| ==> OctetEvents(data)[i] == Octet(data[i])
  {
    if data != [] { OctetsOnly(data[1..]); }
  }

  /** Any stream of supported frames, in any pieces: the callbacks are told of each frame, its payload octet
      by octet and its end, and nothing else. */
  method ParsePieces(pieces: seq<Octets>, ghost fs: seq<Frame>) returns (parser: Parser)
    requires forall i :: 0 <= i < |fs| ==> WellFormed(fs[i]) && Supported(fs[i])
    requires Concat(pieces) == Stream(fs)
    ensures Flat(parser.calls) == AllExpected(fs)
  {
    hide Run, Step, Sound, Stream, AllExpected, Healthy, Flat, WellFormed;
    parser := new Parser();
    ghost var stream, taken := Stream(fs), [];
    AtStart(fs);
    ghost var rest := stream;
    assert [] + rest == stream;
    assert pieces[0..] == pieces;
    for i := 0 to |pieces|
      invariant fresh(parser)
      invariant taken + rest == stream && rest == Concat(pieces[i..]) && Sound(parser.Now(), rest)
      invariant parser.Now() == Run(START, taken).st && Flat(parser.calls) == Run(START, taken).events
    {
      var piece := pieces[i];
      var n := |piece|;
      var buffer := new byte[n](k requires 0 <= k < n => piece[k]);
      assert buffer[0..n] == piece;
      ghost var more, s := Concat(pieces[i + 1..]), parser.Now();
      assert pieces[i..][1..] == pieces[i + 1..] && pieces[i..][0] == piece;
      assert rest == piece + more;
      SoundPrefix(s, piece, more);
      parser.Execute(buffer, 0, n);
      SoundAfter(s, rest, n);
      assert rest[..n] == piece && rest[n..] == more;
      RunAppend(START, taken, piece);
      assert (taken + piece) + more == stream;
      taken, rest := taken + piece, more;
    }
    assert |pieces[|pieces|..]| == 0;
    assert taken == stream;
  }

  lemma AtStart(fs: seq<Frame>)
    requires forall i :: 0 <= i < |fs| ==> WellFormed(fs[i]) && Supported(fs[i])
    ensures Sound(START, Stream(fs)) && Run(START, Stream(fs)).events == AllExpected(fs)
    ensures Run(START, []) == Result(START, []) && Flat([]) == []
  {
    StreamRead(START, fs);
    ExpectedLengths(fs);
    SoundExact(START, Stream(fs));
  }

  // ------------------------------------------------------------ the writer

  /** The header `createBinaryMessage` writes for `n` octets; each element keeps its low eight bits, and the
      shifts of the long form work modulo 2^32. */
  function WrittenHeader(n: nat): Octets {
    if n > 65536 then [0x81, 127] + PutU32(0) + PutU32(n)
    else if n > 125 then [0x81, 126, n / 256 % 256, n % 256]
    else [0x81, n]
  }

  function Written(payload: Octets): Octets {
    WrittenHeader(|payload|) + payload
  }

  /** The `k` low-order octets of `n`, high-order octet first. */
  function Low(n: nat, k: nat): (s: Octets)
    ensures |s| == k
  {
    if k == 0 then [] else Low(n / 256, k - 1) + [n % 256]
  }

  lemma LowOne(n: nat, k: nat)
    requires 0 < k
    ensures Low(n, k) == Low(n / 256, k - 1) + [n % 256]
  {
  }

  lemma Quotients(m: nat)
    ensures m / 256 / 256 == m / 0x1_0000 && m / 0x1_0000 / 256 == m / 0x100_0000
  {
  }

  lemma LowFour(m: nat)
    requires m < 0x1_0000_0000
    ensures Low(m, 4) == PutU32(m)
  {
    hide Low, PutU32;
    Quotients(m);
    LowOne(m, 4);
    LowOne(m / 0x100, 3);
    LowOne(m / 0x1_0000, 2);
    LowOne(m / 0x100_0000, 1);
    PutParts(m);
  }

  function Pow256(k: nat): nat {
    if k == 0 then 1 else 256 * Pow256(k - 1)
  }

  lemma {:induction false} LowZeros(m: nat, k: nat)
    requires m < Pow256(k)
    ensures Low(m, 4 + k) == [0, 0, 0, 0] + Low(m, k)
    decreases k
  {
    hide Low;
    if k == 0 {
      LowFour(0);
      PutParts(0);
    } else {
      LowZeros(m / 256, k - 1);
      LowOne(m, 4 + k);
      LowOne(m, k);
    }
  }

  lemma LowOctet(n: nat)
    ensures n % 0x1_0000_0000 % 256 == n % 256
  {
    var q, m := n / 0x1_0000_0000, n % 0x1_0000_0000;
    assert n == 256 * (0x100_0000 * q) + m;
  }

  lemma LowEight(m: nat)
    requires m < 0x1_0000_0000
    ensures Low(m / 256, 7) + [m % 256] == [0, 0, 0, 0] + Low(m, 4)
  {
    hide Low;
    LowOne(m, 8);
    assert Pow256(4) == 0x1_0000_0000 by { assert Pow256(2) == 0x1_0000; }
    LowZeros(m, 4);
  }

  lemma LowIsPut(n: nat)
    ensures Low(n % 0x1_0000_0000 / 256, 7) + [n % 256] == PutU32(0) + PutU32(n)
  {
    hide Low, PutU32;
    var m := n % 0x1_0000_0000;
    LowOctet(n);
    SameWord(m, n);
    PutParts(0);
    LowEight(m);
    LowFour(m);
  }

  /** The long form's loop: fills the eight length octets from the last to the first. */
  method WriteLong(buf: array<byte>, len: nat)
    requires 10 <= buf.Length
    modifies buf
    ensures forall j :: 0 <= j < 8 ==> buf[2 + j] == (PutU32(0) + PutU32(len))[j]
    ensures forall j :: 0 <= j < buf.Length && !(2 <= j < 10) ==> buf[j] == old(buf[j])
  {
    hide PutU32, Low;
    LowIsPut(len);
    ghost var whole := PutU32(0) + PutU32(len);
    assert whole[..7] == Low(len % 0x1_0000_0000 / 256, 7) && whole[7] == len % 256;
    var l := len;
    for i := 1 to 9
      invariant if i == 1 then l == len else l < 0x1_0000_0000 && whole[..9 - i] == Low(l, 9 - i)
      invariant forall j :: 9 - i <= j < 8 ==> buf[2 + j] == whole[j]
      invariant forall j :: 0 <= j < buf.Length && !(2 <= j < 10) ==> buf[j] == old(buf[j])
    {
      if i != 1 { LowStep(whole, l, 9 - i); }
      buf[10 - i] := l % 256;
      l := l % 0x1_0000_0000 / 256;
    }
  }

  lemma LowStep(s: Octets, n: nat, k: nat)
    requires 0 < k <= |s| && s[..k] == Low(n, k)
    ensures s[k - 1] == n % 256 && s[..k - 1] == Low(n / 256, k - 1)
  {
    assert s[k - 1] == s[..k][k - 1] && s[..k - 1] == s[..k][..k - 1];
  }

  method WriteHeader(buf: array<byte>, len: nat, secondByte: nat)
    requires |WrittenHeader(len)| <= buf.Length
    requires secondByte == if len > 65536 then 127 else if len > 125 then 126 else len
    modifies buf
    ensures forall j :: 0 <= j < |WrittenHeader(len)| ==> buf[j] == WrittenHeader(len)[j]
  {
    hide PutU32;
    buf[0] := 0x81;
    buf[1] := secondByte;
    if secondByte == 126 {
      buf[2] := len / 256 % 256;
      buf[3] := len % 256;
    } else if secondByte == 127 {
      assert WrittenHeader(len) == [0x81, 127] + (PutU32(0) + PutU32(len));
      WriteLong(buf, len);
    }
  }

  /** `createBinaryMessage` */
  method CreateBinaryMessage(ab: array<byte>, len: nat, off: nat) returns (buf: array<byte>)
    requires off + len <= ab.Length
    ensures buf[..] == Written(ab[off..off + len])
  {
    hide PutU32;
    var startOffset, secondByte: nat := 2, len;
    if len > 65536 {
      startOffset, secondByte := 10, 127;
    } else if len > 125 {
      startOffset, secondByte := 4, 126;
    }
    buf := new byte[startOffset + len](_ => 0);
    WriteHeader(buf, len, secondByte);
    ghost var header := WrittenHeader(len);
    forall j | 0 <= j < len { buf[startOffset + j] := ab[off + j]; }
    assert forall j :: 0 <= j < startOffset ==> buf[j] == header[j];
    assert buf[..] == header + ab[off..off + len];
  }

  /** `createMessage`: the length is that of the string in code units, and what of its octets has room behind the
      header is written. */
  method CreateMessage(str: Octets) returns (buf: array<byte>)
    ensures buf[..] == WrittenHeader(JsLength(str)) + str[..JsLength(str)]
  {
    hide PutU32, JsLength;
    var len := JsLength(str);
    var startOffset, secondByte: nat := 2, len;
    if len > 65536 {
      startOffset, secondByte := 10, 127;
    } else if len > 125 {
      startOffset, secondByte := 4, 126;
    }
    buf := new byte[startOffset + len](_ => 0);
    WriteHeader(buf, len, secondByte);
    ghost var header := WrittenHeader(len);
    forall j | 0 <= j < len { buf[startOffset + j] := str[j]; }
    assert forall j :: 0 <= j < startOffset ==> buf[j] == header[j];
    assert buf[..] == header + str[..len];
  }

  /** A string goes out like its octets exactly if it is ASCII. */
  lemma StringExact(str: Octets)
    requires Utf8(str)
    ensures WrittenHeader(JsLength(str)) + str[..JsLength(str)] == Written(str) <==> Ascii(str)
  {
    hide Utf8, JsLength, Ascii, PutU32;
    LengthAgrees(str);
    if JsLength(str) == |str| {
      assert str[..|str|] == str;
    } else {
      assert |WrittenHeader(JsLength(str))| <= |WrittenHeader(|str|)|;
    }
  }

  /** The frame that should carry a payload, in the shortest form. */
  function Plain(payload: Octets): Frame {
    Frame(1, 0, 0, 0, 1, false, NO_KEY,
          if |payload| < 126 then Short else if |payload| < 0x1_0000 then Medium else Long, payload)
  }

  /** What is written is the frame of RFC 6455 exactly when the length is not 65536 and fits 32 bits. */
  lemma WriterExact(payload: Octets)
    requires |payload| < 0x8000_0000_0000_0000
    ensures Written(payload) == EncodeFrame(Plain(payload)) <==> |payload| != 65536 && |payload| < 0x1_0000_0000
  {
    var n, f := |payload|, Plain(payload);
    var h, w := EncodeHeader(f), WrittenHeader(n);
    if n < 65536 {
      assert h == w;
    } else if n == 65536 {
      assert Written(payload)[1] == 126 && EncodeFrame(f)[1] == 127;
    } else {
      assert h == [0x81, 127] + PutU32(n / 0x1_0000_0000) + PutU32(n) + [];
      if n < 0x1_0000_0000 {
        assert h == w;
      } else {
        HighWord(n / 0x1_0000_0000);
        assert Written(payload)[2..6] == PutU32(0);
        assert EncodeFrame(f)[2..6] == PutU32(n / 0x1_0000_0000);
      }
    }
  }

  lemma HighWord(n: nat)
    requires 0 < n < 0x1_0000_0000
    ensures PutU32(n) != PutU32(0)
  {
    hide PutU32;
    Digits32(n);
    PutParts(n);
    PutParts(0);
  }

  // ------------------------------------------------------------ writer and parser together

  /** The payloads the callbacks deliver: the octets up to each message's end. */
  function Delivered(events: seq<Event>, open: Octets): seq<Octets> {
    if events == [] then []
    else match events[0]
      case Header(_) => Delivered(events[1..], open)
      case Octet(b) => Delivered(events[1..], open + [b])
      case Message(_) => [open] + Delivered(events[1..], [])
  }

  lemma {:induction false} DeliveredBody(payload: Octets, m: Hybi, rest: seq<Event>, open: Octets)
    ensures Delivered(OctetEvents(payload) + [Message(m)] + rest, open) == [open + payload] + Delivered(rest, [])
    decreases |payload|
  {
    var e := OctetEvents(payload) + [Message(m)] + rest;
    if payload == [] {
      assert e[1..] == rest && open + payload == open;
    } else {
      assert e[1..] == OctetEvents(payload[1..]) + [Message(m)] + rest;
      DeliveredBody(payload[1..], m, rest, open + [payload[0]]);
      assert open + [payload[0]] + payload[1..] == open + payload;
    }
  }

  lemma DeliveredFrame(f: Frame, rest: seq<Event>)
    ensures Delivered(Expected(f) + rest, []) == [f.payload] + Delivered(rest, [])
  {
    var body := OctetEvents(f.payload) + [Message(Told(f))] + rest;
    DeliveredBody(f.payload, Told(f), rest, []);
    assert [] + f.payload == f.payload;
    if f.payload == [] {
      assert Expected(f) + rest == body;
    } else {
      assert Expected(f) + rest == [Header(Told(f))] + body;
      assert ([Header(Told(f))] + body)[1..] == body;
    }
  }

  function Plains(payloads: seq<Octets>): seq<Frame> {
    if payloads == [] then [] else [Plain(payloads[0])] + Plains(payloads[1..])
  }

  function WrittenAll(payloads: seq<Octets>): Octets {
    if payloads == [] then [] else Written(payloads[0]) + WrittenAll(payloads[1..])
  }

  /** Writer and parser are inverse: the parser delivers exactly the payloads written, in order, when each
      length is below 2^31 and not 65536. */
  lemma {:induction false} WriterThenParser(s: State, payloads: seq<Octets>)
    requires AtBoundary(s)
    requires forall i :: 0 <= i < |payloads| ==> |payloads[i]| < 0x8000_0000 && |payloads[i]| != 65536
    ensures var r := Run(s, WrittenAll(payloads));
      AtBoundary(r.st) && r.events == AllExpected(Plains(payloads)) && Delivered(r.events, []) == payloads
    decreases |payloads|
  {
    hide Run, Written, EncodeFrame, Expected;
    if payloads == [] {
      NoOctets(s);
    } else {
      var p, f := payloads[0], Plain(payloads[0]);
      WriterExact(p);
      FrameExact(s, f);
      var r := Run(s, Written(p));
      RunAppend(s, Written(p), WrittenAll(payloads[1..]));
      WriterThenParser(r.st, payloads[1..]);
      DeliveredFrame(f, AllExpected(Plains(payloads[1..])));
      assert Plains(payloads)[1..] == Plains(payloads[1..]);
    }
  }

  /** A payload of 65536 octets comes back as an empty message first. */
  lemma PayloadOf65536(s: State, payload: Octets)
    requires AtBoundary(s) && |payload| == 65536
    ensures var d := Delivered(Run(s, Written(payload)).events, []); d != [] && d[0] == []
  {
    hide Run, Step;
    var s' := s.(complete := false);
    var empty := Frame(1, 0, 0, 0, 1, false, NO_KEY, Medium, []);
    assert EncodeFrame(empty) == [0x81, 126, 0, 0];
    assert Written(payload) == EncodeFrame(empty) + payload;
    FrameExact(s, empty);
    RunAppend(s, EncodeFrame(empty), payload);
    DeliveredFrame(empty, Run(Run(s, EncodeFrame(empty)).st, payload).events);
  }

  // ------------------------------------------------------------ masking

  /** Section 5.3: octet `i` of the payload against octet `i` modulo 4 of the key. */
  function Masked(data: seq<bv8>, key: seq<bv8>): (s: seq<bv8>)
    requires |key| == 4
    ensures |s| == |data| && forall i :: 0 <= i < |data| ==> s[i] == data[i] ^ key[i % 4]
  {
    seq(|data|, i requires 0 <= i < |data| => data[i] ^ key[i % 4])
  }

  /** `unmask`, in place. */
  method Unmask(bytes: array<bv8>, maskkey: seq<bv8>, off: nat, len: nat)
    requires |maskkey| == 4 && off + len <= bytes.Length
    modifies bytes
    ensures bytes[off..off + len] == Masked(old(bytes[off..off + len]), maskkey)
    ensures forall i :: 0 <= i < len ==> bytes[off + i] == old(bytes[off + i]) ^ maskkey[i % 4]
    ensures bytes[..off] == old(bytes[..off]) && bytes[off + len..] == old(bytes[off + len..])
  {
    var size: nat, pos: nat := len, off;
    while size != 0
      invariant size <= len && pos == off + (len - size)
      invariant forall i :: off <= i < pos ==> bytes[i] == old(bytes[i]) ^ maskkey[(i - off) % 4]
      invariant forall i :: 0 <= i < bytes.Length && !(off <= i < pos) ==> bytes[i] == old(bytes[i])
    {
      size := size - 1;
      bytes[pos] := bytes[pos] ^ maskkey[(pos - off) % 4];
      pos := pos + 1;
    }
  }

  lemma XorTwice(b: bv8, k: bv8)
    ensures b ^ k ^ k == b
  {
  }

  /** Unmasking undoes masking with the same key. */
  lemma MaskedTwice(data: seq<bv8>, key: seq<bv8>)
    requires |key| == 4
    ensures Masked(Masked(data, key), key) == data
  {
    var m := Masked(data, key);
    forall i | 0 <= i < |data| ensures Masked(m, key)[i] == data[i] {
      XorTwice(data[i], key[i % 4]);
    }
  }
}
