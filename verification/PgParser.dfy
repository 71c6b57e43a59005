/** The resumable frame parser of the PostgreSQL client: it reads into one fixed buffer, compacts it in
    place, and keeps the row frames of the running query addressable in it. */
module PgParser {
  import opened Bytes
  import opened PgFrames
  import PgMessages

  /** A parser closer than this to the end of its buffer moves the useful octets to the front. */
  const RESERVE := 1024

  /** What a callback run by `onCommandComplete` can read: `query.rows` and buf[query.start..query.end). */
  datatype Snapshot = Snapshot(rows: nat, window: Octets)

  /** The snapshot of a completed extended query holds its row frames exactly when no read cut them. */
  predicate Reports(s: Snapshot, c: Completion) {
    && s.rows == c.rows
    && (c.running && c.window != [] ==> (s.window == c.window <==> !c.cut))
  }

  /** Every completed query has its snapshot. */
  predicate Reported(snapshots: seq<Snapshot>, done: seq<Completion>) {
    |snapshots| == |done| && forall i :: 0 <= i < |done| ==> Reports(snapshots[i], done[i])
  }

  /** The part of the parser's state that says what it has reported and where the row window lies. */
  datatype View = View(
    nextRow: nat, start: nat, rows: nat, running: bool, messages: seq<byte>, snapshots: seq<Snapshot>)

  /** The state `v` over buffer `data`, at frame boundary `off`, against a client that never runs out of
      buffer.  `drop` counts the octets of the open window that the reset after a boundary read forgot. */
  ghost predicate InStep(v: View, data: Octets, off: nat, c: Client, drop: nat) {
    && off <= |data|
    && v.nextRow == c.nextRow && v.rows == c.rows && v.running == c.running
    && WellFormed(c.log) && v.messages == Notified(c.log)
    && Reported(v.snapshots, c.done)
    && (v.running ==>
          && off as int - v.start as int == |c.window| as int - drop as int
          && (c.cut <==> drop > 0)
          && (drop == 0 ==> v.start <= off && data[v.start..off] == c.window))
  }

  lemma StepReports(v: View, data: Octets, off: nat, c: Client, drop: nat)
    requires InStep(v, data, off, c, drop)
    ensures Reported(v.snapshots, c.done)
  {
  }

  lemma LogStep(c: Client, f: Octets)
    requires WellFormed(c.log) && WellFormedFrame(f)
    ensures WellFormed(c.log + [f])
    ensures Notified(c.log + [f]) == Notified(c.log) + if Notifies(f) then [f[0]] else []
  {
    assert (c.log + [f])[..|c.log|] == c.log;
  }

  lemma NotifiesByLength(f: Octets)
    requires WellFormedFrame(f)
    ensures Notifies(f) <==>
      f[0] !in {DATA_ROW, PARAMETER_STATUS, PARAMETER_DESCRIPTION} && (f[0] == AUTHENTICATION ==> |f| == 13)
  {
  }

  lemma Longer(data: Octets, i: nat, p: nat, q: nat)
    requires i <= p <= q <= |data|
    ensures data[i..q] == data[i..p] + data[p..q]
  {
  }

  /** What the handler of the frame data[p..q) makes of `v`. */
  ghost function Handled(v: View, data: Octets, p: nat, q: nat): View
    requires p < q <= |data|
  {
    var kind := data[p];
    if kind == DATA_ROW then
      v.(nextRow := v.nextRow + 1, start := if v.nextRow == 0 then p else v.start)
    else if kind == BIND_COMPLETE then
      v.(rows := 0, start := q, running := true, messages := v.messages + [BIND_COMPLETE])
    else if kind == COMMAND_COMPLETE then
      v.(rows := v.nextRow, nextRow := 0, running := false, messages := v.messages + [COMMAND_COMPLETE],
         snapshots := v.snapshots + [Snapshot(v.nextRow, if v.start <= p then data[v.start..p] else [])])
    else if kind in {PARAMETER_STATUS, PARAMETER_DESCRIPTION} || (kind == AUTHENTICATION && q - p != 13) then
      v
    else
      v.(messages := v.messages + [kind])
  }

  /** The window that a frame of type `kind` opens has lost nothing. */
  function Forgotten(v: View, kind: byte, drop: nat): nat {
    if kind == BIND_COMPLETE || (kind == DATA_ROW && v.nextRow == 0) then 0 else drop
  }

  /** A frame other than DataRow, BindComplete or CommandComplete leaves the query bookkeeping alone. */
  lemma OtherStep(v: View, data: Octets, p: nat, q: nat, c: Client, drop: nat)
    requires p <= q <= |data| && InStep(v, data, p, c, drop) && WellFormedFrame(data[p..q])
    requires data[p] !in {DATA_ROW, BIND_COMPLETE, COMMAND_COMPLETE}
    ensures InStep(Handled(v, data, p, q), data, q, Deliver(c, data[p..q]), drop)
  {
    hide WellFormedBody, Notified, Notifies, Reports;
    NotifiesByLength(data[p..q]);
    LogStep(c, data[p..q]);
    if v.running && drop == 0 { Longer(data, v.start, p, q); }
  }

  lemma RowStep(v: View, data: Octets, p: nat, q: nat, c: Client, drop: nat)
    requires p <= q <= |data| && InStep(v, data, p, c, drop) && WellFormedFrame(data[p..q]) && data[p] == DATA_ROW
    ensures InStep(Handled(v, data, p, q), data, q, Deliver(c, data[p..q]), if v.nextRow == 0 then 0 else drop)
  {
    hide WellFormedBody, Notified, Reports;
    LogStep(c, data[p..q]);
    if v.running && drop == 0 { Longer(data, v.start, p, q); }
  }

  lemma BindStep(v: View, data: Octets, p: nat, q: nat, c: Client, drop: nat)
    requires p <= q <= |data| && InStep(v, data, p, c, drop)
    requires WellFormedFrame(data[p..q]) && data[p] == BIND_COMPLETE
    ensures InStep(Handled(v, data, p, q), data, q, Deliver(c, data[p..q]), 0)
  {
    hide WellFormedBody, Notified, Reports;
    LogStep(c, data[p..q]);
  }

  /** At CommandComplete the callback finds the row frames in the buffer, if and only if no read cut them. */
  lemma CompleteStep(v: View, data: Octets, p: nat, q: nat, c: Client, drop: nat)
    requires p <= q <= |data| && InStep(v, data, p, c, drop)
    requires WellFormedFrame(data[p..q]) && data[p] == COMMAND_COMPLETE
    ensures InStep(Handled(v, data, p, q), data, q, Deliver(c, data[p..q]), drop)
  {
    hide WellFormedBody, Notified;
    LogStep(c, data[p..q]);
    var s := Snapshot(v.nextRow, if v.start <= p then data[v.start..p] else []);
    var k := Completion(c.nextRow, c.window, c.running, c.cut);
    assert Reports(s, k);
    OneMoreReported(v.snapshots, c.done, s, k);
  }

  lemma OneMoreReported(snapshots: seq<Snapshot>, done: seq<Completion>, s: Snapshot, k: Completion)
    requires Reported(snapshots, done) && Reports(s, k)
    ensures Reported(snapshots + [s], done + [k])
  {
  }

  lemma HandledStep(v: View, data: Octets, p: nat, q: nat, c: Client, drop: nat)
    requires p <= q <= |data| && InStep(v, data, p, c, drop) && WellFormedFrame(data[p..q])
    ensures InStep(Handled(v, data, p, q), data, q, Deliver(c, data[p..q]), Forgotten(v, data[p], drop))
  {
    hide InStep, Handled, Deliver, WellFormedBody;
    if data[p] == DATA_ROW { RowStep(v, data, p, q, c, drop); }
    else if data[p] == BIND_COMPLETE { BindStep(v, data, p, q, c, drop); }
    else if data[p] == COMMAND_COMPLETE { CompleteStep(v, data, p, q, c, drop); }
    else { OtherStep(v, data, p, q, c, drop); }
  }

  /** Moving the octets from the window's start on to the front of the buffer keeps the window readable. */
  lemma CompactStep(v: View, data: Octets, moved: Octets, off: nat, c: Client, drop: nat)
    requires InStep(v, data, off, c, drop)
    requires v.running ==> v.start <= off && off - v.start <= |moved| && moved[..off - v.start] == data[v.start..off]
    ensures v.running ==> InStep(v.(start := 0), moved, off - v.start, c, drop)
    ensures !v.running ==> InStep(v, moved, 0, c, drop)
  {
  }

  /** A read that ends exactly on a frame boundary resets the buffer; an open window is forgotten. */
  lemma ResetStep(v: View, data: Octets, off: nat, c: Client, drop: nat)
    requires InStep(v, data, off, c, drop) && 0 < off
    ensures v.running == c.running
    ensures if v.running then InStep(v, data, 0, c.(cut := true), drop + off) else InStep(v, data, 0, c, drop)
  {
  }

  /** Octets that arrive behind the parse position do not disturb the window. */
  lemma ArrivalStep(v: View, data: Octets, after: Octets, off: nat, c: Client, drop: nat)
    requires InStep(v, data, off, c, drop) && off <= |after| && data[..off] == after[..off]
    ensures InStep(v, after, off, c, drop)
  {
    if v.running && drop == 0 {
      assert data[v.start..off] == data[..off][v.start..] == after[..off][v.start..] == after[v.start..off];
    }
  }

  /** With `t` still to handle, client `c` is on its way from `d` through all of `s`. */
  ghost predicate Underway(c: Client, t: Octets, d: Client, s: Octets) {
    && WellFormed(Frames(t)) && Pending(t) == Pending(s)
    && DeliverAll(c, Frames(t)) == DeliverAll(d, Frames(s))
  }

  lemma TooShort(c: Client, t: Octets, d: Client, s: Octets)
    requires Underway(c, t, d, s) && (|t| < 5 || |t| < GetU32(t[..5], 1) + 1)
    ensures !HasFrame(t) && Pending(s) == t
    ensures Read(d, s) == if t == [] && c.running then c.(cut := true) else c
  {
    hide WellFormed;
  }

  lemma FirstFrame(c: Client, t: Octets, d: Client, s: Octets)
    requires Underway(c, t, d, s) && HasFrame(t)
    ensures var n := FrameSize(t);
      WellFormedFrame(t[..n]) && 5 <= n && Underway(Deliver(c, t[..n]), t[n..], d, s)
  {
    hide WellFormedBody, Deliver;
    var n, fs := FrameSize(t), Frames(t);
    assert fs[0] == t[..n] && fs[1..] == Frames(t[n..]);
    assert WellFormedFrame(fs[0]);
    assert forall i :: 0 <= i < |fs[1..]| ==> fs[1..][i] == fs[i + 1];
  }

  lemma SetOut(c: Client, s: Octets)
    requires WellFormed(Frames(s))
    ensures Underway(c, s, c, s)
  {
  }

  lemma Arrived(before: Octets, after: Octets, from: nat, off: nat, chunk: Octets)
    requires from <= off && off + |chunk| <= |before| == |after|
    requires after[..off] == before[..off] && after[off..off + |chunk|] == chunk
    ensures after[from..off + |chunk|] == before[from..off] + chunk && after[..from] == before[..from]
  {
    assert after[from..off] == after[..off][from..] == before[..off][from..] == before[from..off];
    assert after[..from] == after[..off][..from] == before[..off][..from] == before[..from];
    Longer(after, from, off, off + |chunk|);
  }

  lemma Moved(before: Octets, after: Octets, count: nat, src: nat, off: nat)
    requires |after| == |before| && src <= off <= src + count <= |before|
    requires after[..count] == before[src..src + count]
    ensures after[..off - src] == before[src..off] && after[off - src..count] == before[off..src + count]
  {
    assert after[..off - src] == after[..count][..off - src];
    assert after[off - src..count] == after[..count][off - src..];
  }

  lemma WindowBehind(v: View, data: Octets, off: nat, c: Client, drop: nat)
    requires InStep(v, data, off, c, drop)
    ensures v.running && off < v.start ==> c.cut
  {
  }

  /** `copyFrom` within one buffer, towards its front. */
  method CopyDown(u8: array<byte>, count: nat, src: nat)
    requires src + count <= u8.Length
    modifies u8
    ensures u8[..][..count] == old(u8[..])[src..src + count]
    ensures u8[..][count..] == old(u8[..])[count..]
  {
    for i := 0 to count
      invariant forall j :: 0 <= j < i ==> u8[j] == old(u8[src + j])
      invariant forall j :: i <= j < u8.Length ==> u8[j] == old(u8[j])
    {
      u8[i] := u8[src + i];
    }
  }

  class Parser {
    const buf: array<byte>
    var offset: nat            // buf.offset: where the next read appends
    var parseNext: nat         // where the next parse starts
    var nextRow: nat
    var start: nat             // query.start
    var end: nat               // query.end
    var rows: nat              // query.rows
    var running: bool          // query.running
    var kind: byte             // parser.type
    var len: nat               // parser.len
    var salt: Octets
    var fields: seq<Field>
    var errors: seq<ErrorField>
    var parameters: map<Octets, Octets>
    var params: seq<nat>
    var status: byte
    var pid: nat
    var key: nat
    var messages: seq<byte>        // the types onMessage was called with
    var snapshots: seq<Snapshot>   // what the CommandComplete callbacks could read

    ghost var client: Client       // what a client of an unbounded buffer would hold
    ghost var drop: nat            // octets of the open window lost to line 271

    /** The parser agrees with the unbounded client once every frame before `off` has been handled. */
    ghost predicate Synced(off: int)
      reads this, buf
    {
      0 <= off <= buf.Length && InStep(Looks(), buf[..], off, client, drop)
    }

    ghost function Looks(): View
      reads this
    {
      View(nextRow, start, rows, running, messages, snapshots)
    }

    /** Between reads: the octets of the buffer not yet handled are an unfinished frame. */
    ghost predicate Valid()
      reads this, buf
    {
      && Synced(parseNext)
      && parseNext <= offset <= buf.Length
      && !HasFrame(Unread())
    }

    /** The undelivered suffix of the stream. */
    ghost function Unread(): Octets
      requires parseNext <= offset <= buf.Length
      reads this, buf
    {
      buf[parseNext..offset]
    }

    constructor (buf: array<byte>)
      ensures this.buf == buf && Valid() && client == START && offset == 0 && Unread() == []
      ensures messages == [] && snapshots == []
    {
      this.buf := buf;
      offset, parseNext, nextRow := 0, 0, 0;
      start, end, rows, running := 0, 0, 0, false;
      kind, len := 0, 0;
      salt, fields, errors, parameters, params := [], [], [], map[], [];
      status, pid, key := 0, 0, 0;
      messages, snapshots := [], [];
      client, drop := START, 0;
    }

    // ------------------------------------------------------------ handlers

    /** A well-formed frame of length field `len` lies in the buffer with its body at `off`. */
    ghost predicate FrameAt(kind: byte, len: nat, off: nat)
      reads buf
    {
      && 5 <= off && 4 <= len && off + len - 4 <= buf.Length
      && WellFormedFrame(buf[off - 5..off + len - 4])
      && buf[off - 5] == kind
    }

    ghost function Body(len: nat, off: nat): Octets
      requires 4 <= len && off + len - 4 <= buf.Length
      reads buf
    {
      buf[off..off + len - 4]
    }

    method OnMessage()
      modifies `messages
      ensures messages == old(messages) + [kind]
    {
      messages := messages + [kind];
    }

    method OnDataRow(len: nat, off: nat) returns (next: nat)
      requires FrameAt(DATA_ROW, len, off)
      modifies `start, `nextRow
      ensures next == off + len - 4
      ensures start == if old(nextRow) == 0 then off - 5 else old(start)
      ensures nextRow == old(nextRow) + 1
    {
      if nextRow == 0 { start := off - 5; }
      nextRow := nextRow + 1;
      return off + len - 4;
    }

    method OnCommandComplete(len: nat, off: nat) returns (next: nat)
      requires FrameAt(COMMAND_COMPLETE, len, off)
      modifies `end, `rows, `running, `nextRow, `messages, `snapshots
      ensures next == off + len - 4
      ensures end == off - 5 && rows == old(nextRow) && !running && nextRow == 0
      ensures messages == old(messages) + [kind]
      ensures snapshots == old(snapshots) + [Snapshot(rows, if start <= end then buf[start..end] else [])]
      ensures end < buf.Length && buf[end] == COMMAND_COMPLETE
    {
      end := off - 5;
      rows := nextRow;
      running := false;
      next := off + len - 4;
      nextRow := 0;
      OnMessage();
      snapshots := snapshots + [Snapshot(rows, if start <= end then buf[start..end] else [])];
    }

    method OnCloseComplete(len: nat, off: nat) returns (next: nat)
      requires FrameAt(CLOSE_COMPLETE, len, off)
      modifies `messages
      ensures next == off + len - 4 && messages == old(messages) + [kind]
    {
      OnMessage();
      return off + len - 4;
    }

    method OnRowDescription(len: nat, off: nat) returns (next: nat)
      requires FrameAt(ROW_DESCRIPTION, len, off)
      modifies `fields, `messages
      ensures next == off + len - 4 && messages == old(messages) + [kind]
      ensures 2 <= |Body(len, off)|
      ensures Some((fields, [])) == ReadFields(Body(len, off)[2..], Max0(Signed16(GetU16(Body(len, off), 0))))
      ensures forall fs ::
        PgMessages.ValidFields(fs) && Body(len, off) == PgMessages.RowDescription(fs) ==> fields == fs
    {
      ghost var body := Body(len, off);
      assert FrameBody(buf[off - 5..off + len - 4]) == body;
      var count := buf[off..off + 2];
      assert count == body[..2];
      fields, next := ScanFields(buf, off + 2, Signed16(GetU16(count, 0)), body[2..]);
      OnMessage();
      forall fs | PgMessages.ValidFields(fs) && body == PgMessages.RowDescription(fs) ensures fields == fs {
        PgMessages.RowDescriptionBack(fs);
      }
    }

    method OnAuthentication(len: nat, off: nat) returns (next: nat)
      requires FrameAt(AUTHENTICATION, len, off)
      modifies `salt, `messages
      ensures next == off + len - 4
      ensures len == 12 ==> salt == Body(len, off)[4..8] && messages == old(messages) + [kind]
      ensures len != 12 ==> salt == old(salt) && messages == old(messages)
      ensures len == 12 <==> Signed32(GetU32(Body(len, off), 0)) == 5
    {
      ghost var body := Body(len, off);
      assert FrameBody(buf[off - 5..off + len - 4]) == body;
      assert buf[off..off + 4] == body[..4];
      var authMethod := Signed32(GetU32(buf[off..off + 4], 0));
      next := off + 4;
      if authMethod == MD5_PASSWORD {
        salt := buf[next..next + 4];
        assert salt == body[4..8];
        next := next + 4;
        OnMessage();
      }
    }

    method OnErrorResponse(len: nat, off: nat) returns (next: nat)
      requires FrameAt(ERROR_RESPONSE, len, off)
      modifies `errors, `messages
      ensures next == off + len - 4 && messages == old(messages) + [kind]
      ensures Some((errors, [])) == ReadErrors(Body(len, off))
      ensures forall es ::
        PgMessages.ValidErrors(es) && Body(len, off) == PgMessages.ErrorResponse(es) ==> errors == es
    {
      assert FrameBody(buf[off - 5..off + len - 4]) == Body(len, off);
      errors, next := ScanErrors(buf, off, Body(len, off));
      OnMessage();
      forall es | PgMessages.ValidErrors(es) && Body(len, off) == PgMessages.ErrorResponse(es) ensures errors == es {
        PgMessages.ErrorResponseBack(es);
      }
    }

    method OnParameterStatus(len: nat, off: nat) returns (next: nat)
      requires FrameAt(PARAMETER_STATUS, len, off)
      modifies `parameters
      ensures next == off + len - 4
      ensures var k := ReadCString(Body(len, off)).value;
        parameters == old(parameters)[k.0 := ReadCString(k.1).value.0]
      ensures forall k, v ::
        PgMessages.Plain(k) && PgMessages.Plain(v) && Body(len, off) == PgMessages.ParameterStatus(k, v) ==>
          parameters == old(parameters)[k := v]
    {
      assert FrameBody(buf[off - 5..off + len - 4]) == Body(len, off);
      var key, val;
      key, val, next := ScanPair(buf, off, Body(len, off));
      parameters := parameters[key := val];
      forall k, v | PgMessages.Plain(k) && PgMessages.Plain(v) && Body(len, off) == PgMessages.ParameterStatus(k, v)
        ensures key == k && val == v
      {
        PgMessages.ParameterStatusBack(k, v);
      }
    }

    method OnParameterDescription(len: nat, off: nat) returns (next: nat)
      requires FrameAt(PARAMETER_DESCRIPTION, len, off)
      modifies `params
      ensures next == off + len - 4
      ensures var b := Body(len, off);
        |b| == 2 + 4 * |params| && forall i :: 0 <= i < |params| ==> params[i] == GetU32(b, 2 + 4 * i)
      ensures forall oids ::
        PgMessages.ValidOids(oids) && Body(len, off) == PgMessages.ParameterDescription(oids) ==> params == oids
    {
      hide GetU32;
      assert FrameBody(buf[off - 5..off + len - 4]) == Body(len, off);
      params, next := ScanParams(buf, off, Body(len, off));
      forall oids | PgMessages.ValidOids(oids) && Body(len, off) == PgMessages.ParameterDescription(oids)
        ensures params == oids
      {
        PgMessages.ParameterDescriptionBack(oids);
      }
    }

    method OnParseComplete(len: nat, off: nat) returns (next: nat)
      requires FrameAt(PARSE_COMPLETE, len, off)
      modifies `messages
      ensures next == off + len - 4 && messages == old(messages) + [kind]
    {
      next := off + len - 4;
      OnMessage();
    }

    method OnBindComplete(len: nat, off: nat) returns (next: nat)
      requires FrameAt(BIND_COMPLETE, len, off)
      modifies `messages, `rows, `start, `running
      ensures next == off + len - 4 && messages == old(messages) + [kind]
      ensures rows == 0 && start == next && running
    {
      next := off + len - 4;
      OnMessage();
      rows := 0;
      start := next;
      running := true;
    }

    method OnReadyForQuery(len: nat, off: nat) returns (next: nat)
      requires FrameAt(READY_FOR_QUERY, len, off)
      modifies `status, `messages
      ensures next == off + len - 4 && messages == old(messages) + [kind]
      ensures [status] == Body(len, off)
    {
      assert FrameBody(buf[off - 5..off + len - 4]) == Body(len, off);
      status := buf[off];
      OnMessage();
      next := off + len - 4;
    }

    method OnBackendKeyData(len: nat, off: nat) returns (next: nat)
      requires FrameAt(BACKEND_KEY_DATA, len, off)
      modifies `pid, `key, `messages
      ensures next == off + len - 4 && messages == old(messages) + [kind]
      ensures |Body(len, off)| == 8
      ensures pid == GetU32(Body(len, off), 0) && key == GetU32(Body(len, off), 4)
    {
      assert FrameBody(buf[off - 5..off + len - 4]) == Body(len, off);
      pid := GetU32(buf[off..off + 4], 0);
      next := off + 4;
      key := GetU32(buf[next..next + 4], 0);
      next := next + 4;
      OnMessage();
    }

    method OnDefault(len: nat, off: nat) returns (next: nat)
      requires 4 <= len && off + len - 4 <= buf.Length
      modifies `messages
      ensures next == off + len - 4 && messages == old(messages) + [kind]
    {
      next := off + len - 4;
      OnMessage();
    }

    /** Hands the frame to the handler of its type; every handler returns exactly the next frame boundary,
        and the parser stays in step with the unbounded client. */
    method Dispatch(off: nat) returns (next: nat)
      requires FrameAt(kind, len, off) && Synced(off - 5)
      modifies `start, `end, `nextRow, `rows, `running, `messages, `snapshots, `client, `drop,
        `salt, `fields, `errors, `parameters, `params, `status, `pid, `key
      ensures next == off + len - 4
      ensures client == Deliver(old(client), buf[off - 5..next])
      ensures Synced(next)
    {
      hide InStep, Deliver, WellFormedBody, Handled;
      ghost var v, data := Looks(), buf[..];
      next := Handle(off);
      HandledStep(v, data, off - 5, next, client, drop);
      client, drop := Deliver(client, data[off - 5..next]), Forgotten(v, kind, drop);
    }

    /** How the parser looks once the frame with its body at `off` has been handled. */
    ghost function After(off: nat): View
      requires 5 <= off && 4 <= len && off + len - 4 <= buf.Length
      reads this, buf
    {
      Handled(Looks(), buf[..], off - 5, off + len - 4)
    }

    method Handle(off: nat) returns (next: nat)
      requires FrameAt(kind, len, off)
      modifies `start, `end, `nextRow, `rows, `running, `messages, `snapshots,
        `salt, `fields, `errors, `parameters, `params, `status, `pid, `key
      ensures next == off + len - 4
      ensures Looks() == old(After(off))
    {
      hide WellFormedBody, ReadErrors, ReadFields, ReadCString, ZeroAt, GetU32, GetU16, Signed16, Signed32;
      match kind
      case 82 => next := OnAuthentication(len, off);
      case 69 => next := OnErrorResponse(len, off);
      case 84 => next := OnRowDescription(len, off);
      case 67 => next := OnCommandComplete(len, off);
      case 51 => next := OnCloseComplete(len, off);
      case 49 => next := OnParseComplete(len, off);
      case 50 => next := OnBindComplete(len, off);
      case _ => next := HandleRest(off);
    }

    /** The other cases of the same switch. */
    method HandleRest(off: nat) returns (next: nat)
      requires FrameAt(kind, len, off)
      requires kind !in {COMMAND_COMPLETE, BIND_COMPLETE, AUTHENTICATION}
      modifies `start, `nextRow, `messages, `parameters, `params, `status, `pid, `key
      ensures next == off + len - 4
      ensures Looks() == old(After(off))
    {
      hide WellFormedBody, ReadCString, ZeroAt, GetU32, GetU16;
      match kind
      case 90 => next := OnReadyForQuery(len, off);
      case 75 => next := OnBackendKeyData(len, off);
      case 83 => next := OnParameterStatus(len, off);
      case 116 => next := OnParameterDescription(len, off);
      case 68 => next := OnDataRow(len, off);
      case _ => next := OnDefault(len, off);
    }

    /** Moves [from, end) to the front of the buffer: what lay before `off`, and what lay behind it. */
    method MoveDown(from: nat, off: nat, end: nat)
      requires from <= off <= end <= buf.Length
      modifies buf
      ensures buf[..off - from] == old(buf[from..off]) && buf[off - from..end - from] == old(buf[off..end])
    {
      ghost var data := buf[..];
      CopyDown(buf, end - from, from);
      Moved(data, buf[..], end - from, from, off);
    }

    /** Moves the row window and the unfinished frame behind it to the front of the buffer. */
    method KeepWindow(off: nat, end: nat)
      requires start <= off < end <= buf.Length && running && Synced(off) && !HasFrame(buf[off..end])
      modifies `offset, `parseNext, `start, buf
      ensures Valid() && Unread() == old(buf[off..end]) && start == 0
    {
      hide HasFrame, InStep;
      ghost var v, data := Looks(), buf[..];
      var queryLen := off - start + (end - off);
      MoveDown(start, off, end);
      CompactStep(v, data, buf[..], off, client, drop);
      offset := queryLen;
      parseNext := off - start;
      start := 0;
    }

    /** Moves an unfinished frame to the front of the buffer. */
    method KeepTail(off: nat, end: nat)
      requires off < end <= buf.Length && !running && Synced(off) && !HasFrame(buf[off..end])
      modifies `offset, `parseNext, buf
      ensures Valid() && Unread() == old(buf[off..end])
    {
      hide HasFrame, InStep;
      ghost var v, data := Looks(), buf[..];
      var remaining := end - off;
      MoveDown(off, off, end);
      CompactStep(v, data, buf[..], off, client, drop);
      offset := remaining;
      parseNext := 0;
    }

    /** An unfinished frame at `off` ends the read: keep it, and the row window of a running query, at the
        front of the buffer when its end is near.  `ok` is false when the buffer holds no such window: then
        the move is asked for a window that starts beyond the parse position. */
    method Suspend(off: nat, end: nat) returns (ok: bool)
      requires off < end <= buf.Length && Synced(off) && !HasFrame(buf[off..end])
      modifies `offset, `parseNext, `start, buf
      ensures ok <==> !(running && off < old(start) && buf.Length - off < RESERVE)
      ensures ok ==> Valid() && Unread() == old(buf[off..end])
      ensures !ok ==> running && client.cut
      ensures Reported(snapshots, client.done)
    {
      hide HasFrame, InStep, Reported;
      StepReports(Looks(), buf[..], off, client, drop);
      WindowBehind(Looks(), buf[..], off, client, drop);
      if buf.Length - off < RESERVE {
        if running {
          if off < start { return false; }
          KeepWindow(off, end);
          return true;
        }
        KeepTail(off, end);
        return true;
      }
      offset := end;
      parseNext := off;
      return true;
    }

    /** The first whole frame of [off, stop): its header goes to `kind` and `len`, its body to a handler. */
    method HandleFrame(off: nat, ghost stop: nat) returns (next: nat)
      requires off + 5 <= stop <= buf.Length && Synced(off)
      requires HasFrame(buf[off..stop]) && WellFormedFrame(buf[off..stop][..FrameSize(buf[off..stop])])
      requires kind == buf[off] && len == GetU32(buf[off..off + 5], 1)
      modifies `start, `end, `nextRow, `rows, `running, `messages, `snapshots, `client, `drop,
        `salt, `fields, `errors, `parameters, `params, `status, `pid, `key
      ensures Synced(next) && off < next <= stop && buf[next..stop] == buf[off..stop][FrameSize(buf[off..stop])..]
      ensures client == Deliver(old(client), buf[off..stop][..FrameSize(buf[off..stop])])
    {
      hide InStep, Deliver, WellFormedBody;
      ghost var t := buf[off..stop];
      assert buf[off..off + 5] == t[..5];
      assert buf[off..off + len + 1] == t[..len + 1];
      next := Dispatch(off + 5);
      assert buf[next..stop] == t[len + 1..];
    }

    /** A read that ends on a frame boundary: the buffer is used from its front again. */
    method Reset(ghost off: nat)
      requires 0 < off && Synced(off)
      modifies `offset, `parseNext, `client, `drop
      ensures Valid() && Unread() == []
      ensures client == if old(client).running then old(client).(cut := true) else old(client)
      ensures Reported(snapshots, client.done)
    {
      hide InStep, HasFrame, Reported;
      ResetStep(Looks(), buf[..], off, client, drop);
      StepReports(Looks(), buf[..], off, client, drop);
      parseNext, offset := 0, 0;
      if running { drop := drop + off; client := client.(cut := true); }
      assert Unread() == [];
      NothingHere();
    }

    /** Handles every complete frame of [parseNext, offset + bytesRead). */
    method Parse(bytesRead: nat) returns (ok: bool)
      requires 0 < bytesRead && parseNext <= offset && offset + bytesRead <= buf.Length
      requires Synced(parseNext) && WellFormed(Frames(buf[parseNext..offset + bytesRead]))
      modifies this, buf
      ensures client == Read(old(client), old(buf[parseNext..offset + bytesRead]))
      ensures ok ==> Valid() && Unread() == Pending(old(buf[parseNext..offset + bytesRead]))
      ensures !ok ==> running && client.cut
      ensures Reported(snapshots, client.done)
    {
      hide Deliver, Read, Reported, InStep, WellFormedFrame, Underway, Pending;
      var off := parseNext;
      var stop := offset + bytesRead;
      ghost var s, c0 := buf[off..stop], client;
      assert Underway(c0, s, c0, s) by { SetOut(c0, s); }
      while off < stop
        invariant old(parseNext) <= off <= stop && (off > old(parseNext) || off < stop)
        invariant buf[..] == old(buf[..]) && Synced(off)
        invariant Underway(client, buf[off..stop], c0, s)
        decreases stop - off
      {
        ghost var t := buf[off..stop];
        var remaining := stop - off;
        if remaining < 5 {
          TooShort(client, t, c0, s);
          ok := Suspend(off, stop);
          return;
        }
        kind, len := buf[off], GetU32(buf[off..off + 5], 1);
        assert buf[off..off + 5] == t[..5];
        if remaining < len + 1 {
          TooShort(client, t, c0, s);
          ok := Suspend(off, stop);
          return;
        }
        FirstFrame(client, t, c0, s);
        off := HandleFrame(off, stop);
      }
      assert buf[off..stop] == [];
      TooShort(client, buf[off..stop], c0, s);
      Reset(off);
      return true;
    }

    /** The socket writes a read behind what it wrote before. */
    method Append(chunk: Octets)
      requires offset + |chunk| <= buf.Length
      modifies buf
      ensures buf[..offset] == old(buf[..offset]) && buf[offset..offset + |chunk|] == chunk
    {
      forall i | 0 <= i < |chunk| { buf[offset + i] := chunk[i]; }
    }

    /** One readable event: the socket appends `chunk` at `buf.offset`, then the parser runs. */
    method Receive(chunk: Octets) returns (ok: bool)
      requires Valid() && chunk != [] && offset + |chunk| <= buf.Length
      requires WellFormed(Frames(Unread() + chunk))
      modifies this, buf
      ensures client == Read(old(client), old(Unread()) + chunk)
      ensures ok ==> Valid() && Unread() == Pending(old(Unread()) + chunk)
      ensures !ok ==> running && client.cut
      ensures Reported(snapshots, client.done)
    {
      hide InStep, Frames, Pending, HasFrame, Reported;
      ghost var data := buf[..];
      Append(chunk);
      Arrived(data, buf[..], parseNext, offset, chunk);
      ArrivalStep(Looks(), data, buf[..], parseNext, client, drop);
      ok := Parse(|chunk|);
    }
  }

  /** A connection: the socket delivers `stream` in reads of at most `sizes[i]` octets, never more than the
      room left in the buffer.  It ends when the sizes run out, when the stream is at its end, when the buffer
      is full (a read of length zero closes the socket) or when `copyFrom` is asked for a window that is gone.
      The parser then stands where an unbounded client stands after the same reads. */
  method Serve(p: Parser, stream: Octets, sizes: seq<nat>) returns (taken: nat, ok: bool, ghost chunks: seq<Octets>)
    requires p.Valid() && p.client == START && p.parseNext == p.offset && WellFormed(Frames(stream))
    requires forall i :: 0 <= i < |sizes| ==> 0 < sizes[i]
    modifies p, p.buf
    ensures taken <= |stream| && Concat(chunks) == stream[..taken]
    ensures |chunks| <= |sizes| && forall i :: 0 <= i < |chunks| ==> 0 < |chunks[i]| <= sizes[i]
    ensures p.client == Session(START, [], chunks)
    ensures p.client.log == Frames(stream[..taken])
    ensures Reported(p.snapshots, p.client.done)
    ensures ok ==> taken == |stream| || |chunks| == |sizes| || p.offset == p.buf.Length
    ensures ok ==> p.Valid() && p.Unread() == Pending(stream[..taken])
    ensures ok ==> p.messages == Notified(Frames(stream[..taken]))
    ensures !ok ==> p.client.cut
  {
    hide HasFrame, InStep, Frames, Pending, Notified, WellFormed, DeliverAll, Session, Concat, Read, Reported;
    taken, ok, chunks := 0, true, [];
    assert stream[..0] == [];
    NoneYet();
    NoSession();
    StepReports(p.Looks(), p.buf[..], p.parseNext, p.client, p.drop);
    for i := 0 to |sizes|
      invariant ok && taken <= |stream| && p.Valid() && |chunks| == i
      invariant Concat(chunks) == stream[..taken] && forall k :: 0 <= k < i ==> 0 < |chunks[k]| <= sizes[k]
      invariant p.client == Session(START, [], chunks)
      invariant p.Unread() == Pending(stream[..taken])
      invariant Reported(p.snapshots, p.client.done)
    {
      var room := p.buf.Length - p.offset;
      var want := if sizes[i] <= room then sizes[i] else room;
      var n := if want <= |stream| - taken then want else |stream| - taken;
      if n == 0 { break; }
      var chunk := stream[taken..taken + n];
      Extends(stream, taken, taken + n);
      OneRead(chunks, chunk, stream, taken);
      ok := p.Receive(chunk);
      taken := taken + n;
      chunks := chunks + [chunk];
      if !ok {
        SessionLog(chunks, stream[..taken]);
        return;
      }
    }
    SessionLog(chunks, stream[..taken]);
    assert p.Synced(p.parseNext);
    MessagesOf(p.Looks(), p.buf[..], p.parseNext, p.client, p.drop);
  }

  /** What one read adds to the session. */
  lemma OneRead(chunks: seq<Octets>, chunk: Octets, stream: Octets, taken: nat)
    requires taken + |chunk| <= |stream| && Concat(chunks) == stream[..taken]
    requires chunk == stream[taken..taken + |chunk|]
    ensures Concat(chunks + [chunk]) == stream[..taken + |chunk|]
    ensures Session(START, [], chunks + [chunk])
         == Read(Session(START, [], chunks), Pending(stream[..taken]) + chunk)
  {
    hide Frames, Pending, HasFrame, Session, Concat, DeliverAll;
    ConcatSnoc(chunks, chunk);
    assert stream[..taken] + chunk == stream[..taken + |chunk|];
    NoneYet();
    assert !HasFrame([]) by { NothingHere(); }
    SessionSnoc(START, [], chunks, chunk);
    assert [] + Concat(chunks) == stream[..taken];
  }

  lemma SessionLog(chunks: seq<Octets>, s: Octets)
    requires Concat(chunks) == s
    ensures Session(START, [], chunks).log == Frames(s)
  {
    hide Frames, Session, Concat, HasFrame;
    NothingHere();
    SessionSeesTheStream(START, [], chunks);
    assert [] + s == s;
  }

  lemma NothingHere()
    ensures !HasFrame([])
  {
  }

  lemma NoSession()
    ensures Session(START, [], []) == START && Concat([]) == []
  {
  }

  lemma NoneYet()
    ensures Frames([]) == [] && Pending([]) == []
  {
  }

  lemma MessagesOf(v: View, data: Octets, off: nat, c: Client, drop: nat)
    requires InStep(v, data, off, c, drop)
    ensures WellFormed(c.log) && v.messages == Notified(c.log)
  {
  }

  lemma Extends(stream: Octets, i: nat, j: nat)
    requires i <= j <= |stream| && WellFormed(Frames(stream))
    ensures var more := Pending(stream[..i]) + stream[i..j];
      && Frames(stream[..j]) == Frames(stream[..i]) + Frames(more)
      && Pending(stream[..j]) == Pending(more)
      && WellFormed(Frames(more))
      && WellFormed(Frames(stream[..j]))
  {
    hide Frames, Pending, WellFormed;
    assert stream[..j] == stream[..i] + stream[i..j];
    FramesOfMore(stream[..i], stream[i..j]);
    assert stream == stream[..j] + stream[j..];
    FramesOfMore(stream[..j], stream[j..]);
    PartsWellFormed(Frames(stream[..i]), Frames(Pending(stream[..i]) + stream[i..j]),
                    Frames(Pending(stream[..j]) + stream[j..]));
  }

  lemma PartsWellFormed(a: seq<Octets>, b: seq<Octets>, c: seq<Octets>)
    requires WellFormed(a + b + c)
    ensures WellFormed(b) && WellFormed(a + b)
  {
    hide WellFormedFrame;
    assert forall k :: 0 <= k < |a + b| ==> (a + b)[k] == (a + b + c)[k];
    assert forall k :: 0 <= k < |b| ==> b[k] == (a + b)[|a| + k];
  }

  /** `readCString`: the text at `off` up to its zero octet.  `s` is what lies in the buffer from there. */
  method CString(u8: array<byte>, off: nat, ghost s: Octets) returns (text: Octets)
    requires off + |s| <= u8.Length && u8[off..off + |s|] == s && ZeroAt(s) < |s|
    ensures text == s[..ZeroAt(s)]
  {
    assert forall j :: 0 <= j < |s| ==> u8[off + j] == s[j];
    var i := off;
    while u8[i] != 0
      invariant off <= i <= off + ZeroAt(s)
      decreases off + |s| - i
    {
      i := i + 1;
    }
    text := u8[off..i];
  }

  /** Reads ASCII text and steps over it the way the handlers do, by its length in UTF-16 code units. */
  method ScanText(u8: array<byte>, off: nat, ghost s: Octets) returns (text: Octets, next: nat)
    requires off + |s| <= u8.Length && u8[off..off + |s|] == s
    requires ZeroAt(s) < |s| && Ascii(s[..ZeroAt(s)])
    ensures text == s[..ZeroAt(s)]
    ensures next == off + |text| + 1 && u8[next..off + |s|] == s[|text| + 1..]
  {
    text := CString(u8, off, s);
    AsciiLength(text);
    next := off + JsLength(text) + 1;
  }

  /** One column description: its name, then six fixed-width members. */
  method ScanField(u8: array<byte>, off: nat, ghost s: Octets) returns (f: Field, next: nat)
    requires off + |s| <= u8.Length && u8[off..off + |s|] == s && ReadField(s).Some?
    ensures ReadField(s).value.0 == f
    ensures next + |ReadField(s).value.1| == off + |s| && u8[next..off + |s|] == ReadField(s).value.1
  {
    hide ZeroAt, Signed16, Signed32, GetU16, GetU32;
    ghost var b := ReadCString(s).value.1;
    var name;
    name, next := ScanText(u8, off, s);
    assert u8[next..off + |s|] == b;
    f, next := ScanMembers(u8, next, name, b);
  }

  /** The six fixed-width members that follow a column name. */
  method ScanMembers(u8: array<byte>, off: nat, name: Octets, ghost b: Octets) returns (f: Field, next: nat)
    requires off + |b| <= u8.Length && u8[off..off + |b|] == b && 18 <= |b|
    ensures f == Field(name, Signed32(GetU32(b, 0)), Signed16(GetU16(b, 4)), Signed32(GetU32(b, 6)),
                       Signed16(GetU16(b, 10)), Signed32(GetU32(b, 12)), Signed16(GetU16(b, 16)))
    ensures next == off + 18 && u8[next..off + |b|] == b[18..]
  {
    var m := u8[off..off + 18];
    assert m == b[..18];
    f := Field(name, Signed32(GetU32(m, 0)), Signed16(GetU16(m, 4)), Signed32(GetU32(m, 6)),
               Signed16(GetU16(m, 10)), Signed32(GetU32(m, 12)), Signed16(GetU16(m, 16)));
    next := off + 18;
    assert forall j :: 0 <= j < |b| ==> u8[off + j] == b[j];
  }

  method ScanFields(u8: array<byte>, off: nat, fieldCount: int, ghost s: Octets)
    returns (fields: seq<Field>, next: nat)
    requires off + |s| <= u8.Length && u8[off..off + |s|] == s
    requires ReadFields(s, Max0(fieldCount)).Some? && ReadFields(s, Max0(fieldCount)).value.1 == []
    ensures next == off + |s| && fields == ReadFields(s, Max0(fieldCount)).value.0
  {
    hide ReadField;
    ghost var stop, n, all := off + |s|, Max0(fieldCount), ReadFields(s, Max0(fieldCount)).value.0;
    ghost var rest := s;
    next, fields := off, [];
    var i := 0;
    while i < fieldCount
      invariant 0 <= i <= n && next + |rest| == stop && u8[next..stop] == rest
      invariant ReadFields(rest, n - i).Some? && ReadFields(rest, n - i).value.1 == []
      invariant all == fields + ReadFields(rest, n - i).value.0
    {
      var f, after := ScanField(u8, next, rest);
      next, rest := after, ReadField(rest).value.1;
      fields := fields + [f];
      i := i + 1;
    }
  }

  method ScanPair(u8: array<byte>, off: nat, ghost s: Octets) returns (key: Octets, val: Octets, next: nat)
    requires off + |s| <= u8.Length && u8[off..off + |s|] == s && WellFormedBody(PARAMETER_STATUS, s)
    ensures next == off + |s|
    ensures key == ReadCString(s).value.0 && val == ReadCString(ReadCString(s).value.1).value.0
  {
    hide ZeroAt;
    ghost var t := ReadCString(s).value.1;
    key, next := ScanText(u8, off, s);
    val, next := ScanText(u8, next, t);
  }

  method ScanParams(u8: array<byte>, off: nat, ghost s: Octets) returns (params: seq<nat>, next: nat)
    requires off + |s| <= u8.Length && u8[off..off + |s|] == s && WellFormedBody(PARAMETER_DESCRIPTION, s)
    ensures next == off + |s| && |s| == 2 + 4 * |params|
    ensures forall i :: 0 <= i < |params| ==> params[i] == GetU32(s, 2 + 4 * i)
  {
    assert forall j :: 0 <= j < |s| ==> u8[off + j] == s[j];
    var count := u8[off..off + 2];
    assert count == s[..2];
    var nparams := Signed16(GetU16(count, 0));
    params, next := [], off + 2;
    var i := 0;
    while i < nparams
      invariant 0 <= i <= Max0(nparams) && |params| == i && next == off + 2 + 4 * i
      invariant forall j :: 0 <= j < i ==> params[j] == GetU32(s, 2 + 4 * j)
    {
      var word := u8[next..next + 4];
      assert word == u8[off..off + |s|][2 + 4 * i..2 + 4 * i + 4] == s[2 + 4 * i..2 + 4 * i + 4];
      params := params + [GetU32(word, 0)];
      next := next + 4;
      i := i + 1;
    }
  }

  lemma ErrorsEnd(s: Octets)
    requires ReadErrors(s).Some?
    ensures 0 < |s|
    ensures s[0] == 0 ==> ReadErrors(s).value == ([], s[1..])
  {
  }

  /** One typed string of an ErrorResponse. */
  method ScanError(u8: array<byte>, off: nat, ghost s: Octets)
    returns (e: ErrorField, next: nat, ghost rest: Octets)
    requires off + |s| <= u8.Length && u8[off..off + |s|] == s
    requires ReadErrors(s).Some? && s[0] != 0
    ensures |rest| < |s| && next == off + |s| - |rest| && u8[next..off + |s|] == rest
    ensures ReadErrors(rest).Some? && ReadErrors(s).value == ([e] + ReadErrors(rest).value.0, ReadErrors(rest).value.1)
  {
    hide ZeroAt;
    ghost var tail := s[1..];
    assert u8[off + 1..off + |s|] == tail;
    rest := ReadCString(tail).value.1;
    var text;
    text, next := ScanText(u8, off + 1, tail);
    e := ErrorField(u8[off], text);
  }

  method ScanErrors(u8: array<byte>, off: nat, ghost s: Octets) returns (errors: seq<ErrorField>, next: nat)
    requires off + |s| <= u8.Length && u8[off..off + |s|] == s
    requires ReadErrors(s).Some? && ReadErrors(s).value.1 == []
    ensures next == off + |s| && errors == ReadErrors(s).value.0
  {
    hide ReadErrors;
    ghost var stop, rest := off + |s|, s;
    ErrorsEnd(s);
    errors := [];
    next := off;
    while u8[next] != 0
      invariant 0 < |rest| && next + |rest| == stop && u8[next..stop] == rest
      invariant ReadErrors(rest).Some? && ReadErrors(rest).value.1 == []
      invariant ReadErrors(s).value.0 == errors + ReadErrors(rest).value.0
      decreases |rest|
    {
      var e;
      e, next, rest := ScanError(u8, next, rest);
      errors := errors + [e];
      ErrorsEnd(rest);
    }
    ErrorsEnd(rest);
    next := next + 1;
  }

  /** ASCII text has as many UTF-16 code units as octets. */
  lemma {:induction false} AsciiLength(s: Octets)
    requires Ascii(s)
    ensures JsLength(s) == |s|
  {
    if s != [] {
      assert forall i :: 0 <= i < |s[1..]| ==> s[1..][i] == s[i + 1];
      AsciiLength(s[1..]);
    }
  }
}
