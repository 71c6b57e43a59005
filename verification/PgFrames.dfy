/** Backend messages of the PostgreSQL v3 protocol: framing, well-formed bodies, and what a client that
    could keep the whole stream in one unbounded buffer would see. */
module PgFrames {
  import opened Bytes

  // Message type octets, section 55.7 of the PostgreSQL 16 documentation.
  const AUTHENTICATION: byte := 82
  const ERROR_RESPONSE: byte := 69
  const ROW_DESCRIPTION: byte := 84
  const COMMAND_COMPLETE: byte := 67
  const PARSE_COMPLETE: byte := 49
  const CLOSE_COMPLETE: byte := 51
  const BIND_COMPLETE: byte := 50
  const READY_FOR_QUERY: byte := 90
  const BACKEND_KEY_DATA: byte := 75
  const PARAMETER_STATUS: byte := 83
  const PARAMETER_DESCRIPTION: byte := 116
  const DATA_ROW: byte := 68
  const NO_DATA: byte := 110
  const MD5_PASSWORD := 5

  /** Octets taken by the frame at the head of `s`: type, 32-bit length, body. */
  function FrameSize(s: Octets): (n: nat)
    requires 5 <= |s|
    ensures 1 <= n
  {
    GetU32(s, 1) + 1
  }

  /** The whole first frame has arrived. */
  predicate HasFrame(s: Octets) {
    5 <= |s| && FrameSize(s) <= |s|
  }

  /** The complete frames of a stream, in order. */
  function Frames(s: Octets): seq<Octets>
    decreases |s|
  {
    if !HasFrame(s) then [] else [s[..FrameSize(s)]] + Frames(s[FrameSize(s)..])
  }

  /** The incomplete frame that ends a stream. */
  function Pending(s: Octets): Octets
    decreases |s|
  {
    if !HasFrame(s) then s else Pending(s[FrameSize(s)..])
  }

  lemma NoFrame(s: Octets)
    requires !HasFrame(s)
    ensures Frames(s) == [] && Pending(s) == s
  {
  }

  /** Nothing is lost or reordered: the frames and the pending part are the stream. */
  lemma {:induction false} FramesPartition(s: Octets)
    ensures Concat(Frames(s)) + Pending(s) == s
    ensures !HasFrame(Pending(s))
    decreases |s|
  {
    if HasFrame(s) {
      var n := FrameSize(s);
      FramesPartition(s[n..]);
      assert Concat(Frames(s)) == s[..n] + Concat(Frames(s[n..])) by {
        assert Frames(s)[1..] == Frames(s[n..]);
      }
      assert s == s[..n] + s[n..];
      assert Concat(Frames(s)) + Pending(s) == s[..n] + (Concat(Frames(s[n..])) + Pending(s[n..]));
    }
  }

  /** Reading more octets only ever appends frames: the split into reads is invisible. */
  lemma {:induction false} FramesOfMore(s: Octets, t: Octets)
    ensures Frames(s + t) == Frames(s) + Frames(Pending(s) + t)
    ensures Pending(s + t) == Pending(Pending(s) + t)
    decreases |s|
  {
    if HasFrame(s) {
      var n := FrameSize(s);
      assert FrameSize(s + t) == n;
      assert (s + t)[..n] == s[..n] && (s + t)[n..] == s[n..] + t;
      FramesOfMore(s[n..], t);
      assert Frames(s + t) == [s[..n]] + (Frames(s[n..]) + Frames(Pending(s[n..]) + t));
    }
  }

  /** A message of type `kind` with body `body`, as section 55.7 lays it out. */
  function EncodeFrame(kind: byte, body: Octets): Octets {
    [kind] + PutU32(|body| + 4) + body
  }

  function FrameBody(f: Octets): Octets
    requires 5 <= |f|
  {
    f[5..]
  }

  // ---------------------------------------------------------------- bodies

  /** Text up to the first zero octet, and what follows that octet. */
  function ReadCString(s: Octets): Option<(Octets, Octets)> {
    var k := ZeroAt(s);
    if k == |s| then None else Some((s[..k], s[k + 1..]))
  }

  /** Where `onParameterStatus` lands in the body `b`: it steps over each text by its length in code units. */
  function StatusEnd(b: Octets): Option<nat> {
    var k := ReadCString(b);
    if k.None? then None
    else
      var p := JsLength(k.value.0) + 1;
      var v := ReadCString(b[p..]);
      if v.None? then None else Some(p + JsLength(v.value.0) + 1)
  }

  lemma ReadText(text: Octets, rest: Octets)
    requires 0 !in text
    ensures ReadCString(text + [0] + rest) == Some((text, rest))
  {
    var s := text + [0] + rest;
    assert forall i :: 0 <= i < |text| ==> s[i] == text[i];
    assert s[|text|] == 0;
    assert s[..|text|] == text && s[|text| + 1..] == rest;
  }

  /** `onParameterStatus` returns the next frame boundary exactly when both texts are ASCII. */
  lemma StatusBoundary(key: Octets, val: Octets)
    requires 0 !in key && 0 !in val && Utf8(key) && Utf8(val)
    ensures var b := key + [0] + val + [0];
      StatusEnd(b) == Some(|b|) <==> Ascii(key) && Ascii(val)
  {
    hide ReadCString, JsLength, Utf8, Ascii;
    var b, p := key + [0] + val + [0], JsLength(key) + 1;
    assert b == key + [0] + (val + [0]);
    ReadText(key, val + [0]);
    LengthAgrees(key);
    LengthAgrees(val);
    if Ascii(key) {
      assert b[p..] == val + [0] + [];
      ReadText(val, []);
    } else {
      var tail := key[p..];
      assert b[p..] == tail + [0] + (val + [0]);
      ReadText(tail, val + [0]);
    }
  }

  /** One column description of a RowDescription. */
  datatype Field = Field(name: Octets, tid: int, attrib: int, oid: int, size: int, mod: int, format: int)

  function ReadField(s: Octets): (r: Option<(Field, Octets)>)
    ensures r.Some? ==> |r.value.1| < |s|
  {
    var r := ReadCString(s);
    if r.None? || |r.value.1| < 18 || !Ascii(r.value.0) then None
    else
      var b := r.value.1;
      Some((Field(r.value.0, Signed32(GetU32(b, 0)), Signed16(GetU16(b, 4)), Signed32(GetU32(b, 6)),
                  Signed16(GetU16(b, 10)), Signed32(GetU32(b, 12)), Signed16(GetU16(b, 16))), b[18..]))
  }

  function ReadFields(s: Octets, n: nat): Option<(seq<Field>, Octets)>
    decreases n
  {
    if n == 0 then Some(([], s))
    else
      var f := ReadField(s);
      if f.None? then None
      else
        var r := ReadFields(f.value.1, n - 1);
        if r.None? then None else Some(([f.value.0] + r.value.0, r.value.1))
  }

  /** One field of an ErrorResponse: a type octet and its text. */
  datatype ErrorField = ErrorField(kind: byte, text: Octets)

  /** Typed strings up to and including the closing zero octet. */
  function ReadErrors(s: Octets): Option<(seq<ErrorField>, Octets)>
    decreases |s|
  {
    if s == [] then None
    else if s[0] == 0 then Some(([], s[1..]))
    else
      var t := ReadCString(s[1..]);
      if t.None? || !Ascii(t.value.0) then None
      else
        var r := ReadErrors(t.value.1);
        if r.None? then None
        else Some(([ErrorField(s[0], t.value.0)] + r.value.0, r.value.1))
  }

  function Max0(n: int): nat {
    if n < 0 then 0 else n
  }

  /** The body of a message of each type that the handlers look inside, as section 55.7 defines it,
      limited to what the client supports: ASCII text, and of the authentication requests only Ok and MD5. */
  predicate WellFormedBody(kind: byte, b: Octets) {
    if kind == AUTHENTICATION then
      4 <= |b| && |b| == if Signed32(GetU32(b, 0)) == MD5_PASSWORD then 8 else 4
    else if kind == ERROR_RESPONSE then
      var r := ReadErrors(b);
      r.Some? && r.value.1 == []
    else if kind == ROW_DESCRIPTION then
      2 <= |b| &&
      var r := ReadFields(b[2..], Max0(Signed16(GetU16(b, 0))));
      r.Some? && r.value.1 == []
    else if kind == PARAMETER_STATUS then
      var k := ReadCString(b);
      k.Some? && Ascii(k.value.0) &&
      var v := ReadCString(k.value.1);
      v.Some? && Ascii(v.value.0) && v.value.1 == []
    else if kind == PARAMETER_DESCRIPTION then
      2 <= |b| && |b| == 2 + 4 * Max0(Signed16(GetU16(b, 0)))
    else if kind == READY_FOR_QUERY then
      |b| == 1
    else if kind == BACKEND_KEY_DATA then
      |b| == 8
    else true
  }

  predicate WellFormedFrame(f: Octets) {
    5 <= |f| && |f| == FrameSize(f) && WellFormedBody(f[0], FrameBody(f))
  }

  predicate WellFormed(fs: seq<Octets>) {
    forall i :: 0 <= i < |fs| ==> WellFormedFrame(fs[i])
  }

  // ---------------------------------------------------------------- what the client should see

  /** What a CommandComplete reports: how many rows, the octets of the row frames, and whether the query
      was an extended one whose window no read had cut. */
  datatype Completion = Completion(rows: nat, window: Octets, running: bool, cut: bool)

  /** The client of an unbounded buffer.  `window` is every frame since the first DataRow of the query
      (or since BindComplete while there is none). `cut` says that, after the window opened, some read
      ended exactly on a frame boundary. */
  datatype Client = Client(
    log: seq<Octets>, nextRow: nat, rows: nat, running: bool, window: Octets, cut: bool, done: seq<Completion>)

  const START := Client([], 0, 0, false, [], false, [])

  function Deliver(c: Client, f: Octets): Client {
    var c := c.(log := c.log + [f]);
    if f == [] then c
    else if f[0] == DATA_ROW then
      if c.nextRow == 0 then c.(nextRow := 1, window := f, cut := false)
      else c.(nextRow := c.nextRow + 1, window := c.window + f)
    else if f[0] == COMMAND_COMPLETE then
      c.(rows := c.nextRow, nextRow := 0, running := false,
         done := c.done + [Completion(c.nextRow, c.window, c.running, c.cut)])
    else if f[0] == BIND_COMPLETE then
      c.(rows := 0, running := true, window := [], cut := false)
    else
      c.(window := c.window + f)
  }

  function DeliverAll(c: Client, fs: seq<Octets>): Client
    decreases |fs|
  {
    if fs == [] then c else DeliverAll(Deliver(c, fs[0]), fs[1..])
  }

  /** The handler of this frame calls `onMessage`. */
  predicate Notifies(f: Octets)
    requires WellFormedFrame(f)
  {
    && f[0] !in {DATA_ROW, PARAMETER_STATUS, PARAMETER_DESCRIPTION}
    && (f[0] == AUTHENTICATION ==> Signed32(GetU32(f, 5)) == MD5_PASSWORD)
  }

  /** The message types that `onMessage` sees while the frames `fs` are handled. */
  function Notified(fs: seq<Octets>): seq<byte>
    requires WellFormed(fs)
  {
    if fs == [] then []
    else Notified(fs[..|fs| - 1]) + if Notifies(fs[|fs| - 1]) then [fs[|fs| - 1][0]] else []
  }

  /** One read leaves `unread` octets to handle: deliver what they complete; a read that ends on a frame
      boundary cuts an open window. */
  function Read(c: Client, unread: Octets): Client {
    var d := DeliverAll(c, Frames(unread));
    if Pending(unread) == [] && d.running then d.(cut := true) else d
  }

  /** A whole session: the reads in order, starting from `pending` octets of an unfinished frame. */
  function Session(c: Client, pending: Octets, chunks: seq<Octets>): Client
    decreases |chunks|
  {
    if chunks == [] then c
    else Session(Read(c, pending + chunks[0]), Pending(pending + chunks[0]), chunks[1..])
  }

  lemma {:induction false} DeliverAllLog(c: Client, fs: seq<Octets>)
    ensures DeliverAll(c, fs).log == c.log + fs
    decreases |fs|
  {
    if fs != [] {
      DeliverAllLog(Deliver(c, fs[0]), fs[1..]);
      assert c.log + fs == c.log + [fs[0]] + fs[1..];
    }
  }

  /** Fragmentation is invisible: whatever the reads, the messages seen are the frames of the stream. */
  lemma {:induction false} SessionSeesTheStream(c: Client, pending: Octets, chunks: seq<Octets>)
    requires !HasFrame(pending)
    ensures Session(c, pending, chunks).log == c.log + Frames(pending + Concat(chunks))
    decreases |chunks|
  {
    hide Frames, Pending, DeliverAll, HasFrame;
    if chunks == [] {
      assert pending + Concat(chunks) == pending;
      NoFrame(pending);
    } else {
      var s := pending + chunks[0];
      DeliverAllLog(c, Frames(s));
      FramesPartition(s);
      SessionSeesTheStream(Read(c, s), Pending(s), chunks[1..]);
      FramesOfMore(s, Concat(chunks[1..]));
      assert pending + Concat(chunks) == s + Concat(chunks[1..]);
    }
  }

  // ---------------------------------------------------------------- the row window of an extended query

  /** One read more. */
  lemma {:induction false} SessionSnoc(c: Client, pending: Octets, chunks: seq<Octets>, chunk: Octets)
    requires !HasFrame(pending)
    ensures Session(c, pending, chunks + [chunk])
         == Read(Session(c, pending, chunks), Pending(pending + Concat(chunks)) + chunk)
    decreases |chunks|
  {
    hide Frames, Pending, HasFrame, Read;
    if chunks == [] {
      assert pending + Concat(chunks) == pending && chunks + [chunk] == [chunk];
      NoFrame(pending);
      assert |[chunk][1..]| == 0;
    } else {
      var s, rest := pending + chunks[0], chunks[1..];
      assert (chunks + [chunk])[1..] == rest + [chunk];
      FramesPartition(s);
      SessionSnoc(Read(c, s), Pending(s), rest, chunk);
      assert s + Concat(rest) == pending + Concat(chunks);
      FramesOfMore(s, Concat(rest));
    }
  }

  /** What happens to the client, in order: a frame is handled, or a read ends exactly on a frame boundary. */
  datatype Event = Got(frame: Octets) | Boundary

  function GotAll(fs: seq<Octets>): seq<Event> {
    if fs == [] then [] else [Got(fs[0])] + GotAll(fs[1..])
  }

  function Events(pending: Octets, chunks: seq<Octets>): seq<Event>
    decreases |chunks|
  {
    if chunks == [] then []
    else
      var s := pending + chunks[0];
      GotAll(Frames(s)) + (if Pending(s) == [] then [Boundary] else []) + Events(Pending(s), chunks[1..])
  }

  function Happen(c: Client, e: Event): Client {
    match e
    case Got(f) => Deliver(c, f)
    case Boundary => if c.running then c.(cut := true) else c
  }

  function Replay(c: Client, es: seq<Event>): Client
    decreases |es|
  {
    if es == [] then c else Replay(Happen(c, es[0]), es[1..])
  }

  lemma {:induction false} ReplayAppend(c: Client, a: seq<Event>, b: seq<Event>)
    ensures Replay(c, a + b) == Replay(Replay(c, a), b)
    decreases |a|
  {
    if a == [] {
      assert a + b == b;
    } else {
      assert (a + b)[0] == a[0] && (a + b)[1..] == a[1..] + b;
      ReplayAppend(Happen(c, a[0]), a[1..], b);
    }
  }

  lemma {:induction false} ReplayGot(c: Client, fs: seq<Octets>)
    ensures Replay(c, GotAll(fs)) == DeliverAll(c, fs)
    decreases |fs|
  {
    if fs != [] {
      ReplayGot(Deliver(c, fs[0]), fs[1..]);
      assert GotAll(fs)[1..] == GotAll(fs[1..]);
    }
  }

  /** A session is determined by its frames and by which reads ended on a boundary. */
  lemma {:induction false} SessionIsReplay(c: Client, pending: Octets, chunks: seq<Octets>)
    ensures Session(c, pending, chunks) == Replay(c, Events(pending, chunks))
    decreases |chunks|
  {
    hide Deliver, Frames, Pending, DeliverAll, GotAll;
    if chunks != [] {
      var s := pending + chunks[0];
      var got, tick := GotAll(Frames(s)), if Pending(s) == [] then [Boundary] else [];
      var rest := Events(Pending(s), chunks[1..]);
      ReplayGot(c, Frames(s));
      ReplayAppend(c, got, tick);
      assert Replay(c, got + tick) == Read(c, s);
      ReplayAppend(c, got + tick, rest);
      SessionIsReplay(Read(c, s), Pending(s), chunks[1..]);
    }
  }

  function Rows(es: seq<Event>): seq<Octets> {
    if es == [] then []
    else Rows(es[..|es| - 1]) + if es[|es| - 1].Got? then [es[|es| - 1].frame] else []
  }

  /** Some read ended on a frame boundary after a row had arrived. */
  predicate CutsRows(es: seq<Event>) {
    exists i, j :: 0 <= i < j < |es| && es[i].Got? && es[j].Boundary?
  }

  lemma CutsRowsSnoc(es: seq<Event>, e: Event)
    ensures CutsRows(es + [e]) <==> CutsRows(es) || (e.Boundary? && Rows(es) != [])
  {
    var all := es + [e];
    RowsEmpty(es);
    if CutsRows(es) {
      var i, j :| 0 <= i < j < |es| && es[i].Got? && es[j].Boundary?;
      assert all[i].Got? && all[j].Boundary?;
    }
    if e.Boundary? && Rows(es) != [] {
      var i :| 0 <= i < |es| && es[i].Got?;
      assert all[i].Got? && all[|es|].Boundary?;
    }
  }

  lemma {:induction false} RowsEmpty(es: seq<Event>)
    ensures Rows(es) == [] <==> forall i :: 0 <= i < |es| ==> es[i].Boundary?
  {
    if es != [] {
      var n := |es| - 1;
      RowsEmpty(es[..n]);
      if forall i :: 0 <= i < n ==> es[..n][i].Boundary? {
        assert forall i :: 0 <= i < n ==> es[i].Boundary?;
      }
    }
  }

  /** The events between BindComplete and CommandComplete of an error-free extended query. */
  predicate RowsOnly(es: seq<Event>) {
    forall i :: 0 <= i < |es| && es[i].Got? ==> es[i].frame != [] && es[i].frame[0] == DATA_ROW
  }

  lemma {:induction false} WindowGrows(c: Client, es: seq<Event>)
    requires c.running && c.nextRow == 0 && c.window == [] && !c.cut && RowsOnly(es)
    ensures var d := Replay(c, es);
      && d.running && d.nextRow == |Rows(es)| && d.done == c.done && d.window == Concat(Rows(es))
      && (Rows(es) != [] ==> (d.cut <==> CutsRows(es)))
  {
    if es != [] {
      var n := |es| - 1;
      var init, e := es[..n], es[n];
      assert es == init + [e];
      WindowGrows(c, init);
      ReplayAppend(c, init, [e]);
      CutsRowsSnoc(init, e);
      var m := Replay(c, init);
      assert Replay(c, es) == Happen(m, e);
      if e.Got? {
        assert Rows(es) == Rows(init) + [e.frame];
        ConcatSnoc(Rows(init), e.frame);
        if Rows(init) == [] {
          RowsEmpty(init);
          assert !CutsRows(init);
          assert Concat(Rows(es)) == [] + e.frame == e.frame;
        }
      } else {
        assert Rows(es) == Rows(init);
      }
    }
  }

  /** Over every error-free extended query, CommandComplete reports the number of DataRows since
      BindComplete and their frames, and it reports the window as cut exactly when some read ended on a
      frame boundary after the first row and before CommandComplete. */
  lemma QueryReportsItsRows(c: Client, bind: Octets, body: seq<Event>, complete: Octets)
    requires c.nextRow == 0 && RowsOnly(body)
    requires bind != [] && bind[0] == BIND_COMPLETE && complete != [] && complete[0] == COMMAND_COMPLETE
    ensures var d := Replay(c, [Got(bind)] + body + [Got(complete)]);
      && |d.done| == |c.done| + 1 && d.done[..|c.done|] == c.done
      && var k := d.done[|c.done|];
      && k.rows == |Rows(body)| && k.window == Concat(Rows(body)) && k.running
      && (k.rows > 0 ==> (k.cut <==> CutsRows(body)))
  {
    var b := Deliver(c, bind);
    WindowGrows(b, body);
    assert Replay(c, [Got(bind)]) == b by { assert [Got(bind)][1..] == []; }
    ReplayAppend(c, [Got(bind)], body);
    var m := Replay(c, [Got(bind)] + body);
    ReplayAppend(c, [Got(bind)] + body, [Got(complete)]);
    assert Replay(m, [Got(complete)]) == Deliver(m, complete) by { assert [Got(complete)][1..] == []; }
  }

  /** Queries completed by these events. */
  function Completions(es: seq<Event>): nat {
    if es == [] then 0
    else
      var e := es[|es| - 1];
      Completions(es[..|es| - 1]) + if e.Got? && e.frame != [] && e.frame[0] == COMMAND_COMPLETE then 1 else 0
  }

  /** Rows since the last of them. */
  function OpenRows(es: seq<Event>): nat {
    if es == [] then 0
    else
      var e, before := es[|es| - 1], OpenRows(es[..|es| - 1]);
      if e.Boundary? || e.frame == [] then before
      else if e.frame[0] == DATA_ROW then before + 1
      else if e.frame[0] == COMMAND_COMPLETE then 0
      else before
  }

  lemma {:induction false} ReplayCounts(es: seq<Event>)
    ensures var c := Replay(START, es); |c.done| == Completions(es) && c.nextRow == OpenRows(es)
    decreases |es|
  {
    if es != [] {
      var n := |es| - 1;
      ReplayCounts(es[..n]);
      assert es == es[..n] + [es[n]];
      ReplayAppend(START, es[..n], [es[n]]);
      ReplayOne(Replay(START, es[..n]), es[n]);
    }
  }

  lemma ReplayOne(c: Client, e: Event)
    ensures Replay(c, [e]) == Happen(c, e)
  {
    assert |[e][1..]| == 0;
  }

  /** What has been reported stays reported. */
  lemma {:induction false} ReplayKeepsDone(c: Client, es: seq<Event>)
    ensures c.done <= Replay(c, es).done
    decreases |es|
  {
    if es != [] { ReplayKeepsDone(Happen(c, es[0]), es[1..]); }
  }

  /** An error-free extended query in a session: every row before BindComplete belongs to a completed query, and
      only rows come before CommandComplete. */
  predicate QueryIn(es: seq<Event>, before: seq<Event>, bind: Octets, body: seq<Event>, complete: Octets,
                    after: seq<Event>)
  {
    && es == before + ([Got(bind)] + body + [Got(complete)]) + after
    && OpenRows(before) == 0 && RowsOnly(body)
    && bind != [] && bind[0] == BIND_COMPLETE && complete != [] && complete[0] == COMMAND_COMPLETE
  }

  /** What the session reports for it. */
  lemma QueryInSession(chunks: seq<Octets>, before: seq<Event>, bind: Octets, body: seq<Event>, complete: Octets,
                       after: seq<Event>)
    requires QueryIn(Events([], chunks), before, bind, body, complete, after)
    ensures var done, k := Session(START, [], chunks).done, Completions(before);
      && k < |done| && done[k].rows == |Rows(body)| && done[k].window == Concat(Rows(body)) && done[k].running
      && (done[k].rows > 0 ==> (done[k].cut <==> CutsRows(body)))
  {
    hide Deliver, Events, Session, Rows, CutsRows, RowsOnly;
    var query := [Got(bind)] + body + [Got(complete)];
    SessionIsReplay(START, [], chunks);
    ReplayAppend(START, before + query, after);
    ReplayAppend(START, before, query);
    ReplayCounts(before);
    QueryReportsItsRows(Replay(START, before), bind, body, complete);
    ReplayKeepsDone(Replay(START, before + query), after);
  }

  /** A session whose read ends on the boundary after a row loses that row's window; the same stream in one
      read keeps it. */
  lemma BoundaryReadCutsWindow()
    ensures var bind, row, complete := EncodeFrame(BIND_COMPLETE, []), EncodeFrame(DATA_ROW, [0, 0]),
                                       EncodeFrame(COMMAND_COMPLETE, []);
      && Session(START, [], [bind + row, complete]).done == [Completion(1, row, true, true)]
      && Session(START, [], [bind + row + complete]).done == [Completion(1, row, true, false)]
  {
    hide Frames, Pending, DeliverAll, Session, EncodeFrame;
    var bind, row, complete := EncodeFrame(BIND_COMPLETE, []), EncodeFrame(DATA_ROW, [0, 0]),
                               EncodeFrame(COMMAND_COMPLETE, []);
    NoFrame([]);
    OneFrame(BIND_COMPLETE, [], row);
    OneFrame(BIND_COMPLETE, [], row + complete);
    OneFrame(DATA_ROW, [0, 0], []);
    OneFrame(DATA_ROW, [0, 0], complete);
    OneFrame(COMMAND_COMPLETE, [], []);
    assert row + [] == row && complete + [] == complete;
    assert bind + row + complete == bind + (row + complete);
    assert [] + (bind + row) == bind + row && [] + complete == complete;
    assert [] + (bind + row + complete) == bind + row + complete;
    var r := Deliver(Deliver(START, bind), row);
    DeliverOne(START, bind, [row]);
    DeliverOne(START, bind, [row] + [complete]);
    DeliverOne(Deliver(START, bind), row, []);
    DeliverOne(Deliver(START, bind), row, [complete]);
    DeliverOne(r, complete, []);
    DeliverOne(r.(cut := true), complete, []);
    assert Frames(bind + row) == [bind] + [row] && Frames(complete) == [complete];
    assert Frames(bind + row + complete) == [bind] + ([row] + [complete]);
    SessionOne(START, [], bind + row, [complete]);
    SessionOne(r.(cut := true), [], complete, []);
    SessionOne(START, [], bind + row + complete, []);
    assert [bind + row, complete] == [bind + row] + [complete];
  }

  lemma DeliverOne(c: Client, f: Octets, fs: seq<Octets>)
    ensures DeliverAll(c, [f] + fs) == DeliverAll(Deliver(c, f), fs)
    ensures DeliverAll(c, [f]) == Deliver(c, f)
  {
    assert ([f] + fs)[1..] == fs;
    assert |[f][1..]| == 0;
  }

  lemma SessionOne(c: Client, pending: Octets, chunk: Octets, chunks: seq<Octets>)
    ensures Session(c, pending, [chunk] + chunks)
         == Session(Read(c, pending + chunk), Pending(pending + chunk), chunks)
    ensures Session(c, pending, [chunk]) == Read(c, pending + chunk)
  {
    assert ([chunk] + chunks)[1..] == chunks;
    assert |[chunk][1..]| == 0;
  }

  /** The stream of an encoded message followed by anything is that frame, then the rest. */
  lemma OneFrame(kind: byte, body: Octets, rest: Octets)
    requires |body| < 0x1_0000_0000 - 4
    ensures var f := EncodeFrame(kind, body);
      && 5 <= |f| && f[0] == kind && FrameBody(f) == body
      && Frames(f + rest) == [f] + Frames(rest) && Pending(f + rest) == Pending(rest)
  {
    var f := EncodeFrame(kind, body);
    var s := f + rest;
    PutGetU32(|body| + 4, [kind], body + rest);
    assert s == [kind] + PutU32(|body| + 4) + (body + rest);
    assert s[..|f|] == f && s[|f|..] == rest;
  }
}
