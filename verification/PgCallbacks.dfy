/** Matching replies to requests: one queue of callbacks, pushed by every request and shifted by the messages
    that complete one. */
module PgCallbacks {
  import opened Bytes
  import opened PgFrames

  /** A callback function; the mark `isExec` is kept on the function itself. */
  type Fn = nat

  const EMPTY_QUERY: byte := 73
  const PORTAL_SUSPENDED: byte := 115
  const NOTICE: byte := 78
  const NOTIFICATION: byte := 65

  // ------------------------------------------------------------ the client

  datatype Session = Session(callbacks: seq<Fn>, marked: set<Fn>, authenticated: bool, fired: seq<Fn>, failed: bool)

  const FRESH := Session([], {}, false, [], false)

  /** `callbacks.shift()()`; with nothing to shift this is a TypeError. */
  function Fire(c: Session): Session {
    if c.callbacks == [] then c.(failed := true)
    else c.(callbacks := c.callbacks[1..], fired := c.fired + [c.callbacks[0]])
  }

  function OnMessage(c: Session, kind: byte): Session {
    if kind == COMMAND_COMPLETE || kind == CLOSE_COMPLETE then Fire(c)
    else if kind == READY_FOR_QUERY then (if c.authenticated then c else Fire(c.(authenticated := true)))
    else if kind == ERROR_RESPONSE then Fire(c)
    else if kind == ROW_DESCRIPTION then
      if c.callbacks == [] then c.(failed := true) else if c.callbacks[0] !in c.marked then Fire(c) else c
    else if kind == AUTHENTICATION || kind == PARSE_COMPLETE || kind == NO_DATA then Fire(c)
    else c
  }

  /** These types fire the callback at the head: CommandComplete, CloseComplete, ErrorResponse, ParseComplete, NoData
      and Authentication always, ReadyForQuery the first time, RowDescription unless the callback is marked. */
  predicate Fires(c: Session, kind: byte) {
    || kind as char in "C3E1nR"
    || (kind as char == 'Z' && !c.authenticated)
    || (kind as char == 'T' && (c.callbacks == [] || c.callbacks[0] !in c.marked))
  }

  /** A message fires the head and takes it off the queue, or leaves the queue alone; it is an error exactly if
      there was nothing to fire. */
  lemma Firing(c: Session, kind: byte)
    requires !c.failed
    ensures var d := OnMessage(c, kind);
      && d.marked == c.marked
      && (d.failed <==> Fires(c, kind) && c.callbacks == [])
      && (!d.failed ==> (d.authenticated <==> c.authenticated || kind as char == 'Z'))
      && (Fires(c, kind) && !d.failed ==>
            [c.callbacks[0]] + d.callbacks == c.callbacks && d.fired == c.fired + [c.callbacks[0]])
      && (!Fires(c, kind) ==> d.callbacks == c.callbacks && d.fired == c.fired)
  {
  }

  // ------------------------------------------------------------ requests and what the server answers

  /** How the execution of a statement ends. */
  datatype Outcome = Completed | Empty | Suspended

  datatype Statement = Statement(described: bool, rows: nat)

  datatype Request =
    | Startup(f: Fn, password: bool)   // the server may ask for a password
    | Password(f: Fn)
    | Prepare(f: Fn)
    | Describe(f: Fn, returnsRows: bool)
    | Bind(f: Fn)
    | Call(f: Fn, sync: bool, rows: nat, outcome: Outcome)
    | Exec(f: Fn, rows: nat, outcome: Outcome)
    | Close(f: Fn)
    | Query(f: Fn, queries: nat, statements: seq<Statement>)

  /** A message from the server, and whose request it completes. */
  datatype Reply = Reply(kind: byte, md5: bool, owner: seq<Fn>)

  function Plain(kind: byte): Reply {
    Reply(kind, false, [])
  }

  function Completing(kind: byte, f: Fn): Reply {
    Reply(kind, false, [f])
  }

  function Rows(n: nat): seq<Reply> {
    seq(n, _ => Plain(DATA_ROW))
  }

  /** A session that begins: the first ReadyForQuery completes the request that asked for it. */
  function Begun(f: Fn): seq<Reply> {
    [Plain(AUTHENTICATION), Plain(BACKEND_KEY_DATA), Completing(READY_FOR_QUERY, f)]
  }

  function Ended(outcome: Outcome, f: Fn): Reply {
    match outcome
    case Completed => Completing(COMMAND_COMPLETE, f)
    case Empty => Plain(EMPTY_QUERY)
    case Suspended => Plain(PORTAL_SUSPENDED)
  }

  function StatementReplies(f: Fn, s: Statement): seq<Reply> {
    (if s.described then [Plain(ROW_DESCRIPTION)] else []) + Rows(s.rows) + [Completing(COMMAND_COMPLETE, f)]
  }

  function StatementsReplies(f: Fn, statements: seq<Statement>): seq<Reply> {
    if statements == [] then []
    else StatementReplies(f, statements[0]) + StatementsReplies(f, statements[1..])
  }

  function Replies(req: Request): seq<Reply> {
    match req
    case Startup(f, password) => if password then [Reply(AUTHENTICATION, true, [f])] else Begun(f)
    case Password(f) => Begun(f)
    case Prepare(f) => [Completing(PARSE_COMPLETE, f)]
    case Describe(f, returnsRows) =>
      [Plain(PARAMETER_DESCRIPTION), Completing(if returnsRows then ROW_DESCRIPTION else NO_DATA, f)]
    case Bind(f) => [Plain(BIND_COMPLETE)]
    case Call(f, sync, rows, outcome) =>
      [Plain(BIND_COMPLETE)] + (Rows(rows) + [Ended(outcome, f)]) + (if sync then [Plain(READY_FOR_QUERY)] else [])
    case Exec(f, rows, outcome) => Rows(rows) + [Ended(outcome, f)]
    case Close(f) => [Completing(CLOSE_COMPLETE, f)]
    case Query(f, _, statements) =>
      StatementsReplies(f, statements)
        + (if statements == [] then [Plain(EMPTY_QUERY)] else []) + [Plain(READY_FOR_QUERY)]
  }

  function Copies(f: Fn, n: nat): seq<Fn> {
    seq(n, _ => f)
  }

  /** The callbacks that a request pushes, and the functions it marks. */
  function Pushes(req: Request): seq<Fn> {
    if req.Query? then Copies(req.f, req.queries) else [req.f]
  }

  function Marks(req: Request): set<Fn> {
    if req.Query? && req.queries > 0 then {req.f} else {}
  }

  function Asked(c: Session, req: Request): Session {
    c.(callbacks := c.callbacks + Pushes(req), marked := c.marked + Marks(req))
  }

  /** The parser calls `onMessage` for this reply. */
  predicate Heard(r: Reply) {
    r.kind !in {DATA_ROW, PARAMETER_STATUS, PARAMETER_DESCRIPTION} && (r.kind == AUTHENTICATION ==> r.md5)
  }

  function Take(c: Session, r: Reply): Session {
    if Heard(r) then OnMessage(c, r.kind) else c
  }

  // ------------------------------------------------------------ replies that fire their own callbacks

  /** Every one of these replies fires the callback of the request it completes, and only that. */
  predicate Matches(c: Session, rs: seq<Reply>)
    decreases |rs|
  {
    rs == [] ||
    var d := Take(c, rs[0]);
    !d.failed && d.fired == c.fired + rs[0].owner && Matches(d, rs[1..])
  }

  function Final(c: Session, rs: seq<Reply>): Session
    decreases |rs|
  {
    if rs == [] then c else Final(Take(c, rs[0]), rs[1..])
  }

  /** What is under way fires its own callbacks and leaves none behind. */
  predicate Good(c: Session, rs: seq<Reply>) {
    !c.failed && Matches(c, rs) && Final(c, rs).callbacks == []
  }

  function Owners(rs: seq<Reply>): seq<Fn> {
    if rs == [] then [] else rs[0].owner + Owners(rs[1..])
  }

  lemma {:induction false} FinalAppend(c: Session, a: seq<Reply>, b: seq<Reply>)
    ensures Matches(c, a + b) <==> Matches(c, a) && Matches(Final(c, a), b)
    ensures Final(c, a + b) == Final(Final(c, a), b)
    decreases |a|
  {
    if a == [] {
      assert a + b == b;
    } else {
      assert (a + b)[1..] == a[1..] + b;
      FinalAppend(Take(c, a[0]), a[1..], b);
    }
  }

  lemma {:induction false} OwnersAppend(a: seq<Reply>, b: seq<Reply>)
    ensures Owners(a + b) == Owners(a) + Owners(b)
    decreases |a|
  {
    if a == [] {
      assert a + b == b;
    } else {
      assert (a + b)[1..] == a[1..] + b;
      OwnersAppend(a[1..], b);
    }
  }

  /** What fires in the end is what is owned, and the queue is first in, first out. */
  lemma {:induction false} FiredByOwners(c: Session, rs: seq<Reply>)
    requires !c.failed && Matches(c, rs)
    ensures var d := Final(c, rs);
      && !d.failed && d.marked == c.marked
      && d.fired == c.fired + Owners(rs) && c.callbacks == Owners(rs) + d.callbacks
      && (d.authenticated <==> c.authenticated || exists k :: 0 <= k < |rs| && rs[k].kind == READY_FOR_QUERY)
    decreases |rs|
  {
    hide Take;
    if rs != [] {
      TakeOne(c, rs[0]);
      FiredByOwners(Take(c, rs[0]), rs[1..]);
      SomeReady(rs);
    }
  }

  lemma SomeReady(rs: seq<Reply>)
    requires rs != []
    ensures (exists k :: 0 <= k < |rs| && rs[k].kind == READY_FOR_QUERY)
       <==> rs[0].kind == READY_FOR_QUERY || exists k :: 0 <= k < |rs[1..]| && rs[1..][k].kind == READY_FOR_QUERY
  {
    if k :| 0 <= k < |rs| && rs[k].kind == READY_FOR_QUERY {
      if k > 0 { assert rs[1..][k - 1].kind == READY_FOR_QUERY; }
    }
    if k :| 0 <= k < |rs[1..]| && rs[1..][k].kind == READY_FOR_QUERY {
      assert rs[k + 1].kind == READY_FOR_QUERY;
    }
  }

  lemma TakeOne(c: Session, r: Reply)
    ensures var d := Take(c, r);
      && d.marked == c.marked
      && (d.authenticated <==> c.authenticated || r.kind == READY_FOR_QUERY)
      && (!c.failed && !d.failed && d.fired == c.fired + r.owner ==> c.callbacks == r.owner + d.callbacks)
  {
    var d := Take(c, r);
    assert d == c || d == c.(authenticated := true) || d.failed || (c.callbacks != [] && d.callbacks == c.callbacks[1..]
      && d.fired == c.fired + [c.callbacks[0]]);
    if !c.failed && !d.failed && d.fired == c.fired + r.owner {
      assert r.owner == d.fired[|c.fired|..];
    }
  }

  // ------------------------------------------------------------ asking while replies are under way

  function More(c: Session, extra: seq<Fn>, marks: set<Fn>): Session {
    c.(callbacks := c.callbacks + extra, marked := c.marked + marks)
  }

  /** A row description that is to fire a function of `marks`. */
  predicate Awaits(rs: seq<Reply>, marks: set<Fn>) {
    exists k :: 0 <= k < |rs| && rs[k].kind == ROW_DESCRIPTION && rs[k].owner != [] && rs[k].owner[0] in marks
  }

  /** Callbacks pushed behind do not disturb what is under way; a mark does exactly if a row description is
      still to fire the marked function. */
  lemma {:induction false} MoreMatches(c: Session, rs: seq<Reply>, extra: seq<Fn>, marks: set<Fn>)
    requires !c.failed && Matches(c, rs)
    ensures Matches(More(c, extra, marks), rs) <==> !Awaits(rs, marks)
    ensures !Awaits(rs, marks) ==> Final(More(c, extra, marks), rs) == More(Final(c, rs), extra, marks)
    decreases |rs|
  {
    if rs != [] {
      var d := Take(c, rs[0]);
      MoreMatches(d, rs[1..], extra, marks);
      TakeMore(c, rs[0], extra, marks);
      AwaitsFirst(rs, marks);
    }
  }

  lemma AwaitsFirst(rs: seq<Reply>, marks: set<Fn>)
    requires rs != []
    ensures Awaits(rs, marks) <==> Awaits([rs[0]], marks) || Awaits(rs[1..], marks)
  {
    assert forall k :: 1 <= k < |rs| ==> rs[k] == rs[1..][k - 1];
    if Awaits(rs[1..], marks) {
      var k :| 0 <= k < |rs[1..]| && rs[1..][k].kind == ROW_DESCRIPTION && rs[1..][k].owner != []
        && rs[1..][k].owner[0] in marks;
      assert rs[k + 1] == rs[1..][k];
    }
    assert [rs[0]][0] == rs[0];
    if Awaits(rs, marks) {
      var k :| 0 <= k < |rs| && rs[k].kind == ROW_DESCRIPTION && rs[k].owner != [] && rs[k].owner[0] in marks;
      if k > 0 { assert rs[1..][k - 1] == rs[k]; } else { assert Awaits([rs[0]], marks); }
    }
  }

  lemma TakeMore(c: Session, r: Reply, extra: seq<Fn>, marks: set<Fn>)
    requires var d := Take(c, r); !c.failed && !d.failed && d.fired == c.fired + r.owner
    ensures var d, e := Take(c, r), Take(More(c, extra, marks), r);
      && (Awaits([r], marks) ==> e.fired != c.fired + r.owner)
      && (!Awaits([r], marks) ==> e == More(d, extra, marks))
  {
    var d := Take(c, r);
    assert [r][0] == r;
    if c.callbacks != [] {
      assert (c.callbacks + extra)[0] == c.callbacks[0] && (c.callbacks + extra)[1..] == c.callbacks[1..] + extra;
    }
    if r.kind == ROW_DESCRIPTION {
      assert c.callbacks != [];
      var h := c.callbacks[0];
      if h in c.marked {
        assert |r.owner| == 0;
      } else {
        assert r.owner == d.fired[|c.fired|..] == [h];
        if h in marks { assert Awaits([r], marks); }
      }
    }
  }

  // ------------------------------------------------------------ a request's own replies

  /** A request whose replies, taken with nothing else under way, complete it. */
  predicate Completes(req: Request, marked: set<Fn>, authenticated: bool) {
    match req
    case Startup(_, password) => password || !authenticated
    case Password(_) => !authenticated
    case Prepare(_) => true
    case Describe(f, returnsRows) => !(returnsRows && f in marked)
    case Bind(_) => false
    case Call(_, sync, _, outcome) => outcome == Completed && (sync ==> authenticated)
    case Exec(_, _, outcome) => outcome == Completed
    case Close(_) => true
    case Query(_, queries, statements) => queries == |statements| && authenticated
  }

  /** Messages that are no one's completion pass. */
  lemma {:induction false} RowsPass(c: Session, n: nat)
    requires !c.failed
    ensures Matches(c, Rows(n)) && Final(c, Rows(n)) == c
    decreases n
  {
    if n > 0 {
      assert Rows(n)[1..] == Rows(n - 1);
      assert Take(c, Rows(n)[0]) == c;
      RowsPass(c, n - 1);
    }
  }

  lemma One(c: Session, r: Reply)
    ensures Matches(c, [r]) <==> !Take(c, r).failed && Take(c, r).fired == c.fired + r.owner
    ensures Final(c, [r]) == Take(c, r)
  {
    assert |[r][1..]| == 0;
  }

  lemma ExecutionReplies(c: Session, f: Fn, rows: nat, outcome: Outcome)
    requires !c.failed && c.callbacks == [f]
    ensures var rs := Rows(rows) + [Ended(outcome, f)]; Matches(c, rs)
    ensures var rs := Rows(rows) + [Ended(outcome, f)];
      Final(c, rs) == if outcome == Completed then c.(callbacks := [], fired := c.fired + [f]) else c
  {
    RowsPass(c, rows);
    FinalAppend(c, Rows(rows), [Ended(outcome, f)]);
    One(c, Ended(outcome, f));
  }

  lemma OneStatement(c: Session, f: Fn, n: nat, s: Statement)
    requires !c.failed && c.callbacks == Copies(f, n) && (n > 0 ==> f in c.marked)
    ensures Matches(c, StatementReplies(f, s)) <==> n > 0
    ensures n > 0 ==> Final(c, StatementReplies(f, s)) == c.(callbacks := Copies(f, n - 1), fired := c.fired + [f])
  {
    var front := if s.described then [Plain(ROW_DESCRIPTION)] else [];
    var last := Completing(COMMAND_COMPLETE, f);
    One(c, Plain(ROW_DESCRIPTION));
    RowsPass(c, s.rows);
    FinalAppend(c, front, Rows(s.rows));
    FinalAppend(c, front + Rows(s.rows), [last]);
    One(c, last);
    if n > 0 { assert Copies(f, n)[1..] == Copies(f, n - 1); }
  }

  lemma {:induction false} AllStatements(c: Session, f: Fn, n: nat, statements: seq<Statement>)
    requires !c.failed && c.callbacks == Copies(f, n) && (n > 0 ==> f in c.marked)
    ensures Matches(c, StatementsReplies(f, statements)) <==> n >= |statements|
    ensures n >= |statements| ==>
              var d := Final(c, StatementsReplies(f, statements));
              d == c.(callbacks := Copies(f, n - |statements|), fired := d.fired)
    decreases |statements|
  {
    if statements != [] {
      var first, rest := StatementReplies(f, statements[0]), StatementsReplies(f, statements[1..]);
      OneStatement(c, f, n, statements[0]);
      FinalAppend(c, first, rest);
      if n > 0 { AllStatements(Final(c, first), f, n - 1, statements[1..]); }
    }
  }

  lemma QueryReplies(c: Session, f: Fn, queries: nat, statements: seq<Statement>)
    requires !c.failed && c.callbacks == Copies(f, queries) && (queries > 0 ==> f in c.marked)
    ensures Good(c, Replies(Query(f, queries, statements))) <==> queries == |statements| && c.authenticated
  {
    var all, ready := StatementsReplies(f, statements), Plain(READY_FOR_QUERY);
    var empty := if statements == [] then [Plain(EMPTY_QUERY)] else [];
    AllStatements(c, f, queries, statements);
    FinalAppend(c, all, empty);
    FinalAppend(c, all + empty, [ready]);
    var d := Final(c, all);
    One(d, Plain(EMPTY_QUERY));
    One(d, ready);
    assert Final(d, empty) == d;
    if queries >= |statements| {
      assert Final(c, all + empty) == d && d.authenticated == c.authenticated;
    }
  }

  lemma BegunReplies(c: Session, f: Fn)
    requires !c.failed && c.callbacks == [f]
    ensures Good(c, Begun(f)) <==> !c.authenticated
  {
    var a, k, z := Plain(AUTHENTICATION), Plain(BACKEND_KEY_DATA), Completing(READY_FOR_QUERY, f);
    FinalAppend(c, [a], [k]);
    FinalAppend(c, [a] + [k], [z]);
    assert Begun(f) == [a] + [k] + [z];
    One(c, a);
    One(c, k);
    One(c, z);
  }

  /** Asked with nothing under way, a request is completed exactly under its own condition. */
  lemma AloneCompletes(c: Session, req: Request)
    requires !c.failed && c.callbacks == []
    ensures Good(Asked(c, req), Replies(req)) <==> Completes(req, c.marked, c.authenticated)
  {
    hide Matches, Final, StatementsReplies, Begun, Rows;
    var d := Asked(c, req);
    assert d.callbacks == Pushes(req);
    match req
    case Startup(f, password) =>
      if password { One(d, Reply(AUTHENTICATION, true, [f])); } else { BegunReplies(d, f); }
    case Password(f) => BegunReplies(d, f);
    case Prepare(f) => One(d, Completing(PARSE_COMPLETE, f));
    case Describe(f, returnsRows) =>
      var p, r := Plain(PARAMETER_DESCRIPTION), Completing(if returnsRows then ROW_DESCRIPTION else NO_DATA, f);
      assert Replies(req) == [p] + [r];
      FinalAppend(d, [p], [r]);
      One(d, p);
      One(d, r);
    case Bind(_) => One(d, Plain(BIND_COMPLETE));
    case Call(f, sync, rows, outcome) => CallReplies(d, f, sync, rows, outcome);
    case Exec(f, rows, outcome) => ExecutionReplies(d, f, rows, outcome);
    case Close(f) => One(d, Completing(CLOSE_COMPLETE, f));
    case Query(f, queries, statements) => QueryReplies(d, f, queries, statements);
  }

  lemma CallReplies(d: Session, f: Fn, sync: bool, rows: nat, outcome: Outcome)
    requires !d.failed && d.callbacks == [f]
    ensures Good(d, Replies(Call(f, sync, rows, outcome))) <==> outcome == Completed && (sync ==> d.authenticated)
  {
    var b, body, z := Plain(BIND_COMPLETE), Rows(rows) + [Ended(outcome, f)], Plain(READY_FOR_QUERY);
    ExecutionReplies(d, f, rows, outcome);
    One(d, b);
    FinalAppend(d, [b], body);
    FinalAppend(d, [b] + body, [z]);
    One(Final(d, [b] + body), z);
    assert [b] + body + [] == [b] + body;
  }

  /** The number of completions that a request is owed is fixed by its replies. */
  lemma OwnersOf(req: Request)
    ensures !req.Query? ==>
      Owners(Replies(req)) ==
        (if req.Bind? || ((req.Call? || req.Exec?) && req.outcome != Completed) then [] else [req.f])
    ensures req.Query? ==> Owners(Replies(req)) == Copies(req.f, |req.statements|)
  {
    hide StatementsReplies, Rows, Copies;
    match req
    case Startup(f, password) => OwnersOne(Reply(AUTHENTICATION, true, [f])); OwnersOfBegun(f);
    case Password(f) => OwnersOfBegun(f);
    case Prepare(f) => OwnersOne(Completing(PARSE_COMPLETE, f));
    case Describe(f, returnsRows) =>
      var p, r := Plain(PARAMETER_DESCRIPTION), Completing(if returnsRows then ROW_DESCRIPTION else NO_DATA, f);
      OwnersAppend([p], [r]);
      OwnersOne(p);
      OwnersOne(r);
      assert [p, r] == [p] + [r];
    case Bind(_) => OwnersOne(Plain(BIND_COMPLETE));
    case Call(f, sync, rows, outcome) =>
      var b, body, z := Plain(BIND_COMPLETE), Rows(rows) + [Ended(outcome, f)], Plain(READY_FOR_QUERY);
      OwnersOfExecution(f, rows, outcome);
      OwnersOne(b);
      OwnersOne(z);
      OwnersAppend([b], body);
      OwnersAppend([b] + body, if sync then [z] else []);
    case Exec(f, rows, outcome) => OwnersOfExecution(f, rows, outcome);
    case Close(f) => OwnersOne(Completing(CLOSE_COMPLETE, f));
    case Query(f, _, statements) =>
      var all, ready := StatementsReplies(f, statements), Plain(READY_FOR_QUERY);
      var empty := if statements == [] then [Plain(EMPTY_QUERY)] else [];
      OwnersOfStatements(f, statements);
      OwnersOne(Plain(EMPTY_QUERY));
      OwnersOne(ready);
      OwnersAppend(all, empty);
      OwnersAppend(all + empty, [ready]);
  }

  lemma OwnersOne(r: Reply)
    ensures Owners([r]) == r.owner
  {
    assert |[r][1..]| == 0;
  }

  lemma OwnersOfBegun(f: Fn)
    ensures Owners(Begun(f)) == [f]
  {
    var a, k, z := Plain(AUTHENTICATION), Plain(BACKEND_KEY_DATA), Completing(READY_FOR_QUERY, f);
    OwnersAppend([a], [k]);
    OwnersAppend([a] + [k], [z]);
    assert Begun(f) == [a] + [k] + [z];
    OwnersOne(a);
    OwnersOne(k);
    OwnersOne(z);
  }

  lemma OwnersOfExecution(f: Fn, rows: nat, outcome: Outcome)
    ensures Owners(Rows(rows) + [Ended(outcome, f)]) == if outcome == Completed then [f] else []
  {
    var c := Session([f], {}, true, [], false);
    ExecutionReplies(c, f, rows, outcome);
    FiredByOwners(c, Rows(rows) + [Ended(outcome, f)]);
  }

  lemma OwnersOfStatements(f: Fn, statements: seq<Statement>)
    ensures Owners(StatementsReplies(f, statements)) == Copies(f, |statements|)
  {
    var n := |statements|;
    var c := Session(Copies(f, n), {f}, true, [], false);
    AllStatements(c, f, n, statements);
    FiredByOwners(c, StatementsReplies(f, statements));
    assert Copies(f, 0) == [];
  }

  /** No reply of these is ReadyForQuery. */
  predicate Unready(rs: seq<Reply>) {
    forall k :: 0 <= k < |rs| ==> rs[k].kind != READY_FOR_QUERY
  }

  lemma {:induction false} StatementsUnready(f: Fn, statements: seq<Statement>)
    ensures Unready(StatementsReplies(f, statements))
    decreases |statements|
  {
    if statements != [] { StatementsUnready(f, statements[1..]); }
  }

  /** Whatever stands before it in the queue, a request can be matched only under its own condition. */
  lemma MustComplete(c: Session, req: Request, marked: set<Fn>)
    requires !c.failed && c.marked == marked + Marks(req)
    requires Matches(c, Replies(req)) && |Owners(Replies(req))| == |Pushes(req)|
    ensures Completes(req, marked, c.authenticated) && Owners(Replies(req)) == Pushes(req)
  {
    hide Matches, Final, StatementsReplies, Begun, Rows, Owners, OnMessage;
    OwnersOf(req);
    match req
    case Startup(f, password) => if !password { MustBegin(c, f); }
    case Password(f) => MustBegin(c, f);
    case Describe(f, returnsRows) => if returnsRows { MustDescribe(c, f); }
    case Call(f, sync, rows, outcome) =>
      if sync {
        var front := [Plain(BIND_COMPLETE)] + (Rows(rows) + [Ended(outcome, f)]);
        assert Unready(front) by { RowsUnready(rows); }
        MustBeReady(c, front);
      }
    case Query(f, queries, statements) =>
      var front := StatementsReplies(f, statements) + (if statements == [] then [Plain(EMPTY_QUERY)] else []);
      StatementsUnready(f, statements);
      MustBeReady(c, front);
    case _ =>
  }

  lemma RowsUnready(n: nat)
    ensures Unready(Rows(n))
  {
  }

  lemma MustBegin(c: Session, f: Fn)
    requires !c.failed && Matches(c, Begun(f))
    ensures !c.authenticated
  {
    var a, k, z := Plain(AUTHENTICATION), Plain(BACKEND_KEY_DATA), Completing(READY_FOR_QUERY, f);
    FinalAppend(c, [a], [k]);
    FinalAppend(c, [a] + [k], [z]);
    assert Begun(f) == [a] + [k] + [z];
    One(c, a);
    One(c, k);
    One(c, z);
  }

  lemma MustDescribe(c: Session, f: Fn)
    requires !c.failed && Matches(c, Replies(Describe(f, true)))
    ensures f !in c.marked
  {
    var p, r := Plain(PARAMETER_DESCRIPTION), Completing(ROW_DESCRIPTION, f);
    assert Replies(Describe(f, true)) == [p] + [r];
    FinalAppend(c, [p], [r]);
    One(c, p);
    One(c, r);
    assert Take(c, r).fired[|c.fired|..] == [f];
  }

  lemma MustBeReady(c: Session, front: seq<Reply>)
    requires !c.failed && Matches(c, front + [Plain(READY_FOR_QUERY)]) && Unready(front)
    ensures c.authenticated
  {
    hide Matches, Final;
    FinalAppend(c, front, [Plain(READY_FOR_QUERY)]);
    FiredByOwners(c, front);
    One(Final(c, front), Plain(READY_FOR_QUERY));
  }

  // ------------------------------------------------------------ client, server and what is between them

  /** Calls appended to a compiled statement and not yet sent, requests on their way, what the server has still
      to say about the one it is at, what is on its way back, and what the client has taken; and all callbacks
      ever pushed. */
  datatype System = System(
    client: Session, waiting: seq<Request>, wire: seq<Request>, due: seq<Reply>, incoming: seq<Reply>,
    taken: seq<Reply>, pushed: seq<Fn>)

  const START := System(FRESH, [], [], [], [], [], [])

  datatype Action = Ask(req: Request) | Append(call: Request) | Send | Serve | Say | Remark(kind: byte) | Receive

  predicate Enabled(s: System, a: Action) {
    match a
    case Ask(_) => true
    case Append(call) => call.Call?
    case Send => true
    case Serve => s.wire != [] && s.due == []
    case Say => s.due != []
    case Remark(kind) => kind in {NOTICE, NOTIFICATION, PARAMETER_STATUS}
    case Receive => s.incoming != []
  }

  function Next(s: System, a: Action): System
    requires Enabled(s, a)
  {
    match a
    case Ask(req) => s.(client := Asked(s.client, req), wire := s.wire + [req], pushed := s.pushed + Pushes(req))
    case Append(call) =>
      s.(client := Asked(s.client, call), waiting := s.waiting + [call], pushed := s.pushed + Pushes(call))
    case Send => s.(wire := s.wire + s.waiting, waiting := [])
    case Serve => s.(wire := s.wire[1..], due := Replies(s.wire[0]))
    case Say => s.(due := s.due[1..], incoming := s.incoming + [s.due[0]])
    case Remark(kind) => s.(incoming := s.incoming + [Plain(kind)])
    case Receive =>
      s.(client := Take(s.client, s.incoming[0]), incoming := s.incoming[1..], taken := s.taken + [s.incoming[0]])
  }

  function AllReplies(wire: seq<Request>): seq<Reply> {
    if wire == [] then [] else AllReplies(wire[..|wire| - 1]) + Replies(wire[|wire| - 1])
  }

  /** What comes back for requests that have been written. */
  function Sent(s: System): seq<Reply> {
    s.incoming + (s.due + AllReplies(s.wire))
  }

  function Pending(s: System): seq<Reply> {
    Sent(s) + AllReplies(s.waiting)
  }

  /** The session is authenticated, or will be when what has been written is answered. */
  predicate Ready(s: System) {
    s.client.authenticated || !Unready(Sent(s))
  }

  /** What waits is a call that completes. */
  predicate WaitingCompletes(s: System) {
    forall w :: w in s.waiting ==> w.Call? && Completes(w, {}, Ready(s))
  }

  /** What is pending fires its own callbacks; and so far every completion has, in the order of the pushes. */
  predicate Inv(s: System) {
    && Good(s.client, Pending(s)) && WaitingCompletes(s)
    && s.client.fired == Owners(s.taken)
    && s.pushed == s.client.fired + s.client.callbacks
  }

  /** Written at once, the request overtakes the calls that wait: no harm if it pushes no callback, or if all
      have the same one. */
  predicate InTurn(s: System, req: Request) {
    Pushes(req) == [] || forall w :: w in s.waiting ==> w.f == req.f
  }

  /** What a caller has to see to: the request is one that its replies complete; it marks no function that a row
      description is still to fire; and it is not written past appended calls with another callback. */
  predicate Polite(s: System, a: Action) {
    match a
    case Ask(req) => Completes(req, s.client.marked, Ready(s)) && !Awaits(Sent(s), Marks(req)) && InTurn(s, req)
    case Append(call) => Completes(call, s.client.marked, Ready(s))
    case _ => true
  }

  lemma NoReplies(wire: seq<Request>)
    requires |wire| == 0
    ensures AllReplies(wire) == []
  {
  }

  lemma RepliesSnoc(wire: seq<Request>, req: Request)
    ensures AllReplies(wire + [req]) == AllReplies(wire) + Replies(req)
  {
    assert (wire + [req])[..|wire|] == wire;
  }

  lemma {:induction false} RepliesAppend(a: seq<Request>, b: seq<Request>)
    ensures AllReplies(a + b) == AllReplies(a) + AllReplies(b)
    decreases |b|
  {
    hide Replies, AllReplies;
    if b == [] {
      NoReplies(b);
      assert a + b == a;
    } else {
      var init, last := b[..|b| - 1], b[|b| - 1];
      assert b == init + [last] && a + b == (a + init) + [last];
      RepliesAppend(a, init);
      RepliesSnoc(init, last);
      RepliesSnoc(a + init, last);
      assert AllReplies(a) + AllReplies(init) + Replies(last) == AllReplies(a) + (AllReplies(init) + Replies(last));
    }
  }

  lemma AllRepliesFront(wire: seq<Request>)
    requires wire != []
    ensures AllReplies(wire) == Replies(wire[0]) + AllReplies(wire[1..])
  {
    hide Replies;
    assert wire == [wire[0]] + wire[1..];
    RepliesAppend([wire[0]], wire[1..]);
    RepliesSnoc([], wire[0]);
    assert [] + [wire[0]] == [wire[0]];
  }

  /** The callbacks of calls, in order. */
  function Fns(calls: seq<Request>): seq<Fn> {
    seq(|calls|, i requires 0 <= i < |calls| => calls[i].f)
  }

  /** One call that completes, at the head of the queue. */
  lemma CallInTurn(c: Session, call: Request)
    requires !c.failed && call.Call? && Completes(call, {}, c.authenticated)
    requires c.callbacks != [] && c.callbacks[0] == call.f
    ensures Matches(c, Replies(call))
    ensures Final(c, Replies(call)) == c.(callbacks := c.callbacks[1..], fired := c.fired + [call.f])
  {
    hide Replies;
    var rest := c.callbacks[1..];
    var d := c.(callbacks := [call.f]);
    CallReplies(d, call.f, call.sync, call.rows, call.outcome);
    CallFinal(d, call);
    MoreMatches(d, Replies(call), rest, {});
    assert More(d, rest, {}) == c;
  }

  lemma CallFinal(d: Session, call: Request)
    requires !d.failed && call.Call? && Completes(call, {}, d.authenticated) && d.callbacks == [call.f]
    ensures Final(d, Replies(call)) == d.(callbacks := [], fired := d.fired + [call.f])
  {
    var b, body, z := Plain(BIND_COMPLETE), Rows(call.rows) + [Ended(call.outcome, call.f)], Plain(READY_FOR_QUERY);
    ExecutionReplies(d, call.f, call.rows, call.outcome);
    One(d, b);
    FinalAppend(d, [b], body);
    FinalAppend(d, [b] + body, [z]);
    One(Final(d, [b] + body), z);
    assert [b] + body + [] == [b] + body;
  }

  /** Calls that complete are matched by a queue that begins with their callbacks. */
  lemma {:induction false} CallsMatch(c: Session, calls: seq<Request>, rest: seq<Fn>)
    requires !c.failed && c.callbacks == Fns(calls) + rest
    requires forall w :: w in calls ==> w.Call? && Completes(w, {}, c.authenticated)
    ensures Matches(c, AllReplies(calls))
    ensures Final(c, AllReplies(calls)) == c.(callbacks := rest, fired := c.fired + Fns(calls))
    decreases |calls|
  {
    hide Matches, Final, Replies, Completes;
    if calls == [] {
      NoReplies(calls);
      NothingTaken(c);
      assert c.callbacks == rest && c.fired + Fns(calls) == c.fired;
    } else {
      var n := |calls| - 1;
      var init, last := calls[..n], calls[n];
      assert Fns(calls) == Fns(init) + [last.f];
      assert c.callbacks == Fns(init) + ([last.f] + rest);
      CallsMatch(c, init, [last.f] + rest);
      var d := Final(c, AllReplies(init));
      CallInTurn(d, last);
      FinalAppend(c, AllReplies(init), Replies(last));
    }
  }

  lemma NothingTaken(c: Session)
    ensures Matches(c, []) && Final(c, []) == c
  {
  }

  lemma OwnersOfCalls(calls: seq<Request>)
    requires forall w :: w in calls ==> w.Call? && Completes(w, {}, true)
    ensures Owners(AllReplies(calls)) == Fns(calls)
  {
    var c := Session(Fns(calls), {}, true, [], false);
    CallsMatch(c, calls, []);
    FiredByOwners(c, AllReplies(calls));
  }

  /** Two orders of the same callbacks, of which the first have all one function. */
  lemma OneFunction(mine: seq<Fn>, others: seq<Fn>, f: Fn)
    requires mine != [] && forall k :: 0 <= k < |mine| ==> mine[k] == f
    ensures mine + others == others + mine <==> forall k :: 0 <= k < |others| ==> others[k] == f
  {
    var m, n := |mine|, |others|;
    if mine + others == others + mine { OthersToo(mine, others, f, n); }
    if forall k :: 0 <= k < n ==> others[k] == f {
      var a, b := mine + others, others + mine;
      assert forall k :: 0 <= k < m + n ==> a[k] == (if k < m then mine[k] else others[k - m]) == f;
      assert forall k :: 0 <= k < m + n ==> b[k] == (if k < n then others[k] else mine[k - n]) == f;
      assert a == b;
    }
  }

  lemma {:induction false} OthersToo(mine: seq<Fn>, others: seq<Fn>, f: Fn, n: nat)
    requires mine != [] && (forall k :: 0 <= k < |mine| ==> mine[k] == f) && mine + others == others + mine
    requires n <= |others|
    ensures forall k :: 0 <= k < n ==> others[k] == f
  {
    if n > 0 {
      OthersToo(mine, others, f, n - 1);
      var k := n - 1;
      assert (others + mine)[k] == others[k];
      if k < |mine| {
        assert (mine + others)[k] == mine[k];
      } else {
        assert (mine + others)[k] == others[k - |mine|];
      }
    }
  }

  /** A request put in front of calls that wait, when nothing else is under way. */
  lemma Overtakes(e: Session, req: Request, calls: seq<Request>)
    requires !e.failed && e.callbacks == Fns(calls)
    requires forall w :: w in calls ==> w.Call? && Completes(w, {}, e.authenticated)
    ensures Good(Asked(e, req), Replies(req) + AllReplies(calls)) <==>
            && Completes(req, e.marked, e.authenticated)
            && (Pushes(req) == [] || forall w :: w in calls ==> w.f == req.f)
  {
    hide Matches, Final, Replies, Completes, Owners, Pushes, Marks;
    var g, mine, own := Asked(e, req), Replies(req), Pushes(req);
    var rest := AllReplies(calls);
    FinalAppend(g, mine, rest);
    SameFunctions(req, calls);
    OwnersOfCallsAt(calls, e.authenticated);
    if Good(g, mine + rest) {
      FiredByOwners(g, mine + rest);
      OwnersAppend(mine, rest);
      assert |Owners(mine)| == |own|;
      MustComplete(g, req, e.marked);
    }
    if Completes(req, e.marked, e.authenticated) && own + Fns(calls) == Fns(calls) + own {
      var z := e.(callbacks := []);
      AloneCompletes(z, req);
      assert Asked(z, req).callbacks == own;
      MoreMatches(Asked(z, req), mine, Fns(calls), {});
      assert More(Asked(z, req), Fns(calls), {}) == g;
      var d := Final(Asked(z, req), mine);
      FiredByOwners(Asked(z, req), mine);
      assert More(d, Fns(calls), {}).callbacks == Fns(calls) + [];
      StillCompletes(calls, e.authenticated, d.authenticated);
      CallsMatch(More(d, Fns(calls), {}), calls, []);
    }
  }

  lemma StillCompletes(calls: seq<Request>, now: bool, later: bool)
    requires (now ==> later) && forall w :: w in calls ==> w.Call? && Completes(w, {}, now)
    ensures forall w :: w in calls ==> w.Call? && Completes(w, {}, later)
  {
  }

  lemma OwnersOfCallsAt(calls: seq<Request>, authenticated: bool)
    requires forall w :: w in calls ==> w.Call? && Completes(w, {}, authenticated)
    ensures Owners(AllReplies(calls)) == Fns(calls)
  {
    StillCompletes(calls, authenticated, true);
    OwnersOfCalls(calls);
  }

  lemma SameFunctions(req: Request, calls: seq<Request>)
    ensures Pushes(req) + Fns(calls) == Fns(calls) + Pushes(req) <==>
            Pushes(req) == [] || forall w :: w in calls ==> w.f == req.f
  {
    var own, others := Pushes(req), Fns(calls);
    if own == [] {
      assert own + others == others == others + own;
    } else {
      OneFunction(own, others, req.f);
      if forall k :: 0 <= k < |others| ==> others[k] == req.f {
        forall w | w in calls ensures w.f == req.f {
          var k :| 0 <= k < |calls| && calls[k] == w;
          assert others[k] == w.f;
        }
      }
    }
  }

  /** Where the client is when it has taken all that was written. */
  lemma AfterSent(s: System)
    requires Inv(s)
    ensures var e := Final(s.client, Sent(s));
      && Matches(s.client, Sent(s)) && !e.failed && e.marked == s.client.marked
      && e.authenticated == Ready(s) && e.callbacks == Fns(s.waiting)
  {
    hide Matches, Final, Replies, Completes, Owners;
    var c := s.client;
    FinalAppend(c, Sent(s), AllReplies(s.waiting));
    FiredByOwners(c, Sent(s));
    FiredByOwners(Final(c, Sent(s)), AllReplies(s.waiting));
    OwnersOfCallsAt(s.waiting, Ready(s));
  }

  /** A request that is written at once keeps the match exactly if it is polite. */
  lemma AskKeeps(s: System, req: Request)
    requires Inv(s)
    ensures Good(Next(s, Ask(req)).client, Pending(Next(s, Ask(req)))) <==> Polite(s, Ask(req))
  {
    hide Matches, Final, Replies, Completes, Owners, Pushes, Marks, AllReplies, Ready;
    var t, c, sent, rest := Next(s, Ask(req)), s.client, Sent(s), AllReplies(s.waiting);
    var extra, marks := Pushes(req), Marks(req);
    AfterSent(s);
    var e := Final(c, sent);
    assert t.client == More(c, extra, marks);
    RepliesSnoc(s.wire, req);
    assert Sent(t) == sent + Replies(req);
    assert Pending(t) == sent + (Replies(req) + rest);
    MoreMatches(c, sent, extra, marks);
    FinalAppend(t.client, sent, Replies(req) + rest);
    assert More(e, extra, marks) == Asked(e, req);
    Overtakes(e, req, s.waiting);
  }

  /** A call that is appended keeps the match exactly if it completes. */
  lemma AppendKeeps(s: System, call: Request)
    requires Inv(s) && call.Call?
    ensures Good(Next(s, Append(call)).client, Pending(Next(s, Append(call)))) <==> Polite(s, Append(call))
  {
    hide Matches, Final, Replies, Owners, AllReplies, Ready;
    var t, c, rs := Next(s, Append(call)), s.client, Pending(s);
    RepliesSnoc(s.waiting, call);
    assert Sent(t) == Sent(s);
    assert Pending(t) == rs + Replies(call);
    assert t.client == More(c, [call.f], {});
    NoneAwaited(rs);
    MoreMatches(c, rs, [call.f], {});
    FiredByOwners(c, rs);
    FinalAppend(t.client, rs, Replies(call));
    AfterSent(s);
    WaitingTaken(s);
    assert More(Final(c, rs), [call.f], {}) == Asked(Final(c, rs), call);
    AloneCompletes(Final(c, rs), call);
  }

  lemma NoneAwaited(rs: seq<Reply>)
    ensures !Awaits(rs, {})
  {
  }

  /** Calls that wait bring no authentication with them. */
  lemma WaitingTaken(s: System)
    requires Inv(s)
    ensures Final(s.client, Pending(s)).authenticated == Ready(s)
  {
    hide Matches, Replies, Completes, Owners, AllReplies, Ready;
    AfterSent(s);
    var e := Final(s.client, Sent(s));
    assert e.callbacks == Fns(s.waiting) + [];
    CallsMatch(e, s.waiting, []);
    FinalAppend(s.client, Sent(s), AllReplies(s.waiting));
  }

  lemma RemarkPasses(c: Session, r: Reply)
    requires r.kind in {NOTICE, NOTIFICATION, PARAMETER_STATUS} && r.owner == [] && !c.failed
    ensures Take(c, r) == c && Matches(c, [r]) && Final(c, [r]) == c
  {
    One(c, r);
  }

  lemma RemarkKeeps(s: System, kind: byte)
    requires Inv(s) && Enabled(s, Remark(kind))
    ensures Good(s.client, Pending(Next(s, Remark(kind))))
  {
    hide Matches, Final, Take, AllReplies, Owners;
    var r, c, rest := Plain(kind), s.client, s.due + AllReplies(s.wire) + AllReplies(s.waiting);
    assert Pending(s) == s.incoming + rest;
    FinalAppend(c, s.incoming, rest);
    FiredByOwners(c, s.incoming);
    RemarkPasses(Final(c, s.incoming), r);
    FinalAppend(c, s.incoming, [r]);
    FinalAppend(c, s.incoming + [r], rest);
    assert Pending(Next(s, Remark(kind))) == s.incoming + [r] + rest;
  }

  lemma ReceiveKeeps(s: System)
    requires Inv(s) && Enabled(s, Receive)
    ensures var t := Next(s, Receive);
      Good(t.client, Pending(t)) && t.client.fired == Owners(t.taken) && t.pushed == t.client.fired + t.client.callbacks
  {
    hide Take, AllReplies;
    var r := s.incoming[0];
    assert Pending(s)[0] == r && Pending(s)[1..] == Pending(Next(s, Receive));
    TakeOne(s.client, r);
    OwnersAppend(s.taken, [r]);
    OwnersOne(r);
  }

  /** Nothing that a client or a server does takes readiness back. */
  lemma ReadyStays(s: System, a: Action)
    requires Enabled(s, a) && Ready(s)
    ensures Ready(Next(s, a))
  {
    hide Matches, Final, Replies, Owners, AllReplies;
    var t := Next(s, a);
    match a
    case Ask(req) =>
      RepliesSnoc(s.wire, req);
      SubReady(Sent(s), [], Replies(req));
      assert Sent(t) == [] + Sent(s) + Replies(req);
    case Append(_) =>
    case Send =>
      RepliesAppend(s.wire, s.waiting);
      SubReady(Sent(s), [], AllReplies(s.waiting));
      assert Sent(t) == [] + Sent(s) + AllReplies(s.waiting);
    case Serve =>
      AllRepliesFront(s.wire);
      assert Sent(t) == Sent(s);
    case Say => assert Sent(t) == Sent(s);
    case Remark(kind) =>
      var rest := s.due + AllReplies(s.wire);
      assert Sent(s) == s.incoming + rest && Sent(t) == s.incoming + [Plain(kind)] + rest;
      SubReady(s.incoming, [], [Plain(kind)] + rest);
      SubReady(rest, s.incoming + [Plain(kind)], []);
      assert s.incoming + [Plain(kind)] + rest + [] == Sent(t) == [] + s.incoming + ([Plain(kind)] + rest);
      EitherReady(s.incoming, rest);
    case Receive =>
      TakeOne(s.client, s.incoming[0]);
      assert Sent(s) == [s.incoming[0]] + Sent(t);
      EitherReady([s.incoming[0]], Sent(t));
  }

  lemma SubReady(rs: seq<Reply>, front: seq<Reply>, back: seq<Reply>)
    ensures !Unready(rs) ==> !Unready(front + rs + back)
  {
    if !Unready(rs) {
      var k :| 0 <= k < |rs| && rs[k].kind == READY_FOR_QUERY;
      assert (front + rs + back)[|front| + k] == rs[k];
    }
  }

  lemma EitherReady(a: seq<Reply>, b: seq<Reply>)
    ensures !Unready(a + b) ==> !Unready(a) || !Unready(b)
  {
    if Unready(a) && Unready(b) {
      assert forall k :: 0 <= k < |a + b| ==> (a + b)[k] == if k < |a| then a[k] else b[k - |a|];
    }
  }

  lemma SendKeeps(s: System)
    ensures Pending(Next(s, Send)) == Pending(s)
  {
    hide Replies, AllReplies;
    RepliesAppend(s.wire, s.waiting);
    NoReplies(Next(s, Send).waiting);
    assert Sent(Next(s, Send)) == Sent(s) + AllReplies(s.waiting);
  }

  /** A step keeps the match exactly if it is polite; and only requests can be impolite. */
  lemma StepExact(s: System, a: Action)
    requires Inv(s) && Enabled(s, a)
    ensures Inv(Next(s, a)) <==> Polite(s, a)
    ensures Good(Next(s, a).client, Pending(Next(s, a))) <==> Polite(s, a)
  {
    hide Matches, Final, Owners, AllReplies, Replies, Completes, Good, Ready;
    var t := Next(s, a);
    if Ready(s) { ReadyStays(s, a); }
    StillCompletes(s.waiting, Ready(s), Ready(t));
    match a
    case Ask(req) => AskKeeps(s, req);
    case Append(call) =>
      AppendKeeps(s, call);
      ReadyBack(s, call);
      CallUnmarked(call, s.client.marked, Ready(s));
    case Send => SendKeeps(s);
    case Serve =>
      AllRepliesFront(s.wire);
      assert Sent(t) == Sent(s);
    case Say => assert Sent(t) == Sent(s);
    case Remark(kind) => RemarkKeeps(s, kind);
    case Receive => ReceiveKeeps(s);
  }

  lemma ReadyBack(s: System, call: Request)
    requires call.Call?
    ensures Ready(Next(s, Append(call))) == Ready(s)
  {
    assert Sent(Next(s, Append(call))) == Sent(s);
  }

  lemma CallUnmarked(call: Request, marked: set<Fn>, authenticated: bool)
    requires call.Call?
    ensures Completes(call, marked, authenticated) == Completes(call, {}, authenticated)
  {
  }

  // ------------------------------------------------------------ runs

  predicate Possible(s: System, actions: seq<Action>)
    decreases |actions|
  {
    actions == [] || (Enabled(s, actions[0]) && Possible(Next(s, actions[0]), actions[1..]))
  }

  function After(s: System, actions: seq<Action>): System
    requires Possible(s, actions)
    decreases |actions|
  {
    if actions == [] then s else After(Next(s, actions[0]), actions[1..])
  }

  /** A run in which every request is polite when it is made. */
  predicate Run(s: System, actions: seq<Action>)
    decreases |actions|
  {
    actions == [] ||
    (Enabled(s, actions[0]) && Polite(s, actions[0]) && Run(Next(s, actions[0]), actions[1..]))
  }

  lemma {:induction false} RunKeeps(s: System, actions: seq<Action>)
    requires Inv(s) && Run(s, actions)
    ensures Possible(s, actions) && Inv(After(s, actions))
    decreases |actions|
  {
    hide Inv, Polite, Enabled, Next;
    if actions != [] {
      StepExact(s, actions[0]);
      RunKeeps(Next(s, actions[0]), actions[1..]);
    }
  }

  lemma StartInv()
    ensures Inv(START)
  {
    assert Pending(START) == [];
  }

  /** In every polite run, pipelined or appended as its requests may be: the queue is never shifted when empty;
      the callbacks fired so far are the first ones pushed, each once, and each by the completion of the request
      that pushed it; and the ones still queued are those of the completions still to come. */
  lemma RepliesMatchRequests(actions: seq<Action>)
    requires Run(START, actions)
    ensures Possible(START, actions)
    ensures var s := After(START, actions);
      && !s.client.failed
      && s.client.fired == Owners(s.taken) && s.client.fired <= s.pushed
      && s.client.callbacks == s.pushed[|s.client.fired|..] == Owners(Pending(s))
  {
    hide Run, Possible, After;
    StartInv();
    RunKeeps(START, actions);
    var s := After(START, actions);
    FiredByOwners(s.client, Pending(s));
  }

  // ------------------------------------------------------------ what an impolite step comes to

  /** The queue has been shifted when empty, a completion has fired another callback than its own, or all is
      answered and a callback is left over. */
  predicate Broken(s: System) {
    s.client.failed || s.client.fired != Owners(s.taken) || (Pending(s) == [] && s.client.callbacks != [])
  }

  lemma RunOne(s: System, a: Action, run: seq<Action>)
    requires Enabled(s, a) && Possible(Next(s, a), run)
    ensures Possible(s, [a] + run) && After(s, [a] + run) == After(Next(s, a), run)
  {
    assert ([a] + run)[1..] == run;
  }

  /** With nothing on its way back yet, something moves on without changing what is pending. */
  lemma Onward(s: System) returns (a: Action)
    requires s.incoming == [] && Pending(s) != []
    ensures Enabled(s, a)
    ensures var t := Next(s, a);
      && Pending(t) == Pending(s) && t.client == s.client && t.taken == s.taken && t.pushed == s.pushed
      && (|t.waiting| < |s.waiting|
          || (t.waiting == s.waiting && (|t.wire| < |s.wire| || (t.wire == s.wire && |t.due| < |s.due|))))
  {
    hide Replies, AllReplies;
    if s.due != [] {
      a := Say;
      assert Sent(Next(s, a)) == Sent(s);
    } else if s.wire != [] {
      a := Serve;
      AllRepliesFront(s.wire);
      assert Sent(Next(s, a)) == Sent(s);
    } else {
      a := Send;
      NoReplies(s.wire);
      if s.waiting == [] {
        NoReplies(s.waiting);
        assert false;
      }
      SendKeeps(s);
    }
  }

  lemma Received(s: System)
    requires s.incoming != []
    ensures var t, rs := Next(s, Receive), Pending(s);
      && rs != [] && Pending(t) == rs[1..] && t.client == Take(s.client, rs[0]) && t.taken == s.taken + [rs[0]]
      && t.pushed == s.pushed
  {
    hide Take, AllReplies;
    assert Pending(s) == [s.incoming[0]] + Pending(Next(s, Receive));
  }

  /** Without further requests, the client can take as many of the pending replies as there are. */
  lemma {:induction false} Taking(s: System, k: nat) returns (run: seq<Action>)
    requires k <= |Pending(s)|
    ensures Possible(s, run)
    ensures var t, rs := After(s, run), Pending(s);
      && t.client == Final(s.client, rs[..k]) && t.taken == s.taken + rs[..k] && Pending(t) == rs[k..]
      && t.pushed == s.pushed
    decreases k, |s.waiting|, |s.wire|, |s.due|
  {
    hide Take, Replies, AllReplies, Possible, After, Next, Pending, Enabled, Final;
    var rs := Pending(s);
    if k == 0 {
      run := [];
      NoSteps(s);
      NothingTaken(s.client);
      assert rs[..0] == [] && rs[0..] == rs && s.taken + [] == s.taken;
    } else if s.incoming != [] {
      assert Enabled(s, Receive) by { CanReceive(s); }
      Received(s);
      run := Taking(Next(s, Receive), k - 1);
      RunOne(s, Receive, run);
      run := [Receive] + run;
      FrontTaken(s.client, s.taken, rs, k);
    } else {
      var a := Onward(s);
      run := Taking(Next(s, a), k);
      RunOne(s, a, run);
      run := [a] + run;
    }
  }

  lemma CanReceive(s: System)
    requires s.incoming != []
    ensures Enabled(s, Receive)
  {
  }

  lemma FrontTaken(c: Session, taken: seq<Reply>, rs: seq<Reply>, k: nat)
    requires 0 < k <= |rs|
    ensures Final(c, rs[..k]) == Final(Take(c, rs[0]), rs[1..][..k - 1])
    ensures taken + rs[..k] == taken + [rs[0]] + rs[1..][..k - 1] && rs[k..] == rs[1..][k - 1..]
  {
    hide Take;
    assert rs[..k][1..] == rs[1..][..k - 1];
    assert rs[..k] == [rs[0]] + rs[1..][..k - 1];
  }

  lemma NoSteps(s: System)
    ensures Possible(s, []) && After(s, []) == s
  {
  }

  /** Where replies do not match, there is a first place where that shows. */
  lemma {:induction false} FirstMismatch(c: Session, rs: seq<Reply>) returns (k: nat)
    requires !c.failed && !Good(c, rs)
    ensures k <= |rs|
    ensures var d := Final(c, rs[..k]);
      d.failed || d.fired != c.fired + Owners(rs[..k]) || (k == |rs| && d.callbacks != [])
    decreases |rs|
  {
    hide Take;
    if rs == [] {
      k := 0;
    } else {
      var d := Take(c, rs[0]);
      assert rs[..1] == [rs[0]] && rs[..1][1..] == [];
      if d.failed || d.fired != c.fired + rs[0].owner {
        k := 1;
        OwnersOne(rs[0]);
      } else {
        var j := FirstMismatch(d, rs[1..]);
        k := j + 1;
        assert rs[..k][1..] == rs[1..][..j];
        assert d.fired + Owners(rs[1..][..j]) == c.fired + (rs[0].owner + Owners(rs[1..][..j]));
      }
    }
  }

  /** After an impolite request the server's answers alone can bring the mismatch about. */
  lemma ImpoliteShows(s: System, a: Action) returns (run: seq<Action>)
    requires Inv(s) && Enabled(s, a) && !Polite(s, a)
    ensures Possible(Next(s, a), run) && Broken(After(Next(s, a), run))
  {
    hide Completes, Awaits, InTurn, Owners, Final, Possible, After, AllReplies;
    StepExact(s, a);
    var t := Next(s, a);
    assert t.client.fired == s.client.fired && t.taken == s.taken && !t.client.failed;
    var k := FirstMismatch(t.client, Pending(t));
    run := Taking(t, k);
    OwnersAppend(t.taken, Pending(t)[..k]);
  }

  /** From the start: a session begins, a call of `f` is appended, one of `g` is written at once, and then the
      first is sent.  Each completion fires the other's callback. */
  lemma AppendOvertaken(h: Fn, f: Fn, g: Fn) returns (run: seq<Action>)
    requires f != g
    ensures Possible(START, run)
    ensures var s := After(START, run);
      && Pending(s) == [] && s.pushed == [h, f, g] && s.client.fired == [h, f, g] && Owners(s.taken) == [h, g, f]
  {
    hide Take, Replies, AllReplies, Possible, After, Owners, Matches, Final;
    var first, call, other := Startup(h, false), Call(f, true, 0, Completed), Call(g, true, 0, Completed);
    var s1 := Next(START, Ask(first));
    Begins(h);
    var begin := Taking(s1, |Pending(s1)|);
    var s2 := After(s1, begin);
    assert Pending(s1)[..|Pending(s1)|] == Pending(s1);
    assert s1.taken + Begun(h) == Begun(h) == s2.taken;
    var s3 := Next(s2, Append(call));
    var s4 := Next(s3, Ask(other));
    Crossed(s2, h, f, g);
    var rest := Taking(s4, |Pending(s4)|);
    assert Pending(s4)[..|Pending(s4)|] == Pending(s4);
    RunOne(s3, Ask(other), rest);
    RunOne(s2, Append(call), [Ask(other)] + rest);
    RunBoth(s1, begin, [Append(call)] + ([Ask(other)] + rest));
    run := begin + ([Append(call)] + ([Ask(other)] + rest));
    RunOne(START, Ask(first), run);
    run := [Ask(first)] + run;
    OwnersAppend(s2.taken, Pending(s4));
  }

  lemma {:induction false} RunBoth(s: System, a: seq<Action>, b: seq<Action>)
    requires Possible(s, a) && Possible(After(s, a), b)
    ensures Possible(s, a + b) && After(s, a + b) == After(After(s, a), b)
    decreases |a|
  {
    hide Next, Enabled;
    if a == [] {
      assert a + b == b;
    } else {
      assert (a + b)[1..] == a[1..] + b;
      RunBoth(Next(s, a[0]), a[1..], b);
    }
  }

  lemma Begins(h: Fn)
    ensures var s := Next(START, Ask(Startup(h, false)));
      && Pending(s) == Begun(h) && Owners(Begun(h)) == [h] && s.pushed == [h]
      && Final(s.client, Begun(h)) == Session([], {}, true, [h], false)
  {
    var s := Next(START, Ask(Startup(h, false)));
    RepliesSnoc([], Startup(h, false));
    assert Pending(s) == Begun(h);
    OwnersOfBegun(h);
    var a, k, z := Plain(AUTHENTICATION), Plain(BACKEND_KEY_DATA), Completing(READY_FOR_QUERY, h);
    FinalAppend(s.client, [a], [k]);
    FinalAppend(s.client, [a] + [k], [z]);
    assert Begun(h) == [a] + [k] + [z];
    One(s.client, a);
    One(s.client, k);
    One(s.client, z);
  }

  lemma Crossed(s: System, h: Fn, f: Fn, g: Fn)
    requires s.client == Session([], {}, true, [h], false) && s.pushed == [h] && Pending(s) == []
    ensures var call, other := Call(f, true, 0, Completed), Call(g, true, 0, Completed);
      var t := Next(Next(s, Append(call)), Ask(other));
      && Pending(t) == Replies(other) + Replies(call) && t.pushed == [h, f, g] && t.taken == s.taken
      && Final(t.client, Pending(t)) == Session([], {}, true, [h, f, g], false)
      && Owners(Pending(t)) == [g, f]
  {
    hide Matches, Final, Owners, Replies, AllReplies;
    var call, other := Call(f, true, 0, Completed), Call(g, true, 0, Completed);
    var t := Next(Next(s, Append(call)), Ask(other));
    assert s.incoming == [] && s.due == [] && AllReplies(s.wire) == [] && AllReplies(s.waiting) == [];
    RepliesSnoc(s.waiting, call);
    RepliesSnoc(s.wire, other);
    assert Pending(t) == Replies(other) + Replies(call);
    OwnersOf(call);
    OwnersOf(other);
    OwnersAppend(Replies(other), Replies(call));
    assert t.client.callbacks == [f, g];
    AnyCall(t.client, other);
    AnyCall(Final(t.client, Replies(other)), call);
    FinalAppend(t.client, Replies(other), Replies(call));
  }

  /** A call that completes fires the head of the queue, whosesoever it is. */
  lemma AnyCall(c: Session, call: Request)
    requires !c.failed && c.authenticated && c.callbacks != []
    requires call.Call? && call.rows == 0 && call.outcome == Completed
    ensures Final(c, Replies(call)) == c.(callbacks := c.callbacks[1..], fired := c.fired + [c.callbacks[0]])
  {
    var b, last, z := Plain(BIND_COMPLETE), Completing(COMMAND_COMPLETE, call.f), Plain(READY_FOR_QUERY);
    hide Matches, Final;
    assert Rows(0) == [];
    FinalAppend(c, [b], [last]);
    FinalAppend(c, [b] + [last], [z]);
    One(c, b);
    One(c, last);
    One(Final(c, [b] + [last]), z);
    assert [b] + (Rows(0) + [last]) == [b] + [last];
    assert [b] + [last] + [] == [b] + [last];
  }

  /** One function both queried with and described with: its row description fires nothing, and the queue is
      one behind from then on. */
  lemma SharedFunctionBreaks(f: Fn, g: Fn)
    requires f != g
    ensures var c := Session([f, g], {f}, true, [], false);
      && !Matches(c, Replies(Describe(f, true)) + Replies(Prepare(g)))
      && Final(c, Replies(Describe(f, true)) + Replies(Prepare(g))).fired == [f]
  {
    var c := Session([f, g], {f}, true, [], false);
    var p, r, e := Plain(PARAMETER_DESCRIPTION), Completing(ROW_DESCRIPTION, f), Completing(PARSE_COMPLETE, g);
    assert Replies(Describe(f, true)) == [p] + [r];
    FinalAppend(c, [p], [r]);
    FinalAppend(c, [p] + [r], [e]);
    One(c, p);
    One(c, r);
    One(c, e);
  }

  // ------------------------------------------------------------ the code

  /** What `setupSocket` closes over. */
  class Transport {
    var callbacks: seq<Fn>
    var execs: set<Fn>          // the functions with `isExec` set
    var authenticated: bool
    var waiting: seq<Request>   // appended to the statement's own buffer
    var sent: seq<Request>
    ghost var fired: seq<Fn>

    ghost function State(): Session
      reads this
    {
      Session(callbacks, execs, authenticated, fired, false)
    }

    constructor ()
      ensures State() == FRESH && waiting == [] && sent == []
    {
      callbacks, execs, authenticated, waiting, sent, fired := [], {}, false, [], [], [];
    }

    /** `start`, `authenticate`, and the request functions of a compiled query. */
    method Send(req: Request)
      requires !req.Query?
      modifies `sent, `callbacks
      ensures State() == Asked(old(State()), req) && sent == old(sent) + [req]
    {
      sent := sent + [req];
      callbacks := callbacks + [req.f];
    }

    /** `execQuery` */
    method ExecQuery(req: Request)
      requires req.Query?
      modifies `sent, `callbacks, `execs
      ensures State() == Asked(old(State()), req) && sent == old(sent) + [req]
    {
      for i := 0 to req.queries
        invariant callbacks == old(callbacks) + Copies(req.f, i)
        invariant execs == old(execs) + (if i > 0 then {req.f} else {})
        invariant sent == old(sent)
      {
        execs := execs + {req.f};
        callbacks := callbacks + [req.f];
      }
      sent := sent + [req];
    }

    /** `append`: the callback is pushed at once, the call is not yet written. */
    method Append(call: Request)
      requires call.Call?
      modifies `waiting, `callbacks
      ensures State() == Asked(old(State()), call) && waiting == old(waiting) + [call]
    {
      waiting := waiting + [call];
      callbacks := callbacks + [call.f];
    }

    /** `send`: one write of what waits. */
    method SendAppended()
      modifies `waiting, `sent
      ensures sent == old(sent) + old(waiting) && waiting == []
    {
      sent := sent + waiting;
      waiting := [];
    }

    /** `callbacks.shift()()`; false if there was nothing to shift. */
    method Shift() returns (ok: bool)
      modifies `callbacks, `fired
      ensures ok == !Fire(old(State())).failed && (ok ==> State() == Fire(old(State())))
    {
      if callbacks == [] { return false; }
      fired := fired + [callbacks[0]];
      callbacks := callbacks[1..];
      ok := true;
    }

    /** `onMessage` */
    method Message(kind: byte) returns (ok: bool)
      modifies `callbacks, `authenticated, `fired
      ensures ok == !OnMessage(old(State()), kind).failed && (ok ==> State() == OnMessage(old(State()), kind))
    {
      ok := true;
      if kind == COMMAND_COMPLETE { ok := Shift(); return; }
      if kind == CLOSE_COMPLETE { ok := Shift(); return; }
      if kind == READY_FOR_QUERY {
        if !authenticated {
          authenticated := true;
          ok := Shift();
        }
        return;
      }
      if kind == ERROR_RESPONSE { ok := Shift(); return; }
      if kind == ROW_DESCRIPTION {
        if callbacks == [] { return false; }
        if callbacks[0] !in execs { ok := Shift(); return; }
      }
      if kind == AUTHENTICATION || kind == PARSE_COMPLETE || kind == NO_DATA { ok := Shift(); }
    }
  }
}
