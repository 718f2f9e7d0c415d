/**
 One connection's session: the dispatch loop of postgresql/protocol/server_impl.go and the handlers of
 postgresql/server_query_handler.go, as functions from state to state.
 */
module Session {
  import opened BigEndian
  import opened Errors
  import opened Inputs
  import opened Requests
  import opened Responses
  import Frontend
  import CopyFrames
  import StartupMessage

  /** A parsed SQL statement, as far as the server looks at it. `Unhandled` is a type its switch does not name. */
  datatype Stmt =
    | Begin(id: int)
    | Commit(id: int)
    | Rollback(id: int)
    | Copy(id: int, columns: seq<GoString>)
    | Run(id: int)
    | Unhandled(id: int)

  type CopiedRow = seq<(GoString, GoString)>   // column names with their literals

  /** What reaches an executor. */
  datatype Call = Do(stmt: Stmt) | StartCopy(stmt: Stmt) | InsertCopied(stmt: Stmt, row: CopiedRow)

  /** What an executor returns; a failure is an error it made itself. */
  datatype Answer = Answer(responses: seq<Response>, failure: Option<int>)

  datatype Parsing = Statements(stmts: seq<Stmt>) | Empty | Rejected(code: int)

  /** What the server is told of a user and a password. */
  datatype Credential = Granted | Denied | Unverified(code: int)

  /** Everything the server calls but does not define. Executors may answer by the whole history of calls; the
      connection may refuse any write; bytes may or may not have arrived when the loop looks for a next request. */
  datatype Env = Env(
    parse: GoString -> Parsing,
    bound: (GoString, seq<BindParam>) -> Parsing,
    parserError: (GoString, seq<BindParam>, int) -> Answer,
    answer: seq<Call> -> Answer,
    schema: (seq<Call>, Stmt) -> Result<seq<GoString>>,
    oids: (seq<Call>, Stmt) -> Result<seq<int>>,
    verify: (GoString, GoString) -> Credential,
    greeting: StartupMessage.Startup -> Answer,
    errorText: Error -> GoString,
    arrived: nat -> bool,
    writeOk: nat -> bool)

  datatype PreparedStatement = PreparedStatement(name: GoString, query: GoString, types: seq<int>, stmt: Stmt)

  /** A portal is a copy of the query text and the parameters at the time of Bind. */
  datatype Portal = Portal(text: GoString, params: seq<BindParam>)

  datatype State = State(
    input: Input,
    stmts: map<GoString, PreparedStatement>,
    portals: map<GoString, Portal>,
    locked: bool,
    calls: seq<Call>,
    out: seq<Response>,
    writes: nat)
  {
    /** `this` after some steps that started in `before`. */
    predicate Follows(before: State) {
      && input.cuts == before.input.cuts
      && |input.Stream()| <= |before.input.Stream()|
      && (before.input.Tidy() ==> input.Tidy())
      && before.calls <= calls
      && before.out <= out
    }
  }

  datatype Reply = Reply(state: State, responses: seq<Response>, err: Option<Error>)

  // Transactions, as the executors saw them.

  /** The last BEGIN, COMMIT or ROLLBACK that reached an executor was a BEGIN. */
  predicate Open(calls: seq<Call>) {
    calls != [] &&
    match calls[|calls| - 1]
    case Do(Begin(_)) => true
    case Do(Commit(_)) => false
    case Do(Rollback(_)) => false
    case _ => Open(calls[..|calls| - 1])
  }

  /** BEGIN reached an executor only outside a transaction, COMMIT and ROLLBACK only inside one. */
  predicate Bracketed(calls: seq<Call>) {
    calls == [] ||
    (var before := calls[..|calls| - 1];
     Bracketed(before) &&
     match calls[|calls| - 1]
     case Do(Begin(_)) => !Open(before)
     case Do(Commit(_)) => Open(before)
     case Do(Rollback(_)) => Open(before)
     case _ => true)
  }

  /** The lock mirrors the executors' view. */
  predicate TxSafe(st: State) {
    Bracketed(st.calls) && (st.locked <==> Open(st.calls))
  }

  const UNLOCKED := Some(Crash(UnlockOfFreeMutex))

  /** A step keeps the mirror, unless it is the fatal unlock of a free mutex, and then the calls show why. */
  predicate TxStep(before: State, after: State, err: Option<Error>) {
    TxSafe(before) ==> if err == UNLOCKED then !Bracketed(after.calls) else TxSafe(after)
  }

  // Writing to the connection.

  function Write(env: Env, st: State, r: Response): (res: (State, Option<Error>))
    ensures res.0.Follows(st) && TxStep(st, res.0, res.1)
    ensures res.1 == None || res.1 == Some(WriteFailed)
  {
    if env.writeOk(st.writes) then
      (st.(out := st.out + [r], writes := st.writes + 1), None)
    else
      (st.(writes := st.writes + 1), Some(WriteFailed))
  }

  /** `ResponseMessages`: stops at the first write that fails. */
  function WriteAll(env: Env, st: State, rs: seq<Response>): (res: (State, Option<Error>))
    ensures res.0.Follows(st) && TxStep(st, res.0, res.1)
    ensures res.1 == None || res.1 == Some(WriteFailed)
    decreases |rs|
  {
    if rs == [] then (st, None)
    else
      var (st1, w) := Write(env, st, rs[0]);
      if w.Some? then (st1, w) else WriteAll(env, st1, rs[1..])
  }

  // Executors.

  function Perform(env: Env, st: State, c: Call): (State, Answer) {
    var calls := st.calls + [c];
    (st.(calls := calls), env.answer(calls))
  }

  function Failed(a: Answer): (e: Option<Error>)
    ensures e != UNLOCKED
  {
    if a.failure.None? then None else Some(External(a.failure.value))
  }

  lemma PerformTx(env: Env, st: State, c: Call)
    requires TxSafe(st)
    ensures var calls := Perform(env, st, c).0.calls;
      && (c.Do? && c.stmt.Begin? ==> Open(calls) && (Bracketed(calls) <==> !st.locked))
      && (c.Do? && (c.stmt.Commit? || c.stmt.Rollback?) ==> !Open(calls) && (Bracketed(calls) <==> st.locked))
      && (!(c.Do? && (c.stmt.Begin? || c.stmt.Commit? || c.stmt.Rollback?)) ==> TxSafe(st.(calls := calls)))
  {
    var calls := st.calls + [c];
    assert calls[..|calls| - 1] == st.calls;
  }

  // COPY.

  /** `NewCopyQueryFrom`: one column per field, an empty field becoming NULL. */
  function CopiedColumns(columns: seq<GoString>, fields: seq<GoString>): CopiedRow
    requires |columns| == |fields|
  {
    seq(|columns|, k requires 0 <= k < |columns| =>
      (columns[k], if fields[k] == [] then [78, 85, 76, 76] else fields[k]))
  }

  /** One line: a wrong number of fields fails before any executor is called. */
  function OfferLine(env: Env, st: State, s: Stmt, columns: seq<GoString>,
      fields: seq<GoString>): (res: (State, Option<Error>))
    ensures res.0.Follows(st) && (TxSafe(st) ==> TxSafe(res.0)) && res.0.input == st.input && res.0.out == st.out
  {
    if |fields| != |columns| then
      (st, Some(ColumnsNotEqual(|fields|, |columns|)))
    else
      var c := InsertCopied(s, CopiedColumns(columns, fields));
      var (st1, a) := Perform(env, st, c);
      assert TxSafe(st) ==> TxSafe(st1) by { if TxSafe(st) { PerformTx(env, st, c); } }
      (st1, Failed(a))
  }

  /** The loop of `NewCopyCompleteResponsesFrom` over the stream. */
  function CopyLoop(env: Env, st: State, s: Stmt, columns: seq<GoString>, nCopy: nat, nFail: nat): (r: Reply)
    ensures r.state.Follows(st) && TxStep(st, r.state, r.err) && r.err != UNLOCKED
    decreases |st.input.Stream()|
  {
    match CopyFrames.Next(st.input)
    case Ok(fields, i) =>
      var (st1, err) := OfferLine(env, st.(input := i), s, columns, fields);
      if err.Some? then CopyLoop(env, st1, s, columns, nCopy, nFail + 1)
      else CopyLoop(env, st1, s, columns, nCopy + 1, nFail)
    case Err(e, i) =>
      var st1 := st.(input := i);
      if e != Eof then Reply(st1, [], Some(e))
      else if 0 < nFail then Reply(st1, [], Some(CopyIncomplete(nCopy, nFail)))
      else Reply(st1, [CopyComplete(nCopy)], None)
  }

  /** The executor's side of the hand-off: it looks the table up and takes the stream. */
  function CopyDataStep(env: Env, st: State, s: Stmt): (r: Reply)
    requires s.Copy?
    ensures r.state.Follows(st) && TxStep(st, r.state, r.err) && r.err != UNLOCKED
  {
    match env.schema(st.calls, s)
    case Failure(e) => Reply(st, [], Some(External(0)))
    case Success(all) => CopyLoop(env, st, s, if s.columns == [] then all else s.columns, 0, 0)
  }

  /** The stream is entered only if CopyData is next. */
  function EnterStream(env: Env, st: State, s: Stmt): (r: Reply)
    requires s.Copy?
    ensures r.state.Follows(st) && TxStep(st, r.state, r.err) && r.err != UNLOCKED
  {
    match Peek(st.input, 1)
    case Err(e, i) => Reply(st.(input := i), [], Some(e))
    case Ok(t, i) =>
      if t[0] != Frontend.COPY_DATA then Reply(st.(input := i), [], None)
      else CopyDataStep(env, st.(input := i), s)
  }

  /** `handleCopyQuery`: the CopyIn response is written first. */
  function CopyStep(env: Env, st: State, s: Stmt): (r: Reply)
    requires s.Copy?
    ensures r.state.Follows(st) && TxStep(st, r.state, r.err) && r.err != UNLOCKED
  {
    var (st1, a) := Perform(env, st, StartCopy(s));
    assert TxSafe(st) ==> TxSafe(st1) by { if TxSafe(st) { PerformTx(env, st, StartCopy(s)); } }
    if a.failure.Some? || HasError(a.responses) then Reply(st1, a.responses, Failed(a))
    else
      var (st2, w) := WriteAll(env, st1, a.responses);
      if w.Some? then Reply(st2, [], w) else EnterStream(env, st2, s)
  }

  // Statements.

  /** COMMIT and ROLLBACK unlock whatever the executor answered, and unlocking a free mutex is fatal. */
  function EndTransaction(env: Env, st: State, s: Stmt): (r: Reply)
    requires s.Commit? || s.Rollback?
    ensures r.state.Follows(st) && TxStep(st, r.state, r.err)
  {
    var (st1, a) := Perform(env, st, Do(s));
    assert TxSafe(st) ==> !Open(st1.calls) && (Bracketed(st1.calls) <==> st.locked) by {
      if TxSafe(st) { PerformTx(env, st, Do(s)); }
    }
    if st.locked then Reply(st1.(locked := false), a.responses, Failed(a)) else Reply(st1, [], UNLOCKED)
  }

  /** One turn of the switch in `Query`. */
  function StatementStep(env: Env, st: State, s: Stmt): (r: Reply)
    ensures r.state.Follows(st) && TxStep(st, r.state, r.err)
  {
    match s
    case Begin(_) =>
      if st.locked then Reply(st, [], Some(TransactionBlocked))
      else
        var (st1, a) := Perform(env, st, Do(s));
        assert TxSafe(st) ==> TxSafe(st1.(locked := true)) by { if TxSafe(st) { PerformTx(env, st, Do(s)); } }
        Reply(st1.(locked := true), a.responses, Failed(a))
    case Commit(_) => EndTransaction(env, st, s)
    case Rollback(_) => EndTransaction(env, st, s)
    case Copy(_, _) => CopyStep(env, st, s)
    case Unhandled(_) => Reply(st, [], None)
    case Run(_) =>
      var (st1, a) := Perform(env, st, Do(s));
      assert TxSafe(st) ==> TxSafe(st1) by { if TxSafe(st) { PerformTx(env, st, Do(s)); } }
      Reply(st1, a.responses, Failed(a))
  }

  /** The statement loop of `Query`: responses are written at once, and writing them replaces the statement's own
      error; the loop stops at the first error that is left. */
  function StatementsStep(env: Env, st: State, ss: seq<Stmt>): (r: Reply)
    ensures r.state.Follows(st) && TxStep(st, r.state, r.err) && r.responses == []
    decreases |ss|
  {
    if ss == [] then Reply(st, [], None)
    else
      var r := StatementStep(env, st, ss[0]);
      if r.responses == [] then
        if r.err.Some? then Reply(r.state, [], r.err) else StatementsStep(env, r.state, ss[1..])
      else
        var (st1, w) := WriteAll(env, r.state, r.responses);
        if w.Some? then Reply(st1, [], w) else StatementsStep(env, st1, ss[1..])
  }

  /** `Query`, for a simple query and for the query of a portal alike. */
  function QueryStep(env: Env, st: State, q: Portal): (r: Reply)
    ensures r.state.Follows(st) && TxStep(st, r.state, r.err)
  {
    match env.bound(q.text, q.params)
    case Empty => Reply(st, [EMPTY_COMPLETE], None)
    case Rejected(code) =>
      var a := env.parserError(q.text, q.params, code);
      if a.failure.Some? then Reply(st, [], Failed(a)) else Reply(st, a.responses, None)
    case Statements(ss) => StatementsStep(env, st, ss)
  }

  // The extended query protocol.

  /** Why `SetPreparedStatement` refuses a query text, if it does. */
  function ParseError(env: Env, query: GoString): (e: Option<Error>)
    ensures e != UNLOCKED
    ensures e.None? <==> env.parse(query).Statements? && |env.parse(query).stmts| == 1
  {
    match env.parse(query)
    case Empty => Some(EmptyQuery)
    case Rejected(code) => Some(External(code))
    case Statements(ss) =>
      if 1 < |ss| then Some(MultipleStatements) else if ss == [] then Some(Crash(EmptyStatementList)) else None
  }

  function ParseStep(env: Env, st: State, name: GoString, query: GoString, types: seq<int>): (r: Reply)
    ensures r.state.Follows(st) && TxStep(st, r.state, r.err)
  {
    var e := ParseError(env, query);
    if e.Some? then Reply(st, [], e)
    else
      var s := PreparedStatement(name, query, types, env.parse(query).stmts[0]);
      Reply(st.(stmts := st.stmts[name := s]), [PARSE_COMPLETE], None)
  }

  function BindStep(st: State, portal: GoString, statement: GoString, params: seq<BindParam>): (r: Reply)
    ensures r.state.Follows(st) && TxStep(st, r.state, r.err)
  {
    if statement !in st.stmts then Reply(st, [], Some(StatementNotExist(statement)))
    else Reply(st.(portals := st.portals[portal := Portal(st.stmts[statement].query, params)]), [BIND_COMPLETE], None)
  }

  function DescribeStep(env: Env, st: State, kind: Frontend.Prepared, name: GoString): (r: Reply)
    ensures r.state.Follows(st) && TxStep(st, r.state, r.err)
  {
    if kind.Portal? then
      if name !in st.portals then Reply(st, [], Some(PortalNotExist(name))) else Reply(st, [NO_DATA], None)
    else if name !in st.stmts then Reply(st, [], Some(StatementNotExist(name)))
    else
      match env.oids(st.calls, st.stmts[name].stmt)
      case Failure(_) => Reply(st, [], Some(External(0)))
      case Success(oids) => Reply(st, [ParameterDescription(oids), NO_DATA], None)
  }

  function ExecuteStep(env: Env, st: State, portal: GoString): (r: Reply)
    ensures r.state.Follows(st) && TxStep(st, r.state, r.err)
  {
    if portal !in st.portals then Reply(st, [], Some(PortalNotExist(portal)))
    else QueryStep(env, st, st.portals[portal])
  }

  /** Closing what does not exist is not an error. */
  function CloseStep(st: State, kind: Frontend.Prepared, name: GoString): (r: Reply)
    ensures r.state.Follows(st) && TxStep(st, r.state, r.err)
  {
    Reply(if kind.Statement? then st.(stmts := st.stmts - {name}) else st.(portals := st.portals - {name}),
          [CLOSE_COMPLETE], None)
  }

  function Handle(env: Env, st: State, q: Request): (r: Reply)
    ensures r.state.Follows(st) && TxStep(st, r.state, r.err)
  {
    match q
    case Parse(name, query, types) => ParseStep(env, st, name, query, types)
    case Bind(portal, statement, params) => BindStep(st, portal, statement, params)
    case Describe(kind, name) => DescribeStep(env, st, kind, name)
    case Query(text) => QueryStep(env, st, Portal(text, []))
    case Execute(portal, _) => ExecuteStep(env, st, portal)
    case Close(kind, name) => CloseStep(st, kind, name)
    case Unsupported(t) => Reply(st, [], Some(NotSupported(t)))
    case _ => Reply(st, [], None)
  }

  // The dispatch loop.

  datatype Phase = Running | Closed | Crashed(fault: Fault)

  /** One turn of the loop: the request or why there was none, the error reported, the status sent if the turn ended
      in ReadyForQuery. */
  datatype Turn = Turn(state: State, phase: Phase, request: Result<Request>, err: Option<Error>, ready: Option<byte>)

  function Status(st: State): byte { if st.locked then IN_BLOCK else IDLE }

  /** `PeekTypeNonBlocking`: the deadline passes unless a byte is buffered or arrives in time. */
  function PeekNow(env: Env, i: Input, tick: nat): (r: Parsed<Bytes>)
    ensures i.Tidy() ==> r.next.Tidy()
    ensures r.next.cuts == i.cuts && |r.next.Stream()| <= |i.Stream()|
  {
    if i.peek != [] || env.arrived(tick) then Peek(i, 1) else Err(Timeout, i)
  }

  /** The handler's responses, then its error. */
  function Respond(env: Env, r: Reply): (res: (State, Option<Error>))
    ensures res.0.Follows(r.state) && TxStep(r.state, res.0, res.1)
    ensures res.1 == None || res.1 == Some(WriteFailed)
  {
    var (st, w) := WriteAll(env, r.state, r.responses);
    if w.Some? || r.err.None? then (st, w)
    else Write(env, st, ErrorResponse(env.errorText(r.err.value)))
  }

  /** ReadyForQuery, unless more input is pending. */
  function Ready(env: Env, st: State, tick: nat): (res: (State, Option<Error>, Option<byte>))
    ensures res.0.Follows(st) && TxStep(st, res.0, res.1)
    ensures res.1 == None || res.1 == Some(WriteFailed)
    ensures res.2.Some? ==> res.2.value == Status(res.0)
  {
    match PeekNow(env, st.input, tick)
    case Ok(_, i) => (st.(input := i), None, None)
    case Err(_, i) =>
      var (st1, w) := Write(env, st.(input := i), ReadyForQuery(Status(st)));
      (st1, w, if w.Some? then None else Some(Status(st)))
  }

  /** What follows the handler. */
  function Finish(env: Env, tick: nat, request: Result<Request>, r: Reply): (t: Turn)
    ensures t.state.Follows(r.state)
    ensures t.phase.Crashed? <==> r.err.Some? && r.err.value.Crash?
    ensures t.phase.Crashed? ==> t.state == r.state && r.err == Some(Crash(t.phase.fault))
    ensures !t.phase.Crashed? && TxSafe(r.state) ==> TxSafe(t.state)
    ensures t.ready.Some? ==> t.phase.Running? && t.ready.value == Status(t.state)
  {
    if r.err.Some? && r.err.value.Crash? then Turn(r.state, Crashed(r.err.value.fault), request, r.err, None)
    else
      var (st1, w1) := Respond(env, r);
      if w1.Some? then Turn(st1, Closed, request, w1, None)
      else
        var (st2, w2, ready) := Ready(env, st1, tick);
        if w2.Some? then Turn(st2, Closed, request, w2, None) else Turn(st2, Running, request, r.err, ready)
  }

  /** Reading and handling the next request, once its type byte has been peeked. */
  function Serve(env: Env, st: State, t: byte): (res: (Result<Request>, Reply))
    ensures res.1.state.Follows(st) && TxStep(st, res.1.state, res.1.err)
    ensures st.input.Stream() != [] ==> |res.1.state.input.Stream()| < |st.input.Stream()|
  {
    match Dispatch(st.input, t)
    case Err(e, i) => (Failure(e), Reply(st.(input := i), [], Some(e)))
    case Ok(q, i) => (Success(q), Handle(env, st.(input := i), q))
  }

  /** A turn whose type byte `t` has been peeked. */
  function TakeTurn(env: Env, st: State, t: byte, tick: nat): (turn: Turn)
    ensures turn.state.Follows(st)
    ensures st.input.Stream() != [] ==> |turn.state.input.Stream()| < |st.input.Stream()|
    ensures TxSafe(st) ==>
              if turn.phase == Crashed(UnlockOfFreeMutex) then !Bracketed(turn.state.calls) else TxSafe(turn.state)
    ensures turn.ready.Some? ==> turn.phase.Running? && turn.ready.value == Status(turn.state)
  {
    var (q, r) := Serve(env, st, t);
    if q == Success(Terminate) then Turn(r.state, Closed, q, None, None) else Finish(env, tick, q, r)
  }

  function Iterate(env: Env, st: State, tick: nat): (t: Turn)
    ensures t.state.Follows(st)
    ensures t.phase.Running? ==> |t.state.input.Stream()| < |st.input.Stream()|
  {
    match Peek(st.input, 1)
    case Err(e, i) =>
      var (st1, _) := Write(env, st.(input := i), ErrorResponse(env.errorText(e)));
      Turn(st1, Closed, Failure(e), Some(e), None)
    case Ok(b, i) => TakeTurn(env, st.(input := i), b[0], tick)
  }

  /** The loop until it ends; the turns are listed in order. */
  function Loop(env: Env, st: State, tick: nat): (res: (State, Phase, seq<Turn>))
    ensures !res.1.Running?
    decreases |st.input.Stream()|
  {
    var t := Iterate(env, st, tick);
    if t.phase.Running? then
      var (st1, phase, turns) := Loop(env, t.state, tick + 1);
      (st1, phase, [t] + turns)
    else
      (t.state, t.phase, [t])
  }

  // What comes before the loop.

  function Refuse(env: Env, st: State, e: Error): (res: (State, Phase)) {
    (Write(env, st, ErrorResponse(env.errorText(e))).0, Closed)
  }

  /** What is answered to a password, if it can be checked at all. */
  function JudgePassword(env: Env, m: StartupMessage.Startup, password: GoString): Result<Response>
    requires StartupMessage.USER in m.params
  {
    match env.verify(m.params[StartupMessage.USER], password)
    case Granted => Success(AUTHENTICATION_OK)
    case Denied => Success(EMPTY_ERROR)
    case Unverified(code) => Failure(External(code))
  }

  /** A client that names its user is asked for a password. */
  function Authenticate(env: Env, st: State, m: StartupMessage.Startup): (res: (State, Result<Response>)) {
    if StartupMessage.USER !in m.params then (st, Success(EMPTY_ERROR))
    else
      var (st1, w) := Write(env, st, CLEARTEXT_PASSWORD);
      if w.Some? then (st1, Failure(w.value))
      else
        match StartupMessage.PasswordRequest(st1.input)
        case Err(e, i) => (st1.(input := i), Failure(e))
        case Ok(password, i) => (st1.(input := i), JudgePassword(env, m, password))
  }

  /** The verdict, whatever it is, then the parameter statuses and the key data, then ReadyForQuery. */
  function Admit(env: Env, st: State, m: StartupMessage.Startup, verdict: Result<Response>): (res: (State, Phase)) {
    match verdict
    case Failure(e) => Refuse(env, st, e)
    case Success(r) =>
      var a := env.greeting(m);
      var (st1, w) := WriteAll(env, st, [r] + a.responses);
      if w.Some? then Refuse(env, st1, WriteFailed)
      else if a.failure.Some? then Refuse(env, st1, External(a.failure.value))
      else
        var (st2, w2) := Write(env, st1, ReadyForQuery(Status(st1)));
        if w2.Some? then Refuse(env, st2, WriteFailed) else (st2, Running)
  }

  function Greet(env: Env, st: State): (res: (State, Phase)) {
    match StartupMessage.StartupRequest(st.input)
    case Err(e, i) => Refuse(env, st.(input := i), e)
    case Ok(m, i) =>
      var (st1, verdict) := Authenticate(env, st.(input := i), m);
      Admit(env, st1, m, verdict)
  }

  /** An SSLRequest is answered with 'N' (no TLS configured); then the startup message is read and greeted. */
  function AfterLength(env: Env, st: State, length: int): (res: (State, Phase)) {
    if length != StartupMessage.SSL_REQUEST_LENGTH then Greet(env, st)
    else
      match StartupMessage.SslRequest(st.input)
      case Err(e, j) => Refuse(env, st.(input := j), e)
      case Ok(_, j) =>
        var (st1, w) := Write(env, st.(input := j), SSL_DISABLED);
        if w.Some? then (st1, Closed) else Greet(env, st1)
  }

  /** The first four bytes are peeked to tell an SSLRequest from a startup message. */
  function Hello(env: Env, st: State): (res: (State, Phase)) {
    match Peek(st.input, 4)
    case Err(e, i) => Refuse(env, st.(input := i), e)
    case Ok(b, i) => AfterLength(env, st.(input := i), Int32Of(b))
  }

  /** A whole connection: greeting, then the loop. */
  function Receive(env: Env, st: State): (State, Phase) {
    var (st1, phase) := Hello(env, st);
    if !phase.Running? then (st1, phase)
    else
      var (st2, phase2, _) := Loop(env, st1, 0);
      (st2, phase2)
  }
}
