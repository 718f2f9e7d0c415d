/**
 The connection object and the server's handlers and dispatch loop, as the mutable objects they are. Each method is
 proved against the state function of `Session` it carries out, and so inherits the laws proved about that function.
 */
module Server {
  import opened BigEndian
  import opened Errors
  import opened Inputs
  import opened PeekReader
  import opened Requests
  import opened Responses
  import opened Session
  import opened PreparedTable
  import opened PreparedMaps
  import opened Parsers
  import Frontend
  import CopyFrames
  import CopyLaws
  import PreparedLaws
  import QueryLaws
  import StartupMessage

  /** The SQL executors, which see every call made so far. */
  class Executor {
    var calls: seq<Call>

    constructor ()
      ensures calls == []
    {
      calls := [];
    }

    method Perform(env: Env, c: Call) returns (a: Answer)
      modifies this
      ensures calls == old(calls) + [c] && a == env.answer(calls)
    {
      calls := calls + [c];
      a := env.answer(calls);
    }
  }

  /** A connection: its reader, its transaction mutex and what has been written to it. */
  class Conn {
    const id: ConnId
    const reader: Reader
    var txMutex: bool          // held
    var out: seq<Response>
    var writes: nat

    constructor (id: ConnId, reader: Reader)
      ensures this.id == id && this.reader == reader && !txMutex && out == [] && writes == 0
    {
      this.id, this.reader, txMutex, out, writes := id, reader, false, [], 0;
    }

    method LockTransaction() returns (err: Option<Error>)
      modifies this`txMutex
      ensures txMutex && err == if old(txMutex) then Some(TransactionBlocked) else None
    {
      if txMutex {
        return Some(TransactionBlocked);
      }
      txMutex := true;
      return None;
    }

    /** Unlocking a free mutex is a fatal error. */
    method UnlockTransaction() returns (err: Option<Error>)
      modifies this`txMutex
      ensures !txMutex && err == if old(txMutex) then None else UNLOCKED
    {
      if !txMutex {
        return UNLOCKED;
      }
      txMutex := false;
      return None;
    }

    /** Finds out by trying the lock, and leaves it as it was. */
    method TransactionStatus() returns (status: byte)
      modifies this`txMutex
      ensures txMutex == old(txMutex) && status == if txMutex then IN_BLOCK else IDLE
    {
      if !txMutex {
        txMutex := true;
        txMutex := false;
        return IDLE;
      }
      return IN_BLOCK;
    }

    method ResponseMessage(env: Env, r: Response) returns (err: Option<Error>)
      modifies this`out, this`writes
      ensures out == old(out) + (if env.writeOk(old(writes)) then [r] else []) && writes == old(writes) + 1
      ensures err == if env.writeOk(old(writes)) then None else Some(WriteFailed)
    {
      var ok := env.writeOk(writes);
      writes := writes + 1;
      if !ok {
        return Some(WriteFailed);
      }
      out := out + [r];
      return None;
    }
  }

  class Server {
    const env: Env
    const manager: PreparedManager
    const executor: Executor
    ghost var history: seq<Op>     // the prepared-statement requests handled so far, of all connections

    /** The maps show what the flat tables hold after the history. */
    ghost predicate Valid()
      reads this, manager, manager.Objects()
    {
      manager.Valid() && manager.Shows(After(env, history))
    }

    constructor (env: Env)
      ensures this.env == env && Valid() && executor.calls == [] && history == []
      ensures fresh(manager.Objects()) && fresh(executor)
    {
      this.env := env;
      manager := new PreparedManager();
      executor := new Executor();
      history := [];
    }

    /** Whatever the connections have sent so far, and in whatever order: what is held for a portal is what the Parse
        and the Bind of its own connection made of it. */
    lemma PortalsAreSnapshots(c: ConnId, p: GoString)
      requires Valid()
      ensures p in manager.Portals(c) <==> exists b :: 0 <= b < |history| && Binds(env, history, b, c, p)
      ensures forall b, j :: 0 <= b < |history| && Binds(env, history, b, c, p)
                             && 0 <= j < b && Defines(env, history, j, b, c, history[b].statement) ==>
                p in manager.Portals(c) && manager.Portals(c)[p] == Portal(history[j].query, history[b].params)
    {
      hide After, Binds, Defines;
      PortalIsSnapshot(env, history, c, p);
    }

    /** Adds a request whose effect the maps already show. */
    ghost method Record(op: Op)
      requires manager.Valid() && manager.Shows(After(env, history + [op]))
      modifies this`history
      ensures Valid() && history == old(history) + [op]
    {
      hide After;
      history := history + [op];
    }

    /** A request that leaves the flat tables alone. */
    ghost method Note(op: Op)
      requires Valid() && Apply(env, After(env, history), op) == After(env, history)
      modifies this`history
      ensures Valid() && history == old(history) + [op]
    {
      AfterStep(env, history, op);
      history := history + [op];
    }

    ghost function Objects(conn: Conn): set<object>
      reads manager
    {
      {conn, conn.reader, executor} + manager.Objects()
    }

    /** This connection's session state. */
    ghost function View(conn: Conn): State
      reads conn, conn.reader, executor, manager, manager.Objects()
    {
      State(conn.reader.View(), manager.Statements(conn.id), manager.Portals(conn.id), conn.txMutex,
            executor.calls, conn.out, conn.writes)
    }

    /** A handler returned `res` and `err` and left the state of `r`. */
    ghost predicate Replied(conn: Conn, res: seq<Response>, err: Option<Error>, r: Reply)
      reads conn, conn.reader, executor, manager, manager.Objects()
    {
      View(conn) == r.state && res == r.responses && err == r.err
    }

    method Write1(conn: Conn, r: Response) returns (err: Option<Error>)
      modifies conn`out, conn`writes
      ensures (View(conn), err) == Write(env, old(View(conn)), r)
    {
      err := conn.ResponseMessage(env, r);
      assert old(conn.out) + [] == old(conn.out);
    }

    method ResponseMessages(conn: Conn, rs: seq<Response>) returns (err: Option<Error>)
      modifies conn`out, conn`writes
      ensures (View(conn), err) == WriteAll(env, old(View(conn)), rs)
    {
      for n := 0 to |rs|
        invariant WriteAll(env, View(conn), rs[n..]) == WriteAll(env, old(View(conn)), rs)
      {
        hide WriteAll;
        WriteAllFirst(env, View(conn), rs[n..]);
        assert rs[n..][1..] == rs[n + 1..];
        err := Write1(conn, rs[n]);
        if err.Some? {
          return;
        }
      }
      return None;
    }

    method ResponseError(conn: Conn, e: Error) returns (err: Option<Error>)
      modifies conn`out, conn`writes
      ensures (View(conn), err) == Write(env, old(View(conn)), ErrorResponse(env.errorText(e)))
    {
      err := Write1(conn, ErrorResponse(env.errorText(e)));
    }

    method ReadyForMessage(conn: Conn) returns (err: Option<Error>, status: byte)
      modifies conn`txMutex, conn`out, conn`writes
      ensures (View(conn), err) == Write(env, old(View(conn)), ReadyForQuery(Status(old(View(conn)))))
      ensures status == Status(old(View(conn)))
    {
      status := conn.TransactionStatus();
      err := Write1(conn, ReadyForQuery(status));
    }

    // COPY.

    /** `NewCopyQueryFrom`, filling the columns one by one, and the executor's INSERT. */
    method OfferCopiedLine(conn: Conn, stmt: Stmt, columns: seq<GoString>, fields: seq<GoString>)
        returns (err: Option<Error>)
      modifies executor
      ensures (View(conn), err) == OfferLine(env, old(View(conn)), stmt, columns, fields)
    {
      if |fields| != |columns| {
        return Some(ColumnsNotEqual(|fields|, |columns|));
      }
      var row: CopiedRow := [];
      for idx := 0 to |columns|
        invariant row == CopiedColumns(columns, fields)[..idx]
      {
        var data := fields[idx];
        if data == [] {
          data := [78, 85, 76, 76];
        }
        row := row + [(columns[idx], data)];
      }
      assert row == CopiedColumns(columns, fields);
      var a := executor.Perform(env, InsertCopied(stmt, row));
      return Failed(a);
    }

    /** `NewCopyCompleteResponsesFrom`. */
    method RunCopy(conn: Conn, stmt: Stmt, columns: seq<GoString>) returns (res: seq<Response>, err: Option<Error>)
      modifies conn.reader, executor
      ensures Replied(conn, res, err, CopyLoop(env, old(View(conn)), stmt, columns, 0, 0))
    {
      hide CopyLoop, OfferLine, CopyFrames.Next, CopyComplete, TxStep;
      var nCopy: nat, nFail: nat := 0, 0;
      ghost var st := View(conn);
      ghost var whole := CopyLoop(env, st, stmt, columns, 0, 0);
      var next := NextCopyData(conn.reader);
      while next.Success?
        invariant View(conn) == st.(input := View(conn).input) && Did(next, View(conn).input, CopyFrames.Next(st.input))
        invariant whole == CopyLoop(env, st, stmt, columns, nCopy, nFail)
        decreases |View(conn).input.Stream()| + if next.Success? then 1 else 0
      {
        CopyLaws.CopyLoopTurn(env, st, stmt, columns, next.value, View(conn).input, nCopy, nFail);
        var failed := OfferCopiedLine(conn, stmt, columns, next.value);
        if failed.Some? {
          nFail := nFail + 1;
        } else {
          nCopy := nCopy + 1;
        }
        st := View(conn);
        next := NextCopyData(conn.reader);
      }
      CopyLoopStops(env, st, stmt, columns, nCopy, nFail, next.error, View(conn).input);
      if next.error != Eof {
        return [], Some(next.error);
      }
      if 0 < nFail {
        return [], Some(CopyIncomplete(nCopy, nFail));
      }
      return [CopyComplete(nCopy)], None;
    }

    method CopyData(conn: Conn, stmt: Stmt) returns (res: seq<Response>, err: Option<Error>)
      requires stmt.Copy?
      modifies conn.reader, executor
      ensures Replied(conn, res, err, CopyDataStep(env, old(View(conn)), stmt))
    {
      var schema := env.schema(executor.calls, stmt);
      if schema.Failure? {
        return [], Some(External(0));
      }
      var columns := stmt.columns;
      if columns == [] {
        columns := schema.value;
      }
      res, err := RunCopy(conn, stmt, columns);
    }

    method HandleCopyQuery(conn: Conn, stmt: Stmt) returns (res: seq<Response>, err: Option<Error>)
      requires stmt.Copy?
      modifies conn`out, conn`writes, conn.reader, executor
      ensures Replied(conn, res, err, CopyStep(env, old(View(conn)), stmt))
    {
      hide WriteAll, CopyDataStep, Peek, TxStep, HasError;
      var a := executor.Perform(env, StartCopy(stmt));
      if a.failure.Some? || HasError(a.responses) {
        return a.responses, Failed(a);
      }
      err := ResponseMessages(conn, a.responses);
      if err.Some? {
        return [], err;
      }
      var ok := IsPeekType(conn.reader, Frontend.COPY_DATA);
      if ok.Failure? {
        return [], Some(ok.error);
      }
      if !ok.value {
        return [], None;
      }
      res, err := CopyData(conn, stmt);
    }

    // Statements.

    /** One turn of the switch in `Query`. */
    method RunStatement(conn: Conn, stmt: Stmt) returns (res: seq<Response>, err: Option<Error>)
      modifies conn, conn.reader, executor
      ensures Replied(conn, res, err, StatementStep(env, old(View(conn)), stmt))
    {
      hide CopyStep, TxStep;
      match stmt {
        case Begin(_) =>
          err := conn.LockTransaction();
          if err.Some? {
            return [], err;
          }
          var a := executor.Perform(env, Do(stmt));
          return a.responses, Failed(a);
        case Commit(_) =>
          res, err := EndWith(conn, stmt);
        case Rollback(_) =>
          res, err := EndWith(conn, stmt);
        case Copy(_, _) =>
          res, err := HandleCopyQuery(conn, stmt);
        case Run(_) =>
          var a := executor.Perform(env, Do(stmt));
          return a.responses, Failed(a);
        case Unhandled(_) =>
          return [], None;
      }
    }

    /** COMMIT and ROLLBACK: the executor first, then the unlock. */
    method EndWith(conn: Conn, stmt: Stmt) returns (res: seq<Response>, err: Option<Error>)
      requires stmt.Commit? || stmt.Rollback?
      modifies conn`txMutex, executor
      ensures Replied(conn, res, err, EndTransaction(env, old(View(conn)), stmt))
    {
      hide TxStep;
      var a := executor.Perform(env, Do(stmt));
      var fatal := conn.UnlockTransaction();
      if fatal.Some? {
        return [], fatal;
      }
      return a.responses, Failed(a);
    }

    /** The statement loop of `Query`. */
    method RunStatements(conn: Conn, stmts: seq<Stmt>) returns (err: Option<Error>)
      modifies conn, conn.reader, executor
      ensures Replied(conn, [], err, StatementsStep(env, old(View(conn)), stmts))
    {
      hide StatementStep, StatementsStep, WriteAll, TxStep;
      ghost var whole := StatementsStep(env, View(conn), stmts);
      for n := 0 to |stmts|
        invariant whole == StatementsStep(env, View(conn), stmts[n..])
      {
        QueryLaws.StatementsFirst(env, View(conn), stmts[n..]);
        assert stmts[n..][1..] == stmts[n + 1..];
        var res: seq<Response>;
        res, err := RunStatement(conn, stmts[n]);
        if 0 < |res| {
          err := ResponseMessages(conn, res);
          if err.Some? {
            return;
          }
        }
        if err.Some? {
          return;
        }
      }
      QueryLaws.StatementsFirst(env, View(conn), stmts[|stmts|..]);
      return None;
    }

    method Query(conn: Conn, q: Portal) returns (res: seq<Response>, err: Option<Error>)
      modifies conn, conn.reader, executor
      ensures Replied(conn, res, err, QueryStep(env, old(View(conn)), q))
    {
      hide StatementsStep, TxStep;
      var parsed := env.bound(q.text, q.params);
      match parsed {
        case Empty =>
          return [EMPTY_COMPLETE], None;
        case Rejected(code) =>
          var a := env.parserError(q.text, q.params, code);
          if a.failure.Some? {
            return [], Failed(a);
          }
          return a.responses, None;
        case Statements(stmts) =>
          err := RunStatements(conn, stmts);
          return [], err;
      }
    }

    // The extended query protocol.

    method StoreStatement(conn: Conn, name: GoString, query: GoString, types: seq<int>) returns (err: Option<Error>)
      requires Valid()
      modifies this`history, manager.Objects()
      ensures Valid() && fresh(manager.Objects() - old(manager.Objects()))
      ensures history == old(history) + [DoParse(conn.id, name, query, types)]
      ensures err == ParseError(env, query)
      ensures err.Some? ==> View(conn) == old(View(conn))
      ensures err.None? ==>
                View(conn) == old(View(conn)).(stmts :=
                  old(View(conn)).stmts[name := PreparedStatement(name, query, types, env.parse(query).stmts[0])])
    {
      hide ParseError, After, Apply, Agree, PreparedManager.Shows, PreparedManager.Statements, PreparedManager.Portals,
        PreparedManager.Valid;
      AfterStep(env, history, DoParse(conn.id, name, query, types));
      err := manager.SetStatement(env, conn.id, name, query, types, After(env, history));
      Record(DoParse(conn.id, name, query, types));
    }

    lemma BindNoted(c: ConnId, name: GoString, statement: GoString, q: Portal)
      requires Valid() && statement in manager.Statements(c) && q.text == manager.Statements(c)[statement].query
      ensures var f := After(env, history);
        After(env, history + [DoBind(c, name, statement, q.params)]) == f.(portals := f.portals[(c, name) := q])
    {
      hide After, Apply, Agree;
      AfterStep(env, history, DoBind(c, name, statement, q.params));
      BindApplies(env, After(env, history), manager.Statements(c), c, name, statement, q.params);
    }

    method StorePortal(conn: Conn, name: GoString, ghost statement: GoString, q: Portal)
      requires Valid() && statement in manager.Statements(conn.id)
               && q.text == manager.Statements(conn.id)[statement].query
      modifies this`history, manager.Objects()
      ensures Valid() && fresh(manager.Objects() - old(manager.Objects()))
      ensures history == old(history) + [DoBind(conn.id, name, statement, q.params)]
      ensures View(conn) == old(View(conn)).(portals := old(View(conn)).portals[name := q])
    {
      hide After, Apply, Agree, PreparedManager.Shows, PreparedManager.Statements, PreparedManager.Portals,
        PreparedManager.Valid;
      BindNoted(conn.id, name, statement, q);
      manager.SetPortal(conn.id, name, q, After(env, history));
      Record(DoBind(conn.id, name, statement, q.params));
    }

    method DropStatement(conn: Conn, name: GoString)
      requires Valid()
      modifies this`history, manager.Objects()
      ensures Valid() && manager.Objects() == old(manager.Objects())
      ensures history == old(history) + [DoClose(conn.id, Frontend.Statement, name)]
      ensures View(conn) == old(View(conn)).(stmts := old(View(conn)).stmts - {name})
    {
      hide After, Agree, PreparedManager.Shows;
      AfterStep(env, history, DoClose(conn.id, Frontend.Statement, name));
      var _ := manager.RemoveStatement(conn.id, name, After(env, history));
      Record(DoClose(conn.id, Frontend.Statement, name));
    }

    method DropPortal(conn: Conn, name: GoString)
      requires Valid()
      modifies this`history, manager.Objects()
      ensures Valid() && manager.Objects() == old(manager.Objects())
      ensures history == old(history) + [DoClose(conn.id, Frontend.Portal, name)]
      ensures View(conn) == old(View(conn)).(portals := old(View(conn)).portals - {name})
    {
      hide After, Agree, PreparedManager.Shows;
      AfterStep(env, history, DoClose(conn.id, Frontend.Portal, name));
      var _ := manager.RemovePortal(conn.id, name, After(env, history));
      Record(DoClose(conn.id, Frontend.Portal, name));
    }

    method Parse(conn: Conn, name: GoString, query: GoString, types: seq<int>)
        returns (res: seq<Response>, err: Option<Error>)
      requires Valid()
      modifies this`history, manager.Objects()
      ensures Valid() && fresh(manager.Objects() - old(manager.Objects()))
      ensures history == old(history) + [DoParse(conn.id, name, query, types)]
      ensures Replied(conn, res, err, ParseStep(env, old(View(conn)), name, query, types))
    {
      hide Valid, ParseError, TxStep;
      err := StoreStatement(conn, name, query, types);
      if err.Some? {
        return [], err;
      }
      return [PARSE_COMPLETE], None;
    }

    method Bind(conn: Conn, portal: GoString, statement: GoString, params: seq<BindParam>)
        returns (res: seq<Response>, err: Option<Error>)
      requires Valid()
      modifies this`history, manager.Objects()
      ensures Valid() && fresh(manager.Objects() - old(manager.Objects()))
      ensures history == old(history) + [DoBind(conn.id, portal, statement, params)]
      ensures Replied(conn, res, err, BindStep(old(View(conn)), portal, statement, params))
    {
      hide TxStep, After;
      var prepStmt := manager.GetStatement(conn.id, statement);
      if prepStmt.Failure? {
        Note(DoBind(conn.id, portal, statement, params));
        return [], Some(prepStmt.error);
      }
      hide Valid;
      StorePortal(conn, portal, statement, Portal(prepStmt.value.query, params));
      return [BIND_COMPLETE], None;
    }

    method Describe(conn: Conn, kind: Frontend.Prepared, name: GoString)
        returns (res: seq<Response>, err: Option<Error>)
      ensures Replied(conn, res, err, DescribeStep(env, View(conn), kind, name))
    {
      hide TxStep;
      if kind.Portal? {
        var portal := manager.GetPortal(conn.id, name);
        if portal.Failure? {
          return [], Some(portal.error);
        }
        return [NO_DATA], None;
      }
      var prepStmt := manager.GetStatement(conn.id, name);
      if prepStmt.Failure? {
        return [], Some(prepStmt.error);
      }
      var oids := env.oids(executor.calls, prepStmt.value.stmt);
      if oids.Failure? {
        return [], Some(External(0));
      }
      return [ParameterDescription(oids.value), NO_DATA], None;
    }

    method Execute(conn: Conn, portal: GoString) returns (res: seq<Response>, err: Option<Error>)
      requires Valid()
      modifies this`history, conn, conn.reader, executor
      ensures Valid() && history == old(history) + [DoExecute(conn.id, portal)]
      ensures Replied(conn, res, err, ExecuteStep(env, old(View(conn)), portal))
    {
      hide QueryStep, TxStep, After, Agree;
      var q := manager.GetPortal(conn.id, portal);
      Note(DoExecute(conn.id, portal));
      if q.Failure? {
        return [], Some(q.error);
      }
      res, err := Query(conn, q.value);
    }

    method Close(conn: Conn, kind: Frontend.Prepared, name: GoString) returns (res: seq<Response>, err: Option<Error>)
      requires Valid()
      modifies this`history, manager.Objects()
      ensures Valid() && fresh(manager.Objects() - old(manager.Objects()))
      ensures history == old(history) + [DoClose(conn.id, kind, name)]
      ensures Replied(conn, res, err, CloseStep(old(View(conn)), kind, name))
    {
      hide Valid, TxStep;
      if kind.Statement? {
        DropStatement(conn, name);
      } else {
        DropPortal(conn, name);
      }
      return [CLOSE_COMPLETE], None;
    }

    method HandleRequest(conn: Conn, q: Request) returns (res: seq<Response>, err: Option<Error>)
      requires Valid()
      modifies this`history, Objects(conn)
      ensures Valid() && fresh(manager.Objects() - old(manager.Objects()))
      ensures history == old(history) + PreparedLaws.OpsOf(conn.id, q)
      ensures Replied(conn, res, err, Handle(env, old(View(conn)), q))
    {
      hide Valid, ParseStep, BindStep, DescribeStep, QueryStep, ExecuteStep, CloseStep, TxStep;
      match q {
        case Parse(name, query, types) =>
          res, err := Parse(conn, name, query, types);
        case Bind(portal, statement, params) =>
          res, err := Bind(conn, portal, statement, params);
        case Describe(kind, name) =>
          res, err := Describe(conn, kind, name);
        case Query(text) =>
          res, err := Query(conn, Portal(text, []));
        case Execute(portal, _) =>
          res, err := Execute(conn, portal);
        case Close(kind, name) =>
          res, err := Close(conn, kind, name);
        case Unsupported(t) =>
          return [], Some(NotSupported(t));
        case Sync =>
          return [], None;
        case Flush =>
          return [], None;
        case Terminate =>
          return [], None;
      }
    }

    // The dispatch loop.

    /** The handler's responses, then its error. */
    method RespondTo(conn: Conn, resMsgs: seq<Response>, reqErr: Option<Error>) returns (err: Option<Error>)
      modifies conn`out, conn`writes
      ensures (View(conn), err) == Respond(env, Reply(old(View(conn)), resMsgs, reqErr))
    {
      hide WriteAll, Write, TxStep;
      err := ResponseMessages(conn, resMsgs);
      if err.None? && reqErr.Some? {
        err := ResponseError(conn, reqErr.value);
      }
    }

    /** ReadyForQuery, unless the next type byte is there. */
    method ReadyUnlessPending(conn: Conn, tick: nat) returns (err: Option<Error>)
      modifies conn, conn.reader
      ensures var (st, e, _) := Ready(env, old(View(conn)), tick); View(conn) == st && err == e
    {
      hide Write, Peek, TxStep;
      var arrived := env.arrived(tick);
      var next := PeekTypeNonBlocking(conn.reader, arrived);
      if next.Success? {
        return None;
      }
      var status;
      err, status := ReadyForMessage(conn);
    }

    /** What follows the handler in the loop of `receive`. */
    method FinishTurn(conn: Conn, tick: nat, ghost q: Result<Request>, resMsgs: seq<Response>, reqErr: Option<Error>)
        returns (phase: Phase)
      modifies conn, conn.reader
      ensures var t := Finish(env, tick, q, Reply(old(View(conn)), resMsgs, reqErr));
              View(conn) == t.state && phase == t.phase
    {
      hide Respond, Ready, TxStep;
      if reqErr.Some? && reqErr.value.Crash? {
        return Crashed(reqErr.value.fault);
      }
      var err := RespondTo(conn, resMsgs, reqErr);
      if err.Some? {
        return Closed;
      }
      err := ReadyUnlessPending(conn, tick);
      return if err.Some? then Closed else Running;
    }

    /** The switch of the loop: parse the request and call its handler. */
    method ServeRequest(conn: Conn, reqType: byte)
        returns (reqMsg: Result<Request>, resMsgs: seq<Response>, reqErr: Option<Error>)
      requires Valid()
      modifies this`history, Objects(conn)
      ensures Valid() && fresh(manager.Objects() - old(manager.Objects()))
      ensures history == old(history) + PreparedLaws.OpsHeard(conn.id, reqMsg)
      ensures (reqMsg, Reply(View(conn), resMsgs, reqErr)) == Serve(env, old(View(conn)), reqType)
    {
      hide Valid, Dispatch, Handle, TxStep, PreparedLaws.OpsOf;
      reqMsg := NewRequestWithReader(conn.reader, reqType);
      if reqMsg.Failure? {
        return reqMsg, [], Some(reqMsg.error);
      }
      resMsgs, reqErr := HandleRequest(conn, reqMsg.value);
    }

    method TakeTurn(conn: Conn, reqType: byte, tick: nat) returns (phase: Phase)
      requires Valid()
      modifies this`history, Objects(conn)
      ensures Valid() && fresh(manager.Objects() - old(manager.Objects()))
      ensures var t := Session.TakeTurn(env, old(View(conn)), reqType, tick);
        View(conn) == t.state && phase == t.phase && history == old(history) + PreparedLaws.OpsHeard(conn.id, t.request)
    {
      hide Valid, Serve, Finish, Write, TxStep, PreparedLaws.OpsOf;
      var reqMsg, resMsgs, reqErr := ServeRequest(conn, reqType);
      PreparedLaws.FinishKeepsMaps(env, tick, reqMsg, Reply(View(conn), resMsgs, reqErr));
      if reqMsg == Success(Terminate) {
        return Closed;
      }
      phase := FinishTurn(conn, tick, reqMsg, resMsgs, reqErr);
    }

    /** One iteration of the dispatch loop. */
    method Turn(conn: Conn, tick: nat) returns (phase: Phase)
      requires Valid()
      modifies this`history, Objects(conn)
      ensures Valid() && fresh(manager.Objects() - old(manager.Objects()))
      ensures var t := Iterate(env, old(View(conn)), tick);
        View(conn) == t.state && phase == t.phase && history == old(history) + PreparedLaws.OpsHeard(conn.id, t.request)
    {
      hide Valid, Peek, Session.TakeTurn, Write, TxStep, PreparedLaws.OpsOf;
      var reqType := PeekType(conn.reader);
      if reqType.Failure? {
        var _ := ResponseError(conn, reqType.error);
        return Closed;
      }
      phase := TakeTurn(conn, reqType.value, tick);
    }

    /** `authenticateStartup`. */
    method Authenticate(conn: Conn, startupMsg: StartupMessage.Startup) returns (res: Result<Response>)
      modifies conn, conn.reader
      ensures (View(conn), res) == Session.Authenticate(env, old(View(conn)), startupMsg)
    {
      hide StartupMessage.PasswordRequest, Write, TxStep;
      if StartupMessage.USER !in startupMsg.params {
        return Success(EMPTY_ERROR);
      }
      var err := Write1(conn, CLEARTEXT_PASSWORD);
      if err.Some? {
        return Failure(err.value);
      }
      var password :- NewPasswordWithReader(conn.reader);
      match env.verify(startupMsg.params[StartupMessage.USER], password) {
        case Granted => return Success(AUTHENTICATION_OK);
        case Denied => return Success(EMPTY_ERROR);
        case Unverified(code) => return Failure(External(code));
      }
    }

    /** `handleStartupMessage`, once the verdict on the client is there. */
    method Admit(conn: Conn, startupMsg: StartupMessage.Startup, res: Result<Response>) returns (phase: Phase)
      modifies conn`txMutex, conn`out, conn`writes
      ensures (View(conn), phase) == Session.Admit(env, old(View(conn)), startupMsg, res)
    {
      hide WriteAll, Write, TxStep;
      if res.Failure? {
        var _ := ResponseError(conn, res.error);
        return Closed;
      }
      var a := env.greeting(startupMsg);
      var err := Write1(conn, res.value);
      WriteAllBegins(env, old(View(conn)), res.value, a.responses);
      if err.None? {
        err := ResponseMessages(conn, a.responses);
      }
      if err.None? {
        err := Failed(a);
      }
      var status;
      if err.None? {
        err, status := ReadyForMessage(conn);
      }
      if err.Some? {
        var _ := ResponseError(conn, err.value);
        return Closed;
      }
      return Running;
    }

    method Greet(conn: Conn) returns (phase: Phase)
      modifies conn, conn.reader
      ensures (View(conn), phase) == Session.Greet(env, old(View(conn)))
    {
      hide StartupMessage.StartupRequest, Session.Authenticate, Session.Admit, Write, TxStep;
      var startupMsg := NewStartupWithReader(conn.reader);
      if startupMsg.Failure? {
        var _ := ResponseError(conn, startupMsg.error);
        return Closed;
      }
      var res := Authenticate(conn, startupMsg.value);
      phase := Admit(conn, startupMsg.value, res);
    }

    method Hello(conn: Conn) returns (phase: Phase)
      modifies conn, conn.reader
      ensures (View(conn), phase) == Session.Hello(env, old(View(conn)))
    {
      hide StartupMessage.SslRequest, Session.Greet, Peek, Int32Of, Write, TxStep;
      var startupMsgLength := conn.reader.PeekInt32();
      if startupMsgLength.Failure? {
        var _ := ResponseError(conn, startupMsgLength.error);
        return Closed;
      }
      if startupMsgLength.value == StartupMessage.SSL_REQUEST_LENGTH {
        var ssl := NewSslRequestWithReader(conn.reader);
        if ssl.Failure? {
          var _ := ResponseError(conn, ssl.error);
          return Closed;
        }
        var err := Write1(conn, SSL_DISABLED);
        if err.Some? {
          return Closed;
        }
      }
      phase := Greet(conn);
    }

    /** The dispatch loop. */
    method RunLoop(conn: Conn) returns (phase: Phase)
      requires Valid()
      modifies this`history, Objects(conn)
      ensures Valid() && fresh(manager.Objects() - old(manager.Objects()))
      ensures var (st, end, turns) := Loop(env, old(View(conn)), 0);
        View(conn) == st && phase == end && history == old(history) + PreparedLaws.History(conn.id, turns)
    {
      hide Valid, View, Iterate, Loop, PreparedLaws.Halfway, PreparedLaws.OpsHeard, PreparedLaws.History,
        PreparedManager.Statements, PreparedManager.Portals, PreparedManager.Valid, PreparedManager.Shows,
            State.Follows, Input.Stream, After;
      var tick: nat := 0;
      ghost var h, whole := history, Loop(env, View(conn), 0);
      PreparedLaws.LoopEnds(conn.id, env, h, whole);
      phase := Running;
      while phase.Running?
        invariant Valid() && fresh(manager.Objects() - old(manager.Objects()))
        invariant PreparedLaws.Halfway(conn.id, env, h, whole, history, View(conn), phase, tick)
        decreases phase.Running?, |View(conn).input.Stream()|
      {
        PreparedLaws.LoopGoesOn(conn.id, env, h, whole, history, View(conn), tick);
        phase := Turn(conn, tick);
        tick := tick + 1;
      }
    }

    /** `receive`. */
    method Receive(conn: Conn) returns (phase: Phase)
      requires Valid()
      modifies this`history, Objects(conn)
      ensures Valid() && fresh(manager.Objects() - old(manager.Objects()))
      ensures (View(conn), phase) == Session.Receive(env, old(View(conn)))
      ensures history == old(history) + PreparedLaws.Received(conn.id, env, old(View(conn)))
    {
      hide Valid, Session.Hello, Loop;
      phase := Hello(conn);
      if phase.Running? {
        phase := RunLoop(conn);
      }
    }
  }

  lemma CopyLoopStops(env: Env, st: State, s: Stmt, columns: seq<GoString>, nCopy: nat, nFail: nat, e: Error, i: Input)
    ensures CopyFrames.Next(st.input) == Err(e, i) ==>
              CopyLoop(env, st, s, columns, nCopy, nFail) ==
              if e != Eof then Reply(st.(input := i), [], Some(e))
              else if 0 < nFail then Reply(st.(input := i), [], Some(CopyIncomplete(nCopy, nFail)))
              else Reply(st.(input := i), [CopyComplete(nCopy)], None)
  {
    hide OfferLine, CopyFrames.Next, TxStep, CopyComplete;
  }

  lemma WriteAllBegins(env: Env, st: State, r: Response, rs: seq<Response>)
    ensures WriteAll(env, st, [r] + rs) ==
            var (st1, w) := Write(env, st, r); if w.Some? then (st1, w) else WriteAll(env, st1, rs)
  {
    assert ([r] + rs)[1..] == rs;
  }

  lemma WriteAllFirst(env: Env, st: State, rs: seq<Response>)
    ensures rs == [] ==> WriteAll(env, st, rs) == (st, None)
    ensures rs != [] ==>
              WriteAll(env, st, rs) == var (st1, w) := Write(env, st, rs[0]);
                  if w.Some? then (st1, w) else WriteAll(env, st1, rs[1..])
  {}
}
