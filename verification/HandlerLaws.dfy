/** What a connection is answered, request by request, over whole runs on any input whose writes succeed: the bytes of
    every response (section 55.7), as the history of what the connection has heard decides them. */
module HandlerLaws {
  import opened BigEndian
  import opened Errors
  import opened Inputs
  import opened OutputLaws
  import opened PreparedLaws
  import opened PreparedTable
  import opened Requests
  import opened Responses
  import opened Session
  import Frontend
  import QueryLaws
  import TransactionLaws

  /** Turn k of a fresh connection's run hears request q. */
  ghost predicate Hears(env: Env, st: State, tick: nat, k: nat, q: Request) {
    && (forall n :: env.writeOk(n)) && st.stmts == map[] && st.portals == map[] && st.input.Tidy()
    && k < |Loop(env, st, tick).2| && Loop(env, st, tick).2[k].request == Success(q)
  }

  /** The loop goes on, having written `said`, the error if there is one, and the prompt if it is its turn. */
  predicate Says(env: Env, before: State, t: Turn, said: seq<Response>, err: Option<Error>) {
    && t.phase.Running? && t.err == err
    && t.state.out == before.out + said + ErrorOf(env, err) + if t.ready.Some? then [Prompt(t.state.locked)] else []
  }

  /** The history before turn k, and the state it left. */
  function Heard(env: Env, st: State, c: ConnId, tick: nat, k: nat): seq<Op>
    requires k <= |Loop(env, st, tick).2|
  {
    History(c, Loop(env, st, tick).2[..k])
  }

  function Before(env: Env, st: State, tick: nat, k: nat): State
    requires k <= |Loop(env, st, tick).2|
  {
    StateBefore(st, Loop(env, st, tick).2, k)
  }

  // One turn.

  lemma DispatchTidy(i: Input, t: byte)
    requires i.Tidy()
    ensures Dispatch(i, t).next.Tidy()
  {
    hide ParseRequest, BindRequest, DescribeRequest, QueryRequest, ExecuteRequest, CloseRequest, BareRequest,
         SkipRequest;
  }

  lemma HandedOver(env: Env, st: State, tick: nat, q: Request) returns (i: Input)
    requires st.input.Tidy() && q != Terminate && Iterate(env, st, tick).request == Success(q)
    ensures i.Tidy() && Iterate(env, st, tick) == Finish(env, tick, Success(q), Handle(env, st.(input := i), q))
  {
    PeekKeepsTidy(st.input);
    hide Peek, Dispatch, Handle, TxStep;
    var m := Peek(st.input, 1);
    var (heard, r) := Serve(env, st.(input := m.next), m.value[0]);
    FinishKeepsMaps(env, tick, heard, r);
    hide Finish;
    i := Dispatch(m.next, m.value[0]).next;
    DispatchTidy(m.next, m.value[0]);
  }

  lemma AllSucceed(env: Env, a: nat, b: nat)
    requires forall n :: env.writeOk(n)
    ensures WritesSucceed(env, a, b)
  {}

  lemma ReplySaid(env: Env, tick: nat, q: Result<Request>, r: Reply)
    requires (forall n :: env.writeOk(n)) && r.state.input.Tidy() && !CrashError(r.err)
    ensures Says(env, r.state, Finish(env, tick, q, r), r.responses, r.err)
  {
    hide Complaint, Prompt, Waiting, TxStep, Finish;
    FinishSays(env, tick, q, r);
    var t := Finish(env, tick, q, r);
    AllSucceed(env, r.state.writes, t.state.writes);
    hide WritesSucceed;
    var e := ErrorOf(env, r.err);
    var z := if t.ready.Some? then [Prompt(t.state.locked)] else [];
    hide ErrorOf;
    assert r.state.out + (r.responses + e + z) == r.state.out + r.responses + e + z;
  }

  /** Turn k is the reply of its handler, in the state before it, whose maps are those of the history. */
  lemma TurnReplies(env: Env, st: State, c: ConnId, tick: nat, k: nat, q: Request) returns (i: Input)
    requires Hears(env, st, tick, k, q) && q != Terminate
    ensures i.Tidy()
    ensures var before := Before(env, st, tick, k);
      && Loop(env, st, tick).2[k] == Finish(env, tick + k, Success(q), Handle(env, before.(input := i), q))
      && Holds(After(env, Heard(env, st, c, tick, k)), c, before)
  {
    hide *;
    HearsMeans(env, st, tick, k, q);
    NothingHeld(env, st, c);
    RunApplies(env, [], st, c, tick, k);
    Named(env, st, c, tick, k);
    assert [] + Heard(env, st, c, tick, k) == Heard(env, st, c, tick, k);
    TransactionLaws.RunsKeepReaderTidy(env, st, tick);
    BeforeTidy(env, st, tick, k);
    i := HandedOver(env, Before(env, st, tick, k), tick + k, q);
  }

  lemma HearsMeans(env: Env, st: State, tick: nat, k: nat, q: Request)
    requires Hears(env, st, tick, k, q)
    ensures (forall n :: env.writeOk(n)) && st.stmts == map[] && st.portals == map[] && st.input.Tidy()
    ensures k < |Loop(env, st, tick).2| && Loop(env, st, tick).2[k].request == Success(q)
  {
    hide Loop;
  }

  lemma Named(env: Env, st: State, c: ConnId, tick: nat, k: nat)
    requires k <= |Loop(env, st, tick).2|
    ensures Heard(env, st, c, tick, k) == History(c, Loop(env, st, tick).2[..k])
    ensures Before(env, st, tick, k) == StateBefore(st, Loop(env, st, tick).2, k)
  {
    hide Loop;
  }

  lemma BeforeTidy(env: Env, st: State, tick: nat, k: nat)
    requires st.input.Tidy() && k < |Loop(env, st, tick).2|
    requires forall k :: 0 <= k < |Loop(env, st, tick).2| ==> Loop(env, st, tick).2[k].state.input.Tidy()
    ensures Before(env, st, tick, k).input.Tidy()
  {
    hide Loop;
  }

  // Parse.

  lemma ParseReply(env: Env, st: State, name: GoString, query: GoString, types: seq<int>)
    ensures var r := Handle(env, st, Parse(name, query, types));
      && r.state.out == st.out && r.state.input == st.input
      && match env.parse(query)
         case Empty => r.responses == [] && r.err == Some(EmptyQuery)
         case Rejected(code) => r.responses == [] && r.err == Some(External(code))
         case Statements(ss) =>
           if |ss| == 1 then r.responses == [Typed('1' as int, [])] && r.err == None
           else r.responses == [] && r.err == Some(if ss == [] then Crash(EmptyStatementList) else MultipleStatements)
  {
    hide BindStep, DescribeStep, QueryStep, ExecuteStep, CloseStep, TxStep;
  }

  /** Parse is answered '1' exactly when its text holds one statement. */
  lemma ParseAnswers(env: Env, st: State, tick: nat, k: nat, name: GoString, query: GoString, types: seq<int>)
    requires Hears(env, st, tick, k, Parse(name, query, types))
    ensures var before, t := Before(env, st, tick, k), Loop(env, st, tick).2[k];
      match env.parse(query)
      case Empty => Says(env, before, t, [], Some(EmptyQuery))
      case Rejected(code) => Says(env, before, t, [], Some(External(code)))
      case Statements(ss) =>
        if |ss| == 1 then Says(env, before, t, [Typed('1' as int, [])], None)
        else if 1 < |ss| then Says(env, before, t, [], Some(MultipleStatements))
        else t.phase == Crashed(EmptyStatementList) && t.state.out == before.out
  {
    hide *;
    var q := Parse(name, query, types);
    HearsMeans(env, st, tick, k, q);
    var i := TurnReplies(env, st, 0, tick, k, q);
    var before := Before(env, st, tick, k).(input := i);
    ParseReply(env, before, name, query, types);
    FinishAnswers(env, st, tick, k, q, before, Handle(env, before, q));
  }

  /** A turn that finishes with a reply. */
  lemma FinishAnswers(env: Env, st: State, tick: nat, k: nat, q: Request, before: State, r: Reply)
    requires Hears(env, st, tick, k, q) && r.state.input.Tidy()
             && before == Before(env, st, tick, k).(input := before.input)
    requires Loop(env, st, tick).2[k] == Finish(env, tick + k, Success(q), r)
    ensures var t := Loop(env, st, tick).2[k];
      && (!CrashError(r.err) ==> Says(env, r.state, t, r.responses, r.err))
      && (!CrashError(r.err) && r.state.out == before.out ==>
          Says(env, Before(env, st, tick, k), t, r.responses, r.err))
      && (CrashError(r.err) ==> t.phase == Crashed(r.err.value.fault) && t.state == r.state)
  {
    hide Loop, Before, Respond, Ready, ErrorOf, Prompt, Complaint, TxStep;
    HearsMeans(env, st, tick, k, q);
    if !CrashError(r.err) {
      ReplySaid(env, tick + k, Success(q), r);
    }
  }

  // Bind, Describe, Close.

  lemma StatementHeld(env: Env, h: seq<Op>, c: ConnId, st: State, name: GoString)
    requires Holds(After(env, h), c, st)
    ensures name in st.stmts <==> exists j :: 0 <= j < |h| && Defines(env, h, j, |h|, c, name)
    ensures forall j :: 0 <= j < |h| && Defines(env, h, j, |h|, c, name) ==>
              name in st.stmts && h[j].DoParse? && env.parse(h[j].query).Statements?
                  && |env.parse(h[j].query).stmts| == 1
              && st.stmts[name].stmt == env.parse(h[j].query).stmts[0]
  {
    StatementIsLastParse(env, h, c, name);
    hide After;
  }

  lemma BindReply(env: Env, st: State, portal: GoString, statement: GoString, params: seq<BindParam>)
    ensures var r := Handle(env, st, Bind(portal, statement, params));
      && r.state.out == st.out && r.state.input == st.input
      && if statement in st.stmts then r.responses == [Typed('2' as int, [])] && r.err == None
         else r.responses == [] && r.err == Some(StatementNotExist(statement))
  {
    hide ParseStep, DescribeStep, QueryStep, ExecuteStep, CloseStep, TxStep;
  }

  /** Bind is answered '2' exactly when its statement was defined by a Parse and not closed since. */
  lemma BindAnswers(
    env: Env, st: State, c: ConnId, tick: nat, k: nat, portal: GoString, statement: GoString, params: seq<BindParam>)
    requires Hears(env, st, tick, k, Bind(portal, statement, params))
    ensures var before, t, h := Before(env, st, tick, k), Loop(env, st, tick).2[k], Heard(env, st, c, tick, k);
      if exists j :: 0 <= j < |h| && Defines(env, h, j, |h|, c, statement)
      then Says(env, before, t, [Typed('2' as int, [])], None)
      else Says(env, before, t, [], Some(StatementNotExist(statement)))
  {
    hide *;
    var q := Bind(portal, statement, params);
    HearsMeans(env, st, tick, k, q);
    var i := TurnReplies(env, st, c, tick, k, q);
    var before := Before(env, st, tick, k).(input := i);
    StatementHeld(env, Heard(env, st, c, tick, k), c, Before(env, st, tick, k), statement);
    BindReply(env, before, portal, statement, params);
    FinishAnswers(env, st, tick, k, q, before, Handle(env, before, q));
    NoCrash(StatementNotExist(statement));
  }

  lemma NoCrash(e: Error)
    ensures !CrashError(None) && (CrashError(Some(e)) <==> e.Crash?)
  {}

  lemma DescribeReply(env: Env, st: State, kind: Frontend.Prepared, name: GoString)
    ensures var r := Handle(env, st, Describe(kind, name));
      && r.state.out == st.out && r.state.input == st.input
      && if kind.Portal? then
           if name in st.portals then r.responses == [Typed('n' as int, [])] && r.err == None
           else r.responses == [] && r.err == Some(PortalNotExist(name))
         else if name in st.stmts then
           match env.oids(st.calls, st.stmts[name].stmt)
           case Failure(_) => r.responses == [] && r.err == Some(External(0))
           case Success(oids) =>
             && r.responses == [Typed('t' as int, Int16Bytes(|oids|) + Int32sBytes(oids)), Typed('n' as int, [])]
             && r.err == None
         else r.responses == [] && r.err == Some(StatementNotExist(name))
  {
    hide ParseStep, BindStep, QueryStep, ExecuteStep, CloseStep, Int16Bytes, Int32sBytes, TxStep;
  }

  /** Describe of a statement is answered 't' with the object ids of its parameters and then 'n', exactly when it was
      defined by a Parse and not closed since. */
  lemma DescribeStatementAnswers(env: Env, st: State, c: ConnId, tick: nat, k: nat, name: GoString)
    requires Hears(env, st, tick, k, Describe(Frontend.Statement, name))
    ensures var before, t, h := Before(env, st, tick, k), Loop(env, st, tick).2[k], Heard(env, st, c, tick, k);
      && ((!exists j :: 0 <= j < |h| && Defines(env, h, j, |h|, c, name)) ==>
            Says(env, before, t, [], Some(StatementNotExist(name))))
      && forall j :: 0 <= j < |h| && Defines(env, h, j, |h|, c, name) ==>
           && h[j].DoParse? && env.parse(h[j].query).Statements? && |env.parse(h[j].query).stmts| == 1
           && match env.oids(before.calls, env.parse(h[j].query).stmts[0])
              case Failure(_) => Says(env, before, t, [], Some(External(0)))
              case Success(oids) =>
                Says(env, before, t, [Typed('t' as int, Int16Bytes(|oids|) + Int32sBytes(oids)),
                    Typed('n' as int, [])], None)
  {
    hide *;
    var q := Describe(Frontend.Statement, name);
    HearsMeans(env, st, tick, k, q);
    var i := TurnReplies(env, st, c, tick, k, q);
    var before := Before(env, st, tick, k).(input := i);
    StatementHeld(env, Heard(env, st, c, tick, k), c, Before(env, st, tick, k), name);
    DescribeReply(env, before, Frontend.Statement, name);
    FinishAnswers(env, st, tick, k, q, before, Handle(env, before, q));
    NoCrash(StatementNotExist(name));
    NoCrash(External(0));
  }

  lemma PortalThere(env: Env, h: seq<Op>, c: ConnId, st: State, name: GoString)
    requires Holds(After(env, h), c, st)
    ensures name in st.portals <==> exists b :: 0 <= b < |h| && Binds(env, h, b, c, name)
  {
    PortalIsSnapshot(env, h, c, name);
    hide After, Binds, Defines;
  }

  /** Describe of a portal is answered 'n' alone, exactly when a Bind made it and it was not closed since. */
  lemma DescribePortalAnswers(env: Env, st: State, c: ConnId, tick: nat, k: nat, name: GoString)
    requires Hears(env, st, tick, k, Describe(Frontend.Portal, name))
    ensures var before, t, h := Before(env, st, tick, k), Loop(env, st, tick).2[k], Heard(env, st, c, tick, k);
      if exists b :: 0 <= b < |h| && Binds(env, h, b, c, name)
      then Says(env, before, t, [Typed('n' as int, [])], None)
      else Says(env, before, t, [], Some(PortalNotExist(name)))
  {
    hide *;
    var q := Describe(Frontend.Portal, name);
    HearsMeans(env, st, tick, k, q);
    var i := TurnReplies(env, st, c, tick, k, q);
    var before := Before(env, st, tick, k).(input := i);
    PortalThere(env, Heard(env, st, c, tick, k), c, Before(env, st, tick, k), name);
    DescribeReply(env, before, Frontend.Portal, name);
    FinishAnswers(env, st, tick, k, q, before, Handle(env, before, q));
    NoCrash(PortalNotExist(name));
  }

  /** The other requests that run no query: what their handlers answer. */
  predicate OtherReply(q: Request, said: seq<Response>, err: Option<Error>) {
    match q
    case Close(_, _) => said == [Typed('3' as int, [])] && err == None
    case Unsupported(t) => said == [] && err == Some(NotSupported(t))
    case _ => said == [] && err == None
  }

  lemma OtherReplies(env: Env, st: State, q: Request)
    requires q.Close? || q.Unsupported? || q.Sync? || q.Flush?
    ensures var r := Handle(env, st, q);
      r.state.out == st.out && r.state.input == st.input && OtherReply(q, r.responses, r.err) && !CrashError(r.err)
  {
    hide ParseStep, BindStep, DescribeStep, QueryStep, ExecuteStep, TxStep;
  }

  /** Close is answered '3' whatever it names; Sync and Flush are answered with nothing; any other type is refused. */
  lemma OthersAnswer(env: Env, st: State, tick: nat, k: nat, q: Request)
    requires Hears(env, st, tick, k, q) && (q.Close? || q.Unsupported? || q.Sync? || q.Flush?)
    ensures var before, t := Before(env, st, tick, k), Loop(env, st, tick).2[k];
      match q
      case Close(_, _) => Says(env, before, t, [Typed('3' as int, [])], None)
      case Unsupported(typ) => Says(env, before, t, [], Some(NotSupported(typ)))
      case _ => Says(env, before, t, [], None)
  {
    HearsMeans(env, st, tick, k, q);
    hide Hears, Loop, Before, Says, Handle, Finish, Holds, CrashError, TxStep;
    var i := TurnReplies(env, st, 0, tick, k, q);
    var before := Before(env, st, tick, k).(input := i);
    OtherReplies(env, before, q);
    FinishAnswers(env, st, tick, k, q, before, Handle(env, before, q));
  }

  // Queries.

  /** What a query text does, in plain terms: an empty one is a ping, one that is not SQL is answered by the error
      handler, and statements are performed one after another. */
  lemma QueryReply(env: Env, st: State, q: Portal) returns (states: seq<State>)
    ensures var r := QueryStep(env, st, q);
      match env.bound(q.text, q.params)
      case Empty => r == Reply(st, [Typed('C' as int, Ascii("EMPTY") + [0])], None)
      case Rejected(code) =>
        var a := env.parserError(q.text, q.params, code);
        r == if a.failure.Some? then Reply(st, [], Some(External(a.failure.value))) else Reply(st, a.responses, None)
      case Statements(ss) =>
        && QueryLaws.Chain(env, states, ss, r.err) && states[0] == st && states[|states| - 1] == r.state
        && r.responses == [] && (r.err.None? ==> |states| == |ss| + 1)
  {
    hide StatementsStep, QueryLaws.Chain, TxStep;
    states := [st];
    assert Ascii("EMPTY") == [69, 77, 80, 84, 89];
    if env.bound(q.text, q.params).Statements? {
      states := QueryLaws.QueryPerformsPrefix(env, st, env.bound(q.text, q.params).stmts);
    }
  }

  /** The turn that runs a query: the ping's answer, the error handler's, or what the statements wrote. */
  ghost predicate RunsText(env: Env, before: State, t: Turn, q: Portal) {
    match env.bound(q.text, q.params)
    case Empty => Says(env, before, t, [Typed('C' as int, Ascii("EMPTY") + [0])], None)
    case Rejected(code) =>
      var a := env.parserError(q.text, q.params, code);
      if a.failure.Some? then Says(env, before, t, [], Some(External(a.failure.value)))
      else Says(env, before, t, a.responses, None)
    case Statements(ss) =>
      exists states: seq<State>, err: Option<Error> ::
        && QueryLaws.Chain(env, states, ss, err) && states[0] == before.(input := states[0].input)
        && (err.None? ==> |states| == |ss| + 1)
        && if CrashError(err) then t.phase == Crashed(err.value.fault) && t.state == states[|states| - 1]
           else Says(env, states[|states| - 1], t, [], err)
  }

  lemma RunsReply(env: Env, st: State, tick: nat, k: nat, q: Request, before: State, p: Portal)
    requires Hears(env, st, tick, k, q) && before == Before(env, st, tick, k).(input := before.input)
             && before.input.Tidy()
    requires Loop(env, st, tick).2[k] == Finish(env, tick + k, Success(q), QueryStep(env, before, p))
    ensures RunsText(env, Before(env, st, tick, k), Loop(env, st, tick).2[k], p)
  {
    HearsMeans(env, st, tick, k, q);
    hide Loop, Hears, Before, Says, QueryStep, Finish, QueryLaws.Chain, TxStep;
    var states := QueryReply(env, before, p);
    FinishAnswers(env, st, tick, k, q, before, QueryStep(env, before, p));
  }

  /** A simple query runs its own text, without parameters. */
  lemma QueryAnswers(env: Env, st: State, tick: nat, k: nat, text: GoString)
    requires Hears(env, st, tick, k, Query(text))
    ensures RunsText(env, Before(env, st, tick, k), Loop(env, st, tick).2[k], Portal(text, []))
  {
    hide *;
    var q := Query(text);
    HearsMeans(env, st, tick, k, q);
    var i := TurnReplies(env, st, 0, tick, k, q);
    var before := Before(env, st, tick, k).(input := i);
    QueryHandled(env, before, text);
    RunsReply(env, st, tick, k, q, before, Portal(text, []));
  }

  lemma QueryHandled(env: Env, st: State, text: GoString)
    ensures Handle(env, st, Query(text)) == QueryStep(env, st, Portal(text, []))
  {
    hide QueryStep, TxStep;
  }

  lemma BindsWhat(env: Env, h: seq<Op>, c: ConnId, p: GoString, b: nat, j: nat)
    requires j < b < |h| && Binds(env, h, b, c, p) && Defines(env, h, j, b, c, h[b].statement)
    ensures h[b].DoBind? && h[j].DoParse?
  {}

  /** Execute of a portal runs the text of the Parse that defined the statement when the portal was last bound, with
      that Bind's parameters. */
  lemma ExecuteAnswers(
    env: Env, st: State, c: ConnId, tick: nat, k: nat, p: GoString, maxRows: int, b: nat, j: nat)
    requires Hears(env, st, tick, k, Execute(p, maxRows))
    requires var h := Heard(env, st, c, tick, k);
      j < b < |h| && Binds(env, h, b, c, p) && Defines(env, h, j, b, c, h[b].statement)
    ensures var h := Heard(env, st, c, tick, k);
      RunsText(env, Before(env, st, tick, k), Loop(env, st, tick).2[k], Portal(h[j].query, h[b].params))
  {
    hide *;
    var q := Execute(p, maxRows);
    HearsMeans(env, st, tick, k, q);
    var i := TurnReplies(env, st, c, tick, k, q);
    var h, before := Heard(env, st, c, tick, k), Before(env, st, tick, k).(input := i);
    ExecuteIsQuery(env, before, p, maxRows);
    PortalIsSnapshot(env, h, c, p);
    PortalHeld(env, h, Before(env, st, tick, k), c, p, b, j);
    BindsWhat(env, h, c, p, b, j);
    RunsReply(env, st, tick, k, q, before, Portal(h[j].query, h[b].params));
  }

  /** Without such a Bind, or once the portal is closed, it is an error and nothing runs. */
  lemma ExecuteOfNothing(env: Env, st: State, c: ConnId, tick: nat, k: nat, p: GoString, maxRows: int)
    requires Hears(env, st, tick, k, Execute(p, maxRows))
    requires var h := Heard(env, st, c, tick, k); !exists b :: 0 <= b < |h| && Binds(env, h, b, c, p)
    ensures var before, t := Before(env, st, tick, k), Loop(env, st, tick).2[k];
      Says(env, before, t, [], Some(PortalNotExist(p))) && t.state.calls == before.calls
  {
    hide *;
    var q := Execute(p, maxRows);
    HearsMeans(env, st, tick, k, q);
    var i := TurnReplies(env, st, c, tick, k, q);
    var before := Before(env, st, tick, k).(input := i);
    ExecuteIsQuery(env, before, p, maxRows);
    PortalThere(env, Heard(env, st, c, tick, k), c, Before(env, st, tick, k), p);
    FinishAnswers(env, st, tick, k, q, before, Reply(before, [], Some(PortalNotExist(p))));
    FinishKeepsMaps(env, tick + k, Success(q), Reply(before, [], Some(PortalNotExist(p))));
    NoCrash(PortalNotExist(p));
  }

  /** Terminate is answered with nothing, and ends the loop. */
  lemma TerminateAnswers(env: Env, st: State, tick: nat, k: nat)
    requires Hears(env, st, tick, k, Terminate)
    ensures var before, t := Before(env, st, tick, k), Loop(env, st, tick).2[k];
      t.phase == Closed && t.state.out == before.out
  {
    hide *;
    HearsMeans(env, st, tick, k, Terminate);
    IsTurn(env, st, tick, k);
    HeardTerminate(env, Before(env, st, tick, k), tick + k);
  }

  lemma HeardTerminate(env: Env, st: State, tick: nat)
    requires Iterate(env, st, tick).request == Success(Terminate)
    ensures Iterate(env, st, tick).phase == Closed && Iterate(env, st, tick).state.out == st.out
  {
    hide Peek, Serve, Finish, ErrorResponse, TxStep;
    var m := Peek(st.input, 1);
    var (q, r) := Serve(env, st.(input := m.next), m.value[0]);
    FinishKeepsMaps(env, tick, q, r);
    TerminateSaysNothing(env, st.(input := m.next), m.value[0]);
  }

  lemma IsTurn(env: Env, st: State, tick: nat, k: nat)
    requires st.stmts == map[] && st.portals == map[] && k < |Loop(env, st, tick).2|
    ensures Loop(env, st, tick).2[k] == Iterate(env, Before(env, st, tick, k), tick + k)
  {
    hide *;
    NothingHeld(env, st, 0);
    RunApplies(env, [], st, 0, tick, k);
    Named(env, st, 0, tick, k);
  }

  // What cannot be read.

  /** A message that cannot be read is answered with its error alone; at the end of the input the loop ends with it. */
  lemma MalformedAnswers(env: Env, st: State, tick: nat)
    requires (forall n :: env.writeOk(n)) && st.input.Tidy()
    requires Iterate(env, st, tick).request.Failure? && !Iterate(env, st, tick).request.error.Crash?
    ensures var t := Iterate(env, st, tick);
      if t.phase.Running? then Says(env, st, t, [], Some(t.request.error))
      else t.phase == Closed && t.state.out == st.out + [Complaint(env, t.request.error)]
  {
    PeekKeepsTidy(st.input);
    hide Peek, Dispatch, Handle, Finish, Write, Complaint, ErrorResponse, Says, TxStep;
    var m := Peek(st.input, 1);
    if m.Err? {
      ComplaintIs(env, m.error);
      WroteIs(env, st.(input := m.next), ErrorResponse(env.errorText(m.error)));
    } else {
      var (q, r) := Serve(env, st.(input := m.next), m.value[0]);
      FinishKeepsMaps(env, tick, q, r);
      NotHanded(env, st, m.next, m.value[0], tick, q, r);
    }
  }

  lemma WroteIs(env: Env, st: State, r: Response)
    requires forall n :: env.writeOk(n)
    ensures Write(env, st, r).0.out == st.out + [r]
  {}

  lemma ServeFails(env: Env, st: State, i: Input, b: byte)
    requires i.Tidy()
    ensures var (q, r) := Serve(env, st.(input := i), b);
      q.Failure? ==> r == Reply(st.(input := r.state.input), [], Some(q.error)) && r.state.input.Tidy()
  {
    DispatchTidy(i, b);
    hide Dispatch, Handle, TxStep;
  }

  lemma NotHanded(env: Env, st: State, i: Input, b: byte, tick: nat, q: Result<Request>, r: Reply)
    requires (forall n :: env.writeOk(n)) && i.Tidy() && (q, r) == Serve(env, st.(input := i), b) && q.Failure?
    requires !q.error.Crash?
    ensures var t := Finish(env, tick, q, r); t.phase.Running? && Says(env, st, t, [], Some(q.error))
  {
    hide *;
    ServeFails(env, st, i, b);
    NoCrash(q.error);
    ReplySaid(env, tick, q, r);
    SaysRuns(env, st, r.state.input, Finish(env, tick, q, r), [], Some(q.error));
  }

  lemma SaysRuns(env: Env, st: State, i: Input, t: Turn, said: seq<Response>, err: Option<Error>)
    requires Says(env, st.(input := i), t, said, err)
    ensures Says(env, st, t, said, err) && t.phase.Running?
  {
    hide ErrorOf, Prompt;
  }
}
