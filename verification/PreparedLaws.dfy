/** What the handlers of a connection do to its prepared statements and portals, over every run on any input, is what
    the flat tables do over the history of its requests. */
module PreparedLaws {
  import opened BigEndian
  import opened Errors
  import opened Inputs
  import opened PreparedTable
  import opened Requests
  import opened Session
  import ConversationLaws
  import Frontend
  import OutputLaws
  import QueryLaws

  /** The table operation of a request, if it is one. */
  function OpsOf(c: ConnId, q: Request): seq<Op> {
    match q
    case Parse(name, query, types) => [DoParse(c, name, query, types)]
    case Bind(portal, statement, params) => [DoBind(c, portal, statement, params)]
    case Close(kind, name) => [DoClose(c, kind, name)]
    case Execute(portal, _) => [DoExecute(c, portal)]
    case _ => []
  }

  /** The operation of what was heard, if it could be decoded. */
  function OpsHeard(c: ConnId, q: Result<Request>): seq<Op> {
    if q.Success? then OpsOf(c, q.value) else []
  }

  function OpsOfTurn(c: ConnId, t: Turn): seq<Op> {
    OpsHeard(c, t.request)
  }

  function History(c: ConnId, turns: seq<Turn>): seq<Op>
    decreases |turns|
  {
    if turns == [] then [] else History(c, turns[..|turns| - 1]) + OpsOfTurn(c, turns[|turns| - 1])
  }

  /** The history of a whole connection. */
  function Received(c: ConnId, env: Env, st: State): seq<Op> {
    var (st1, phase) := Session.Hello(env, st);
    if phase.Running? then History(c, Loop(env, st1, 0).2) else []
  }

  /** The state holds connection c's part of the flat tables. */
  ghost predicate Holds(f: Flat, c: ConnId, st: State) {
    Agree(f.stmts, st.stmts, c) && Agree(f.portals, st.portals, c)
  }

  lemma {:induction false} StatementsKeepMaps(env: Env, st: State, ss: seq<Stmt>)
    ensures var r := StatementsStep(env, st, ss); r.state.stmts == st.stmts && r.state.portals == st.portals
    decreases |ss|
  {
    hide StatementStep, WriteAll, TxStep;
    QueryLaws.StatementsFirst(env, st, ss);
    if ss != [] {
      if ss[0].Copy? { QueryLaws.CopyPerforms(env, st, ss[0]); } else { QueryLaws.PlainPerforms(env, st, ss[0]); }
      hide QueryLaws.PerformsCopy, QueryLaws.PerformsCall, StatementsStep;
      QueryLaws.WriteNothing(env, StatementStep(env, st, ss[0]).state);
      var r := QueryLaws.OneStep(env, st, ss[0]);
      if r.err.None? {
        StatementsKeepMaps(env, r.state, ss[1..]);
      }
    }
  }

  /** No query touches the maps. */
  lemma QueryKeepsMaps(env: Env, st: State, q: Portal)
    ensures var r := QueryStep(env, st, q); r.state.stmts == st.stmts && r.state.portals == st.portals
  {
    hide StatementsStep, TxStep;
    if env.bound(q.text, q.params).Statements? {
      StatementsKeepMaps(env, st, env.bound(q.text, q.params).stmts);
    }
  }

  lemma ParseApplies(env: Env, f: Flat, st: State, c: ConnId, name: GoString, query: GoString, types: seq<int>)
    requires Holds(f, c, st)
    ensures Holds(Apply(env, f, DoParse(c, name, query, types)), c, ParseStep(env, st, name, query, types).state)
  {
    hide Agree, TxStep;
    if Accepts(env, query) {
      SetAgrees(f.stmts, st.stmts, c, c, name, PreparedStatement(name, query, types, env.parse(query).stmts[0]));
    }
  }

  lemma BindStepApplies(env: Env, f: Flat, st: State, c: ConnId, portal: GoString, statement: GoString,
      params: seq<BindParam>)
    requires Holds(f, c, st)
    ensures Holds(Apply(env, f, DoBind(c, portal, statement, params)), c, BindStep(st, portal, statement, params).state)
  {
    hide TxStep;
    if statement in st.stmts {
      BindApplies(env, f, st.stmts, c, portal, statement, params);
      hide Agree, Apply;
      SetAgrees(f.portals, st.portals, c, c, portal, Portal(st.stmts[statement].query, params));
    }
  }

  lemma CloseApplies(env: Env, f: Flat, st: State, c: ConnId, kind: Frontend.Prepared, name: GoString)
    requires Holds(f, c, st)
    ensures Holds(Apply(env, f, DoClose(c, kind, name)), c, CloseStep(st, kind, name).state)
  {
    hide Agree, TxStep;
    if kind.Statement? {
      RemoveAgrees(f.stmts, st.stmts, c, c, name);
    } else {
      RemoveAgrees(f.portals, st.portals, c, c, name);
    }
  }

  /** Every handler changes its connection's maps as the flat operation of its request does. */
  lemma HandleApplies(env: Env, f: Flat, st: State, q: Request, c: ConnId)
    requires Holds(f, c, st)
    ensures Holds(if OpsOf(c, q) == [] then f else Apply(env, f, OpsOf(c, q)[0]), c, Handle(env, st, q).state)
  {
    hide QueryStep, ParseStep, BindStep, CloseStep, TxStep, Agree;
    match q
    case Query(text) => QueryKeepsMaps(env, st, Portal(text, []));
    case Execute(portal, _) => if portal in st.portals { QueryKeepsMaps(env, st, st.portals[portal]); }
    case Parse(name, query, types) => ParseApplies(env, f, st, c, name, query, types);
    case Bind(portal, statement, params) => BindStepApplies(env, f, st, c, portal, statement, params);
    case Close(kind, name) => CloseApplies(env, f, st, c, kind, name);
    case _ =>
  }

  lemma RespondKeepsMaps(env: Env, r: Reply)
    ensures var st := Respond(env, r).0;
      st.stmts == r.state.stmts && st.portals == r.state.portals && st.calls == r.state.calls
  {
    hide WriteAll, TxStep;
    QueryLaws.WriteAllPrefix(env, r.state, r.responses);
  }

  lemma ReadyKeepsMaps(env: Env, st: State, tick: nat)
    ensures var st1 := Ready(env, st, tick).0;
      st1.stmts == st.stmts && st1.portals == st.portals && st1.calls == st.calls
  {
    hide Peek, TxStep;
  }

  lemma FinishKeepsMaps(env: Env, tick: nat, q: Result<Request>, r: Reply)
    ensures var t := Finish(env, tick, q, r);
      && t.state.stmts == r.state.stmts && t.state.portals == r.state.portals && t.state.calls == r.state.calls
      && t.request == q
  {
    hide Respond, Ready, TxStep;
    RespondKeepsMaps(env, r);
    ReadyKeepsMaps(env, Respond(env, r).0, tick);
  }

  /** The loop that began with history h and makes the whole run has come to this state and history. */
  ghost predicate Halfway(
    c: ConnId, env: Env, h: seq<Op>, whole: (State, Phase, seq<Turn>), now: seq<Op>, st: State, phase: Phase, tick: nat)
  {
    if phase.Running? then
      var rest := Loop(env, st, tick);
      (whole.0, whole.1) == (rest.0, rest.1) && h + History(c, whole.2) == now + History(c, rest.2)
    else
      (whole.0, whole.1) == (st, phase) && h + History(c, whole.2) == now
  }

  /** Where the loop begins and where it ends. */
  lemma LoopEnds(c: ConnId, env: Env, h: seq<Op>, whole: (State, Phase, seq<Turn>))
    ensures forall st: State, tick: nat :: whole == Loop(env, st, tick) ==>
            Halfway(c, env, h, whole, h, st, Running, tick)
    ensures forall now: seq<Op>, st: State, phase: Phase, tick: nat ::
              Halfway(c, env, h, whole, now, st, phase, tick) && !phase.Running? ==>
              (st, phase) == (whole.0, whole.1) && now == h + History(c, whole.2)
  {
    hide Loop, History;
  }

  /** A run is its first turn and the run that goes on from there, and so is its history. */
  lemma LoopGoesOn(c: ConnId, env: Env, h: seq<Op>, whole: (State, Phase, seq<Turn>), now: seq<Op>, st: State,
      tick: nat)
    requires Halfway(c, env, h, whole, now, st, Running, tick)
    ensures var t := Iterate(env, st, tick);
            Halfway(c, env, h, whole, now + OpsHeard(c, t.request), t.state, t.phase, tick + 1)
  {
    hide Iterate, Loop, History, OpsOfTurn, OpsHeard;
    ConversationLaws.LoopFirst(env, st, tick);
    var t := Iterate(env, st, tick);
    SameOps(c, t);
    if t.phase.Running? {
      var rest := Loop(env, t.state, tick + 1).2;
      HistoryFirst(c, t, rest);
      assert now + (OpsOfTurn(c, t) + History(c, rest)) == (now + OpsOfTurn(c, t)) + History(c, rest);
    } else {
      HistoryFirst(c, t, []);
      NoHistory(c);
      assert [t] + [] == [t] && OpsOfTurn(c, t) + [] == OpsOfTurn(c, t);
    }
  }

  lemma SameOps(c: ConnId, t: Turn)
    ensures OpsOfTurn(c, t) == OpsHeard(c, t.request)
  {}

  lemma NoHistory(c: ConnId)
    ensures History(c, []) == []
  {}

  lemma AfterOps(env: Env, h: seq<Op>, ops: seq<Op>)
    requires |ops| <= 1
    ensures After(env, h + ops) == if ops == [] then After(env, h) else Apply(env, After(env, h), ops[0])
  {
    if ops == [] {
      assert h + ops == h;
    } else {
      assert ops == [ops[0]];
      AfterStep(env, h, ops[0]);
    }
  }

  /** One turn, on any input. */
  lemma TurnApplies(env: Env, h: seq<Op>, st: State, c: ConnId, tick: nat)
    requires Holds(After(env, h), c, st)
    ensures var t := Iterate(env, st, tick); Holds(After(env, h + OpsOfTurn(c, t)), c, t.state)
  {
    hide After, Handle, Dispatch, Finish, Peek, Apply, Agree, TxStep;
    var p := Peek(st.input, 1);
    AfterOps(env, h, OpsOfTurn(c, Iterate(env, st, tick)));
    if p.Ok? {
      var st1 := st.(input := p.next);
      var (q, r) := Serve(env, st1, p.value[0]);
      FinishKeepsMaps(env, tick, q, r);
      var d := Dispatch(st1.input, p.value[0]);
      if d.Ok? {
        HandleApplies(env, After(env, h), st1.(input := d.next), d.value, c);
      }
    }
  }

  function StateBefore(st: State, turns: seq<Turn>, k: nat): State
    requires k <= |turns|
  {
    if k == 0 then st else turns[k - 1].state
  }

  /** Over every run on any input: before every turn, and at the end, the connection's maps are its part of the flat
      tables after its history. */
  lemma {:induction false} RunApplies(env: Env, h: seq<Op>, st: State, c: ConnId, tick: nat, k: nat)
    requires Holds(After(env, h), c, st) && k <= |Loop(env, st, tick).2|
    ensures var turns := Loop(env, st, tick).2;
            Holds(After(env, h + History(c, turns[..k])), c, StateBefore(st, turns, k))
    ensures k < |Loop(env, st, tick).2| ==>
              Loop(env, st, tick).2[k] == Iterate(env, StateBefore(st, Loop(env, st, tick).2, k), tick + k)
    decreases k
  {
    hide Iterate, After, Holds, OpsOfTurn;
    ConversationLaws.LoopFirst(env, st, tick);
    var t := Iterate(env, st, tick);
    var turns := Loop(env, st, tick).2;
    hide Loop;
    assert turns[0] == t;
    if k == 0 {
      assert turns[..0] == [] && h + [] == h;
    } else {
      TurnApplies(env, h, st, c, tick);
      if k == 1 && !t.phase.Running? {
        HistoryFirst(c, t, []);
        assert turns == [t] && [t] + [] == [t] && turns[..1] == [t];
        assert OpsOfTurn(c, t) + [] == OpsOfTurn(c, t);
      } else {
        var rest := Loop(env, t.state, tick + 1).2;
        RunApplies(env, h + OpsOfTurn(c, t), t.state, c, tick + 1, k - 1);
        HistoryFirst(c, t, rest[..k - 1]);
        assert turns[..k] == [t] + rest[..k - 1];
        assert (h + OpsOfTurn(c, t)) + History(c, rest[..k - 1]) == h + (OpsOfTurn(c, t) + History(c, rest[..k - 1]));
      }
    }
  }

  lemma {:induction false} HistoryFirst(c: ConnId, t: Turn, turns: seq<Turn>)
    ensures History(c, [t] + turns) == OpsOfTurn(c, t) + History(c, turns)
    decreases |turns|
  {
    hide OpsOfTurn;
    var n := |turns|;
    if n == 0 {
      assert [t] + turns == [t] && [t][..0] == [];
      assert OpsOfTurn(c, t) + [] == OpsOfTurn(c, t) && [] + OpsOfTurn(c, t) == OpsOfTurn(c, t);
    } else {
      HistoryFirst(c, t, turns[..n - 1]);
      assert ([t] + turns)[..n] == [t] + turns[..n - 1];
      assert OpsOfTurn(c, t) + (History(c, turns[..n - 1]) + OpsOfTurn(c, turns[n - 1]))
          == (OpsOfTurn(c, t) + History(c, turns[..n - 1])) + OpsOfTurn(c, turns[n - 1]);
    }
  }

  /** Over every run of a fresh connection, on any input: the turn that hears Execute of a portal runs the query of the
      Parse that defined the statement when the portal was last bound, with that Bind's parameters. */
  lemma ExecuteRunsSnapshot(env: Env, st: State, c: ConnId, tick: nat, k: nat, p: GoString, maxRows: int, b: nat,
      j: nat)
    returns (i: Input)
    requires st.stmts == map[] && st.portals == map[] && k < |Loop(env, st, tick).2|
    requires Loop(env, st, tick).2[k].request == Success(Execute(p, maxRows))
    requires var h := History(c, Loop(env, st, tick).2[..k]);
      j < b < |h| && Binds(env, h, b, c, p) && Defines(env, h, j, b, c, h[b].statement)
    ensures var turns := Loop(env, st, tick).2;
      var h, before := History(c, turns[..k]), StateBefore(st, turns, k);
      OutputLaws.Served(env, before) == QueryStep(env, before.(input := i), Portal(h[j].query, h[b].params))
  {
    hide *;
    var turns := Loop(env, st, tick).2;
    var h, before := History(c, turns[..k]), StateBefore(st, turns, k);
    NothingHeld(env, st, c);
    RunApplies(env, [], st, c, tick, k);
    assert [] + h == h;
    PortalIsSnapshot(env, h, c, p);
    PortalHeld(env, h, before, c, p, b, j);
    i := HeardExecute(env, before, tick + k, p, maxRows);
    ExecuteIsQuery(env, before.(input := i), p, maxRows);
  }

  /** And without such a Bind, or once the portal is closed, it runs nothing. */
  lemma ExecuteNeedsPortal(env: Env, st: State, c: ConnId, tick: nat, k: nat, p: GoString, maxRows: int)
      returns (i: Input)
    requires st.stmts == map[] && st.portals == map[] && k < |Loop(env, st, tick).2|
    requires Loop(env, st, tick).2[k].request == Success(Execute(p, maxRows))
    requires var h := History(c, Loop(env, st, tick).2[..k]); !exists b :: 0 <= b < |h| && Binds(env, h, b, c, p)
    ensures var before := StateBefore(st, Loop(env, st, tick).2, k);
      OutputLaws.Served(env, before) == Reply(before.(input := i), [], Some(PortalNotExist(p)))
  {
    hide *;
    var turns := Loop(env, st, tick).2;
    var h, before := History(c, turns[..k]), StateBefore(st, turns, k);
    NothingHeld(env, st, c);
    RunApplies(env, [], st, c, tick, k);
    assert [] + h == h;
    PortalIsSnapshot(env, h, c, p);
    NoPortalHeld(env, h, before, c, p);
    i := HeardExecute(env, before, tick + k, p, maxRows);
    ExecuteIsQuery(env, before.(input := i), p, maxRows);
  }

  lemma NothingHeld(env: Env, st: State, c: ConnId)
    requires st.stmts == map[] && st.portals == map[]
    ensures Holds(After(env, []), c, st)
  {}

  lemma PortalHeld(env: Env, h: seq<Op>, st: State, c: ConnId, p: GoString, b: nat, j: nat)
    requires Snapshot(env, h, c, p) && Holds(After(env, h), c, st)
    requires j < b < |h| && Binds(env, h, b, c, p) && Defines(env, h, j, b, c, h[b].statement)
    ensures p in st.portals && st.portals[p] == Portal(h[j].query, h[b].params)
  {
    hide After, Binds, Defines;
  }

  lemma NoPortalHeld(env: Env, h: seq<Op>, st: State, c: ConnId, p: GoString)
    requires Snapshot(env, h, c, p) && Holds(After(env, h), c, st)
    requires !exists b :: 0 <= b < |h| && Binds(env, h, b, c, p)
    ensures p !in st.portals
  {
    hide After, Binds, Defines;
  }

  /** A turn that hears Execute has handed it to its handler. */
  lemma HeardExecute(env: Env, st: State, tick: nat, p: GoString, maxRows: int) returns (i: Input)
    requires Iterate(env, st, tick).request == Success(Execute(p, maxRows))
    ensures OutputLaws.Served(env, st) == Handle(env, st.(input := i), Execute(p, maxRows))
  {
    hide Peek, Dispatch, Handle, TxStep;
    var m := Peek(st.input, 1);
    var (q, r) := Serve(env, st.(input := m.next), m.value[0]);
    FinishKeepsMaps(env, tick, q, r);
    hide Finish;
    i := Dispatch(m.next, m.value[0]).next;
  }

  lemma ExecuteIsQuery(env: Env, st: State, p: GoString, maxRows: int)
    ensures Handle(env, st, Execute(p, maxRows)) ==
            if p in st.portals then QueryStep(env, st, st.portals[p]) else Reply(st, [], Some(PortalNotExist(p)))
  {
    hide QueryStep, TxStep;
  }
}
