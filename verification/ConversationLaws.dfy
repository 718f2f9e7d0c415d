/**
 The byte-level dispatch loop refines the server that hears messages: for every list of messages, COPY data included,
 every oracle of arriving input, every failing write and every split of the bytes into peeks and reads.
 */
module ConversationLaws {
  import opened BigEndian
  import opened CopyLaws
  import opened Errors
  import opened Inputs
  import opened MessageServer
  import opened Requests
  import opened Responses
  import opened Session
  import F = Frontend
  import MessageLaws
  import QueryLaws

  // The input plays no part but for COPY.

  lemma {:induction false} WriteAllDeaf(env: Env, st: State, rs: seq<Response>)
    ensures WriteAll(env, Deaf(st), rs) == (Deaf(WriteAll(env, st, rs).0), WriteAll(env, st, rs).1)
    ensures WriteAll(env, st, rs).0.input == st.input
    decreases |rs|
  {
    if rs != [] {
      WriteAllDeaf(env, Write(env, st, rs[0]).0, rs[1..]);
    }
  }

  lemma StatementDeaf(env: Env, st: State, s: Stmt)
    requires !s.Copy?
    ensures var r, d := StatementStep(env, st, s), StatementStep(env, Deaf(st), s);
      r.state.input == st.input && d == Reply(Deaf(r.state), r.responses, r.err)
  {
    hide TxStep;
  }

  predicate RunsQuery(st: State, q: Request) {
    q.Query? || (q.Execute? && q.portal in st.portals)
  }

  lemma HandleDeaf(env: Env, st: State, q: Request)
    requires !RunsQuery(st, q)
    ensures var r, d := Handle(env, st, q), Handle(env, Deaf(st), q);
      r.state.input == st.input && d == Reply(Deaf(r.state), r.responses, r.err)
  {
    hide TxStep, QueryStep;
  }

  lemma BareQueryDeaf(env: Env, st: State, q: Portal)
    requires !env.bound(q.text, q.params).Statements?
    ensures var r, d := QueryStep(env, st, q), QueryStep(env, Deaf(st), q);
      r.state.input == st.input && d == Reply(Deaf(r.state), r.responses, r.err)
  {
    hide TxStep, StatementsStep;
  }

  // One handler.

  /** The input stands in front of messages `ms`; the type of the first may have been looked at. */
  predicate Before(i: Input, ms: seq<F.Message>, seen: bool, tail: Bytes) {
    i.Tidy() && i.Stream() == F.EncodeAll(ms) + tail && Whole(ms, tail) && (i.peek != [] <==> seen)
  }

  /** The byte-level reply `r`, given in state `st`, is the message-level reply `t`. */
  predicate Alike(st: State, r: Reply, t: Told, tail: Bytes) {
    && Deaf(r.state) == t.reply.state && r.responses == t.reply.responses && r.err == t.reply.err
    && Before(r.state.input, t.left, t.seen, tail) && r.state.input.cuts == st.input.cuts
  }

  lemma StreamAlike(env: Env, st: State, s: Stmt, columns: seq<GoString>, ms: seq<F.Message>, seen: bool, tail: Bytes)
    requires Before(st.input, ms, seen, tail)
    ensures Alike(st, CopyLoop(env, st, s, columns, 0, 0), StreamTold(env, Deaf(st), s, columns, ms), tail)
  {
    hide CopyLoop, Inserts, Accepted, Verdict, Lines, Unread, Peeked, F.EncodeAll, Whole, TxStep;
    var r, cs, n := CopyLoopReads(env, st, s, columns, ms, tail);
  }

  /** The hand-off: the stream is entered exactly when CopyData is next. */
  lemma EnterAlike(env: Env, st: State, s: Stmt, ms: seq<F.Message>, seen: bool, tail: Bytes)
    requires s.Copy? && Before(st.input, ms, seen, tail)
    ensures Alike(st, EnterStream(env, st, s), EnterTold(env, Deaf(st), s, ms), tail)
  {
    hide CopyLoop, StreamTold, F.EncodeAll, F.TypeByte, Whole, TxStep, Peek;
    PeekNext(st.input, ms, tail);
    if ms == [] {
      EncodeNothing(tail);
      EmptyTail(tail);
    } else {
      FirstIsSound(ms, tail);
      OnlyCopyTypes(ms[0]);
      var st1 := st.(input := Peek(st.input, 1).next);
      if IsCopyData(ms) && env.schema(st.calls, s).Success? {
        StreamAlike(env, st1, s, if s.columns == [] then env.schema(st.calls, s).value else s.columns, ms, true, tail);
      }
    }
  }

  lemma EmptyTail(tail: Bytes)
    requires Whole([], tail)
    ensures tail == []
  {}

  lemma CopyAlike(env: Env, st: State, s: Stmt, ms: seq<F.Message>, seen: bool, tail: Bytes)
    requires s.Copy? && Before(st.input, ms, seen, tail)
    ensures Alike(st, CopyStep(env, st, s), CopyTold(env, Deaf(st), s, ms, seen), tail)
  {
    hide EnterStream, EnterTold, WriteAll, HasError, Complains, F.EncodeAll, Whole, TxStep;
    var (st1, a) := Perform(env, st, StartCopy(s));
    ComplaintIsError(a.responses);
    WriteAllDeaf(env, st1, a.responses);
    EnterAlike(env, WriteAll(env, st1, a.responses).0, s, ms, seen, tail);
  }

  lemma ComplaintIsError(rs: seq<Response>)
    ensures HasError(rs) <==> Complains(rs)
  {}

  lemma FirstIsSound(ms: seq<F.Message>, tail: Bytes)
    requires ms != [] && Whole(ms, tail)
    ensures F.WellFormed(ms[0]) && Sound(ms[0]) && (!ms[0].Terminate? ==> Whole(ms[1..], tail))
  {}

  lemma StatementAlike(env: Env, st: State, s: Stmt, ms: seq<F.Message>, seen: bool, tail: Bytes)
    requires Before(st.input, ms, seen, tail)
    ensures Alike(st, StatementStep(env, st, s), StatementTold(env, Deaf(st), s, ms, seen), tail)
  {
    if s.Copy? {
      hide CopyStep, CopyTold, TxStep;
      CopyAlike(env, st, s, ms, seen, tail);
    } else {
      hide StatementStep, TxStep, Whole, F.EncodeAll;
      StatementDeaf(env, st, s);
    }
  }

  lemma {:induction false} StatementsAlike(env: Env, st: State, ss: seq<Stmt>, ms: seq<F.Message>, seen: bool,
      tail: Bytes)
    requires Before(st.input, ms, seen, tail)
    ensures Alike(st, StatementsStep(env, st, ss), StatementsTold(env, Deaf(st), ss, ms, seen), tail)
    decreases |ss|
  {
    hide StatementStep, StatementTold, WriteAll, TxStep, Whole, F.EncodeAll;
    if ss != [] {
      StatementAlike(env, st, ss[0], ms, seen, tail);
      var r, t := StatementStep(env, st, ss[0]), StatementTold(env, Deaf(st), ss[0], ms, seen);
      WriteAllDeaf(env, r.state, r.responses);
      QueryLaws.WriteNothing(env, r.state);
      QueryLaws.WriteNothing(env, t.reply.state);
      var (st1, w) := WriteAll(env, r.state, r.responses);
      StatementsAlike(env, st1, ss[1..], t.left, t.seen, tail);
    }
  }

  lemma QueryAlike(env: Env, st: State, q: Portal, ms: seq<F.Message>, tail: Bytes)
    requires Before(st.input, ms, false, tail)
    ensures Alike(st, QueryStep(env, st, q), QueryTold(env, Deaf(st), q, ms), tail)
  {
    hide StatementsStep, StatementsTold, TxStep, Whole, F.EncodeAll;
    if env.bound(q.text, q.params).Statements? {
      StatementsAlike(env, st, env.bound(q.text, q.params).stmts, ms, false, tail);
    } else {
      BareQueryDeaf(env, st, q);
    }
  }

  /** A handler does to its state, and says, what the message-level handler does and says, and leaves the input in front
      of the messages that one leaves. */
  lemma HandleAlike(env: Env, st: State, q: Request, ms: seq<F.Message>, tail: Bytes)
    requires Before(st.input, ms, false, tail)
    ensures Alike(st, Handle(env, st, q), HandleTold(env, Deaf(st), q, ms), tail)
  {
    if RunsQuery(st, q) {
      hide QueryStep, QueryTold, TxStep, Before;
      match q
      case Query(text) => QueryAlike(env, st, Portal(text, []), ms, tail);
      case Execute(portal, _) => QueryAlike(env, st, st.portals[portal], ms, tail);
    } else {
      HandleDeaf(env, st, q);
      hide Handle, QueryTold, TxStep;
    }
  }

  // One turn.

  /** Byte-level turn and message-level exchange: the same request, reply, phase and state, and the input stands in
      front of the messages left. */
  predicate SameTurn(t: Turn, x: Exchange, tail: Bytes) {
    && t.request == x.turn.request && t.phase == x.turn.phase && t.err == x.turn.err && t.ready == x.turn.ready
    && Deaf(t.state) == x.turn.state
    && t.state.input.Tidy() && t.state.input.Stream() == F.EncodeAll(x.left) + tail
  }

  /** The turn of a decoded request other than Terminate. */
  lemma TurnOfMessage(env: Env, st: State, m: F.Message, s: Bytes, tick: nat)
    requires F.WellFormed(m) && !m.Terminate? && st.input.Tidy()
    requires st.input.Stream() == F.Encode(m) + s && F.Unsplit(m, |s|, st.input.cuts)
    ensures Iterate(env, st, tick)
         == Finish(env, tick, Success(Meaning(m)), Handle(env, st.(input := At(st.input, s)), Meaning(m)))
  {
    hide Peek, Dispatch, Finish, Handle, F.WellFormed, F.Encode, F.Unsplit, TxStep;
    MessageLaws.DispatchDecodes(st.input, m, s);
    var p := st.(input := Peek(st.input, 1).next);
    assert p.(input := At(st.input, s)) == st.(input := At(st.input, s));
    assert Meaning(m) != Terminate;
  }

  lemma WriteDeaf(env: Env, st: State, r: Response)
    ensures Write(env, Deaf(st), r) == (Deaf(Write(env, st, r).0), Write(env, st, r).1)
    ensures Write(env, st, r).0.input == st.input
  {}

  lemma RespondDeaf(env: Env, r: Reply)
    ensures Respond(env, Reply(Deaf(r.state), r.responses, r.err)) == (Deaf(Respond(env, r).0), Respond(env, r).1)
    ensures Respond(env, r).0.input == r.state.input
  {
    hide WriteAll, Write, TxStep;
    WriteAllDeaf(env, r.state, r.responses);
    if r.err.Some? {
      WriteDeaf(env, WriteAll(env, r.state, r.responses).0, ErrorResponse(env.errorText(r.err.value)));
    }
  }

  /** ReadyForQuery is withheld exactly when a message is left whose type was looked at or can be looked at now. */
  lemma ReadyAlike(env: Env, st: State, left: seq<F.Message>, seen: bool, tail: Bytes, tick: nat)
    requires Before(st.input, left, seen, tail)
    ensures var r := Ready(env, st, tick);
      && r.0.input.Tidy() && r.0.input.Stream() == F.EncodeAll(left) + tail && r.0.input.cuts == st.input.cuts
      && if left != [] && (seen || env.arrived(tick)) then Deaf(r.0) == Deaf(st) && r.1 == None && r.2 == None
         else
           var w := Write(env, Deaf(st), ReadyForQuery(Status(st)));
           Deaf(r.0) == w.0 && r.1 == w.1 && r.2 == if w.1.Some? then None else Some(Status(st))
  {
    hide Peek, Write, F.EncodeAll, F.TypeByte, Whole, TxStep;
    PeekNext(st.input, left, tail);
    var i := PeekNow(env, st.input, tick).next;
    WriteDeaf(env, st.(input := i), ReadyForQuery(Status(st)));
    if left == [] {
      EncodeNothing(tail);
      EmptyTail(tail);
    }
  }

  lemma FinishAlike(env: Env, q: Request, st: State, r: Reply, t: Told, tail: Bytes, tick: nat)
    requires Alike(st, r, t, tail)
    ensures var turn, x := Finish(env, tick, Success(q), r), Conclude(env, q, t, tick);
      SameTurn(turn, x, tail) && turn.state.input.cuts == st.input.cuts && Whole(x.left, tail)
  {
    hide Respond, Ready, Write, F.EncodeAll, Whole, TxStep;
    if !(r.err.Some? && r.err.value.Crash?) {
      RespondDeaf(env, r);
      var st1 := Respond(env, r).0;
      ReadyAlike(env, st1, t.left, t.seen, tail, tick);
    }
  }

  lemma {:induction false} UnsplitSuffix(ms: seq<F.Message>, left: seq<F.Message>, after: nat, cuts: set<nat>)
    requires F.AllUnsplit(ms, after, cuts) && Suffix(left, ms)
    ensures F.AllUnsplit(left, after, cuts)
    decreases |ms|
  {
    hide F.Unsplit, F.EncodeAll;
    if |left| < |ms| {
      assert ms[1..][|ms| - 1 - |left|..] == left;
      UnsplitSuffix(ms[1..], left, after, cuts);
    } else {
      assert left == ms;
    }
  }

  lemma UnsplitFirst(ms: seq<F.Message>, after: nat, cuts: set<nat>)
    requires ms != [] && F.AllUnsplit(ms, after, cuts)
    ensures F.Unsplit(ms[0], |F.EncodeAll(ms[1..])| + after, cuts) && F.AllUnsplit(ms[1..], after, cuts)
  {}

  lemma LastTurn(env: Env, st: State, tail: Bytes, tick: nat)
    requires st.input.Tidy() && st.input.Stream() == F.EncodeAll([]) + tail && Whole([], tail)
    ensures SameTurn(Iterate(env, st, tick), Hear(env, Deaf(st), [], tick), tail)
  {
    hide Peek, TakeTurn, Write, TxStep;
    PeekNext(st.input, [], tail);
    EncodeNothing(tail);
    WriteDeaf(env, st.(input := Peek(st.input, 1).next), ErrorResponse(env.errorText(Eof)));
  }

  lemma TerminateTurn(env: Env, st: State, ms: seq<F.Message>, tail: Bytes, tick: nat)
    requires ms != [] && ms[0].Terminate? && st.input.Tidy() && st.input.Stream() == F.EncodeAll(ms) + tail
    ensures SameTurn(Iterate(env, st, tick), Hear(env, Deaf(st), ms, tick), tail)
  {
    hide Peek, Dispatch, F.Encode, F.EncodeAll, Finish, TxStep, Int32Bytes;
    EncodeFirst(ms, tail);
    MessageLaws.DispatchDecodes(st.input, ms[0], F.EncodeAll(ms[1..]) + tail);
  }

  /** One turn on the bytes of some messages is one exchange about the messages: the first is decoded and consumed
      exactly, a COPY takes exactly the messages it takes, and the rest of the stream is untouched. */
  lemma TurnAnswers(env: Env, st: State, ms: seq<F.Message>, tail: Bytes, tick: nat)
    requires st.input.Tidy() && st.input.Stream() == F.EncodeAll(ms) + tail
    requires Whole(ms, tail) && F.AllUnsplit(ms, |tail|, st.input.cuts)
    ensures var t, x := Iterate(env, st, tick), Hear(env, Deaf(st), ms, tick);
      && SameTurn(t, x, tail)
      && (t.phase.Running? ==>
            t.state.input.cuts == st.input.cuts && Whole(x.left, tail) && F.AllUnsplit(x.left, |tail|, st.input.cuts))
  {
    hide *;
    if ms == [] {
      LastTurn(env, st, tail, tick);
      HearNothing(env, Deaf(st), tick);
      SamePhase(Iterate(env, st, tick), Hear(env, Deaf(st), ms, tick), tail);
    } else if ms[0].Terminate? {
      TerminateTurn(env, st, ms, tail, tick);
      HearTerminate(env, Deaf(st), ms, tick);
      SamePhase(Iterate(env, st, tick), Hear(env, Deaf(st), ms, tick), tail);
    } else {
      RequestTurn(env, st, ms, tail, tick);
    }
  }

  lemma HearNothing(env: Env, st: State, tick: nat)
    ensures Hear(env, st, [], tick).turn.phase == Closed
  {}

  lemma HearTerminate(env: Env, st: State, ms: seq<F.Message>, tick: nat)
    requires ms != [] && ms[0].Terminate?
    ensures Hear(env, st, ms, tick).turn.phase == Closed
  {}

  lemma HearRequest(env: Env, st: State, ms: seq<F.Message>, tick: nat)
    requires ms != [] && !ms[0].Terminate?
    ensures Hear(env, st, ms, tick) == Conclude(env, Meaning(ms[0]), HandleTold(env, st, Meaning(ms[0]), ms[1..]), tick)
    ensures Suffix(Hear(env, st, ms, tick).left, ms)
  {
    hide Conclude, HandleTold, Meaning;
  }

  lemma RequestTurn(env: Env, st: State, ms: seq<F.Message>, tail: Bytes, tick: nat)
    requires ms != [] && !ms[0].Terminate?
    requires st.input.Tidy() && st.input.Stream() == F.EncodeAll(ms) + tail
    requires Whole(ms, tail) && F.AllUnsplit(ms, |tail|, st.input.cuts)
    ensures var t, x := Iterate(env, st, tick), Hear(env, Deaf(st), ms, tick);
      && SameTurn(t, x, tail)
      && t.state.input.cuts == st.input.cuts && Whole(x.left, tail) && F.AllUnsplit(x.left, |tail|, st.input.cuts)
  {
    hide *;
    var q, s := Meaning(ms[0]), F.EncodeAll(ms[1..]) + tail;
    FirstIsSound(ms, tail);
    EncodeFirst(ms, tail);
    UnsplitFirst(ms, |tail|, st.input.cuts);
    TurnOfMessage(env, st, ms[0], s, tick);
    var st0 := st.(input := At(st.input, s));
    AtStands(st.input, ms[1..], tail);
    DeafTwice(st, At(st.input, s));
    HandleAlike(env, st0, q, ms[1..], tail);
    HearRequest(env, Deaf(st), ms, tick);
    FinishAlike(env, q, st0, Handle(env, st0, q), HandleTold(env, Deaf(st), q, ms[1..]), tail, tick);
    UnsplitSuffix(ms, Hear(env, Deaf(st), ms, tick).left, |tail|, st.input.cuts);
  }

  lemma AtStands(i: Input, ms: seq<F.Message>, tail: Bytes)
    requires i.Tidy() && Whole(ms, tail)
    ensures Before(At(i, F.EncodeAll(ms) + tail), ms, false, tail) && At(i, F.EncodeAll(ms) + tail).cuts == i.cuts
  {
    hide F.EncodeAll, Whole;
    assert [] + (F.EncodeAll(ms) + tail) == F.EncodeAll(ms) + tail;
  }

  lemma DeafTwice(st: State, i: Input)
    ensures Deaf(st.(input := i)) == Deaf(st)
  {}

  // The whole conversation.

  predicate SameTurns(turns: seq<Turn>, xs: seq<Exchange>, tail: Bytes) {
    if turns == [] then xs == []
    else xs != [] && SameTurn(turns[0], xs[0], tail) && SameTurns(turns[1..], xs[1..], tail)
  }

  lemma SameTurnsFirst(t: Turn, turns: seq<Turn>, x: Exchange, xs: seq<Exchange>, tail: Bytes)
    requires SameTurn(t, x, tail) && SameTurns(turns, xs, tail)
    ensures SameTurns([t] + turns, [x] + xs, tail)
  {
    hide SameTurn;
    assert ([t] + turns)[1..] == turns && ([x] + xs)[1..] == xs;
  }

  lemma NoTurns(tail: Bytes)
    ensures SameTurns([], [], tail)
  {}

  lemma ConverseFirst(env: Env, st: State, ms: seq<F.Message>, tick: nat)
    ensures var x := Hear(env, st, ms, tick);
      Converse(env, st, ms, tick) ==
      if x.turn.phase.Running? then [x] + Converse(env, x.turn.state, x.left, tick + 1) else [x]
  {
    hide Hear;
  }

  lemma LoopFirst(env: Env, st: State, tick: nat)
    ensures var t := Iterate(env, st, tick);
      var rest := Loop(env, t.state, tick + 1);
      Loop(env, st, tick) == if t.phase.Running? then (rest.0, rest.1, [t] + rest.2) else (t.state, t.phase, [t])
  {
    hide Iterate;
  }

  /** For every list of sound messages whose reading ends with them, every environment (any executors, any oracle of
      arriving input, any failing writes) and every split of the bytes that keeps Bind values whole: the loop's turns
      are the exchanges of the message-level server, one by one: the same requests, replies, states, log and phase,
      with the reader standing in front of exactly the messages left. */
  lemma {:induction false} ConversationRefines(env: Env, st: State, ms: seq<F.Message>, tail: Bytes, tick: nat)
    requires st.input.Tidy() && st.input.Stream() == F.EncodeAll(ms) + tail
    requires Whole(ms, tail) && F.AllUnsplit(ms, |tail|, st.input.cuts)
    ensures SameTurns(Loop(env, st, tick).2, Converse(env, Deaf(st), ms, tick), tail)
    decreases |ms|
  {
    hide *;
    var t, x := Iterate(env, st, tick), Hear(env, Deaf(st), ms, tick);
    TurnAnswers(env, st, ms, tail, tick);
    SamePhase(t, x, tail);
    LoopFirst(env, st, tick);
    ConverseFirst(env, Deaf(st), ms, tick);
    if t.phase.Running? {
      ConversationRefines(env, t.state, x.left, tail, tick + 1);
      SameTurnsFirst(t, Loop(env, t.state, tick + 1).2, x, Converse(env, x.turn.state, x.left, tick + 1), tail);
    } else {
      NoTurns(tail);
      SameTurnsFirst(t, [], x, [], tail);
      assert [t] + [] == [t] && [x] + [] == [x];
    }
  }

  lemma SamePhase(t: Turn, x: Exchange, tail: Bytes)
    requires SameTurn(t, x, tail)
    ensures t.phase == x.turn.phase && Deaf(t.state) == x.turn.state
    ensures t.state.input.Tidy() && t.state.input.Stream() == F.EncodeAll(x.left) + tail
  {}

  lemma QueryMeans(text: GoString)
    ensures Meaning(F.Query(text)) == Query(text) && !F.Query(text).Terminate?
  {}

  /** A query whose text is one statement hands it over as it is. */
  lemma SingleStatement(env: Env, st: State, text: GoString, s: Stmt, ms: seq<F.Message>)
    requires env.bound(text, []) == Statements([s])
    ensures var t, u := HandleTold(env, st, Query(text), ms), StatementTold(env, st, s, ms, false);
      var (st1, w) := WriteAll(env, u.reply.state, u.reply.responses);
      var err := if u.reply.responses == [] then u.reply.err else w;
      t == Told(Reply(st1, [], err), u.left, u.seen)
  {
    hide StatementTold, WriteAll;
    assert [s][1..] == [];
    var u := StatementTold(env, st, s, ms, false);
    var st1 := WriteAll(env, u.reply.state, u.reply.responses).0;
    assert StatementsTold(env, st1, [s][1..], u.left, u.seen) == Told(Reply(st1, [], None), u.left, u.seen);
  }

  // Sessions.

  predicate AllSound(ms: seq<F.Message>) {
    ms == [] || (Sound(ms[0]) && AllSound(ms[1..]))
  }

  lemma {:induction false} EndsWithTerminate(ms: seq<F.Message>, tail: Bytes)
    requires AllSound(ms)
    ensures Whole(ms + [F.Terminate], tail)
    decreases |ms|
  {
    hide F.WellFormed;
    var all := ms + [F.Terminate];
    if ms == [] {
      TerminateIsSound();
      assert all[0] == F.Terminate;
    } else {
      EndsWithTerminate(ms[1..], tail);
      assert all[1..] == ms[1..] + [F.Terminate];
    }
  }

  lemma TerminateIsSound()
    ensures Sound(F.Terminate)
  {}

  /** A session closed by Terminate, whatever bytes the client sends behind it. */
  lemma SessionRefines(env: Env, st: State, ms: seq<F.Message>, tail: Bytes, tick: nat)
    requires st.input.Tidy() && st.input.Stream() == F.EncodeAll(ms + [F.Terminate]) + tail
    requires AllSound(ms) && F.AllUnsplit(ms + [F.Terminate], |tail|, st.input.cuts)
    ensures SameTurns(Loop(env, st, tick).2, Converse(env, Deaf(st), ms + [F.Terminate], tick), tail)
  {
    hide *;
    EndsWithTerminate(ms, tail);
    ConversationRefines(env, st, ms + [F.Terminate], tail, tick);
  }

  // Conversations in which no COPY happens to run.

  predicate NoCopyIn(p: Parsing) {
    p.Statements? ==> forall k :: 0 <= k < |p.stmts| ==> !p.stmts[k].Copy?
  }

  /** The request, in this state, runs no COPY: neither its own text nor the portal's holds one. */
  predicate RunsNoCopy(env: Env, st: State, q: Request) {
    match q
    case Query(text) => NoCopyIn(env.bound(text, []))
    case Execute(portal, _) => portal in st.portals ==>
        NoCopyIn(env.bound(st.portals[portal].text, st.portals[portal].params))
    case _ => true
  }

  /** No request of this conversation runs a COPY when its turn comes. */
  predicate CopyFree(env: Env, st: State, ms: seq<F.Message>, tick: nat)
    decreases |ms|
  {
    ms == [] || ms[0].Terminate? ||
    (&& RunsNoCopy(env, st, Meaning(ms[0]))
     && var x := Hear(env, st, ms, tick);
        x.turn.phase.Running? ==> CopyFree(env, x.turn.state, x.left, tick + 1))
  }

  lemma {:induction false} StatementsLeave(env: Env, st: State, ss: seq<Stmt>, ms: seq<F.Message>, seen: bool)
    requires forall k :: 0 <= k < |ss| ==> !ss[k].Copy?
    ensures StatementsTold(env, st, ss, ms, seen).left == ms && StatementsTold(env, st, ss, ms, seen).seen == seen
    decreases |ss|
  {
    hide StatementStep, WriteAll, TxStep;
    if ss != [] {
      var t := StatementTold(env, st, ss[0], ms, seen);
      StatementsLeave(env, WriteAll(env, t.reply.state, t.reply.responses).0, ss[1..], ms, seen);
    }
  }

  lemma HandleLeaves(env: Env, st: State, q: Request, ms: seq<F.Message>)
    requires RunsNoCopy(env, st, q)
    ensures HandleTold(env, st, q, ms).left == ms && !HandleTold(env, st, q, ms).seen
  {
    hide Handle, StatementsTold, QueryStep, TxStep;
    if RunsQuery(st, q) {
      var p := if q.Query? then Portal(q.text, []) else st.portals[q.portal];
      if env.bound(p.text, p.params).Statements? {
        StatementsLeave(env, st, env.bound(p.text, p.params).stmts, ms, false);
      }
    }
  }

  /** Exchange k is about message k and leaves exactly the messages behind it. */
  predicate HeardEach(xs: seq<Exchange>, ms: seq<F.Message>) {
    xs == [] || ms == [] ||
    (xs[0].turn.request == Success(Meaning(ms[0])) && xs[0].left == ms[1..] && HeardEach(xs[1..], ms[1..]))
  }

  /** In such a conversation every exchange hears exactly the next message, as long as the conversation lasts. */
  lemma {:induction false} EachMessageIsHeard(env: Env, st: State, ms: seq<F.Message>, tick: nat)
    requires CopyFree(env, st, ms, tick)
    ensures HeardEach(Converse(env, st, ms, tick), ms)
    decreases |ms|
  {
    if ms != [] {
      HearsFirst(env, st, ms, tick);
      ConverseFirst(env, st, ms, tick);
      hide Hear, Converse, RunsNoCopy;
      var x := Hear(env, st, ms, tick);
      if x.turn.phase.Running? {
        EachMessageIsHeard(env, x.turn.state, x.left, tick + 1);
        HeardFirst(x, Converse(env, x.turn.state, x.left, tick + 1), ms);
      } else {
        HeardFirst(x, [], ms);
        assert [x] + [] == [x];
      }
    }
  }

  lemma HearsFirst(env: Env, st: State, ms: seq<F.Message>, tick: nat)
    requires ms != [] && CopyFree(env, st, ms, tick)
    ensures var x := Hear(env, st, ms, tick);
      && x.turn.request == Success(Meaning(ms[0])) && x.left == ms[1..]
      && (x.turn.phase.Running? ==> CopyFree(env, x.turn.state, x.left, tick + 1))
  {
    hide HandleTold, RunsNoCopy;
    if !ms[0].Terminate? {
      HandleLeaves(env, st, Meaning(ms[0]), ms[1..]);
    }
  }

  lemma HeardFirst(x: Exchange, xs: seq<Exchange>, ms: seq<F.Message>)
    requires ms != [] && x.turn.request == Success(Meaning(ms[0])) && x.left == ms[1..] && HeardEach(xs, ms[1..])
    ensures HeardEach([x] + xs, ms)
  {
    hide Meaning;
    assert ([x] + xs)[1..] == xs;
  }
}
