/** When ReadyForQuery goes out, against section 55.2, which has one for every Query and every Sync and none for any
    other message. */
module ReadyLaws {
  import opened BigEndian
  import opened ConversationLaws
  import opened Errors
  import opened MessageServer
  import opened Requests
  import opened Session
  import F = Frontend
  import OutputLaws
  import QueryLaws

  predicate AsksReady(q: Request) { q.Query? || q.Sync? }

  predicate Asked(q: Result<Request>) { q.Success? && AsksReady(q.value) }

  /** The turn does as the documentation says, as far as the loop goes on. */
  predicate Documented(t: Turn) {
    t.phase.Running? ==> (t.ready.Some? <==> Asked(t.request))
  }

  // Any run, on any input.

  /** Behind each turn something is waiting exactly when the turn heard neither Query nor Sync. */
  predicate Paced(env: Env, st: State, turns: seq<Turn>, tick: nat)
    decreases |turns|
  {
    turns == [] ||
    (&& (turns[0].phase.Running? ==>
           (OutputLaws.Waiting(env, OutputLaws.Served(env, st).state.input, tick) <==> !Asked(turns[0].request)))
     && Paced(env, turns[0].state, turns[1..], tick + 1))
  }

  lemma TurnIff(env: Env, st: State, t: Turn, tick: nat)
    requires OutputLaws.SpeaksInOrder(env, st, t, tick)
    ensures Documented(t) <==>
            (t.phase.Running? ==> (OutputLaws.Waiting(env, OutputLaws.Served(env, st).state.input, tick) <==>
                !Asked(t.request)))
  {
    hide OutputLaws.Served, OutputLaws.Body, OutputLaws.Close, OutputLaws.Waiting, OutputLaws.WritesSucceed;
  }

  lemma {:induction false} InOrderIff(env: Env, st: State, turns: seq<Turn>, tick: nat)
    requires OutputLaws.InOrder(env, st, turns, tick)
    ensures (forall t :: t in turns ==> Documented(t)) <==> Paced(env, st, turns, tick)
    decreases |turns|
  {
    hide Iterate, OutputLaws.Served, OutputLaws.Body, OutputLaws.Close, OutputLaws.Waiting, OutputLaws.WritesSucceed;
    if turns != [] {
      InOrderIff(env, turns[0].state, turns[1..], tick + 1);
      TurnIff(env, st, turns[0], tick);
      hide OutputLaws.SpeaksInOrder, Documented;
      assert turns == [turns[0]] + turns[1..];
    }
  }

  /** Over every run, on any input, COPY and malformed messages included: the run is as documented exactly when at the
      end of every turn a next request is waiting if and only if the turn heard neither Query nor Sync. */
  lemma RunsDocumentedIff(env: Env, st: State, tick: nat)
    requires st.input.Tidy()
    ensures var turns := Loop(env, st, tick).2;
      (forall t :: t in turns ==> Documented(t)) <==> Paced(env, st, turns, tick)
  {
    hide *;
    OutputLaws.RunsSpeakInOrder(env, st, tick);
    InOrderIff(env, st, Loop(env, st, tick).2, tick);
  }

  // Conversations, by what the client can see.

  /** In a conversation that runs no COPY, exchange k answers message k, with ReadyForQuery unless it was not the last
      message and some of the next had arrived. */
  predicate ReadyAt(env: Env, xs: seq<Exchange>, ms: seq<F.Message>, tick: nat, k: nat) {
    k < |xs| && xs[k].turn.phase.Running? ==>
      && k < |ms| && xs[k].turn.request == Success(Meaning(ms[k]))
      && (xs[k].turn.ready.Some? <==> !(k + 1 < |ms| && env.arrived(tick + k)))
  }

  lemma ConcludeReady(env: Env, q: Request, t: Told, tick: nat)
    ensures var x := Conclude(env, q, t, tick);
      && x.left == t.left && x.turn.request == Success(q)
      && (x.turn.phase.Running? ==> (x.turn.ready.Some? <==> !(t.left != [] && (t.seen || env.arrived(tick)))))
  {
    hide Respond, Write, TxStep;
  }

  lemma CopyFreeFirst(env: Env, st: State, ms: seq<F.Message>, tick: nat)
    requires CopyFree(env, st, ms, tick) && ms != [] && !ms[0].Terminate?
    ensures RunsNoCopy(env, st, Meaning(ms[0]))
    ensures var x := Hear(env, st, ms, tick); x.turn.phase.Running? ==> CopyFree(env, x.turn.state, x.left, tick + 1)
  {
    hide Hear, RunsNoCopy, Meaning;
  }

  lemma FirstReady(env: Env, st: State, ms: seq<F.Message>, tick: nat)
    requires CopyFree(env, st, ms, tick)
    ensures var x := Hear(env, st, ms, tick);
      x.turn.phase.Running? ==>
        && ms != [] && x.turn.request == Success(Meaning(ms[0])) && x.left == ms[1..]
        && (x.turn.ready.Some? <==> !(1 < |ms| && env.arrived(tick)))
        && CopyFree(env, x.turn.state, x.left, tick + 1)
  {
    hide *;
    if ms == [] {
      HearNothing(env, st, tick);
    } else if ms[0].Terminate? {
      HearTerminate(env, st, ms, tick);
    } else {
      var q := Meaning(ms[0]);
      CopyFreeFirst(env, st, ms, tick);
      HandleLeaves(env, st, q, ms[1..]);
      HearRequest(env, st, ms, tick);
      ConcludeReady(env, q, HandleTold(env, st, q, ms[1..]), tick);
    }
  }

  lemma NextReady(env: Env, x: Exchange, xs: seq<Exchange>, ms: seq<F.Message>, tick: nat, k: nat)
    requires ms != [] && ReadyAt(env, xs, ms[1..], tick + 1, k)
    ensures ReadyAt(env, [x] + xs, ms, tick, k + 1)
  {
    hide Meaning;
    assert tick + 1 + k == tick + (k + 1);
    if k < |xs| {
      assert ([x] + xs)[k + 1] == xs[k];
    }
  }

  lemma ReadyNow(env: Env, x: Exchange, xs: seq<Exchange>, ms: seq<F.Message>, tick: nat)
    requires x.turn.phase.Running? ==>
      && ms != [] && x.turn.request == Success(Meaning(ms[0]))
      && (x.turn.ready.Some? <==> !(1 < |ms| && env.arrived(tick)))
    ensures ReadyAt(env, [x] + xs, ms, tick, 0)
  {
    hide Meaning;
  }

  lemma NotReady(env: Env, x: Exchange, ms: seq<F.Message>, tick: nat, k: nat)
    requires k > 0
    ensures ReadyAt(env, [x], ms, tick, k)
  {}

  lemma {:induction false} EachReady(env: Env, st: State, ms: seq<F.Message>, tick: nat, k: nat)
    requires CopyFree(env, st, ms, tick)
    ensures ReadyAt(env, Converse(env, st, ms, tick), ms, tick, k)
    decreases k
  {
    hide *;
    FirstReady(env, st, ms, tick);
    ConverseFirst(env, st, ms, tick);
    var x := Hear(env, st, ms, tick);
    var rest := if x.turn.phase.Running? then Converse(env, x.turn.state, x.left, tick + 1) else [];
    assert [x] + [] == [x];
    if k == 0 {
      ReadyNow(env, x, rest, ms, tick);
    } else if x.turn.phase.Running? {
      EachReady(env, x.turn.state, x.left, tick + 1, k - 1);
      NextReady(env, x, rest, ms, tick, k - 1);
    } else {
      NotReady(env, x, ms, tick, k);
    }
  }

  /** The conversation is as documented exactly for a client that has its next message under way behind everything but
      Query and Sync, and nothing behind those. */
  lemma ReadyAgreesIff(env: Env, st: State, ms: seq<F.Message>, tick: nat)
    requires CopyFree(env, st, ms, tick)
    ensures var xs := Converse(env, st, ms, tick);
      (forall k :: 0 <= k < |xs| ==> Documented(xs[k].turn)) <==>
      (forall k :: 0 <= k < |xs| && xs[k].turn.phase.Running? ==>
         k < |ms| && (k + 1 < |ms| && env.arrived(tick + k) <==> !AsksReady(Meaning(ms[k]))))
  {
    var xs := Converse(env, st, ms, tick);
    forall k: nat | k < |xs|
      ensures ReadyAt(env, xs, ms, tick, k)
    {
      EachReady(env, st, ms, tick, k);
    }
    hide Converse, CopyFree, Meaning;
    forall k | 0 <= k < |xs| && xs[k].turn.phase.Running?
      ensures k < |ms| && (Documented(xs[k].turn) <==>
                (k + 1 < |ms| && env.arrived(tick + k) <==> !AsksReady(Meaning(ms[k]))))
    {
      assert ReadyAt(env, xs, ms, tick, k);
    }
  }

  /** Both ways to differ: a Parse with nothing behind it is answered with a ReadyForQuery of its own, and an empty
      Query with another message behind it is not. */
  lemma ParseIsReadyQueryIsNot(env: Env, st: State, parse: F.Message, text: GoString, m: F.Message, tick: nat)
    requires parse.Parse? && env.parse(parse.query).Empty? && env.bound(text, []).Empty?
    requires (forall n :: env.writeOk(n)) && env.arrived(tick)
    ensures var x := Hear(env, st, [parse], tick); x.turn.phase.Running? && x.turn.ready.Some? && !Documented(x.turn)
    ensures var y := Hear(env, st, [F.Query(text), m], tick);
            y.turn.phase.Running? && y.turn.ready.None? && !Documented(y.turn)
  {
    hide *;
    HearRequest(env, st, [parse], tick);
    HearRequest(env, st, [F.Query(text), m], tick);
    assert [F.Query(text), m][1..] == [m] && [parse][1..] == [];
    ParseTold(env, st, parse);
    EmptyQueryTold(env, st, text, m);
    var p, q := HandleTold(env, st, Meaning(parse), []), HandleTold(env, st, Query(text), [m]);
    ConcludeReady(env, Meaning(parse), p, tick);
    ConcludeReady(env, Query(text), q, tick);
    ConcludeRuns(env, Meaning(parse), p, tick);
    ConcludeRuns(env, Query(text), q, tick);
    NotDocumented(Hear(env, st, [parse], tick).turn);
    NotDocumented(Hear(env, st, [F.Query(text), m], tick).turn);
  }

  lemma NotDocumented(t: Turn)
    ensures t.phase.Running? && t.request.Success? && t.request.value.Parse? && t.ready.Some? ==> !Documented(t)
    ensures t.phase.Running? && t.request.Success? && t.request.value.Query? && t.ready.None? ==> !Documented(t)
  {}

  lemma ParseTold(env: Env, st: State, parse: F.Message)
    requires parse.Parse? && env.parse(parse.query).Empty?
    ensures var p := HandleTold(env, st, Meaning(parse), []);
      p.left == [] && Meaning(parse).Parse? && !OutputLaws.CrashError(p.reply.err)
  {
    hide QueryStep, ExecuteStep, BindStep, DescribeStep, CloseStep, MessageServer.QueryTold, TxStep;
  }

  lemma EmptyQueryTold(env: Env, st: State, text: GoString, m: F.Message)
    requires env.bound(text, []).Empty?
    ensures var q := HandleTold(env, st, Query(text), [m]);
      && q.left == [m] && !OutputLaws.CrashError(q.reply.err)
      && Meaning(F.Query(text)) == Query(text) && !F.Query(text).Terminate?
  {
    hide HandleTold, QueryTold, Meaning, TxStep;
    QueryMeans(text);
    HandleQuery(env, st, text, [m]);
    EmptyQuery(env, st, text, [m]);
  }

  lemma HandleQuery(env: Env, st: State, text: GoString, ms: seq<F.Message>)
    ensures HandleTold(env, st, Query(text), ms) == QueryTold(env, st, Portal(text, []), ms)
  {
    hide QueryTold, Handle, TxStep;
  }

  lemma EmptyQuery(env: Env, st: State, text: GoString, ms: seq<F.Message>)
    requires env.bound(text, []).Empty?
    ensures QueryTold(env, st, Portal(text, []), ms).left == ms
            && QueryTold(env, st, Portal(text, []), ms).reply.err == None
  {
    hide StatementsStep, StatementsTold, TxStep;
  }

  lemma ConcludeRuns(env: Env, q: Request, t: Told, tick: nat)
    requires (forall n :: env.writeOk(n)) && !OutputLaws.CrashError(t.reply.err)
    ensures Conclude(env, q, t, tick).turn.phase.Running?
  {
    QueryLaws.WriteAllWhole(env, t.reply.state, t.reply.responses);
    hide WriteAll, TxStep;
  }
}
