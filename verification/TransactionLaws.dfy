/** Transaction safety and reader discipline over whole runs of a connection. */
module TransactionLaws {
  import opened BigEndian
  import opened Errors
  import opened Inputs
  import opened Requests
  import opened Responses
  import opened Session
  import ConversationLaws
  import CopyLaws
  import F = Frontend
  import M = MessageServer
  import StartupMessage

  predicate Ends(c: Call) { c.Do? && (c.stmt.Commit? || c.stmt.Rollback?) }
  predicate Begins(c: Call) { c.Do? && c.stmt.Begin? }

  /** Call k is a BEGIN, and nothing has ended the transaction since. */
  predicate BegunAt(calls: seq<Call>, k: nat) {
    k < |calls| && Begins(calls[k]) && forall j :: k < j < |calls| ==> !Ends(calls[j])
  }

  /** `Open` in plain terms: some BEGIN reached an executor and nothing has ended it since. */
  lemma OpenMeans(calls: seq<Call>)
    ensures Open(calls) <==> exists k :: BegunAt(calls, k)
  {
    if Open(calls) {
      var k := OpenSince(calls);
    }
    if k :| BegunAt(calls, k) {
      BegunIsOpen(calls, k);
    }
  }

  lemma {:induction false} OpenSince(calls: seq<Call>) returns (k: nat)
    requires Open(calls)
    ensures BegunAt(calls, k)
    decreases |calls|
  {
    k := |calls| - 1;
    if !Begins(calls[k]) {
      var before := calls[..k];
      k := OpenSince(before);
      assert before[k] == calls[k];
    }
  }

  lemma {:induction false} BegunIsOpen(calls: seq<Call>, k: nat)
    requires BegunAt(calls, k)
    ensures Open(calls)
    decreases |calls|
  {
    if k < |calls| - 1 {
      BegunIsOpen(calls[..|calls| - 1], k);
    }
  }

  /** `Bracketed` in plain terms: at every call the executors' transaction was in the right state for it. */
  lemma {:induction false} BracketedMeans(calls: seq<Call>)
    ensures Bracketed(calls) <==>
            forall k :: 0 <= k < |calls| ==>
              (Begins(calls[k]) ==> !Open(calls[..k])) && (Ends(calls[k]) ==> Open(calls[..k]))
    decreases |calls|
  {
    if calls != [] {
      var n := |calls| - 1;
      var before := calls[..n];
      BracketedMeans(before);
      assert forall k :: 0 <= k < n ==> before[k] == calls[k] && before[..k] == calls[..k];
    }
  }

  /** From bytes to the crash: on a connection whose next message is a Query with the text of one COMMIT or ROLLBACK,
      the turn dies of unlocking a free mutex exactly when the lock is free; the executor has been called either
      way. */
  lemma EndQueryCrashesIff(env: Env, st: State, text: GoString, s: Stmt, ms: seq<F.Message>, tail: Bytes, tick: nat)
    returns (t: Turn)
    requires (s.Commit? || s.Rollback?) && env.bound(text, []) == Statements([s]) && ms != [] && ms[0] == F.Query(text)
    requires st.input.Tidy() && st.input.Stream() == F.EncodeAll(ms) + tail
    requires CopyLaws.Whole(ms, tail) && F.AllUnsplit(ms, |tail|, st.input.cuts)
    ensures t == Iterate(env, st, tick) && t.request == Success(Query(text))
    ensures t.phase == Crashed(UnlockOfFreeMutex) <==> !st.locked
    ensures t.state.calls == st.calls + [Do(s)]
  {
    hide *;
    t := Iterate(env, st, tick);
    ConversationLaws.TurnAnswers(env, st, ms, tail, tick);
    var x := EndQueryHeard(env, M.Deaf(st), text, s, ms, tick);
    SameEnd(t, x, st, tail);
  }

  lemma SameEnd(t: Turn, x: M.Exchange, st: State, tail: Bytes)
    requires ConversationLaws.SameTurn(t, x, tail)
    ensures t.request == x.turn.request && t.phase == x.turn.phase && t.state.calls == x.turn.state.calls
    ensures M.Deaf(st).locked == st.locked && M.Deaf(st).calls == st.calls
  {}

  lemma EndQueryHeard(env: Env, st: State, text: GoString, s: Stmt, ms: seq<F.Message>, tick: nat)
      returns (x: M.Exchange)
    requires (s.Commit? || s.Rollback?) && env.bound(text, []) == Statements([s]) && ms != [] && ms[0] == F.Query(text)
    ensures x == M.Hear(env, st, ms, tick) && x.turn.request == Success(Query(text))
    ensures x.turn.phase == Crashed(UnlockOfFreeMutex) <==> !st.locked
    ensures x.turn.state.calls == st.calls + [Do(s)]
  {
    hide *;
    x := M.Hear(env, st, ms, tick);
    ConversationLaws.HearRequest(env, st, ms, tick);
    ConversationLaws.QueryMeans(text);
    EndTold(env, st, text, s, ms[1..]);
    ConcludeKeeps(env, Query(text), M.HandleTold(env, st, Query(text), ms[1..]), tick);
  }

  lemma EndTold(env: Env, st: State, text: GoString, s: Stmt, ms: seq<F.Message>)
    requires (s.Commit? || s.Rollback?) && env.bound(text, []) == Statements([s])
    ensures var t := M.HandleTold(env, st, Query(text), ms);
      && t.reply.state.calls == st.calls + [Do(s)]
      && (t.reply.err == UNLOCKED <==> !st.locked)
      && (t.reply.err.Some? && t.reply.err.value.Crash? ==> t.reply.err == UNLOCKED)
  {
    ConversationLaws.SingleStatement(env, st, text, s, ms);
    var r := StatementStep(env, st, s);
    WriteKeeps(env, r.state, r.responses);
    hide M.HandleTold, WriteAll, TxStep;
  }

  lemma ConcludeKeeps(env: Env, q: Request, t: M.Told, tick: nat)
    ensures M.Conclude(env, q, t, tick).turn.state.calls == t.reply.state.calls
    ensures M.Conclude(env, q, t, tick).turn.request == Success(q)
    ensures M.Conclude(env, q, t, tick).turn.phase.Crashed? <==> t.reply.err.Some? && t.reply.err.value.Crash?
    ensures t.reply.err == UNLOCKED ==> M.Conclude(env, q, t, tick).turn.phase == Crashed(UnlockOfFreeMutex)
  {
    WriteKeeps(env, t.reply.state, t.reply.responses);
    hide WriteAll, TxStep;
  }

  lemma IterateTx(env: Env, st: State, tick: nat)
    requires TxSafe(st)
    ensures var t := Iterate(env, st, tick);
      && (if t.phase == Crashed(UnlockOfFreeMutex) then !Bracketed(t.state.calls) else TxSafe(t.state))
      && (t.ready.Some? ==> t.phase.Running? && t.ready.value == Status(t.state))
  {
    hide Serve, Finish, TakeTurn, Bracketed, Open;
  }

  /** Over every run, on any input, whatever the executors answer and whichever writes fail: the run dies of unlocking
      a free mutex exactly when a COMMIT or ROLLBACK was performed outside a transaction; otherwise the lock is held
      exactly when the executors' last transaction statement was a BEGIN; and every ReadyForQuery says 'T' exactly
      then. */
  lemma {:induction false} RunsAreTransactionSafe(env: Env, st: State, tick: nat)
    requires TxSafe(st)
    ensures var (fin, phase, turns) := Loop(env, st, tick);
      && (phase == Crashed(UnlockOfFreeMutex) <==> !Bracketed(fin.calls))
      && (Bracketed(fin.calls) ==> (fin.locked <==> Open(fin.calls)))
      && forall k :: 0 <= k < |turns| && turns[k].ready.Some? ==>
           turns[k].ready.value == if Open(turns[k].state.calls) then 'T' as int else 'I' as int
    decreases |st.input.Stream()|
  {
    hide Iterate, Bracketed, Open;
    var t := Iterate(env, st, tick);
    IterateTx(env, st, tick);
    if t.phase.Running? {
      RunsAreTransactionSafe(env, t.state, tick + 1);
    }
  }

  lemma FollowsChain(a: State, b: State, c: State)
    requires b.Follows(a) && c.Follows(b)
    ensures c.Follows(a)
  {}

  /** Over every run, on any input: at the top of each turn at most the peeked type byte is buffered, no peek ever
      found more buffered than it asked for, and no raw read of Bind ever found anything buffered. Nothing that was
      written or performed is ever taken back. */
  lemma {:induction false} RunsKeepReaderTidy(env: Env, st: State, tick: nat)
    requires st.input.Tidy()
    ensures var (fin, phase, turns) := Loop(env, st, tick);
      && fin.Follows(st) && fin.input.Tidy()
      && forall k :: 0 <= k < |turns| ==> turns[k].state.Follows(st) && turns[k].state.input.Tidy()
    decreases |st.input.Stream()|
  {
    hide Iterate;
    var t := Iterate(env, st, tick);
    if t.phase.Running? {
      RunsKeepReaderTidy(env, t.state, tick + 1);
      var (fin, phase, turns) := Loop(env, t.state, tick + 1);
      FollowsChain(st, t.state, fin);
      forall k | 0 <= k < |turns|
        ensures turns[k].state.Follows(st)
      {
        FollowsChain(st, t.state, turns[k].state);
      }
    }
  }

  lemma WriteKeeps(env: Env, st: State, rs: seq<Response>)
    ensures WriteAll(env, st, rs).0.input == st.input && WriteAll(env, st, rs).0.calls == st.calls
    ensures WriteAll(env, st, rs).0.locked == st.locked
    decreases |rs|
  {}

  /** The peek of four bytes before startup is harmless too: both readers of those bytes drain the buffer. */
  lemma HelloIsTidy(env: Env, st: State)
    requires st.input.Tidy() && TxSafe(st)
    ensures Hello(env, st).0.input.Tidy() && TxSafe(Hello(env, st).0)
  {
    hide Int32Of, StartupMessage.StartupRequest, StartupMessage.SslRequest, Bracketed, Open;
    if Peek(st.input, 4).Ok? {
      PeekKeepsStream(st.input, 4);
      var st1 := st.(input := Peek(st.input, 4).next);
      var ssl := StartupMessage.SslRequest(st1.input);
      if ssl.Ok? {
        var (st2, w) := Write(env, st1.(input := ssl.next), SSL_DISABLED);
        GreetIsTidy(env, st2);
      }
      GreetIsTidy(env, st1);
    }
  }

  lemma GreetIsTidy(env: Env, st: State)
    requires |st.input.peek| <= 4 && !st.input.misused && TxSafe(st)
    ensures Greet(env, st).0.input.Tidy() && TxSafe(Greet(env, st).0)
  {
    hide StartupMessage.StartupRequest, Authenticate, Admit, Bracketed, Open;
    var m := StartupMessage.StartupRequest(st.input);
    if m.Ok? {
      AuthenticateIsTidy(env, st.(input := m.next), m.value);
      var (st1, verdict) := Authenticate(env, st.(input := m.next), m.value);
      AdmitKeeps(env, st1, m.value, verdict);
    }
  }

  lemma AuthenticateIsTidy(env: Env, st: State, m: StartupMessage.Startup)
    requires st.input.Tidy() && TxSafe(st)
    ensures Authenticate(env, st, m).0.input.Tidy() && TxSafe(Authenticate(env, st, m).0)
  {
    hide StartupMessage.PasswordRequest, JudgePassword, Bracketed, Open;
  }

  lemma AdmitKeeps(env: Env, st: State, m: StartupMessage.Startup, verdict: Result<Response>)
    ensures var st1 := Admit(env, st, m, verdict).0;
      st1.input == st.input && st1.locked == st.locked && st1.calls == st.calls
  {
    hide WriteAll, ErrorResponse, ReadyForQuery, TxStep;
    if verdict.Success? {
      WriteKeeps(env, st, [verdict.value] + env.greeting(m).responses);
    }
  }
}
