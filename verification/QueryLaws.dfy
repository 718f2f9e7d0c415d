/** What a multi-statement query performs and writes. */
module QueryLaws {
  import opened BigEndian
  import opened Errors
  import opened Responses
  import opened Session
  import CopyFrames
  import Inputs

  lemma {:induction false} WriteAllPrefix(env: Env, st: State, rs: seq<Response>)
    ensures var (st1, w) := WriteAll(env, st, rs);
      && st1 == st.(out := st1.out, writes := st1.writes)
      && (w.None? ==> st1.out == st.out + rs)
      && st1.out <= st.out + rs
    decreases |rs|
  {
    if rs != [] {
      var (st1, w) := Write(env, st, rs[0]);
      if w.None? {
        WriteAllPrefix(env, st1, rs[1..]);
        assert st.out + rs == st1.out + rs[1..];
      }
    }
  }

  lemma WriteAllWhole(env: Env, st: State, rs: seq<Response>)
    requires forall n :: env.writeOk(n)
    ensures WriteAll(env, st, rs).1 == None
    decreases |rs|
  {}

  /** One turn of the statement loop. */
  lemma StatementsFirst(env: Env, st: State, ss: seq<Stmt>)
    ensures ss == [] ==> StatementsStep(env, st, ss) == Reply(st, [], None)
    ensures ss != [] && StatementStep(env, st, ss[0]).responses == [] ==>
              StatementsStep(env, st, ss) == var r := StatementStep(env, st, ss[0]);
                if r.err.Some? then Reply(r.state, [], r.err) else StatementsStep(env, r.state, ss[1..])
    ensures ss != [] && StatementStep(env, st, ss[0]).responses != [] ==>
              StatementsStep(env, st, ss) == var r := StatementStep(env, st, ss[0]);
                var w := WriteAll(env, r.state, r.responses);
                if w.1.Some? then Reply(w.0, [], w.1) else StatementsStep(env, w.0, ss[1..])
  {
    hide StatementStep, WriteAll, TxStep;
  }

  // One statement, with its responses written.

  function OneStep(env: Env, st: State, s: Stmt): Reply {
    var r := StatementStep(env, st, s);
    var (st1, w) := WriteAll(env, r.state, r.responses);
    Reply(st1, [], if r.responses == [] then r.err else w)
  }

  /** The command tag "COPY n". */
  function Copied(n: nat): Response {
    Typed('C' as int, Ascii("COPY ") + Decimal(n) + [0])
  }

  lemma CopiedIs(n: nat)
    ensures CopyComplete(n) == Copied(n)
  {
    assert Ascii("COPY ") == [67, 79, 80, 89, 32];
  }

  /** The calls from `before` to `after` are the COPY and then inserts of its lines. */
  predicate CopyCalls(s: Stmt, before: seq<Call>, after: seq<Call>) {
    && |before| < |after| && before <= after && after[|before|] == StartCopy(s)
    && forall k :: |before| < k < |after| ==> after[k].InsertCopied? && after[k].stmt == s
  }

  /** A COPY: its executor first, then inserts only. It writes the executor's responses and, if it takes in data,
      "COPY n" for the n inserts made; cut short by a failure only. */
  predicate PerformsCopy(env: Env, a: State, s: Stmt, b: State, err: Option<Error>) {
    && CopyCalls(s, a.calls, b.calls)
    && (var said := a.out + env.answer(a.calls + [StartCopy(s)]).responses;
        var done := said + [Copied(|b.calls| - |a.calls| - 1)];
        && a.out <= b.out <= done
        && (err == None ==> b.out == said || b.out == done))
    && b.locked == a.locked && err != UNLOCKED && err != Some(TransactionBlocked)
  }

  /** Any other statement that reaches an executor: one call, its responses, and why it stopped the query if it did. An
      error that comes with responses stops nothing. */
  predicate PerformsCall(env: Env, a: State, s: Stmt, b: State, err: Option<Error>) {
    var answer := env.answer(a.calls + [Do(s)]);
    && b.calls == a.calls + [Do(s)]
    && a.out <= b.out <= a.out + answer.responses
    && (err == None ==> b.out == a.out + answer.responses && (answer.failure.None? || answer.responses != []))
    && (err == UNLOCKED <==> (s.Commit? || s.Rollback?) && !a.locked)
    && (err != None && err != UNLOCKED ==>
          if answer.responses == [] then answer.failure.Some? && err == Some(External(answer.failure.value))
              else err == Some(WriteFailed))
    && b.locked == if s.Begin? then true else if s.Commit? || s.Rollback? then false else a.locked
  }

  /** What a statement does, in plain terms, from state `a` to state `b`. */
  predicate Performs(env: Env, a: State, s: Stmt, b: State, err: Option<Error>) {
    && b.stmts == a.stmts && b.portals == a.portals
    && if s.Unhandled? then b == a && err == None
       else if s.Begin? && a.locked then b == a && err == Some(TransactionBlocked)
       else if s.Copy? then PerformsCopy(env, a, s, b, err)
       else PerformsCall(env, a, s, b, err)
  }

  lemma WriteNothing(env: Env, st: State)
    ensures WriteAll(env, st, []) == (st, None)
  {}

  lemma PlainPerforms(env: Env, st: State, s: Stmt)
    requires !s.Copy?
    ensures var r := OneStep(env, st, s); Performs(env, st, s, r.state, r.err)
  {
    var r := StatementStep(env, st, s);
    WriteAllPrefix(env, r.state, r.responses);
    WriteNothing(env, r.state);
    hide WriteAll, TxStep;
    assert st.out + [] == st.out;
  }

  // COPY, on any input.

  lemma OfferInserts(env: Env, st: State, s: Stmt, columns: seq<GoString>, fields: seq<GoString>)
    ensures var (st1, err) := OfferLine(env, st, s, columns, fields);
      && st1 == st.(calls := st1.calls) && st.calls <= st1.calls && |st1.calls| <= |st.calls| + 1
      && (err.None? ==> |st1.calls| == |st.calls| + 1)
      && (forall k :: |st.calls| <= k < |st1.calls| ==> st1.calls[k].InsertCopied? && st1.calls[k].stmt == s)
  {
    hide CopiedColumns;
  }

  /** Inserts only, nothing written, and success means that every offered line was inserted. */
  predicate Inserted(st: State, s: Stmt, nCopy: nat, nFail: nat, r: Reply) {
    && st.calls <= r.state.calls
    && (forall k :: |st.calls| <= k < |r.state.calls| ==> r.state.calls[k].InsertCopied? && r.state.calls[k].stmt == s)
    && r.state == st.(input := r.state.input, calls := r.state.calls)
    && (if r.err.None? then r.responses == [Copied(nCopy + (|r.state.calls| - |st.calls|))] && nFail == 0
        else r.responses == [] && r.err != Some(TransactionBlocked))
  }

  lemma InsertedThen(st: State, st1: State, s: Stmt, err: Option<Error>, nCopy: nat, nFail: nat, r: Reply)
    requires st1 == st.(input := st1.input, calls := st1.calls) && st.calls <= st1.calls
             && |st1.calls| <= |st.calls| + 1
    requires forall k :: |st.calls| <= k < |st1.calls| ==> st1.calls[k].InsertCopied? && st1.calls[k].stmt == s
    requires err.None? ==> |st1.calls| == |st.calls| + 1
    requires Inserted(st1, s, if err.Some? then nCopy else nCopy + 1, if err.Some? then nFail + 1 else nFail, r)
    ensures Inserted(st, s, nCopy, nFail, r)
  {
    hide CopyComplete, Copied;
    assert forall k :: |st.calls| <= k < |st1.calls| ==> r.state.calls[k] == st1.calls[k];
  }

  lemma {:induction false} CopyLoopInserts(env: Env, st: State, s: Stmt, columns: seq<GoString>, nCopy: nat, nFail: nat)
    ensures Inserted(st, s, nCopy, nFail, CopyLoop(env, st, s, columns, nCopy, nFail))
    decreases |st.input.Stream()|
  {
    hide CopyFrames.Next, OfferLine, Inserted, CopyComplete, Copied, TxStep;
    match CopyFrames.Next(st.input)
    case Ok(fields, i) =>
      OfferInserts(env, st.(input := i), s, columns, fields);
      var (st1, err) := OfferLine(env, st.(input := i), s, columns, fields);
      CopyLoopInserts(env, st1, s, columns, if err.Some? then nCopy else nCopy + 1,
                      if err.Some? then nFail + 1 else nFail);
      InsertedThen(st, st1, s, err, nCopy, nFail, CopyLoop(env, st, s, columns, nCopy, nFail));
    case Err(e, i) => LoopEnds(env, st, s, columns, nCopy, nFail);
  }

  lemma LoopEnds(env: Env, st: State, s: Stmt, columns: seq<GoString>, nCopy: nat, nFail: nat)
    ensures CopyFrames.Next(st.input).Err? ==>
              Inserted(st, s, nCopy, nFail, CopyLoop(env, st, s, columns, nCopy, nFail))
  {
    hide CopyFrames.Next, OfferLine, CopyComplete, Copied, TxStep;
    CopiedIs(nCopy);
  }

  lemma RefusedInserts(st: State, s: Stmt, e: Error, i: Inputs.Input)
    requires e != TransactionBlocked
    ensures Inserted(st, s, 0, 0, Reply(st.(input := i), [], Some(e)))
  {
    hide CopyComplete, Copied;
  }

  lemma InsertedMoved(st: State, i: Inputs.Input, s: Stmt, r: Reply)
    requires Inserted(st.(input := i), s, 0, 0, r)
    ensures Inserted(st, s, 0, 0, r)
  {
    hide CopyComplete, Copied;
  }

  lemma EnterInserts(env: Env, st: State, s: Stmt)
    requires s.Copy?
    ensures var r := EnterStream(env, st, s);
      r == Reply(st.(input := r.state.input), [], None) || Inserted(st, s, 0, 0, r)
  {
    var p := Inputs.Peek(st.input, 1);
    hide CopyLoop, CopyComplete, Copied, Inserted, TxStep, Inputs.Peek;
    if p.Err? {
      RefusedInserts(st, s, p.error, p.next);
    } else if env.schema(st.calls, s).Failure? {
      RefusedInserts(st, s, External(0), p.next);
    } else {
      var columns := if s.columns == [] then env.schema(st.calls, s).value else s.columns;
      CopyLoopInserts(env, st.(input := p.next), s, columns, 0, 0);
      InsertedMoved(st, p.next, s, CopyLoop(env, st.(input := p.next), s, columns, 0, 0));
    }
  }

  /** `st1` is `st` with the COPY performed and its CopyIn response written. */
  predicate CopyBegun(env: Env, st: State, s: Stmt, st1: State) {
    && st1.calls == st.calls + [StartCopy(s)] && st1.out == st.out + env.answer(st1.calls).responses
    && st1 == st.(calls := st1.calls, out := st1.out, writes := st1.writes)
  }

  lemma NotEnteredPerforms(env: Env, st: State, s: Stmt, st1: State, fin: State)
    requires CopyBegun(env, st, s, st1) && fin == st1.(input := fin.input)
    ensures PerformsCopy(env, st, s, fin, None)
  {
    hide CopyComplete, Copied;
    assert st1.calls[|st.calls|] == StartCopy(s);
  }

  lemma InsertedPerforms(env: Env, st: State, s: Stmt, st1: State, r: Reply, fin: State, w: Option<Error>)
    requires CopyBegun(env, st, s, st1) && Inserted(st1, s, 0, 0, r)
    requires fin == r.state.(out := fin.out, writes := fin.writes)
             && r.state.out <= fin.out <= r.state.out + r.responses
    requires w.None? ==> fin.out == r.state.out + r.responses
    requires w.None? || w == Some(WriteFailed)
    requires r.err != UNLOCKED
    ensures PerformsCopy(env, st, s, fin, if r.responses == [] then r.err else w)
  {
    hide CopyComplete, Copied;
    assert st1.calls[|st.calls|] == StartCopy(s);
    assert fin.calls[|st.calls|] == st1.calls[|st.calls|];
    assert fin.calls[..|st.calls|] == st.calls;
  }

  lemma EnteredPerforms(env: Env, st: State, s: Stmt, st1: State)
    requires s.Copy? && CopyBegun(env, st, s, st1)
    ensures var r := EnterStream(env, st1, s);
      var (fin, w) := WriteAll(env, r.state, r.responses);
      PerformsCopy(env, st, s, fin, if r.responses == [] then r.err else w) && fin.stmts == st.stmts
          && fin.portals == st.portals
  {
    EnterInserts(env, st1, s);
    var r := EnterStream(env, st1, s);
    InsertedState(st1, s, r);
    WriteAllPrefix(env, r.state, r.responses);
    WriteGrows(env, r.state, r.responses);
    WriteNothing(env, r.state);
    hide WriteAll, CopyComplete, Copied, EnterStream, PerformsCopy, Inserted, TxStep;
    var (fin, w) := WriteAll(env, r.state, r.responses);
    if Inserted(st1, s, 0, 0, r) {
      InsertedPerforms(env, st, s, st1, r, fin, w);
    } else {
      NotEnteredPerforms(env, st, s, st1, fin);
    }
  }

  lemma InsertedState(st1: State, s: Stmt, r: Reply)
    ensures Inserted(st1, s, 0, 0, r) ==> r.state == st1.(input := r.state.input, calls := r.state.calls)
  {}

  lemma {:induction false} WriteGrows(env: Env, st: State, rs: seq<Response>)
    ensures st.out <= WriteAll(env, st, rs).0.out
    decreases |rs|
  {
    if rs != [] {
      WriteGrows(env, Write(env, st, rs[0]).0, rs[1..]);
    }
  }

  lemma CopyPerforms(env: Env, st: State, s: Stmt)
    requires s.Copy?
    ensures var r := OneStep(env, st, s); Performs(env, st, s, r.state, r.err)
  {
    var (st1, a) := Perform(env, st, StartCopy(s));
    WriteAllPrefix(env, st1, a.responses);
    WriteNothing(env, st1);
    var (st2, w) := WriteAll(env, st1, a.responses);
    hide WriteAll, CopyComplete, Copied, EnterStream, HasError, TxStep;
    if a.failure.None? && !HasError(a.responses) {
      if w.None? {
        EnteredPerforms(env, st, s, st2);
      } else {
        WriteNothing(env, st2);
      }
    }
  }

  // The whole query.

  /** From state to state, one statement after another, none of them in error but possibly the last. */
  predicate Chain(env: Env, states: seq<State>, ss: seq<Stmt>, err: Option<Error>)
    decreases |states|
  {
    && 0 < |states| <= |ss| + 1
    && (|states| == 1 ==> ss == [] && err == None)
    && (|states| > 1 ==>
          if |states| == 2 && err.Some? then Performs(env, states[0], ss[0], states[1], err)
          else Performs(env, states[0], ss[0], states[1], None) && Chain(env, states[1..], ss[1..], err))
  }

  /** A query, COPY or not, performs a prefix of its statements, in order: all of them if it ends without an error, else
      up to the first that gave the error, and no later statement runs. Each does exactly what `Performs` says. */
  lemma {:induction false} QueryPerformsPrefix(env: Env, st: State, ss: seq<Stmt>) returns (states: seq<State>)
    ensures var r := StatementsStep(env, st, ss);
      && Chain(env, states, ss, r.err) && states[0] == st && states[|states| - 1] == r.state
      && (r.err.None? ==> |states| == |ss| + 1)
    decreases |ss|
  {
    hide StatementStep, WriteAll, Performs, TxStep;
    StatementsFirst(env, st, ss);
    if ss == [] {
      states := [st];
      return;
    }
    if ss[0].Copy? { CopyPerforms(env, st, ss[0]); } else { PlainPerforms(env, st, ss[0]); }
    var r := OneStep(env, st, ss[0]);
    var s0 := StatementStep(env, st, ss[0]);
    WriteNothing(env, s0.state);
    hide StatementsStep;
    if r.err.Some? {
      states := [st, r.state];
    } else {
      var rest := QueryPerformsPrefix(env, r.state, ss[1..]);
      states := [st] + rest;
      assert states[1..] == rest;
    }
  }
}
