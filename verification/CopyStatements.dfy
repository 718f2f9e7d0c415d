/** COPY as a statement and as part of a conversation: when it is entered, what it does, and where it goes wrong. */
module CopyStatements {
  import opened BigEndian
  import opened ConversationLaws
  import opened CopyFrames
  import opened CopyLaws
  import opened Errors
  import opened MessageServer
  import opened Requests
  import opened Responses
  import opened Session
  import F = Frontend
  import QueryLaws

  const COPY_FAIL: byte := 'f' as int

  /** The COPY is accepted and its CopyIn response is written. */
  predicate CopyBegins(env: Env, st: State, s: Stmt) {
    var (st1, a) := Perform(env, st, StartCopy(s));
    a.failure.None? && !Complains(a.responses) && WriteAll(env, st1, a.responses).1.None?
  }

  lemma WrittenWhole(env: Env, st: State, rs: seq<Response>)
    requires WriteAll(env, st, rs).1.None?
    ensures var st1 := WriteAll(env, st, rs).0; st1 == st.(out := st.out + rs, writes := st1.writes)
  {
    QueryLaws.WriteAllPrefix(env, st, rs);
  }

  /** Behind the CopyIn response the stream is entered, and something is answered, exactly when a CopyData is next.
      Otherwise the statement ends with no response and no error, and the message stays unread; only the end of the
      input is an error. */
  lemma CopyEntersIff(env: Env, st: State, s: Stmt, ms: seq<F.Message>, seen: bool, tail: Bytes) returns (r: Reply)
    requires s.Copy? && CopyBegins(env, st, s) && Before(st.input, ms, seen, tail)
    ensures r == StatementStep(env, st, s)
    ensures r.responses == [] && r.err == None <==> ms != [] && !IsCopyData(ms)
    ensures !IsCopyData(ms) ==>
              && r.state.calls == st.calls + [StartCopy(s)]
              && r.state.out == st.out + env.answer(r.state.calls).responses
              && r.state.input.Stream() == st.input.Stream()
    ensures ms == [] ==> r.err == Some(Eof)
  {
    hide StatementStep, CopyLoop, F.EncodeAll, Whole, TxStep, Complains, Lines, Inserts, Accepted, Unread, Peeked;
    r := StatementStep(env, st, s);
    StatementAlike(env, st, s, ms, seen, tail);
    var (st1, a) := Perform(env, st, StartCopy(s));
    WrittenWhole(env, st1, a.responses);
    WriteAllDeaf(env, st1, a.responses);
    hide WriteAll;
    if IsCopyData(ms) {
      EnteredAnswers(env, Deaf(WriteAll(env, st1, a.responses).0), s, ms);
    }
  }

  lemma EnteredAnswers(env: Env, st: State, s: Stmt, ms: seq<F.Message>)
    requires s.Copy? && IsCopyData(ms)
    ensures var t := EnterTold(env, st, s, ms); t.reply.responses != [] || t.reply.err.Some?
  {
    hide Lines, Inserts, Accepted, Unread, Peeked;
  }

  /** The whole COPY statement, entered: the CopyIn response, exactly the lines in front, exactly the accepted inserts,
      the verdict on the counts, and exactly the unread messages; an end marker at once is a COPY of no lines. */
  lemma CopyStatementRuns(env: Env, st: State, s: Stmt, all: seq<GoString>, ms: seq<F.Message>, seen: bool, tail: Bytes)
    returns (r: Reply, calls: seq<Call>, cs: seq<Call>, n: nat)
    requires s.Copy? && CopyBegins(env, st, s) && Before(st.input, ms, seen, tail) && IsCopyData(ms)
    requires env.schema(st.calls + [StartCopy(s)], s) == Success(all)
    ensures r == StatementStep(env, st, s)
    ensures calls == st.calls + [StartCopy(s)]
    ensures cs == Inserts(s, if s.columns == [] then all else s.columns, Lines(ms))
    ensures n == Accepted(env, calls, cs) && n <= |Lines(ms)|
    ensures r.state.out == st.out + env.answer(calls).responses && r.state.calls == calls + cs
    ensures r.responses == Verdict(n, |Lines(ms)| - n).0 && r.err == Verdict(n, |Lines(ms)| - n).1
    ensures r.state.input.Tidy() && r.state.input.Stream() == F.EncodeAll(Unread(ms)) + tail
    ensures r.state.locked == st.locked && r.state.stmts == st.stmts && r.state.portals == st.portals
  {
    hide StatementStep, F.EncodeAll, Whole, TxStep, Complains, Lines, Inserts, Accepted, Unread, Peeked, Verdict;
    r := StatementStep(env, st, s);
    calls := st.calls + [StartCopy(s)];
    cs := Inserts(s, if s.columns == [] then all else s.columns, Lines(ms));
    n := Accepted(env, calls, cs);
    InsertsBound(s, if s.columns == [] then all else s.columns, Lines(ms));
    StatementAlike(env, st, s, ms, seen, tail);
    var (st1, a) := Perform(env, st, StartCopy(s));
    WrittenWhole(env, st1, a.responses);
    WriteAllDeaf(env, st1, a.responses);
    hide WriteAll;
  }

  lemma {:induction false} LinesBefore(lines: seq<F.Message>, rest: seq<F.Message>)
    requires AllLines(lines) && !AtLine(rest)
    ensures Lines(lines + rest) == Lines(lines) && |Lines(lines)| == |lines|
    decreases |lines|
  {
    hide Split, TrimRight, IsEndMarker, F.WellFormed;
    if lines == [] {
      assert lines + rest == rest;
    } else {
      assert (lines + rest)[1..] == lines[1..] + rest && (lines + rest)[0] == lines[0];
      LinesFirst(lines);
      LinesFirst(lines + rest);
      hide Lines, AtLine;
      LinesBefore(lines[1..], rest);
    }
  }

  /** Lines followed by something that is none. */
  lemma LinesThen(lines: seq<F.Message>, rest: seq<F.Message>)
    requires AllLines(lines) && !AtLine(rest)
    ensures Lines(lines + rest) == Lines(lines) && |Lines(lines)| == |lines| && Unread(lines + rest) == AfterEnd(rest)
    ensures lines != [] ==> IsCopyData(lines + rest)
  {
    LinesBefore(lines, rest);
    UnreadIs(lines + rest);
    hide Lines, Unread, AfterEnd;
    assert (lines + rest)[|lines|..] == rest;
  }

  /** A client that sends one or more lines and then gives up with CopyFail is told "COPY k" exactly when all k lines
      were inserted. The CopyFail stays unread for the dispatch loop. Section 55.2.6 asks for an error instead. */
  lemma CopyFailIsTakenForSuccess(
    env: Env, st: State, s: Stmt, all: seq<GoString>, lines: seq<F.Message>, fail: F.Message, rest: seq<F.Message>,
    seen: bool, tail: Bytes) returns (r: Reply, n: nat)
    requires s.Copy? && CopyBegins(env, st, s) && env.schema(st.calls + [StartCopy(s)], s) == Success(all)
    requires lines != [] && AllLines(lines) && fail.Other? && fail.t == COPY_FAIL
    requires Before(st.input, lines + ([fail] + rest), seen, tail)
    ensures r == StatementStep(env, st, s)
    ensures n == Accepted(env, st.calls + [StartCopy(s)],
                          Inserts(s, if s.columns == [] then all else s.columns, Lines(lines)))
    ensures n <= |lines| && (r.responses == [QueryLaws.Copied(|lines|)] && r.err == None <==> n == |lines|)
    ensures n != |lines| ==> r.responses == [] && r.err == Some(CopyIncomplete(n, |lines| - n))
    ensures r.state.input.Stream() == F.EncodeAll([fail] + rest) + tail
  {
    hide *;
    FailEnds(fail, rest);
    LinesThen(lines, [fail] + rest);
    var calls, cs;
    r, calls, cs, n := CopyStatementRuns(env, st, s, all, lines + ([fail] + rest), seen, tail);
    VerdictSays(n, |lines|);
  }

  /** An end marker in the data, for instance an empty line, ends the COPY: the statement gives its verdict on the lines
      before it, and what the client sends behind it stays unread. */
  lemma MarkerEndsCopy(
    env: Env, st: State, s: Stmt, all: seq<GoString>, lines: seq<F.Message>, marker: F.Message, rest: seq<F.Message>,
    seen: bool, tail: Bytes) returns (r: Reply, n: nat)
    requires s.Copy? && CopyBegins(env, st, s) && env.schema(st.calls + [StartCopy(s)], s) == Success(all)
    requires AllLines(lines) && IsCopyData([marker]) && IsEndMarker(TrimRight(marker.payload)) && !IsCopyDone(rest)
    requires Before(st.input, lines + ([marker] + rest), seen, tail)
    ensures r == StatementStep(env, st, s)
    ensures n == Accepted(env, st.calls + [StartCopy(s)],
                          Inserts(s, if s.columns == [] then all else s.columns, Lines(lines)))
    ensures n <= |lines| && (r.responses == [QueryLaws.Copied(|lines|)] && r.err == None <==> n == |lines|)
    ensures n != |lines| ==> r.responses == [] && r.err == Some(CopyIncomplete(n, |lines| - n))
    ensures r.state.input.Stream() == F.EncodeAll(rest) + tail
  {
    hide *;
    MarkerLeaves(marker, rest);
    LinesThen(lines, [marker] + rest);
    DataInFront(lines, marker, rest);
    var calls, cs;
    r, calls, cs, n := CopyStatementRuns(env, st, s, all, lines + ([marker] + rest), seen, tail);
    VerdictSays(n, |lines|);
  }

  lemma MarkerLeaves(marker: F.Message, rest: seq<F.Message>)
    requires IsCopyData([marker]) && IsEndMarker(TrimRight(marker.payload)) && !IsCopyDone(rest)
    ensures !AtLine([marker] + rest) && AfterEnd([marker] + rest) == rest
  {
    hide IsEndMarker, TrimRight;
    assert ([marker] + rest)[1..] == rest;
  }

  lemma DataInFront(lines: seq<F.Message>, marker: F.Message, rest: seq<F.Message>)
    requires IsCopyData([marker])
    ensures AllLines(lines) ==> IsCopyData(lines + ([marker] + rest))
  {
    if lines == [] {
      assert lines + ([marker] + rest) == [marker] + rest;
    }
  }

  lemma FailEnds(fail: F.Message, rest: seq<F.Message>)
    requires fail.Other? && fail.t == COPY_FAIL
    ensures !AtLine([fail] + rest) && AfterEnd([fail] + rest) == [fail] + rest
  {}

  lemma VerdictSays(n: nat, k: nat)
    requires n <= k
    ensures Verdict(n, k - n).0 == [QueryLaws.Copied(k)] && Verdict(n, k - n).1 == None <==> n == k
    ensures n != k ==> Verdict(n, k - n).0 == [] && Verdict(n, k - n).1 == Some(CopyIncomplete(n, k - n))
  {
    hide QueryLaws.Copied;
  }

  /** An empty COPY, the client sending CopyDone at once: the query is answered with nothing but the CopyIn response, no
      "COPY 0" is written, and the CopyDone is then refused as an unsupported message. */
  lemma EmptyCopyIsRefused(
    env: Env, st: State, text: GoString, s: Stmt, rest: seq<F.Message>, tail: Bytes, tick: nat)
    returns (t1: Turn, t2: Turn)
    requires s.Copy? && env.bound(text, []) == Statements([s]) && forall n :: env.writeOk(n)
    requires var a := env.answer(st.calls + [StartCopy(s)]); a.failure.None? && !Complains(a.responses)
    requires st.input.Tidy()
    requires var ms := [F.Query(text), F.Other(F.COPY_DONE, [])] + rest;
      st.input.Stream() == F.EncodeAll(ms) + tail && Whole(ms, tail) && F.AllUnsplit(ms, |tail|, st.input.cuts)
    ensures t1 == Iterate(env, st, tick) && t2 == Iterate(env, t1.state, tick + 1)
    ensures t1.request == Success(Query(text)) && t1.err == None && t1.phase == Running
    ensures t1.state.out == st.out + env.answer(st.calls + [StartCopy(s)]).responses
    ensures t2.request == Success(Unsupported(F.COPY_DONE)) && t2.err == Some(NotSupported(F.COPY_DONE))
    ensures t2.state.calls == st.calls + [StartCopy(s)]
    ensures t1.state.out + [ErrorResponse(env.errorText(NotSupported(F.COPY_DONE)))] <= t2.state.out
  {
    hide *;
    var ms := [F.Query(text), F.Other(F.COPY_DONE, [])] + rest;
    t1, t2 := Iterate(env, st, tick), Iterate(env, Iterate(env, st, tick).state, tick + 1);
    TurnAnswers(env, st, ms, tail, tick);
    DeafKeeps(st);
    var x1 := EmptyCopyHeard(env, Deaf(st), text, s, rest, tick);
    EqualTurns(t1, x1, tail);
    DeafKeeps(t1.state);
    TurnAnswers(env, t1.state, x1.left, tail, tick + 1);
    var x2 := DoneHeard(env, Deaf(t1.state), rest, tick + 1);
    EqualTurns(t2, x2, tail);
    DeafKeeps(t2.state);
  }

  lemma DeafKeeps(st: State)
    ensures Deaf(st).out == st.out && Deaf(st).calls == st.calls
  {}

  lemma EqualTurns(t: Turn, x: Exchange, tail: Bytes)
    requires SameTurn(t, x, tail)
    ensures t.request == x.turn.request && t.err == x.turn.err && t.phase == x.turn.phase
            && Deaf(t.state) == x.turn.state
    ensures t.state.input.Tidy() && t.state.input.Stream() == F.EncodeAll(x.left) + tail
  {}

  /** What is said about a request when every write succeeds. */
  lemma ConcludeSays(env: Env, q: Request, t: Told, tick: nat) returns (x: Exchange)
    requires (forall n :: env.writeOk(n)) && !(t.reply.err.Some? && t.reply.err.value.Crash?)
    ensures x == Conclude(env, q, t, tick) && x.left == t.left
    ensures x.turn.phase == Running && x.turn.request == Success(q) && x.turn.err == t.reply.err
    ensures x.turn.state == t.reply.state.(out := x.turn.state.out, writes := x.turn.state.writes)
    ensures x.turn.state.out ==
            t.reply.state.out + t.reply.responses
            + (if t.reply.err.Some? then [ErrorResponse(env.errorText(t.reply.err.value))] else [])
            + (if t.left != [] && (t.seen || env.arrived(tick)) then [] else [ReadyForQuery(Status(t.reply.state))])
  {
    var r := t.reply;
    x := Conclude(env, q, t, tick);
    QueryLaws.WriteAllPrefix(env, r.state, r.responses);
    QueryLaws.WriteAllWhole(env, r.state, r.responses);
    hide WriteAll, ErrorResponse, ReadyForQuery, TxStep;
    var out := r.state.out + r.responses;
    assert out + [] == out;
    var e := if r.err.Some? then [ErrorResponse(env.errorText(r.err.value))] else [];
    assert out + e + [] == out + e;
  }

  lemma EmptyCopyHeard(env: Env, st: State, text: GoString, s: Stmt, rest: seq<F.Message>, tick: nat)
      returns (x: Exchange)
    requires s.Copy? && env.bound(text, []) == Statements([s]) && forall n :: env.writeOk(n)
    requires var a := env.answer(st.calls + [StartCopy(s)]); a.failure.None? && !Complains(a.responses)
    ensures x == Hear(env, st, [F.Query(text), F.Other(F.COPY_DONE, [])] + rest, tick)
    ensures x.left == [F.Other(F.COPY_DONE, [])] + rest
    ensures x.turn.request == Success(Query(text)) && x.turn.err == None && x.turn.phase == Running
    ensures x.turn.state.calls == st.calls + [StartCopy(s)]
    ensures x.turn.state.out == st.out + env.answer(st.calls + [StartCopy(s)]).responses
  {
    hide Complains, Conclude, HandleTold, Hear, StatementTold, ReadyForQuery;
    var done := [F.Other(F.COPY_DONE, [])] + rest;
    var ms := [F.Query(text), F.Other(F.COPY_DONE, [])] + rest;
    assert ms[1..] == done && ms[0] == F.Query(text);
    HearRequest(env, st, ms, tick);
    EmptyCopyTold(env, st, s, done);
    SingleStatement(env, st, text, s, done);
    x := ConcludeSays(env, Query(text), HandleTold(env, st, Query(text), done), tick);
    var out := st.out + env.answer(st.calls + [StartCopy(s)]).responses;
    assert out + [] + [] + [] == out;
  }

  lemma EmptyCopyTold(env: Env, st: State, s: Stmt, done: seq<F.Message>)
    requires s.Copy? && done != [] && !IsCopyData(done) && forall n :: env.writeOk(n)
    requires var a := env.answer(st.calls + [StartCopy(s)]); a.failure.None? && !Complains(a.responses)
    ensures var t, calls := StatementTold(env, st, s, done, false), st.calls + [StartCopy(s)];
      && t.reply.responses == [] && t.reply.err == None && t.left == done && t.seen
      && t.reply.state == st.(
           calls := calls, out := st.out + env.answer(calls).responses, writes := t.reply.state.writes)
      && WriteAll(env, t.reply.state, []) == (t.reply.state, None)
  {
    var (st1, a) := Perform(env, st, StartCopy(s));
    QueryLaws.WriteAllPrefix(env, st1, a.responses);
    QueryLaws.WriteAllWhole(env, st1, a.responses);
    QueryLaws.WriteNothing(env, WriteAll(env, st1, a.responses).0);
    hide WriteAll, Complains;
  }

  lemma DoneHeard(env: Env, st: State, rest: seq<F.Message>, tick: nat) returns (x: Exchange)
    requires forall n :: env.writeOk(n)
    ensures x == Hear(env, st, [F.Other(F.COPY_DONE, [])] + rest, tick)
    ensures x.turn.request == Success(Unsupported(F.COPY_DONE)) && x.turn.err == Some(NotSupported(F.COPY_DONE))
    ensures x.turn.state.calls == st.calls
    ensures st.out + [ErrorResponse(env.errorText(NotSupported(F.COPY_DONE)))] <= x.turn.state.out
  {
    hide *;
    var ms := [F.Other(F.COPY_DONE, [])] + rest;
    assert ms[1..] == rest;
    HearRequest(env, st, ms, tick);
    DoneTold(env, st, rest);
    x := ConcludeSays(env, Unsupported(F.COPY_DONE), HandleTold(env, st, Unsupported(F.COPY_DONE), rest), tick);
    assert st.out + [] == st.out;
  }

  lemma DoneTold(env: Env, st: State, rest: seq<F.Message>)
    ensures Meaning(F.Other(F.COPY_DONE, [])) == Unsupported(F.COPY_DONE)
    ensures HandleTold(env, st, Unsupported(F.COPY_DONE), rest)
            == Told(Reply(st, [], Some(NotSupported(F.COPY_DONE))), rest, false)
  {}
}
