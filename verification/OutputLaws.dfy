/** The order of a connection's output over every run: well-formed and malformed input, and writes that fail, alike. */
module OutputLaws {
  import opened BigEndian
  import opened Errors
  import opened Inputs
  import opened Requests
  import opened Responses
  import opened Session
  import ConversationLaws
  import QueryLaws

  predicate CrashError(e: Option<Error>) { e.Some? && e.value.Crash? }

  /** An ErrorResponse with the error's text, as section 55.7 writes it: one field 'M'. */
  function Complaint(env: Env, e: Error): Response {
    Typed('E' as int, ['M' as int] + env.errorText(e) + [0, 0])
  }

  /** ReadyForQuery: 'T' in a transaction, 'I' outside. */
  function Prompt(locked: bool): Response {
    Typed('Z' as int, [if locked then 'T' as int else 'I' as int])
  }

  lemma ComplaintIs(env: Env, e: Error)
    ensures ErrorResponse(env.errorText(e)) == Complaint(env, e)
  {
    var text := env.errorText(e);
    assert [77] + (text + [0]) + [0] == [77] + text + [0, 0];
  }

  lemma PromptIs(st: State)
    ensures ReadyForQuery(Status(st)) == Prompt(st.locked)
    ensures Status(st) == if st.locked then 'T' as int else 'I' as int
  {}

  /** What reading and handling the next request gives; at the end of the stream, the read error. */
  function Served(env: Env, st: State): Reply {
    match Peek(st.input, 1)
    case Err(e, i) => Reply(st.(input := i), [], Some(e))
    case Ok(b, i) => Serve(env, st.(input := i), b[0]).1
  }

  /** The turn ends the loop by what it met: the end of the stream, Terminate, or a crash. */
  predicate LastWords(env: Env, st: State) {
    match Peek(st.input, 1)
    case Err(_, _) => true
    case Ok(b, i) =>
      var (q, r) := Serve(env, st.(input := i), b[0]);
      q == Success(Terminate) || CrashError(r.err)
  }

  /** What the handler of a turn wrote itself, and then returned. */
  function Body(before: State, r: Reply): seq<Response>
    requires |before.out| <= |r.state.out|
  {
    r.state.out[|before.out|..] + if CrashError(r.err) then [] else r.responses
  }

  /** A next request is waiting: its type byte is already buffered, or some byte of it has arrived. */
  predicate Waiting(env: Env, i: Input, tick: nat) {
    i.peek != [] || (env.arrived(tick) && i.rest != [])
  }

  /** At most one ErrorResponse, then ReadyForQuery unless the loop ends here or a next request is waiting. */
  function Close(env: Env, st: State, tick: nat): seq<Response> {
    var r := Served(env, st);
    (if r.err.Some? && !CrashError(r.err) then [Complaint(env, r.err.value)] else [])
    + (if LastWords(env, st) || Waiting(env, r.state.input, tick) then [] else [Prompt(r.state.locked)])
  }

  /** Every write numbered from a up to b succeeded. */
  predicate WritesSucceed(env: Env, a: nat, b: nat) {
    forall n :: a <= n < b ==> env.writeOk(n)
  }

  /** One turn's output: the handler's, then its error if any, then ReadyForQuery exactly when nothing is waiting. It is
      cut short exactly by a failed write, which ends the loop. */
  predicate SpeaksInOrder(env: Env, st: State, t: Turn, tick: nat) {
    var r := Served(env, st);
    && |st.out| <= |r.state.out|
    && t.state.out <= st.out + Body(st, r) + Close(env, st, tick)
    && (t.state.out == st.out + Body(st, r) + Close(env, st, tick) <==>
        WritesSucceed(env, r.state.writes, t.state.writes))
    && (t.phase.Running? ==> t.state.out == st.out + Body(st, r) + Close(env, st, tick) && t.err == r.err)
    && (t.ready.Some? <==> t.phase.Running? && !Waiting(env, r.state.input, tick))
    && (t.ready.Some? ==> t.ready.value == if t.state.locked then 'T' as int else 'I' as int)
  }

  // Writing, counted.

  /** From `st` to `st1`, `rs` were to be written: they were, unless one of the writes made failed. */
  predicate Wrote(env: Env, st: State, st1: State, rs: seq<Response>) {
    && st.writes <= st1.writes
    && st1.out <= st.out + rs
    && (st1.out == st.out + rs <==> WritesSucceed(env, st.writes, st1.writes))
  }

  lemma WroteOne(env: Env, st: State, r: Response)
    ensures var (st1, w) := Write(env, st, r);
      Wrote(env, st, st1, [r]) && (w.None? <==> WritesSucceed(env, st.writes, st1.writes))
  {
    assert WritesSucceed(env, st.writes, st.writes + 1) <==> env.writeOk(st.writes);
  }

  lemma WroteNothing(env: Env, st: State)
    ensures Wrote(env, st, st, [])
  {
    assert st.out + [] == st.out;
  }

  lemma SucceedBoth(env: Env, a: nat, b: nat, c: nat)
    requires a <= b <= c && WritesSucceed(env, a, b)
    ensures WritesSucceed(env, a, c) <==> WritesSucceed(env, b, c)
  {}

  /** Two pieces, the second begun only after the first succeeded. */
  lemma WroteBoth(env: Env, a: State, b: State, c: State, rs: seq<Response>, qs: seq<Response>)
    requires Wrote(env, a, b, rs)
    requires if WritesSucceed(env, a.writes, b.writes) then Wrote(env, b, c, qs) else c == b
    ensures Wrote(env, a, c, rs + qs)
  {
    assert (a.out + rs) + qs == a.out + (rs + qs);
    if WritesSucceed(env, a.writes, b.writes) {
      SucceedBoth(env, a.writes, b.writes, c.writes);
    } else {
      assert |b.out| < |a.out + rs|;
    }
  }

  lemma {:induction false} WroteAll(env: Env, st: State, rs: seq<Response>)
    ensures var (st1, w) := WriteAll(env, st, rs);
      Wrote(env, st, st1, rs) && (w.None? <==> WritesSucceed(env, st.writes, st1.writes))
    decreases |rs|
  {
    hide Wrote, WritesSucceed, Write;
    if rs == [] {
      WroteNothing(env, st);
      NoneFailed(env, st.writes);
    } else {
      var (st1, w) := Write(env, st, rs[0]);
      WroteOne(env, st, rs[0]);
      if w.None? {
        WroteAll(env, st1, rs[1..]);
        CountGrows(env, st1, rs[1..]);
        SucceedBoth(env, st.writes, st1.writes, WriteAll(env, st1, rs[1..]).0.writes);
      }
      WroteBoth(env, st, st1, WriteAll(env, st, rs).0, [rs[0]], rs[1..]);
      assert [rs[0]] + rs[1..] == rs;
    }
  }

  lemma NoneFailed(env: Env, a: nat)
    ensures WritesSucceed(env, a, a)
  {}

  lemma CountGrows(env: Env, st: State, rs: seq<Response>)
    ensures st.writes <= WriteAll(env, st, rs).0.writes
    decreases |rs|
  {}

  function ErrorOf(env: Env, e: Option<Error>): seq<Response> {
    if e.Some? then [Complaint(env, e.value)] else []
  }

  lemma RespondSays(env: Env, r: Reply)
    ensures var (st, w) := Respond(env, r);
      && Wrote(env, r.state, st, r.responses + ErrorOf(env, r.err))
      && (w.None? <==> WritesSucceed(env, r.state.writes, st.writes))
      && st.input == r.state.input && st.locked == r.state.locked
  {
    hide Wrote, WritesSucceed, Write, WriteAll, ErrorResponse, Complaint, TxStep;
    var (st1, w) := WriteAll(env, r.state, r.responses);
    WroteAll(env, r.state, r.responses);
    QueryLaws.WriteAllPrefix(env, r.state, r.responses);
    CountGrows(env, r.state, r.responses);
    var st := Respond(env, r).0;
    if r.err.Some? {
      var e := Complaint(env, r.err.value);
      ComplaintIs(env, r.err.value);
      WroteOne(env, st1, e);
      WriteChanges(env, st1, e);
      if w.None? {
        SucceedBoth(env, r.state.writes, st1.writes, st.writes);
      }
      WroteBoth(env, r.state, st1, st, r.responses, [e]);
    } else {
      WroteNothing(env, st1);
      WroteBoth(env, r.state, st1, st1, r.responses, []);
    }
  }

  lemma WriteChanges(env: Env, st: State, r: Response)
    ensures var st1 := Write(env, st, r).0; st1 == st.(out := st1.out, writes := st.writes + 1)
  {}

  lemma ReadySays(env: Env, st: State, tick: nat)
    requires st.input.Tidy()
    ensures var (st1, w, ready) := Ready(env, st, tick);
      && Wrote(env, st, st1, if Waiting(env, st.input, tick) then [] else [Prompt(st.locked)])
      && (w.None? <==> WritesSucceed(env, st.writes, st1.writes))
      && (ready.Some? <==> w.None? && !Waiting(env, st.input, tick))
          && (ready.Some? ==> ready.value == if st.locked then 'T' as int else 'I' as int)
      && st1.locked == st.locked
  {
    hide Wrote, WritesSucceed, Write, ReadyForQuery, Prompt, TxStep;
    NoneFailed(env, st.writes);
    if Waiting(env, st.input, tick) {
      SameOutput(env, st, st.(input := PeekNow(env, st.input, tick).next));
    } else {
      var st1 := st.(input := PeekNow(env, st.input, tick).next);
      var e := Prompt(st.locked);
      PromptIs(st1);
      WroteOne(env, st1, e);
      WriteChanges(env, st1, e);
      MovedInput(env, st, st1, Write(env, st1, e).0, [e]);
    }
  }

  lemma SameOutput(env: Env, st: State, st1: State)
    requires st1.out == st.out && st1.writes == st.writes
    ensures Wrote(env, st, st1, [])
  {
    assert st.out + [] == st.out;
  }

  lemma MovedInput(env: Env, st: State, st1: State, st2: State, rs: seq<Response>)
    requires st1.out == st.out && st1.writes == st.writes && Wrote(env, st1, st2, rs)
    ensures Wrote(env, st, st2, rs)
  {}

  /** What follows the handler: responses, error, ReadyForQuery. */
  lemma FinishSays(env: Env, tick: nat, q: Result<Request>, r: Reply)
    requires r.state.input.Tidy() && !CrashError(r.err)
    ensures var t := Finish(env, tick, q, r);
      && Wrote(env, r.state, t.state,
               r.responses + ErrorOf(env, r.err)
               + (if Waiting(env, r.state.input, tick) then [] else [Prompt(r.state.locked)]))
      && (t.phase.Running? <==> WritesSucceed(env, r.state.writes, t.state.writes))
      && (t.phase.Running? ==> t.err == r.err)
      && (t.ready.Some? <==> t.phase.Running? && !Waiting(env, r.state.input, tick))
      && (t.ready.Some? ==> t.ready.value == if t.state.locked then 'T' as int else 'I' as int)
          && t.state.locked == r.state.locked
  {
    hide Wrote, WritesSucceed, Respond, Ready, Prompt, ErrorOf, Waiting, TxStep;
    RespondSays(env, r);
    var st1 := Respond(env, r).0;
    ReadySays(env, st1, tick);
    var ready := if Waiting(env, r.state.input, tick) then [] else [Prompt(r.state.locked)];
    var st2 := Finish(env, tick, q, r).state;
    CountsInOrder(env, r, st1, Ready(env, st1, tick).0);
    if Respond(env, r).1.None? {
      SucceedBoth(env, r.state.writes, st1.writes, st2.writes);
    }
    WroteBoth(env, r.state, st1, st2, r.responses + ErrorOf(env, r.err), ready);
  }

  lemma CountsInOrder(env: Env, r: Reply, st1: State, st2: State)
    requires Wrote(env, r.state, st1, r.responses + ErrorOf(env, r.err)) && exists rs :: Wrote(env, st1, st2, rs)
    ensures r.state.writes <= st1.writes <= st2.writes
  {}

  // One turn.

  /** The handler's own output and then what follows it, seen from the start of the turn. */
  lemma TurnOutput(env: Env, st: State, r: Reply, fin: State, words: seq<Response>)
    requires st.out <= r.state.out && Wrote(env, r.state, fin, words)
    ensures var all := st.out + (r.state.out[|st.out|..] + words);
      fin.out <= all && (fin.out == all <==> WritesSucceed(env, r.state.writes, fin.writes))
  {
    assert st.out + (r.state.out[|st.out|..] + words) == r.state.out + words;
  }

  lemma PeekError(i: Input)
    ensures Peek(i, 1).Err? ==> Peek(i, 1).error == Eof || Peek(i, 1).error == UnexpectedEof
  {}

  lemma EndSpeaks(env: Env, st: State, tick: nat)
    requires st.input.Tidy() && Peek(st.input, 1).Err?
    ensures SpeaksInOrder(env, st, Iterate(env, st, tick), tick)
  {
    PeekError(st.input);
    hide Peek, Wrote, WritesSucceed, ErrorResponse, ReadyForQuery, Complaint, Prompt, Waiting, TakeTurn, Serve, TxStep;
    var r := Served(env, st);
    var e := Complaint(env, r.err.value);
    ComplaintIs(env, r.err.value);
    WroteOne(env, r.state, e);
    var fin := Write(env, r.state, e).0;
    TurnOutput(env, st, r, fin, [e]);
    assert st.out[|st.out|..] == [] && [] + [e] == [e] && [e] + [] == [e];
    assert st.out + Body(st, r) + Close(env, st, tick) == st.out + ([] + [e]);
  }

  lemma TerminateSaysNothing(env: Env, st: State, t: byte)
    requires Serve(env, st, t).0 == Success(Terminate)
    ensures Serve(env, st, t).1.responses == [] && Serve(env, st, t).1.err == None
    ensures Serve(env, st, t).1.state.out == st.out && Serve(env, st, t).1.state.writes == st.writes
  {
    hide Dispatch, TxStep;
  }

  /** The turn that hears Terminate, or crashes, adds nothing to what its handler wrote. */
  lemma QuietTurn(env: Env, st: State, tick: nat)
    requires st.input.Tidy() && Peek(st.input, 1).Ok? && LastWords(env, st)
    ensures SpeaksInOrder(env, st, Iterate(env, st, tick), tick)
  {
    hide Wrote, WritesSucceed, ErrorResponse, ReadyForQuery, Complaint, Prompt, Waiting, Peek, Serve, TxStep;
    var p := Peek(st.input, 1);
    var st1 := st.(input := p.next);
    var (q, r) := Serve(env, st1, p.value[0]);
    if q == Success(Terminate) {
      TerminateSaysNothing(env, st1, p.value[0]);
    }
    WroteNothing(env, r.state);
    TurnOutput(env, st, r, r.state, []);
    assert r.state.out[|st.out|..] + [] == r.state.out[|st.out|..];
    assert Close(env, st, tick) == [];
    assert st.out + Body(st, r) + [] == st.out + (r.state.out[|st.out|..] + []);
  }

  lemma TurnFinishes(env: Env, st: State, tick: nat) returns (q: Result<Request>)
    requires st.input.Tidy() && Peek(st.input, 1).Ok? && !LastWords(env, st)
    ensures Iterate(env, st, tick) == Finish(env, tick, q, Served(env, st))
    ensures !CrashError(Served(env, st).err) && Served(env, st).state.input.Tidy()
            && st.out <= Served(env, st).state.out
    ensures Close(env, st, tick) ==
            ErrorOf(env, Served(env, st).err)
            + (if Waiting(env, Served(env, st).state.input, tick) then []
                else [Prompt(Served(env, st).state.locked)])
  {
    PeekKeepsTidy(st.input);
    hide Peek, Serve, Finish, ErrorResponse, ReadyForQuery, Complaint, Prompt, Waiting, TxStep;
    q := Serve(env, st.(input := Peek(st.input, 1).next), Peek(st.input, 1).value[0]).0;
  }

  /** A turn that wrote the responses and then the closing words speaks in order. */
  lemma WroteIsSpoken(env: Env, st: State, t: Turn, tick: nat)
    requires st.out <= Served(env, st).state.out && !CrashError(Served(env, st).err)
    requires Wrote(env, Served(env, st).state, t.state, Served(env, st).responses + Close(env, st, tick))
    requires t.phase.Running? <==> WritesSucceed(env, Served(env, st).state.writes, t.state.writes)
    requires t.phase.Running? ==> t.err == Served(env, st).err
    requires t.ready.Some? <==> t.phase.Running? && !Waiting(env, Served(env, st).state.input, tick)
    requires t.ready.Some? ==> t.ready.value == if t.state.locked then 'T' as int else 'I' as int
    ensures SpeaksInOrder(env, st, t, tick)
  {
    hide Served, Close, Wrote, WritesSucceed, Waiting, TxStep;
    var r, c := Served(env, st), Close(env, st, tick);
    TurnOutput(env, st, r, t.state, r.responses + c);
    var b := r.state.out[|st.out|..];
    assert st.out + (b + r.responses) + c == st.out + (b + (r.responses + c));
  }

  lemma SpeakingTurn(env: Env, st: State, tick: nat)
    requires st.input.Tidy() && Peek(st.input, 1).Ok? && !LastWords(env, st)
    ensures SpeaksInOrder(env, st, Iterate(env, st, tick), tick)
  {
    hide *;
    var q := TurnFinishes(env, st, tick);
    var r := Served(env, st);
    FinishSays(env, tick, q, r);
    var ready := if Waiting(env, r.state.input, tick) then [] else [Prompt(r.state.locked)];
    assert r.responses + ErrorOf(env, r.err) + ready == r.responses + (ErrorOf(env, r.err) + ready);
    WroteIsSpoken(env, st, Iterate(env, st, tick), tick);
  }

  lemma PeekKeepsTidy(i: Input)
    requires i.Tidy()
    ensures Peek(i, 1).next.Tidy()
  {}

  /** Every turn of every run, on any input, whatever writes fail. */
  lemma IterateSpeaks(env: Env, st: State, tick: nat)
    requires st.input.Tidy()
    ensures SpeaksInOrder(env, st, Iterate(env, st, tick), tick)
  {
    hide *;
    if Peek(st.input, 1).Err? {
      EndSpeaks(env, st, tick);
    } else if LastWords(env, st) {
      QuietTurn(env, st, tick);
    } else {
      SpeakingTurn(env, st, tick);
    }
  }

  // The whole run.

  /** Each of the turns speaks in order, starting where the one before it ended, and only the last ends the loop. */
  predicate InOrder(env: Env, st: State, turns: seq<Turn>, tick: nat)
    decreases |turns|
  {
    turns == [] ||
    (&& turns[0] == Iterate(env, st, tick)
     && SpeaksInOrder(env, st, turns[0], tick)
     && (turns[0].phase.Running? <==> |turns| > 1)
     && InOrder(env, turns[0].state, turns[1..], tick + 1))
  }

  lemma InOrderFirst(env: Env, st: State, turns: seq<Turn>, tick: nat)
    ensures var t := Iterate(env, st, tick);
      SpeaksInOrder(env, st, t, tick) && InOrder(env, t.state, turns, tick + 1)
          && (t.phase.Running? <==> turns != []) ==>
      InOrder(env, st, [t] + turns, tick)
  {
    hide Iterate, SpeaksInOrder;
    assert ([Iterate(env, st, tick)] + turns)[1..] == turns;
  }

  lemma NoTurnInOrder(env: Env, st: State, tick: nat)
    ensures InOrder(env, st, [], tick)
  {}

  /** Over every run, on any input, for every oracle of arriving input and whatever writes fail: the log grows turn by
      turn, each turn adding the responses to its request, then at most one ErrorResponse, then ReadyForQuery exactly
      when nothing waits, and nothing else; only the last turn can be cut short, and it is exactly when one of its
      writes failed. */
  lemma {:induction false} RunsSpeakInOrder(env: Env, st: State, tick: nat)
    requires st.input.Tidy()
    ensures var (fin, phase, turns) := Loop(env, st, tick);
      && turns != [] && fin == turns[|turns| - 1].state && InOrder(env, st, turns, tick)
    decreases |st.input.Stream()|
  {
    var t := Iterate(env, st, tick);
    assert t.state.input.Tidy() by { hide Iterate; }
    hide *;
    IterateSpeaks(env, st, tick);
    ConversationLaws.LoopFirst(env, st, tick);
    if t.phase.Running? {
      RunsSpeakInOrder(env, t.state, tick + 1);
      InOrderFirst(env, st, Loop(env, t.state, tick + 1).2, tick);
    } else {
      NoTurnInOrder(env, t.state, tick + 1);
      InOrderFirst(env, st, [], tick);
      assert [t] + [] == [t];
    }
  }
}
