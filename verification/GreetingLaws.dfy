/** What a connection is greeted with, response by response and byte by byte (section 55.2.1 and the formats of section
    55.7), when its writes succeed. */
module GreetingLaws {
  import opened BigEndian
  import opened ConnectionLaws
  import opened Errors
  import opened Inputs
  import opened MessageServer
  import opened OutputLaws
  import opened Responses
  import opened Session
  import QueryLaws
  import S = StartupMessage

  /** What follows the answer to the password: the parameter statuses and the key data, then ReadyForQuery. */
  function Behind(env: Env, m: S.Startup, locked: bool): seq<Response> {
    var a := env.greeting(m);
    a.responses +
    if a.failure.Some? then [Complaint(env, External(a.failure.value))]
    else [Prompt(locked)]
  }

  lemma WriteSucceeds(env: Env, st: State, r: Response)
    requires forall n :: env.writeOk(n)
    ensures Write(env, st, r) == (st.(out := st.out + [r], writes := st.writes + 1), None)
  {}

  lemma RefuseSays(env: Env, st: State, e: Error)
    requires forall n :: env.writeOk(n)
    ensures Refuse(env, st, e) == (st.(out := st.out + [Complaint(env, e)], writes := st.writes + 1), Closed)
  {
    ComplaintIs(env, e);
  }

  lemma AdmitSays(env: Env, st: State, m: S.Startup, r: Response)
    requires forall n :: env.writeOk(n)
    ensures var (st1, phase) := Admit(env, st, m, Success(r));
      && st1 == st.(out := st.out + [r] + Behind(env, m, st.locked), writes := st1.writes)
      && phase == if env.greeting(m).failure.Some? then Closed else Running
  {
    hide WriteAll, Write, Refuse, Complaint, Prompt, ReadyForQuery, TxStep;
    var a := env.greeting(m);
    QueryLaws.WriteAllWhole(env, st, [r] + a.responses);
    QueryLaws.WriteAllPrefix(env, st, [r] + a.responses);
    var st1 := WriteAll(env, st, [r] + a.responses).0;
    PromptIs(st1);
    WriteSucceeds(env, st1, ReadyForQuery(Status(st1)));
    assert st.out + ([r] + a.responses) == st.out + [r] + a.responses;
    if a.failure.Some? {
      RefuseSays(env, st1, External(a.failure.value));
      assert st.out + [r] + a.responses + [Complaint(env, External(a.failure.value))]
        == st.out + [r] + (a.responses + [Complaint(env, External(a.failure.value))]);
    } else {
      var z := ReadyForQuery(Status(st1));
      assert st.out + [r] + a.responses + [z] == st.out + [r] + (a.responses + [z]);
    }
  }

  /** What the greeting writes before it answers the password. */
  function Asked(o: Opening): seq<Response> {
    (if o.ssl then [Bare('N' as int)] else [])
    + if NamesUser(o.startup) then [Typed('R' as int, [0, 0, 0, 3])] else []
  }

  /** The answer to the password, and whether the greeting goes on. */
  predicate Answered(env: Env, st: State, o: Opening, st1: State, phase: Phase) {
    var goesOn := if env.greeting(o.startup).failure.Some? then Closed else Running;
    var (before, behind) := (st.out + Asked(o), Behind(env, o.startup, st.locked));
    if !NamesUser(o.startup) then st1.out == before + [Typed('E' as int, [0])] + behind && phase == goesOn
    else
      match env.verify(o.startup.params[Ascii("user")], o.password)
      case Granted => st1.out == before + [Typed('R' as int, [0, 0, 0, 0])] + behind && phase == goesOn
      case Denied => st1.out == before + [Typed('E' as int, [0])] + behind && phase == goesOn
      case Unverified(code) => st1.out == before + [Complaint(env, External(code))] && phase == Closed
  }

  lemma WelcomeSays(env: Env, st: State, o: Opening)
    requires forall n :: env.writeOk(n)
    ensures Answered(env, st, o, Welcome(env, st, o).0, Welcome(env, st, o).1)
  {
    PasswordPartIs(o);
    hide Write, Admit, Behind, Complaint, Refuse, PasswordPart, TxStep;
    assert CLEARTEXT_PASSWORD == Typed('R' as int, [0, 0, 0, 3])
           && AUTHENTICATION_OK == Typed('R' as int, [0, 0, 0, 0]);
    WriteSucceeds(env, st, SSL_DISABLED);
    var st1 := if o.ssl then Write(env, st, SSL_DISABLED).0 else st;
    assert st.out + [] == st.out;
    AdmitSays(env, st1, o.startup, EMPTY_ERROR);
    WriteSucceeds(env, st1, CLEARTEXT_PASSWORD);
    var st2 := Write(env, st1, CLEARTEXT_PASSWORD).0;
    AdmitSays(env, st2, o.startup, EMPTY_ERROR);
    AdmitSays(env, st2, o.startup, AUTHENTICATION_OK);
    assert Ascii("user") == S.USER;
    assert st2.out == st.out + ((if o.ssl then [SSL_DISABLED] else []) + [CLEARTEXT_PASSWORD]);
    if NamesUser(o.startup) && env.verify(o.startup.params[S.USER], o.password).Unverified? {
      RefuseSays(env, st2, External(env.verify(o.startup.params[S.USER], o.password).code));
      RefusalIs(env, st2, o.startup, External(env.verify(o.startup.params[S.USER], o.password).code));
    }
  }

  lemma RefusalIs(env: Env, st: State, m: S.Startup, e: Error)
    ensures Admit(env, st, m, Failure(e)) == Refuse(env, st, e)
  {}

  /** On the bytes of any opening the greeting writes: 'N' to an SSLRequest; a request for the cleartext password to a
      client that names its user; AuthenticationOk exactly for a password that was granted, an ErrorResponse without
      fields for one that was denied and for a client that names no user, and the error alone, closing the connection,
      for one that could not be verified; then what follows, ending in ReadyForQuery. */
  lemma GreetingSays(env: Env, st: State, o: Opening, ps: S.Listing, s: Bytes)
    requires forall n :: env.writeOk(n)
    requires st.input.Drained() && st.input.rest == OpeningBytes(o, ps) + s && Opens(o, ps)
    ensures Answered(env, st, o, Hello(env, st).0, Hello(env, st).1)
    ensures Hello(env, st).0.calls == st.calls && Hello(env, st).0.locked == st.locked
    ensures Hello(env, st).1.Running? ==> Hello(env, st).0.input == At(st.input, s)
  {
    hide Opens, OpeningBytes, Hello, Welcome, Behind, Complaint, TxStep;
    HelloAlike(env, st, o, ps, s);
    WelcomeSays(env, Deaf(st), o);
    WelcomeKeeps(env, Deaf(st), o);
  }

  lemma WelcomeKeeps(env: Env, st: State, o: Opening)
    requires forall n :: env.writeOk(n)
    ensures Welcome(env, st, o).0.calls == st.calls && Welcome(env, st, o).0.locked == st.locked
  {
    hide Admit, TxStep;
    var st1 := if o.ssl then Write(env, st, SSL_DISABLED).0 else st;
    AdmitKeeps(env, st1, o.startup, Success(EMPTY_ERROR));
    var st2 := Write(env, st1, CLEARTEXT_PASSWORD).0;
    if S.USER in o.startup.params {
      AdmitKeeps(env, st2, o.startup, JudgePassword(env, o.startup, o.password));
    }
  }

  lemma AdmitKeeps(env: Env, st: State, m: S.Startup, verdict: Result<Response>)
    ensures Admit(env, st, m, verdict).0.calls == st.calls && Admit(env, st, m, verdict).0.locked == st.locked
  {
    hide WriteAll, ErrorResponse, ReadyForQuery, TxStep;
    if verdict.Success? {
      QueryLaws.WriteAllPrefix(env, st, [verdict.value] + env.greeting(m).responses);
    }
  }

  /** AuthenticationOk goes out exactly to a client that names its user and whose password was granted. */
  lemma AuthenticatedIff(env: Env, st: State, o: Opening, ps: S.Listing, s: Bytes)
    requires forall n :: env.writeOk(n)
    requires st.input.Drained() && st.input.rest == OpeningBytes(o, ps) + s && Opens(o, ps)
    requires Typed('R' as int, [0, 0, 0, 0]) !in env.greeting(o.startup).responses
    ensures st.out <= Hello(env, st).0.out
    ensures Typed('R' as int, [0, 0, 0, 0]) in Hello(env, st).0.out[|st.out|..] <==>
            NamesUser(o.startup) && env.verify(o.startup.params[Ascii("user")], o.password) == Granted
  {
    hide Opens, OpeningBytes, Hello, TxStep;
    GreetingSays(env, st, o, ps, s);
    var ok := Typed('R' as int, [0, 0, 0, 0]);
    var out, behind := Hello(env, st).0.out, Behind(env, o.startup, st.locked);
    assert ok !in behind && ok !in Asked(o) && forall e :: ok != Complaint(env, e);
    hide Behind, Asked, Complaint;
    var before := st.out + Asked(o);
    assert before[|st.out|..] == Asked(o);
    var said := out[|st.out|..];
    if !NamesUser(o.startup) {
      assert said == Asked(o) + [Typed('E' as int, [0])] + behind;
    } else {
      match env.verify(o.startup.params[Ascii("user")], o.password)
      case Granted => assert said == Asked(o) + [ok] + behind;
      case Denied => assert said == Asked(o) + [Typed('E' as int, [0])] + behind;
      case Unverified(code) => assert said == Asked(o) + [Complaint(env, External(code))];
    }
  }

  // Openings that cannot be read, on any input.

  /** The startup message cannot be read, or the password that should follow it. */
  ghost predicate GreetFails(env: Env, out: seq<Response>, i: Input, st1: State, phase: Phase) {
    match S.StartupRequest(i)
    case Err(e, _) => st1.out == out + [Complaint(env, e)] && phase == Closed
    case Ok(m, j) =>
      NamesUser(m) && S.PasswordRequest(j).Err? ==>
        st1.out == out + [Typed('R' as int, [0, 0, 0, 3])] + [Complaint(env, S.PasswordRequest(j).error)]
            && phase == Closed
  }

  lemma GreetOfNothing(env: Env, st: State)
    requires forall n :: env.writeOk(n)
    ensures GreetFails(env, st.out, st.input, Greet(env, st).0, Greet(env, st).1)
  {
    hide S.StartupRequest, S.PasswordRequest, Write, Refuse, Complaint, JudgePassword, TxStep;
    match S.StartupRequest(st.input)
    case Err(e, i) => RefuseSays(env, st.(input := i), e);
    case Ok(m, i) =>
      var st0 := st.(input := i);
      assert Ascii("user") == S.USER;
      if NamesUser(m) && S.PasswordRequest(i).Err? {
        var e, j := S.PasswordRequest(i).error, S.PasswordRequest(i).next;
        assert CLEARTEXT_PASSWORD == Typed('R' as int, [0, 0, 0, 3]);
        WriteSucceeds(env, st0, CLEARTEXT_PASSWORD);
        var st1 := Write(env, st0, CLEARTEXT_PASSWORD).0;
        hide Admit;
        RefusalIs(env, st1.(input := j), m, e);
        RefuseSays(env, st1.(input := j), e);
      }
  }

  /** On any input: what cannot be read of an opening is answered with its error, behind what was written so far, and
      ends the connection. */
  lemma GreetingFails(env: Env, st: State)
    requires forall n :: env.writeOk(n)
    ensures var (st1, phase) := Hello(env, st);
      match Peek(st.input, 4)
      case Err(e, _) => st1.out == st.out + [Complaint(env, e)] && phase == Closed
      case Ok(b, i) =>
        if Int32Of(b) != 8 then GreetFails(env, st.out, i, st1, phase)
        else
          match S.SslRequest(i)
          case Err(e, _) => st1.out == st.out + [Complaint(env, e)] && phase == Closed
          case Ok(_, j) => GreetFails(env, st.out + [Bare('N' as int)], j, st1, phase)
  {
    hide Peek, Int32Of, S.SslRequest, Greet, GreetFails, Write, Refuse, Complaint, TxStep;
    match Peek(st.input, 4)
    case Err(e, i) => RefuseSays(env, st.(input := i), e);
    case Ok(b, i) =>
      if Int32Of(b) != 8 {
        GreetOfNothing(env, st.(input := i));
      } else {
        match S.SslRequest(i)
        case Err(e, j) => RefuseSays(env, st.(input := j), e);
        case Ok(_, j) =>
          WriteSucceeds(env, st.(input := j), SSL_DISABLED);
          GreetOfNothing(env, Write(env, st.(input := j), SSL_DISABLED).0);
      }
  }
}
