/** A whole connection, from its first byte: the greeting and then the conversation. */
module ConnectionLaws {
  import opened BigEndian
  import opened ConversationLaws
  import opened CopyLaws
  import opened Errors
  import opened Inputs
  import opened MessageServer
  import opened Responses
  import opened Session
  import F = Frontend
  import S = StartupMessage

  function SslBytes(ssl: bool): Bytes {
    if ssl then [0, 0, 0, 8, 4, 210, 22, 47] else []
  }

  predicate NamesUser(m: S.Startup) { Ascii("user") in m.params }

  function PasswordPart(o: Opening): Bytes {
    if NamesUser(o.startup) then ['p' as int] + (Int32Bytes(|o.password| + 5) + (o.password + [0])) else []
  }

  /** The password part in the codec's terms. */
  lemma PasswordPartIs(o: Opening)
    ensures NamesUser(o.startup) <==> S.USER in o.startup.params
    ensures PasswordPart(o) == if S.USER in o.startup.params then S.PasswordBytes(o.password) else []
  {
    assert Ascii("user") == S.USER;
  }

  /** The opening as it goes over the wire, the parameters listed in some order. */
  function OpeningBytes(o: Opening, ps: S.Listing): Bytes {
    SslBytes(o.ssl) + (S.Encode(o.startup.major, o.startup.minor, ps) + PasswordPart(o))
  }

  /** `ps` lists the parameters, and every part can be expressed. */
  predicate Opens(o: Opening, ps: S.Listing) {
    && S.WellFormed(o.startup.major, o.startup.minor, ps) && S.Lists(ps, o.startup.params)
    && o.startup.length == |S.Encode(o.startup.major, o.startup.minor, ps)|
    && (NamesUser(o.startup) ==> S.PasswordFits(o.password))
  }

  // Steps that do not touch the input.

  lemma RefuseDeaf(env: Env, st: State, e: Error)
    ensures Refuse(env, Deaf(st), e) == (Deaf(Refuse(env, st, e).0), Closed)
    ensures Refuse(env, st, e).1 == Closed && Refuse(env, st, e).0.input == st.input
  {}

  lemma AdmitDeaf(env: Env, st: State, m: S.Startup, verdict: Result<Response>)
    ensures var r := Admit(env, st, m, verdict);
      Admit(env, Deaf(st), m, verdict) == (Deaf(r.0), r.1) && r.0.input == st.input
  {
    match verdict
    case Failure(e) => RefuseDeaf(env, st, e);
    case Success(r) =>
      hide WriteAll, Refuse, Write, TxStep;
      var a := env.greeting(m);
      WriteAllDeaf(env, st, [r] + a.responses);
      var (st1, w) := WriteAll(env, st, [r] + a.responses);
      WriteDeaf(env, st1, ReadyForQuery(Status(st1)));
      RefuseDeaf(env, st1, WriteFailed);
      RefuseDeaf(env, Write(env, st1, ReadyForQuery(Status(st1))).0, WriteFailed);
      if a.failure.Some? {
        RefuseDeaf(env, st1, External(a.failure.value));
      }
  }

  // The greeting.

  /** The part of `Welcome` behind the SSLRequest. */
  function Entered(env: Env, st: State, o: Opening): (State, Phase) {
    Welcome(env, st, o.(ssl := false))
  }

  lemma AuthenticateAlike(env: Env, st: State, o: Opening, s: Bytes) returns (r: (State, Result<Response>))
    requires st.input.Drained() && st.input.rest == PasswordPart(o) + s
    requires NamesUser(o.startup) ==> S.PasswordFits(o.password)
    ensures r == Authenticate(env, st, o.startup)
    ensures Entered(env, Deaf(st), o) == Admit(env, Deaf(r.0), o.startup, r.1)
    ensures Admit(env, Deaf(r.0), o.startup, r.1).1.Running? ==> r.0.input == At(st.input, s)
  {
    hide S.PasswordRequest, WriteAll, Write, TxStep;
    r := Authenticate(env, st, o.startup);
    PasswordPartIs(o);
    hide NamesUser, PasswordPart, S.PasswordBytes;
    if S.USER in o.startup.params {
      WriteDeaf(env, st, CLEARTEXT_PASSWORD);
      S.PasswordRoundTrip(st.input, o.password, s);
    } else {
      assert PasswordPart(o) + s == s;
    }
  }

  lemma GreetAlike(env: Env, st: State, o: Opening, ps: S.Listing, s: Bytes)
    requires |st.input.peek| <= 4 && !st.input.misused && Opens(o, ps)
    requires st.input.Stream() == S.Encode(o.startup.major, o.startup.minor, ps) + (PasswordPart(o) + s)
    ensures var (st1, phase) := Greet(env, st);
      && Entered(env, Deaf(st), o) == (Deaf(st1), phase)
      && (phase.Running? ==> st1.input == At(st.input, s))
  {
    hide S.StartupRequest, S.WellFormed, S.Lists, S.Encode, Authenticate, Admit, Entered, PasswordPart, TxStep;
    S.StartupRoundTrip(st.input, o.startup.major, o.startup.minor, ps, o.startup.params, PasswordPart(o) + s);
    var st0 := st.(input := At(st.input, PasswordPart(o) + s));
    DeafTwice(st, st0.input);
    var r := AuthenticateAlike(env, st0, o, s);
    AdmitDeaf(env, r.0, o.startup, r.1);
  }

  lemma StartupIsNoSsl(o: Opening, ps: S.Listing, s: Bytes)
    requires Opens(o, ps)
    ensures var b := S.Encode(o.startup.major, o.startup.minor, ps) + s;
      |b| >= 4 && Int32Of(b[..4]) != S.SSL_REQUEST_LENGTH
  {
    hide Int32Of, Int32Bytes;
    var n := |S.PairsBytes(ps)| + 8;
    Int32RoundTrip(n);
    assert (S.Encode(o.startup.major, o.startup.minor, ps) + s)[..4] == Int32Bytes(n);
  }

  lemma SslIsSsl(s: Bytes)
    ensures var b := SslBytes(true) + s; |b| >= 4 && Int32Of(b[..4]) == S.SSL_REQUEST_LENGTH
    ensures SslBytes(true) + s == Int32Bytes(S.SSL_REQUEST_LENGTH) + (Int32Bytes(S.SSL_REQUEST_CODE) + s)
  {
    assert Int32Bytes(S.SSL_REQUEST_LENGTH) == [0, 0, 0, 8] && Int32Bytes(S.SSL_REQUEST_CODE) == [4, 210, 22, 47];
    assert (SslBytes(true) + s)[..4] == [0, 0, 0, 8];
  }

  lemma PeekedLength(i: Input)
    requires i.Drained() && |i.rest| >= 4
    ensures Peek(i, 4).Ok? && Peek(i, 4).value == i.rest[..4]
    ensures var j := Peek(i, 4).next; |j.peek| <= 4 && !j.misused && j.Stream() == i.rest && j.cuts == i.cuts
    ensures forall s :: At(Peek(i, 4).next, s) == At(i, s)
  {
    PeekKeepsStream(i, 4);
  }

  lemma WelcomeSteps(env: Env, st: State, o: Opening)
    ensures Welcome(env, st, o) ==
            if !o.ssl then Entered(env, st, o)
            else var (st1, w) := Write(env, st, SSL_DISABLED); if w.Some? then (st1, Closed) else Entered(env, st1, o)
  {
    hide Write, Admit, JudgePassword;
    assert !o.ssl ==> o.(ssl := false) == o;
  }

  lemma HelloPlain(env: Env, st: State, o: Opening, ps: S.Listing, s: Bytes)
    requires st.input.Drained() && Opens(o, ps) && !o.ssl
    requires st.input.rest == S.Encode(o.startup.major, o.startup.minor, ps) + (PasswordPart(o) + s)
    ensures var (st1, phase) := Hello(env, st);
      && Welcome(env, Deaf(st), o) == (Deaf(st1), phase)
      && (phase.Running? ==> st1.input == At(st.input, s))
  {
    hide S.Encode, Opens, PasswordPart, Greet, Peek, Int32Of, Welcome, Entered, TxStep;
    StartupIsNoSsl(o, ps, PasswordPart(o) + s);
    PeekedLength(st.input);
    var st0 := st.(input := Peek(st.input, 4).next);
    DeafTwice(st, st0.input);
    GreetAlike(env, st0, o, ps, s);
    WelcomeSteps(env, Deaf(st), o);
  }

  lemma HelloSsl(env: Env, st: State, o: Opening, ps: S.Listing, s: Bytes)
    requires st.input.Drained() && Opens(o, ps) && o.ssl
    requires st.input.rest == SslBytes(true) + (S.Encode(o.startup.major, o.startup.minor, ps) + (PasswordPart(o) + s))
    ensures var (st1, phase) := Hello(env, st);
      && Welcome(env, Deaf(st), o) == (Deaf(st1), phase)
      && (phase.Running? ==> st1.input == At(st.input, s))
  {
    hide S.Encode, Opens, PasswordPart, Greet, Peek, S.SslRequest, Int32Of, Int32Bytes, SslBytes, Welcome, Entered,
         Write, TxStep;
    var u := S.Encode(o.startup.major, o.startup.minor, ps) + (PasswordPart(o) + s);
    SslIsSsl(u);
    PeekedLength(st.input);
    S.SslRoundTrip(Peek(st.input, 4).next, u);
    var st0 := st.(input := At(st.input, u));
    DeafTwice(st, st0.input);
    WriteDeaf(env, st0, SSL_DISABLED);
    var st1 := Write(env, st0, SSL_DISABLED).0;
    assert [] + u == u;
    GreetAlike(env, st1, o, ps, s);
    WelcomeSteps(env, Deaf(st), o);
  }

  /** The greeting on the bytes of an opening is the greeting of the message-level server; behind it the reader stands
      in front of what follows. */
  lemma HelloAlike(env: Env, st: State, o: Opening, ps: S.Listing, s: Bytes)
    requires st.input.Drained() && st.input.rest == OpeningBytes(o, ps) + s && Opens(o, ps)
    ensures var (st1, phase) := Hello(env, st);
      && Welcome(env, Deaf(st), o) == (Deaf(st1), phase)
      && (phase.Running? ==> st1.input == At(st.input, s))
  {
    hide S.Encode, Opens, PasswordPart, Hello, Welcome, TxStep;
    var e := S.Encode(o.startup.major, o.startup.minor, ps);
    assert SslBytes(o.ssl) + (e + PasswordPart(o)) + s == SslBytes(o.ssl) + (e + (PasswordPart(o) + s));
    if o.ssl {
      HelloSsl(env, st, o, ps, s);
    } else {
      assert [] + (e + (PasswordPart(o) + s)) == e + (PasswordPart(o) + s);
      HelloPlain(env, st, o, ps, s);
    }
  }

  // The whole connection.

  lemma {:induction false} EndsInLastTurn(env: Env, st: State, tick: nat)
    ensures var (fin, phase, turns) := Loop(env, st, tick);
      turns != [] && fin == turns[|turns| - 1].state && phase == turns[|turns| - 1].phase
    decreases |st.input.Stream()|
  {
    hide Iterate;
    LoopFirst(env, st, tick);
    var t := Iterate(env, st, tick);
    if t.phase.Running? {
      EndsInLastTurn(env, t.state, tick + 1);
    }
  }

  lemma {:induction false} LastAlike(turns: seq<Turn>, xs: seq<Exchange>, tail: Bytes)
    requires SameTurns(turns, xs, tail) && turns != []
    ensures |xs| == |turns| && SameTurn(turns[|turns| - 1], xs[|turns| - 1], tail)
    decreases |turns|
  {
    hide SameTurn;
    if |turns| > 1 {
      LastAlike(turns[1..], xs[1..], tail);
    }
  }

  /** From the first byte of a connection to its end, for every opening, every list of sound messages behind it, every
      environment, and every split of the bytes that keeps Bind values whole: the server greets, and then converses,
      as the message-level server does, turn by turn, and stops in the same state and in front of the same
      messages. */
  lemma ConnectionRefines(env: Env, st: State, o: Opening, ps: S.Listing, ms: seq<F.Message>, tail: Bytes)
    requires st.input.Drained() && st.input.rest == OpeningBytes(o, ps) + (F.EncodeAll(ms) + tail) && Opens(o, ps)
    requires Whole(ms, tail) && F.AllUnsplit(ms, |tail|, st.input.cuts)
    ensures var (st1, phase) := Welcome(env, Deaf(st), o);
      var (fin, end) := Receive(env, st);
      if !phase.Running? then (Deaf(fin), end) == (st1, phase)
      else
        var xs := Converse(env, st1, ms, 0);
        && SameTurns(Loop(env, Hello(env, st).0, 0).2, xs, tail)
        && (Deaf(fin), end) == (xs[|xs| - 1].turn.state, xs[|xs| - 1].turn.phase)
        && fin.input.Stream() == F.EncodeAll(xs[|xs| - 1].left) + tail
  {
    hide Hello, Welcome, Converse, Loop, F.EncodeAll, Whole, F.AllUnsplit, OpeningBytes, Opens, SameTurns;
    HelloAlike(env, st, o, ps, F.EncodeAll(ms) + tail);
    var (st1, phase) := Hello(env, st);
    if phase.Running? {
      assert [] + (F.EncodeAll(ms) + tail) == F.EncodeAll(ms) + tail;
      ConversationRefines(env, st1, ms, tail, 0);
      EndsInLastTurn(env, st1, 0);
      LastAlike(Loop(env, st1, 0).2, Converse(env, Deaf(st1), ms, 0), tail);
    }
  }
}
