/**
 The server as seen by a client that thinks in messages: no bytes, no peeks, no segments. Every handler is given the
 messages still to come and says which of them it leaves. Requests other than those that run a COPY read no messages,
 and for them this is `Session` on a connection without input.
 */
module MessageServer {
  import opened BigEndian
  import opened CopyLaws
  import opened Errors
  import opened Inputs
  import opened Requests
  import opened Responses
  import opened Session
  import F = Frontend
  import StartupMessage

  const NO_INPUT := Input([], [], {}, false)

  /** What the server remembers, apart from its input. */
  function Deaf(st: State): State { st.(input := NO_INPUT) }

  predicate Suffix<T(==)>(left: seq<T>, ms: seq<T>) {
    |left| <= |ms| && left == ms[|ms| - |left|..]
  }

  /** A handler's reply, the messages it leaves, and whether it has already looked at the type of the first of them. */
  datatype Told = Told(reply: Reply, left: seq<F.Message>, seen: bool)

  /** The lines in front are offered, and the data ends at the first message that is no line. */
  function StreamTold(env: Env, st: State, s: Stmt, columns: seq<GoString>, ms: seq<F.Message>): (t: Told)
    ensures Suffix(t.left, ms)
  {
    var k, cs := |Lines(ms)|, Inserts(s, columns, Lines(ms));
    var n := Accepted(env, st.calls, cs);
    InsertsBound(s, columns, Lines(ms));
    Told(Reply(st.(calls := st.calls + cs), Verdict(n, k - n).0, Verdict(n, k - n).1), Unread(ms), Peeked(ms[k..]))
  }

  /** The lines are taken in only if a CopyData is next. */
  function EnterTold(env: Env, st: State, s: Stmt, ms: seq<F.Message>): (t: Told)
    requires s.Copy?
    ensures Suffix(t.left, ms)
  {
    if ms == [] then Told(Reply(st, [], Some(Eof)), ms, false)
    else if !IsCopyData(ms) then Told(Reply(st, [], None), ms, true)
    else
      match env.schema(st.calls, s)
      case Failure(_) => Told(Reply(st, [], Some(External(0))), ms, true)
      case Success(all) => StreamTold(env, st, s, if s.columns == [] then all else s.columns, ms)
  }

  /** One of the responses is an ErrorResponse. */
  predicate Complains(rs: seq<Response>) {
    exists k :: 0 <= k < |rs| && rs[k].Typed? && rs[k].typ == 'E' as int
  }

  /** COPY: the CopyIn response is written first. */
  function CopyTold(env: Env, st: State, s: Stmt, ms: seq<F.Message>, seen: bool): (t: Told)
    requires s.Copy?
    ensures Suffix(t.left, ms)
  {
    var (st1, a) := Perform(env, st, StartCopy(s));
    if a.failure.Some? || Complains(a.responses) then Told(Reply(st1, a.responses, Failed(a)), ms, seen)
    else
      var (st2, w) := WriteAll(env, st1, a.responses);
      if w.Some? then Told(Reply(st2, [], w), ms, seen) else EnterTold(env, st2, s, ms)
  }

  function StatementTold(env: Env, st: State, s: Stmt, ms: seq<F.Message>, seen: bool): (t: Told)
    ensures Suffix(t.left, ms)
  {
    if s.Copy? then CopyTold(env, st, s, ms, seen) else Told(StatementStep(env, st, s), ms, seen)
  }

  function StatementsTold(env: Env, st: State, ss: seq<Stmt>, ms: seq<F.Message>, seen: bool): (t: Told)
    ensures Suffix(t.left, ms)
    decreases |ss|
  {
    if ss == [] then Told(Reply(st, [], None), ms, seen)
    else
      var t := StatementTold(env, st, ss[0], ms, seen);
      var (st1, w) := WriteAll(env, t.reply.state, t.reply.responses);
      var err := if t.reply.responses == [] then t.reply.err else w;
      if err.Some? then Told(Reply(st1, [], err), t.left, t.seen)
      else StatementsTold(env, st1, ss[1..], t.left, t.seen)
  }

  function QueryTold(env: Env, st: State, q: Portal, ms: seq<F.Message>): (t: Told)
    ensures Suffix(t.left, ms)
  {
    match env.bound(q.text, q.params)
    case Statements(ss) => StatementsTold(env, st, ss, ms, false)
    case _ => Told(QueryStep(env, st, q), ms, false)
  }

  function HandleTold(env: Env, st: State, q: Request, ms: seq<F.Message>): (t: Told)
    ensures Suffix(t.left, ms)
  {
    match q
    case Query(text) => QueryTold(env, st, Portal(text, []), ms)
    case Execute(portal, _) =>
      if portal in st.portals then QueryTold(env, st, st.portals[portal], ms) else Told(Handle(env, st, q), ms, false)
    case _ => Told(Handle(env, st, q), ms, false)
  }

  /** A turn of the conversation and the messages left behind it. */
  datatype Exchange = Exchange(turn: Turn, left: seq<F.Message>)

  /** The responses, the error, and ReadyForQuery unless a next message is waiting. */
  function Conclude(env: Env, q: Request, t: Told, tick: nat): (x: Exchange)
    ensures x.left == t.left
  {
    var r := t.reply;
    if r.err.Some? && r.err.value.Crash? then
      Exchange(Turn(r.state, Crashed(r.err.value.fault), Success(q), r.err, None), t.left)
    else
      var (st1, w1) := Respond(env, r);
      if w1.Some? then Exchange(Turn(st1, Closed, Success(q), w1, None), t.left)
      else if t.left != [] && (t.seen || env.arrived(tick)) then
        Exchange(Turn(st1, Running, Success(q), r.err, None), t.left)
      else
        var (st2, w2) := Write(env, st1, ReadyForQuery(Status(st1)));
        if w2.Some? then Exchange(Turn(st2, Closed, Success(q), w2, None), t.left)
        else Exchange(Turn(st2, Running, Success(q), r.err, Some(Status(st1))), t.left)
  }

  /** The next message is heard as the request it means; when there is none, the connection is over. */
  function Hear(env: Env, st: State, ms: seq<F.Message>, tick: nat): (x: Exchange)
    ensures x.turn.phase.Running? ==> ms != [] && |x.left| < |ms|
  {
    if ms == [] then
      Exchange(Turn(Write(env, st, ErrorResponse(env.errorText(Eof))).0, Closed, Failure(Eof), Some(Eof), None), [])
    else if ms[0].Terminate? then Exchange(Turn(st, Closed, Success(Terminate), None, None), ms[1..])
    else
      var q := Meaning(ms[0]);
      Conclude(env, q, HandleTold(env, st, q, ms[1..]), tick)
  }

  /** The whole conversation. */
  function Converse(env: Env, st: State, ms: seq<F.Message>, tick: nat): (xs: seq<Exchange>)
    ensures xs != [] && !xs[|xs| - 1].turn.phase.Running?
    decreases |ms|
  {
    var x := Hear(env, st, ms, tick);
    if x.turn.phase.Running? then [x] + Converse(env, x.turn.state, x.left, tick + 1) else [x]
  }

  /** What a client sends before its first message: an SSLRequest or not, the startup message, and its password if the
      startup message names a user. */
  datatype Opening = Opening(ssl: bool, startup: StartupMessage.Startup, password: GoString)

  function Welcome(env: Env, st: State, o: Opening): (State, Phase) {
    var (st1, w1) := if o.ssl then Write(env, st, SSL_DISABLED) else (st, None);
    if w1.Some? then (st1, Closed)
    else if StartupMessage.USER !in o.startup.params then Admit(env, st1, o.startup, Success(EMPTY_ERROR))
    else
      var (st2, w2) := Write(env, st1, CLEARTEXT_PASSWORD);
      Admit(env, st2, o.startup, if w2.Some? then Failure(w2.value) else JudgePassword(env, o.startup, o.password))
  }
}
