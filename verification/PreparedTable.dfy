/** Prepared statements and portals of all connections as two flat maps keyed by connection and name, and what every
    history of requests does to them. */
module PreparedTable {
  import opened BigEndian
  import opened Requests
  import opened Session
  import Frontend

  type ConnId = int
  type Key = (ConnId, GoString)

  datatype Flat = Flat(stmts: map<Key, PreparedStatement>, portals: map<Key, Portal>)

  const NOTHING := Flat(map[], map[])

  datatype Op =
    | DoParse(conn: ConnId, name: GoString, query: GoString, types: seq<int>)
    | DoBind(conn: ConnId, portal: GoString, statement: GoString, params: seq<BindParam>)
    | DoClose(conn: ConnId, kind: Frontend.Prepared, name: GoString)
    | DoExecute(conn: ConnId, portal: GoString)

  /** A Parse that is accepted: its text holds exactly one statement. */
  predicate Accepts(env: Env, query: GoString) {
    env.parse(query).Statements? && |env.parse(query).stmts| == 1
  }

  function Apply(env: Env, f: Flat, op: Op): Flat {
    match op
    case DoParse(c, name, query, types) =>
      if Accepts(env, query)
      then f.(stmts := f.stmts[(c, name) := PreparedStatement(name, query, types, env.parse(query).stmts[0])])
      else f
    case DoBind(c, portal, statement, params) =>
      if (c, statement) in f.stmts
      then f.(portals := f.portals[(c, portal) := Portal(f.stmts[(c, statement)].query, params)])
      else f
    case DoClose(c, kind, name) =>
      if kind.Statement? then f.(stmts := f.stmts - {(c, name)}) else f.(portals := f.portals - {(c, name)})
    case DoExecute(_, _) => f
  }

  function After(env: Env, h: seq<Op>): Flat
    decreases |h|
  {
    if h == [] then NOTHING else Apply(env, After(env, h[..|h| - 1]), h[|h| - 1])
  }

  // Histories.

  /** The request changes what the statement's name stands for. */
  predicate TouchesStatement(env: Env, op: Op, c: ConnId, s: GoString) {
    || (op.DoParse? && op.conn == c && op.name == s && Accepts(env, op.query))
    || (op.DoClose? && op.kind.Statement? && op.conn == c && op.name == s)
  }

  /** Request j of the history is the Parse that defines statement s of connection c at time b. */
  predicate Defines(env: Env, h: seq<Op>, j: nat, b: nat, c: ConnId, s: GoString) {
    && j < b <= |h|
    && h[j].DoParse? && h[j].conn == c && h[j].name == s && Accepts(env, h[j].query)
    && forall k :: j < k < b ==> !TouchesStatement(env, h[k], c, s)
  }

  /** Request b is a Bind of portal p that finds its statement. */
  ghost predicate Creates(env: Env, h: seq<Op>, b: nat, c: ConnId, p: GoString) {
    && b < |h| && h[b].DoBind? && h[b].conn == c && h[b].portal == p
    && exists j :: 0 <= j < b && Defines(env, h, j, b, c, h[b].statement)
  }

  predicate ClosesPortal(op: Op, c: ConnId, p: GoString) {
    op.DoClose? && op.kind.Portal? && op.conn == c && op.name == p
  }

  /** Request b is the Bind whose portal p an Execute at the end of the history runs. */
  ghost predicate Binds(env: Env, h: seq<Op>, b: nat, c: ConnId, p: GoString) {
    Creates(env, h, b, c, p) && forall k :: b < k < |h| ==> !Creates(env, h, k, c, p) && !ClosesPortal(h[k], c, p)
  }

  lemma DefinesInPrefix(env: Env, h: seq<Op>, j: nat, b: nat, c: ConnId, s: GoString)
    requires b < |h|
    ensures Defines(env, h, j, b, c, s) <==> Defines(env, h[..|h| - 1], j, b, c, s)
  {
    assert forall k :: 0 <= k < b ==> h[..|h| - 1][k] == h[k];
  }

  /** A statement name stands for the text of the Parse that defines it, and for nothing if none does. */
  lemma {:induction false} StatementIsLastParse(env: Env, h: seq<Op>, c: ConnId, s: GoString)
    ensures (c, s) in After(env, h).stmts <==> exists j :: 0 <= j < |h| && Defines(env, h, j, |h|, c, s)
    ensures forall j :: 0 <= j < |h| && Defines(env, h, j, |h|, c, s) ==>
              var op := h[j];
              (c, s) in After(env, h).stmts && After(env, h).stmts[(c, s)]
                  == PreparedStatement(s, op.query, op.types, env.parse(op.query).stmts[0])
    decreases |h|
  {
    if h != [] {
      var n := |h| - 1;
      var g := h[..n];
      StatementIsLastParse(env, g, c, s);
      if TouchesStatement(env, h[n], c, s) {
        assert h[n].DoParse? ==> Defines(env, h, n, |h|, c, s);
        assert forall j :: 0 <= j < n ==> !Defines(env, h, j, |h|, c, s);
      } else {
        forall j | 0 <= j < n
          ensures Defines(env, g, j, n, c, s) <==> Defines(env, h, j, |h|, c, s)
        {
          DefinesInPrefix(env, h, j, n, c, s);
        }
        assert !Defines(env, h, n, |h|, c, s);
      }
    }
  }

  lemma CreatesInPrefix(env: Env, h: seq<Op>, b: nat, c: ConnId, p: GoString)
    requires b < |h| - 1
    ensures Creates(env, h, b, c, p) <==> Creates(env, h[..|h| - 1], b, c, p)
  {
    var g := h[..|h| - 1];
    if h[b].DoBind? {
      forall j: nat
        ensures Defines(env, h, j, b, c, h[b].statement) <==> Defines(env, g, j, b, c, h[b].statement)
      {
        DefinesInPrefix(env, h, j, b, c, h[b].statement);
      }
    }
  }

  /** The newest request creates the portal exactly when it is a Bind whose statement exists. */
  lemma CreatesNow(env: Env, h: seq<Op>, c: ConnId, p: GoString)
    requires h != []
    ensures var op, before := h[|h| - 1], After(env, h[..|h| - 1]);
      Creates(env, h, |h| - 1, c, p) <==>
      op.DoBind? && op.conn == c && op.portal == p && (c, op.statement) in before.stmts
  {
    var n := |h| - 1;
    if h[n].DoBind? {
      StatementIsLastParse(env, h[..n], c, h[n].statement);
      forall j: nat
        ensures Defines(env, h, j, n, c, h[n].statement) <==> Defines(env, h[..n], j, n, c, h[n].statement)
      {
        DefinesInPrefix(env, h, j, n, c, h[n].statement);
      }
    }
  }

  lemma BindsInPrefix(env: Env, h: seq<Op>, c: ConnId, p: GoString)
    requires h != [] && !Creates(env, h, |h| - 1, c, p) && !ClosesPortal(h[|h| - 1], c, p)
    ensures forall b :: 0 <= b < |h| ==> (Binds(env, h, b, c, p) <==> Binds(env, h[..|h| - 1], b, c, p))
  {
    var n := |h| - 1;
    var g := h[..n];
    forall k | 0 <= k < n
      ensures Creates(env, h, k, c, p) <==> Creates(env, g, k, c, p)
      ensures g[k] == h[k]
    {
      CreatesInPrefix(env, h, k, c, p);
    }
  }

  /** The portal p is there exactly when some Bind made it last, and then holds the text of the Parse that defined the
      statement at that Bind, with that Bind's parameters. */
  ghost predicate Snapshot(env: Env, h: seq<Op>, c: ConnId, p: GoString) {
    && ((c, p) in After(env, h).portals <==> exists b :: 0 <= b < |h| && Binds(env, h, b, c, p))
    && forall b, j ::
         0 <= b < |h| && Binds(env, h, b, c, p) && 0 <= j < b && Defines(env, h, j, b, c, h[b].statement) ==>
         (c, p) in After(env, h).portals && After(env, h).portals[(c, p)] == Portal(h[j].query, h[b].params)
  }

  lemma SnapshotCreated(env: Env, h: seq<Op>, c: ConnId, p: GoString)
    requires h != [] && Creates(env, h, |h| - 1, c, p)
    ensures Snapshot(env, h, c, p)
  {
    var n := |h| - 1;
    var g := h[..n];
    CreatesNow(env, h, c, p);
    assert Binds(env, h, n, c, p);
    StatementIsLastParse(env, g, c, h[n].statement);
    forall j | 0 <= j < n
      ensures Defines(env, h, j, n, c, h[n].statement) <==> Defines(env, g, j, n, c, h[n].statement)
    {
      DefinesInPrefix(env, h, j, n, c, h[n].statement);
    }
    assert forall b :: 0 <= b < n ==> !Binds(env, h, b, c, p);
  }

  lemma SnapshotKept(env: Env, h: seq<Op>, c: ConnId, p: GoString)
    requires h != [] && !Creates(env, h, |h| - 1, c, p) && !ClosesPortal(h[|h| - 1], c, p)
    requires Snapshot(env, h[..|h| - 1], c, p)
    ensures Snapshot(env, h, c, p)
  {
    var n := |h| - 1;
    var g := h[..n];
    CreatesNow(env, h, c, p);
    BindsInPrefix(env, h, c, p);
    assert !Binds(env, h, n, c, p);
    hide Defines, Creates;
    assert forall b :: 0 <= b < n ==> (Binds(env, h, b, c, p) <==> Binds(env, g, b, c, p));
    assert (c, p) in After(env, h).portals <==> (c, p) in After(env, g).portals;
    forall b, j | 0 <= b < n && 0 <= j < b && h[b].DoBind?
      ensures Defines(env, h, j, b, c, h[b].statement) <==> Defines(env, g, j, b, c, g[b].statement)
    {
      DefinesInPrefix(env, h, j, b, c, h[b].statement);
    }
  }

  /** What an Execute at the end of any history runs: the text of the Parse that defined the statement when the last
      successful Bind of the portal was made, with that Bind's parameters. Nothing done to the statement since then
      matters, and without such a Bind, or after the portal was closed, there is nothing to run. */
  lemma {:induction false} PortalIsSnapshot(env: Env, h: seq<Op>, c: ConnId, p: GoString)
    ensures Snapshot(env, h, c, p)
    decreases |h|
  {
    if h != [] {
      var n := |h| - 1;
      if Creates(env, h, n, c, p) {
        SnapshotCreated(env, h, c, p);
      } else if ClosesPortal(h[n], c, p) {
        assert forall b :: 0 <= b < n ==> !Binds(env, h, b, c, p);
        assert !Binds(env, h, n, c, p);
      } else {
        PortalIsSnapshot(env, h[..n], c, p);
        hide Snapshot;
        SnapshotKept(env, h, c, p);
      }
    }
  }

  /** A connection's own requests. */
  function Own(h: seq<Op>, c: ConnId): seq<Op>
    decreases |h|
  {
    if h == [] then []
    else Own(h[..|h| - 1], c) + if h[|h| - 1].conn == c then [h[|h| - 1]] else []
  }

  /** Connection c finds the same under a name in both tables. */
  predicate Alike(f: Flat, g: Flat, c: ConnId, name: GoString) {
    && ((c, name) in f.stmts <==> (c, name) in g.stmts)
    && ((c, name) in f.stmts ==> f.stmts[(c, name)] == g.stmts[(c, name)])
    && ((c, name) in f.portals <==> (c, name) in g.portals)
    && ((c, name) in f.portals ==> f.portals[(c, name)] == g.portals[(c, name)])
  }

  lemma OtherChangesNothing(env: Env, f: Flat, op: Op, c: ConnId, name: GoString)
    requires op.conn != c
    ensures Alike(Apply(env, f, op), f, c, name)
  {}

  lemma OwnChangesAlike(env: Env, f: Flat, g: Flat, op: Op, c: ConnId, name: GoString)
    requires op.conn == c && Alike(f, g, c, name) && (op.DoBind? ==> Alike(f, g, c, op.statement))
    ensures Alike(Apply(env, f, op), Apply(env, g, op), c, name)
  {
    hide Accepts;
  }

  lemma OwnStep(h: seq<Op>, c: ConnId)
    requires h != []
    ensures var op, own := h[|h| - 1], Own(h[..|h| - 1], c);
      Own(h, c) == if op.conn == c then own + [op] else own
  {
    assert Own(h[..|h| - 1], c) + [] == Own(h[..|h| - 1], c);
  }

  lemma AfterStep(env: Env, h: seq<Op>, op: Op)
    ensures After(env, h + [op]) == Apply(env, After(env, h), op)
  {
    assert (h + [op])[..|h|] == h;
  }

  /** Over every history, what a connection finds under its names depends on its own requests alone. */
  lemma {:induction false} ConnectionsAreIsolated(env: Env, h: seq<Op>, c: ConnId, name: GoString)
    ensures Alike(After(env, h), After(env, Own(h, c)), c, name)
    decreases |h|
  {
    if h != [] {
      hide *;
      var op, g := h[|h| - 1], h[..|h| - 1];
      assert h == g + [op];
      AfterStep(env, g, op);
      OwnStep(h, c);
      ConnectionsAreIsolated(env, g, c, name);
      if op.conn == c {
        AfterStep(env, Own(g, c), op);
        if op.DoBind? {
          ConnectionsAreIsolated(env, g, c, op.statement);
        }
        OwnChangesAlike(env, After(env, g), After(env, Own(g, c)), op, c, name);
      } else {
        OtherChangesNothing(env, After(env, g), op, c, name);
        AlikeChain(After(env, h), After(env, g), After(env, Own(g, c)), c, name);
      }
    }
  }

  lemma AlikeChain(e: Flat, f: Flat, g: Flat, c: ConnId, name: GoString)
    requires Alike(e, f, c, name) && Alike(f, g, c, name)
    ensures Alike(e, g, c, name)
  {}

  /** The request may make what this Close names. */
  predicate Makes(op: Op, c: ConnId, kind: Frontend.Prepared, name: GoString) {
    || (kind.Statement? && op.DoParse? && op.conn == c && op.name == name)
    || (kind.Portal? && op.DoBind? && op.conn == c && op.portal == name)
  }

  predicate Absent(f: Flat, c: ConnId, kind: Frontend.Prepared, name: GoString) {
    if kind.Statement? then (c, name) !in f.stmts else (c, name) !in f.portals
  }

  lemma {:induction false} StaysAbsent(
    env: Env, h: seq<Op>, later: seq<Op>, c: ConnId, kind: Frontend.Prepared, name: GoString)
    requires Absent(After(env, h), c, kind, name) && forall k :: 0 <= k < |later| ==> !Makes(later[k], c, kind, name)
    ensures Absent(After(env, h + later), c, kind, name)
    decreases |later|
  {
    if later == [] {
      assert h + later == h;
    } else {
      var n := |later| - 1;
      StaysAbsent(env, h, later[..n], c, kind, name);
      AfterStep(env, h + later[..n], later[n]);
      assert h + later == (h + later[..n]) + [later[n]];
    }
  }

  /** Closing twice is closing once, whatever all connections do in between, as long as it does not make again what was
      closed. */
  lemma CloseIdempotent(env: Env, h: seq<Op>, later: seq<Op>, c: ConnId, kind: Frontend.Prepared, name: GoString)
    requires forall k :: 0 <= k < |later| ==> !Makes(later[k], c, kind, name)
    ensures var close := DoClose(c, kind, name);
      After(env, h + [close] + later + [close]) == After(env, h + [close] + later)
  {
    var close := DoClose(c, kind, name);
    AfterStep(env, h, close);
    StaysAbsent(env, h + [close], later, c, kind, name);
    AfterStep(env, h + [close] + later, close);
    hide After;
    var f := After(env, h + [close] + later);
    assert kind.Statement? ==> f.stmts - {(c, name)} == f.stmts;
    assert kind.Portal? ==> f.portals - {(c, name)} == f.portals;
  }

  /** The flat map holds, under connection c, what c's own map holds. */
  ghost predicate Agree<V>(flat: map<Key, V>, own: map<GoString, V>, c: ConnId) {
    forall n :: ((c, n) in flat <==> n in own) && (n in own ==> flat[(c, n)] == own[n])
  }

  /** A Bind that finds its statement in the connection's own map. */
  lemma BindApplies(env: Env, f: Flat, own: map<GoString, PreparedStatement>, c: ConnId, portal: GoString,
      statement: GoString,
                    params: seq<BindParam>)
    requires Agree(f.stmts, own, c) && statement in own
    ensures Apply(env, f, DoBind(c, portal, statement, params)) ==
            f.(portals := f.portals[(c, portal) := Portal(own[statement].query, params)])
  {}

  lemma SetAgrees<V>(flat: map<Key, V>, own: map<GoString, V>, c: ConnId, d: ConnId, n: GoString, v: V)
    requires Agree(flat, own, d)
    ensures Agree(flat[(c, n) := v], if c == d then own[n := v] else own, d)
  {}

  lemma RemoveAgrees<V>(flat: map<Key, V>, own: map<GoString, V>, c: ConnId, d: ConnId, n: GoString)
    requires Agree(flat, own, d)
    ensures Agree(flat - {(c, n)}, if c == d then own - {n} else own, d)
  {}
}
