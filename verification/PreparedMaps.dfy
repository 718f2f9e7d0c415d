/** The two-level Go maps of postgresql/stmt, whose inner maps are shared objects changed in place, proved against the
    flat maps. */
module PreparedMaps {
  import opened BigEndian
  import opened Errors
  import opened Session
  import opened PreparedTable

  /** One connection's statements (`PreparedStatementMap`). */
  class StatementMap {
    var entries: map<GoString, PreparedStatement>

    constructor ()
      ensures entries == map[]
    {
      entries := map[];
    }

    method Get(name: GoString) returns (r: Result<PreparedStatement>)
      ensures r == if name in entries then Success(entries[name]) else Failure(StatementNotExist(name))
    {
      if name !in entries {
        return Failure(StatementNotExist(name));
      }
      return Success(entries[name]);
    }

    method Set(env: Env, name: GoString, query: GoString, types: seq<int>) returns (err: Option<Error>)
      modifies this
      ensures err == ParseError(env, query)
      ensures entries == if err.Some? then old(entries)
                         else old(entries)[name := PreparedStatement(name, query, types, env.parse(query).stmts[0])]
    {
      var parsed := env.parse(query);
      match parsed {
        case Empty =>
          return Some(EmptyQuery);
        case Rejected(code) =>
          return Some(External(code));
        case Statements(stmts) =>
          if 1 < |stmts| {
            return Some(MultipleStatements);
          }
          if stmts == [] {
            return Some(Crash(EmptyStatementList));
          }
          entries := entries[name := PreparedStatement(name, query, types, stmts[0])];
          return None;
      }
    }

    method Remove(name: GoString) returns (err: Option<Error>)
      modifies this
      ensures entries == old(entries) - {name}
      ensures err == if name in old(entries) then None else Some(StatementNotExist(name))
    {
      if name !in entries {
        return Some(StatementNotExist(name));
      }
      entries := entries - {name};
      return None;
    }
  }

  /** One connection's portals (`PreparedPortalMap`), stored by value. */
  class PortalMap {
    var entries: map<GoString, Portal>

    constructor ()
      ensures entries == map[]
    {
      entries := map[];
    }

    method Get(name: GoString) returns (r: Result<Portal>)
      ensures r == if name in entries then Success(entries[name]) else Failure(PortalNotExist(name))
    {
      if name !in entries {
        return Failure(PortalNotExist(name));
      }
      return Success(entries[name]);
    }

    method Set(name: GoString, query: Portal)
      modifies this
      ensures entries == old(entries)[name := query]
    {
      entries := entries[name := query];
    }

    method Remove(name: GoString) returns (err: Option<Error>)
      modifies this
      ensures entries == old(entries) - {name}
      ensures err == if name in old(entries) then None else Some(PortalNotExist(name))
    {
      if name !in entries {
        return Some(PortalNotExist(name));
      }
      entries := entries - {name};
      return None;
    }
  }

  /** `PreparedManager`: an inner map per connection, made on first use. Every method changes what its own connection
      sees and nothing else; against any flat table that agrees beforehand, it does what the flat operation does. */
  class PreparedManager {
    var stateMap: map<ConnId, StatementMap>
    var potalMap: map<ConnId, PortalMap>

    /** No two connections share an inner map. */
    ghost predicate Valid()
      reads this
    {
      && (forall c, d :: c in stateMap && d in stateMap && c != d ==> stateMap[c] != stateMap[d])
      && (forall c, d :: c in potalMap && d in potalMap && c != d ==> potalMap[c] != potalMap[d])
    }

    ghost function Objects(): set<object>
      reads this
    {
      {this} + stateMap.Values + potalMap.Values
    }

    /** What one connection sees. */
    ghost function Statements(c: ConnId): map<GoString, PreparedStatement>
      reads this, stateMap.Values
    {
      if c in stateMap then stateMap[c].entries else map[]
    }

    ghost function Portals(c: ConnId): map<GoString, Portal>
      reads this, potalMap.Values
    {
      if c in potalMap then potalMap[c].entries else map[]
    }

    ghost predicate Shows(f: Flat)
      reads Objects()
    {
      forall c: ConnId :: Agree(f.stmts, Statements(c), c) && Agree(f.portals, Portals(c), c)
    }

    constructor ()
      ensures Valid() && Shows(NOTHING) && fresh(Objects())
    {
      stateMap, potalMap := map[], map[];
    }

    method GetStatement(conn: ConnId, name: GoString) returns (r: Result<PreparedStatement>)
      ensures r == if name in Statements(conn) then Success(Statements(conn)[name])
              else Failure(StatementNotExist(name))
    {
      if conn !in stateMap {
        return Failure(StatementNotExist(name));
      }
      r := stateMap[conn].Get(name);
    }

    method SetStatement(env: Env, conn: ConnId, name: GoString, query: GoString, types: seq<int>, ghost f: Flat)
      returns (err: Option<Error>)
      requires Valid()
      modifies Objects()
      ensures Valid() && fresh(Objects() - old(Objects()))
      ensures err == ParseError(env, query)
      ensures Statements(conn) == if err.Some? then old(Statements(conn)) else
                old(Statements(conn))[name := PreparedStatement(name, query, types, env.parse(query).stmts[0])]
      ensures forall c :: c != conn ==> Statements(c) == old(Statements(c))
      ensures forall c :: Portals(c) == old(Portals(c))
      ensures old(Shows(f)) ==> Shows(Apply(env, f, DoParse(conn, name, query, types)))
    {
      hide Agree, ParseError;
      if conn !in stateMap {
        var made := new StatementMap();
        stateMap := stateMap[conn := made];
      }
      err := stateMap[conn].Set(env, name, query, types);
      assert forall c :: c in stateMap && c != conn ==> stateMap[c] != stateMap[conn];
      if old(Shows(f)) && err.None? {
        forall c
          ensures Agree(Apply(env, f, DoParse(conn, name, query, types)).stmts, Statements(c), c)
        {
          SetAgrees(f.stmts, old(Statements(c)), conn, c, name,
              PreparedStatement(name, query, types, env.parse(query).stmts[0]));
        }
      }
    }

    method RemoveStatement(conn: ConnId, name: GoString, ghost f: Flat) returns (err: Option<Error>)
      requires Valid()
      modifies Objects()
      ensures Valid() && Objects() == old(Objects())
      ensures err == if name in old(Statements(conn)) then None else Some(StatementNotExist(name))
      ensures Statements(conn) == old(Statements(conn)) - {name}
      ensures forall c :: c != conn ==> Statements(c) == old(Statements(c))
      ensures forall c :: Portals(c) == old(Portals(c))
      ensures old(Shows(f)) ==> Shows(f.(stmts := f.stmts - {(conn, name)}))
    {
      if conn !in stateMap {
        err := Some(StatementNotExist(name));
      } else {
        err := stateMap[conn].Remove(name);
        assert forall c :: c in stateMap && c != conn ==> stateMap[c] != stateMap[conn];
      }
      if old(Shows(f)) {
        forall c
          ensures Agree(f.stmts - {(conn, name)}, Statements(c), c)
        {
          RemoveAgrees(f.stmts, old(Statements(c)), conn, c, name);
        }
      }
    }

    method GetPortal(conn: ConnId, name: GoString) returns (r: Result<Portal>)
      ensures r == if name in Portals(conn) then Success(Portals(conn)[name]) else Failure(PortalNotExist(name))
    {
      if conn !in potalMap {
        return Failure(PortalNotExist(name));
      }
      r := potalMap[conn].Get(name);
    }

    method SetPortal(conn: ConnId, name: GoString, query: Portal, ghost f: Flat)
      requires Valid()
      modifies Objects()
      ensures Valid() && fresh(Objects() - old(Objects()))
      ensures Portals(conn) == old(Portals(conn))[name := query]
      ensures forall c :: c != conn ==> Portals(c) == old(Portals(c))
      ensures forall c :: Statements(c) == old(Statements(c))
      ensures old(Shows(f)) ==> Shows(f.(portals := f.portals[(conn, name) := query]))
    {
      hide Agree;
      if conn !in potalMap {
        var made := new PortalMap();
        potalMap := potalMap[conn := made];
      }
      potalMap[conn].Set(name, query);
      assert forall c :: c in potalMap && c != conn ==> potalMap[c] != potalMap[conn];
      if old(Shows(f)) {
        forall c
          ensures Agree(f.portals[(conn, name) := query], Portals(c), c)
        {
          SetAgrees(f.portals, old(Portals(c)), conn, c, name, query);
        }
      }
    }

    method RemovePortal(conn: ConnId, name: GoString, ghost f: Flat) returns (err: Option<Error>)
      requires Valid()
      modifies Objects()
      ensures Valid() && Objects() == old(Objects())
      ensures err == if name in old(Portals(conn)) then None else Some(PortalNotExist(name))
      ensures Portals(conn) == old(Portals(conn)) - {name}
      ensures forall c :: c != conn ==> Portals(c) == old(Portals(c))
      ensures forall c :: Statements(c) == old(Statements(c))
      ensures old(Shows(f)) ==> Shows(f.(portals := f.portals - {(conn, name)}))
    {
      if conn !in potalMap {
        err := Some(PortalNotExist(name));
      } else {
        err := potalMap[conn].Remove(name);
        assert forall c :: c in potalMap && c != conn ==> potalMap[c] != potalMap[conn];
      }
      if old(Shows(f)) {
        forall c
          ensures Agree(f.portals - {(conn, name)}, Portals(c), c)
        {
          RemoveAgrees(f.portals, old(Portals(c)), conn, c, name);
        }
      }
    }
  }
}
