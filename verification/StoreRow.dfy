/** Rows of the in-memory store: mutable maps from column name to value
    (examples/go-postgresqld/server/store/row.go). */
module StoreRow {
  import opened BigEndian
  import opened Values

  // Conditions (row.go).

  datatype Operator = EQ | NEQ | OtherOperator

  /** A WHERE clause; `same` is the comparison with the clause's literal. */
  datatype Condition =
    | NoCondition
    | Comparison(op: Operator, column: GoString, same: Value -> bool)
    | OtherExpression

  /** `Row.IsMatched`. */
  predicate Matched(c: Content, cond: Condition) {
    match cond
    case NoCondition => true
    case OtherExpression => true
    case Comparison(EQ, name, same) => name in c && same(c[name])
    case Comparison(NEQ, name, same) => !(name in c && same(c[name]))
    case Comparison(OtherOperator, _, _) => false
  }

  /** `Row.IsEqual`: the same number of columns, and every column deeply equal. */
  predicate SameRow(a: Content, b: Content) {
    |a| == |b| && forall k :: k in a ==> k in b && a[k] == b[k] && a[k] != NotANumber
  }

  /** What a row is compared by; a row holding a not-a-number equals nothing. */
  function RowKey(c: Content): Option<Content> {
    if forall k :: k in c ==> c[k] != NotANumber then Some(c) else None
  }

  lemma SubsetOfSameSize<T>(a: set<T>, b: set<T>)
    requires a <= b && |a| == |b|
    ensures a == b
  {
    if x :| x in b && x !in a {
      assert a <= b - {x};
      SizeOfSubset(a, b - {x});
    }
  }

  lemma {:induction false} SizeOfSubset<T>(a: set<T>, b: set<T>)
    requires a <= b
    ensures |a| <= |b|
    decreases |a|
  {
    if x :| x in a {
      SizeOfSubset(a - {x}, b - {x});
    }
  }

  /** Row equality is equality of keys: an equivalence on the rows without a not-a-number, and nothing else. */
  lemma SameRowIsKey(a: Content, b: Content)
    ensures SameRow(a, b) <==> RowKey(a).Some? && RowKey(b) == RowKey(a)
  {
    if SameRow(a, b) {
      SubsetOfSameSize(a.Keys, b.Keys);
      assert a == b;
    }
  }

  /** Two rows are equal exactly when they hold the same and no not-a-number. */
  lemma SameRowMeans(a: Content, b: Content)
    ensures SameRow(a, b) <==> a == b && forall k :: k in a ==> a[k] != NotANumber
  {
    if SameRow(a, b) {
      SubsetOfSameSize(a.Keys, b.Keys);
    }
  }

  /** What each kind of clause asks of a row. */
  lemma MatchedMeans(c: Content, cond: Condition)
    ensures cond.Comparison? && cond.op.EQ? ==> (Matched(c, cond) <==> cond.column in c && cond.same(c[cond.column]))
    ensures cond.Comparison? && cond.op.NEQ? ==>
            (Matched(c, cond) <==> !(cond.column in c && cond.same(c[cond.column])))
    ensures cond.Comparison? && cond.op.OtherOperator? ==> !Matched(c, cond)
    ensures !cond.Comparison? ==> Matched(c, cond)
  {}

  // Assignments (row.go).

  datatype Function = NoFunction | NoExecutor | Runs(run: Content -> Option<Value>)

  datatype Column = Column(name: GoString, literal: Option<Value>, call: Function)

  /** The first loop of `Row.Update`. */
  function Literals(c: Content, cols: seq<Column>): Content
    decreases |cols|
  {
    if cols == [] then c
    else Literals(if cols[0].literal.Some? then c[cols[0].name := cols[0].literal.value] else c, cols[1..])
  }

  /** What a column's function makes of the running row; None when it fails. */
  function Call(c: Content, col: Column): Option<Content> {
    if !col.call.Runs? then Some(c)
    else
      match col.call.run(c)
      case None => None
      case Some(v) => Some(c[col.name := v])
  }

  /** The second loop of `Row.Update`: it stops at the first function that fails, keeping what was written. */
  function Calls(c: Content, cols: seq<Column>): Content
    decreases |cols|
  {
    if cols == [] then c
    else
      match Call(c, cols[0])
      case None => c
      case Some(d) => Calls(d, cols[1..])
  }

  predicate CallsSucceed(c: Content, cols: seq<Column>)
    decreases |cols|
  {
    cols == [] || (Call(c, cols[0]).Some? && CallsSucceed(Call(c, cols[0]).value, cols[1..]))
  }

  function Updated(c: Content, cols: seq<Column>): Content {
    Calls(Literals(c, cols), cols)
  }

  /** A column no assignment names keeps its value, or stays absent. */
  lemma {:induction false} UpdateKeepsOthers(c: Content, cols: seq<Column>, name: GoString)
    requires forall i :: 0 <= i < |cols| ==> cols[i].name != name
    ensures name in Updated(c, cols) <==> name in c
    ensures name in c ==> Updated(c, cols)[name] == c[name]
  {
    LiteralsKeepOthers(c, cols, name);
    CallsKeepOthers(Literals(c, cols), cols, name);
  }

  lemma {:induction false} LiteralsKeepOthers(c: Content, cols: seq<Column>, name: GoString)
    requires forall i :: 0 <= i < |cols| ==> cols[i].name != name
    ensures name in Literals(c, cols) <==> name in c
    ensures name in c ==> Literals(c, cols)[name] == c[name]
    decreases |cols|
  {
    if cols != [] {
      var next := if cols[0].literal.Some? then c[cols[0].name := cols[0].literal.value] else c;
      LiteralsKeepOthers(next, cols[1..], name);
    }
  }

  lemma {:induction false} CallsKeepOthers(c: Content, cols: seq<Column>, name: GoString)
    requires forall i :: 0 <= i < |cols| ==> cols[i].name != name
    ensures name in Calls(c, cols) <==> name in c
    ensures name in c ==> Calls(c, cols)[name] == c[name]
    decreases |cols|
  {
    if cols != [] && Call(c, cols[0]).Some? {
      CallsKeepOthers(Call(c, cols[0]).value, cols[1..], name);
    }
  }

  /** A column set to a literal, and to nothing after it, holds that literal afterwards. */
  lemma {:induction false} UpdateSetsLiteral(c: Content, before: seq<Column>, col: Column, behind: seq<Column>)
    requires col.literal.Some?
    requires forall i :: 0 <= i < |behind| ==> behind[i].name != col.name
    requires col.call.NoFunction? && forall i :: 0 <= i < |before| ==>
             before[i].name != col.name || before[i].call.NoFunction?
    ensures var u := Updated(c, before + [col] + behind); col.name in u && u[col.name] == col.literal.value
  {
    var cols := before + [col] + behind;
    LiteralsPass(c, before, [col] + behind);
    assert before + ([col] + behind) == cols;
    var d := Literals(c, before);
    assert ([col] + behind)[1..] == behind;
    LiteralsKeepOthers(d[col.name := col.literal.value], behind, col.name);
    CallsKeepUncalled(Literals(c, cols), cols, col.name);
  }

  lemma {:induction false} LiteralsPass(c: Content, a: seq<Column>, b: seq<Column>)
    ensures Literals(c, a + b) == Literals(Literals(c, a), b)
    decreases |a|
  {
    if a == [] {
      assert a + b == b;
    } else {
      assert (a + b)[1..] == a[1..] + b;
      LiteralsPass(if a[0].literal.Some? then c[a[0].name := a[0].literal.value] else c, a[1..], b);
    }
  }

  lemma {:induction false} CallsKeepUncalled(c: Content, cols: seq<Column>, name: GoString)
    requires name in c
    requires forall i :: 0 <= i < |cols| ==> cols[i].name != name || cols[i].call.NoFunction?
    ensures name in Calls(c, cols) && Calls(c, cols)[name] == c[name]
    decreases |cols|
  {
    if cols != [] && Call(c, cols[0]).Some? {
      CallsKeepUncalled(Call(c, cols[0]).value, cols[1..], name);
    }
  }

  function {:tailrecursion false} OnlyLiterals(cols: seq<Column>): seq<Column> {
    if cols == [] then [] else [cols[0].(call := NoFunction)] + OnlyLiterals(cols[1..])
  }

  function {:tailrecursion false} OnlyCalls(cols: seq<Column>): seq<Column> {
    if cols == [] then [] else [cols[0].(literal := None)] + OnlyCalls(cols[1..])
  }

  /** Wherever a literal stands in the list, every function sees it: the list means its literals, then its calls. */
  lemma {:induction false} LiteralsComeFirst(c: Content, cols: seq<Column>)
    ensures Updated(c, cols) == Updated(c, OnlyLiterals(cols) + OnlyCalls(cols))
  {
    var ls, fs := OnlyLiterals(cols), OnlyCalls(cols);
    LiteralsOfParts(c, cols);
    LiteralsPass(c, ls, fs);
    NoLiterals(Literals(c, ls), cols);
    SkipUncalled(Literals(c, cols), cols, fs);
    CallsOfParts(Literals(c, cols), cols);
  }

  lemma {:induction false} LiteralsOfParts(c: Content, cols: seq<Column>)
    ensures Literals(c, OnlyLiterals(cols)) == Literals(c, cols)
    decreases |cols|
  {
    if cols != [] {
      LiteralsOfParts(if cols[0].literal.Some? then c[cols[0].name := cols[0].literal.value] else c, cols[1..]);
      assert OnlyLiterals(cols)[1..] == OnlyLiterals(cols[1..]);
    }
  }

  lemma {:induction false} NoLiterals(c: Content, cols: seq<Column>)
    ensures Literals(c, OnlyCalls(cols)) == c
    decreases |cols|
  {
    if cols != [] {
      NoLiterals(c, cols[1..]);
      assert OnlyCalls(cols)[1..] == OnlyCalls(cols[1..]);
    }
  }

  lemma SkipOne(c: Content, col: Column, rest: seq<Column>)
    requires !col.call.Runs?
    ensures Calls(c, [col] + rest) == Calls(c, rest)
  {
    assert ([col] + rest)[1..] == rest;
  }

  lemma {:induction false} SkipUncalled(c: Content, cols: seq<Column>, more: seq<Column>)
    ensures Calls(c, OnlyLiterals(cols) + more) == Calls(c, more)
    decreases |cols|
  {
    hide Calls;
    if cols == [] {
      assert OnlyLiterals(cols) + more == more;
    } else {
      var first := cols[0].(call := NoFunction);
      SkipUncalled(c, cols[1..], more);
      SkipOne(c, first, OnlyLiterals(cols[1..]) + more);
      assert OnlyLiterals(cols) + more == [first] + (OnlyLiterals(cols[1..]) + more);
    }
  }

  lemma {:induction false} CallsOfParts(c: Content, cols: seq<Column>)
    ensures Calls(c, OnlyCalls(cols)) == Calls(c, cols)
    decreases |cols|
  {
    if cols != [] {
      assert OnlyCalls(cols)[1..] == OnlyCalls(cols[1..]);
      if Call(c, cols[0]).Some? {
        CallsOfParts(Call(c, cols[0]).value, cols[1..]);
      }
    }
  }

  /** Assignment i sets the column to a literal, and none behind it does. */
  predicate SetsLast(cols: seq<Column>, i: nat, name: GoString) {
    Sets(cols, i, name) && forall j :: i < j < |cols| ==> !Sets(cols, j, name)
  }

  predicate Sets(cols: seq<Column>, i: nat, name: GoString) {
    i < |cols| && cols[i].name == name && cols[i].literal.Some?
  }

  lemma {:induction false} LiteralsKeep(c: Content, cols: seq<Column>, name: GoString)
    requires forall i :: 0 <= i < |cols| ==> !Sets(cols, i, name)
    ensures name in Literals(c, cols) <==> name in c
    ensures name in c ==> Literals(c, cols)[name] == c[name]
    decreases |cols|
  {
    if cols != [] {
      var rest := cols[1..];
      assert !Sets(cols, 0, name);
      forall i | 0 <= i < |rest|
        ensures !Sets(rest, i, name)
      {
        assert !Sets(cols, i + 1, name);
      }
      LiteralsKeep(if cols[0].literal.Some? then c[cols[0].name := cols[0].literal.value] else c, rest, name);
    }
  }

  lemma LiteralSet(c: Content, cols: seq<Column>, i: nat, name: GoString)
    requires SetsLast(cols, i, name)
    ensures name in Literals(c, cols) && Literals(c, cols)[name] == cols[i].literal.value
  {
    var behind := cols[i + 1..];
    assert cols == cols[..i] + ([cols[i]] + behind) && ([cols[i]] + behind)[1..] == behind;
    LiteralsPass(c, cols[..i], [cols[i]] + behind);
    forall j | 0 <= j < |behind|
      ensures !Sets(behind, j, name)
    {
      assert !Sets(cols, i + 1 + j, name);
    }
    LiteralsKeep(Literals(c, cols[..i])[name := cols[i].literal.value], behind, name);
  }

  lemma {:induction false} SomeSetsLast(cols: seq<Column>, i: nat, name: GoString) returns (k: nat)
    requires Sets(cols, i, name)
    ensures SetsLast(cols, k, name)
    decreases |cols| - i
  {
    k := i;
    if j :| i < j < |cols| && Sets(cols, j, name) {
      k := SomeSetsLast(cols, j, name);
    }
  }

  /** What the first loop makes of a row: a column that is set to literals holds the last of them, and any other what it
      held. */
  lemma LiteralsHold(c: Content, cols: seq<Column>, name: GoString)
    ensures if exists i :: 0 <= i < |cols| && Sets(cols, i, name)
            then exists i :: 0 <= i < |cols| && SetsLast(cols, i, name)
                             && name in Literals(c, cols) && Literals(c, cols)[name] == cols[i].literal.value
            else (name in Literals(c, cols) <==> name in c) && (name in c ==> Literals(c, cols)[name] == c[name])
  {
    if i :| 0 <= i < |cols| && Sets(cols, i, name) {
      var k := SomeSetsLast(cols, i, name);
      LiteralSet(c, cols, k, name);
    } else {
      LiteralsKeep(c, cols, name);
    }
  }

  /** From one content to the next by the assignment's function, if it has one that runs. */
  predicate Assigns(col: Column, before: Content, after: Content) {
    match col.call
    case Runs(run) => run(before).Some? && after == before[col.name := run(before).value]
    case _ => after == before
  }

  /** UPDATE of a row, assignment by assignment: the literals first (`LiteralsHold`), then each function in turn on
      the row as the ones before it left it, its value going to its own column; the first that fails ends the update
      there. */
  lemma {:induction false} UpdateRuns(c: Content, cols: seq<Column>) returns (rows: seq<Content>)
    ensures 1 <= |rows| <= |cols| + 1 && rows[0] == Literals(c, cols) && rows[|rows| - 1] == Updated(c, cols)
    ensures forall i :: 0 <= i < |rows| - 1 ==> Assigns(cols[i], rows[i], rows[i + 1])
    ensures |rows| <= |cols| ==> cols[|rows| - 1].call.Runs? && cols[|rows| - 1].call.run(rows[|rows| - 1]).None?
    ensures |rows| == |cols| + 1 <==> CallsSucceed(Literals(c, cols), cols)
  {
    rows := CallsRun(Literals(c, cols), cols);
  }

  lemma {:induction false} CallsRun(c: Content, cols: seq<Column>) returns (rows: seq<Content>)
    ensures 1 <= |rows| <= |cols| + 1 && rows[0] == c && rows[|rows| - 1] == Calls(c, cols)
    ensures forall i :: 0 <= i < |rows| - 1 ==> Assigns(cols[i], rows[i], rows[i + 1])
    ensures |rows| <= |cols| ==> cols[|rows| - 1].call.Runs? && cols[|rows| - 1].call.run(rows[|rows| - 1]).None?
    ensures |rows| == |cols| + 1 <==> CallsSucceed(c, cols)
    decreases |cols|
  {
    if cols == [] || Call(c, cols[0]).None? {
      rows := [c];
    } else {
      var rest := CallsRun(Call(c, cols[0]).value, cols[1..]);
      rows := [c] + rest;
      forall i | 0 <= i < |rows| - 1
        ensures Assigns(cols[i], rows[i], rows[i + 1])
      {
        if i > 0 {
          assert Assigns(cols[1..][i - 1], rest[i - 1], rest[i]);
        }
      }
    }
  }

  // New rows (row.go).

  /** How a schema column's type casts a value; types the conversion does not list store no value at all. */
  datatype Cast = Unlisted | To(cast: Value -> Option<Value>)

  type Schema = map<GoString, Cast>

  /** The value INSERT stores for a column; None when the schema lacks it or the cast fails. */
  function Stored(schema: Schema, col: Column): Option<Value> {
    if col.name !in schema then None
    else
      match schema[col.name]
      case Unlisted => Some(NullValue)
      case To(cast) => cast(if col.literal.Some? then col.literal.value else NullValue)
  }

  /** `NewRowFromColumns`. */
  function NewContent(schema: Schema, cols: seq<Column>): Option<Content>
    decreases |cols|
  {
    if cols == [] then Some(map[])
    else
      var n := |cols| - 1;
      match (NewContent(schema, cols[..n]), Stored(schema, cols[n]))
      case (Some(c), Some(v)) => Some(c[cols[n].name := v])
      case _ => None
  }

  lemma NewContentStep(schema: Schema, cols: seq<Column>, i: nat)
    requires i < |cols|
    ensures NewContent(schema, cols[..i + 1]) ==
            match (NewContent(schema, cols[..i]), Stored(schema, cols[i]))
            case (Some(c), Some(v)) => Some(c[cols[i].name := v])
            case _ => None
  {
    assert cols[..i + 1][..i] == cols[..i];
  }

  /** A new row exists exactly when the schema has every column and its cast, where it has one, takes the column's
      literal, or NULL where there is none. */
  lemma NewContentIff(schema: Schema, cols: seq<Column>)
    ensures NewContent(schema, cols).Some? <==>
            forall i :: 0 <= i < |cols| ==>
              && cols[i].name in schema
              && (schema[cols[i].name].To? ==>
                    schema[cols[i].name].cast(if cols[i].literal.Some? then cols[i].literal.value else NullValue).Some?)
  {
    AllStored(schema, cols);
  }

  lemma {:induction false} AllStored(schema: Schema, cols: seq<Column>)
    ensures NewContent(schema, cols).Some? <==> forall i :: 0 <= i < |cols| ==> Stored(schema, cols[i]).Some?
    decreases |cols|
  {
    if cols != [] {
      AllStored(schema, cols[..|cols| - 1]);
      hide Stored;
      assert forall i :: 0 <= i < |cols| - 1 ==> cols[..|cols| - 1][i] == cols[i];
    }
  }

  /** It then has exactly the listed columns. */
  lemma {:induction false} NewContentColumns(schema: Schema, cols: seq<Column>, name: GoString)
    requires NewContent(schema, cols).Some?
    ensures name in NewContent(schema, cols).value <==> exists i :: 0 <= i < |cols| && cols[i].name == name
    decreases |cols|
  {
    if cols != [] {
      hide Stored;
      var n := |cols| - 1;
      NewContentColumns(schema, cols[..n], name);
      if i :| 0 <= i < n && cols[i].name == name {
        assert cols[..n][i].name == name;
      }
      if i :| 0 <= i < |cols[..n]| && cols[..n][i].name == name {
        assert cols[i].name == name;
      }
    }
  }

  /** Each column holds what its last entry stores: the cast of its literal, or of NULL where there is none; NULL where
      the conversion does not list the column's type. */
  lemma NewContentHolds(schema: Schema, cols: seq<Column>, i: nat)
    requires NewContent(schema, cols).Some?
    requires i < |cols| && forall j :: i < j < |cols| ==> cols[j].name != cols[i].name
    ensures var c := NewContent(schema, cols).value;
      && cols[i].name in schema && cols[i].name in c
      && match schema[cols[i].name]
         case Unlisted => c[cols[i].name] == NullValue
         case To(cast) =>
           cast(if cols[i].literal.Some? then cols[i].literal.value else NullValue) == Some(c[cols[i].name])
  {
    LastStored(schema, cols, i);
  }

  lemma {:induction false} LastStored(schema: Schema, cols: seq<Column>, i: nat)
    requires NewContent(schema, cols).Some?
    requires i < |cols| && forall j :: i < j < |cols| ==> cols[j].name != cols[i].name
    ensures var c := NewContent(schema, cols).value;
      cols[i].name in c && Stored(schema, cols[i]) == Some(c[cols[i].name])
    decreases |cols|
  {
    hide Stored;
    if i < |cols| - 1 {
      LastStored(schema, cols[..|cols| - 1], i);
    }
  }

  /** `NewRowFromColumns`: it stops at the first column it cannot store. */
  method NewRowFromColumns(schema: Schema, cols: seq<Column>) returns (row: Row?)
    ensures (row != null) == NewContent(schema, cols).Some?
    ensures row != null ==> fresh(row) && row.cols == NewContent(schema, cols).value
  {
    var c: Content := map[];
    for i := 0 to |cols|
      invariant NewContent(schema, cols[..i]) == Some(c)
    {
      var v := Stored(schema, cols[i]);
      NewContentStep(schema, cols, i);
      if v.None? {
        AllStored(schema, cols);
        return null;
      }
      c := c[cols[i].name := v.value];
    }
    assert cols[..|cols|] == cols;
    row := new Row(c);
  }

  /** The rows INSERT appends: those before the first one it cannot build. */
  function {:tailrecursion false} Inserted(schema: Schema, values: seq<seq<Column>>): seq<Content> {
    if values == [] || NewContent(schema, values[0]).None? then []
    else [NewContent(schema, values[0]).value] + Inserted(schema, values[1..])
  }

  /** They are the rows of the longest prefix that can be built, in order. */
  lemma {:induction false} InsertedIsPrefix(schema: Schema, values: seq<seq<Column>>)
    ensures var made := Inserted(schema, values);
      && |made| <= |values| && (forall i :: 0 <= i < |made| ==> NewContent(schema, values[i]) == Some(made[i]))
      && (|made| < |values| ==> NewContent(schema, values[|made|]).None?)
    decreases |values|
  {
    hide NewContent;
    if values != [] && NewContent(schema, values[0]).Some? {
      InsertedIsPrefix(schema, values[1..]);
      assert forall i :: 0 <= i < |values| - 1 ==> values[1..][i] == values[i + 1];
    }
  }

  // Rows and tables.

  /** A row: a Go map, shared by reference. */
  class Row {
    var cols: Content

    constructor (c: Content)
      ensures cols == c
    {
      cols := c;
    }

    predicate IsMatched(cond: Condition)
      reads this
    {
      Matched(cols, cond)
    }

    predicate IsEqual(other: Row)
      reads this, other
    {
      SameRow(cols, other.cols)
    }

    method Update(columns: seq<Column>) returns (ok: bool)
      modifies this
      ensures cols == Updated(old(cols), columns)
      ensures ok == CallsSucceed(Literals(old(cols), columns), columns)
    {
      for i := 0 to |columns|
        invariant Literals(cols, columns[i..]) == Literals(old(cols), columns)
      {
        if columns[i].literal.Some? {
          cols := cols[columns[i].name := columns[i].literal.value];
        }
      }
      ghost var literals := cols;
      for i := 0 to |columns|
        invariant Calls(cols, columns[i..]) == Calls(literals, columns)
        invariant CallsSucceed(cols, columns[i..]) == CallsSucceed(literals, columns)
      {
        if columns[i].call.Runs? {
          var v := columns[i].call.run(cols);
          if v.None? {
            return false;
          }
          cols := cols[columns[i].name := v.value];
        }
      }
      return true;
    }
  }
}
