/**
 * The insert scripter's Run: which columns are filled, which receive JSON,
 * the map from foreign-key columns to the parent columns they draw from, the
 * choice of each cell, and the T-SQL script of INSERT statements wrapped in
 * a transaction.
 */
module InsertScript {
  import opened Nullable
  import opened SqlText
  import opened Draws
  import opened Smo
  import opened SqlLiteral
  import opened ValueSynth
  import Json

  /** The scripter's settings: rows to script, chance of NULL, the constraint switch and the excluded names. */
  datatype Settings = Settings(
    rowCount: int,
    nullProbability: real,
    disableConstraints: bool,
    excludedColumns: seq<string>)

  // ---------------------------------------------------------------------------
  // Columns

  /** `CouldBeInserted(c)`: not an identity, computed, sparse or primary-key column. */
  predicate CouldBeInserted(c: Column)
  {
    !c.identity && !c.computed && !c.isSparse && !c.inPrimaryKey
  }

  /** The names an OrdinalIgnoreCase set built from `names` holds, by their keys. */
  function FoldedSet(names: seq<string>): set<string>
  {
    set i | 0 <= i < |names| :: FoldKey(names[i])
  }

  /** The insertable columns in table order: those that could be inserted and are not excluded. */
  function InsertableColumns(cols: seq<Column>, excluded: set<string>): (r: seq<Column>)
    ensures |r| <= |cols|
    ensures forall c :: c in r <==> c in cols && CouldBeInserted(c) && FoldKey(c.name) !in excluded
  {
    if cols == [] then []
    else
      var rest := InsertableColumns(cols[1..], excluded);
      assert forall c :: c in cols <==> c == cols[0] || c in cols[1..];
      if CouldBeInserted(cols[0]) && FoldKey(cols[0].name) !in excluded then [cols[0]] + rest else rest
  }

  /** The filter keeps table order: it distributes over concatenation. */
  lemma {:induction false} InsertableColumnsAppend(a: seq<Column>, b: seq<Column>, excluded: set<string>)
    ensures InsertableColumns(a + b, excluded) == InsertableColumns(a, excluded) + InsertableColumns(b, excluded)
    decreases |a|
  {
    if a == [] {
      assert a + b == b;
    } else {
      assert (a + b)[0] == a[0];
      assert (a + b)[1..] == a[1..] + b;
      InsertableColumnsAppend(a[1..], b, excluded);
    }
  }

  /** When every column is insertable and none is excluded, the filter returns the columns unchanged. */
  lemma {:induction false} InsertableColumnsKeepsAll(cols: seq<Column>, excluded: set<string>)
    requires forall i :: 0 <= i < |cols| ==> CouldBeInserted(cols[i]) && FoldKey(cols[i].name) !in excluded
    ensures InsertableColumns(cols, excluded) == cols
    decreases |cols|
  {
    if cols != [] {
      InsertableColumnsKeepsAll(cols[1..], excluded);
    }
  }

  /** `text` holds `pat`, ignoring case. */
  predicate MentionsIgnoreCase(text: string, pat: string)
  {
    Contains(Upper(text), Upper(pat))
  }

  /** The text calls one of SQL Server's JSON functions. */
  predicate CallsJson(text: string)
  {
    || MentionsIgnoreCase(text, "ISJSON")
    || MentionsIgnoreCase(text, "JSON_VALUE")
    || MentionsIgnoreCase(text, "JSON_QUERY")
    || MentionsIgnoreCase(text, "OPENJSON")
  }

  /** A check constraint that names the column, bracketed, and calls a JSON function. */
  predicate JsonCheck(text: string, colName: string)
  {
    MentionsIgnoreCase(text, Bracket(colName)) && CallsJson(text)
  }

  /** The source's test of one check text: an OrdinalIgnoreCase search for the token, then for each function name. */
  predicate ScanHit(text: string, colName: string)
  {
    && IndexOfIgnoreCase(text, Bracket(colName)) >= 0
    && (|| IndexOfIgnoreCase(text, "ISJSON") >= 0
        || IndexOfIgnoreCase(text, "JSON_VALUE") >= 0
        || IndexOfIgnoreCase(text, "JSON_QUERY") >= 0
        || IndexOfIgnoreCase(text, "OPENJSON") >= 0)
  }

  /** An OrdinalIgnoreCase IndexOf finds `pat` exactly when the text mentions it. */
  lemma HitIsMention(text: string, pat: string)
    ensures IndexOfIgnoreCase(text, pat) >= 0 <==> MentionsIgnoreCase(text, pat)
  {
  }

  lemma ScanHitIsJsonCheck(text: string, colName: string)
    ensures ScanHit(text, colName) <==> JsonCheck(text, colName)
  {
    HitIsMention(text, Bracket(colName));
    HitIsMention(text, "ISJSON");
    HitIsMention(text, "JSON_VALUE");
    HitIsMention(text, "JSON_QUERY");
    HitIsMention(text, "OPENJSON");
  }

  /** Some check of `checks` names the column and calls a JSON function. */
  predicate SomeJsonCheck(checks: seq<Check>, colName: string)
  {
    exists i :: 0 <= i < |checks| && JsonCheck(checks[i].text, colName)
  }

  lemma SomeJsonCheckCons(checks: seq<Check>, colName: string)
    requires checks != []
    ensures SomeJsonCheck(checks, colName)
      <==> JsonCheck(checks[0].text, colName) || SomeJsonCheck(checks[1..], colName)
  {
    ExistsCons(checks, (c: Check) => JsonCheck(c.text, colName));
  }

  lemma ExistsCons<T>(xs: seq<T>, p: T -> bool)
    requires xs != []
    ensures (exists i :: 0 <= i < |xs| && p(xs[i]))
      <==> p(xs[0]) || exists i :: 0 <= i < |xs[1..]| && p(xs[1..][i])
  {
    var tail := xs[1..];
    if !p(xs[0]) && exists i :: 0 <= i < |xs| && p(xs[i]) {
      var i :| 0 <= i < |xs| && p(xs[i]);
      assert tail[i - 1] == xs[i];
    }
    if exists i :: 0 <= i < |tail| && p(tail[i]) {
      var i :| 0 <= i < |tail| && p(tail[i]);
      assert xs[i + 1] == tail[i];
    }
  }

  /**
   * `IsJsonConstrained(table, col)`: the checks are scanned in order, and the
   * first that names the column and calls a JSON function decides; so the
   * answer is true exactly when some check names the column and calls one.
   */
  function IsJsonConstrained(checks: seq<Check>, colName: string): (r: bool)
    ensures r <==> exists i :: 0 <= i < |checks| && JsonCheck(checks[i].text, colName)
    decreases |checks|
  {
    if checks == [] then false
    else
      ScanHitIsJsonCheck(checks[0].text, colName);
      SomeJsonCheckCons(checks, colName);
      if ScanHit(checks[0].text, colName) then true
      else IsJsonConstrained(checks[1..], colName)
  }

  /** The keys of the JSON-constrained insertable columns. */
  function JsonColumns(cols: seq<Column>, checks: seq<Check>): set<string>
  {
    set c | c in cols && IsJsonConstrained(checks, c.name) :: FoldKey(c.name)
  }

  // ---------------------------------------------------------------------------
  // Foreign keys

  /** The parent schema, table and column a child column draws its values from. */
  datatype ParentLink = ParentLink(schema: string, table: string, column: string)

  /** Enabled, single-column, and naming its child column, parent table and parent column. */
  predicate Eligible(fk: ForeignKey)
  {
    && fk.isEnabled && |fk.columns| == 1
    && fk.columns[0].name != "" && fk.referencedTable != "" && fk.columns[0].referencedColumn != ""
  }

  function ChildKey(fk: ForeignKey): string
    requires |fk.columns| == 1
  {
    FoldKey(fk.columns[0].name)
  }

  /** The parent of an eligible key; an empty schema stands for dbo. */
  function LinkOf(fk: ForeignKey): ParentLink
    requires |fk.columns| == 1
  {
    var schema := if fk.referencedTableSchema == "" then "dbo" else fk.referencedTableSchema;
    ParentLink(schema, fk.referencedTable, fk.columns[0].referencedColumn)
  }

  /** `fks[i]` is the last eligible key on the child column `k`. */
  predicate LastFor(fks: seq<ForeignKey>, i: int, k: string)
  {
    && 0 <= i < |fks| && Eligible(fks[i]) && ChildKey(fks[i]) == k
    && forall j :: i < j < |fks| && Eligible(fks[j]) ==> ChildKey(fks[j]) != k
  }

  /** `CreateFKMap(table)`: the keys in order, each eligible one overwriting its child column's entry. */
  function CreateFKMap(fks: seq<ForeignKey>): map<string, ParentLink>
    decreases |fks|
  {
    if fks == [] then map[]
    else
      var m := CreateFKMap(fks[..|fks| - 1]);
      var fk := fks[|fks| - 1];
      if Eligible(fk) then m[ChildKey(fk) := LinkOf(fk)] else m
  }

  /**
   * The map holds a child column exactly when some eligible key names it, and
   * maps it to the parent of the last such key.
   */
  lemma {:induction false} CreateFKMapLastWins(fks: seq<ForeignKey>)
    ensures forall i :: 0 <= i < |fks| && Eligible(fks[i]) ==> ChildKey(fks[i]) in CreateFKMap(fks)
    ensures forall k :: k in CreateFKMap(fks) ==>
      exists i :: LastFor(fks, i, k) && CreateFKMap(fks)[k] == LinkOf(fks[i])
    decreases |fks|
  {
    if fks != [] {
      var n := |fks| - 1;
      var init := fks[..n];
      CreateFKMapLastWins(init);
      var m := CreateFKMap(init);
      var r := CreateFKMap(fks);
      forall i | 0 <= i < |fks| && Eligible(fks[i]) ensures ChildKey(fks[i]) in r {
        if i < n {
          assert init[i] == fks[i];
        }
      }
      forall k | k in r
        ensures exists i :: LastFor(fks, i, k) && r[k] == LinkOf(fks[i])
      {
        if Eligible(fks[n]) && k == ChildKey(fks[n]) {
          assert LastFor(fks, n, k);
        } else {
          var i :| LastFor(init, i, k) && m[k] == LinkOf(init[i]);
          LastForExtend(fks, i, k);
        }
      }
    }
  }

  /** A later key that does not take over `k` leaves the last key for `k` as it was. */
  lemma LastForExtend(fks: seq<ForeignKey>, i: int, k: string)
    requires fks != [] && LastFor(fks[..|fks| - 1], i, k)
    requires !(Eligible(fks[|fks| - 1]) && ChildKey(fks[|fks| - 1]) == k)
    ensures LastFor(fks, i, k)
  {
    var init := fks[..|fks| - 1];
    forall j | i < j < |fks| && Eligible(fks[j]) ensures ChildKey(fks[j]) != k {
      if j < |fks| - 1 {
        assert init[j] == fks[j];
      }
    }
    assert init[i] == fks[i];
  }

  /** TOP (100) in the query that loads a parent column's values. */
  const MaxFkRows: nat := 100

  function Take<T>(xs: seq<T>, n: nat): (r: seq<T>)
    ensures |r| <= n && |r| <= |xs|
    ensures forall x :: x in r ==> x in xs
  {
    if |xs| <= n then xs else xs[..n]
  }

  function NonNull(xs: seq<Value>): (r: seq<Value>)
    ensures forall v :: v in r <==> v in xs && v != Null
  {
    if xs == [] then []
    else
      assert forall v :: v in xs <==> v == xs[0] || v in xs[1..];
      (if xs[0] == Null then [] else [xs[0]]) + NonNull(xs[1..])
  }

  /**
   * The foreign-key value cache: for each child column of the map, at most 100
   * non-null values of its parent column, in the order the database returns
   * `parentRows` (ORDER BY NEWID()).
   */
  function LoadFkCache(fkMap: map<string, ParentLink>, parentRows: ParentLink -> seq<Value>): (r: map<string, seq<Value>>)
    ensures r.Keys == fkMap.Keys
    ensures forall k :: k in r ==> |r[k]| <= MaxFkRows
    ensures forall k, v :: k in r && v in r[k] ==> v != Null && v in parentRows(fkMap[k])
  {
    map k | k in fkMap :: Take(NonNull(parentRows(fkMap[k])), MaxFkRows)
  }

  // ---------------------------------------------------------------------------
  // Cells

  /** A cell is either the NULL drawn for a nullable column or a value's literal. */
  datatype Cell = DrawnNull | Literal(value: Value)

  /** A string value holding a JSON object that reads back as a well-formed document. */
  predicate IsJsonValue(v: Value)
  {
    v.Str? && Json.ReadObject(v.s).Some? && Json.WellFormedDocument(Json.ReadObject(v.s).value)
  }

  /**
   * What a cell of column `col` may hold: NULL is drawn only in a nullable
   * column with a positive probability, and always at probability 1; a
   * foreign-key column holds one of its cached parent values, or null when
   * the parent has none; any other column holds a non-null random value, a
   * JSON document for a JSON-constrained column and otherwise a value
   * admissible for its type.
   */
  predicate CellFits(col: Column, cell: Cell, nullProbability: real, cache: map<string, seq<Value>>, jsonCols: set<string>)
  {
    var key := FoldKey(col.name);
    && (cell.DrawnNull? ==> col.nullable && nullProbability > 0.0)
    && (col.nullable && nullProbability >= 1.0 ==> cell.DrawnNull?)
    && (cell.Literal? && key in cache ==>
          if cache[key] == [] then cell.value == Null else cell.value in cache[key])
    && (cell.Literal? && key !in cache ==>
          && cell.value != Null
          && (key in jsonCols ==> IsJsonValue(cell.value))
          && (key !in jsonCols ==> Admissible(col.dataType, cell.value)))
  }

  /** A row over the columns `cols`: their names in order, each with a cell that fits its column. */
  predicate RowOver(row: seq<(string, Cell)>, cols: seq<Column>, p: real, cache: map<string, seq<Value>>, jsonCols: set<string>)
  {
    && |row| == |cols|
    && forall i :: 0 <= i < |cols| ==> row[i].0 == cols[i].name && CellFits(cols[i], row[i].1, p, cache, jsonCols)
  }

  /**
   * One column of one row: a nullable column first draws a sample and is NULL
   * below the null probability; otherwise a foreign-key column takes a cached
   * parent value (or null when the parent has none), and any other column a
   * random value.
   */
  function ChooseCell(col: Column, nullProbability: real, cache: map<string, seq<Value>>, jsonCols: set<string>, rng: Rng): (r: (Cell, Rng))
    ensures CellFits(col, r.0, nullProbability, cache, jsonCols)
  {
    var (useNull, rng1) :=
      if col.nullable then
        var (k, rng') := NextSample(rng);
        (Unit(k) < nullProbability, rng')
      else (false, rng);
    if useNull then (DrawnNull, rng1)
    else if FoldKey(col.name) in cache then
      var values := cache[FoldKey(col.name)];
      if |values| == 0 then (Literal(Null), rng1)
      else
        var (i, rng2) := Next(rng1, |values|);
        (Literal(values[i]), rng2)
    else
      var (v, rng2) := RandomValue(col, jsonCols, rng1);
      (Literal(v), rng2)
  }

  /** A non-nullable foreign-key column whose parent has no rows still receives NULL. */
  lemma EmptyParentGivesNull(col: Column, p: real, cache: map<string, seq<Value>>, jsonCols: set<string>, rng: Rng)
    requires !col.nullable && FoldKey(col.name) in cache && cache[FoldKey(col.name)] == []
    ensures ChooseCell(col, p, cache, jsonCols, rng).0 == Literal(Null)
  {
  }

  /** One row: a name and a cell for each column, skipping any that could not be inserted. */
  function RowCells(cols: seq<Column>, p: real, cache: map<string, seq<Value>>, jsonCols: set<string>, rng: Rng): (r: (seq<(string, Cell)>, Rng))
    ensures (forall c :: c in cols ==> CouldBeInserted(c)) ==> RowOver(r.0, cols, p, cache, jsonCols)
    decreases |cols|
  {
    if cols == [] then ([], rng)
    else if !CouldBeInserted(cols[0]) then RowCells(cols[1..], p, cache, jsonCols, rng)
    else
      var (cell, rng1) := ChooseCell(cols[0], p, cache, jsonCols, rng);
      var (rest, rng2) := RowCells(cols[1..], p, cache, jsonCols, rng1);
      RowOverCons(cols, (cols[0].name, cell), rest, p, cache, jsonCols);
      ([(cols[0].name, cell)] + rest, rng2)
  }

  lemma RowOverCons(cols: seq<Column>, first: (string, Cell), rest: seq<(string, Cell)>,
                    p: real, cache: map<string, seq<Value>>, jsonCols: set<string>)
    requires cols != [] && first.0 == cols[0].name && CellFits(cols[0], first.1, p, cache, jsonCols)
    requires (forall c :: c in cols[1..] ==> CouldBeInserted(c)) ==> RowOver(rest, cols[1..], p, cache, jsonCols)
    ensures (forall c :: c in cols ==> CouldBeInserted(c)) ==> RowOver([first] + rest, cols, p, cache, jsonCols)
  {
    if forall c :: c in cols ==> CouldBeInserted(c) {
      assert forall c :: c in cols[1..] ==> c in cols;
      PairwiseCons(first, rest, cols,
        (e: (string, Cell), c: Column) => e.0 == c.name && CellFits(c, e.1, p, cache, jsonCols));
    }
  }

  lemma PairwiseCons<A, B>(x: A, xs: seq<A>, ys: seq<B>, rel: (A, B) -> bool)
    requires |ys| == |xs| + 1 && rel(x, ys[0])
    requires forall i :: 0 <= i < |xs| ==> rel(xs[i], ys[1..][i])
    ensures forall i :: 0 <= i < |ys| ==> rel(([x] + xs)[i], ys[i])
  {
    forall i | 0 <= i < |ys| ensures rel(([x] + xs)[i], ys[i]) {
      if i > 0 {
        assert ([x] + xs)[i] == xs[i - 1] && ys[i] == ys[1..][i - 1];
      }
    }
  }

  function Names(row: seq<(string, Cell)>): (r: seq<string>)
    ensures |r| == |row|
    ensures forall i :: 0 <= i < |row| ==> r[i] == row[i].0
  {
    if row == [] then [] else [row[0].0] + Names(row[1..])
  }

  // ---------------------------------------------------------------------------
  // Statement text

  /** The column list: each name bracketed on its own line, later ones after ", ". */
  function NamesText(names: seq<string>): string
  {
    if names == [] then []
    else if |names| == 1 then Bracket(names[0]) + NL
    else Bracket(names[0]) + (NL + (", " + NamesText(names[1..])))
  }

  /** A drawn NULL is appended without a line break; a literal is followed by one. */
  function CellText(c: Cell, fmt: Formatter): string
  {
    match c
    case DrawnNull => "NULL"
    case Literal(v) => ToSqlLiteral(v, fmt) + NL
  }

  function ValuesText(row: seq<(string, Cell)>, fmt: Formatter): string
  {
    if row == [] then []
    else if |row| == 1 then CellText(row[0].1, fmt)
    else CellText(row[0].1, fmt) + (", " + ValuesText(row[1..], fmt))
  }

  const InsertInto: string := "INSERT INTO "
  const OpenList: string := " (" + NL
  const ValuesKeyword: string := ") VALUES (" + NL
  const CloseList: string := ");" + NL

  /** One INSERT statement: the table's full name, the column list, the value list. */
  function InsertStatement(schema: string, name: string, row: seq<(string, Cell)>, fmt: Formatter): string
  {
    InsertInto + (FullName(schema, name) + (OpenList
    + (NamesText(Names(row)) + (ValuesKeyword + (ValuesText(row, fmt) + CloseList)))))
  }

  /** Reads a column list: bracketed names, each ending its line, separated by ", ". */
  function ReadNames(t: string): (r: Option<(seq<string>, string)>)
    ensures r.Some? ==> |r.value.1| < |t|
    decreases |t|
  {
    match ReadIdentifier(t)
    case None => None
    case Some((n, rest)) =>
      if rest == [] || rest[0] != '\n' then None
      else
        var after := rest[1..];
        if |after| >= 2 && after[0] == ',' && after[1] == ' ' then
          match ReadNames(after[2..])
          case None => None
          case Some((ns, rest')) => Some(([n] + ns, rest'))
        else Some(([n], after))
  }

  predicate NotListGoesOn(rest: string)
  {
    rest == [] || rest[0] != ','
  }

  lemma ReadNamesOne(n: string, rest: string)
    requires NotListGoesOn(rest)
    ensures ReadNames(Bracket(n) + NL + rest) == Some(([n], rest))
  {
    Assoc(Bracket(n), NL, rest);
    ReadIdentifierRoundTrip(n, NL + rest);
    assert (NL + rest)[1..] == rest;
  }

  lemma ReadNamesCons(n: string, ns: seq<string>, rest: string)
    requires |ns| >= 1
    requires ReadNames(NamesText(ns) + rest) == Some((ns, rest))
    ensures ReadNames(NamesText([n] + ns) + rest) == Some(([n] + ns, rest))
  {
    var tail := NamesText(ns) + rest;
    assert ([n] + ns)[1..] == ns;
    Assoc(", ", NamesText(ns), rest);
    Assoc(NL, ", " + NamesText(ns), rest);
    Assoc(Bracket(n), NL + (", " + NamesText(ns)), rest);
    ReadIdentifierRoundTrip(n, NL + (", " + tail));
    assert (NL + (", " + tail))[1..] == ", " + tail;
    assert (", " + tail)[2..] == tail;
  }

  /** A non-empty column list reads back as its names. */
  lemma {:induction false} ReadNamesRoundTrip(names: seq<string>, rest: string)
    requires |names| >= 1 && NotListGoesOn(rest)
    ensures ReadNames(NamesText(names) + rest) == Some((names, rest))
    decreases |names|
  {
    if |names| == 1 {
      assert names == [names[0]];
      ReadNamesOne(names[0], rest);
    } else {
      ReadNamesRoundTrip(names[1..], rest);
      assert [names[0]] + names[1..] == names;
      ReadNamesCons(names[0], names[1..], rest);
    }
  }

  /** Reads the head of an INSERT statement: the table's two-part name and the column list. */
  function ReadInsertHead(t: string): Option<(string, string, seq<string>, string)>
  {
    match Skip(t, InsertInto)
    case None => None
    case Some(t1) =>
      match ReadQualifiedName(t1)
      case None => None
      case Some((schema, name, t2)) =>
        match ReadColumnList(t2)
        case None => None
        case Some((names, rest)) => Some((schema, name, names, rest))
  }

  /** Reads ` (`, the column list and `) VALUES (`, each keyword ending its line. */
  function ReadColumnList(t: string): Option<(seq<string>, string)>
  {
    match Skip(t, OpenList)
    case None => None
    case Some(t1) =>
      match ReadNames(t1)
      case None => None
      case Some((names, t2)) =>
        match Skip(t2, ValuesKeyword)
        case None => None
        case Some(rest) => Some((names, rest))
  }

  lemma ReadColumnListRoundTrip(names: seq<string>, rest: string)
    requires |names| >= 1
    ensures ReadColumnList(OpenList + (NamesText(names) + (ValuesKeyword + rest))) == Some((names, rest))
  {
    var t2 := ValuesKeyword + rest;
    var t1 := NamesText(names) + t2;
    SkipPrefix(OpenList, t1);
    ReadNamesRoundTrip(names, t2);
    SkipPrefix(ValuesKeyword, rest);
  }

  /** An INSERT statement reads back as its table's name and its column names, followed by its values. */
  lemma ReadInsertRoundTrip(schema: string, name: string, row: seq<(string, Cell)>, fmt: Formatter)
    requires |row| >= 1
    ensures ReadInsertHead(InsertStatement(schema, name, row, fmt))
      == Some((schema, name, Names(row), ValuesText(row, fmt) + CloseList))
  {
    ReadHeadRoundTrip(schema, name, Names(row), ValuesText(row, fmt) + CloseList);
  }

  lemma ReadHeadRoundTrip(schema: string, name: string, names: seq<string>, values: string)
    requires |names| >= 1
    ensures ReadInsertHead(InsertInto + (FullName(schema, name) + (OpenList
      + (NamesText(names) + (ValuesKeyword + values))))) == Some((schema, name, names, values))
  {
    var t2 := OpenList + (NamesText(names) + (ValuesKeyword + values));
    var t1 := FullName(schema, name) + t2;
    SkipPrefix(InsertInto, t1);
    ReadQualifiedNameRoundTrip(schema, name, t2);
    ReadColumnListRoundTrip(names, values);
  }

  /** The value a cell stands for: a drawn NULL is the null value. */
  function CellValue(c: Cell): Value
  {
    match c
    case DrawnNull => Null
    case Literal(v) => v
  }

  function CellValues(row: seq<(string, Cell)>): (r: seq<Value>)
    ensures |r| == |row|
    ensures forall i :: 0 <= i < |row| ==> r[i] == CellValue(row[i].1)
  {
    if row == [] then [] else [CellValue(row[0].1)] + CellValues(row[1..])
  }

  /** The values whose literals read back without a formatter: null, integers and strings. */
  predicate PlainValue(v: Value)
  {
    v.Null? || v.Integer? || v.Str?
  }

  /** Reads one literal: the NULL keyword, a Unicode string or an integer. */
  function ReadLiteral(t: string): (r: Option<(Value, string)>)
    ensures r.Some? ==> |r.value.1| < |t|
  {
    if StartsWith(t, "NULL") then Some((Null, t[4..]))
    else if StartsWith(t, "N'") then
      match ReadNString(t)
      case None => None
      case Some((s, rest)) =>
        assert |rest| < |t[2..]|;
        Some((Str(s), rest))
    else
      match ReadInt(t)
      case None => None
      case Some((i, rest)) => Some((Integer(i), rest))
  }

  /** Reads a value list: literals, each maybe ending its line, separated by ", ". */
  function ReadValues(t: string): (r: Option<(seq<Value>, string)>)
    decreases |t|
  {
    match ReadLiteral(t)
    case None => None
    case Some((v, rest)) =>
      var after := if rest != [] && rest[0] == '\n' then rest[1..] else rest;
      if |after| >= 2 && after[0] == ',' && after[1] == ' ' then
        match ReadValues(after[2..])
        case None => None
        case Some((vs, rest')) => Some(([v] + vs, rest'))
      else Some(([v], after))
  }

  /** What may follow a cell's text: the next separator or the closing parenthesis. */
  predicate CellFollower(more: string)
  {
    |more| >= 1 && (more[0] == ',' || more[0] == ')')
  }

  lemma ReadNullLiteral(more: string)
    ensures ReadLiteral("NULL" + more) == Some((Null, more))
  {
    assert StartsWith("NULL" + more, "NULL") && ("NULL" + more)[4..] == more;
  }

  lemma ReadStrLiteral(s: string, more: string)
    requires |more| >= 1 && more[0] == '\n'
    ensures ReadLiteral(NString(s) + more) == Some((Str(s), more))
  {
    var t := NString(s) + more;
    ReadNStringRoundTrip(s, more);
    assert t[1] == '\'';
    assert !StartsWith(t, "NULL");
  }

  lemma ReadIntLiteral(i: int, more: string)
    requires |more| >= 1 && more[0] == '\n'
    ensures ReadLiteral(IntToString(i) + more) == Some((Integer(i), more))
  {
    var t := IntToString(i) + more;
    ReadIntRoundTrip(i, more);
    assert t[0] == IntToString(i)[0];
    assert t[0] == '-' || IsDigit(t[0]);
    assert !StartsWith(t, "NULL") && !StartsWith(t, "N'");
  }

  /** A cell's text reads back as its value, leaving what follows it, after at most one line break. */
  lemma ReadCell(c: Cell, fmt: Formatter, more: string)
    requires PlainValue(CellValue(c)) && CellFollower(more)
    ensures ReadLiteral(CellText(c, fmt) + more).Some?
    ensures var (v, rest) := ReadLiteral(CellText(c, fmt) + more).value;
      v == CellValue(c) && (rest == more || rest == NL + more)
  {
    match c
    case DrawnNull =>
      ReadNullLiteral(more);
    case Literal(v) =>
      assert CellText(c, fmt) + more == ToSqlLiteral(v, fmt) + (NL + more);
      if v.Null? {
        ReadNullLiteral(NL + more);
      } else if v.Str? {
        ReadStrLiteral(v.s, NL + more);
      } else {
        ReadIntLiteral(v.i, NL + more);
      }
  }

  lemma ReadValuesOne(c: Cell, fmt: Formatter, rest: string)
    requires PlainValue(CellValue(c)) && |rest| >= 1 && rest[0] == ')'
    ensures ReadValues(CellText(c, fmt) + rest) == Some(([CellValue(c)], rest))
  {
    ReadCell(c, fmt, rest);
  }

  lemma ReadValuesCons(c: Cell, row: seq<(string, Cell)>, fmt: Formatter, rest: string)
    requires PlainValue(CellValue(c)) && |row| >= 1
    requires ReadValues(ValuesText(row, fmt) + rest) == Some((CellValues(row), rest))
    ensures ReadValues(CellText(c, fmt) + (", " + (ValuesText(row, fmt) + rest)))
      == Some(([CellValue(c)] + CellValues(row), rest))
  {
    var tail := ValuesText(row, fmt) + rest;
    ReadCell(c, fmt, ", " + tail);
    assert (", " + tail)[2..] == tail;
    assert (NL + (", " + tail))[1..] == ", " + tail;
  }

  /** A value list of plain values reads back as the row's values, in the row's order. */
  lemma {:induction false} ReadValuesRoundTrip(row: seq<(string, Cell)>, fmt: Formatter, rest: string)
    requires |row| >= 1 && |rest| >= 1 && rest[0] == ')'
    requires forall i :: 0 <= i < |row| ==> PlainValue(CellValue(row[i].1))
    ensures ReadValues(ValuesText(row, fmt) + rest) == Some((CellValues(row), rest))
    decreases |row|
  {
    if |row| == 1 {
      assert CellValues(row) == [CellValue(row[0].1)];
      ReadValuesOne(row[0].1, fmt, rest);
    } else {
      var tail := row[1..];
      ReadValuesRoundTrip(tail, fmt, rest);
      ReadValuesCons(row[0].1, tail, fmt, rest);
      Assoc(", ", ValuesText(tail, fmt), rest);
      Assoc(CellText(row[0].1, fmt), ", " + ValuesText(tail, fmt), rest);
      assert CellValues(row) == [CellValue(row[0].1)] + CellValues(tail);
    }
  }

  /**
   * A statement over plain values lists as many values as names, in the same
   * column order: its head reads back as the names and the rest as the values.
   */
  lemma InsertValuesMatchNames(schema: string, name: string, row: seq<(string, Cell)>, fmt: Formatter)
    requires |row| >= 1
    requires forall i :: 0 <= i < |row| ==> PlainValue(CellValue(row[i].1))
    ensures var head := ReadInsertHead(InsertStatement(schema, name, row, fmt));
      && head.Some? && head.value.2 == Names(row)
      && ReadValues(head.value.3) == Some((CellValues(row), CloseList))
  {
    ReadInsertRoundTrip(schema, name, row, fmt);
    ReadValuesRoundTrip(row, fmt, CloseList);
  }

  // ---------------------------------------------------------------------------
  // The script

  const NoColumnsMessage: string := "No insertable columns (all are identity/computed/sparse)."

  /** The constraint lines name the table as `[schema].[name]` without doubling any `]`. */
  function RawName(table: Table): string
  {
    "[" + table.schema + "].[" + table.name + "]"
  }

  function Preamble(table: Table, disable: bool): string
  {
    "SET NOCOUNT ON;" + NL + "BEGIN TRY" + NL + "BEGIN TRAN;" + NL
    + (if disable then "ALTER TABLE " + RawName(table) + " NOCHECK CONSTRAINT ALL;" + NL else [])
  }

  function Trailer(table: Table, disable: bool): string
  {
    (if disable then "ALTER TABLE " + RawName(table) + " WITH CHECK CHECK CONSTRAINT ALL;" + NL else [])
    + "COMMIT;" + NL + "END TRY" + NL + "BEGIN CATCH" + NL
    + "  IF @@TRANCOUNT > 0 ROLLBACK;" + NL + "  THROW;" + NL + "END CATCH;" + NL
  }

  function Concat(ss: seq<string>): string
  {
    if ss == [] then [] else ss[0] + Concat(ss[1..])
  }

  /** `stmt` inserts into `table`, naming exactly the columns `names`. */
  predicate InsertsInto(stmt: string, table: Table, names: seq<string>)
  {
    && ReadInsertHead(stmt).Some?
    && ReadInsertHead(stmt).value.0 == table.schema
    && ReadInsertHead(stmt).value.1 == table.name
    && ReadInsertHead(stmt).value.2 == names
  }

  function ColumnNames(cols: seq<Column>): (r: seq<string>)
    ensures |r| == |cols|
    ensures forall i :: 0 <= i < |cols| ==> r[i] == cols[i].name
  {
    if cols == [] then [] else [cols[0].name] + ColumnNames(cols[1..])
  }

  /** A row over `cols` names exactly those columns, in order. */
  lemma RowOverNames(row: seq<(string, Cell)>, cols: seq<Column>, p: real, cache: map<string, seq<Value>>, jsonCols: set<string>)
    requires RowOver(row, cols, p, cache, jsonCols)
    ensures Names(row) == ColumnNames(cols)
  {
    assert |Names(row)| == |ColumnNames(cols)|;
    forall i | 0 <= i < |cols| ensures Names(row)[i] == ColumnNames(cols)[i] {
    }
  }

  /** `n` rows, each an INSERT statement over the insertable columns `cols`. */
  function Statements(n: nat, table: Table, cols: seq<Column>, p: real, cache: map<string, seq<Value>>,
                      jsonCols: set<string>, fmt: Formatter, rng: Rng): (r: (seq<string>, Rng))
    requires |cols| >= 1 && forall c :: c in cols ==> CouldBeInserted(c)
    ensures |r.0| == n
    ensures forall i :: 0 <= i < n ==> IsStatement(r.0[i], table, cols, p, cache, jsonCols, fmt)
    decreases n
  {
    if n == 0 then ([], rng)
    else
      var (row, rng1) := RowCells(cols, p, cache, jsonCols, rng);
      var (rest, rng2) := Statements(n - 1, table, cols, p, cache, jsonCols, fmt, rng1);
      PrependStatement(row, rest, table, cols, p, cache, jsonCols, fmt);
      ([InsertStatement(table.schema, table.name, row, fmt)] + rest, rng2)
  }

  lemma PrependStatement(row: seq<(string, Cell)>, rest: seq<string>, table: Table, cols: seq<Column>, p: real,
                         cache: map<string, seq<Value>>, jsonCols: set<string>, fmt: Formatter)
    requires RowOver(row, cols, p, cache, jsonCols)
    requires forall i :: 0 <= i < |rest| ==> IsStatement(rest[i], table, cols, p, cache, jsonCols, fmt)
    ensures forall i :: 0 <= i < |rest| + 1 ==>
      IsStatement(([InsertStatement(table.schema, table.name, row, fmt)] + rest)[i], table, cols, p, cache, jsonCols, fmt)
  {
    StatementOfRow(row, table, cols, p, cache, jsonCols, fmt);
    PrependKeeps(InsertStatement(table.schema, table.name, row, fmt), rest,
      (s: string) => IsStatement(s, table, cols, p, cache, jsonCols, fmt));
  }

  lemma StatementOfRow(row: seq<(string, Cell)>, table: Table, cols: seq<Column>, p: real, cache: map<string, seq<Value>>,
                       jsonCols: set<string>, fmt: Formatter)
    requires RowOver(row, cols, p, cache, jsonCols)
    ensures IsStatement(InsertStatement(table.schema, table.name, row, fmt), table, cols, p, cache, jsonCols, fmt)
  {
  }

  lemma PrependKeeps<T>(x: T, rest: seq<T>, keep: T -> bool)
    requires keep(x) && forall i :: 0 <= i < |rest| ==> keep(rest[i])
    ensures forall i :: 0 <= i < |rest| + 1 ==> keep(([x] + rest)[i])
  {
    forall i | 0 <= i < |rest| + 1 ensures keep(([x] + rest)[i]) {
      if i > 0 {
        assert ([x] + rest)[i] == rest[i - 1];
      }
    }
  }

  /**
   * `stmt` is exactly one INSERT statement into `table` whose row fits the
   * columns `cols`: one value per column, in column order.
   */
  ghost predicate IsStatement(stmt: string, table: Table, cols: seq<Column>, p: real, cache: map<string, seq<Value>>,
                              jsonCols: set<string>, fmt: Formatter)
  {
    exists row :: RowOver(row, cols, p, cache, jsonCols) && stmt == InsertStatement(table.schema, table.name, row, fmt)
  }

  /** Such a statement reads back as an insert into `table` naming exactly the columns `cols`. */
  lemma StatementReadsBack(stmt: string, table: Table, cols: seq<Column>, p: real, cache: map<string, seq<Value>>,
                           jsonCols: set<string>, fmt: Formatter)
    requires |cols| >= 1 && IsStatement(stmt, table, cols, p, cache, jsonCols, fmt)
    ensures InsertsInto(stmt, table, ColumnNames(cols))
  {
    var row :| RowOver(row, cols, p, cache, jsonCols) && stmt == InsertStatement(table.schema, table.name, row, fmt);
    RowOverNames(row, cols, p, cache, jsonCols);
    ReadInsertRoundTrip(table.schema, table.name, row, fmt);
  }

  /**
   * The script of exactly `n` INSERT statements into `table`, one per row,
   * each row fitting the columns `cols`, inside the transaction.
   */
  ghost predicate IsInsertScript(text: string, table: Table, disable: bool, cols: seq<Column>, p: real,
                                 cache: map<string, seq<Value>>, jsonCols: set<string>, fmt: Formatter, n: nat)
  {
    exists stmts: seq<string> :: ScriptOf(text, stmts, table, disable, cols, p, cache, jsonCols, fmt, n)
  }

  ghost predicate ScriptOf(text: string, stmts: seq<string>, table: Table, disable: bool, cols: seq<Column>, p: real,
                           cache: map<string, seq<Value>>, jsonCols: set<string>, fmt: Formatter, n: nat)
  {
    && |stmts| == n
    && text == Preamble(table, disable) + Concat(stmts) + Trailer(table, disable)
    && forall i :: 0 <= i < n ==> IsStatement(stmts[i], table, cols, p, cache, jsonCols, fmt)
  }

  /** The script is longer than the message: its closing lines alone outnumber the message's characters. */
  lemma ScriptIsNotMessage(table: Table, disable: bool, body: string)
    ensures body + Trailer(table, disable) != NoColumnsMessage
  {
    assert |NoColumnsMessage| == 57;
    assert |Trailer(table, disable)| >= 79;
  }

  /**
   * `Run()`: the message when no column is insertable, and otherwise one
   * script of max(rowCount, 0) INSERT statements over the insertable columns,
   * between the transaction's opening and its commit and catch block.
   */
  function Run(table: Table, settings: Settings, parentRows: ParentLink -> seq<Value>, fmt: Formatter, rng: Rng): (r: seq<string>)
    ensures |r| == 1
    ensures var cols := InsertableColumns(table.columns, FoldedSet(settings.excludedColumns));
      && (cols == [] <==> r[0] == NoColumnsMessage)
      && (cols != [] ==>
            IsInsertScript(r[0], table, settings.disableConstraints, cols, settings.nullProbability,
              LoadFkCache(CreateFKMap(table.foreignKeys), parentRows), JsonColumns(cols, table.checks),
              fmt, Max(settings.rowCount, 0)))
  {
    var cols := InsertableColumns(table.columns, FoldedSet(settings.excludedColumns));
    var jsonCols := JsonColumns(cols, table.checks);
    if cols == [] then [NoColumnsMessage]
    else
      var cache := LoadFkCache(CreateFKMap(table.foreignKeys), parentRows);
      var n := Max(settings.rowCount, 0);
      var (stmts, _) := Statements(n, table, cols, settings.nullProbability, cache, jsonCols, fmt, rng);
      var disable := settings.disableConstraints;
      var text := Preamble(table, disable) + Concat(stmts) + Trailer(table, disable);
      ScriptIsNotMessage(table, disable, Preamble(table, disable) + Concat(stmts));
      assert ScriptOf(text, stmts, table, disable, cols, settings.nullProbability, cache, jsonCols, fmt, n);
      [text]
  }
}
