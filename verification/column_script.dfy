/**
 * The column scripter (CreateColumnScripter): the ALTER TABLE ... ADD script
 * for one column, an sp_addextendedproperty call per extended property, and
 * the URNs of the objects that depend on the column, which the external
 * scripting service turns into further scripts.
 */
module ColumnScript {
  import opened Nullable
  import opened SqlText
  import opened Smo
  import opened SqlLiteral

  // ---------------------------------------------------------------------------
  // The ALTER script

  /** What CreateAlterScript appends to the type's name. */
  datatype TypeSuffix =
    | NoSuffix
    | MaxLength                                  // varchar(MAX)
    | Length(length: int)                        // varchar(n)
    | PrecisionScale(precision: int, scale: int) // decimal(p,s)

  /** The suffix's text; it reads back as the suffix it was written from. */
  function SuffixText(x: TypeSuffix): (r: string)
    ensures x.NoSuffix? <==> r == []
    ensures r != [] ==> r[0] == '(' && r[|r| - 1] == ')'
    ensures ReadSuffix(r) == Some(x)
  {
    match x
    case NoSuffix => []
    case MaxLength =>
      assert ReadInt("MAX)") == None;
      SkipPrefix("(", "MAX)");
      "(MAX)"
    case Length(n) =>
      ReadIntRoundTrip(n, ")");
      SkipPrefix("(", IntToString(n) + ")");
      "(" + (IntToString(n) + ")")
    case PrecisionScale(p, sc) =>
      var tail := "," + (IntToString(sc) + ")");
      ReadIntRoundTrip(p, tail);
      SkipPrefix("(", IntToString(p) + tail);
      SkipPrefix(",", IntToString(sc) + ")");
      ReadIntRoundTrip(sc, ")");
      "(" + (IntToString(p) + tail)
  }

  /** Reads a type suffix: nothing, `(MAX)`, `(n)` or `(p,s)`. */
  function ReadSuffix(t: string): Option<TypeSuffix>
  {
    if t == [] then Some(NoSuffix)
    else
      match Skip(t, "(")
      case None => None
      case Some(t1) =>
        match ReadInt(t1)
        case None => if t1 == "MAX)" then Some(MaxLength) else None
        case Some((a, t2)) =>
          if t2 == ")" then Some(Length(a))
          else
            match Skip(t2, ",")
            case None => None
            case Some(t3) =>
              match ReadInt(t3)
              case None => None
              case Some((b, t4)) => if t4 == ")" then Some(PrecisionScale(a, b)) else None
  }

  /** The suffix each type receives: a length for VarChar only (MAX for -1), precision and scale for Decimal only. */
  function DeclaredSuffix(dt: DataType): TypeSuffix
  {
    if dt.sqlType == VarChar then
      (if dt.maximumLength == -1 then MaxLength else Length(dt.maximumLength))
    else if dt.sqlType == Decimal then PrecisionScale(dt.numericPrecision, dt.numericScale)
    else NoSuffix
  }

  /** `SqlDataType.ToString()` followed by the declared suffix, which reads back from the text. */
  function TypeDecl(dt: DataType): (r: string)
    ensures StartsWith(r, TypeName(dt.sqlType))
    ensures ReadSuffix(r[|TypeName(dt.sqlType)|..]) == Some(DeclaredSuffix(dt))
  {
    var x := SuffixText(DeclaredSuffix(dt));
    AppendEnds(TypeName(dt.sqlType), x);
    assert (TypeName(dt.sqlType) + x)[|TypeName(dt.sqlType)|..] == x;
    TypeName(dt.sqlType) + x
  }

  /** The closing line of the verbatim template: twelve spaces. */
  const Indent: string := "            "
  const AlterHead: string := NL + "ALTER TABLE "
  const AddKeyword: string := NL + "ADD "

  /** A name between brackets with nothing doubled, as both scripts of this scripter write names. */
  function Raw(s: string): string
  {
    "[" + s + "]"
  }

  function Nullability(nullable: bool): string
  {
    if nullable then "NULL" else "NOT NULL"
  }

  /** The end of the ADD line and the template's last line. */
  function NullTail(nullable: bool): string
  {
    " " + Nullability(nullable) + ";" + NL + Indent
  }

  /** The tail of a non-nullable column's ADD clause. */
  const NotNullTail: string := " NOT NULL;" + NL + Indent

  /** The NOT NULL tail is the NULL tail with the word NOT in front. */
  lemma NotNullTails()
    ensures NullTail(false) == NotNullTail
    ensures NotNullTail == " NOT" + NullTail(true)
  {
  }

  /** What follows the column's name: its type declaration and nullability, then the template's last line. */
  function AlterTail(column: Column): string
  {
    (" " + TypeDecl(column.dataType)) + NullTail(column.nullable)
  }

  /** `[schema].[name]` with nothing doubled. */
  function RawFullName(table: Table): string
  {
    Raw(table.schema) + ("." + Raw(table.name))
  }

  /**
   * `CreateAlterScript()`: the column's ADD clause for its table. A
   * non-nullable column's clause ends in NOT NULL; a nullable column's does
   * not, unless the type declaration itself ends in the word NOT.
   */
  function AlterScript(table: Table, column: Column): (r: string)
    ensures EndsWith(r, NullTail(column.nullable))
    ensures !column.nullable ==> EndsWith(r, NotNullTail)
    ensures column.nullable && !EndsWith(" " + TypeDecl(column.dataType), " NOT") ==>
      !EndsWith(r, NotNullTail)
  {
    var tail := NullTail(column.nullable);
    var decl := " " + TypeDecl(column.dataType);
    var head := AlterHead + (RawFullName(table) + (AddKeyword + Raw(column.name)));
    var r := AlterHead + (RawFullName(table) + (AddKeyword + (Raw(column.name) + AlterTail(column))));
    Regroup(AlterHead, RawFullName(table), AddKeyword, Raw(column.name), decl, tail);
    AppendEnds(head + decl, tail);
    EndsInBracket(AlterHead + (RawFullName(table) + AddKeyword), column.name);
    Assoc(RawFullName(table), AddKeyword, Raw(column.name));
    Assoc(AlterHead, RawFullName(table) + AddKeyword, Raw(column.name));
    NotOnlyFromDecl(head, TypeDecl(column.dataType));
    NotNullTails();
    r
  }

  lemma Regroup(a: string, b: string, c: string, d: string, e: string, f: string)
    ensures a + (b + (c + (d + (e + f)))) == ((a + (b + (c + d))) + e) + f
  {
  }

  lemma EndsInBracket(a: string, name: string)
    ensures |a + Raw(name)| >= 1 && (a + Raw(name))[|a + Raw(name)| - 1] == ']'
  {
  }

  /** After a `]`, the NULL tail reads as NOT NULL only when the declaration ends in NOT. */
  lemma NotOnlyFromDecl(head: string, t: string)
    requires |head| >= 1 && head[|head| - 1] == ']'
    ensures EndsWith((head + (" " + t)) + NullTail(true), NotNullTail) ==> EndsWith(" " + t, " NOT")
  {
    if EndsWith((head + (" " + t)) + NullTail(true), NotNullTail) {
      NotNullTails();
      WordBeforeTail(head + (" " + t), NullTail(true), " NOT");
      AfterBracket(head, t, " NOT");
    }
  }

  /**
   * Every type of the enumeration declares itself with a last character other
   * than `T`, so only an unrecognised type's name can make a nullable
   * column's clause read NOT NULL.
   */
  lemma KnownTypesNeverEndInNot(dt: DataType)
    requires !dt.sqlType.OtherType?
    ensures !EndsWith(" " + TypeDecl(dt), " NOT")
  {
    KnownNamesEndOtherwise(dt.sqlType);
    NoNotEnding(TypeName(dt.sqlType), SuffixText(DeclaredSuffix(dt)));
  }

  /** A name not ending in `T`, followed by nothing or a parenthesised suffix, does not end in ` NOT`. */
  lemma NoNotEnding(name: string, x: string)
    requires |name| >= 1 && name[|name| - 1] != 'T'
    requires x == [] || x[|x| - 1] == ')'
    ensures !EndsWith(" " + (name + x), " NOT")
  {
    LastOfAppend(name, x);
    LastOfAppend(" ", name + x);
    LastOfEnding(" " + (name + x), " NOT");
  }

  lemma KnownNamesEndOtherwise(t: SqlDataType)
    requires !t.OtherType?
    ensures |TypeName(t)| >= 1 && TypeName(t)[|TypeName(t)| - 1] != 'T'
  {
  }

  lemma LastOfAppend(a: string, b: string)
    requires |a| >= 1
    ensures (a + b)[|a + b| - 1] == if b == [] then a[|a| - 1] else b[|b| - 1]
  {
  }

  lemma LastOfEnding(s: string, w: string)
    requires |w| >= 1
    ensures EndsWith(s, w) ==> s[|s| - 1] == w[|w| - 1]
  {
  }

  /** A text ending in `w` followed by `tail` is one ending in `w` that `tail` follows. */
  lemma WordBeforeTail(q: string, tail: string, w: string)
    requires EndsWith(q + tail, w + tail)
    ensures EndsWith(q, w)
  {
    assert (q + tail)[|q| - |w|..|q|] == q[|q| - |w|..];
  }

  /**
   * A word ending the text `head + " " + t`, where `head` ends in `]`, ends
   * the space and `t` already, if the word does not hold a `]`.
   */
  lemma AfterBracket(head: string, t: string, w: string)
    requires |head| >= 1 && head[|head| - 1] == ']' && ']' !in w
    requires EndsWith(head + (" " + t), w)
    ensures EndsWith(" " + t, w)
  {
    if |w| > |" " + t| {
      var k := |head + (" " + t)| - |w|;
      assert (head + (" " + t))[|head| - 1] == w[|head| - 1 - k];
      assert false;
    }
    assert (head + (" " + t))[|head + (" " + t)| - |w|..] == (" " + t)[|" " + t| - |w|..];
  }

  /** Reads the head of an ALTER script: the table's two-part name and the added column's name. */
  function ReadAlter(t: string): Option<(string, string, string, string)>
  {
    match Skip(t, AlterHead)
    case None => None
    case Some(t1) =>
      match ReadQualifiedName(t1)
      case None => None
      case Some((schema, name, t2)) =>
        match Skip(t2, AddKeyword)
        case None => None
        case Some(t3) =>
          match ReadIdentifier(t3)
          case None => None
          case Some((column, rest)) => Some((schema, name, column, rest))
  }

  /** Without `]` in a name, the unescaped brackets quote it as Bracket would. */
  lemma RawIsBracket(s: string)
    requires ']' !in s
    ensures Raw(s) == Bracket(s)
  {
  }

  /**
   * The ALTER script reads back as the table's schema and name and the
   * column's name, followed by the type declaration and nullability, provided
   * no name holds a `]`, which the script does not escape.
   */
  lemma AlterRoundTrip(table: Table, column: Column)
    requires ']' !in table.schema && ']' !in table.name && ']' !in column.name
    ensures ReadAlter(AlterScript(table, column)) == Some((table.schema, table.name, column.name, AlterTail(column)))
  {
    var rest := AlterTail(column);
    var t3 := Raw(column.name) + rest;
    var t2 := AddKeyword + t3;
    var t1 := RawFullName(table) + t2;
    RawIsBracket(table.schema);
    RawIsBracket(table.name);
    RawIsBracket(column.name);
    assert RawFullName(table) == FullName(table.schema, table.name);
    SkipPrefix(AlterHead, t1);
    ReadQualifiedNameRoundTrip(table.schema, table.name, t2);
    SkipPrefix(AddKeyword, t3);
    ReadIdentifierRoundTrip(column.name, rest);
  }

  // ---------------------------------------------------------------------------
  // Extended properties

  /** The property's value text, or the empty string for a null value. */
  function PropertyValue(ep: ExtendedProperty): string
  {
    match ep.value
    case None => ""
    case Some(v) => v
  }

  const ExtPropHead: string := "EXEC sys.sp_addextendedproperty" + NL + "@name = "
  const ValueKey: string := ", @value = "

  /** One property's sp_addextendedproperty call; name and value are escaped, the level names are not. */
  function ExtPropScript(table: Table, column: Column, ep: ExtendedProperty): string
  {
    ExtPropHead + (NString(ep.name) + (ValueKey + (NString(PropertyValue(ep)) + (", " + NL
    + "@level0type = N'SCHEMA', @level0name = N'" + table.schema + "', " + NL
    + "@level1type = N'TABLE',  @level1name = N'" + table.name + "', " + NL
    + "@level2type = N'COLUMN', @level2name = N'" + column.name + "'"))))
  }

  /** Reads the `@name` and `@value` arguments of an sp_addextendedproperty call. */
  function ReadExtProp(t: string): Option<(string, string)>
  {
    match Skip(t, ExtPropHead)
    case None => None
    case Some(t1) =>
      match ReadNString(t1)
      case None => None
      case Some((name, t2)) =>
        match Skip(t2, ValueKey)
        case None => None
        case Some(t3) =>
          match ReadNString(t3)
          case None => None
          case Some((value, _)) => Some((name, value))
  }

  /** Every property's name and value survive the escaping: the call reads back as them. */
  lemma ExtPropRoundTrip(table: Table, column: Column, ep: ExtendedProperty)
    ensures ReadExtProp(ExtPropScript(table, column, ep)) == Some((ep.name, PropertyValue(ep)))
  {
    var levels := ", " + NL
      + "@level0type = N'SCHEMA', @level0name = N'" + table.schema + "', " + NL
      + "@level1type = N'TABLE',  @level1name = N'" + table.name + "', " + NL
      + "@level2type = N'COLUMN', @level2name = N'" + column.name + "'";
    var t3 := NString(PropertyValue(ep)) + levels;
    var t2 := ValueKey + t3;
    var t1 := NString(ep.name) + t2;
    SkipPrefix(ExtPropHead, t1);
    ReadNStringRoundTrip(ep.name, t2);
    SkipPrefix(ValueKey, t3);
    ReadNStringRoundTrip(PropertyValue(ep), levels);
  }

  /** `AddRelatedExtendedProperties()`: one call per property, in order. */
  function ExtPropScripts(table: Table, column: Column, eps: seq<ExtendedProperty>): (r: seq<string>)
    ensures |r| == |eps|
    ensures forall i :: 0 <= i < |eps| ==> ReadExtProp(r[i]) == Some((eps[i].name, PropertyValue(eps[i])))
  {
    if eps == [] then []
    else
      ExtPropRoundTrip(table, column, eps[0]);
      [ExtPropScript(table, column, eps[0])] + ExtPropScripts(table, column, eps[1..])
  }

  // ---------------------------------------------------------------------------
  // Related objects

  /** The URNs of the objects `keep` accepts, in order. */
  function Select<T>(xs: seq<T>, keep: T -> bool, urn: T -> Urn): (r: seq<Urn>)
    ensures |r| <= |xs|
    ensures forall u :: u in r <==> exists i :: 0 <= i < |xs| && keep(xs[i]) && urn(xs[i]) == u
  {
    if xs == [] then []
    else
      var rest := Select(xs[1..], keep, urn);
      assert forall i :: 1 <= i < |xs| ==> xs[i] == xs[1..][i - 1];
      (if keep(xs[0]) then [urn(xs[0])] else []) + rest
  }

  /**
   * One object contributes its URN once when kept and nothing otherwise, as
   * the scans' `break` after the first matching column ensures.
   */
  lemma SelectOne<T>(x: T, keep: T -> bool, urn: T -> Urn)
    ensures Select([x], keep, urn) == if keep(x) then [urn(x)] else []
  {
    assert [x][1..] == [];
  }

  /** Selection keeps the objects' order: it distributes over concatenation. */
  lemma {:induction false} SelectAppend<T>(xs: seq<T>, ys: seq<T>, keep: T -> bool, urn: T -> Urn)
    ensures Select(xs + ys, keep, urn) == Select(xs, keep, urn) + Select(ys, keep, urn)
    decreases |xs|
  {
    if xs == [] {
      assert xs + ys == ys;
    } else {
      var head := if keep(xs[0]) then [urn(xs[0])] else [];
      assert (xs + ys)[0] == xs[0];
      assert (xs + ys)[1..] == xs[1..] + ys;
      assert Select(xs + ys, keep, urn) == head + Select(xs[1..] + ys, keep, urn);
      assert Select(xs, keep, urn) == head + Select(xs[1..], keep, urn);
      SelectAppend(xs[1..], ys, keep, urn);
      assert head + (Select(xs[1..], keep, urn) + Select(ys, keep, urn))
          == (head + Select(xs[1..], keep, urn)) + Select(ys, keep, urn);
    }
  }

  /** The inner scan with `break`: does any of the key's columns carry exactly this name? */
  function NamesColumn(cols: seq<ForeignKeyColumn>, name: string): bool
  {
    if cols == [] then false
    else if cols[0].name == name then true
    else NamesColumn(cols[1..], name)
  }

  lemma {:induction false} NamesColumnSpec(cols: seq<ForeignKeyColumn>, name: string)
    ensures NamesColumn(cols, name) <==> exists j :: 0 <= j < |cols| && cols[j].name == name
    decreases |cols|
  {
    if cols != [] {
      NamesColumnSpec(cols[1..], name);
      if exists j :: 0 <= j < |cols| && cols[j].name == name {
        var j :| 0 <= j < |cols| && cols[j].name == name;
        if j > 0 {
          assert cols[1..][j - 1] == cols[j];
        }
      }
    }
  }

  /** The checks whose text mentions `[name]`, case-sensitively and without escaping. */
  function CheckUrns(table: Table, name: string): (r: seq<Urn>)
    ensures forall u :: u in r <==>
      exists i :: 0 <= i < |table.checks| && Contains(table.checks[i].text, Raw(name)) && table.checks[i].urn == u
  {
    Select(table.checks, (c: Check) => Contains(c.text, Raw(name)), (c: Check) => c.urn)
  }

  /** The foreign keys with a column of exactly this name, each once. */
  function ForeignKeyUrns(table: Table, name: string): (r: seq<Urn>)
    ensures forall u :: u in r <==>
      exists i :: 0 <= i < |table.foreignKeys| && table.foreignKeys[i].urn == u
        && exists j :: 0 <= j < |table.foreignKeys[i].columns| && table.foreignKeys[i].columns[j].name == name
  {
    forall i | 0 <= i < |table.foreignKeys| {
      NamesColumnSpec(table.foreignKeys[i].columns, name);
    }
    Select(table.foreignKeys, (fk: ForeignKey) => NamesColumn(fk.columns, name), (fk: ForeignKey) => fk.urn)
  }

  /** The default constraints of the columns with exactly this name. */
  function DefaultUrns(table: Table, name: string): (r: seq<Urn>)
    ensures forall u :: u in r <==>
      exists i :: 0 <= i < |table.columns| && table.columns[i].name == name
        && table.columns[i].defaultConstraint.Some? && table.columns[i].defaultConstraint.value.urn == u
  {
    Select(table.columns, (c: Column) => c.name == name && c.defaultConstraint.Some?,
           (c: Column) => if c.defaultConstraint.Some? then c.defaultConstraint.value.urn else "")
  }

  predicate PrimaryKeyOn(ix: Index, name: string)
  {
    ix.keyType == DriPrimaryKey && name in ix.indexedColumns
  }

  /** The primary keys over the column. */
  function PrimaryKeyUrns(table: Table, name: string): (r: seq<Urn>)
    ensures forall i :: 0 <= i < |table.indexes| && PrimaryKeyOn(table.indexes[i], name) ==> table.indexes[i].urn in r
    ensures forall u :: u in r ==> exists i :: 0 <= i < |table.indexes| && PrimaryKeyOn(table.indexes[i], name) && table.indexes[i].urn == u
  {
    Select(table.indexes, (ix: Index) => PrimaryKeyOn(ix, name), (ix: Index) => ix.urn)
  }

  /** `AddRelatedConstraints()`: checks, foreign keys, defaults and primary keys, in that order. */
  function ConstraintUrns(table: Table, name: string): seq<Urn>
  {
    CheckUrns(table, name) + ForeignKeyUrns(table, name) + DefaultUrns(table, name) + PrimaryKeyUrns(table, name)
  }

  /** `AddRelatedIndexes()`: every index over the column, primary keys again included. */
  function IndexUrns(table: Table, name: string): (r: seq<Urn>)
    ensures forall u :: u in r <==>
      exists i :: 0 <= i < |table.indexes| && name in table.indexes[i].indexedColumns && table.indexes[i].urn == u
  {
    Select(table.indexes, (ix: Index) => name in ix.indexedColumns, (ix: Index) => ix.urn)
  }

  // ---------------------------------------------------------------------------
  // Triggers: Regex.IsMatch(text, @"\b" + Regex.Escape(name) + @"\b", RegexOptions.IgnoreCase)

  /** A regular-expression word character: a letter, a digit or `_`. */
  predicate IsWordChar(c: char)
  {
    ('a' <= c <= 'z') || ('A' <= c <= 'Z') || ('0' <= c <= '9') || c == '_'
  }

  predicate WordAt(t: string, i: int)
  {
    0 <= i < |t| && IsWordChar(t[i])
  }

  /** `\b`: a word character on exactly one side of position `i`. */
  predicate Boundary(t: string, i: int)
  {
    WordAt(t, i - 1) != WordAt(t, i)
  }

  /** `w` occurs at `i`, ignoring case, with a word boundary on each side. */
  predicate WordMatchAt(t: string, w: string, i: int)
  {
    && 0 <= i && i + |w| <= |t|
    && Boundary(t, i) && Upper(t[i..i + |w|]) == Upper(w) && Boundary(t, i + |w|)
  }

  predicate MatchesWord(t: string, w: string)
  {
    exists i :: 0 <= i <= |t| && WordMatchAt(t, w, i)
  }

  /** The regular-expression engine's scan: each start position in turn, stopping at the first match. */
  method IsMatch(t: string, w: string) returns (found: bool)
    ensures found <==> MatchesWord(t, w)
  {
    var i := 0;
    while i + |w| <= |t|
      invariant 0 <= i <= |t| + 1
      invariant forall j :: 0 <= j < i ==> !WordMatchAt(t, w, j)
      decreases |t| - i
    {
      if WordMatchAt(t, w, i) {
        return true;
      }
      i := i + 1;
    }
    return false;
  }

  /** `AddRelatedTriggers()`: the triggers whose body names the column as a whole word. */
  function TriggerUrns(table: Table, name: string): (r: seq<Urn>)
    ensures forall u :: u in r <==>
      exists i :: 0 <= i < |table.triggers| && MatchesWord(table.triggers[i].textBody, name) && table.triggers[i].urn == u
  {
    Select(table.triggers, (tr: Trigger) => MatchesWord(tr.textBody, name), (tr: Trigger) => tr.urn)
  }

  // ---------------------------------------------------------------------------
  // Full-text

  /**
   * `ScriptFullTextIfColumnParticipates()`: when the table's full-text index
   * covers the column, its catalog (when named and found among the database's
   * `catalogs`) and then the index itself.
   */
  function FullTextUrns(fti: Option<FullTextIndex>, name: string, catalogs: map<string, Urn>): (r: seq<Urn>)
    ensures |r| <= 2
    ensures fti.None? || name !in fti.value.indexedColumns ==> r == []
    ensures fti.Some? && name in fti.value.indexedColumns ==>
      && |r| >= 1 && r[|r| - 1] == fti.value.urn
      && (|r| == 2 <==> fti.value.catalogName != "" && fti.value.catalogName in catalogs)
      && (|r| == 2 ==> r[0] == catalogs[fti.value.catalogName])
  {
    if fti.Some? && name in fti.value.indexedColumns then
      var f := fti.value;
      (if f.catalogName != "" && f.catalogName in catalogs then [catalogs[f.catalogName]] else []) + [f.urn]
    else []
  }

  // ---------------------------------------------------------------------------
  // Run

  /** The objects that depend on the column, stated object by object. */
  ghost predicate Related(table: Table, column: Column, catalogs: map<string, Urn>, u: Urn)
  {
    var name := column.name;
    || (exists i :: 0 <= i < |table.checks| && Contains(table.checks[i].text, Raw(name)) && table.checks[i].urn == u)
    || (exists i :: 0 <= i < |table.foreignKeys| && table.foreignKeys[i].urn == u
          && exists j :: 0 <= j < |table.foreignKeys[i].columns| && table.foreignKeys[i].columns[j].name == name)
    || (exists i :: 0 <= i < |table.columns| && table.columns[i].name == name
          && table.columns[i].defaultConstraint.Some? && table.columns[i].defaultConstraint.value.urn == u)
    || (exists i :: 0 <= i < |table.indexes| && name in table.indexes[i].indexedColumns && table.indexes[i].urn == u)
    || (exists i :: 0 <= i < |table.triggers| && MatchesWord(table.triggers[i].textBody, name) && table.triggers[i].urn == u)
    || (table.fullTextIndex.Some? && name in table.fullTextIndex.value.indexedColumns
          && (|| u == table.fullTextIndex.value.urn
              || (table.fullTextIndex.value.catalogName != ""
                  && table.fullTextIndex.value.catalogName in catalogs
                  && u == catalogs[table.fullTextIndex.value.catalogName])))
  }

  /** Run collects exactly the related objects. */
  lemma RelatedUrnsSpec(table: Table, column: Column, catalogs: map<string, Urn>, u: Urn)
    ensures u in RelatedUrns(table, column, catalogs) <==> Related(table, column, catalogs, u)
  {
    var name := column.name;
    assert u in PrimaryKeyUrns(table, name) ==> u in IndexUrns(table, name);
  }

  /** Every URN Run hands to the scripting service, in the order it collects them. */
  function RelatedUrns(table: Table, column: Column, catalogs: map<string, Urn>): seq<Urn>
  {
    ConstraintUrns(table, column.name) + IndexUrns(table, column.name)
      + TriggerUrns(table, column.name) + FullTextUrns(table.fullTextIndex, column.name, catalogs)
  }

  /** A primary key over the column is handed to the scripting service twice: as a constraint and as an index. */
  lemma PrimaryKeyCollectedTwice(table: Table, column: Column, catalogs: map<string, Urn>, i: int)
    requires 0 <= i < |table.indexes| && PrimaryKeyOn(table.indexes[i], column.name)
    ensures multiset(RelatedUrns(table, column, catalogs))[table.indexes[i].urn] >= 2
  {
    var name := column.name;
    var u := table.indexes[i].urn;
    assert u in PrimaryKeyUrns(table, name) && u in IndexUrns(table, name);
    CountedTwice(CheckUrns(table, name) + ForeignKeyUrns(table, name) + DefaultUrns(table, name),
      PrimaryKeyUrns(table, name), IndexUrns(table, name),
      TriggerUrns(table, name), FullTextUrns(table.fullTextIndex, name, catalogs), u);
  }

  lemma CountedTwice<T>(before: seq<T>, a: seq<T>, b: seq<T>, c: seq<T>, d: seq<T>, u: T)
    requires u in a && u in b
    ensures multiset(before + a + b + c + d)[u] >= 2
  {
    assert multiset(a)[u] >= 1 && multiset(b)[u] >= 1;
  }

  /**
   * `Run()`: the ALTER script, then one call per extended property, then
   * whatever the scripting service `script` produces for the related objects.
   */
  function Run(table: Table, column: Column, catalogs: map<string, Urn>, script: seq<Urn> -> seq<string>): (r: seq<string>)
    ensures |r| == 1 + |column.extendedProperties| + |script(RelatedUrns(table, column, catalogs))|
    ensures r[0] == AlterScript(table, column)
    ensures forall i :: 0 <= i < |column.extendedProperties| ==>
      ReadExtProp(r[1 + i]) == Some((column.extendedProperties[i].name, PropertyValue(column.extendedProperties[i])))
    ensures r[1 + |column.extendedProperties|..] == script(RelatedUrns(table, column, catalogs))
  {
    var eps := ExtPropScripts(table, column, column.extendedProperties);
    var scripts := script(RelatedUrns(table, column, catalogs));
    Layout(AlterScript(table, column), eps, scripts);
    [AlterScript(table, column)] + eps + scripts
  }

  /** Where the parts of Run's result sit. */
  lemma Layout(first: string, middle: seq<string>, last: seq<string>)
    ensures |[first] + middle + last| == 1 + |middle| + |last|
    ensures ([first] + middle + last)[0] == first
    ensures forall i :: 0 <= i < |middle| ==> ([first] + middle + last)[1 + i] == middle[i]
    ensures ([first] + middle + last)[1 + |middle|..] == last
  {
  }
}
