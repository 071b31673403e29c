/**
 * The insert scripter's rendering of names and values into T-SQL text:
 * bracket quoting of identifiers (Bracket, FullName) and ToSqlLiteral, each
 * paired with the reading a SQL lexer gives the text back.
 */
module SqlLiteral {
  import opened Nullable
  import opened SqlText

  /**
   * Values whose .NET text form (decimal, double, date, time and GUID
   * formatting) lies outside the model. Each records the draws it was made
   * from; its literal comes from a Formatter.
   */
  datatype Opaque =
    | DecimalValue(whole: nat, scale: nat, fractionSample: nat, negative: bool)
    | MoneyValue(sample: nat)
    | DoubleValue(magnitudeSample: nat, negative: bool)
    | DateValue(sample: nat)
    | DateTimeValue(sample: nat)
    | DateTimeOffsetValue(sample: nat, offsetHours: int)
    | TimeSpanValue(totalSeconds: int)
    | GuidValue(text: string)

  /** The boxed object handed to ToSqlLiteral. */
  datatype Value =
    | Null
    | Integer(i: int)      // a boxed int, long, short or byte
    | Boolean(b: bool)
    | Str(s: string)
    | Formatted(o: Opaque)
    | Other(text: string)  // any other object, by its ToString()

  /** The invariant-culture formatting of the opaque kinds. */
  type Formatter = Opaque -> string

  // ---------------------------------------------------------------------------
  // Identifiers

  /** Reads a bracket-quoted identifier at the head of `t`. */
  function ReadIdentifier(t: string): (r: Option<(string, string)>)
    ensures r.Some? ==> |r.value.1| < |t|
  {
    if t != [] && t[0] == '[' then ReadDelimited(t[1..], ']') else None
  }

  /** `Bracket(s)`: `s` quoted as a SQL identifier, every `]` doubled. */
  function Bracket(s: string): (r: string)
    ensures |r| >= 2 && r[0] == '[' && r[|r| - 1] == ']'
    ensures ReadIdentifier(r) == Some((s, []))
  {
    var r := "[" + (Double(s, ']') + "]");
    ReadDelimitedDouble(s, ']', []);
    assert [']'] + [] == "]";
    assert r[1..] == Double(s, ']') + "]";
    r
  }

  /** A bracket-quoted identifier reads back as itself, whatever follows unless it starts with `]`. */
  lemma ReadIdentifierRoundTrip(s: string, rest: string)
    requires rest == [] || rest[0] != ']'
    ensures ReadIdentifier(Bracket(s) + rest) == Some((s, rest))
  {
    var d := Double(s, ']');
    Assoc("[", d + "]", rest);
    Assoc(d, "]", rest);
    var t := "[" + (d + ("]" + rest));
    assert t[1..] == d + ("]" + rest);
    ReadDelimitedDouble(s, ']', rest);
  }

  /** `FullName(schema, name)`: `[schema].[name]`, each part quoted. */
  function FullName(schema: string, name: string): string
  {
    Bracket(schema) + ("." + Bracket(name))
  }

  /** Reads a two-part name `[a].[b]` at the head of `t`. */
  function ReadQualifiedName(t: string): (r: Option<(string, string, string)>)
  {
    match ReadIdentifier(t)
    case None => None
    case Some((a, rest)) =>
      if rest != [] && rest[0] == '.' then
        match ReadIdentifier(rest[1..])
        case None => None
        case Some((b, rest')) => Some((a, b, rest'))
      else None
  }

  /** The two parts of a full name read back unchanged, even when they contain `]` or `.`. */
  lemma ReadQualifiedNameRoundTrip(schema: string, name: string, rest: string)
    requires rest == [] || rest[0] != ']'
    ensures ReadQualifiedName(FullName(schema, name) + rest) == Some((schema, name, rest))
  {
    Assoc(Bracket(schema), "." + Bracket(name), rest);
    Assoc(".", Bracket(name), rest);
    ReadIdentifierRoundTrip(schema, "." + (Bracket(name) + rest));
    assert ("." + (Bracket(name) + rest))[1..] == Bracket(name) + rest;
    ReadIdentifierRoundTrip(name, rest);
  }

  // ---------------------------------------------------------------------------
  // Literals

  /** Reads a Unicode string literal `N'…'` at the head of `t`. */
  function ReadNString(t: string): (r: Option<(string, string)>)
  {
    if |t| >= 2 && t[0] == 'N' && t[1] == '\'' then ReadDelimited(t[2..], '\'') else None
  }

  /** `"N'" + s.Replace("'", "''") + "'"`. */
  function NString(s: string): (r: string)
    ensures StartsWith(r, "N'")
    ensures ReadNString(r) == Some((s, []))
  {
    var r := "N'" + (Double(s, '\'') + "'");
    ReadDelimitedDouble(s, '\'', []);
    assert ['\''] + [] == "'";
    assert r[2..] == Double(s, '\'') + "'";
    r
  }

  /** A Unicode string literal reads back as its text, whatever follows unless it starts with a quote. */
  lemma ReadNStringRoundTrip(s: string, rest: string)
    requires rest == [] || rest[0] != '\''
    ensures ReadNString(NString(s) + rest) == Some((s, rest))
  {
    var d := Double(s, '\'');
    Assoc("N'", d + "'", rest);
    Assoc(d, "'", rest);
    var t := "N'" + (d + ("'" + rest));
    assert t[2..] == d + ("'" + rest);
    ReadDelimitedDouble(s, '\'', rest);
  }

  /** The hexadecimal pass-through test: the text starts with 0x, ignoring case. */
  predicate IsHexText(text: string)
  {
    StartsWith(Upper(text), "0X")
  }

  /** `ToSqlLiteral(v)`: the T-SQL literal a boxed value is written as. */
  function ToSqlLiteral(v: Value, fmt: Formatter): (r: string)
    ensures v.Null? ==> r == "NULL"
    ensures v.Integer? ==> ReadInt(r) == Some((v.i, []))
    ensures v.Boolean? ==> ReadInt(r) == Some((if v.b then 1 else 0, []))
    ensures v.Str? ==> ReadNString(r) == Some((v.s, []))
    ensures v.Formatted? ==> r == fmt(v.o)
    ensures v.Other? && IsHexText(v.text) ==> r == v.text
    ensures v.Other? && !IsHexText(v.text) ==> ReadNString(r) == Some((v.text, []))
  {
    match v
    case Null => "NULL"
    case Integer(i) =>
      ReadIntRoundTrip(i, []);
      assert IntToString(i) + [] == IntToString(i);
      IntToString(i)
    case Boolean(b) =>
      var r := if b then "1" else "0";
      ReadIntRoundTrip(if b then 1 else 0, []);
      assert r + [] == r;
      r
    case Str(s) => NString(s)
    case Formatted(o) => fmt(o)
    case Other(text) => if IsHexText(text) then text else NString(text)
  }

  /** Outside the formatter's kinds, the NULL keyword is written for the null value and nothing else. */
  lemma LiteralIsNullOnlyForNull(v: Value, fmt: Formatter)
    requires !v.Formatted?
    ensures ToSqlLiteral(v, fmt) == "NULL" <==> v == Null
  {
    var r := ToSqlLiteral(v, fmt);
    if v.Integer? || v.Boolean? {
      assert ReadInt("NULL") == None;
    } else if v.Str? || (v.Other? && !IsHexText(v.text)) {
      assert ReadNString("NULL") == None;
    } else if v.Other? {
      assert Upper(r)[..2] == "0X";
    }
  }
}
