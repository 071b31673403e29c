/**
 * The schema objects both scripters read, as immutable records: the SMO
 * Table, Column, DataType, Check, ForeignKey, Index, Trigger, ExtendedProperty
 * and FullTextIndex objects, each reduced to the members the scripters use.
 * An object's URN is its identity for the external scripting service.
 */
module Smo {
  import opened Nullable

  type Urn = string

  /** SMO's SqlDataType; the members the scripters name, and every other member by its name. */
  datatype SqlDataType =
    | Bit | TinyInt | SmallInt | Int | BigInt
    | Decimal | Numeric | Money | SmallMoney | Float | Real
    | Date | DateTime | SmallDateTime | DateTime2 | DateTimeOffset | Time
    | UniqueIdentifier
    | NVarChar | VarChar | NChar | Char | Text | NText
    | VarBinary | Binary | Image | Xml
    | OtherType(name: string)

  /** `SqlDataType.ToString()`: the enumeration member's name. */
  function TypeName(t: SqlDataType): string
  {
    match t
    case Bit => "Bit"
    case TinyInt => "TinyInt"
    case SmallInt => "SmallInt"
    case Int => "Int"
    case BigInt => "BigInt"
    case Decimal => "Decimal"
    case Numeric => "Numeric"
    case Money => "Money"
    case SmallMoney => "SmallMoney"
    case Float => "Float"
    case Real => "Real"
    case Date => "Date"
    case DateTime => "DateTime"
    case SmallDateTime => "SmallDateTime"
    case DateTime2 => "DateTime2"
    case DateTimeOffset => "DateTimeOffset"
    case Time => "Time"
    case UniqueIdentifier => "UniqueIdentifier"
    case NVarChar => "NVarChar"
    case VarChar => "VarChar"
    case NChar => "NChar"
    case Char => "Char"
    case Text => "Text"
    case NText => "NText"
    case VarBinary => "VarBinary"
    case Binary => "Binary"
    case Image => "Image"
    case Xml => "Xml"
    case OtherType(name) => name
  }

  /** MaximumLength is -1 for (MAX); precision and scale are 0 when not declared. */
  datatype DataType = DataType(
    sqlType: SqlDataType,
    maximumLength: int,
    numericPrecision: int,
    numericScale: int)

  /** An extended property; its value's ToString(), or None for a null value. */
  datatype ExtendedProperty = ExtendedProperty(name: string, value: Option<string>)

  datatype DefaultConstraint = DefaultConstraint(name: string, urn: Urn)

  datatype Column = Column(
    name: string,
    dataType: DataType,
    nullable: bool,
    identity: bool,
    computed: bool,
    isSparse: bool,
    inPrimaryKey: bool,
    defaultConstraint: Option<DefaultConstraint>,
    extendedProperties: seq<ExtendedProperty>)

  datatype Check = Check(name: string, text: string, urn: Urn)

  /** `name` is the referencing (child) column, `referencedColumn` the parent's. */
  datatype ForeignKeyColumn = ForeignKeyColumn(name: string, referencedColumn: string)

  /** An empty string stands for an empty or null schema or table name. */
  datatype ForeignKey = ForeignKey(
    name: string,
    isEnabled: bool,
    columns: seq<ForeignKeyColumn>,
    referencedTableSchema: string,
    referencedTable: string,
    urn: Urn)

  datatype IndexKeyType = DriNone | DriPrimaryKey | DriUniqueKey

  datatype Index = Index(name: string, keyType: IndexKeyType, indexedColumns: seq<string>, urn: Urn)

  datatype Trigger = Trigger(name: string, textBody: string, urn: Urn)

  datatype FullTextIndex = FullTextIndex(catalogName: string, indexedColumns: seq<string>, urn: Urn)

  datatype Table = Table(
    schema: string,
    name: string,
    columns: seq<Column>,
    checks: seq<Check>,
    foreignKeys: seq<ForeignKey>,
    indexes: seq<Index>,
    triggers: seq<Trigger>,
    fullTextIndex: Option<FullTextIndex>)
}
