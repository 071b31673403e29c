# Script generators for SQL Server tables, modelled in Dafny

This project models two of the repository's script generators.

- **InsertRandomDataInTableScripter** writes one T-SQL script. The script inserts `rowCount` rows of random data into a table. The generator first picks the insertable columns. These are columns that are not identity, computed, sparse or part of the primary key, and that the user has not excluded. It then finds the columns a CHECK constraint ties to JSON. It loads up to 100 parent values for every single-column foreign key. For each row and column it chooses a cell: a drawn NULL, a parent value, or a random value of the column's type. Finally it renders each value as a SQL literal. The statements sit inside a `BEGIN TRY … COMMIT` frame, optionally with `NOCHECK CONSTRAINT ALL` around them.
- **CreateColumnScripter** writes the `ALTER TABLE … ADD` statement for one column and one `sp_addextendedproperty` call per extended property of the column. It then collects the column's related objects in a fixed order: check, foreign-key, default and primary-key constraints, then indexes, triggers that name the column as a whole word, and the full-text catalog and index. These objects go to SMO's scripter.

The modules follow the program's structure:

| module | file | contents |
|---|---|---|
| `Nullable` | nullable.dfy | `Option` and `IntMax` |
| `Smo` | smo.dfy | the SMO objects the generators read (columns, data types, checks, foreign keys, indexes, triggers, the full-text index) |
| `Draws` | draws.dfy | `System.Random` as an abstract stream of draws; `Guid.NewGuid` as a second stream |
| `SqlText` | sql_text.dfy | ASCII case folding, `IndexOf`, quote doubling, decimal and hexadecimal text, and their readers |
| `SqlLiteral` | sql_literal.dfy | `Bracket`, `FullName`, `ToSqlLiteral` and readers that parse them back |
| `RandomText` | random_text.dfy | `RandomString` and `RandomBytesHex` |
| `Json` | json.dfy | `RandomJson` and a reader for the documents it writes |
| `ValueSynth` | value_synth.dfy | `NextLong`, `MaxLen`, the decimal bounds and `RandomValue` |
| `InsertScript` | insert_script.dfy | column selection, JSON detection, the foreign-key map and cache, cell choice, the INSERT text and `Run` |
| `ColumnScript` | column_script.dfy | the ALTER and extended-property scripts, the related-object collectors and `Run` |

Most texts the generators write have a reader in the model, and a round-trip lemma shows that the reader gives back what was written. This covers bracketed names, the INSERT head and its value list, SQL literals, the JSON documents, the ALTER statement with its type suffix, and the extended-property calls. It does not cover the script's opening and closing lines, the NOCHECK lines or formatter-rendered values. Randomness is a stream of natural numbers, so every generator is a pure function of its stream. The `Advanced` contracts state how many draws a call consumes; they are given for the stream's own draws, `RandomString`, `RandomBytesHex`, `NextLong` and `RandomDecimal`.

## Model

| member | source | states |
|---|---|---|
| SqlText.IndexOf | App/Scripters/InsertRandomDataInTableScripter.cs:333 | the result is non-negative exactly when the pattern occurs, and it is then the first occurrence |
| SqlText.IndexOfIgnoreCase | App/Scripters/InsertRandomDataInTableScripter.cs:333-338 | an OrdinalIgnoreCase search finds the pattern exactly when the upper-cased text contains the upper-cased pattern |
| SqlText.ReadDelimitedDouble | App/Scripters/InsertRandomDataInTableScripter.cs:283 | doubling every quote and closing the string can be undone: the reader returns the original text and the rest |
| SqlText.ReadIntRoundTrip | App/Scripters/InsertRandomDataInTableScripter.cs:272-275 | the invariant decimal rendering of any integer reads back as that integer |
| SqlText.ReadHexRoundTrip | App/Scripters/InsertRandomDataInTableScripter.cs:305 | the two upper-case hex digits per byte read back as the bytes |
| SqlLiteral.Bracket | App/Scripters/InsertRandomDataInTableScripter.cs:172 | a bracketed identifier starts with `[`, ends with `]` and reads back as the name, whatever `]` characters it holds |
| SqlLiteral.ReadIdentifierRoundTrip | App/Scripters/InsertRandomDataInTableScripter.cs:172 | a bracketed name followed by any text not starting with `]` reads back as the name and that text |
| SqlLiteral.ReadQualifiedNameRoundTrip | App/Scripters/InsertRandomDataInTableScripter.cs:171 | `[schema].[name]` reads back as the schema and the name |
| SqlLiteral.ReadNStringRoundTrip | App/Scripters/InsertRandomDataInTableScripter.cs:283 | an `N'…'` literal with doubled quotes reads back as the original string |
| SqlLiteral.ToSqlLiteral | App/Scripters/InsertRandomDataInTableScripter.cs:266-289 | null is `NULL`; integers read back as themselves; booleans as 1 or 0; strings as `N'…'` literals reading back as the string; other text passes through when it starts with 0x and is otherwise quoted |
| SqlLiteral.LiteralIsNullOnlyForNull | App/Scripters/InsertRandomDataInTableScripter.cs:268 | apart from formatter-rendered values, only the null value renders as `NULL` |
| RandomText.RandomString | App/Scripters/InsertRandomDataInTableScripter.cs:291-297 | the string has the asked length, uses only the 65-character alphabet and consumes one draw per character |
| RandomText.RandomStringNeedsNoEscaping | App/Scripters/InsertRandomDataInTableScripter.cs:283 | quoting a random string, for SQL or for JSON, leaves it unchanged |
| RandomText.RandomBytesHex | App/Scripters/InsertRandomDataInTableScripter.cs:299-307 | "0x" and 2·len upper-case hex digits that read back as the drawn bytes |
| Json.RandomJson | App/Scripters/InsertRandomDataInTableScripter.cs:344-385 | the text is a brace-delimited object that the reader parses into 3 to 7 well-formed members, and its brackets balance |
| Json.ReadObjectRoundTrip | App/Scripters/InsertRandomDataInTableScripter.cs:348-383 | an object of readable members reads back member for member |
| Json.ReadJsonStringRoundTrip | App/Scripters/InsertRandomDataInTableScripter.cs:358-360 | a string with its `"` escaped as `\"` reads back as the string |
| ValueSynth.ReduceInRange | App/Scripters/InsertRandomDataInTableScripter.cs:313-315 | the 64-bit reduction fails only for the full long range, and otherwise lands in [min, max] |
| ValueSynth.NextLongAsWritten | App/Scripters/InsertRandomDataInTableScripter.cs:309-316 | NextLong as written: a value in [min, max] for every range except the full long range, where the range wraps to 0 |
| ValueSynth.NextLong | App/Scripters/InsertRandomDataInTableScripter.cs:309-316 | the corrected NextLong returns a long in [min, max] for every ordered range, consumes 8 byte draws and agrees with the source everywhere else |
| ValueSynth.WholeBoundOverflow | App/Scripters/InsertRandomDataInTableScripter.cs:194 | `(decimal)Math.Pow(10, digits)` overflows exactly when digits ≥ 29 |
| ValueSynth.DecimalThirtyEightOverflows | App/Scripters/InsertRandomDataInTableScripter.cs:192-194 | a decimal(38,0) column gets scale 4 and 34 whole digits, so the source's bound overflows |
| ValueSynth.WholeBound | App/Scripters/InsertRandomDataInTableScripter.cs:194-195 | the corrected bound on the whole part lies between 9 and int.MaxValue and below 10^digits, and equals the source's bound wherever that one exists |
| ValueSynth.DigitCount | App/Scripters/InsertRandomDataInTableScripter.cs:194-195 | a whole part below 10^digits has at most `digits` decimal digits |
| ValueSynth.DecimalPrecision | App/Scripters/InsertRandomDataInTableScripter.cs:192 | a declared precision is kept; an undeclared one becomes 18 |
| ValueSynth.DecimalScale | App/Scripters/InsertRandomDataInTableScripter.cs:193 | a declared scale is kept; an undeclared one becomes min(precision, 4), so the scale is never 0 |
| ValueSynth.RoundDecimals | App/Scripters/InsertRandomDataInTableScripter.cs:196-199 | the corrected rounding keeps the scale wherever Math.Round accepts it and caps it at 28 decimals otherwise |
| ValueSynth.RandomDecimalThrows | App/Scripters/InsertRandomDataInTableScripter.cs:189-199 | the decimal branch as written throws exactly when the whole part has 29 or more digits or the scale exceeds 28, and otherwise agrees with the corrected branch value for value and draw for draw |
| ValueSynth.DecimalScaleThirtyThrows | App/Scripters/InsertRandomDataInTableScripter.cs:193-199 | a decimal(38,30) column passes the bound with 8 whole digits, but its rounding to 30 decimals throws |
| ValueSynth.MaxLen | App/Scripters/InsertRandomDataInTableScripter.cs:259-264 | the length is at least 1; a negative declared length (MAX) gives 256, and a positive one is kept |
| ValueSynth.RandomInteger | App/Scripters/InsertRandomDataInTableScripter.cs:183-187 | bit, tinyint, smallint (upper bound exclusive), int (half range) and bigint (±9·10^9) values lie in their declared ranges |
| ValueSynth.RandomDecimal | App/Scripters/InsertRandomDataInTableScripter.cs:189-200 | the corrected branch rounds to the normalised scale (at most 28), draws a whole part with at most WholeDigits digits, and consumes exactly three draws |
| ValueSynth.RandomTemporal | App/Scripters/InsertRandomDataInTableScripter.cs:210-223 | date, datetime, offset (within ±12 hours) and time-of-day (within a day) values are admissible for their type |
| ValueSynth.RandomChars | App/Scripters/InsertRandomDataInTableScripter.cs:228-236 | a character value has between 1 and min(32, MaxLen) alphabet characters |
| ValueSynth.RandomBinary | App/Scripters/InsertRandomDataInTableScripter.cs:242-249 | a binary value is the text "0x…" of min(MaxLen, 16) drawn bytes |
| ValueSynth.RandomNote | App/Scripters/InsertRandomDataInTableScripter.cs:251-252 | an xml value is `<note id="…"><body>…</body></note>` with a 24-character alphabet body |
| ValueSynth.RandomLongText | App/Scripters/InsertRandomDataInTableScripter.cs:238-240 | a text value has 64 to 255 alphabet characters |
| ValueSynth.RandomValue | App/Scripters/InsertRandomDataInTableScripter.cs:174-257 | the value is never null; a JSON column gets a readable, well-formed JSON object; any other column gets a value admissible for its type |
| ValueSynth.BinaryLiteralIsQuoted | App/Scripters/InsertRandomDataInTableScripter.cs:283 | a binary column's value is a string, so its literal is `N'0x…'`, never bare hex |
| InsertScript.InsertableColumns | App/Scripters/InsertRandomDataInTableScripter.cs:72-76 | a column is kept exactly when it is not identity, computed, sparse or in the primary key and its case-folded name is not excluded |
| InsertScript.InsertableColumnsAppend | App/Scripters/InsertRandomDataInTableScripter.cs:72-76 | the selection keeps table order: filtering a concatenation is the concatenation of the filtered parts |
| InsertScript.InsertableColumnsKeepsAll | App/Scripters/InsertRandomDataInTableScripter.cs:72-76 | when every column is insertable and none is excluded, the selection is the table's columns unchanged |
| InsertScript.IsJsonConstrained | App/Scripters/InsertRandomDataInTableScripter.cs:326-341 | the scan answers true exactly when some check names the bracketed column and calls ISJSON, JSON_VALUE, JSON_QUERY or OPENJSON, ignoring case |
| InsertScript.CreateFKMapLastWins | App/Scripters/InsertRandomDataInTableScripter.cs:422-446 | every enabled single-column foreign key with names present has its child column in the map, and each key maps to the parent of the last such key |
| InsertScript.LoadFkCache | App/Scripters/InsertRandomDataInTableScripter.cs:387-419 | the cache has the map's keys, at most 100 values per key, and only non-null values of the parent column |
| InsertScript.ChooseCell | App/Scripters/InsertRandomDataInTableScripter.cs:110-136 | NULL is drawn only for nullable columns with a positive probability, and always at probability 1; a cached column gets NULL or a parent value; any other column gets a non-null admissible value |
| InsertScript.RowCells | App/Scripters/InsertRandomDataInTableScripter.cs:107-138 | one cell per insertable column, in column order, each meeting ChooseCell's guarantee for its column: NULL drawn only when the column is nullable and the probability is positive, a parent value for a cached column, otherwise a JSON object or an admissible value |
| InsertScript.ReadNamesRoundTrip | App/Scripters/InsertRandomDataInTableScripter.cs:114-117 | the name list (bracketed names, each ending its line, separated by ", ") reads back as the names |
| InsertScript.ReadInsertRoundTrip | App/Scripters/InsertRandomDataInTableScripter.cs:140-146 | an INSERT statement reads back as its schema, table and column names, followed by the value list |
| InsertScript.ReadValuesRoundTrip | App/Scripters/InsertRandomDataInTableScripter.cs:114-135 | a value list of NULL, integer and string cells reads back as the cells' values in order, whether a NULL was drawn without a line break or rendered with one |
| InsertScript.InsertValuesMatchNames | App/Scripters/InsertRandomDataInTableScripter.cs:107-146 | an INSERT lists one value per name in the same column order |
| InsertScript.Statements | App/Scripters/InsertRandomDataInTableScripter.cs:101-147 | exactly n statements, each the INSERT of a row whose cells meet ChooseCell's guarantee for their columns |
| InsertScript.StatementReadsBack | App/Scripters/InsertRandomDataInTableScripter.cs:140-146 | every such statement reads back as an INSERT into the table under the insertable column names |
| InsertScript.ScriptIsNotMessage | App/Scripters/InsertRandomDataInTableScripter.cs:84-89 | no generated script can be mistaken for the "no insertable columns" message |
| InsertScript.Run | App/Scripters/InsertRandomDataInTableScripter.cs:68-163 | one result: the message exactly when no column is insertable, and otherwise the opening lines, exactly max(rowCount, 0) INSERT statements over the insertable columns whose cells meet ChooseCell's guarantee under the loaded parent values and JSON columns, and the closing lines |
| ColumnScript.SuffixText | App/Scripters/CreateColumnScripter.cs:133-136 | each suffix (none, `(MAX)`, `(n)`, `(p,s)`) is empty exactly when there is none, is otherwise parenthesised, and reads back as itself |
| ColumnScript.TypeDecl | App/Scripters/CreateColumnScripter.cs:131-136 | the declaration is the type name followed by a suffix that reads back as `(MAX)` or `(n)` for varchar, `(p,s)` for decimal, and nothing for any other type |
| ColumnScript.KnownTypesNeverEndInNot | App/Scripters/CreateColumnScripter.cs:131-140 | no type of the enumeration has a declaration ending in the word NOT |
| ColumnScript.AlterScript | App/Scripters/CreateColumnScripter.cs:138-141 | the statement ends with ` NOT NULL;` and the closing line for a non-nullable column; a nullable column's ends with ` NULL;` and, unless its type declaration ends in NOT, not with ` NOT NULL;` |
| ColumnScript.AlterRoundTrip | App/Scripters/CreateColumnScripter.cs:138-141 | the ALTER statement reads back as the schema, table and column names and the type and nullability tail |
| ColumnScript.ExtPropRoundTrip | App/Scripters/CreateColumnScripter.cs:79-89 | an `sp_addextendedproperty` call reads back as the property's name and value, with a missing value read as empty |
| ColumnScript.ExtPropScripts | App/Scripters/CreateColumnScripter.cs:75-91 | one call per extended property, in order, each reading back as that property |
| ColumnScript.Select | App/Scripters/CreateColumnScripter.cs:149-195 | a selector keeps exactly the URNs of the kept objects |
| ColumnScript.SelectOne | App/Scripters/CreateColumnScripter.cs:108-122 | one object contributes its URN exactly once when kept and nothing otherwise, as the `break` after the first matching column gives (:118, :166, :191) |
| ColumnScript.SelectAppend | App/Scripters/CreateColumnScripter.cs:158-195 | selection distributes over concatenation, so the foreign-key, default, primary-key and index scans yield one URN per kept object, in table order |
| ColumnScript.NamesColumnSpec | App/Scripters/CreateColumnScripter.cs:160-168 | the inner loop answers true exactly when some column of the list has the name |
| ColumnScript.CheckUrns | App/Scripters/CreateColumnScripter.cs:149-156 | a check is collected exactly when its text contains `[name]`, case-sensitively and without escaping |
| ColumnScript.ForeignKeyUrns | App/Scripters/CreateColumnScripter.cs:158-169 | a foreign key is collected exactly when one of its columns has the name |
| ColumnScript.DefaultUrns | App/Scripters/CreateColumnScripter.cs:171-178 | a default constraint is collected exactly when its column has the name |
| ColumnScript.PrimaryKeyUrns | App/Scripters/CreateColumnScripter.cs:181-195 | an index is collected exactly when it is a DriPrimaryKey index over the column |
| ColumnScript.IndexUrns | App/Scripters/CreateColumnScripter.cs:108-122 | an index is collected exactly when one of its columns has the name |
| ColumnScript.IsMatch | App/Scripters/CreateColumnScripter.cs:99 | the position-by-position scan finds a match exactly when the name occurs, ignoring case, between word boundaries |
| ColumnScript.TriggerUrns | App/Scripters/CreateColumnScripter.cs:94-105 | a trigger is collected exactly when its body names the column as a whole word |
| ColumnScript.FullTextUrns | App/Scripters/CreateColumnScripter.cs:199-231 | at most two URNs: nothing unless the full-text index covers the column; then the index last, preceded by its catalog exactly when the catalog is named and found |
| ColumnScript.RelatedUrnsSpec | App/Scripters/CreateColumnScripter.cs:49-59 | a URN is collected exactly when the object is a related check, foreign key, default, primary key, index, trigger, full-text catalog or index |
| ColumnScript.PrimaryKeyCollectedTwice | App/Scripters/CreateColumnScripter.cs:51-53 | a primary key over the column is collected at least twice, as a constraint and as an index |
| ColumnScript.Run | App/Scripters/CreateColumnScripter.cs:44-73 | the ALTER statement first, then one call per extended property reading back as it, then the scripts of exactly the related objects |

## Left out

- Database access (InsertRandomDataInTableScripter.cs:393-418): the `SELECT TOP (100) … ORDER BY NEWID()` query becomes a `parentRows` parameter. The model keeps only the 100-row cap and the NOT NULL filter.
- SMO's `Scripter.Script` (CreateColumnScripter.cs:62) is an uninterpreted parameter that maps URNs to scripts.
- The full-text catalog lookup `db.FullTextCatalogs[…]` (CreateColumnScripter.cs:224) is a map parameter.
- SMO's name lookups (`IndexedColumns.Contains` at CreateColumnScripter.cs:211 and `FullTextCatalogs[…]` at :224) follow the database collation; the model compares names exactly.
- Floating point is not modelled: Float and Real (:206-208), Money (:202-204), the rounding of the decimal fraction (:195-199), `RandomDate` (:318-323) and the JSON double (:366). These values are opaque, and their text comes from a formatter parameter. The JSON double is a number token.
- Clocks (`DateTime.Today` at :211 and `DateTime.UtcNow` at :216 and :219), `Guid.NewGuid` (:226, :252) and .NET's formatting of numbers and dates (:276-282) are parameters or opaque values.
- The algorithm of `System.Random` is an abstract stream of draws. Only the ranges and the number of draws consumed are modelled.
- Console output in both generators is left out.
- OrdinalIgnoreCase and `RegexOptions.IgnoreCase` compare by ASCII upper-case folding only.
- The regular-expression word characters are ASCII letters, digits and `_`. .NET uses the Unicode classes.
- A line break is `\n`.
- The constructors, `IScripter.Create`, `OptionBuilder`, `StaticHelper`, `DropColumnScripter`, `CreateTableScripter`, `Program.cs`, `AppSettings` and `Constants` are not part of this model.
- ColumnScript.AlterRoundTrip: requires the names to hold no `]`. The source writes them inside brackets without doubling it, so such a name does not read back.
- InsertScript.InsertValuesMatchNames: covers only rows whose values are NULL, integers or strings. Formatter-rendered values (decimals, dates, GUIDs) have no reader.
- InsertScript.Run: a statement's values are stated through ChooseCell's guarantee on each cell, not as literal text, because decimals, dates and GUIDs render through the formatter.
- ValueSynth.RandomDecimal: RandomValue, ChooseCell and Run use the corrected branch, so the two exceptions of the branch as written are modelled only by RandomDecimalAsWritten (see Findings).
- ColumnScript.AlterScript: a nullable column whose type is outside the enumeration and whose name is `NOT` or ends in ` NOT` gets a clause that reads as NOT NULL; the contract leaves that case out.
- Json.RandomJson: the integers are written in invariant form. `StringBuilder.Append(int)` (:363) uses the current culture, which on some cultures writes a minus sign other than `-`.
- ValueSynth.RandomTemporal: the admissible date range is not stated, because dates are opaque.

## Findings

| source | as written | input that shows it | evidently intended | confidence | as-written member | corrected member |
|---|---|---|---|---|---|---|
| App/Scripters/InsertRandomDataInTableScripter.cs:194 | `(decimal)Math.Pow(10, Math.Max(1, precision - scale))` throws OverflowException once the whole part has 29 or more digits | a `decimal(38,0)` column: scale 0 becomes 4, giving 34 whole digits | a bound on the whole part clamped to int.MaxValue, as the next line already does | not executed | ValueSynth.WholeBoundOverflow | ValueSynth.WholeBound |
| App/Scripters/InsertRandomDataInTableScripter.cs:313-315 | `maxInclusive - minInclusive + 1` wraps to 0 for the full long range, so `val % range` divides by zero | `NextLong(rng, long.MinValue, long.MaxValue)` (latent: the generator calls it with ±9·10^9) | a value in [min, max] for every ordered range | not executed | ValueSynth.NextLongAsWritten | ValueSynth.NextLong |
| App/Scripters/InsertRandomDataInTableScripter.cs:196-199 | `Math.Round(…, scale)` throws ArgumentOutOfRangeException when the scale exceeds 28, the most decimals Math.Round accepts | a `decimal(38,30)` column: 8 whole digits pass the bound, then rounding to 30 decimals throws | rounding to min(scale, 28) decimals, the most a .NET decimal holds | not executed | ValueSynth.DecimalScaleThirtyThrows | ValueSynth.RandomDecimal |
