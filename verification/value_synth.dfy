/**
 * RandomValue: the value the insert scripter draws for one column, chosen by
 * the column's SQL type, with the helpers it draws through (MaxLen, NextLong
 * and the bound on a decimal's whole part). Admissible states, independently
 * of the drawing, which values each type may receive.
 */
module ValueSynth {
  import opened Nullable
  import opened SqlText
  import opened Draws
  import opened Smo
  import opened SqlLiteral
  import opened RandomText
  import Json

  function Min(a: int, b: int): int
  {
    if a < b then a else b
  }

  function Max(a: int, b: int): int
  {
    if a < b then b else a
  }

  function Abs(a: int): nat
  {
    if a < 0 then -a else a
  }

  // ---------------------------------------------------------------------------
  // 64-bit arithmetic, as C# performs it in an unchecked context

  const LongMin: int := -0x8000_0000_0000_0000
  const LongMax: int := 0x7FFF_FFFF_FFFF_FFFF
  const TwoTo63: int := 0x8000_0000_0000_0000
  const TwoTo64: int := 0x1_0000_0000_0000_0000

  predicate IsLong(x: int)
  {
    LongMin <= x <= LongMax
  }

  /** The long an unbounded result wraps around to. */
  function Wrap64(x: int): (r: int)
    ensures IsLong(r)
    ensures IsLong(x) ==> r == x
    ensures LongMax < x <= LongMax + TwoTo64 ==> r == x - TwoTo64
  {
    (x - LongMin) % TwoTo64 + LongMin
  }

  /** C#'s `%`: the remainder has the dividend's sign and is smaller than the divisor in magnitude. */
  function CRem(a: int, b: int): (r: int)
    requires b != 0
    ensures Abs(r) < Abs(b)
    ensures 0 <= a ==> 0 <= r
  {
    var m := Abs(a) % Abs(b);
    if a < 0 then -m else m
  }

  /** The unsigned value of bytes read least significant first. */
  function LittleEndian(bs: seq<byte>): nat
  {
    if bs == [] then 0 else bs[0] as int + 256 * LittleEndian(bs[1..])
  }

  /** `BitConverter.ToInt64(buf, 0) & long.MaxValue`: the low 63 bits of the word. */
  function Masked63(bs: seq<byte>): (r: int)
    ensures 0 <= r < TwoTo63
  {
    Wrap64(LittleEndian(bs)) % TwoTo63
  }

  /** `min + (val % range)` with `range = max - min + 1` in 64 bits; None when the range wraps to 0. */
  function Reduce(v: int, lo: int, hi: int): Option<int>
  {
    var range := Wrap64(hi - lo + 1);
    if range == 0 then None else Some(Wrap64(lo + CRem(v, range)))
  }

  /**
   * For lo <= hi the 64-bit range is 0 exactly for the full span of long, and
   * otherwise a non-negative 63-bit value reduces into [lo, hi].
   */
  lemma {:induction false} ReduceInRange(v: int, lo: int, hi: int)
    requires IsLong(lo) && IsLong(hi)
    requires 0 <= v < TwoTo63
    ensures lo <= hi ==> (Reduce(v, lo, hi).None? <==> lo == LongMin && hi == LongMax)
    ensures lo <= hi && Reduce(v, lo, hi).Some? ==> lo <= Reduce(v, lo, hi).value <= hi
  {
    if lo > hi {
      return;
    }
    var n := hi - lo + 1;
    assert 1 <= n <= TwoTo64;
    var range := Wrap64(n);
    if n <= LongMax {
      assert range == n;
      var m := CRem(v, range);
      assert 0 <= m < n;
      assert IsLong(lo + m);
    } else if n < TwoTo64 {
      assert range == n - TwoTo64;
      assert range != 0 && Abs(range) <= TwoTo63 <= n;
      var m := CRem(v, range);
      assert 0 <= m < n;
      assert IsLong(lo + m);
    } else {
      assert range == 0;
    }
  }

  /**
   * `NextLong(rng, min, max)` as written: eight drawn bytes, reduced by the
   * wrapped range. None stands for the DivideByZeroException `val % range`
   * throws when the range wraps around to 0.
   */
  function NextLongAsWritten(rng: Rng, lo: int, hi: int): (r: (Option<int>, Rng))
    requires IsLong(lo) && IsLong(hi)
    ensures lo <= hi ==> (r.0.None? <==> lo == LongMin && hi == LongMax)
    ensures lo <= hi && r.0.Some? ==> lo <= r.0.value <= hi
    ensures Advanced(rng, r.1, 8)
  {
    var (buf, rng') := NextBytes(rng, 8);
    ReduceInRange(Masked63(buf), lo, hi);
    (Reduce(Masked63(buf), lo, hi), rng')
  }

  /** The full span of long breaks the as-written NextLong. */
  lemma NextLongFullRangeThrows(rng: Rng)
    ensures NextLongAsWritten(rng, LongMin, LongMax).0 == None
  {
  }

  /**
   * NextLong as intended: when the range wraps to 0 every long is in range,
   * so the drawn word is returned whole. Elsewhere it agrees with the code.
   */
  function NextLong(rng: Rng, lo: int, hi: int): (r: (int, Rng))
    requires IsLong(lo) && IsLong(hi)
    ensures IsLong(r.0)
    ensures lo <= hi ==> lo <= r.0 <= hi
    ensures Advanced(rng, r.1, 8)
    ensures lo <= hi && !(lo == LongMin && hi == LongMax) ==> NextLongAsWritten(rng, lo, hi) == (Some(r.0), r.1)
  {
    var (buf, rng') := NextBytes(rng, 8);
    ReduceInRange(Masked63(buf), lo, hi);
    match Reduce(Masked63(buf), lo, hi)
    case None => (Wrap64(LittleEndian(buf)), rng')
    case Some(x) => (x, rng')
  }

  // ---------------------------------------------------------------------------
  // The decimal branch's precision, scale and whole-part bound

  /** The declared precision, or 18 when none is declared. */
  function DecimalPrecision(dt: DataType): (p: int)
    ensures p >= 1
    ensures dt.numericPrecision > 0 ==> p == dt.numericPrecision
    ensures dt.numericPrecision <= 0 ==> p == 18
  {
    if dt.numericPrecision > 0 then dt.numericPrecision else 18
  }

  /** The declared scale, or min(precision, 4) when it is 0: the scale is never 0. */
  function DecimalScale(dt: DataType): (s: int)
    ensures 1 <= s
    ensures dt.numericScale > 0 ==> s == dt.numericScale
    ensures dt.numericScale <= 0 ==> s == Min(DecimalPrecision(dt), 4) && s <= 4
  {
    if dt.numericScale > 0 then dt.numericScale else Min(DecimalPrecision(dt), 4)
  }

  /** The number of whole digits the bound allows: max(1, precision - scale). */
  function WholeDigits(dt: DataType): (d: nat)
    ensures d >= 1
  {
    Max(1, DecimalPrecision(dt) - DecimalScale(dt))
  }

  function Pow10(n: nat): (r: nat)
    ensures r >= 1
  {
    if n == 0 then 1 else 10 * Pow10(n - 1)
  }

  /** decimal.MaxValue, 2^96 - 1. */
  const DecimalMaxValue: int := 79_228_162_514_264_337_593_543_950_335

  /**
   * The whole-part bound as written: `(int)Math.Min((decimal)Math.Pow(10, d) - 1, int.MaxValue)`.
   * None stands for the OverflowException of the cast to decimal, which the
   * power exceeds from 29 digits on.
   */
  function WholeBoundAsWritten(digits: nat): Option<int>
  {
    if Pow10(digits) > DecimalMaxValue then None else Some(Min(Pow10(digits) - 1, IntMax))
  }

  lemma {:induction false} Pow10Monotone(a: nat, b: nat)
    requires a <= b
    ensures Pow10(a) <= Pow10(b)
    decreases b
  {
    if a < b {
      Pow10Monotone(a, b - 1);
    }
  }

  lemma {:induction false} Pow10Add(a: nat, b: nat)
    ensures Pow10(a + b) == Pow10(a) * Pow10(b)
    decreases b
  {
    if b > 0 {
      Pow10Add(a, b - 1);
    }
  }

  /** The as-written bound fails exactly from 29 whole digits on. */
  lemma WholeBoundOverflow(digits: nat)
    ensures WholeBoundAsWritten(digits).None? <==> digits >= 29
  {
    assert Pow10(7) == 10_000_000;
    Pow10Add(7, 7);
    Pow10Add(14, 14);
    Pow10Add(28, 1);
    assert Pow10(28) == 10_000_000_000_000_000_000_000_000_000;
    assert Pow10(29) == 100_000_000_000_000_000_000_000_000_000;
    if digits >= 29 {
      Pow10Monotone(29, digits);
    } else {
      Pow10Monotone(digits, 28);
    }
  }

  /** A decimal(38,0) column: the scale becomes 4, leaving 34 whole digits, and the bound throws. */
  lemma DecimalThirtyEightOverflows()
    ensures WholeDigits(DataType(Decimal, 17, 38, 0)) == 34
    ensures WholeBoundAsWritten(WholeDigits(DataType(Decimal, 17, 38, 0))).None?
  {
    WholeBoundOverflow(34);
  }

  /** The most decimals Math.Round accepts; a larger count throws ArgumentOutOfRangeException. */
  const MaxRoundDecimals: nat := 28

  /**
   * The decimals the value is rounded to as intended: the scale, capped at the
   * 28 decimals a .NET decimal can hold.
   */
  function RoundDecimals(dt: DataType): (r: nat)
    ensures 1 <= r <= MaxRoundDecimals
    ensures r <= DecimalScale(dt)
    ensures DecimalScale(dt) <= MaxRoundDecimals ==> r == DecimalScale(dt)
  {
    Min(DecimalScale(dt), MaxRoundDecimals)
  }

  /** The whole-part bound as intended: 10^d - 1 capped at int.MaxValue, computed without overflow. */
  function WholeBound(digits: nat): (r: int)
    requires digits >= 1
    ensures 9 <= r <= IntMax
    ensures r < Pow10(digits)
    ensures digits < 29 ==> WholeBoundAsWritten(digits) == Some(r)
  {
    Pow10Monotone(1, digits);
    WholeBoundOverflow(digits);
    Min(Pow10(digits) - 1, IntMax)
  }

  /** A number below 10^d is written with at most d digits. */
  lemma {:induction false} DigitCount(n: nat, d: nat)
    requires d >= 1 && n < Pow10(d)
    ensures |NatToString(n)| <= d
    decreases n
  {
    if n >= 10 {
      assert d >= 2;
      DigitCount(n / 10, d - 1);
    }
  }

  // ---------------------------------------------------------------------------
  // Lengths and the admissible values of each type

  /** `MaxLen(col)`: the declared maximum length, 256 for (MAX), and at least 1. */
  function MaxLen(dt: DataType): (r: int)
    ensures r >= 1
    ensures dt.maximumLength < 0 ==> r == 256
    ensures dt.maximumLength >= 1 ==> r == dt.maximumLength
  {
    var l := if dt.maximumLength < 0 then 256 else dt.maximumLength;
    Max(1, l)
  }

  predicate IsCharType(t: SqlDataType)
  {
    t == NVarChar || t == VarChar || t == NChar || t == Char
  }

  predicate IsBinaryType(t: SqlDataType)
  {
    t == VarBinary || t == Binary || t == Image
  }

  /** The Xml branch's shape: a note element whose body holds 24 alphabet characters. */
  predicate IsNote(s: string)
  {
    && |s| >= 56
    && s[..10] == "<note id=\""
    && s[|s| - 46..|s| - 38] == "\"><body>"
    && InAlphabet(s[|s| - 38..|s| - 14])
    && s[|s| - 14..] == "</body></note>"
  }

  /** The hex text of `len` bytes: "0x" and two upper-case hex digits per byte. */
  predicate IsHexOfLength(s: string, len: nat)
  {
    && |s| == 2 + 2 * len && s[..2] == "0x"
    && (forall i :: 2 <= i < |s| ==> IsHexDigit(s[i]))
  }

  /** The values a column of type `dt` may receive when it is not JSON-constrained. */
  predicate Admissible(dt: DataType, v: Value)
  {
    match dt.sqlType
    case Bit => v.Integer? && 0 <= v.i <= 1
    case TinyInt => v.Integer? && 0 <= v.i <= 255
    case SmallInt => v.Integer? && -32768 <= v.i <= 32766
    case Int => v.Integer? && -0x4000_0000 <= v.i <= 0x3FFF_FFFE
    case BigInt => v.Integer? && -9_000_000_000 <= v.i <= 9_000_000_000
    case Decimal => AdmissibleDecimal(dt, v)
    case Numeric => AdmissibleDecimal(dt, v)
    case Money => v.Formatted? && v.o.MoneyValue? && v.o.sample < IntMax
    case SmallMoney => v.Formatted? && v.o.MoneyValue? && v.o.sample < IntMax
    case Float => v.Formatted? && v.o.DoubleValue? && v.o.magnitudeSample < IntMax
    case Real => v.Formatted? && v.o.DoubleValue? && v.o.magnitudeSample < IntMax
    case Date => v.Formatted? && v.o.DateValue? && v.o.sample < IntMax
    case DateTime => AdmissibleDateTime(v)
    case SmallDateTime => AdmissibleDateTime(v)
    case DateTime2 => AdmissibleDateTime(v)
    case DateTimeOffset =>
      v.Formatted? && v.o.DateTimeOffsetValue? && v.o.sample < IntMax && -12 <= v.o.offsetHours <= 12
    case Time => v.Formatted? && v.o.TimeSpanValue? && 0 <= v.o.totalSeconds < 24 * 60 * 60
    case UniqueIdentifier => v.Formatted? && v.o.GuidValue?
    case NVarChar => AdmissibleChars(dt, v)
    case VarChar => AdmissibleChars(dt, v)
    case NChar => AdmissibleChars(dt, v)
    case Char => AdmissibleChars(dt, v)
    case Text => v.Str? && 64 <= |v.s| <= 255 && InAlphabet(v.s)
    case NText => v.Str? && 64 <= |v.s| <= 255 && InAlphabet(v.s)
    case VarBinary => v.Str? && IsHexOfLength(v.s, Min(MaxLen(dt), 16))
    case Binary => v.Str? && IsHexOfLength(v.s, Min(MaxLen(dt), 16))
    case Image => v.Str? && IsHexOfLength(v.s, Min(MaxLen(dt), 16))
    case Xml => v.Str? && IsNote(v.s)
    case OtherType(_) => v.Str? && |v.s| == 12 && InAlphabet(v.s)
  }

  /** A decimal at the effective scale whose whole part has at most max(1, p - s) digits. */
  predicate AdmissibleDecimal(dt: DataType, v: Value)
  {
    && v.Formatted? && v.o.DecimalValue?
    && v.o.scale == RoundDecimals(dt)
    && |NatToString(v.o.whole)| <= WholeDigits(dt)
    && v.o.fractionSample < IntMax
  }

  predicate AdmissibleDateTime(v: Value)
  {
    v.Formatted? && v.o.DateTimeValue? && v.o.sample < IntMax
  }

  /** Between 1 and min(32, MaxLen) alphabet characters. */
  predicate AdmissibleChars(dt: DataType, v: Value)
  {
    v.Str? && 1 <= |v.s| <= Min(32, MaxLen(dt)) && InAlphabet(v.s)
  }

  // ---------------------------------------------------------------------------
  // Drawing, branch by branch

  /** The integer branches: Bit, TinyInt, SmallInt, Int and BigInt. */
  function RandomInteger(dt: DataType, rng: Rng): (r: (Value, Rng))
    requires dt.sqlType in {Bit, TinyInt, SmallInt, Int, BigInt}
    ensures Admissible(dt, r.0)
  {
    match dt.sqlType
    case Bit => var (i, rng') := NextIn(rng, 0, 2); (Integer(i), rng')
    case TinyInt => var (i, rng') := NextIn(rng, 0, 256); (Integer(i), rng')
    case SmallInt => var (i, rng') := NextIn(rng, -32768, 32767); (Integer(i), rng')
    case Int => var (i, rng') := NextIn(rng, -0x4000_0000, 0x3FFF_FFFF); (Integer(i), rng')
    case BigInt => var (i, rng') := NextLong(rng, -9_000_000_000, 9_000_000_000); (Integer(i), rng')
  }

  /**
   * The Decimal and Numeric branch as written. None stands for an exception:
   * the bound's OverflowException from 29 whole digits on, and Math.Round's
   * ArgumentOutOfRangeException for a scale above 28, raised after the whole
   * part and the fraction sample are drawn.
   */
  function RandomDecimalAsWritten(dt: DataType, rng: Rng): Option<(Value, Rng)>
  {
    var scale := DecimalScale(dt);
    match WholeBoundAsWritten(WholeDigits(dt))
    case None => None
    case Some(bound) =>
      var (whole, rng1) := NextIn(rng, 0, bound);
      var (frac, rng2) := NextSample(rng1);
      if scale > MaxRoundDecimals then None
      else
        var (sign, rng3) := NextSample(rng2);
        Some((Formatted(DecimalValue(whole, scale, frac, Unit(sign) < 0.5)), rng3))
  }

  /**
   * The as-written branch throws exactly for more than 28 whole digits or
   * decimals, and otherwise agrees with the intended one.
   */
  lemma RandomDecimalThrows(dt: DataType, rng: Rng)
    requires dt.sqlType == Decimal || dt.sqlType == Numeric
    ensures RandomDecimalAsWritten(dt, rng).None? <==> WholeDigits(dt) >= 29 || DecimalScale(dt) > MaxRoundDecimals
    ensures RandomDecimalAsWritten(dt, rng).Some? ==> RandomDecimalAsWritten(dt, rng).value == RandomDecimal(dt, rng)
  {
    WholeBoundOverflow(WholeDigits(dt));
  }

  /** A decimal(38,30) column: 8 whole digits pass the bound, but rounding to 30 decimals throws. */
  lemma DecimalScaleThirtyThrows(rng: Rng)
    ensures WholeDigits(DataType(Decimal, 17, 38, 30)) == 8
    ensures RandomDecimalAsWritten(DataType(Decimal, 17, 38, 30), rng).None?
  {
    WholeBoundOverflow(8);
  }

  /**
   * The Decimal and Numeric branch as intended: the whole part below the
   * bound, then a fraction sample, then a sign sample (below one half means
   * negative), rounded to at most 28 decimals.
   */
  function RandomDecimal(dt: DataType, rng: Rng): (r: (Value, Rng))
    requires dt.sqlType == Decimal || dt.sqlType == Numeric
    ensures Admissible(dt, r.0)
    ensures Advanced(rng, r.1, 3)
  {
    var scale := RoundDecimals(dt);
    var bound := WholeBound(WholeDigits(dt));
    var (whole, rng1) := NextIn(rng, 0, bound);
    DigitCount(whole, WholeDigits(dt));
    // the scale is never 0, so the fraction's sample is always drawn
    var (frac, rng2) := NextSample(rng1);
    var (sign, rng3) := NextSample(rng2);
    (Formatted(DecimalValue(whole, scale, frac, Unit(sign) < 0.5)), rng3)
  }

  /** The Date, DateTime, DateTimeOffset and Time branches. */
  function RandomTemporal(dt: DataType, rng: Rng): (r: (Value, Rng))
    requires dt.sqlType in {Date, DateTime, SmallDateTime, DateTime2, DateTimeOffset, Time}
    ensures Admissible(dt, r.0)
  {
    match dt.sqlType
    case Date => var (k, rng') := NextSample(rng); (Formatted(DateValue(k)), rng')
    case DateTime => var (k, rng') := NextSample(rng); (Formatted(DateTimeValue(k)), rng')
    case SmallDateTime => var (k, rng') := NextSample(rng); (Formatted(DateTimeValue(k)), rng')
    case DateTime2 => var (k, rng') := NextSample(rng); (Formatted(DateTimeValue(k)), rng')
    case DateTimeOffset =>
      var (k, rng1) := NextSample(rng);
      var (h, rng2) := NextIn(rng1, -12, 13);
      (Formatted(DateTimeOffsetValue(k, h)), rng2)
    case Time =>
      var (m, rng1) := NextIn(rng, 0, 24 * 60);
      var (s, rng2) := NextIn(rng1, 0, 60);
      (Formatted(TimeSpanValue(m * 60 + s)), rng2)
  }

  /** The character branches: between 1 and min(32, MaxLen) characters. */
  function RandomChars(dt: DataType, rng: Rng): (r: (Value, Rng))
    ensures AdmissibleChars(dt, r.0)
  {
    var maxLen := MaxLen(dt);
    var (k, rng1) := Next(rng, Min(32, maxLen));
    var len := Max(1, Min(maxLen, 1 + k));
    var (s, rng2) := RandomString(rng1, len);
    (Str(s), rng2)
  }

  /** The binary branches: min(MaxLen, 16) random bytes as hex text. */
  function RandomBinary(dt: DataType, rng: Rng): (r: (Value, Rng))
    ensures r.0.Str? && IsHexOfLength(r.0.s, Min(MaxLen(dt), 16))
    ensures IsHexLiteralOf(r.0.s, NextBytes(rng, Min(MaxLen(dt), 16)).0)
  {
    var maxLen := MaxLen(dt);
    var len := Min(if maxLen > 0 then maxLen else 16, 16);
    var (s, rng') := RandomBytesHex(rng, len);
    (Str(s), rng')
  }

  /** The Xml branch: a GUID first, then 24 random characters for the body. */
  function RandomNote(rng: Rng): (r: (Value, Rng))
    ensures r.0.Str? && IsNote(r.0.s)
  {
    var (guid, rng1) := NewGuid(rng);
    var (body, rng2) := RandomString(rng1, 24);
    var s := "<note id=\"" + guid + "\"><body>" + body + "</body></note>";
    NoteShape(guid, body);
    (Str(s), rng2)
  }

  lemma NoteShape(guid: string, body: string)
    requires |body| == 24 && InAlphabet(body)
    ensures IsNote("<note id=\"" + guid + "\"><body>" + body + "</body></note>")
  {
    var s := "<note id=\"" + guid + "\"><body>" + body + "</body></note>";
    var n := |s|;
    assert n == 56 + |guid|;
    assert s[..10] == "<note id=\"";
    assert s[n - 46..n - 38] == "\"><body>";
    assert s[n - 38..n - 14] == body;
    assert s[n - 14..] == "</body></note>";
  }

  /**
   * `RandomValue(col, rng, jsonCols)`: a JSON document for a JSON-constrained
   * column, and otherwise a value admissible for the column's type. It is
   * never the null value.
   */
  function RandomValue(col: Column, jsonCols: set<string>, rng: Rng): (r: (Value, Rng))
    ensures r.0 != Null
    ensures FoldKey(col.name) in jsonCols ==>
      r.0.Str? && Json.ReadObject(r.0.s).Some? && Json.WellFormedDocument(Json.ReadObject(r.0.s).value)
    ensures FoldKey(col.name) !in jsonCols ==> Admissible(col.dataType, r.0)
  {
    if FoldKey(col.name) in jsonCols then
      var (s, rng') := Json.RandomJson(rng);
      (Str(s), rng')
    else
      var dt := col.dataType;
      match dt.sqlType
      case Bit => RandomInteger(dt, rng)
      case TinyInt => RandomInteger(dt, rng)
      case SmallInt => RandomInteger(dt, rng)
      case Int => RandomInteger(dt, rng)
      case BigInt => RandomInteger(dt, rng)
      case Decimal => RandomDecimal(dt, rng)
      case Numeric => RandomDecimal(dt, rng)
      case Money => var (k, rng') := NextSample(rng); (Formatted(MoneyValue(k)), rng')
      case SmallMoney => var (k, rng') := NextSample(rng); (Formatted(MoneyValue(k)), rng')
      case Float => RandomDouble(rng)
      case Real => RandomDouble(rng)
      case Date => RandomTemporal(dt, rng)
      case DateTime => RandomTemporal(dt, rng)
      case SmallDateTime => RandomTemporal(dt, rng)
      case DateTime2 => RandomTemporal(dt, rng)
      case DateTimeOffset => RandomTemporal(dt, rng)
      case Time => RandomTemporal(dt, rng)
      case UniqueIdentifier => var (g, rng') := NewGuid(rng); (Formatted(GuidValue(g)), rng')
      case NVarChar => RandomChars(dt, rng)
      case VarChar => RandomChars(dt, rng)
      case NChar => RandomChars(dt, rng)
      case Char => RandomChars(dt, rng)
      case Text => RandomLongText(rng)
      case NText => RandomLongText(rng)
      case VarBinary => RandomBinary(dt, rng)
      case Binary => RandomBinary(dt, rng)
      case Image => RandomBinary(dt, rng)
      case Xml => RandomNote(rng)
      case OtherType(_) => var (s, rng') := RandomString(rng, 12); (Str(s), rng')
  }

  /** The Float and Real branch: a magnitude sample, then a sign sample. */
  function RandomDouble(rng: Rng): (r: (Value, Rng))
    ensures r.0.Formatted? && r.0.o.DoubleValue? && r.0.o.magnitudeSample < IntMax
    ensures Advanced(rng, r.1, 2)
  {
    var (k, rng1) := NextSample(rng);
    var (sign, rng2) := NextSample(rng1);
    (Formatted(DoubleValue(k, Unit(sign) < 0.5)), rng2)
  }

  /** The Text and NText branch: 64 + Next(192) characters. */
  function RandomLongText(rng: Rng): (r: (Value, Rng))
    ensures r.0.Str? && 64 <= |r.0.s| <= 255 && InAlphabet(r.0.s)
  {
    var (k, rng1) := Next(rng, 192);
    var (s, rng2) := RandomString(rng1, 64 + k);
    (Str(s), rng2)
  }

  /**
   * A binary column receives an N-prefixed string literal of its hex text, not
   * a binary literal: the hex text reaches ToSqlLiteral as a string.
   */
  lemma BinaryLiteralIsQuoted(col: Column, jsonCols: set<string>, rng: Rng, fmt: Formatter)
    requires IsBinaryType(col.dataType.sqlType) && FoldKey(col.name) !in jsonCols
    ensures var v := RandomValue(col, jsonCols, rng).0;
      v.Str? && ToSqlLiteral(v, fmt) == "N'" + (v.s + "'")
    ensures ToSqlLiteral(RandomValue(col, jsonCols, rng).0, fmt)[..4] == "N'0x"
  {
    var v := RandomValue(col, jsonCols, rng).0;
    assert v.Str? && IsHexOfLength(v.s, Min(MaxLen(col.dataType), 16));
    HexTextLiteral(v.s, Min(MaxLen(col.dataType), 16), fmt);
  }

  lemma HexTextLiteral(s: string, len: nat, fmt: Formatter)
    requires IsHexOfLength(s, len)
    ensures ToSqlLiteral(Str(s), fmt) == "N'" + (s + "'")
    ensures ToSqlLiteral(Str(s), fmt)[..4] == "N'0x"
  {
    assert s[0] == '0' && s[1] == 'x';
    forall i | 0 <= i < |s| ensures s[i] != '\'' {
      if i >= 2 {
        assert IsHexDigit(s[i]);
      }
    }
    assert Double(s, '\'') == s;
    var lit := ToSqlLiteral(Str(s), fmt);
    assert lit == "N'" + (s + "'");
    assert lit[2] == s[0] && lit[3] == s[1];
  }
}
