/**
 * Character-level helpers shared by both scripters: ordinal and
 * ordinal-ignore-case search, single-character replacement, delimiter
 * doubling together with the lexer that undoes it, and invariant-culture
 * decimal and hexadecimal rendering together with their readers.
 */
module SqlText {
  import opened Nullable

  /** Environment.NewLine as written by AppendLine and by the verbatim templates. */
  const NL: string := "\n"

  newtype byte = x: int | 0 <= x < 256

  // ---------------------------------------------------------------------------
  // Ordinal-ignore-case comparison, as ASCII upper-case folding

  function UpperChar(c: char): char
  {
    if 'a' <= c <= 'z' then (c as int - 32) as char else c
  }

  function Upper(s: string): (r: string)
    ensures |r| == |s|
    ensures forall i :: 0 <= i < |s| ==> r[i] == UpperChar(s[i])
  {
    if s == [] then [] else [UpperChar(s[0])] + Upper(s[1..])
  }

  /** The key an OrdinalIgnoreCase set or dictionary files a name under. */
  function FoldKey(s: string): string
  {
    Upper(s)
  }

  /** `string.Equals(a, b, StringComparison.OrdinalIgnoreCase)`. */
  predicate EqualsIgnoreCase(a: string, b: string)
  {
    Upper(a) == Upper(b)
  }

  // ---------------------------------------------------------------------------
  // Ordinal substring search

  predicate OccursAt(s: string, pat: string, i: int)
  {
    0 <= i && i + |pat| <= |s| && s[i..i + |pat|] == pat
  }

  /** `s.Contains(pat)` with ordinal comparison. */
  predicate Contains(s: string, pat: string)
  {
    exists i :: 0 <= i <= |s| && OccursAt(s, pat, i)
  }

  /** `s.IndexOf(pat, start)`: the first occurrence at or after `start`, or -1. */
  function IndexOfFrom(s: string, pat: string, start: nat): (r: int)
    requires start <= |s|
    ensures -1 <= r
    ensures r >= 0 ==> start <= r && OccursAt(s, pat, r)
    ensures r >= 0 ==> forall i :: start <= i < r ==> !OccursAt(s, pat, i)
    ensures r == -1 ==> forall i :: start <= i ==> !OccursAt(s, pat, i)
    decreases |s| - start
  {
    if start + |pat| > |s| then -1
    else if s[start..start + |pat|] == pat then start
    else IndexOfFrom(s, pat, start + 1)
  }

  /** `s.IndexOf(pat, StringComparison.Ordinal)`. */
  function IndexOf(s: string, pat: string): (r: int)
    ensures r >= 0 <==> Contains(s, pat)
    ensures r >= 0 ==> OccursAt(s, pat, r) && forall i :: 0 <= i < r ==> !OccursAt(s, pat, i)
  {
    IndexOfFrom(s, pat, 0)
  }

  /** `s.IndexOf(pat, StringComparison.OrdinalIgnoreCase)`. */
  function IndexOfIgnoreCase(s: string, pat: string): (r: int)
    ensures r >= 0 <==> Contains(Upper(s), Upper(pat))
  {
    IndexOf(Upper(s), Upper(pat))
  }

  predicate StartsWith(s: string, prefix: string)
  {
    |prefix| <= |s| && s[..|prefix|] == prefix
  }

  predicate EndsWith(s: string, suffix: string)
  {
    |suffix| <= |s| && s[|s| - |suffix|..] == suffix
  }

  /** Re-nests a concatenation to the right, where the readers expect it. */
  lemma Assoc(a: string, b: string, c: string)
    ensures (a + b) + c == a + (b + c)
  {
  }

  lemma AppendEnds(a: string, b: string)
    ensures StartsWith(a + b, a) && EndsWith(a + b, b)
  {
    assert (a + b)[..|a|] == a;
    assert (a + b)[|a|..] == b;
  }

  lemma EndsWithExtend(a: string, b: string, c: string)
    requires EndsWith(b, c)
    ensures EndsWith(a + b, c)
  {
    assert (a + b)[|a + b| - |c|..] == b[|b| - |c|..];
  }

  /** The rest of `t` after the keyword text `lit`, if `t` starts with it. */
  function Skip(t: string, lit: string): (r: Option<string>)
    ensures r.Some? ==> t == lit + r.value
  {
    if StartsWith(t, lit) then
      assert t == t[..|lit|] + t[|lit|..];
      Some(t[|lit|..])
    else None
  }

  lemma SkipPrefix(lit: string, rest: string)
    ensures Skip(lit + rest, lit) == Some(rest)
  {
    assert (lit + rest)[..|lit|] == lit;
    assert (lit + rest)[|lit|..] == rest;
  }

  // ---------------------------------------------------------------------------
  // Replacement and delimiter doubling

  /** `s.Replace(c.ToString(), by)`: every occurrence of `c` replaced by `with`. */
  function ReplaceChar(s: string, c: char, with: string): (r: string)
    ensures c !in s ==> r == s
    ensures c !in with ==> c !in r
  {
    if s == [] then []
    else (if s[0] == c then with else [s[0]]) + ReplaceChar(s[1..], c, with)
  }

  /** `s.Replace("q", "qq")`: the escaping of a `q`-delimited SQL token. */
  function Double(s: string, q: char): string
  {
    ReplaceChar(s, q, [q, q])
  }

  /**
   * The SQL lexer's reading of a delimited token whose opening delimiter has
   * been consumed: a doubled `q` stands for one `q`, a lone `q` closes the
   * token. Yields the token's text and the input after the closing delimiter,
   * or None when the token is never closed.
   */
  function ReadDelimited(t: string, q: char): (r: Option<(string, string)>)
    ensures r.Some? ==> |r.value.1| < |t|
    decreases |t|
  {
    if t == [] then None
    else if t[0] != q then
      match ReadDelimited(t[1..], q)
      case None => None
      case Some((body, rest)) => Some(([t[0]] + body, rest))
    else if |t| >= 2 && t[1] == q then
      match ReadDelimited(t[2..], q)
      case None => None
      case Some((body, rest)) => Some(([q] + body, rest))
    else Some(([], t[1..]))
  }

  /**
   * Doubling is undone by the lexer: the doubled text followed by a closing
   * delimiter reads back as the original text, and the lexer stops right after
   * that delimiter, provided what follows does not itself begin with `q`.
   */
  lemma {:induction false} ReadDelimitedDouble(s: string, q: char, rest: string)
    requires rest == [] || rest[0] != q
    ensures ReadDelimited(Double(s, q) + ([q] + rest), q) == Some((s, rest))
    decreases |s|
  {
    if s == [] {
      assert Double(s, q) + ([q] + rest) == [q] + rest;
    } else {
      var d := Double(s[1..], q);
      var tail := d + ([q] + rest);
      var w := if s[0] == q then [q, q] else [s[0]];
      assert Double(s, q) == w + d;
      Assoc(w, d, [q] + rest);
      var t := w + tail;
      assert t[|w|..] == tail;
      ReadDelimitedDouble(s[1..], q, rest);
      assert [s[0]] + s[1..] == s;
    }
  }

  // ---------------------------------------------------------------------------
  // Invariant-culture decimal rendering and reading

  predicate IsDigit(c: char)
  {
    '0' <= c <= '9'
  }

  predicate AllDigits(w: string)
  {
    forall i :: 0 <= i < |w| ==> IsDigit(w[i])
  }

  function DigitChar(d: nat): (c: char)
    requires d < 10
    ensures IsDigit(c)
  {
    ('0' as int + d) as char
  }

  function DigitValue(c: char): (d: nat)
    requires IsDigit(c)
    ensures d < 10 && DigitChar(d) == c
  {
    c as int - '0' as int
  }

  /** `n.ToString(CultureInfo.InvariantCulture)` for n >= 0: shortest decimal form. */
  function NatToString(n: nat): (r: string)
    ensures |r| >= 1 && AllDigits(r)
    ensures (r[0] == '0') == (n == 0)
  {
    if n < 10 then [DigitChar(n)] else NatToString(n / 10) + [DigitChar(n % 10)]
  }

  /** `i.ToString(CultureInfo.InvariantCulture)` for any integer. */
  function IntToString(i: int): (r: string)
    ensures |r| >= 1
    ensures i < 0 <==> r[0] == '-'
  {
    if i < 0 then "-" + NatToString(-i) else NatToString(i)
  }

  /** Value of the digit string `w` read left to right after digits worth `acc`. */
  function DigitsValue(w: string, acc: nat): nat
    requires AllDigits(w)
  {
    if w == [] then acc else DigitsValue(w[1..], acc * 10 + DigitValue(w[0]))
  }

  /** Reads the longest run of digits at the head of `t`, after digits worth `acc`. */
  function ReadDigits(t: string, acc: nat): (r: (nat, string))
    ensures |r.1| <= |t|
  {
    if t != [] && IsDigit(t[0]) then ReadDigits(t[1..], acc * 10 + DigitValue(t[0])) else (acc, t)
  }

  /** Reads an unsigned decimal number: at least one digit. */
  function ReadNat(t: string): (r: Option<(nat, string)>)
    ensures r.Some? ==> |r.value.1| < |t|
  {
    if t != [] && IsDigit(t[0]) then Some(ReadDigits(t[1..], DigitValue(t[0]))) else None
  }

  /** Reads an optionally negative decimal number. */
  function ReadInt(t: string): (r: Option<(int, string)>)
    ensures r.Some? ==> |r.value.1| < |t|
  {
    if t != [] && t[0] == '-' then
      match ReadNat(t[1..])
      case None => None
      case Some((n, rest)) => Some((0 - n as int, rest))
    else
      match ReadNat(t)
      case None => None
      case Some((n, rest)) => Some((n, rest))
  }

  predicate NoDigitAhead(rest: string)
  {
    rest == [] || !IsDigit(rest[0])
  }

  lemma {:induction false} ReadDigitsAppend(w: string, rest: string, acc: nat)
    requires AllDigits(w) && NoDigitAhead(rest)
    ensures ReadDigits(w + rest, acc) == (DigitsValue(w, acc), rest)
    decreases |w|
  {
    if w == [] {
      assert w + rest == rest;
    } else {
      assert (w + rest)[1..] == w[1..] + rest;
      ReadDigitsAppend(w[1..], rest, acc * 10 + DigitValue(w[0]));
    }
  }

  lemma {:induction false} DigitsValueSnoc(w: string, c: char, acc: nat)
    requires AllDigits(w) && IsDigit(c)
    ensures AllDigits(w + [c])
    ensures DigitsValue(w + [c], acc) == DigitsValue(w, acc) * 10 + DigitValue(c)
    decreases |w|
  {
    if w == [] {
      assert w + [c] == [c];
    } else {
      assert (w + [c])[1..] == w[1..] + [c];
      DigitsValueSnoc(w[1..], c, acc * 10 + DigitValue(w[0]));
    }
  }

  lemma {:induction false} NatToStringValue(n: nat)
    ensures DigitsValue(NatToString(n), 0) == n
    decreases n
  {
    if n >= 10 {
      NatToStringValue(n / 10);
      DigitsValueSnoc(NatToString(n / 10), DigitChar(n % 10), 0);
    }
  }

  /** Rendering a natural number and reading it back is the identity. */
  lemma ReadNatRoundTrip(n: nat, rest: string)
    requires NoDigitAhead(rest)
    ensures ReadNat(NatToString(n) + rest) == Some((n, rest))
  {
    var w := NatToString(n);
    assert (w + rest)[0] == w[0];
    assert (w + rest)[1..] == w[1..] + rest;
    ReadDigitsAppend(w[1..], rest, DigitValue(w[0]));
    NatToStringValue(n);
  }

  /** Rendering an integer and reading it back is the identity. */
  lemma ReadIntRoundTrip(i: int, rest: string)
    requires NoDigitAhead(rest)
    ensures ReadInt(IntToString(i) + rest) == Some((i, rest))
  {
    if i < 0 {
      var n := NatToString(-i);
      Assoc("-", n, rest);
      var t := "-" + (n + rest);
      assert t[0] == '-' && t[1..] == n + rest;
      ReadNatRoundTrip(-i, rest);
    } else {
      var n := NatToString(i);
      assert (n + rest)[0] == n[0];
      ReadNatRoundTrip(i, rest);
    }
  }

  // ---------------------------------------------------------------------------
  // Upper-case hexadecimal

  /** An upper-case hexadecimal digit, as `X2` writes them. */
  predicate IsHexDigit(c: char)
  {
    ('0' <= c <= '9') || ('A' <= c <= 'F')
  }

  /** The digit of value `n` in "0123456789ABCDEF". */
  function HexDigit(n: nat): (c: char)
    requires n < 16
    ensures IsHexDigit(c)
  {
    if n < 10 then ('0' as int + n) as char else ('A' as int + n - 10) as char
  }

  /** `b.ToString("X2")`. */
  function HexByte(b: byte): (r: string)
    ensures |r| == 2 && IsHexDigit(r[0]) && IsHexDigit(r[1])
  {
    [HexDigit(b as int / 16), HexDigit(b as int % 16)]
  }

  function HexBytes(bs: seq<byte>): (r: string)
    ensures |r| == 2 * |bs|
    ensures forall i :: 0 <= i < |r| ==> IsHexDigit(r[i])
  {
    if bs == [] then [] else HexByte(bs[0]) + HexBytes(bs[1..])
  }

  /** The value of a hex digit; 0 for any other character. */
  function HexValue(c: char): (d: nat)
    ensures d < 16
    ensures IsHexDigit(c) ==> HexDigit(d) == c
  {
    if '0' <= c <= '9' then c as int - '0' as int
    else if 'A' <= c <= 'F' then c as int - 'A' as int + 10
    else 0
  }

  /** Reads pairs of hex digits back into bytes. */
  function ReadHex(t: string): (r: seq<byte>)
    decreases |t|
  {
    if |t| < 2 then [] else [(HexValue(t[0]) * 16 + HexValue(t[1])) as byte] + ReadHex(t[2..])
  }

  lemma HexByteValue(b: byte)
    ensures HexValue(HexByte(b)[0]) * 16 + HexValue(HexByte(b)[1]) == b as int
  {
  }

  lemma ReadHexCons(h: string, t: string)
    requires |h| == 2
    ensures ReadHex(h + t) == [(HexValue(h[0]) * 16 + HexValue(h[1])) as byte] + ReadHex(t)
  {
    var u := h + t;
    assert u[0] == h[0] && u[1] == h[1] && u[2..] == t;
  }

  /** Hex rendering loses nothing: reading it back yields the same bytes. */
  lemma {:induction false} ReadHexRoundTrip(bs: seq<byte>)
    ensures ReadHex(HexBytes(bs)) == bs
  {
    if bs != [] {
      ReadHexCons(HexByte(bs[0]), HexBytes(bs[1..]));
      HexByteValue(bs[0]);
      ReadHexRoundTrip(bs[1..]);
      assert [bs[0]] + bs[1..] == bs;
    }
  }
}
