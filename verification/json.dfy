/**
 * The JSON side of the insert scripter: the document RandomJson writes for a
 * column whose check constraints call the JSON functions, a reader for that
 * text, and a bracket-nesting scan. RandomJson's output is shown to read back
 * as the document drawn, to have its stated shape and to be balanced.
 */
module Json {
  import opened Nullable
  import opened SqlText
  import opened Draws
  import opened RandomText

  /**
   * A member value. JNumber stands for the double NextDouble returned; its
   * round-trip ("R") text is not modelled, and the token `0.<sample>` is written instead.
   */
  datatype JsonValue =
    | JString(s: string)
    | JInt(i: int)
    | JNumber(sample: nat)
    | JBool(b: bool)
    | JArray(items: seq<int>)

  /** A member `"k<key>":<value>`. */
  datatype Member = Member(key: nat, value: JsonValue)

  // ---------------------------------------------------------------------------
  // The shape RandomJson promises

  predicate WellFormedValue(v: JsonValue)
  {
    match v
    case JString(s) => 1 <= |s| <= 8 && InAlphabet(s)
    case JInt(i) => -1000 <= i <= 1000
    case JNumber(k) => k < IntMax
    case JBool(_) => true
    case JArray(xs) => 1 <= |xs| <= 3 && forall j :: 0 <= j < |xs| ==> 0 <= xs[j] < 100
  }

  predicate WellFormedMember(m: Member)
  {
    m.key < 1000 && WellFormedValue(m.value)
  }

  /** 3 to 7 members; keys need not be distinct. */
  predicate WellFormedDocument(ms: seq<Member>)
  {
    3 <= |ms| <= 7 && forall i :: 0 <= i < |ms| ==> WellFormedMember(ms[i])
  }

  // ---------------------------------------------------------------------------
  // Rendering, as RandomJson appends it

  function IntList(xs: seq<int>): string
  {
    if xs == [] then ""
    else if |xs| == 1 then IntToString(xs[0])
    else IntToString(xs[0]) + ("," + IntList(xs[1..]))
  }

  function ValueText(v: JsonValue): string
  {
    match v
    case JString(s) => "\"" + (ReplaceChar(s, '"', "\\\"") + "\"")
    case JInt(i) => IntToString(i)
    case JNumber(k) => "0." + NatToString(k)
    case JBool(b) => if b then "true" else "false"
    case JArray(xs) => "[" + (IntList(xs) + "]")
  }

  function MemberText(m: Member): string
  {
    "\"k" + (NatToString(m.key) + ("\":" + ValueText(m.value)))
  }

  function MembersText(ms: seq<Member>): string
  {
    if ms == [] then ""
    else if |ms| == 1 then MemberText(ms[0])
    else MemberText(ms[0]) + ("," + MembersText(ms[1..]))
  }

  function ObjectText(ms: seq<Member>): string
  {
    "{" + (MembersText(ms) + "}")
  }

  // ---------------------------------------------------------------------------
  // Drawing, in RandomJson's order of calls

  function RandomInts(rng: Rng, n: nat): (r: (seq<int>, Rng))
    ensures |r.0| == n && forall j :: 0 <= j < n ==> 0 <= r.0[j] < 100
    decreases n
  {
    if n == 0 then ([], rng)
    else
      var (x, rng1) := NextIn(rng, 0, 100);
      var (rest, rng2) := RandomInts(rng1, n - 1);
      ([x] + rest, rng2)
  }

  /** One `switch (rng.Next(5))`: the kind, then that kind's draws. */
  function RandomValue(rng: Rng): (r: (JsonValue, Rng))
    ensures WellFormedValue(r.0)
  {
    var (kind, rng1) := Next(rng, 5);
    if kind == 0 then
      var (n, rng2) := Next(rng1, 8);
      var (s, rng3) := RandomString(rng2, 1 + n);
      (JString(s), rng3)
    else if kind == 1 then
      var (i, rng2) := NextIn(rng1, -1000, 1001);
      (JInt(i), rng2)
    else if kind == 2 then
      var (k, rng2) := NextSample(rng1);
      (JNumber(k), rng2)
    else if kind == 3 then
      var (b, rng2) := Next(rng1, 2);
      (JBool(b == 0), rng2)
    else
      var (n, rng2) := NextIn(rng1, 1, 4);
      var (xs, rng3) := RandomInts(rng2, n);
      (JArray(xs), rng3)
  }

  function RandomMembers(rng: Rng, n: nat): (r: (seq<Member>, Rng))
    ensures |r.0| == n
    ensures forall i :: 0 <= i < n ==> WellFormedMember(r.0[i])
    decreases n
  {
    if n == 0 then ([], rng)
    else
      var (key, rng1) := Next(rng, 1000);
      var (v, rng2) := RandomValue(rng1);
      var (rest, rng3) := RandomMembers(rng2, n - 1);
      ([Member(key, v)] + rest, rng3)
  }

  /** The document RandomJson writes: `3 + rng.Next(5)` members. */
  function RandomDocument(rng: Rng): (r: (seq<Member>, Rng))
    ensures WellFormedDocument(r.0)
  {
    var (extra, rng1) := Next(rng, 5);
    RandomMembers(rng1, 3 + extra)
  }

  // ---------------------------------------------------------------------------
  // Reading JSON text back

  /** Reads a JSON string body after its opening quote: `\x` stands for `x`, `"` closes. */
  function ReadJsonString(t: string): (r: Option<(string, string)>)
    ensures r.Some? ==> |r.value.1| < |t|
    decreases |t|
  {
    if t == [] then None
    else if t[0] == '"' then Some(([], t[1..]))
    else if t[0] == '\\' then
      if |t| < 2 then None
      else
        match ReadJsonString(t[2..])
        case None => None
        case Some((body, rest)) => Some(([t[1]] + body, rest))
    else
      match ReadJsonString(t[1..])
      case None => None
      case Some((body, rest)) => Some(([t[0]] + body, rest))
  }

  /** One or more integers separated by commas. */
  function ReadIntItems(t: string): (r: Option<(seq<int>, string)>)
    ensures r.Some? ==> |r.value.1| < |t|
    decreases |t|
  {
    match ReadInt(t)
    case None => None
    case Some((x, rest)) =>
      if rest != [] && rest[0] == ',' then
        match ReadIntItems(rest[1..])
        case None => None
        case Some((xs, rest')) => Some(([x] + xs, rest'))
      else Some(([x], rest))
  }

  /** An array body after its `[`, through the closing `]`. */
  function ReadArray(t: string): (r: Option<(seq<int>, string)>)
    ensures r.Some? ==> |r.value.1| < |t|
  {
    if t != [] && t[0] == ']' then Some(([], t[1..]))
    else
      match ReadIntItems(t)
      case None => None
      case Some((xs, rest)) =>
        if rest != [] && rest[0] == ']' then Some((xs, rest[1..])) else None
  }

  function ReadValue(t: string): (r: Option<(JsonValue, string)>)
    ensures r.Some? ==> |r.value.1| < |t|
  {
    if t == [] then None
    else if t[0] == '"' then
      match ReadJsonString(t[1..])
      case None => None
      case Some((s, rest)) => Some((JString(s), rest))
    else if t[0] == 't' then
      if StartsWith(t, "true") then Some((JBool(true), t[4..])) else None
    else if t[0] == 'f' then
      if StartsWith(t, "false") then Some((JBool(false), t[5..])) else None
    else if t[0] == '[' then
      match ReadArray(t[1..])
      case None => None
      case Some((xs, rest)) => Some((JArray(xs), rest))
    else ReadNumeric(t)
  }

  /** An integer, or a `0.<digits>` number token. */
  function ReadNumeric(t: string): (r: Option<(JsonValue, string)>)
    ensures r.Some? ==> |r.value.1| < |t|
  {
    match ReadInt(t)
    case None => None
    case Some((i, rest)) =>
      if rest != [] && rest[0] == '.' then
        if i == 0 && t[0] == '0' then
          match ReadNat(rest[1..])
          case None => None
          case Some((k, rest')) => Some((JNumber(k), rest'))
        else None
      else Some((JInt(i), rest))
  }

  function ReadMember(t: string): (r: Option<(Member, string)>)
    ensures r.Some? ==> |r.value.1| < |t|
  {
    if |t| >= 2 && t[0] == '"' && t[1] == 'k' then
      match ReadNat(t[2..])
      case None => None
      case Some((key, rest)) =>
        if |rest| >= 2 && rest[0] == '"' && rest[1] == ':' then
          match ReadValue(rest[2..])
          case None => None
          case Some((v, rest')) => Some((Member(key, v), rest'))
        else None
    else None
  }

  /** One or more members separated by commas. */
  function ReadMembers(t: string): (r: Option<(seq<Member>, string)>)
    ensures r.Some? ==> |r.value.1| < |t|
    decreases |t|
  {
    match ReadMember(t)
    case None => None
    case Some((m, rest)) =>
      if rest != [] && rest[0] == ',' then
        match ReadMembers(rest[1..])
        case None => None
        case Some((ms, rest')) => Some(([m] + ms, rest'))
      else Some(([m], rest))
  }

  /** Reads a whole text as one object and nothing after it. */
  function ReadObject(t: string): Option<seq<Member>>
  {
    if t == "{}" then Some([])
    else if t != [] && t[0] == '{' then
      match ReadMembers(t[1..])
      case None => None
      case Some((ms, rest)) => if rest == "}" then Some(ms) else None
    else None
  }

  // ---------------------------------------------------------------------------
  // Round trip

  /** Values the reader gets back: the writer does not escape backslashes. */
  predicate Readable(v: JsonValue)
  {
    v.JString? ==> '\\' !in v.s
  }

  /** What may follow a value inside an object or an array. */
  predicate Delimits(rest: string)
  {
    rest == [] || rest[0] == ',' || rest[0] == '}' || rest[0] == ']'
  }

  lemma {:induction false} ReadJsonStringRoundTrip(s: string, rest: string)
    requires '\\' !in s
    ensures ReadJsonString(ReplaceChar(s, '"', "\\\"") + ("\"" + rest)) == Some((s, rest))
    decreases |s|
  {
    var t := ReplaceChar(s, '"', "\\\"") + ("\"" + rest);
    if s == [] {
      assert t == "\"" + rest;
    } else {
      var e := ReplaceChar(s[1..], '"', "\\\"");
      var tail := e + ("\"" + rest);
      assert '\\' !in s[1..] by {
        assert forall c :: c in s[1..] ==> c in s;
      }
      ReadJsonStringRoundTrip(s[1..], rest);
      var w := if s[0] == '"' then "\\\"" else [s[0]];
      Assoc(w, e, "\"" + rest);
      assert t == w + tail;
      assert t[|w|..] == tail;
      assert [s[0]] + s[1..] == s;
    }
  }

  lemma ReadIntItemsLast(t: string, x: int, rest: string)
    requires ReadInt(t) == Some((x, rest)) && (rest == [] || rest[0] != ',')
    ensures ReadIntItems(t) == Some(([x], rest))
  {
  }

  lemma ReadIntItemsMore(t: string, x: int, rest: string, xs: seq<int>, rest': string)
    requires ReadInt(t) == Some((x, rest)) && rest != [] && rest[0] == ','
    requires ReadIntItems(rest[1..]) == Some((xs, rest'))
    ensures ReadIntItems(t) == Some(([x] + xs, rest'))
  {
  }

  lemma ReadIntItemsOne(x: int, rest: string)
    requires rest == [] || rest[0] == ']'
    ensures ReadIntItems(IntList([x]) + rest) == Some(([x], rest))
  {
    assert IntList([x]) == IntToString(x);
    ReadIntRoundTrip(x, rest);
    ReadIntItemsLast(IntList([x]) + rest, x, rest);
  }

  lemma ReadIntItemsCons(xs: seq<int>, rest: string)
    requires |xs| >= 2
    requires ReadIntItems(IntList(xs[1..]) + rest) == Some((xs[1..], rest))
    ensures ReadIntItems(IntList(xs) + rest) == Some((xs, rest))
  {
    var x := xs[0];
    var tail := IntList(xs[1..]) + rest;
    Assoc(IntToString(x), "," + IntList(xs[1..]), rest);
    Assoc(",", IntList(xs[1..]), rest);
    var t := IntToString(x) + ("," + tail);
    ReadIntRoundTrip(x, "," + tail);
    assert ("," + tail)[1..] == tail;
    ReadIntItemsMore(t, x, "," + tail, xs[1..], rest);
    assert [x] + xs[1..] == xs;
  }

  lemma {:induction false} ReadIntItemsRoundTrip(xs: seq<int>, rest: string)
    requires xs != []
    requires rest == [] || rest[0] == ']'
    ensures ReadIntItems(IntList(xs) + rest) == Some((xs, rest))
    decreases |xs|
  {
    if |xs| == 1 {
      assert xs == [xs[0]];
      ReadIntItemsOne(xs[0], rest);
    } else {
      ReadIntItemsRoundTrip(xs[1..], rest);
      ReadIntItemsCons(xs, rest);
    }
  }

  lemma ReadArrayRoundTrip(xs: seq<int>, rest: string)
    ensures ReadArray(IntList(xs) + ("]" + rest)) == Some((xs, rest))
  {
    var t := IntList(xs) + ("]" + rest);
    if xs == [] {
      assert t == "]" + rest;
    } else {
      ReadIntItemsRoundTrip(xs, "]" + rest);
      var first := IntToString(xs[0]);
      assert t[0] == IntList(xs)[0] == first[0];
      assert ("]" + rest)[1..] == rest;
    }
  }

  lemma ReadStringValueRoundTrip(s: string, rest: string)
    requires '\\' !in s
    ensures ReadValue(ValueText(JString(s)) + rest) == Some((JString(s), rest))
  {
    var e := ReplaceChar(s, '"', "\\\"");
    Assoc("\"", e + "\"", rest);
    Assoc(e, "\"", rest);
    var t := "\"" + (e + ("\"" + rest));
    assert t[1..] == e + ("\"" + rest);
    ReadJsonStringRoundTrip(s, rest);
  }

  /** Text that starts with a digit or a minus sign is read as a number. */
  lemma ReadValueNumeric(t: string)
    requires t != [] && (t[0] == '-' || IsDigit(t[0]))
    ensures ReadValue(t) == ReadNumeric(t)
  {
  }

  lemma ReadIntValueRoundTrip(i: int, rest: string)
    requires Delimits(rest)
    ensures ReadValue(ValueText(JInt(i)) + rest) == Some((JInt(i), rest))
  {
    var w := IntToString(i);
    var t := w + rest;
    ReadIntRoundTrip(i, rest);
    assert t[0] == w[0];
    ReadValueNumeric(t);
  }

  lemma ReadNumericFraction(t: string, frac: string, k: nat, rest: string)
    requires t != [] && t[0] == '0' && ReadInt(t) == Some((0, frac))
    requires frac != [] && frac[0] == '.' && ReadNat(frac[1..]) == Some((k, rest))
    ensures ReadNumeric(t) == Some((JNumber(k), rest))
  {
  }

  lemma ReadNumberValueRoundTrip(k: nat, rest: string)
    requires Delimits(rest)
    ensures ReadValue(ValueText(JNumber(k)) + rest) == Some((JNumber(k), rest))
  {
    var n := NatToString(k);
    var frac := "." + (n + rest);
    Assoc("0.", n, rest);
    assert "0." == NatToString(0) + ".";
    Assoc(NatToString(0), ".", n + rest);
    var t := NatToString(0) + frac;
    assert ValueText(JNumber(k)) + rest == t;
    ReadNatRoundTrip(0, frac);
    assert t[0] == '0';
    assert ReadInt(t) == Some((0, frac));
    assert frac[1..] == n + rest;
    ReadNatRoundTrip(k, rest);
    ReadNumericFraction(t, frac, k, rest);
    ReadValueNumeric(t);
  }

  lemma ReadBoolValueRoundTrip(b: bool, rest: string)
    ensures ReadValue(ValueText(JBool(b)) + rest) == Some((JBool(b), rest))
  {
    var t := ValueText(JBool(b)) + rest;
    if b {
      assert t[..4] == "true" && t[4..] == rest;
    } else {
      assert t[..5] == "false" && t[5..] == rest;
    }
  }

  lemma ReadArrayValueRoundTrip(xs: seq<int>, rest: string)
    ensures ReadValue(ValueText(JArray(xs)) + rest) == Some((JArray(xs), rest))
  {
    Assoc("[", IntList(xs) + "]", rest);
    Assoc(IntList(xs), "]", rest);
    var t := "[" + (IntList(xs) + ("]" + rest));
    assert t[1..] == IntList(xs) + ("]" + rest);
    ReadArrayRoundTrip(xs, rest);
  }

  lemma ReadValueRoundTrip(v: JsonValue, rest: string)
    requires Readable(v) && Delimits(rest)
    ensures ReadValue(ValueText(v) + rest) == Some((v, rest))
  {
    match v
    case JString(s) => ReadStringValueRoundTrip(s, rest);
    case JInt(i) => ReadIntValueRoundTrip(i, rest);
    case JNumber(k) => ReadNumberValueRoundTrip(k, rest);
    case JBool(b) => ReadBoolValueRoundTrip(b, rest);
    case JArray(xs) => ReadArrayValueRoundTrip(xs, rest);
  }

  lemma ReadMemberRoundTrip(m: Member, rest: string)
    requires Readable(m.value) && Delimits(rest)
    ensures ReadMember(MemberText(m) + rest) == Some((m, rest))
  {
    var n := NatToString(m.key);
    var v := ValueText(m.value);
    Assoc("\"k", n + ("\":" + v), rest);
    Assoc(n, "\":" + v, rest);
    Assoc("\":", v, rest);
    var after := "\":" + (v + rest);
    var t := "\"k" + (n + after);
    assert t[2..] == n + after;
    ReadNatRoundTrip(m.key, after);
    assert after[2..] == v + rest;
    ReadValueRoundTrip(m.value, rest);
  }

  lemma ReadMembersLast(t: string, m: Member, rest: string)
    requires ReadMember(t) == Some((m, rest)) && (rest == [] || rest[0] != ',')
    ensures ReadMembers(t) == Some(([m], rest))
  {
  }

  lemma ReadMembersMore(t: string, m: Member, rest: string, ms: seq<Member>, rest': string)
    requires ReadMember(t) == Some((m, rest)) && rest != [] && rest[0] == ','
    requires ReadMembers(rest[1..]) == Some((ms, rest'))
    ensures ReadMembers(t) == Some(([m] + ms, rest'))
  {
  }

  lemma ReadMembersOne(m: Member, rest: string)
    requires Readable(m.value)
    requires rest == [] || rest[0] == '}'
    ensures ReadMembers(MembersText([m]) + rest) == Some(([m], rest))
  {
    assert MembersText([m]) == MemberText(m);
    ReadMemberRoundTrip(m, rest);
    ReadMembersLast(MembersText([m]) + rest, m, rest);
  }

  lemma ReadMembersCons(ms: seq<Member>, rest: string)
    requires |ms| >= 2 && Readable(ms[0].value)
    requires ReadMembers(MembersText(ms[1..]) + rest) == Some((ms[1..], rest))
    ensures ReadMembers(MembersText(ms) + rest) == Some((ms, rest))
  {
    var m := ms[0];
    var tail := MembersText(ms[1..]) + rest;
    Assoc(MemberText(m), "," + MembersText(ms[1..]), rest);
    Assoc(",", MembersText(ms[1..]), rest);
    var t := MemberText(m) + ("," + tail);
    ReadMemberRoundTrip(m, "," + tail);
    assert ("," + tail)[1..] == tail;
    ReadMembersMore(t, m, "," + tail, ms[1..], rest);
    assert [m] + ms[1..] == ms;
  }

  lemma {:induction false} ReadMembersRoundTrip(ms: seq<Member>, rest: string)
    requires ms != []
    requires forall i :: 0 <= i < |ms| ==> Readable(ms[i].value)
    requires rest == [] || rest[0] == '}'
    ensures ReadMembers(MembersText(ms) + rest) == Some((ms, rest))
    decreases |ms|
  {
    if |ms| == 1 {
      assert ms == [ms[0]];
      ReadMembersOne(ms[0], rest);
    } else {
      assert forall i :: 0 <= i < |ms[1..]| ==> ms[1..][i] == ms[i + 1];
      ReadMembersRoundTrip(ms[1..], rest);
      ReadMembersCons(ms, rest);
    }
  }

  /** An object the writer produces reads back as the same members, in order. */
  lemma ReadObjectRoundTrip(ms: seq<Member>)
    requires forall i :: 0 <= i < |ms| ==> Readable(ms[i].value)
    ensures ReadObject(ObjectText(ms)) == Some(ms)
  {
    var t := ObjectText(ms);
    if ms != [] {
      ReadMembersRoundTrip(ms, "}");
      assert t[1..] == MembersText(ms) + "}";
      var first := MemberText(ms[0]);
      assert MembersText(ms)[..|first|] == first;
      assert t[1] == '"' && t[2] == 'k';
    }
  }

  // ---------------------------------------------------------------------------
  // Bracket nesting

  /** Scans `{ } [ ]` with a stack of the open ones; None on a mismatched closer. */
  function Nesting(t: string, open: seq<char>): Option<seq<char>>
    decreases |t|
  {
    if t == [] then Some(open)
    else if t[0] == '{' || t[0] == '[' then Nesting(t[1..], open + [t[0]])
    else if t[0] == '}' || t[0] == ']' then
      if open != [] && open[|open| - 1] == (if t[0] == '}' then '{' else '[') then
        Nesting(t[1..], open[..|open| - 1])
      else None
    else Nesting(t[1..], open)
  }

  /** Every opener is closed by its own kind of closer, in order. */
  predicate Balanced(t: string)
  {
    Nesting(t, []) == Some([])
  }

  lemma {:induction false} NestingAppend(a: string, b: string, open: seq<char>)
    ensures Nesting(a + b, open) ==
      match Nesting(a, open) case None => None case Some(o) => Nesting(b, o)
    decreases |a|
  {
    if a != [] {
      assert (a + b)[0] == a[0];
      assert (a + b)[1..] == a[1..] + b;
      if a[0] == '{' || a[0] == '[' {
        NestingAppend(a[1..], b, open + [a[0]]);
      } else if a[0] == '}' || a[0] == ']' {
        if open != [] {
          NestingAppend(a[1..], b, open[..|open| - 1]);
        }
      } else {
        NestingAppend(a[1..], b, open);
      }
    } else {
      assert a + b == b;
    }
  }

  predicate NoBrackets(t: string)
  {
    forall i :: 0 <= i < |t| ==> t[i] !in "{}[]"
  }

  lemma {:induction false} NestingNoBrackets(t: string, open: seq<char>)
    requires NoBrackets(t)
    ensures Nesting(t, open) == Some(open)
    decreases |t|
  {
    if t != [] {
      assert t[0] !in "{}[]";
      assert NoBrackets(t[1..]) by {
        forall i | 0 <= i < |t| - 1 ensures t[1..][i] !in "{}[]" {
          assert t[1..][i] == t[i + 1];
        }
      }
      NestingNoBrackets(t[1..], open);
    }
  }

  lemma NoBracketsAppend(a: string, b: string)
    requires NoBrackets(a) && NoBrackets(b)
    ensures NoBrackets(a + b)
  {
    forall i | 0 <= i < |a + b| ensures (a + b)[i] !in "{}[]" {
      if i < |a| {
        assert (a + b)[i] == a[i];
      } else {
        assert (a + b)[i] == b[i - |a|];
      }
    }
  }

  lemma {:induction false} IntListNoBrackets(xs: seq<int>)
    ensures NoBrackets(IntList(xs))
    decreases |xs|
  {
    if xs != [] {
      IntToStringNoBrackets(xs[0]);
      if |xs| > 1 {
        IntListNoBrackets(xs[1..]);
        NoBracketsAppend(",", IntList(xs[1..]));
        NoBracketsAppend(IntToString(xs[0]), "," + IntList(xs[1..]));
      }
    }
  }

  lemma IntToStringNoBrackets(i: int)
    ensures NoBrackets(IntToString(i))
  {
    var w := if i < 0 then NatToString(-i) else NatToString(i);
    assert forall j :: 0 <= j < |w| ==> IsDigit(w[j]);
    if i < 0 {
      NoBracketsAppend("-", w);
    }
  }

  /** The text of a value without brackets inside strings leaves the nesting as it was. */
  lemma ValueNesting(v: JsonValue, open: seq<char>)
    requires v.JString? ==> NoBrackets(v.s)
    ensures Nesting(ValueText(v), open) == Some(open)
  {
    match v
    case JString(s) =>
      var e := ReplaceChar(s, '"', "\\\"");
      assert NoBrackets(e) by {
        ReplaceCharChars(s, '"', "\\\"");
        forall i | 0 <= i < |e| ensures e[i] !in "{}[]" {
          assert e[i] in e;
          if e[i] in s {
            var j :| 0 <= j < |s| && s[j] == e[i];
          }
        }
      }
      NoBracketsAppend(e, "\"");
      NoBracketsAppend("\"", e + "\"");
      NestingNoBrackets(ValueText(v), open);
    case JInt(i) =>
      IntToStringNoBrackets(i);
      NestingNoBrackets(ValueText(v), open);
    case JNumber(k) =>
      IntToStringNoBrackets(k);
      NoBracketsAppend("0.", NatToString(k));
      NestingNoBrackets(ValueText(v), open);
    case JBool(b) =>
      NestingNoBrackets(ValueText(v), open);
    case JArray(xs) =>
      IntListNoBrackets(xs);
      NestingNoBrackets(IntList(xs), open + ['[']);
      assert ValueText(v) == "[" + (IntList(xs) + "]");
      NestingAppend("[", IntList(xs) + "]", open);
      assert Nesting("[", open) == Some(open + ['[']);
      NestingAppend(IntList(xs), "]", open + ['[']);
      assert (open + ['['])[..|open|] == open;
      assert Nesting("]", open + ['[']) == Some(open);
  }

  lemma ReplaceCharChars(s: string, c: char, with: string)
    ensures forall x :: x in ReplaceChar(s, c, with) ==> x in s || x in with
  {
    if s != [] {
      ReplaceCharChars(s[1..], c, with);
    }
  }

  lemma MemberNesting(m: Member, open: seq<char>)
    requires m.value.JString? ==> NoBrackets(m.value.s)
    ensures Nesting(MemberText(m), open) == Some(open)
  {
    var n := NatToString(m.key);
    var v := ValueText(m.value);
    IntToStringNoBrackets(m.key);
    NestingNoBrackets("\"k", open);
    NestingNoBrackets(n, open);
    NestingNoBrackets("\":", open);
    ValueNesting(m.value, open);
    NestingAppend("\":", v, open);
    NestingAppend(n, "\":" + v, open);
    NestingAppend("\"k", n + ("\":" + v), open);
  }

  lemma {:induction false} MembersNesting(ms: seq<Member>, open: seq<char>)
    requires forall i :: 0 <= i < |ms| ==> ms[i].value.JString? ==> NoBrackets(ms[i].value.s)
    ensures Nesting(MembersText(ms), open) == Some(open)
    decreases |ms|
  {
    if ms != [] {
      MemberNesting(ms[0], open);
      if |ms| > 1 {
        MembersNesting(ms[1..], open);
        NestingAppend(MemberText(ms[0]), "," + MembersText(ms[1..]), open);
        NestingAppend(",", MembersText(ms[1..]), open);
        assert MembersText(ms) == MemberText(ms[0]) + ("," + MembersText(ms[1..]));
      }
    }
  }

  // ---------------------------------------------------------------------------
  // RandomJson

  /**
   * `RandomJson(rng)`: the text of a freshly drawn document. It reads back as a
   * well-formed document (3 to 7 members, keys below 1000, values of the five
   * kinds in their ranges) and its braces and brackets are balanced.
   */
  function RandomJson(rng: Rng): (r: (string, Rng))
    ensures ReadObject(r.0).Some? && WellFormedDocument(ReadObject(r.0).value)
    ensures Balanced(r.0)
    ensures r.0[0] == '{' && r.0[|r.0| - 1] == '}'
  {
    var (ms, rng') := RandomDocument(rng);
    DocumentFacts(ms);
    (ObjectText(ms), rng')
  }

  lemma DocumentFacts(ms: seq<Member>)
    requires WellFormedDocument(ms)
    ensures ReadObject(ObjectText(ms)) == Some(ms)
    ensures Balanced(ObjectText(ms))
  {
    forall i | 0 <= i < |ms| ensures Readable(ms[i].value)
      && (ms[i].value.JString? ==> NoBrackets(ms[i].value.s))
    {
      assert WellFormedMember(ms[i]);
      if ms[i].value.JString? {
        AlphabetIsPlain(ms[i].value.s);
      }
    }
    ReadObjectRoundTrip(ms);
    ObjectBalanced(ms);
  }

  lemma ObjectBalanced(ms: seq<Member>)
    requires forall i :: 0 <= i < |ms| ==> ms[i].value.JString? ==> NoBrackets(ms[i].value.s)
    ensures Balanced(ObjectText(ms))
  {
    var body := MembersText(ms);
    assert Nesting(body + "}", ['{']) == Some([]) by {
      MembersNesting(ms, ['{']);
      NestingAppend(body, "}", ['{']);
      assert Nesting("}", ['{']) == Some([]);
    }
    assert ObjectText(ms) == "{" + (body + "}");
    NestingOpen('{', body + "}");
  }

  lemma NestingOpen(c: char, t: string)
    requires c == '{' || c == '['
    ensures Nesting([c] + t, []) == Nesting(t, [c])
  {
    assert ([c] + t)[0] == c && ([c] + t)[1..] == t;
    assert [] + [c] == [c];
  }
}
