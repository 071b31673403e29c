/**
 * The scripter's random text: RandomString over its fixed 65-character
 * alphabet and RandomBytesHex, the `0x` hexadecimal rendering of random bytes.
 */
module RandomText {
  import opened SqlText
  import opened Draws

  /** The `n` consecutive characters starting at `first`. */
  function CharRange(first: char, n: nat): (r: string)
    requires first as int + n <= 0x80
    ensures |r| == n
    ensures forall i :: 0 <= i < n ==> r[i] as int == first as int + i
    decreases n
  {
    if n == 0 then [] else [first] + CharRange((first as int + 1) as char, n - 1)
  }

  /** The alphabet "abcdefghijklmnopqrstuvwxyzABCDEFGHIJKLMNOPQRSTUVWXYZ0123456789 _-". */
  const Alphabet: string := CharRange('a', 26) + CharRange('A', 26) + CharRange('0', 10) + " _-"

  predicate AlphabetChar(c: char)
  {
    ('a' <= c <= 'z') || ('A' <= c <= 'Z') || ('0' <= c <= '9') || c == ' ' || c == '_' || c == '-'
  }

  predicate InAlphabet(s: string)
  {
    forall i :: 0 <= i < |s| ==> AlphabetChar(s[i])
  }

  /** `RandomString(rng, len)`: one draw per character, each an index into the alphabet. */
  function RandomString(rng: Rng, len: nat): (r: (string, Rng))
    ensures |r.0| == len && InAlphabet(r.0)
    ensures Advanced(rng, r.1, len)
    decreases len
  {
    if len == 0 then ([], rng)
    else
      AlphabetChars();
      var (i, rng1) := Next(rng, |Alphabet|);
      var (rest, rng2) := RandomString(rng1, len - 1);
      ([Alphabet[i]] + rest, rng2)
  }

  /** The alphabet holds none of the characters that SQL or JSON quoting treats specially. */
  lemma AlphabetChars()
    ensures |Alphabet| == 65
    ensures forall i :: 0 <= i < |Alphabet| ==> AlphabetChar(Alphabet[i])
  {
  }

  lemma AlphabetIsPlain(s: string)
    requires InAlphabet(s)
    ensures '\'' !in s && '"' !in s && '\\' !in s && ']' !in s
    ensures forall i :: 0 <= i < |s| ==> s[i] !in "{}[]"
  {
    forall i | 0 <= i < |s| ensures s[i] !in "{}[]" {
      assert AlphabetChar(s[i]);
    }
  }

  /** Quoting a random string as a SQL literal leaves its text unchanged. */
  lemma RandomStringNeedsNoEscaping(s: string)
    requires InAlphabet(s)
    ensures Double(s, '\'') == s
    ensures ReplaceChar(s, '"', "\\\"") == s
  {
    AlphabetIsPlain(s);
  }

  /** `r` is "0x" followed by two upper-case hex digits per byte, reading back as `bytes`. */
  predicate IsHexLiteralOf(r: string, bytes: seq<byte>)
  {
    && |r| == 2 + 2 * |bytes| && r[..2] == "0x"
    && (forall i :: 2 <= i < |r| ==> IsHexDigit(r[i]))
    && ReadHex(r[2..]) == bytes
  }

  lemma HexLiteral(bytes: seq<byte>)
    ensures IsHexLiteralOf("0x" + HexBytes(bytes), bytes)
  {
    var hex := HexBytes(bytes);
    var r := "0x" + hex;
    assert r[2..] == hex;
    ReadHexRoundTrip(bytes);
    forall i | 2 <= i < |r| ensures IsHexDigit(r[i]) {
      assert r[i] == hex[i - 2];
    }
  }

  /** `RandomBytesHex(rng, len)`: "0x" and two upper-case hex digits per drawn byte. */
  function RandomBytesHex(rng: Rng, len: nat): (r: (string, Rng))
    ensures IsHexLiteralOf(r.0, NextBytes(rng, len).0)
    ensures |r.0| == 2 + 2 * len
    ensures Advanced(rng, r.1, len)
  {
    var drawn := NextBytes(rng, len);
    HexLiteral(drawn.0);
    ("0x" + HexBytes(drawn.0), drawn.1)
  }
}
