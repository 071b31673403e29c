/**
 * The scripter's entropy, made explicit. System.Random(12345) becomes an
 * abstract stream of raw integer draws read from a position; each call of
 * Next, NextDouble or NextBytes consumes draws from it and is reduced to the
 * range the call promises. Guid.NewGuid does not use that generator, so GUID
 * texts come from a second stream.
 */
module Draws {
  import opened SqlText

  /** int.MaxValue: NextDouble's sample k stands for the double k / IntMax. */
  const IntMax: int := 0x7FFF_FFFF

  datatype Rng = Rng(draws: nat -> nat, pos: nat, guids: nat -> string, guidPos: nat)

  /** `b` is `a` after exactly `k` more draws from the integer stream. */
  ghost predicate Advanced(a: Rng, b: Rng, k: nat)
  {
    b == a.(pos := a.pos + k)
  }

  /** Random.Next(n): 0 <= r < n, or 0 when n == 0; one draw either way. */
  function Next(rng: Rng, n: int): (r: (int, Rng))
    requires 0 <= n
    ensures n > 0 ==> 0 <= r.0 < n
    ensures n == 0 ==> r.0 == 0
    ensures Advanced(rng, r.1, 1)
  {
    (if n == 0 then 0 else rng.draws(rng.pos) % n, rng.(pos := rng.pos + 1))
  }

  /** Random.Next(lo, hi): lo <= r < hi, or lo when lo == hi; one draw. */
  function NextIn(rng: Rng, lo: int, hi: int): (r: (int, Rng))
    requires lo <= hi
    ensures lo < hi ==> lo <= r.0 < hi
    ensures lo == hi ==> r.0 == lo
    ensures Advanced(rng, r.1, 1)
  {
    var (k, rng') := Next(rng, hi - lo);
    (lo + k, rng')
  }

  /** Random.NextDouble(): the sample k, standing for k / IntMax in [0, 1). */
  function NextSample(rng: Rng): (r: (nat, Rng))
    ensures r.0 < IntMax
    ensures Advanced(rng, r.1, 1)
  {
    (rng.draws(rng.pos) % IntMax, rng.(pos := rng.pos + 1))
  }

  /** The double a sample stands for. */
  function Unit(k: nat): (u: real)
    requires k < IntMax
    ensures 0.0 <= u < 1.0
  {
    k as real / IntMax as real
  }

  /** Random.NextBytes on a fresh buffer of `len` bytes: one draw per byte. */
  function NextBytes(rng: Rng, len: nat): (r: (seq<byte>, Rng))
    ensures |r.0| == len
    ensures Advanced(rng, r.1, len)
    decreases len
  {
    if len == 0 then ([], rng)
    else
      var b := (rng.draws(rng.pos) % 256) as byte;
      var (rest, rng') := NextBytes(rng.(pos := rng.pos + 1), len - 1);
      ([b] + rest, rng')
  }

  /** Guid.NewGuid() in its "D" text form, from the GUID stream. */
  function NewGuid(rng: Rng): (r: (string, Rng))
    ensures r.1 == rng.(guidPos := rng.guidPos + 1)
  {
    (rng.guids(rng.guidPos), rng.(guidPos := rng.guidPos + 1))
  }
}
