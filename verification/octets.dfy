/** Octets, big-endian integers and the outcome of reading from a byte source.

    A byte source is its unread octets. Reading returns either a value and the octets left,
    or an error and the octets left: the octets consumed before an error stay consumed. */
module Octets {

  newtype byte = x: int | 0 <= x < 256
  type Bytes = seq<byte>

  type u16 = x: int | 0 <= x < 0x1_0000
  type u32 = x: int | 0 <= x < 0x1_0000_0000
  type u64 = x: int | 0 <= x < 0x1_0000_0000_0000_0000
  type i8 = x: int | -0x80 <= x < 0x80
  type i16 = x: int | -0x8000 <= x < 0x8000
  type i32 = x: int | -0x8000_0000 <= x < 0x8000_0000
  type i64 = x: int | -0x8000_0000_0000_0000 <= x < 0x8000_0000_0000_0000

  const TWO31 := 0x8000_0000
  const TWO32 := 0x1_0000_0000
  const TWO63 := 0x8000_0000_0000_0000
  const TWO64 := 0x1_0000_0000_0000_0000

  // ---------- fixed-width integers, truncating like Go's conversions ----------

  /** The low 16 bits of n, most significant octet first. A negative n is in two's complement. */
  function Put16(n: int): (b: Bytes)
    ensures |b| == 2
  {
    [((n / 0x100) % 0x100) as byte, (n % 0x100) as byte]
  }

  function Put32(n: int): (b: Bytes)
    ensures |b| == 4
  {
    [((n / 0x100_0000) % 0x100) as byte, ((n / 0x1_0000) % 0x100) as byte,
     ((n / 0x100) % 0x100) as byte, (n % 0x100) as byte]
  }

  function Put64(n: int): (b: Bytes)
    ensures |b| == 8
  {
    Put32(n / TWO32) + Put32(n)
  }

  function Get16(b: Bytes): u16
    requires |b| == 2
  {
    b[0] as int * 0x100 + b[1] as int
  }

  function Get32(b: Bytes): u32
    requires |b| == 4
  {
    b[0] as int * 0x100_0000 + b[1] as int * 0x1_0000 + b[2] as int * 0x100 + b[3] as int
  }

  function Get64(b: Bytes): u64
    requires |b| == 8
  {
    Get32(b[..4]) * TWO32 + Get32(b[4..])
  }

  lemma GetPut16(n: int)
    ensures Get16(Put16(n)) == n % 0x1_0000
  {
  }

  lemma GetPut32(n: int)
    ensures Get32(Put32(n)) == n % TWO32
  {
    var q1, q2, q3 := n / 0x100, n / 0x1_0000, n / 0x100_0000;
    NextDigit(n, 0x100);
    NextDigit(n, 0x1_0000);
    NextDigit(n, 0x100_0000);
    assert Get32(Put32(n)) == n - n / TWO32 * TWO32;
  }

  /** Dividing by 256 more takes one more octet off. */
  lemma NextDigit(n: int, base: nat)
    requires base in {0x100, 0x1_0000, 0x100_0000}
    ensures n / base == n / (base * 0x100) * 0x100 + n / base % 0x100
  {
  }

  lemma SplitMod64(n: int)
    ensures (n / TWO32) % TWO32 * TWO32 + n % TWO32 == n % TWO64
  {
    var h := n / TWO32;
    var q, r := h / TWO32, h % TWO32 * TWO32 + n % TWO32;
    assert n == q * TWO64 + r && 0 <= r < TWO64;
  }

  lemma GetPut64(n: int)
    ensures Get64(Put64(n)) == n % TWO64
  {
    GetPut32(n / TWO32);
    GetPut32(n);
    assert Put64(n)[..4] == Put32(n / TWO32) && Put64(n)[4..] == Put32(n);
    SplitMod64(n);
  }

  /** Reinterpreting an unsigned value of the given modulus as two's complement. */
  function Signed(u: nat, half: nat): int
    requires u < 2 * half
    ensures -(half as int) <= Signed(u, half) < half
  {
    if u >= half then u - 2 * half else u
  }

  /** Go's int32(n) for an integer of any width. */
  function Wrap32(n: int): (w: i32) {
    Signed(n % TWO32, TWO31)
  }

  lemma Wrap32Exact(n: int)
    ensures Wrap32(n) == n <==> -TWO31 <= n < TWO31
  {
  }

  // ---------- one octet as bits ----------

  function OfBits(b: bv8): byte {
    b as int as byte
  }

  function ToBits(b: byte): bv8 {
    b as int as bv8
  }

  lemma BitsRoundTrip(b: bv8)
    ensures ToBits(OfBits(b)) == b
  {
  }

  // ---------- reading ----------

  datatype Error =
    | EOF               // nothing left where at least one octet was needed
    | UnexpectedEOF     // some octets left, but too few
    | SyntaxError       // unknown field type
    | FrameError        // unknown frame type or wrong end octet
    | HeartbeatPayload
    | BadMethod         // no method has this class and index
    | Abort             // the Go program panics

  datatype Parsed<+T> = Ok(val: T, rest: Bytes) | Fail(err: Error, rest: Bytes) {
    predicate IsFailure() {
      Fail?
    }

    function PropagateFailure<U>(): Parsed<U>
      requires Fail?
    {
      Fail(err, rest)
    }

    function Extract(): (T, Bytes)
      requires Ok?
    {
      (val, rest)
    }
  }

  predicate IsSuffix(t: Bytes, s: Bytes) {
    |t| <= |s| && s[|s| - |t|..] == t
  }

  lemma SuffixTransitive(a: Bytes, b: Bytes, c: Bytes)
    requires IsSuffix(a, b) && IsSuffix(b, c)
    ensures IsSuffix(a, c)
  {
    assert b[|b| - |a|..] == c[|c| - |b|..][|b| - |a|..] == c[|c| - |a|..];
  }

  /** io.ReadFull: a request for no octets always succeeds. */
  function Take(s: Bytes, n: nat): (r: Parsed<Bytes>)
    ensures |r.rest| <= |s|
    ensures r.Ok? ==> |r.val| == n && r.val + r.rest == s
    ensures r.Fail? ==> r.err in {EOF, UnexpectedEOF} && r.rest == []
  {
    if n <= |s| then Ok(s[..n], s[n..])
    else Fail(if s == [] then EOF else UnexpectedEOF, [])
  }

  lemma TakeExact(a: Bytes, rest: Bytes)
    ensures Take(a + rest, |a|) == Ok(a, rest)
  {
  }

  function Take8(s: Bytes): (r: Parsed<byte>)
    ensures r.Ok? ==> s == [r.val] + r.rest
    ensures r.Fail? ==> r.rest == []
  {
    var (b, t) :- Take(s, 1);
    Ok(b[0], t)
  }

  function Take16(s: Bytes): (r: Parsed<u16>)
    ensures |r.rest| <= |s| - (if r.Ok? then 2 else 0)
  {
    var (b, t) :- Take(s, 2);
    Ok(Get16(b), t)
  }

  function Take32(s: Bytes): (r: Parsed<u32>)
    ensures |r.rest| <= |s| - (if r.Ok? then 4 else 0)
  {
    var (b, t) :- Take(s, 4);
    Ok(Get32(b), t)
  }

  function Take64(s: Bytes): (r: Parsed<u64>)
    ensures |r.rest| <= |s| - (if r.Ok? then 8 else 0)
  {
    var (b, t) :- Take(s, 8);
    Ok(Get64(b), t)
  }

  lemma Take8Put(b: byte, rest: Bytes)
    ensures Take8([b] + rest) == Ok(b, rest)
  {
    TakeExact([b], rest);
  }

  lemma Take16Put(n: int, rest: Bytes)
    ensures Take16(Put16(n) + rest) == Ok(n % 0x1_0000, rest)
  {
    hide Put16; hide Get16;
    TakeExact(Put16(n), rest);
    GetPut16(n);
  }

  lemma Take32Put(n: int, rest: Bytes)
    ensures Take32(Put32(n) + rest) == Ok(n % TWO32, rest)
  {
    hide Put32; hide Get32;
    TakeExact(Put32(n), rest);
    GetPut32(n);
  }

  lemma Take64Put(n: int, rest: Bytes)
    ensures Take64(Put64(n) + rest) == Ok(n % TWO64, rest)
  {
    hide Put64; hide Get64;
    TakeExact(Put64(n), rest);
    GetPut64(n);
  }

  // ---------- strings ----------

  /** A short string keeps its first len % 256 octets: writeShortstr truncates the length to
      one octet and then slices the string by it. */
  function Short(s: Bytes): (t: Bytes) {
    s[..|s| % 256]
  }

  lemma ShortExact(s: Bytes)
    ensures Short(s) == s <==> |s| < 256
  {
  }

  function EncShort(s: Bytes): Bytes {
    [(|s| % 256) as byte] + Short(s)
  }

  function ParseShort(s: Bytes): (r: Parsed<Bytes>)
    ensures |r.rest| <= |s| - (if r.Ok? then 1 else 0)
  {
    var (n, t) :- Take8(s);
    Take(t, n as nat)
  }

  lemma ShortRoundTrip(s: Bytes, rest: Bytes)
    ensures ParseShort(EncShort(s) + rest) == Ok(Short(s), rest)
  {
    assert EncShort(s) + rest == [(|s| % 256) as byte] + (Short(s) + rest);
    Take8Put((|s| % 256) as byte, Short(s) + rest);
    TakeExact(Short(s), rest);
  }

  /** Octets behind their count, of which only the low 32 bits are written. */
  function EncCounted(s: Bytes): Bytes {
    Put32(|s|) + s
  }

  /** A long string also keeps only as many octets as the truncated count says: writeLongstr slices
      the string by it. */
  function Long(s: Bytes): (t: Bytes) {
    s[..|s| % TWO32]
  }

  function EncLong(s: Bytes): Bytes {
    Put32(|s|) + Long(s)
  }

  lemma LongIsCounted(s: Bytes)
    requires |s| < TWO32
    ensures EncLong(s) == EncCounted(s)
  {
  }

  /** A length above 2^31-1 yields the empty string and no error, and leaves the octets
      of the string unread. */
  function ParseLong(s: Bytes): (r: Parsed<Bytes>)
    ensures |r.rest| <= |s| - (if r.Ok? then 4 + |r.val| else 0)
  {
    var (n, t) :- Take32(s);
    if n >= TWO31 then Ok([], t) else Take(t, n)
  }

  /** A long string survives the wire exactly when it is shorter than 2^31 octets. */
  lemma LongRoundTrip(s: Bytes, rest: Bytes)
    ensures ParseLong(EncLong(s) + rest) == Ok(s, rest) <==> |s| < TWO31
  {
    hide Put32; hide Get32; hide Take;
    assert EncLong(s) + rest == Put32(|s|) + (Long(s) + rest);
    Take32Put(|s|, Long(s) + rest);
    TakeExact(Long(s), rest);
    if |s| < TWO31 {
      assert Long(s) == s;
    } else {
      assert |s| % TWO32 < TWO31 ==> |Long(s)| < |s|;
    }
  }
}
