/** Field values: the tagged, recursively nested values of tables and arrays.

    A table is a map, and writing it ranges over the map in an arbitrary order. A Layout is a value
    with that choice made: its tables are sequences of entries. The encoding is a function of the
    layout; every layout of a value is a possible run of the writer. */
module FieldCodec {
  import opened Octets

  datatype Scalar =
    | SBool(b: bool)
    | SOctet(o: byte)
    | SInt8(i8val: i8)
    | SInt16(i16val: i16)
    | SInt(n: i64)                       // Go's int, written as int32
    | SInt32(i32val: i32)
    | SInt64(i64val: i64)
    | SFloat32(f32bits: u32)             // IEEE bit pattern
    | SFloat64(f64bits: u64)
    | SDecimal(scale: byte, unscaled: i32)
    | SStr(str: Bytes)
    | STime(sec: i64, nsec: nat)         // Unix seconds and the nanoseconds past them
    | SBlob(blob: Bytes)                 // Go's []byte
    | SNil
    | SUnsupported                       // any other Go type

  datatype Field =
    | Plain(scalar: Scalar)
    | Arr(elems: seq<Field>)
    | Tab(table: map<Bytes, Field>)

  datatype Layout =
    | LPlain(scalar: Scalar)
    | LArr(elems: seq<Layout>)
    | LTab(entries: seq<Entry>)

  datatype Entry = Entry(key: Bytes, val: Layout)

  // ---------- which layouts a value has ----------

  /** l is v with an iteration order chosen for each of its tables. */
  ghost predicate Lays(l: Layout, v: Field)
    decreases l, 1
  {
    match (l, v)
    case (LPlain(s), Plain(t)) => s == t
    case (LArr(ls), Arr(vs)) => |ls| == |vs| && forall i :: 0 <= i < |ls| ==> Lays(ls[i], vs[i])
    case (LTab(es), Tab(m)) => LaysTable(es, m)
    case _ => false
  }

  ghost predicate LaysTable(es: seq<Entry>, m: map<Bytes, Field>)
    decreases es, 0
  {
    && KeySet(es) == m.Keys
    && DistinctKeys(es)
    && forall i :: 0 <= i < |es| ==> LaysEntry(es[i], m)
  }

  ghost predicate LaysEntry(e: Entry, m: map<Bytes, Field>)
    decreases e, 0
  {
    e.key in m && Lays(e.val, m[e.key])
  }

  function KeySet(es: seq<Entry>): set<Bytes> {
    set i | 0 <= i < |es| :: es[i].key
  }

  ghost predicate DistinctKeys(es: seq<Entry>) {
    forall i, j :: 0 <= i < j < |es| ==> es[i].key != es[j].key
  }

  // ---------- encoding ----------

  const TAG_BOOL: byte := 0x74       // 't'
  const TAG_OCTET: byte := 0x42      // 'B'
  const TAG_INT8: byte := 0x62       // 'b'
  const TAG_INT16: byte := 0x73      // 's'
  const TAG_INT32: byte := 0x49      // 'I'
  const TAG_INT64: byte := 0x6C      // 'l'
  const TAG_FLOAT32: byte := 0x66    // 'f'
  const TAG_FLOAT64: byte := 0x64    // 'd'
  const TAG_DECIMAL: byte := 0x44    // 'D'
  const TAG_STRING: byte := 0x53     // 'S'
  const TAG_ARRAY: byte := 0x41      // 'A'
  const TAG_TIME: byte := 0x54       // 'T'
  const TAG_TABLE: byte := 0x46      // 'F'
  const TAG_BLOB: byte := 0x78       // 'x'
  const TAG_NIL: byte := 0x56        // 'V'

  /** The octets of a scalar. Nothing is written for an unsupported type. */
  function EncScalar(s: Scalar): Bytes {
    match s
    case SBool(b) => [TAG_BOOL, if b then 1 else 0]
    case SOctet(o) => [TAG_OCTET, o]
    case SInt8(i) => [TAG_INT8, (i % 0x100) as byte]
    case SInt16(i) => [TAG_INT16] + Put16(i)
    case SInt(n) => [TAG_INT32] + Put32(n)
    case SInt32(i) => [TAG_INT32] + Put32(i)
    case SInt64(i) => [TAG_INT64] + Put64(i)
    case SFloat32(f) => [TAG_FLOAT32] + Put32(f)
    case SFloat64(f) => [TAG_FLOAT64] + Put64(f)
    case SDecimal(scale, v) => [TAG_DECIMAL, scale] + Put32(v)
    case SStr(str) => [TAG_STRING] + EncCounted(str)
    case STime(sec, _) => [TAG_TIME] + Put64(sec)
    case SBlob(blob) => [TAG_BLOB] + EncCounted(blob)
    case SNil => [TAG_NIL]
    case SUnsupported => []
  }

  function EncField(l: Layout): Bytes
    decreases l, 1
  {
    match l
    case LPlain(s) => EncScalar(s)
    case LArr(ls) => [TAG_ARRAY] + EncCounted(EncElems(ls))
    case LTab(es) => [TAG_TABLE] + EncTable(es)
  }

  function EncElems(ls: seq<Layout>): Bytes
    decreases ls, 0
  {
    if ls == [] then [] else EncField(ls[0]) + EncElems(ls[1..])
  }

  function EncTable(es: seq<Entry>): Bytes
    decreases es, 1
  {
    EncLong(EncEntries(es))
  }

  function EncEntries(es: seq<Entry>): Bytes
    decreases es, 0
  {
    if es == [] then [] else EncEntry(es[0]) + EncEntries(es[1..])
  }

  function EncEntry(e: Entry): Bytes
    decreases e, 0
  {
    EncShort(e.key) + EncField(e.val)
  }

  predicate Supported(l: Layout)
    decreases l, 1
  {
    match l
    case LPlain(s) => !s.SUnsupported?
    case LArr(ls) => forall i :: 0 <= i < |ls| ==> Supported(ls[i])
    case LTab(es) => forall i :: 0 <= i < |es| ==> SupportedEntry(es[i])
  }

  predicate SupportedEntry(e: Entry)
    decreases e, 0
  {
    Supported(e.val)
  }

  // ---------- decoding ----------

  function ParseField(s: Bytes): (r: Parsed<Field>)
    ensures |r.rest| <= |s|
    ensures r.Ok? ==> |r.rest| < |s|
    decreases |s|, 0
  {
    var (tag, t) :- Take8(s);
    if tag == TAG_ARRAY then ParseArray(t)
    else if tag == TAG_TABLE then ParseTable(t)
    else
      var (v, u) :- ParseScalar(tag, t);
      Ok(Plain(v), u)
  }

  function ParseScalar(tag: byte, s: Bytes): (r: Parsed<Scalar>)
    ensures |r.rest| <= |s|
  {
    if tag == TAG_BOOL then var (b, t) :- Take8(s); Ok(SBool(b != 0), t)
    else if tag == TAG_OCTET then var (b, t) :- Take8(s); Ok(SOctet(b), t)
    else if tag == TAG_INT8 then var (b, t) :- Take8(s); Ok(SInt8(Signed(b as int, 0x80)), t)
    else if tag == TAG_INT16 then var (n, t) :- Take16(s); Ok(SInt16(Signed(n, 0x8000)), t)
    else if tag == TAG_INT32 then var (n, t) :- Take32(s); Ok(SInt32(Signed(n, TWO31)), t)
    else if tag == TAG_INT64 then var (n, t) :- Take64(s); Ok(SInt64(Signed(n, TWO63)), t)
    else if tag == TAG_FLOAT32 then var (n, t) :- Take32(s); Ok(SFloat32(n), t)
    else if tag == TAG_FLOAT64 then var (n, t) :- Take64(s); Ok(SFloat64(n), t)
    else if tag == TAG_DECIMAL then
      var (scale, t) :- Take8(s);
      var (n, u) :- Take32(t);
      Ok(SDecimal(scale, Signed(n, TWO31)), u)
    else if tag == TAG_STRING then var (str, t) :- ParseLong(s); Ok(SStr(str), t)
    else if tag == TAG_TIME then var (n, t) :- Take64(s); Ok(STime(Signed(n, TWO63), 0), t)
    else if tag == TAG_BLOB then
      var (n, t) :- Take32(s);
      if n >= TWO31 then Fail(Abort, t)    // make([]byte, len) with a negative length panics
      else
        var (blob, u) :- Take(t, n);
        Ok(SBlob(blob), u)
    else if tag == TAG_NIL then Ok(SNil, s)
    else Fail(SyntaxError, s)
  }

  /** The part of s a LimitedReader of the given size lets through, and what lies beyond it. */
  function Limit(s: Bytes, size: nat): (n: nat)
    ensures n <= |s| && n <= size && (n == |s| || n == size)
  {
    if size <= |s| then size else |s|
  }

  function ParseArray(s: Bytes): (r: Parsed<Field>)
    ensures |r.rest| <= |s|
    decreases |s|, 2
  {
    var (size, t) :- Take32(s);
    var n := Limit(t, size);
    var r := ParseElems(t[..n], []);
    match r
    case Ok(vs, left) => Ok(Arr(vs), left + t[n..])
    case Fail(e, left) => Fail(e, left + t[n..])
  }

  /** Elements up to the first EOF. Any EOF ends the array, even one raised inside an element. */
  function ParseElems(s: Bytes, acc: seq<Field>): (r: Parsed<seq<Field>>)
    ensures |r.rest| <= |s|
    decreases |s|, 1
  {
    match ParseField(s)
    case Ok(v, t) => ParseElems(t, acc + [v])
    case Fail(e, t) => if e == EOF then Ok(acc, t) else Fail(e, t)
  }

  function ParseTable(s: Bytes): (r: Parsed<Field>)
    ensures |r.rest| <= |s|
    ensures r.Ok? ==> r.val.Tab?
    decreases |s|, 2
  {
    var (payload, t) :- ParseLong(s);
    match ParseEntries(payload, map[])
    case Ok(m, _) => Ok(Tab(m), t)
    case Fail(e, _) => Fail(e, t)
  }

  function ParseEntries(s: Bytes, m: map<Bytes, Field>): (r: Parsed<map<Bytes, Field>>)
    decreases |s|, 1
  {
    if s == [] then Ok(m, [])
    else
      var (key, t) :- ParseShort(s);
      var (v, u) :- ParseField(t);
      ParseEntries(u, m[key := v])
  }

  // ---------- what comes back ----------

  /** An int comes back as an int32, a time without its nanoseconds. */
  function NormScalar(s: Scalar): Scalar {
    match s
    case SInt(n) => SInt32(Wrap32(n))
    case STime(sec, _) => STime(sec, 0)
    case _ => s
  }

  function NormLayout(l: Layout): Field
    decreases l, 1
  {
    match l
    case LPlain(s) => Plain(NormScalar(s))
    case LArr(ls) => Arr(NormElems(ls))
    case LTab(es) => Tab(NormEntries(es, map[]))
  }

  function NormElems(ls: seq<Layout>): seq<Field>
    decreases ls, 0
  {
    if ls == [] then [] else [NormLayout(ls[0])] + NormElems(ls[1..])
  }

  /** Keys come back truncated like any short string; of two equal keys the later wins. */
  function NormEntries(es: seq<Entry>, m: map<Bytes, Field>): map<Bytes, Field>
    decreases es, 0
  {
    if es == [] then m else NormEntries(es[1..], m[Short(es[0].key) := NormEntry(es[0])])
  }

  function NormEntry(e: Entry): Field
    decreases e, 0
  {
    NormLayout(e.val)
  }

  /** Every length the layout puts on the wire is one the reader takes back. */
  predicate WellSized(l: Layout)
    decreases l, 1
  {
    match l
    case LPlain(SStr(str)) => |str| < TWO31
    case LPlain(SBlob(blob)) => |blob| < TWO31
    case LPlain(s) => !s.SUnsupported?
    case LArr(ls) => |EncElems(ls)| < TWO32 && forall i :: 0 <= i < |ls| ==> WellSized(ls[i])
    case LTab(es) => WellSizedTable(es)
  }

  predicate WellSizedTable(es: seq<Entry>)
    decreases es, 2
  {
    |EncEntries(es)| < TWO31 && forall i :: 0 <= i < |es| ==> WellSizedEntry(es[i])
  }

  predicate WellSizedEntry(e: Entry)
    decreases e, 0
  {
    WellSized(e.val)
  }

  // ---------- round trip ----------

  lemma ScalarBodyRoundTrip(s: Scalar, rest: Bytes)
    requires WellSized(LPlain(s))
    ensures ParseScalar(EncScalar(s)[0], EncScalar(s)[1..] + rest) == Ok(NormScalar(s), rest)
  {
    hide Put16; hide Put32; hide Put64; hide Take8; hide Take16; hide Take32; hide Take64; hide ParseLong; hide EncLong;
    var body := EncScalar(s)[1..];
    match s {
      case SBool(b) => Take8Put(if b then 1 else 0, rest);
      case SOctet(o) => Take8Put(o, rest);
      case SInt8(i) => Take8Put((i % 0x100) as byte, rest);
      case SInt16(i) => assert body == Put16(i); Take16Put(i, rest);
      case SInt(n) => assert body == Put32(n); Take32Put(n, rest);
      case SInt32(i) => assert body == Put32(i); Take32Put(i, rest);
      case SInt64(i) => assert body == Put64(i); Take64Put(i, rest);
      case SFloat32(f) => assert body == Put32(f); Take32Put(f, rest);
      case SFloat64(f) => assert body == Put64(f); Take64Put(f, rest);
      case SDecimal(scale, v) => DecimalRoundTrip(scale, v, rest);
      case SStr(str) => assert body == EncCounted(str); LongIsCounted(str); LongRoundTrip(str, rest);
      case STime(sec, _) => assert body == Put64(sec); Take64Put(sec, rest);
      case SBlob(blob) => BlobRoundTrip(blob, rest);
      case SNil => assert body + rest == rest;
    }
  }

  lemma DecimalRoundTrip(scale: byte, v: i32, rest: Bytes)
    ensures ParseScalar(TAG_DECIMAL, EncScalar(SDecimal(scale, v))[1..] + rest) == Ok(SDecimal(scale, v), rest)
  {
    hide Put32; hide Get32;
    assert EncScalar(SDecimal(scale, v))[1..] + rest == [scale] + (Put32(v) + rest);
    Take8Put(scale, Put32(v) + rest);
    Take32Put(v, rest);
  }

  lemma BlobRoundTrip(blob: Bytes, rest: Bytes)
    requires |blob| < TWO31
    ensures ParseScalar(TAG_BLOB, EncScalar(SBlob(blob))[1..] + rest) == Ok(SBlob(blob), rest)
  {
    hide Put32; hide Get32;
    assert EncScalar(SBlob(blob))[1..] + rest == Put32(|blob|) + (blob + rest);
    Take32Put(|blob|, blob + rest);
    TakeExact(blob, rest);
  }

  lemma TagOfScalar(s: Scalar)
    requires WellSized(LPlain(s))
    ensures EncScalar(s) != [] && EncScalar(s)[0] !in {TAG_ARRAY, TAG_TABLE}
  {
  }

  lemma ScalarRoundTrip(s: Scalar, rest: Bytes)
    requires WellSized(LPlain(s))
    ensures ParseField(EncScalar(s) + rest) == Ok(Plain(NormScalar(s)), rest)
  {
    hide EncScalar; hide NormScalar; hide ParseScalar; hide Take8; hide WellSized;
    TagOfScalar(s);
    var tag, body := EncScalar(s)[0], EncScalar(s)[1..] + rest;
    assert EncScalar(s) + rest == [tag] + body;
    Take8Put(tag, body);
    ScalarBodyRoundTrip(s, rest);
  }

  /** Reading back what was written, whatever order each table was written in. */
  lemma {:induction false} FieldRoundTrip(l: Layout, rest: Bytes)
    requires WellSized(l)
    ensures ParseField(EncField(l) + rest) == Ok(NormLayout(l), rest)
    decreases l, 3
  {
    match l {
      case LPlain(s) => ScalarRoundTrip(s, rest);
      case LArr(ls) =>
        assert EncField(l) + rest == [TAG_ARRAY] + (EncCounted(EncElems(ls)) + rest);
        Take8Put(TAG_ARRAY, EncCounted(EncElems(ls)) + rest);
        ArrayRoundTrip(ls, rest);
      case LTab(es) =>
        assert EncField(l) + rest == [TAG_TABLE] + (EncTable(es) + rest);
        Take8Put(TAG_TABLE, EncTable(es) + rest);
        TableRoundTrip(es, rest);
    }
  }

  lemma {:induction false} ArrayRoundTrip(ls: seq<Layout>, rest: Bytes)
    requires |EncElems(ls)| < TWO32 && forall i :: 0 <= i < |ls| ==> WellSized(ls[i])
    ensures ParseArray(EncCounted(EncElems(ls)) + rest) == Ok(Arr(NormElems(ls)), rest)
    decreases ls, 4
  {
    ElemsRoundTrip(ls, []);
    assert [] + NormElems(ls) == NormElems(ls);
    ArrayOfElems(EncElems(ls), NormElems(ls), rest);
  }

  lemma ArrayOfElems(p: Bytes, fs: seq<Field>, rest: Bytes)
    requires |p| < TWO32 && ParseElems(p, []) == Ok(fs, [])
    ensures ParseArray(EncCounted(p) + rest) == Ok(Arr(fs), rest)
  {
    hide Put32; hide Get32; hide ParseElems;
    assert EncCounted(p) + rest == Put32(|p|) + (p + rest);
    Take32Put(|p|, p + rest);
    assert (p + rest)[..|p|] == p && [] + (p + rest)[|p|..] == rest;
  }

  /** The array loop runs through every element and meets EOF only after the last one. */
  lemma {:induction false} ElemsRoundTrip(ls: seq<Layout>, acc: seq<Field>)
    requires forall i :: 0 <= i < |ls| ==> WellSized(ls[i])
    ensures ParseElems(EncElems(ls), acc) == Ok(acc + NormElems(ls), [])
    decreases ls, 2
  {
    if ls == [] {
      assert acc + [] == acc;
      assert ParseField([]) == Fail(EOF, []);
    } else {
      FieldRoundTrip(ls[0], EncElems(ls[1..]));
      ElemsRoundTrip(ls[1..], acc + [NormLayout(ls[0])]);
      assert acc + [NormLayout(ls[0])] + NormElems(ls[1..]) == acc + NormElems(ls);
    }
  }

  lemma {:induction false} TableRoundTrip(es: seq<Entry>, rest: Bytes)
    requires WellSizedTable(es)
    ensures ParseTable(EncTable(es) + rest) == Ok(Tab(NormEntries(es, map[])), rest)
    decreases es, 3
  {
    LongRoundTrip(EncEntries(es), rest);
    EntriesRoundTrip(es, map[]);
  }

  lemma {:induction false} EntriesRoundTrip(es: seq<Entry>, m: map<Bytes, Field>)
    requires forall i :: 0 <= i < |es| ==> WellSizedEntry(es[i])
    ensures ParseEntries(EncEntries(es), m) == Ok(NormEntries(es, m), [])
    decreases es, 2
  {
    if es == [] {
    } else {
      EntryRoundTrip(es[0], EncEntries(es[1..]));
      EntriesRoundTrip(es[1..], m[Short(es[0].key) := NormEntry(es[0])]);
    }
  }

  lemma {:induction false} EntryRoundTrip(e: Entry, rest: Bytes)
    requires WellSizedEntry(e)
    ensures ParseShort(EncEntry(e) + rest) == Ok(Short(e.key), EncField(e.val) + rest)
    ensures ParseField(EncField(e.val) + rest) == Ok(NormEntry(e), rest)
    decreases e, 1
  {
    assert EncEntry(e) + rest == EncShort(e.key) + (EncField(e.val) + rest);
    ShortRoundTrip(e.key, EncField(e.val) + rest);
    FieldRoundTrip(e.val, rest);
  }

  // ---------- the result does not depend on the order chosen ----------

  function Norm(v: Field): Field {
    match v
    case Plain(s) => Plain(NormScalar(s))
    case Arr(vs) => Arr(seq(|vs|, i requires 0 <= i < |vs| => Norm(vs[i])))
    case Tab(m) => Tab(map k | k in m :: Norm(m[k]))
  }

  /** Every key, at every depth, fits a short string. */
  predicate ShortKeys(v: Field) {
    match v
    case Plain(_) => true
    case Arr(vs) => forall i :: 0 <= i < |vs| ==> ShortKeys(vs[i])
    case Tab(m) => forall k :: k in m ==> |k| < 256 && ShortKeys(m[k])
  }

  /** A value with short keys reads back as itself, normalised, from any of its layouts. */
  lemma {:induction false} AnyOrderRoundTrip(l: Layout, v: Field, rest: Bytes)
    requires Lays(l, v) && ShortKeys(v) && WellSized(l)
    ensures ParseField(EncField(l) + rest) == Ok(Norm(v), rest)
  {
    FieldRoundTrip(l, rest);
    NormLayoutIsNorm(l, v);
  }

  lemma {:induction false} NormLayoutIsNorm(l: Layout, v: Field)
    requires Lays(l, v) && ShortKeys(v)
    ensures NormLayout(l) == Norm(v)
    decreases l, 2
  {
    match (l, v) {
      case (LPlain(_), Plain(_)) =>
      case (LArr(ls), Arr(vs)) =>
        NormArrayIsNorm(ls, vs);
      case (LTab(es), Tab(m)) =>
        NormTableIsNorm(es, m);
    }
  }

  lemma {:induction false} NormTableIsNorm(es: seq<Entry>, m: map<Bytes, Field>)
    requires Lays(LTab(es), Tab(m)) && ShortKeys(Tab(m))
    ensures Tab(NormEntries(es, map[])) == Norm(Tab(m))
    decreases es, 3
  {
    hide ShortKeys; hide NormEntries; hide LaysEntry;
    NormEntriesIsNorm(es, m, map[]);
    assert NormEntries(es, map[]) == map k | k in m :: Norm(m[k]);
  }

  lemma {:induction false} NormArrayIsNorm(ls: seq<Layout>, vs: seq<Field>)
    requires |ls| == |vs| && forall i :: 0 <= i < |ls| ==> Lays(ls[i], vs[i]) && ShortKeys(vs[i])
    ensures Arr(NormElems(ls)) == Norm(Arr(vs))
    decreases ls, 3
  {
    hide NormElems; hide NormLayout; hide Lays; hide ShortKeys;
    NormElemsLength(ls);
    forall i | 0 <= i < |ls|
      ensures NormElems(ls)[i] == Norm(vs[i])
    {
      NormElemsAt(ls, i);
      NormLayoutIsNorm(ls[i], vs[i]);
    }
    assert NormElems(ls) == seq(|vs|, i requires 0 <= i < |vs| => Norm(vs[i]));
  }

  lemma {:induction false} NormElemsLength(ls: seq<Layout>)
    ensures |NormElems(ls)| == |ls|
  {
    if ls != [] {
      NormElemsLength(ls[1..]);
    }
  }

  lemma {:induction false} NormElemsAt(ls: seq<Layout>, i: nat)
    requires i < |ls|
    ensures |NormElems(ls)| == |ls|
    ensures NormElems(ls)[i] == NormLayout(ls[i])
  {
    NormElemsLength(ls);
    NormElemsLength(ls[1..]);
    if i > 0 {
      NormElemsAt(ls[1..], i - 1);
    }
  }

  lemma {:induction false} NormEntriesIsNorm(es: seq<Entry>, m: map<Bytes, Field>, acc: map<Bytes, Field>)
    requires ShortKeys(Tab(m)) && DistinctKeys(es)
    requires forall i :: 0 <= i < |es| ==> LaysEntry(es[i], m)
    ensures NormEntries(es, acc).Keys == acc.Keys + KeySet(es)
    ensures forall k :: k in KeySet(es) ==> k in m && NormEntries(es, acc)[k] == Norm(m[k])
    ensures forall k :: k in acc && k !in KeySet(es) ==> NormEntries(es, acc)[k] == acc[k]
    decreases es, 1
  {
    if es == [] {
    } else {
      var e := es[0];
      NormEntryIsNorm(e, m);
      ShortExact(e.key);
      NormEntriesIsNorm(es[1..], m, acc[e.key := Norm(m[e.key])]);
      assert KeySet(es) == {e.key} + KeySet(es[1..]);
      assert e.key !in KeySet(es[1..]);
    }
  }

  lemma {:induction false} NormEntryIsNorm(e: Entry, m: map<Bytes, Field>)
    requires ShortKeys(Tab(m)) && LaysEntry(e, m)
    ensures NormEntry(e) == Norm(m[e.key])
    decreases e, 0
  {
    NormLayoutIsNorm(e.val, m[e.key]);
  }
}
