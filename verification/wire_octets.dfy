/** The octets on the wire as numbers: big-endian integers by their place values and every field type by its
    octet, without the encoder or its constants. */
module WireOctets {
  import opened Octets
  import opened FieldCodec

  // ---------- integers ----------

  /** Octets read as a number, each worth 256 of the next. */
  function BigEndian(b: Bytes): nat {
    if b == [] then 0 else BigEndian(b[..|b| - 1]) * 256 + b[|b| - 1] as nat
  }

  lemma BigEndianSnoc(b: Bytes, x: byte)
    ensures BigEndian(b + [x]) == BigEndian(b) * 256 + x as nat
  {
    assert (b + [x])[..|b|] == b;
  }

  /** One more step: the number up to i + 1 octets from that up to i. */
  lemma BigEndianUpTo(b: Bytes, i: nat)
    requires i < |b|
    ensures BigEndian(b[..i + 1]) == BigEndian(b[..i]) * 256 + b[i] as nat
  {
    assert b[..i + 1] == b[..i] + [b[i]];
    BigEndianSnoc(b[..i], b[i]);
  }

  lemma BigEndianGet16(b: Bytes)
    requires |b| == 2
    ensures BigEndian(b) == Get16(b)
  {
    hide BigEndian;
    NoOctets(b);
    BigEndianUpTo(b, 0);
    BigEndianUpTo(b, 1);
    assert b[..2] == b;
  }

  lemma NoOctets(b: Bytes)
    ensures BigEndian(b[..0]) == 0
  {
  }

  lemma BigEndianGet32(b: Bytes)
    requires |b| == 4
    ensures BigEndian(b) == Get32(b)
  {
    hide BigEndian;
    NoOctets(b);
    BigEndianUpTo(b, 0);
    BigEndianUpTo(b, 1);
    BigEndianUpTo(b, 2);
    BigEndianUpTo(b, 3);
    assert b[..4] == b;
  }

  lemma BigEndianGet64(b: Bytes)
    requires |b| == 8
    ensures BigEndian(b) == Get64(b)
  {
    hide BigEndian; hide Get32;
    var high, low := b[..4], b[4..];
    BigEndianUpTo(b, 4);
    BigEndianUpTo(b, 5);
    BigEndianUpTo(b, 6);
    BigEndianUpTo(b, 7);
    NoOctets(low);
    BigEndianUpTo(low, 0);
    BigEndianUpTo(low, 1);
    BigEndianUpTo(low, 2);
    BigEndianUpTo(low, 3);
    assert b[..8] == b && low[..4] == low;
    BigEndianGet32(high);
    BigEndianGet32(low);
  }

  /** What is put down is the low part of the number, in that order. */
  lemma PutBigEndian(n: int)
    ensures BigEndian(Put16(n)) == n % 0x1_0000
    ensures BigEndian(Put32(n)) == n % 0x1_0000_0000
    ensures BigEndian(Put64(n)) == n % 0x1_0000_0000_0000_0000
  {
    hide Put16; hide Put32; hide Put64; hide Get16; hide Get32; hide Get64; hide BigEndian;
    BigEndianGet16(Put16(n));
    BigEndianGet32(Put32(n));
    BigEndianGet64(Put64(n));
    GetPut16(n);
    GetPut32(n);
    GetPut64(n);
  }

  /** As many octets with the same value are the same octets. */
  lemma {:induction false} BigEndianInjective(a: Bytes, b: Bytes)
    requires |a| == |b| && BigEndian(a) == BigEndian(b)
    ensures a == b
  {
    if a != [] {
      var n := |a| - 1;
      LastDigit(BigEndian(a[..n]), a[n], BigEndian(b[..n]), b[n]);
      BigEndianInjective(a[..n], b[..n]);
      assert a == a[..n] + [a[n]] && b == b[..n] + [b[n]];
    }
  }

  lemma LastDigit(x: nat, a: byte, y: nat, b: byte)
    requires x * 256 + a as nat == y * 256 + b as nat
    ensures x == y && a == b
  {
  }

  // ---------- field values ----------

  /** A tag and a number. */
  predicate Tagged(e: Bytes, tag: byte, width: nat, n: nat) {
    |e| == 1 + width && e[0] == tag && BigEndian(e[1..]) == n
  }

  /** A tag, a four-octet count and the octets counted. */
  predicate Counted(e: Bytes, tag: byte, s: Bytes) {
    |e| == 5 + |s| && e[0] == tag && BigEndian(e[1..5]) == |s| % 0x1_0000_0000 && e[5..] == s
  }

  predicate ScalarOctets(s: Scalar, e: Bytes) {
    match s
    case SBool(b) => e == [0x74, if b then 1 else 0]
    case SOctet(o) => e == [0x42, o]
    case SInt8(i) => Tagged(e, 0x62, 1, i % 0x100)
    case SInt16(i) => Tagged(e, 0x73, 2, i % 0x1_0000)
    case SInt(n) => Tagged(e, 0x49, 4, n % 0x1_0000_0000)
    case SInt32(i) => Tagged(e, 0x49, 4, i % 0x1_0000_0000)
    case SInt64(i) => Tagged(e, 0x6C, 8, i % 0x1_0000_0000_0000_0000)
    case SFloat32(f) => Tagged(e, 0x66, 4, f)
    case SFloat64(f) => Tagged(e, 0x64, 8, f)
    case SDecimal(scale, v) =>
      |e| == 6 && e[0] == 0x44 && e[1] == scale && BigEndian(e[2..]) == v % 0x1_0000_0000
    case SStr(str) => Counted(e, 0x53, str)
    case STime(sec, _) => Tagged(e, 0x54, 8, sec % 0x1_0000_0000_0000_0000)
    case SBlob(blob) => Counted(e, 0x78, blob)
    case SNil => e == [0x56]
    case SUnsupported => e == []
  }

  ghost predicate FieldOctets(l: Layout, e: Bytes)
    decreases l, 1
  {
    match l
    case LPlain(s) => ScalarOctets(s, e)
    case LArr(ls) => |e| >= 5 && Counted(e, 0x41, e[5..]) && ElemsOctets(ls, e[5..])
    case LTab(es) => |e| >= 1 && e[0] == 0x46 && TableOctets(es, e[1..])
  }

  ghost predicate ElemsOctets(ls: seq<Layout>, p: Bytes)
    decreases ls, 0
  {
    if ls == [] then p == []
    else exists n: nat | n <= |p| :: FieldOctets(ls[0], p[..n]) && ElemsOctets(ls[1..], p[n..])
  }

  /** A four-octet count and as many of the entries' octets as it says. */
  ghost predicate TableOctets(es: seq<Entry>, e: Bytes)
    decreases es, 3
  {
    exists p: Bytes :: EntriesOctets(es, p) && CountedTo(e, p)
  }

  predicate CountedTo(e: Bytes, p: Bytes) {
    |e| >= 4 && BigEndian(e[..4]) == |p| % 0x1_0000_0000 && e[4..] == p[..|p| % 0x1_0000_0000]
  }

  ghost predicate EntriesOctets(es: seq<Entry>, p: Bytes)
    decreases es, 2
  {
    if es == [] then p == []
    else exists n: nat | n <= |p| :: EntryOctets(es[0], p[..n]) && EntriesOctets(es[1..], p[n..])
  }

  /** One octet of length, that much of the key, and the value. */
  ghost predicate EntryOctets(entry: Entry, b: Bytes)
    decreases entry, 0
  {
    var n := |entry.key| % 256;
    |b| >= 1 + n && b[0] as int == n && b[1..1 + n] == entry.key[..n] && FieldOctets(entry.val, b[1 + n..])
  }

  // ---------- the encoder writes these octets and no others ----------

  lemma TaggedIff(e: Bytes, tag: byte, p: Bytes)
    ensures Tagged(e, tag, |p|, BigEndian(p)) <==> e == [tag] + p
  {
    hide BigEndian;
    if Tagged(e, tag, |p|, BigEndian(p)) {
      BigEndianInjective(e[1..], p);
      assert e == [tag] + e[1..];
    } else {
      assert ([tag] + p)[1..] == p;
    }
  }

  lemma CountedIff(e: Bytes, tag: byte, s: Bytes)
    ensures Counted(e, tag, s) <==> e == [tag] + EncCounted(s)
  {
    hide BigEndian; hide Put32;
    PutBigEndian(|s|);
    if Counted(e, tag, s) {
      BigEndianInjective(e[1..5], Put32(|s|));
      assert e == [tag] + (e[1..5] + e[5..]);
    } else {
      var enc := [tag] + EncCounted(s);
      assert enc[1..5] == Put32(|s|) && enc[5..] == s;
    }
  }

  lemma DecimalIff(e: Bytes, scale: byte, v: i32)
    ensures ScalarOctets(SDecimal(scale, v), e) <==> e == EncScalar(SDecimal(scale, v))
  {
    hide BigEndian; hide Put32;
    PutBigEndian(v);
    if ScalarOctets(SDecimal(scale, v), e) {
      BigEndianInjective(e[2..], Put32(v));
      assert e == [e[0], e[1]] + e[2..];
    } else {
      assert EncScalar(SDecimal(scale, v))[2..] == Put32(v);
    }
  }

  lemma OneOctet(b: byte)
    ensures BigEndian([b]) == b as nat
  {
    assert [] + [b] == [b];
    BigEndianSnoc([], b);
  }

  lemma ScalarOctetsIff(s: Scalar, e: Bytes)
    ensures ScalarOctets(s, e) <==> e == EncScalar(s)
  {
    hide BigEndian; hide Put16; hide Put32; hide Put64; hide Tagged; hide Counted;
    match s {
      case SBool(_) =>
      case SOctet(_) =>
      case SInt8(i) =>
        var b := (i % 0x100) as byte;
        OneOctet(b);
        TaggedIff(e, 0x62, [b]);
      case SInt16(i) => PutBigEndian(i); TaggedIff(e, 0x73, Put16(i));
      case SInt(n) => PutBigEndian(n); TaggedIff(e, 0x49, Put32(n));
      case SInt32(i) => PutBigEndian(i); TaggedIff(e, 0x49, Put32(i));
      case SInt64(i) => PutBigEndian(i); TaggedIff(e, 0x6C, Put64(i));
      case SFloat32(f) => PutBigEndian(f); TaggedIff(e, 0x66, Put32(f));
      case SFloat64(f) => PutBigEndian(f); TaggedIff(e, 0x64, Put64(f));
      case SDecimal(scale, v) => DecimalIff(e, scale, v);
      case SStr(str) => CountedIff(e, 0x53, str);
      case STime(sec, _) => PutBigEndian(sec); TaggedIff(e, 0x54, Put64(sec));
      case SBlob(blob) => CountedIff(e, 0x78, blob);
      case SNil =>
      case SUnsupported =>
    }
  }

  lemma CountedToIff(e: Bytes, p: Bytes)
    ensures CountedTo(e, p) <==> e == EncLong(p)
  {
    hide BigEndian; hide Put32;
    PutBigEndian(|p|);
    if CountedTo(e, p) {
      BigEndianInjective(e[..4], Put32(|p|));
      assert e == e[..4] + e[4..];
    } else {
      assert EncLong(p)[..4] == Put32(|p|) && EncLong(p)[4..] == Long(p);
    }
  }

  /** The octets described are exactly those of the encoder. */
  lemma {:induction false} FieldOctetsIff(l: Layout, e: Bytes)
    ensures FieldOctets(l, e) <==> e == EncField(l)
    decreases l, 3
  {
    hide Counted; hide EncCounted; hide EncScalar; hide ScalarOctets;
    match l {
      case LPlain(s) => ScalarOctetsIff(s, e);
      case LArr(ls) => ArrayOctetsIff(ls, e);
      case LTab(es) =>
        if |e| >= 1 {
          TableOctetsIff(es, e[1..]);
          assert e == [e[0]] + e[1..];
        }
        assert ([TAG_TABLE] + EncTable(es))[1..] == EncTable(es);
    }
  }

  lemma {:induction false} ArrayOctetsIff(ls: seq<Layout>, e: Bytes)
    ensures FieldOctets(LArr(ls), e) <==> e == EncField(LArr(ls))
    decreases ls, 4
  {
    hide Counted; hide EncElems; hide ElemsOctets; hide Put32;
    var enc := [TAG_ARRAY] + EncCounted(EncElems(ls));
    assert enc[5..] == EncElems(ls);
    if |e| >= 5 {
      ElemsOctetsIff(ls, e[5..]);
      CountedIff(e, 0x41, e[5..]);
    }
  }

  lemma {:induction false} ElemsOctetsIff(ls: seq<Layout>, p: Bytes)
    ensures ElemsOctets(ls, p) <==> p == EncElems(ls)
    decreases ls, 2
  {
    hide FieldOctets; hide EncField;
    if ls != [] {
      if ElemsOctets(ls, p) {
        var n: nat :| n <= |p| && FieldOctets(ls[0], p[..n]) && ElemsOctets(ls[1..], p[n..]);
        FieldOctetsIff(ls[0], p[..n]);
        ElemsOctetsIff(ls[1..], p[n..]);
        assert p == p[..n] + p[n..];
      }
      if p == EncElems(ls) {
        var n := |EncField(ls[0])|;
        assert p[..n] == EncField(ls[0]) && p[n..] == EncElems(ls[1..]);
        FieldOctetsIff(ls[0], p[..n]);
        ElemsOctetsIff(ls[1..], p[n..]);
      }
    }
  }

  lemma {:induction false} TableOctetsIff(es: seq<Entry>, e: Bytes)
    ensures TableOctets(es, e) <==> e == EncTable(es)
    decreases es, 3
  {
    hide CountedTo; hide EncLong; hide EntriesOctets; hide EncEntries;
    EntriesOctetsIff(es, EncEntries(es));
    CountedToIff(e, EncEntries(es));
    if TableOctets(es, e) {
      var p: Bytes :| EntriesOctets(es, p) && CountedTo(e, p);
      EntriesOctetsIff(es, p);
    }
  }

  lemma {:induction false} EntriesOctetsIff(es: seq<Entry>, p: Bytes)
    ensures EntriesOctets(es, p) <==> p == EncEntries(es)
    decreases es, 2
  {
    hide EntryOctets; hide EncEntry;
    if es != [] {
      if EntriesOctets(es, p) {
        var n: nat :| n <= |p| && EntryOctets(es[0], p[..n]) && EntriesOctets(es[1..], p[n..]);
        EntryOctetsIff(es[0], p[..n]);
        EntriesOctetsIff(es[1..], p[n..]);
        assert p == p[..n] + p[n..];
      }
      if p == EncEntries(es) {
        var n := |EncEntry(es[0])|;
        assert p[..n] == EncEntry(es[0]) && p[n..] == EncEntries(es[1..]);
        EntryOctetsIff(es[0], p[..n]);
        EntriesOctetsIff(es[1..], p[n..]);
      }
    }
  }

  lemma {:induction false} EntryOctetsIff(entry: Entry, b: Bytes)
    ensures EntryOctets(entry, b) <==> b == EncEntry(entry)
    decreases entry, 4
  {
    hide FieldOctets; hide EncField;
    var n := |entry.key| % 256;
    var enc := EncEntry(entry);
    assert enc[1..1 + n] == Short(entry.key) && enc[1 + n..] == EncField(entry.val);
    if |b| >= 1 + n {
      FieldOctetsIff(entry.val, b[1 + n..]);
      assert b == [b[0]] + b[1..1 + n] + b[1 + n..];
    }
  }

  // ---------- the parser takes these octets ----------

  /** Whatever octets describe a layout in range, they read as its normalised value. */
  lemma OctetsRead(l: Layout, e: Bytes, rest: Bytes)
    requires FieldOctets(l, e) && WellSized(l)
    ensures ParseField(e + rest) == Ok(NormLayout(l), rest)
  {
    hide FieldOctets; hide ParseField; hide NormLayout; hide WellSized; hide EncField;
    FieldOctetsIff(l, e);
    FieldRoundTrip(l, rest);
  }

  /** The octet in front of a value that was read. */
  predicate TypeOctet(v: Field, b: byte) {
    match v
    case Arr(_) => b == 0x41
    case Tab(_) => b == 0x46
    case Plain(s) => ScalarOctet(s, b)
  }

  predicate ScalarOctet(s: Scalar, b: byte) {
    match s
    case SBool(_) => b == 0x74
    case SOctet(_) => b == 0x42
    case SInt8(_) => b == 0x62
    case SInt16(_) => b == 0x73
    case SInt32(_) => b == 0x49
    case SInt64(_) => b == 0x6C
    case SFloat32(_) => b == 0x66
    case SFloat64(_) => b == 0x64
    case SDecimal(_, _) => b == 0x44
    case SStr(_) => b == 0x53
    case STime(_, _) => b == 0x54
    case SBlob(_) => b == 0x78
    case SNil => b == 0x56
    case _ => false
  }

  /** The octets that name a type. */
  predicate NamesType(b: byte) {
    b in [0x74, 0x42, 0x62, 0x73, 0x49, 0x6C, 0x66, 0x64, 0x44, 0x53, 0x41, 0x54, 0x46, 0x78, 0x56]
  }

  lemma ScalarTypeDecides(b: byte, t: Bytes)
    requires b !in {0x41, 0x46}
    ensures ParseScalar(b, t).Ok? ==> ScalarOctet(ParseScalar(b, t).val, b) && NamesType(b)
    ensures !NamesType(b) ==> ParseScalar(b, t) == Fail(SyntaxError, t)
  {
    hide Take; hide Get16; hide Get32; hide Get64; hide Signed; hide ParseLong;
  }

  /** On any octets: a value that is read has the type its first octet names, and a first octet that names
      no type is refused, leaving what is behind it. */
  lemma FirstOctetDecides(s: Bytes)
    requires s != []
    ensures ParseField(s).Ok? ==> TypeOctet(ParseField(s).val, s[0]) && NamesType(s[0])
    ensures !NamesType(s[0]) ==> ParseField(s) == Fail(SyntaxError, s[1..])
  {
    hide ParseScalar; hide ScalarOctet; hide ParseElems; hide ParseEntries; hide ParseLong; hide Take32;
    if s[0] !in {0x41, 0x46} {
      ScalarTypeDecides(s[0], s[1..]);
    }
  }

  /** A counted value with a count of 2^31 or more: a string or a table comes out empty and nothing behind the
      count is read, an octet string makes the reader panic. */
  lemma OversizedCount(c: Bytes, rest: Bytes)
    requires |c| == 4 && BigEndian(c) >= 0x8000_0000
    ensures ParseField([0x53] + c + rest) == Ok(Plain(SStr([])), rest)
    ensures ParseField([0x46] + c + rest) == Ok(Tab(map[]), rest)
    ensures ParseField([0x78] + c + rest) == Fail(Abort, rest)
  {
    hide BigEndian; hide Get32;
    BigEndianGet32(c);
    TakeExact(c, rest);
    assert [0x53] + c + rest == [0x53] + (c + rest);
    assert [0x46] + c + rest == [0x46] + (c + rest);
    assert [0x78] + c + rest == [0x78] + (c + rest);
    assert ParseEntries([], map[]) == Ok(map[], []);
  }

  /** A bool is true for every octet but 0. */
  lemma BoolRead(b: byte, rest: Bytes)
    ensures ParseField([0x74, b] + rest) == Ok(Plain(SBool(b != 0)), rest)
  {
    assert [0x74, b] + rest == [0x74] + ([b] + rest);
    assert ([0x74] + ([b] + rest))[1..] == [b] + rest;
  }

  lemma {:induction false} OtherKeys(es: seq<Entry>, m: map<Bytes, Field>, k: Bytes)
    requires forall j :: 0 <= j < |es| ==> Short(es[j].key) != k
    ensures var r := NormEntries(es, m); (k in r <==> k in m) && (k in m ==> r[k] == m[k])
  {
    hide Short; hide NormEntry;
    if es != [] {
      assert forall j :: 0 <= j < |es[1..]| ==> es[1..][j] == es[j + 1];
      OtherKeys(es[1..], m[Short(es[0].key) := NormEntry(es[0])], k);
    }
  }

  /** The octets of a table with several entries of one key read as the last of them. */
  lemma {:induction false} LastEntryWins(es: seq<Entry>, m: map<Bytes, Field>, i: nat)
    requires forall j :: 0 <= j < |es| ==> WellSizedEntry(es[j])
    requires i < |es| && forall j :: i < j < |es| ==> Short(es[j].key) != Short(es[i].key)
    ensures var r := ParseEntries(EncEntries(es), m);
      r.Ok? && Short(es[i].key) in r.val && r.val[Short(es[i].key)] == NormEntry(es[i])
    decreases i
  {
    hide Short; hide NormEntry; hide ParseEntries; hide EncEntries; hide WellSizedEntry;
    var m1 := m[Short(es[0].key) := NormEntry(es[0])];
    assert forall j :: 0 <= j < |es[1..]| ==> es[1..][j] == es[j + 1];
    EntriesRoundTrip(es, m);
    if i == 0 {
      OtherKeys(es[1..], m1, Short(es[0].key));
    } else {
      LastEntryWins(es[1..], m1, i - 1);
      EntriesRoundTrip(es[1..], m1);
    }
  }

  lemma {:induction false} EntriesThen(es: seq<Entry>, junk: Bytes, m: map<Bytes, Field>)
    requires forall j :: 0 <= j < |es| ==> WellSizedEntry(es[j])
    ensures ParseEntries(EncEntries(es) + junk, m) == ParseEntries(junk, NormEntries(es, m))
  {
    hide Short; hide NormEntry; hide EncEntry; hide WellSizedEntry; hide ParseShort; hide ParseField;
    if es == [] {
      assert EncEntries(es) + junk == junk;
    } else {
      var more := EncEntries(es[1..]) + junk;
      assert EncEntries(es) + junk == EncEntry(es[0]) + more;
      EntryRoundTrip(es[0], more);
      EntriesThen(es[1..], junk, m[Short(es[0].key) := NormEntry(es[0])]);
    }
  }

  /** A table whose octets go on behind its entries with something that is no entry is refused for that, and the
      reader is behind the table. */
  lemma BrokenTableRefused(es: seq<Entry>, junk: Bytes, rest: Bytes)
    requires forall j :: 0 <= j < |es| ==> WellSizedEntry(es[j])
    requires |EncEntries(es) + junk| < 0x8000_0000 && junk != []
    requires ParseShort(junk).Fail? || ParseField(ParseShort(junk).rest).Fail?
    ensures ParseTable(EncLong(EncEntries(es) + junk) + rest)
      == Fail(if ParseShort(junk).Fail? then ParseShort(junk).err else ParseField(ParseShort(junk).rest).err, rest)
  {
    hide ParseShort; hide ParseField; hide EncLong; hide ParseLong; hide EncEntries;
    LongRoundTrip(EncEntries(es) + junk, rest);
    EntriesThen(es, junk, map[]);
  }

  lemma {:induction false} ElemsThen(ls: seq<Layout>, junk: Bytes, acc: seq<Field>)
    requires forall j :: 0 <= j < |ls| ==> WellSized(ls[j])
    ensures ParseElems(EncElems(ls) + junk, acc) == ParseElems(junk, acc + NormElems(ls))
  {
    hide NormLayout; hide EncField; hide WellSized; hide ParseField;
    if ls == [] {
      assert EncElems(ls) + junk == junk && acc + NormElems(ls) == acc;
    } else {
      var more := EncElems(ls[1..]) + junk;
      assert EncElems(ls) + junk == EncField(ls[0]) + more;
      FieldRoundTrip(ls[0], more);
      ElemsThen(ls[1..], junk, acc + [NormLayout(ls[0])]);
      assert acc + [NormLayout(ls[0])] + NormElems(ls[1..]) == acc + NormElems(ls);
    }
  }

  /** An array whose octets go on behind its elements with something that is no field: an EOF there ends the array,
      any other error refuses it; the reader is where that left it. */
  lemma BrokenArray(ls: seq<Layout>, junk: Bytes, rest: Bytes)
    requires forall j :: 0 <= j < |ls| ==> WellSized(ls[j])
    requires |EncElems(ls) + junk| < 0x1_0000_0000 && ParseField(junk).Fail?
    ensures var Fail(err, left) := ParseField(junk);
      ParseArray(EncCounted(EncElems(ls) + junk) + rest)
        == if err == EOF then Ok(Arr(NormElems(ls)), left + rest) else Fail(err, left + rest)
  {
    hide ParseField; hide EncElems; hide Put32; hide Get32; hide NormElems;
    var p := EncElems(ls) + junk;
    assert EncCounted(p) + rest == Put32(|p|) + (p + rest);
    Take32Put(|p|, p + rest);
    assert (p + rest)[..|p|] == p && (p + rest)[|p|..] == rest;
    ElemsThen(ls, junk, []);
    assert [] + NormElems(ls) == NormElems(ls);
  }
}
