/** Exactly which field values survive being written and read. The argument goes through what a reader
    can return at all: a value read has small parts, so only a value with small parts can come back. */
module FieldValues {
  import opened Octets
  import opened FieldCodec

  // ---------- the octets a value takes ----------

  ghost function Size(v: Field): nat
    decreases v, 1
  {
    match v
    case Plain(s) => |EncScalar(s)|
    case Arr(vs) => 5 + ElemsSize(vs)
    case Tab(m) => 5 + EntriesSize(v, m.Keys)
  }

  ghost function ElemsSize(vs: seq<Field>): nat
    decreases vs, 0
  {
    if vs == [] then 0 else Size(vs[0]) + ElemsSize(vs[1..])
  }

  /** The entries of a table under the given keys. */
  ghost function EntriesSize(v: Field, keys: set<Bytes>): nat
    requires v.Tab? && keys <= v.table.Keys
    decreases v, 0, |keys|
  {
    if keys == {} then 0
    else
      var k :| k in keys;
      EntrySize(v, k) + EntriesSize(v, keys - {k})
  }

  ghost function EntrySize(v: Field, k: Bytes): nat
    requires v.Tab? && k in v.table
    decreases v, 0, 0
  {
    1 + |k| + Size(v.table[k])
  }

  lemma {:induction false} ElemsSizeSnoc(vs: seq<Field>, v: Field)
    ensures ElemsSize(vs + [v]) == ElemsSize(vs) + Size(v)
  {
    if vs == [] {
      assert [v][1..] == [];
    } else {
      assert (vs + [v])[1..] == vs[1..] + [v];
      ElemsSizeSnoc(vs[1..], v);
    }
  }

  /** The sum does not depend on the order the keys are taken in. */
  lemma {:induction false} EntriesSplit(v: Field, keys: set<Bytes>, k: Bytes)
    requires v.Tab? && keys <= v.table.Keys && k in keys
    ensures EntriesSize(v, keys) == EntrySize(v, k) + EntriesSize(v, keys - {k})
    decreases |keys|
  {
    hide EntrySize;
    var j :| j in keys && EntriesSize(v, keys) == EntrySize(v, j) + EntriesSize(v, keys - {j});
    if j != k {
      EntriesSplit(v, keys - {j}, k);
      EntriesSplit(v, keys - {k}, j);
      assert keys - {j} - {k} == keys - {k} - {j};
    }
  }

  lemma {:induction false} EntriesSame(v: Field, w: Field, keys: set<Bytes>)
    requires v.Tab? && w.Tab? && keys <= v.table.Keys && keys <= w.table.Keys
    requires forall k :: k in keys ==> v.table[k] == w.table[k]
    ensures EntriesSize(v, keys) == EntriesSize(w, keys)
    decreases |keys|
  {
    if k :| k in keys {
      EntriesSplit(v, keys, k);
      EntriesSplit(w, keys, k);
      EntriesSame(v, w, keys - {k});
    }
  }

  /** Setting a key adds at most its own entry. */
  lemma EntriesAdd(m: map<Bytes, Field>, k: Bytes, v: Field)
    ensures EntriesSize(Tab(m[k := v]), m[k := v].Keys) <= EntriesSize(Tab(m), m.Keys) + 1 + |k| + Size(v)
  {
    var m' := m[k := v];
    EntriesSplit(Tab(m'), m'.Keys, k);
    assert m'.Keys - {k} == m.Keys - {k};
    EntriesSame(Tab(m'), Tab(m), m.Keys - {k});
    if k in m {
      EntriesSplit(Tab(m), m.Keys, k);
    } else {
      assert m.Keys - {k} == m.Keys;
    }
  }

  // ---------- what a reader can return ----------

  predicate ReadableScalar(s: Scalar) {
    match s
    case SInt(_) => false
    case STime(_, nsec) => nsec == 0
    case SStr(str) => |str| < TWO31
    case SBlob(blob) => |blob| < TWO31
    case SUnsupported => false
    case _ => true
  }

  ghost predicate Readable(v: Field)
    decreases v, 0
  {
    match v
    case Plain(s) => ReadableScalar(s)
    case Arr(vs) => ElemsSize(vs) < TWO32 && forall i :: 0 <= i < |vs| ==> Readable(vs[i])
    case Tab(m) => EntriesSize(v, m.Keys) < TWO31 && forall k :: k in m ==> ReadableEntry(k, m[k])
  }

  ghost predicate ReadableEntry(k: Bytes, v: Field)
    decreases v, 1
  {
    |k| < 256 && Readable(v)
  }

  lemma ScalarReadable(tag: byte, s: Bytes)
    ensures var r := ParseScalar(tag, s);
      r.Ok? ==> ReadableScalar(r.val) && |EncScalar(r.val)| <= 1 + |s| - |r.rest|
  {
    hide Get16; hide Get32; hide Get64; hide Put16; hide Put32; hide Put64; hide Signed;
  }

  /** Whatever was read is readable, and no larger than the octets it was read from. */
  lemma {:induction false} ReadIsReadable(s: Bytes)
    ensures var r := ParseField(s);
      r.Ok? ==> Readable(r.val) && Size(r.val) <= |s| - |r.rest|
    decreases |s|, 0
  {
    hide ParseScalar; hide ParseArray; hide ParseTable; hide ReadableScalar; hide EncScalar;
    if s != [] {
      var tag, t := s[0], s[1..];
      ScalarReadable(tag, t);
      ReadArrayReadable(t);
      ReadTableReadable(t);
    }
  }

  lemma {:induction false} ReadArrayReadable(s: Bytes)
    ensures var r := ParseArray(s);
      r.Ok? ==> Readable(r.val) && Size(r.val) <= 1 + |s| - |r.rest|
    decreases |s|, 2
  {
    hide ParseElems; hide Get32;
    if Take32(s).Ok? {
      var Ok(size, t) := Take32(s);
      ReadElemsReadable(t[..Limit(t, size)], []);
    }
  }

  lemma {:induction false} ReadElemsReadable(s: Bytes, acc: seq<Field>)
    requires forall i :: 0 <= i < |acc| ==> Readable(acc[i])
    ensures var r := ParseElems(s, acc);
      r.Ok? ==>
        && ElemsSize(r.val) <= ElemsSize(acc) + |s| - |r.rest|
        && forall i :: 0 <= i < |r.val| ==> Readable(r.val[i])
    decreases |s|, 1
  {
    hide ParseField; hide Readable;
    ReadIsReadable(s);
    match ParseField(s) {
      case Ok(v, t) =>
        ElemsSizeSnoc(acc, v);
        ReadElemsReadable(t, acc + [v]);
      case Fail(_, _) =>
    }
  }

  lemma {:induction false} ReadTableReadable(s: Bytes)
    ensures var r := ParseTable(s);
      r.Ok? ==> Readable(r.val) && Size(r.val) <= 1 + |s| - |r.rest|
    decreases |s|, 2
  {
    hide ParseEntries; hide Get32;
    if ParseLong(s).Ok? {
      ReadEntriesReadable(ParseLong(s).val, map[]);
    }
  }

  lemma {:induction false} ReadEntriesReadable(s: Bytes, m: map<Bytes, Field>)
    requires forall k :: k in m ==> ReadableEntry(k, m[k])
    ensures var r := ParseEntries(s, m);
      r.Ok? ==>
        && EntriesSize(Tab(r.val), r.val.Keys) <= EntriesSize(Tab(m), m.Keys) + |s|
        && forall k :: k in r.val ==> ReadableEntry(k, r.val[k])
    decreases |s|, 1
  {
    hide ParseField; hide Readable; hide EntriesSize; hide Size;
    if s != [] && ParseShort(s).Ok? {
      var Ok(key, t) := ParseShort(s);
      ShortReadable(s);
      ReadIsReadable(t);
      if ParseField(t).Ok? {
        var Ok(v, u) := ParseField(t);
        EntriesAdd(m, key, v);
        ReadEntriesReadable(u, m[key := v]);
      }
    }
  }

  lemma ShortReadable(s: Bytes)
    ensures var r := ParseShort(s); r.Ok? ==> |r.val| < 256 && 1 + |r.val| == |s| - |r.rest|
  {
  }

  lemma LongReadable(s: Bytes)
    ensures ParseLong(s).Ok? ==> |ParseLong(s).val| < TWO31
  {
    hide Get32;
  }

  // ---------- which written values are readable ----------

  /** A layout in range takes as many octets as the value it reads back as. */
  lemma {:induction false} LayoutSize(l: Layout, v: Field)
    requires Lays(l, v) && WellSized(l) && ShortKeys(v)
    ensures |EncField(l)| == Size(Norm(v))
    decreases l, 1
  {
    match (l, v) {
      case (LPlain(s), Plain(_)) => NormScalarSize(s);
      case (LArr(ls), Arr(vs)) => ElemsLayoutSize(ls, vs);
      case (LTab(es), Tab(m)) =>
        EntriesLayoutSize(es, m);
        assert Norm(v).table.Keys == m.Keys;
        LongIsCounted(EncEntries(es));
    }
  }

  lemma NormScalarSize(s: Scalar)
    ensures |EncScalar(NormScalar(s))| == |EncScalar(s)|
  {
  }

  ghost function NormAll(vs: seq<Field>): seq<Field> {
    seq(|vs|, i requires 0 <= i < |vs| => Norm(vs[i]))
  }

  lemma {:induction false} ElemsLayoutSize(ls: seq<Layout>, vs: seq<Field>)
    requires |ls| == |vs|
    requires forall i :: 0 <= i < |ls| ==> Lays(ls[i], vs[i]) && WellSized(ls[i]) && ShortKeys(vs[i])
    ensures |EncElems(ls)| == ElemsSize(NormAll(vs))
    decreases ls, 0
  {
    hide EncField; hide Size; hide Lays; hide WellSized; hide ShortKeys; hide Norm;
    if ls == [] {
    } else {
      LayoutSize(ls[0], vs[0]);
      ElemsLayoutSize(ls[1..], vs[1..]);
      assert NormAll(vs)[1..] == NormAll(vs[1..]);
    }
  }

  lemma {:induction false} EntriesLayoutSize(es: seq<Entry>, m: map<Bytes, Field>)
    requires DistinctKeys(es) && ShortKeys(Tab(m))
    requires forall i :: 0 <= i < |es| ==> LaysEntry(es[i], m) && WellSizedEntry(es[i])
    ensures KeySet(es) <= m.Keys
    ensures |EncEntries(es)| == EntriesSize(Norm(Tab(m)), KeySet(es))
    decreases es, 0
  {
    hide EncField; hide Size; hide Lays; hide WellSized;
    if es == [] {
    } else {
      var e, v := es[0], Norm(Tab(m));
      EntryLayoutSize(e, m);
      EntriesLayoutSize(es[1..], m);
      assert KeySet(es) == {e.key} + KeySet(es[1..]);
      assert e.key !in KeySet(es[1..]);
      EntriesSplit(v, KeySet(es), e.key);
      assert KeySet(es) - {e.key} == KeySet(es[1..]);
    }
  }

  lemma {:induction false} EntryLayoutSize(e: Entry, m: map<Bytes, Field>)
    requires ShortKeys(Tab(m)) && LaysEntry(e, m) && WellSizedEntry(e)
    ensures |EncEntry(e)| == EntrySize(Norm(Tab(m)), e.key)
    decreases e, 0
  {
    LayoutSize(e.val, m[e.key]);
  }

  /** A supported value reads back as a readable one exactly when all its lengths are in range. */
  lemma {:induction false} NormReadableIff(l: Layout, v: Field)
    requires Lays(l, v) && Supported(l)
    ensures Readable(Norm(v)) <==> WellSized(l) && ShortKeys(v)
    decreases l, 2
  {
    match (l, v) {
      case (LPlain(_), Plain(_)) =>
      case (LArr(ls), Arr(vs)) => NormArrayReadableIff(ls, vs);
      case (LTab(es), Tab(m)) => NormTableReadableIff(es, m);
    }
  }

  lemma {:induction false} NormArrayReadableIff(ls: seq<Layout>, vs: seq<Field>)
    requires Lays(LArr(ls), Arr(vs)) && Supported(LArr(ls))
    ensures Readable(Norm(Arr(vs))) <==> WellSized(LArr(ls)) && ShortKeys(Arr(vs))
    decreases ls, 3
  {
    hide ElemsSize; hide EncElems;
    forall i | 0 <= i < |ls|
      ensures Readable(NormAll(vs)[i]) <==> WellSized(ls[i]) && ShortKeys(vs[i])
    {
      NormReadableIff(ls[i], vs[i]);
    }
    assert Norm(Arr(vs)) == Arr(NormAll(vs));
    if forall i :: 0 <= i < |ls| ==> Readable(NormAll(vs)[i]) {
      ElemsLayoutSize(ls, vs);
    } else {
      var i :| 0 <= i < |ls| && !Readable(NormAll(vs)[i]);
      assert !(WellSized(ls[i]) && ShortKeys(vs[i]));
    }
  }

  lemma {:induction false} NormTableReadableIff(es: seq<Entry>, m: map<Bytes, Field>)
    requires LaysTable(es, m) && Supported(LTab(es))
    ensures Readable(Norm(Tab(m))) <==> WellSizedTable(es) && ShortKeys(Tab(m))
    decreases es, 3
  {
    hide EntriesSize; hide EncEntries; hide Readable; hide ShortKeys; hide WellSized;
    var n := Norm(Tab(m)).table;
    forall i | 0 <= i < |es|
      ensures es[i].key in m
      ensures ReadableEntry(es[i].key, n[es[i].key]) <==> WellSizedEntry(es[i]) && ShortEntry(m, es[i].key)
    {
      NormEntryReadableIff(es[i], m);
    }
    forall k | k in m
      ensures exists i :: 0 <= i < |es| && es[i].key == k
    {
      assert k in KeySet(es);
    }
    ShortTable(m);
    ReadableTable(m);
    if forall k :: k in m ==> ReadableEntry(k, n[k]) {
      assert forall i :: 0 <= i < |es| ==> WellSizedEntry(es[i]) && ShortEntry(m, es[i].key);
      EntriesLayoutSize(es, m);
    } else {
      var k :| k in m && !ReadableEntry(k, n[k]);
      var i :| 0 <= i < |es| && es[i].key == k;
      assert !(WellSizedEntry(es[i]) && ShortEntry(m, es[i].key));
    }
  }

  predicate ShortEntry(m: map<Bytes, Field>, k: Bytes)
    requires k in m
  {
    |k| < 256 && ShortKeys(m[k])
  }

  lemma ShortTable(m: map<Bytes, Field>)
    ensures ShortKeys(Tab(m)) <==> forall k :: k in m ==> ShortEntry(m, k)
  {
  }

  lemma ReadableTable(m: map<Bytes, Field>)
    ensures var v := Norm(Tab(m));
      Readable(v) <==> EntriesSize(v, m.Keys) < TWO31 && forall k :: k in m ==> ReadableEntry(k, v.table[k])
  {
    assert Norm(Tab(m)).table.Keys == m.Keys;
  }

  lemma {:induction false} NormEntryReadableIff(e: Entry, m: map<Bytes, Field>)
    requires LaysEntry(e, m) && SupportedEntry(e)
    ensures ReadableEntry(e.key, Norm(m[e.key])) <==> WellSizedEntry(e) && ShortEntry(m, e.key)
    decreases e, 3
  {
    NormReadableIff(e.val, m[e.key]);
  }

  lemma {:induction false} ElemSmall(vs: seq<Field>, i: nat)
    requires i < |vs|
    ensures Size(vs[i]) <= ElemsSize(vs)
  {
    if i > 0 {
      ElemSmall(vs[1..], i - 1);
    }
  }

  /** A value that takes fewer than 2^31 octets has all its lengths in range. */
  lemma {:induction false} SmallIsWellSized(l: Layout, v: Field)
    requires Lays(l, v) && Supported(l) && ShortKeys(v) && Size(Norm(v)) < TWO31
    ensures WellSized(l)
    decreases l, 2
  {
    match (l, v) {
      case (LPlain(s), Plain(_)) => NormScalarSize(s);
      case (LArr(ls), Arr(vs)) =>
        forall i | 0 <= i < |ls|
          ensures WellSized(ls[i])
        {
          ElemSmall(NormAll(vs), i);
          SmallIsWellSized(ls[i], vs[i]);
        }
        ElemsLayoutSize(ls, vs);
        assert Norm(v) == Arr(NormAll(vs));
      case (LTab(es), Tab(m)) => SmallTableIsWellSized(es, m);
    }
  }

  lemma {:induction false} SmallTableIsWellSized(es: seq<Entry>, m: map<Bytes, Field>)
    requires LaysTable(es, m) && Supported(LTab(es)) && ShortKeys(Tab(m)) && Size(Norm(Tab(m))) < TWO31
    ensures WellSizedTable(es)
    decreases es, 3
  {
    hide EncEntries;
    var n := Norm(Tab(m));
    forall i | 0 <= i < |es|
      ensures WellSizedEntry(es[i])
    {
      EntriesSplit(n, n.table.Keys, es[i].key);
      SmallEntryIsWellSized(es[i], m);
    }
    EntriesLayoutSize(es, m);
    assert n.table.Keys == m.Keys;
  }

  lemma {:induction false} SmallEntryIsWellSized(e: Entry, m: map<Bytes, Field>)
    requires LaysEntry(e, m) && SupportedEntry(e) && ShortKeys(Tab(m)) && Size(Norm(m[e.key])) < TWO31
    ensures WellSizedEntry(e)
    decreases e, 2
  {
    SmallIsWellSized(e.val, m[e.key]);
  }

  // ---------- exactly when a written value reads back ----------

  /** Whatever the order of its tables, a supported value reads back normalised, with nothing after it
      disturbed, if and only if every length it puts on the wire is in range and its keys, at every
      depth, fit short strings. */
  lemma AnyOrderRoundTripIff(l: Layout, v: Field, rest: Bytes)
    requires Lays(l, v) && Supported(l)
    ensures ParseField(EncField(l) + rest) == Ok(Norm(v), rest) <==> WellSized(l) && ShortKeys(v)
  {
    hide ParseField; hide EncField; hide Norm; hide Readable; hide WellSized; hide ShortKeys;
    if WellSized(l) && ShortKeys(v) {
      AnyOrderRoundTrip(l, v, rest);
    } else {
      NormReadableIff(l, v);
      ReadIsReadable(EncField(l) + rest);
    }
  }

  /** The value with its ints as int32, where they have the range; the reader has no other int. */
  function Retagged(v: Field): Field {
    match v
    case Plain(SInt(n)) => if -TWO31 <= n < TWO31 then Plain(SInt32(n)) else v
    case Plain(_) => v
    case Arr(vs) => Arr(seq(|vs|, i requires 0 <= i < |vs| => Retagged(vs[i])))
    case Tab(m) => Tab(map k | k in m :: Retagged(m[k]))
  }

  predicate ExactScalar(s: Scalar) {
    match s
    case SInt(n) => -TWO31 <= n < TWO31
    case STime(_, nsec) => nsec == 0
    case _ => true
  }

  /** No int, at any depth, is out of the int32 range, and no time has a part of a second. */
  predicate Exact(v: Field) {
    match v
    case Plain(s) => ExactScalar(s)
    case Arr(vs) => forall i :: 0 <= i < |vs| ==> Exact(vs[i])
    case Tab(m) => forall k :: k in m ==> Exact(m[k])
  }

  /** Nothing in the value is lost by writing it: the caller can check this before the call. */
  predicate Preserved(v: Field) {
    ShortKeys(v) && Exact(v)
  }

  lemma {:induction false} ExactRetagged(v: Field)
    requires Exact(v)
    ensures Retagged(v) == Norm(v)
  {
    match v {
      case Plain(_) =>
      case Arr(vs) =>
        forall i | 0 <= i < |vs|
          ensures Retagged(vs[i]) == Norm(vs[i])
        {
          ExactRetagged(vs[i]);
        }
      case Tab(m) =>
        forall k | k in m
          ensures Retagged(m[k]) == Norm(m[k])
        {
          ExactRetagged(m[k]);
        }
    }
  }

  lemma {:induction false} ReadableExact(v: Field)
    requires Readable(Retagged(v))
    ensures Exact(v)
  {
    match v {
      case Plain(_) =>
      case Arr(vs) =>
        forall i | 0 <= i < |vs|
          ensures Exact(vs[i])
        {
          assert Retagged(v).elems[i] == Retagged(vs[i]);
          ReadableExact(vs[i]);
        }
      case Tab(m) =>
        forall k | k in m
          ensures Exact(m[k])
        {
          assert k in Retagged(v).table && Retagged(v).table[k] == Retagged(m[k]);
          assert ReadableEntry(k, Retagged(m[k]));
          ReadableExact(m[k]);
        }
    }
  }

  /** A supported value reads back as itself, up to int becoming int32, with nothing after it disturbed,
      if and only if every length it puts on the wire is in range (below 2^31 for strings, octet strings
      and tables, below 2^32 for arrays) and its keys, ints and times lose nothing. */
  lemma FieldRoundTripIff(l: Layout, v: Field, rest: Bytes)
    requires Lays(l, v) && Supported(l)
    ensures ParseField(EncField(l) + rest) == Ok(Retagged(v), rest) <==> WellSized(l) && Preserved(v)
  {
    hide ParseField; hide EncField; hide Norm; hide Readable; hide WellSized; hide ShortKeys; hide Exact; hide Retagged;
    AnyOrderRoundTripIff(l, v, rest);
    if Exact(v) {
      ExactRetagged(v);
    } else if ParseField(EncField(l) + rest) == Ok(Retagged(v), rest) {
      ReadIsReadable(EncField(l) + rest);
      ReadableExact(v);
    }
  }

  /** The table part of this: written in any order, a supported table can come back as itself if and only
      if its lengths are in range and nothing in it is lost. */
  lemma TableExactIff(es: seq<Entry>, m: map<Bytes, Field>)
    requires LaysTable(es, m) && Supported(LTab(es))
    ensures Readable(Retagged(Tab(m))) <==> WellSizedTable(es) && Preserved(Tab(m))
  {
    hide Norm; hide Readable; hide WellSizedTable; hide ShortKeys; hide Exact; hide Retagged;
    NormReadableIff(LTab(es), Tab(m));
    if Exact(Tab(m)) {
      ExactRetagged(Tab(m));
    } else if Readable(Retagged(Tab(m))) {
      ReadableExact(Tab(m));
    }
  }
}
