/** The writers of field values: they append to a buffer step by step. */
module Writers {
  import opened Octets
  import opened FieldCodec
  import opened WireOctets

  /** An append-only byte sink. */
  class Buffer {
    var out: Bytes

    constructor ()
      ensures out == []
    {
      out := [];
    }

    method Write(b: Bytes)
      modifies this
      ensures out == old(out) + b
    {
      out := out + b;
    }

    method WriteShort(s: Bytes)
      modifies this
      ensures out == old(out) + EncShort(s)
    {
      var length := (|s| % 256) as byte;
      Write([length]);
      Write(s[..length as nat]);
    }

    method WriteLong(s: Bytes)
      modifies this
      ensures out == old(out) + EncLong(s)
    {
      var length := |s| % TWO32;
      Write(Put32(|s|));
      Write(s[..length]);
    }
  }

  /** Overwrites the octets of buf from index at on with b. */
  method PutAt(buf: array<byte>, at: nat, b: Bytes)
    requires at + |b| <= buf.Length
    modifies buf
    ensures buf[..] == old(buf[..at]) + b + old(buf[at + |b|..])
  {
    var i := 0;
    while i < |b|
      invariant 0 <= i <= |b|
      invariant forall k :: 0 <= k < buf.Length ==>
        buf[k] == if at <= k < at + i then b[k - at] else old(buf[k])
    {
      buf[at + i] := b[i];
      i := i + 1;
    }
    assert buf[..] == old(buf[..at]) + b + old(buf[at + |b|..]);
  }

  /** The scalar cases of writeField: the tag and a fixed-width value are put into a 9-octet
      scratch array, of which a prefix is written. */
  method WriteScalar(w: Buffer, s: Scalar) returns (ok: bool)
    modifies w
    ensures ok <==> !s.SUnsupported?
    ensures w.out == old(w.out) + EncScalar(s)
  {
    hide Put16; hide Put32; hide Put64; hide EncCounted;
    var buf := new byte[9](_ => 0);
    match s {
      case SBool(b) => PutTagged(w, buf, TAG_BOOL, [if b then 1 else 0]);
      case SOctet(o) => PutTagged(w, buf, TAG_OCTET, [o]);
      case SInt8(i) => PutTagged(w, buf, TAG_INT8, [(i % 0x100) as byte]);
      case SInt16(i) => PutTagged(w, buf, TAG_INT16, Put16(i));
      case SInt(n) => PutTagged(w, buf, TAG_INT32, Put32(n));
      case SInt32(i) => PutTagged(w, buf, TAG_INT32, Put32(i));
      case SInt64(i) => PutTagged(w, buf, TAG_INT64, Put64(i));
      case SFloat32(f) => PutTagged(w, buf, TAG_FLOAT32, Put32(f));
      case SFloat64(f) => PutTagged(w, buf, TAG_FLOAT64, Put64(f));
      case SDecimal(scale, v) =>
        PutTagged(w, buf, TAG_DECIMAL, [scale] + Put32(v));
        assert EncScalar(s) == [TAG_DECIMAL] + ([scale] + Put32(v));
      case SStr(str) => WriteCounted(w, buf, TAG_STRING, str);
      case STime(sec, _) => PutTagged(w, buf, TAG_TIME, Put64(sec));
      case SBlob(blob) => WriteCounted(w, buf, TAG_BLOB, blob);
      case SNil => PutTagged(w, buf, TAG_NIL, []);
      case SUnsupported =>
        return false;
    }
    ok := true;
  }

  method PutTagged(w: Buffer, buf: array<byte>, tag: byte, b: Bytes)
    requires 1 + |b| <= buf.Length
    modifies w, buf
    ensures w.out == old(w.out) + ([tag] + b)
  {
    buf[0] := tag;
    PutAt(buf, 1, b);
    assert buf[..1 + |b|] == buf[..][..1 + |b|] == [tag] + b;
    w.Write(buf[..1 + |b|]);
  }

  method WriteCounted(w: Buffer, buf: array<byte>, tag: byte, b: Bytes)
    requires buf.Length == 9
    modifies w, buf
    ensures w.out == old(w.out) + ([tag] + EncCounted(b))
  {
    hide Put32;
    PutTagged(w, buf, tag, Put32(|b|));
    w.Write(b);
    assert [tag] + Put32(|b|) + b == [tag] + EncCounted(b);
  }

  /** Every type in the value is one the writer knows. */
  predicate SupportedValue(v: Field) {
    match v
    case Plain(s) => !s.SUnsupported?
    case Arr(vs) => forall i :: 0 <= i < |vs| ==> SupportedValue(vs[i])
    case Tab(m) => forall k :: k in m ==> SupportedValue(m[k])
  }

  /** writeField: succeeds exactly on supported values, and then appends the encoding of one of
      the value's layouts, octet for octet that of FieldOctets. What a failure leaves behind only extends the buffer. */
  method WriteField(w: Buffer, v: Field) returns (ok: bool, ghost l: Layout)
    modifies w
    ensures ok <==> SupportedValue(v)
    ensures ok ==> Lays(l, v) && Supported(l) && w.out == old(w.out) + EncField(l)
    ensures ok ==> FieldOctets(l, w.out[|old(w.out)|..])
    ensures old(w.out) <= w.out
    decreases v, 1
  {
    hide FieldOctets;
    match v {
      case Plain(s) =>
        ok := WriteScalar(w, s);
        l := LPlain(s);
      case Arr(_) =>
        ghost var ls;
        ok, ls := WriteArray(w, v);
        l := LArr(ls);
      case Tab(_) =>
        w.Write([TAG_TABLE]);
        ghost var es;
        ok, es := WriteTable(w, v);
        l := LTab(es);
    }
    if ok {
      assert w.out[|old(w.out)|..] == EncField(l);
      FieldOctetsIff(l, EncField(l));
    }
  }

  /** The array case of writeField: the elements go to a buffer of their own, which is then
      written behind its length. */
  method WriteArray(w: Buffer, v: Field) returns (ok: bool, ghost ls: seq<Layout>)
    requires v.Arr?
    modifies w
    ensures ok <==> SupportedValue(v)
    ensures ok ==> Lays(LArr(ls), v) && Supported(LArr(ls)) && w.out == old(w.out) + EncField(LArr(ls))
    ensures !ok ==> w.out == old(w.out)
    decreases v, 0
  {
    hide Put32; hide EncElems; hide EncField; hide Lays; hide Supported; hide FieldOctets;
    var vs := v.elems;
    var sec := new Buffer();
    ls := [];
    NoElems();
    var i := 0;
    while i < |vs|
      invariant 0 <= i <= |vs| && |ls| == i
      invariant forall j :: 0 <= j < i ==> ElemDone(ls[j], vs[j])
      invariant sec.out == EncElems(ls)
      invariant fresh(sec) && w.out == old(w.out)
    {
      ghost var e;
      ok, e := WriteField(sec, vs[i]);
      if !ok {
        return;
      }
      EncElemsSnoc(ls, e);
      ls := ls + [e];
      i := i + 1;
    }
    w.Write([TAG_ARRAY] + Put32(|sec.out|));
    w.Write(sec.out);
    ok := true;
    ElemsDone(ls, vs);
    assert w.out == old(w.out) + ([TAG_ARRAY] + Put32(|EncElems(ls)|) + EncElems(ls));
  }

  ghost predicate ElemDone(l: Layout, v: Field) {
    SupportedValue(v) && Lays(l, v) && Supported(l)
  }

  lemma NoElems()
    ensures EncElems([]) == []
  {
  }

  lemma ElemsDone(ls: seq<Layout>, vs: seq<Field>)
    requires |ls| == |vs| && forall i :: 0 <= i < |ls| ==> ElemDone(ls[i], vs[i])
    ensures Lays(LArr(ls), Arr(vs)) && Supported(LArr(ls)) && SupportedValue(Arr(vs))
    ensures EncField(LArr(ls)) == [TAG_ARRAY] + Put32(|EncElems(ls)|) + EncElems(ls)
  {
    hide Put32; hide EncElems;
    assert forall i :: 0 <= i < |ls| ==> ElemDone(ls[i], vs[i]);
  }

  /** writeTable: the entries go to a buffer of their own, in whatever order the map is ranged
      over, and the buffer is then written as one long string. */
  method WriteTable(w: Buffer, v: Field) returns (ok: bool, ghost es: seq<Entry>)
    requires v.Tab?
    modifies w
    ensures ok <==> SupportedValue(v)
    ensures ok ==> LaysTable(es, v.table) && Supported(LTab(es)) && w.out == old(w.out) + EncTable(es)
    ensures !ok ==> w.out == old(w.out)
    decreases v, 0
  {
    hide EncShort; hide EncLong; hide EncEntries; hide EncField; hide Progress; hide FieldOctets;
    var m := v.table;
    var buf := new Buffer();
    var todo := m.Keys;
    es := [];
    NoProgress(m);
    while todo != {}
      invariant todo <= m.Keys && Progress(es, m, todo)
      invariant buf.out == EncEntries(es)
      invariant fresh(buf) && w.out == old(w.out)
      decreases todo
    {
      var key :| key in todo;
      buf.WriteShort(key);
      ghost var e;
      ok, e := WriteField(buf, m[key]);
      if !ok {
        return;
      }
      ghost var entry := Entry(key, e);
      EncEntriesSnoc(es, entry);
      ProgressStep(es, m, todo, entry);
      es := es + [entry];
      todo := todo - {key};
    }
    ProgressDone(es, m);
    w.WriteLong(buf.out);
    ok := true;
  }

  /** es are entries for the keys of m but todo, each with a layout of its supported value. */
  ghost predicate Progress(es: seq<Entry>, m: map<Bytes, Field>, todo: set<Bytes>) {
    && KeySet(es) == m.Keys - todo && DistinctKeys(es)
    && forall i :: 0 <= i < |es| ==> EntryDone(es[i], m)
  }

  ghost predicate EntryDone(e: Entry, m: map<Bytes, Field>) {
    LaysEntry(e, m) && SupportedEntry(e) && SupportedValue(m[e.key])
  }

  lemma NoProgress(m: map<Bytes, Field>)
    ensures Progress([], m, m.Keys) && EncEntries([]) == []
  {
  }

  lemma ProgressStep(es: seq<Entry>, m: map<Bytes, Field>, todo: set<Bytes>, entry: Entry)
    requires Progress(es, m, todo) && entry.key in todo && todo <= m.Keys && EntryDone(entry, m)
    ensures Progress(es + [entry], m, todo - {entry.key})
  {
    hide EntryDone; hide KeySet;
    KeySetSnoc(es, entry);
    forall i | 0 <= i < |es|
      ensures es[i].key != entry.key
    {
      HasKey(es, es[i].key);
    }
  }

  lemma ProgressDone(es: seq<Entry>, m: map<Bytes, Field>)
    requires Progress(es, m, {})
    ensures LaysTable(es, m) && Supported(LTab(es)) && SupportedValue(Tab(m))
  {
    hide KeySet; hide Lays;
    forall i | 0 <= i < |es|
      ensures LaysEntry(es[i], m) && SupportedEntry(es[i])
    {
      assert EntryDone(es[i], m);
    }
    forall k | k in m
      ensures SupportedValue(m[k])
    {
      HasKey(es, k);
      var i :| 0 <= i < |es| && es[i].key == k;
      assert EntryDone(es[i], m);
    }
  }

  lemma {:induction false} EncElemsSnoc(ls: seq<Layout>, l: Layout)
    ensures EncElems(ls + [l]) == EncElems(ls) + EncField(l)
  {
    if ls == [] {
      assert [l][1..] == [];
    } else {
      assert (ls + [l])[1..] == ls[1..] + [l];
      EncElemsSnoc(ls[1..], l);
    }
  }

  lemma {:induction false} EncEntriesSnoc(es: seq<Entry>, e: Entry)
    ensures EncEntries(es + [e]) == EncEntries(es) + EncEntry(e)
  {
    if es == [] {
      assert [e][1..] == [];
    } else {
      assert (es + [e])[1..] == es[1..] + [e];
      EncEntriesSnoc(es[1..], e);
    }
  }

  lemma HasKey(es: seq<Entry>, k: Bytes)
    ensures k in KeySet(es) <==> exists i :: 0 <= i < |es| && es[i].key == k
  {
  }

  lemma KeySetSnoc(es: seq<Entry>, e: Entry)
    ensures KeySet(es + [e]) == KeySet(es) + {e.key}
  {
    forall k | k in KeySet(es) + {e.key}
      ensures k in KeySet(es + [e])
    {
      if k == e.key {
        assert (es + [e])[|es|].key == k;
      } else {
        var i :| 0 <= i < |es| && es[i].key == k;
        assert (es + [e])[i].key == k;
      }
    }
  }
}
