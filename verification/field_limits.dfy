/** The reader of field values on arbitrary octets, and exactly when a written value reads back. */
module FieldLimits {
  import opened Octets
  import opened FieldCodec

  // ---------- progress: what is left is always a suffix of what there was ----------

  lemma TakeSuffix(s: Bytes, n: nat)
    ensures IsSuffix(Take(s, n).rest, s)
  {
  }

  lemma ParseLongSuffix(s: Bytes)
    ensures IsSuffix(ParseLong(s).rest, s)
  {
    TakeSuffix(s, 4);
    match Take32(s) {
      case Ok(n, t) =>
        TakeSuffix(t, n);
        SuffixTransitive(Take(t, n).rest, t, s);
      case Fail(_, _) =>
    }
  }

  lemma SuffixReflexive(s: Bytes)
    ensures IsSuffix(s, s)
  {
  }

  lemma BlobSuffix(s: Bytes)
    ensures IsSuffix(ParseScalar(TAG_BLOB, s).rest, s)
  {
    hide Get32;
    TakeSuffix(s, 4);
    if Take32(s).Ok? {
      var Ok(n, t) := Take32(s);
      TakeSuffix(t, n);
      SuffixTransitive(Take(t, n).rest, t, s);
    }
  }

  lemma DecimalSuffix(s: Bytes)
    ensures IsSuffix(ParseScalar(TAG_DECIMAL, s).rest, s)
  {
    hide Get32; hide Signed;
    if s != [] {
      TakeSuffix(s[1..], 4);
      TakeSuffix(s, 1);
      SuffixTransitive(Take(s[1..], 4).rest, s[1..], s);
    }
  }

  lemma ParseScalarSuffix(tag: byte, s: Bytes)
    ensures IsSuffix(ParseScalar(tag, s).rest, s)
  {
    hide Get16; hide Get32; hide Get64; hide Signed; hide IsSuffix; hide Take; hide ParseLong;
    SuffixReflexive(s);
    TakeSuffix(s, 1);
    TakeSuffix(s, 2);
    TakeSuffix(s, 4);
    TakeSuffix(s, 8);
    DecimalSuffix(s);
    BlobSuffix(s);
    ParseLongSuffix(s);
  }

  /** On any octets the reader only moves forward, and a field it returns used at least one. */
  lemma {:induction false} ParseFieldProgress(s: Bytes)
    ensures IsSuffix(ParseField(s).rest, s)
    ensures ParseField(s).Ok? ==> |ParseField(s).rest| < |s|
    decreases |s|, 0
  {
    if s != [] {
      var tag, t := s[0], s[1..];
      if tag == TAG_ARRAY {
        ParseArrayProgress(t);
      } else if tag == TAG_TABLE {
        ParseTableProgress(t);
      } else {
        ParseScalarSuffix(tag, t);
      }
      SuffixTransitive(ParseField(s).rest, t, s);
    }
  }

  lemma {:induction false} ParseArrayProgress(s: Bytes)
    ensures IsSuffix(ParseArray(s).rest, s)
    decreases |s|, 2
  {
    hide Get32;
    TakeSuffix(s, 4);
    if Take32(s).Ok? {
      var Ok(size, t) := Take32(s);
      var n := Limit(t, size);
      ParseElemsProgress(t[..n], []);
      var left := ParseElems(t[..n], []).rest;
      assert left + t[n..] == t[n - |left|..];
      SuffixTransitive(left + t[n..], t, s);
    }
  }

  lemma {:induction false} ParseElemsProgress(s: Bytes, acc: seq<Field>)
    ensures IsSuffix(ParseElems(s, acc).rest, s)
    decreases |s|, 1
  {
    ParseFieldProgress(s);
    match ParseField(s) {
      case Ok(v, t) =>
        ParseElemsProgress(t, acc + [v]);
        SuffixTransitive(ParseElems(s, acc).rest, t, s);
      case Fail(_, _) =>
    }
  }

  lemma ParseTableProgress(s: Bytes)
    ensures IsSuffix(ParseTable(s).rest, s)
  {
    ParseLongSuffix(s);
  }

  // ---------- EOF as the end of an array ----------

  /** The cuts of a field's octets the array loop does not notice: behind the tag, behind a decimal's
      scale, behind the length of a string, an octet string or a table, and inside an array behind its
      size, where this repeats. */
  predicate QuietField(l: Layout, k: nat)
    decreases l, 1
  {
    match l
    case LPlain(s) => k <= 1 || (s.SDecimal? && k == 2) || ((s.SStr? || s.SBlob?) && k == 5)
    case LTab(_) => k <= 1 || k == 5
    case LArr(ls) => k <= 1 || (k >= 5 && QuietElems(ls, k - 5))
  }

  /** Cutting the octets of elements is quiet between two of them and at the quiet cuts of the one cut. */
  predicate QuietElems(ls: seq<Layout>, k: nat)
    decreases ls, 0
  {
    if ls == [] then true
    else
      var n := |EncField(ls[0])|;
      if k >= n then QuietElems(ls[1..], k - n) else QuietField(ls[0], k)
  }

  /** What is read from a quiet cut: the elements before it and, when it falls behind the size of a nested
      array, that array with what it keeps in turn. */
  function Kept(ls: seq<Layout>, k: nat): seq<Field>
    decreases ls, 0
  {
    if ls == [] then []
    else
      var n := |EncField(ls[0])|;
      if k >= n then [NormLayout(ls[0])] + Kept(ls[1..], k - n) else KeptOf(ls[0], k)
  }

  function KeptOf(l: Layout, k: nat): seq<Field>
    decreases l, 1
  {
    if l.LArr? && k >= 5 then [Arr(Kept(l.elems, k - 5))] else []
  }

  /** An array whose octets stop at any point short of its size, or whose size is too small and so cuts it
      with octets after it, is accepted if and only if the cut is quiet, and then reads as what that cut
      keeps; otherwise the end is reported. What follows the size is left alone. */
  lemma CutArrayAcceptedIff(ls: seq<Layout>, size: nat, k: nat, more: Bytes)
    requires forall i :: 0 <= i < |ls| ==> WellSized(ls[i])
    requires k <= |EncElems(ls)| && k <= size < TWO32 && (k == size || more == [])
    ensures ParseArray(Put32(size) + (EncElems(ls)[..k] + more))
      == if QuietElems(ls, k) then Ok(Arr(Kept(ls, k)), more) else Fail(UnexpectedEOF, more)
  {
    hide Put32; hide Get32; hide ParseElems; hide EncElems; hide QuietElems; hide Kept;
    var p := EncElems(ls)[..k];
    Take32Put(size, p + more);
    assert (p + more)[..|p|] == p && [] + (p + more)[|p|..] == more;
    assert more == [] ==> p + more == p;
    CutElems(ls, k, []);
    assert [] + Kept(ls, k) == Kept(ls, k);
  }

  lemma {:induction false} CutElems(ls: seq<Layout>, k: nat, acc: seq<Field>)
    requires forall i :: 0 <= i < |ls| ==> WellSized(ls[i])
    requires k <= |EncElems(ls)|
    ensures ParseElems(EncElems(ls)[..k], acc)
      == if QuietElems(ls, k) then Ok(acc + Kept(ls, k), []) else Fail(UnexpectedEOF, [])
    decreases ls, 2
  {
    hide EncField; hide NormLayout; hide ParseField; hide QuietField; hide WellSized; hide EncElems;
    NothingIsEOF();
    CutFirst(ls, k);
    if ls == [] {
      assert acc + [] == acc;
    } else {
      var here, n := EncField(ls[0]), |EncField(ls[0])|;
      if k >= n {
        var tail := EncElems(ls[1..])[..k - n];
        FieldRoundTrip(ls[0], tail);
        CutElems(ls[1..], k - n, acc + [NormLayout(ls[0])]);
        assert acc + [NormLayout(ls[0])] + Kept(ls[1..], k - n) == acc + Kept(ls, k);
      } else {
        CutField(ls[0], k);
        assert acc + [] == acc;
      }
    }
  }

  lemma CutFirst(ls: seq<Layout>, k: nat)
    requires k <= |EncElems(ls)|
    ensures ls == [] ==> EncElems(ls)[..k] == []
    ensures ls != [] ==>
      var here, tail := EncField(ls[0]), EncElems(ls[1..]);
      if k < |here| then EncElems(ls)[..k] == here[..k]
      else k - |here| <= |tail| && EncElems(ls)[..k] == here + tail[..k - |here|]
  {
  }

  lemma NothingIsEOF()
    ensures ParseField([]) == Fail(EOF, [])
  {
  }

  /** A field cut short reads as an end of the octets, a quiet one or a reported one, unless it is an array. */
  lemma {:induction false} CutField(l: Layout, k: nat)
    requires WellSized(l) && k < |EncField(l)|
    ensures ParseField(EncField(l)[..k])
      == if !QuietField(l, k) then Fail(UnexpectedEOF, [])
         else if l.LArr? && k >= 5 then Ok(Arr(Kept(l.elems, k - 5)), [])
         else Fail(EOF, [])
    decreases l, 3
  {
    hide EncScalar; hide EncCounted; hide EncLong; hide ParseScalar; hide ParseArray; hide ParseLong;
    NothingIsEOF();
    if k == 0 {
      assert EncField(l)[..k] == [];
    } else {
      var cut := EncField(l)[..k];
      assert cut == [EncField(l)[0]] + EncField(l)[1..][..k - 1];
      Take8Put(cut[0], cut[1..]);
      match l {
        case LPlain(s) => CutScalar(s, k - 1);
        case LTab(es) =>
          assert EncField(l)[1..] == EncTable(es);
          CutLong(EncEntries(es), k - 1);
        case LArr(ls) =>
          assert EncField(l)[1..] == EncCounted(EncElems(ls));
          CutNested(ls, k - 1);
      }
    }
  }

  lemma {:induction false} CutNested(ls: seq<Layout>, k: nat)
    requires WellSized(LArr(ls)) && k < |EncCounted(EncElems(ls))|
    ensures ParseArray(EncCounted(EncElems(ls))[..k])
      == if k == 0 then Fail(EOF, [])
         else if k >= 4 && QuietElems(ls, k - 4) then Ok(Arr(Kept(ls, k - 4)), [])
         else Fail(UnexpectedEOF, [])
    decreases ls, 3
  {
    hide Put32; hide Get32; hide ParseElems; hide EncElems; hide QuietElems; hide Kept;
    var p, cut := EncElems(ls), EncCounted(EncElems(ls))[..k];
    if k >= 4 {
      var tail := p[..k - 4];
      assert cut == Put32(|p|) + tail;
      Take32Put(|p|, tail);
      assert tail[..|tail|] == tail && [] + tail[|tail|..] == [];
      CutElems(ls, k - 4, []);
      assert [] + Kept(ls, k - 4) == Kept(ls, k - 4);
    }
  }

  lemma CutLong(s: Bytes, k: nat)
    requires |s| < TWO31 && k < |EncLong(s)|
    ensures ParseLong(EncLong(s)[..k]) == Fail(if k == 0 || k == 4 then EOF else UnexpectedEOF, [])
  {
    hide Put32; hide Get32;
    LongIsCounted(s);
    var cut := EncLong(s)[..k];
    if k >= 4 {
      assert cut == Put32(|s|) + s[..k - 4];
      Take32Put(|s|, s[..k - 4]);
    }
  }

  lemma CutScalar(s: Scalar, k: nat)
    requires WellSized(LPlain(s)) && k + 1 < |EncScalar(s)|
    ensures ParseField([EncScalar(s)[0]] + EncScalar(s)[1..][..k])
      == Fail(if QuietField(LPlain(s), k + 1) then EOF else UnexpectedEOF, [])
  {
    hide Put16; hide Put32; hide Put64; hide Get16; hide Get32; hide Get64; hide ParseLong; hide EncCounted;
    var tag, cut := EncScalar(s)[0], EncScalar(s)[1..][..k];
    Take8Put(tag, cut);
    match s {
      case SStr(str) =>
        assert EncScalar(s)[1..] == EncCounted(str);
        LongIsCounted(str);
        CutLong(str, k);
      case SBlob(blob) => CutBlob(blob, k);
      case _ =>
    }
  }

  lemma CutBlob(blob: Bytes, k: nat)
    requires |blob| < TWO31 && k < |EncCounted(blob)|
    ensures EncScalar(SBlob(blob))[1..] == EncCounted(blob)
    ensures ParseScalar(TAG_BLOB, EncCounted(blob)[..k]) == Fail(if k == 0 || k == 4 then EOF else UnexpectedEOF, [])
  {
    hide Put32; hide Get32;
    var cut := EncCounted(blob)[..k];
    if k >= 4 {
      assert cut == Put32(|blob|) + blob[..k - 4];
      Take32Put(|blob|, blob[..k - 4]);
    }
  }
}
