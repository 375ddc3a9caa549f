/** What the frame reader accepts and refuses on arbitrary octets. */
module FrameRefusals {
  import opened Octets
  import opened Wrappers
  import opened FieldCodec
  import opened FieldLimits
  import opened WireOctets
  import opened Arguments
  import opened Methods
  import opened Generated
  import opened Headers
  import opened Frames

  // ---------- what is left is a suffix of what there was ----------

  lemma Transitive()
    ensures forall a: Bytes, b: Bytes, c: Bytes :: IsSuffix(a, b) && IsSuffix(b, c) ==> IsSuffix(a, c)
  {
    forall a: Bytes, b: Bytes, c: Bytes | IsSuffix(a, b) && IsSuffix(b, c)
      ensures IsSuffix(a, c)
    {
      SuffixTransitive(a, b, c);
    }
  }

  lemma NumbersSuffix(s: Bytes)
    ensures IsSuffix(s, s) && IsSuffix(Take8(s).rest, s) && IsSuffix(Take16(s).rest, s)
    ensures IsSuffix(Take32(s).rest, s) && IsSuffix(Take64(s).rest, s)
  {
    hide Get16; hide Get32; hide Get64; hide Take; hide IsSuffix;
    SuffixReflexive(s);
    TakeSuffix(s, 1);
    TakeSuffix(s, 2);
    TakeSuffix(s, 4);
    TakeSuffix(s, 8);
  }

  lemma ParseShortSuffix(s: Bytes)
    ensures IsSuffix(ParseShort(s).rest, s)
  {
    hide IsSuffix; hide Take; hide Take8;
    NumbersSuffix(s);
    match Take8(s) {
      case Ok(n, t) =>
        TakeSuffix(t, n as nat);
        Transitive();
      case Fail(_, _) =>
    }
  }

  lemma DecArgSuffix(k: Kind, s: Bytes)
    requires !k.KBit?
    ensures IsSuffix(DecArg(k, s).rest, s)
  {
    hide IsSuffix; hide Take8; hide Take16; hide Take32; hide Take64; hide ParseShort; hide ParseLong; hide ParseTable;
    NumbersSuffix(s);
    ParseShortSuffix(s);
    ParseLongSuffix(s);
    ParseTableProgress(s);
  }

  lemma {:induction false} DecArgsSuffix(k: Kind, n: nat, s: Bytes)
    requires !k.KBit?
    ensures IsSuffix(DecArgs(k, n, s).rest, s)
  {
    hide IsSuffix; hide DecArg;
    SuffixReflexive(s);
    if n > 0 {
      DecArgSuffix(k, s);
      match DecArg(k, s) {
        case Ok(_, t) =>
          DecArgsSuffix(k, n - 1, t);
          Transitive();
        case Fail(_, _) =>
      }
    }
  }

  lemma {:induction false} DecRunsSuffix(runs: seq<Run>, s: Bytes)
    requires Compilable(runs)
    ensures IsSuffix(DecRuns(runs, s).rest, s)
  {
    hide IsSuffix; hide DecArgs; hide Take8; hide GetBits; hide ToBits;
    SuffixReflexive(s);
    if runs != [] {
      NumbersSuffix(s);
      if !runs[0].kind.KBit? {
        DecArgsSuffix(runs[0].kind, runs[0].n, s);
      }
      match DecRun(runs[0], s) {
        case Ok(_, t) =>
          DecRunsSuffix(runs[1..], t);
          Transitive();
        case Fail(_, _) =>
      }
    }
  }

  lemma IfShortSuffix(mask: bv16, prop: bv16, s: Bytes)
    ensures IsSuffix(ParseIfShort(mask, prop, s).rest, s)
  {
    hide IsSuffix; hide ParseShort; hide HasProperty;
    SuffixReflexive(s);
    ParseShortSuffix(s);
  }

  lemma IfOctetSuffix(mask: bv16, prop: bv16, s: Bytes)
    ensures IsSuffix(ParseIfOctet(mask, prop, s).rest, s)
  {
    hide IsSuffix; hide Take8; hide HasProperty;
    NumbersSuffix(s);
  }

  lemma IfTableSuffix(mask: bv16, prop: bv16, s: Bytes)
    ensures IsSuffix(ParseIfTable(mask, prop, s).rest, s)
  {
    hide IsSuffix; hide ParseTable; hide HasProperty;
    SuffixReflexive(s);
    ParseTableProgress(s);
  }

  lemma IfTimeSuffix(mask: bv16, prop: bv16, s: Bytes)
    ensures IsSuffix(ParseIfTime(mask, prop, s).rest, s)
  {
    hide IsSuffix; hide Take64; hide HasProperty; hide Signed; hide ZERO_TIME;
    NumbersSuffix(s);
  }

  lemma IfSuffixes(mask: bv16)
    ensures forall prop: bv16, s: Bytes :: IsSuffix(ParseIfShort(mask, prop, s).rest, s)
    ensures forall prop: bv16, s: Bytes :: IsSuffix(ParseIfOctet(mask, prop, s).rest, s)
    ensures forall prop: bv16, s: Bytes :: IsSuffix(ParseIfTable(mask, prop, s).rest, s)
    ensures forall prop: bv16, s: Bytes :: IsSuffix(ParseIfTime(mask, prop, s).rest, s)
  {
    forall prop: bv16, s: Bytes
      ensures IsSuffix(ParseIfShort(mask, prop, s).rest, s) && IsSuffix(ParseIfOctet(mask, prop, s).rest, s)
      ensures IsSuffix(ParseIfTable(mask, prop, s).rest, s) && IsSuffix(ParseIfTime(mask, prop, s).rest, s)
    {
      IfShortSuffix(mask, prop, s);
      IfOctetSuffix(mask, prop, s);
      IfTableSuffix(mask, prop, s);
      IfTimeSuffix(mask, prop, s);
    }
  }

  lemma ContentPropsSuffix(mask: bv16, s: Bytes)
    ensures IsSuffix(ParseContentProps(mask, s).rest, s)
  {
    hide IsSuffix; hide ParseIfShort; hide ParseIfOctet; hide ParseIfTable; hide ContentProps;
    IfSuffixes(mask);
    Transitive();
  }

  lemma MessagePropsSuffix(mask: bv16, p: ReadProps, s: Bytes)
    ensures IsSuffix(ParseMessageProps(mask, p, s).rest, s)
  {
    hide IsSuffix; hide ParseIfShort; hide ParseIfTime; hide WithMessageProps;
    IfSuffixes(mask);
    Transitive();
  }

  lemma OriginPropsSuffix(mask: bv16, p: ReadProps, s: Bytes)
    ensures IsSuffix(ParseOriginProps(mask, p, s).rest, s)
  {
    hide IsSuffix; hide ParseIfShort; hide WithOriginProps;
    IfSuffixes(mask);
    Transitive();
  }

  lemma ParsePropsSuffix(s: Bytes)
    ensures IsSuffix(ParseProps(s).rest, s)
  {
    hide IsSuffix; hide Take16; hide ParseContentProps; hide ParseMessageProps; hide ParseOriginProps; hide ToMask;
    Transitive();
    NumbersSuffix(s);
    if Take16(s).Ok? {
      var Ok(n, s0) := Take16(s);
      var mask := ToMask(n);
      ContentPropsSuffix(mask, s0);
      if ParseContentProps(mask, s0).Ok? {
        var Ok(first, s5) := ParseContentProps(mask, s0);
        MessagePropsSuffix(mask, first, s5);
        if ParseMessageProps(mask, first, s5).Ok? {
          var Ok(second, s10) := ParseMessageProps(mask, first, s5);
          OriginPropsSuffix(mask, second, s10);
        }
      }
    }
  }

  lemma MethodFrameSuffix(ch: u16, s: Bytes)
    ensures IsSuffix(ParseMethodFrame(ch, s).rest, s)
  {
    hide IsSuffix; hide Take16; hide Dispatch; hide DecRuns; hide Runs;
    Transitive();
    NumbersSuffix(s);
    if Take16(s).Ok? {
      var Ok(class_, s1) := Take16(s);
      NumbersSuffix(s1);
      if Take16(s1).Ok? {
        var Ok(index, s2) := Take16(s1);
        match Dispatch(class_, index) {
          case Some(m) =>
            MethodBitRuns(m);
            DecRunsSuffix(Runs(m), s2);
          case None =>
        }
      }
    }
  }

  lemma HeaderFrameSuffix(ch: u16, s: Bytes)
    ensures IsSuffix(ParseHeaderFrame(ch, s).rest, s)
  {
    hide IsSuffix; hide Take16; hide Take64; hide ParseProps;
    Transitive();
    NumbersSuffix(s);
    if Take16(s).Ok? {
      var s1 := Take16(s).rest;
      NumbersSuffix(s1);
      if Take16(s1).Ok? {
        var s2 := Take16(s1).rest;
        NumbersSuffix(s2);
        if Take64(s2).Ok? {
          ParsePropsSuffix(Take64(s2).rest);
        }
      }
    }
  }

  lemma PayloadSuffix(typ: byte, ch: u16, size: u32, s: Bytes)
    ensures IsSuffix(ParsePayload(typ, ch, size, s).rest, s)
  {
    hide IsSuffix; hide Take; hide ParseMethodFrame; hide ParseHeaderFrame;
    SuffixReflexive(s);
    TakeSuffix(s, size);
    MethodFrameSuffix(ch, s);
    HeaderFrameSuffix(ch, s);
  }

  // ---------- what a frame that was read looked like ----------

  /** The type octet of a frame. */
  predicate TypeIs(f: WireFrame, b: byte) {
    match f
    case MethodFrame(_, _, _) => b == 1
    case HeaderFrame(_, _, _, _, _) => b == 2
    case BodyFrame(_, _) => b == 3
    case HeartbeatFrame(_) => b == 8
  }

  /** A payload as it was read from t: the numbers of a method, the octets a body's size counts, a heartbeat
      without any. */
  predicate PayloadForm(f: WireFrame, size: nat, t: Bytes, left: Bytes) {
    match f
    case MethodFrame(_, m, _) =>
      |t| >= 4 && BigEndian(t[..2]) == CodeOf(m).class_ && BigEndian(t[2..4]) == CodeOf(m).index
    case HeaderFrame(_, class_, weight, size_, _) =>
      |t| >= 12 && BigEndian(t[..2]) == class_ && BigEndian(t[2..4]) == weight && BigEndian(t[4..12]) == size_
    case BodyFrame(_, body) => size == |body| && t == body + left
    case HeartbeatFrame(_) => size == 0 && t == left
  }

  /** s is a frame that was read and what is left: the type and the channel in front, then the size and the
      payload, and 206 as the last octet. */
  predicate Framed(s: Bytes, f: WireFrame, rest: Bytes) {
    && |s| >= 8 && TypeIs(f, s[0]) && BigEndian(s[1..3]) == f.channel
    && IsSuffix([206] + rest, s[7..]) && PayloadForm(f, BigEndian(s[3..7]), s[7..], [206] + rest)
  }

  lemma MethodFrameForm(ch: u16, size: u32, t: Bytes)
    requires ParseMethodFrame(ch, t).Ok?
    ensures var r := ParseMethodFrame(ch, t);
      r.val.MethodFrame? && r.val.channel == ch && PayloadForm(r.val, size, t, r.rest)
  {
    hide BigEndian; hide Get16; hide Dispatch; hide DecRuns; hide Runs; hide CodeOf; hide ID;
    var m := ParseMethodFrame(ch, t).val.kind;
    var t2 := t[2..];
    assert t2[..2] == t[2..4];
    BigEndianGet16(t[..2]);
    BigEndianGet16(t[2..4]);
    DispatchIffID(Get16(t[..2]), Get16(t[2..4]), m);
    NumbersOfRow(m);
  }

  lemma HeaderFrameForm(ch: u16, size: u32, t: Bytes)
    requires ParseHeaderFrame(ch, t).Ok?
    ensures var r := ParseHeaderFrame(ch, t);
      r.val.HeaderFrame? && r.val.channel == ch && PayloadForm(r.val, size, t, r.rest)
  {
    hide BigEndian; hide Get16; hide Get64; hide ParseProps;
    var t2, t4 := t[2..], t[4..];
    assert t2[..2] == t[2..4] && t2[2..] == t4 && t4[..8] == t[4..12];
    BigEndianGet16(t[..2]);
    BigEndianGet16(t[2..4]);
    BigEndianGet64(t[4..12]);
  }

  lemma PayloadRead(typ: byte, ch: u16, size: u32, t: Bytes)
    requires ParsePayload(typ, ch, size, t).Ok?
    ensures var r := ParsePayload(typ, ch, size, t);
      TypeIs(r.val, typ) && r.val.channel == ch && PayloadForm(r.val, size, t, r.rest)
  {
    hide ParseMethodFrame; hide ParseHeaderFrame; hide BigEndian; hide CodeOf;
    if typ == 1 {
      MethodFrameForm(ch, size, t);
    } else if typ == 2 {
      HeaderFrameForm(ch, size, t);
    }
  }

  /** ParseFrame on enough octets for a prefix. */
  lemma BehindPrefix(s: Bytes)
    requires |s| >= 7
    ensures BigEndian(s[1..3]) < 0x1_0000 && BigEndian(s[3..7]) < 0x1_0000_0000
    ensures var r := ParsePayload(s[0], BigEndian(s[1..3]), BigEndian(s[3..7]), s[7..]);
      ParseFrame(s) ==
        if r.Fail? then Fail(r.err, r.rest)
        else if r.rest == [] then Fail(EOF, [])
        else if r.rest[0] == 206 then Ok(r.val, r.rest[1..])
        else Fail(FrameError, r.rest[1..])
  {
    hide BigEndian; hide Get16; hide Get32; hide ParsePayload;
    BigEndianGet16(s[1..3]);
    BigEndianGet32(s[3..7]);
    assert s[..7][1..3] == s[1..3] && s[..7][3..7] == s[3..7];
  }

  /** Whatever octets a frame is read from, they have its form: no other type and no other end octet is accepted,
      and what is left is what stands behind the end octet. */
  lemma ReadFrameForm(s: Bytes)
    requires ParseFrame(s).Ok?
    ensures Framed(s, ParseFrame(s).val, ParseFrame(s).rest)
  {
    hide BigEndian; hide ParsePayload; hide PayloadForm; hide TypeIs; hide IsSuffix;
    PrefixNeeded(s);
    BehindPrefix(s);
    var ch, size := BigEndian(s[1..3]), BigEndian(s[3..7]);
    PayloadRead(s[0], ch, size, s[7..]);
    PayloadSuffix(s[0], ch, size, s[7..]);
    var left := ParsePayload(s[0], ch, size, s[7..]).rest;
    assert left == [206] + ParseFrame(s).rest;
    ShorterSuffix(left, s[7..]);
  }

  lemma ShorterSuffix(t: Bytes, s: Bytes)
    requires IsSuffix(t, s)
    ensures |t| <= |s|
  {
  }

  /** Fewer than seven octets are not enough for a frame. */
  lemma PrefixNeeded(s: Bytes)
    ensures |s| < 7 ==> ParseFrame(s) == Fail(if s == [] then EOF else UnexpectedEOF, [])
  {
  }

  /** A type that is none of the four is refused before anything behind the prefix is read. */
  lemma UnknownTypeRefused(s: Bytes)
    requires |s| >= 7 && s[0] !in {1, 2, 3, 8}
    ensures ParseFrame(s) == Fail(FrameError, s[7..])
  {
    hide BigEndian;
    BehindPrefix(s);
  }

  /** A body frame is accepted exactly when its size counts octets that are there and 206 stands behind them. */
  lemma BodyAcceptedIff(s: Bytes)
    requires |s| >= 7 && s[0] == 3
    ensures var n := 7 + BigEndian(s[3..7]);
      ParseFrame(s).Ok? <==> |s| > n && s[n] == 206
  {
    hide BigEndian;
    BehindPrefix(s);
  }

  /** A heartbeat is accepted exactly when its size is 0 and 206 stands behind that. */
  lemma HeartbeatAcceptedIff(s: Bytes)
    requires |s| >= 7 && s[0] == 8
    ensures ParseFrame(s).Ok? <==> BigEndian(s[3..7]) == 0 && |s| > 7 && s[7] == 206
    ensures BigEndian(s[3..7]) > 0 ==> ParseFrame(s) == Fail(HeartbeatPayload, s[7..])
  {
    hide BigEndian;
    BehindPrefix(s);
  }
}
