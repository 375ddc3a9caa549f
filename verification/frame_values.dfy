/** Exactly which method, header and body frames survive being written and read. */
module FrameValues {
  import opened Octets
  import opened FieldCodec
  import opened FieldValues
  import opened Arguments
  import opened Methods
  import opened Headers
  import opened Frames
  import opened Writers
  import opened MethodIO
  import opened FrameIO

  // ---------- what a reader can return ----------

  ghost predicate ReadableArg(a: Read) {
    match a
    case AShortStr(str) => |str| < 256
    case ALongStr(str) => |str| < TWO31
    case ATable(m) => Readable(Tab(m))
    case _ => true
  }

  ghost predicate ReadableArgs(args: seq<Read>) {
    forall i :: 0 <= i < |args| ==> ReadableArg(args[i])
  }

  predicate ShortProps(p: ReadProps) {
    && |p.contentType| < 256 && |p.contentEncoding| < 256 && |p.correlationId| < 256 && |p.replyTo| < 256
    && |p.expiration| < 256 && |p.messageId| < 256 && |p.typ| < 256 && |p.userId| < 256 && |p.appId| < 256
    && p.timestamp.nsec == 0
  }

  ghost predicate ReadableFrame(f: WireFrame) {
    match f
    case MethodFrame(_, _, args) => ReadableArgs(args)
    case HeaderFrame(_, _, _, _, p) => ShortProps(p) && Readable(Tab(p.headers))
    case BodyFrame(_, body) => |body| < TWO32
    case HeartbeatFrame(_) => true
  }

  lemma ReadArgReadable(k: Kind, s: Bytes)
    requires !k.KBit?
    ensures DecArg(k, s).Ok? ==> ReadableArg(DecArg(k, s).val)
  {
    hide Take8; hide Take16; hide Take32; hide Take64; hide ParseShort; hide ParseLong; hide ParseTable; hide Readable;
    match k {
      case KShortStr => ShortReadable(s);
      case KLongStr => LongReadable(s);
      case KTable => ReadTableReadable(s);
      case _ =>
    }
  }

  lemma {:induction false} ReadArgsReadable(k: Kind, n: nat, s: Bytes)
    requires !k.KBit?
    ensures DecArgs(k, n, s).Ok? ==> ReadableArgs(DecArgs(k, n, s).val)
  {
    hide DecArg; hide ReadableArg;
    if n > 0 {
      ReadArgReadable(k, s);
      if DecArg(k, s).Ok? {
        ReadArgsReadable(k, n - 1, DecArg(k, s).rest);
      }
    }
  }

  lemma {:induction false} ReadRunsReadable(runs: seq<Run>, s: Bytes)
    requires Compilable(runs)
    ensures DecRuns(runs, s).Ok? ==> ReadableArgs(DecRuns(runs, s).val)
  {
    hide DecArgs;
    if runs != [] {
      if !runs[0].kind.KBit? {
        ReadArgsReadable(runs[0].kind, runs[0].n, s);
      }
      if DecRun(runs[0], s).Ok? {
        ReadRunsReadable(runs[1..], DecRun(runs[0], s).rest);
      }
    }
  }

  lemma IfShortReadable(mask: bv16, prop: bv16, s: Bytes)
    ensures ParseIfShort(mask, prop, s).Ok? ==> |ParseIfShort(mask, prop, s).val| < 256
  {
    ShortReadable(s);
  }

  lemma IfTableReadable(mask: bv16, prop: bv16, s: Bytes)
    ensures ParseIfTable(mask, prop, s).Ok? ==> Readable(Tab(ParseIfTable(mask, prop, s).val))
  {
    hide ParseTable;
    ReadTableReadable(s);
    assert EntriesSize(Tab(map[]), {}) == 0;
  }

  lemma ContentPropsReadable(mask: bv16, s: Bytes)
    ensures var r := ParseContentProps(mask, s);
      r.Ok? ==> ShortProps(r.val) && Readable(Tab(r.val.headers))
  {
    hide ParseIfShort; hide ParseIfTable; hide ParseIfOctet; hide Readable;
    forall prop, t
      ensures ParseIfShort(mask, prop, t).Ok? ==> |ParseIfShort(mask, prop, t).val| < 256
    {
      IfShortReadable(mask, prop, t);
    }
    forall prop, t
      ensures ParseIfTable(mask, prop, t).Ok? ==> Readable(Tab(ParseIfTable(mask, prop, t).val))
    {
      IfTableReadable(mask, prop, t);
    }
  }

  lemma MessagePropsReadable(mask: bv16, p: ReadProps, s: Bytes)
    requires ShortProps(p)
    ensures var r := ParseMessageProps(mask, p, s);
      r.Ok? ==> ShortProps(r.val) && r.val.headers == p.headers
  {
    hide ParseIfShort; hide Take64; hide HasProperty; hide Signed;
    forall prop, t
      ensures ParseIfShort(mask, prop, t).Ok? ==> |ParseIfShort(mask, prop, t).val| < 256
    {
      IfShortReadable(mask, prop, t);
    }
  }

  lemma OriginPropsReadable(mask: bv16, p: ReadProps, s: Bytes)
    requires ShortProps(p)
    ensures var r := ParseOriginProps(mask, p, s);
      r.Ok? ==> ShortProps(r.val) && r.val.headers == p.headers
  {
    hide ParseIfShort;
    forall prop, t
      ensures ParseIfShort(mask, prop, t).Ok? ==> |ParseIfShort(mask, prop, t).val| < 256
    {
      IfShortReadable(mask, prop, t);
    }
  }

  lemma ReadPropsReadable(s: Bytes)
    ensures var r := ParseProps(s);
      r.Ok? ==> ShortProps(r.val) && Readable(Tab(r.val.headers))
  {
    hide ParseContentProps; hide ParseMessageProps; hide ParseOriginProps; hide ToMask; hide Readable; hide ShortProps;
    hide Get16;
    if Take16(s).Ok? {
      var Ok(n, s0) := Take16(s);
      var m := ToMask(n);
      ContentPropsReadable(m, s0);
      if ParseContentProps(m, s0).Ok? {
        var Ok(first, s5) := ParseContentProps(m, s0);
        MessagePropsReadable(m, first, s5);
        if ParseMessageProps(m, first, s5).Ok? {
          OriginPropsReadable(m, ParseMessageProps(m, first, s5).val, ParseMessageProps(m, first, s5).rest);
        }
      }
    }
  }

  lemma ReadMethodReadable(ch: u16, s: Bytes)
    ensures ParseMethodFrame(ch, s).Ok? ==> ReadableFrame(ParseMethodFrame(ch, s).val)
  {
    hide Take16; hide Dispatch; hide Runs; hide DecRuns; hide ReadableArgs;
    if Take16(s).Ok? {
      var Ok(class_, s1) := Take16(s);
      if Take16(s1).Ok? {
        var Ok(index, s2) := Take16(s1);
        if Dispatch(class_, index).Some? {
          MethodBitRuns(Dispatch(class_, index).value);
          ReadRunsReadable(Runs(Dispatch(class_, index).value), s2);
        }
      }
    }
  }

  lemma ReadHeaderReadable(ch: u16, s: Bytes)
    ensures ParseHeaderFrame(ch, s).Ok? ==> ReadableFrame(ParseHeaderFrame(ch, s).val)
  {
    hide Take16; hide Take64; hide ParseProps; hide ShortProps; hide Readable;
    forall t
      ensures ParseProps(t).Ok? ==> ShortProps(ParseProps(t).val) && Readable(Tab(ParseProps(t).val.headers))
    {
      ReadPropsReadable(t);
    }
  }

  lemma ReadFrameReadable(s: Bytes)
    ensures ParseFrame(s).Ok? ==> ReadableFrame(ParseFrame(s).val)
  {
    hide ParseMethodFrame; hide ParseHeaderFrame; hide ReadableFrame; hide Get16; hide Get32;
    forall ch, t
      ensures ParseMethodFrame(ch, t).Ok? ==> ReadableFrame(ParseMethodFrame(ch, t).val)
    {
      ReadMethodReadable(ch, t);
    }
    forall ch, t
      ensures ParseHeaderFrame(ch, t).Ok? ==> ReadableFrame(ParseHeaderFrame(ch, t).val)
    {
      ReadHeaderReadable(ch, t);
    }
    ReadBodyReadable();
  }

  lemma ReadBodyReadable()
    ensures forall ch: u16, size: u32, s: Bytes :: ParseBodyFrame(ch, size, s).Ok? ==>
      ReadableFrame(ParseBodyFrame(ch, size, s).val)
    ensures forall ch: u16, size: u32, s: Bytes :: ParseHeartbeatFrame(ch, size, s).Ok? ==>
      ReadableFrame(ParseHeartbeatFrame(ch, size, s).val)
  {
  }

  // ---------- which written frames come back as themselves ----------

  /** The frame with the ints in its tables as int32. */
  function RetaggedFrame(f: WireFrame): WireFrame {
    match f
    case MethodFrame(ch, m, args) =>
      MethodFrame(ch, m, seq(|args|, i requires 0 <= i < |args| => RetaggedArg(args[i])))
    case HeaderFrame(ch, class_, weight, size, p) =>
      HeaderFrame(ch, class_, weight, size, p.(headers := Retagged(Tab(p.headers)).table))
    case _ => f
  }

  function RetaggedArg(a: Read): Read {
    match a
    case ATable(m) => ATable(Retagged(Tab(m)).table)
    case _ => a
  }

  /** Nothing in the frame is lost: its short strings have fewer than 256 octets, its tables lose nothing,
      its timestamp has whole seconds and reserved1, which is never written, is empty. */
  predicate PreservedFrame(f: WireFrame) {
    match f
    case MethodFrame(_, _, args) => forall i :: 0 <= i < |args| ==> PreservedArg(args[i])
    case HeaderFrame(_, _, _, _, p) => ShortProps(p) && p.reserved1 == [] && Preserved(Tab(p.headers))
    case _ => true
  }

  predicate PreservedArg(a: Read) {
    match a
    case AShortStr(str) => |str| < 256
    case ATable(m) => Preserved(Tab(m))
    case _ => true
  }

  lemma {:induction false} LaidSupported(l: Layout, v: Field)
    requires Lays(l, v) && SupportedValue(v)
    ensures Supported(l)
    decreases l, 1
  {
    match (l, v) {
      case (LPlain(_), Plain(_)) =>
      case (LArr(ls), Arr(vs)) =>
        forall i | 0 <= i < |ls|
          ensures Supported(ls[i])
        {
          LaidSupported(ls[i], vs[i]);
        }
      case (LTab(es), Tab(m)) =>
        forall i | 0 <= i < |es|
          ensures SupportedEntry(es[i])
        {
          EntrySupported(es[i], m);
        }
    }
  }

  lemma {:induction false} EntrySupported(e: Entry, m: map<Bytes, Field>)
    requires LaysEntry(e, m) && SupportedValue(Tab(m))
    ensures SupportedEntry(e)
    decreases e, 0
  {
    LaidSupported(e.val, m[e.key]);
  }

  lemma ArgExactIff(laid: Laid, a: Read)
    requires LaysArg(laid, a) && SupportedArg(a)
    ensures ReadableArg(RetaggedArg(a)) <==> ArgWellSized(laid) && PreservedArg(a)
    ensures ArgWellSized(laid) && PreservedArg(a) ==> RetaggedArg(a) == ReadsArg(a) && ShortKeysArg(a)
  {
    hide Readable; hide WellSizedTable; hide ShortKeys; hide Exact; hide Norm; hide LaysTable;
    match a {
      case ATable(m) =>
        LaidSupported(LTab(laid.t), Tab(m));
        TableExactIff(laid.t, m);
        if Exact(Tab(m)) {
          ExactRetagged(Tab(m));
        }
      case AShortStr(str) => ShortExact(str);
      case _ =>
    }
  }

  lemma MethodExactIff(ch: u16, m: Method, laid: seq<Laid>, args: seq<Read>)
    requires LaysArgs(laid, args) && SupportedArgs(args)
    ensures var f := MethodFrame(ch, m, args);
      && (ReadableFrame(RetaggedFrame(f)) <==> ArgsWellSized(laid) && PreservedFrame(f))
      && (ArgsWellSized(laid) && PreservedFrame(f) ==> RetaggedFrame(f) == Reads(f) && ShortKeysFrame(f))
  {
    hide ReadableArg; hide ArgWellSized; hide PreservedArg; hide RetaggedArg; hide ReadsArg; hide ShortKeysArg;
    hide LaysArg; hide SupportedArg;
    forall i | 0 <= i < |args|
      ensures ReadableArg(RetaggedArg(args[i])) <==> ArgWellSized(laid[i]) && PreservedArg(args[i])
      ensures ArgWellSized(laid[i]) && PreservedArg(args[i]) ==>
        RetaggedArg(args[i]) == ReadsArg(args[i]) && ShortKeysArg(args[i])
    {
      ArgExactIff(laid[i], args[i]);
    }
    var again := RetaggedFrame(MethodFrame(ch, m, args)).args;
    assert forall i :: 0 <= i < |args| ==> again[i] == RetaggedArg(args[i]);
    if ReadableArgs(again) {
      assert forall i :: 0 <= i < |args| ==> ReadableArg(again[i]);
    }
  }

  lemma PropsExactIff(laid: LaidProps, p: ReadProps)
    requires LaysProps(laid, p) && SupportedValue(Tab(p.headers))
    ensures ShortProps(p) && Readable(Retagged(Tab(p.headers)))
      <==> WellSizedTable(laid.headers) && ShortProps(p) && Preserved(Tab(p.headers))
    ensures ShortProps(p) && p.reserved1 == [] && Preserved(Tab(p.headers)) ==>
      p.(headers := Retagged(Tab(p.headers)).table) == ReadsProps(p)
  {
    hide Readable; hide WellSizedTable; hide ShortKeys; hide Exact; hide Norm; hide LaysTable; hide Short;
    LaidSupported(LTab(laid.headers), Tab(p.headers));
    TableExactIff(laid.headers, p.headers);
    if Exact(Tab(p.headers)) {
      ExactRetagged(Tab(p.headers));
    }
    if ShortProps(p) {
      ShortPropsExact(p);
    }
  }

  lemma ShortPropsExact(p: ReadProps)
    requires ShortProps(p)
    ensures Short(p.contentType) == p.contentType && Short(p.contentEncoding) == p.contentEncoding
    ensures Short(p.correlationId) == p.correlationId && Short(p.replyTo) == p.replyTo
    ensures Short(p.expiration) == p.expiration && Short(p.messageId) == p.messageId
    ensures Short(p.typ) == p.typ && Short(p.userId) == p.userId && Short(p.appId) == p.appId
  {
  }

  /** A supported frame, with its tables written in any order, reads back as itself, up to int becoming
      int32, if and only if every length in it is in range and nothing in it is lost. */
  lemma FrameRoundTripIff(laid: LaidFrame, f: WireFrame, rest: Bytes)
    requires LaysFrame(laid, f) && Formed(laid) && SupportedFrame(f)
    ensures ParseFrame(EncFrame(laid) + rest) == Ok(RetaggedFrame(f), rest)
      <==> WellSizedFrame(laid) && PreservedFrame(f)
  {
    hide ParseFrame; hide EncFrame; hide Readable; hide Norm; hide Short; hide WellSizedTable;
    hide ShortKeys; hide Exact; hide Formed; hide LaysArgs; hide ArgsWellSized; hide ReadableArgs; hide LaysTable;
    hide SupportedValue; hide SupportedArgs;
    ReadFrameReadable(EncFrame(laid) + rest);
    match (laid, f) {
      case (MethodFrame(ch, m, las), MethodFrame(_, _, args)) =>
        MethodExactIff(ch, m, las, args);
        if ArgsWellSized(las) && PreservedFrame(f) {
          WrittenFrameReads(laid, f, rest);
        }
      case (HeaderFrame(_, _, _, _, lp), HeaderFrame(_, _, _, _, p)) =>
        PropsExactIff(lp, p);
        if WellSizedTable(lp.headers) && Preserved(Tab(p.headers)) {
          WrittenFrameReads(laid, f, rest);
        }
      case (BodyFrame(_, _), BodyFrame(ch, body)) => BodyFrameRoundTripIff(ch, body, rest);
      case (HeartbeatFrame(_), HeartbeatFrame(_)) => WrittenFrameReads(laid, f, rest);
    }
  }
}
