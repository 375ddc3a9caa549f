/** The writers and readers of frames. */
module FrameIO {
  import opened Octets
  import opened Wrappers
  import opened FieldCodec
  import opened Writers
  import opened Readers
  import opened Arguments
  import opened Methods
  import opened MethodIO
  import opened Headers
  import opened Frames
  import opened FrameOctets

  // ---------- envelopes ----------

  /** writeFrame: the whole frame is laid out in one array and written at once. */
  method WriteFrame(w: Buffer, typ: byte, channel: u16, payload: Bytes)
    modifies w
    ensures w.out == old(w.out) + Envelope(typ, channel, payload)
  {
    hide Put16; hide Put32;
    var size := |payload|;
    var buf := new byte[7 + |payload| + 1](_ => 0);
    PutAt(buf, 0, [typ] + Put16(channel) + Put32(size));
    assert buf[..7] == Prefix(typ, channel, size);
    PutAt(buf, 7, payload);
    assert buf[..7 + |payload|] == Prefix(typ, channel, size) + payload;
    buf[buf.Length - 1] := FRAME_END;
    assert buf[..] == Envelope(typ, channel, payload);
    w.Write(buf[..]);
  }

  /** writeFrameBuffer: the same octets in three writes, without copying the payload. */
  method WriteFrameBuffer(w: Buffer, typ: byte, channel: u16, payload: Buffer)
    requires w != payload
    modifies w
    ensures w.out == old(w.out) + Envelope(typ, channel, payload.out)
  {
    hide Put16; hide Put32;
    var payloadBytes := payload.out;
    var header := [typ] + Put16(channel) + Put32(|payloadBytes|) + [FRAME_END];
    w.Write(header[..7]);
    assert w.out == old(w.out) + Prefix(typ, channel, |payloadBytes|);
    if |payloadBytes| > 0 {
      w.Write(payloadBytes);
    }
    w.Write(header[7..8]);
  }

  // ---------- content headers ----------

  /** laid is p with an iteration order chosen for its table. */
  ghost predicate LaysProps(laid: LaidProps, p: ReadProps) {
    LaysTable(laid.headers, p.headers) && laid == LaidPropsOf(p, laid.headers)
  }

  ghost function LaidPropsOf(p: ReadProps, headers: seq<Entry>): LaidProps {
    Properties(p.contentType, p.contentEncoding, headers, p.deliveryMode, p.priority, p.correlationId, p.replyTo,
               p.expiration, p.messageId, p.timestamp, p.typ, p.userId, p.appId, p.reserved1)
  }

  /** The first pass of HeaderFrame.Write: the mask announces exactly the properties that will be written. */
  method BuildMask(p: ReadProps) returns (mask: bv16)
    ensures Announces(mask, p, |p.headers| > 0)
    ensures mask == MaskFor(p, |p.headers| > 0)
  {
    hide Presences; hide MaskUpTo; hide Announces;
    ghost var ps := Presences(p, |p.headers| > 0);
    NoMask(ps);
    mask := RaiseContent(p, 0);
    mask := RaiseMessage(p, mask);
    mask := RaiseOrigin(p, mask);
    assert ps[..13] == ps;
    MaskAnnounces(p, |p.headers| > 0);
  }

  method RaiseContent(p: ReadProps, mask0: bv16) returns (mask: bv16)
    requires mask0 == MaskUpTo(Presences(p, |p.headers| > 0)[..0])
    ensures mask == MaskUpTo(Presences(p, |p.headers| > 0)[..5])
  {
    hide MaskUpTo;
    ghost var ps := Presences(p, |p.headers| > 0);
    mask := Raise(mask0, p.contentType != [], CONTENT_TYPE, ps, 0);
    mask := Raise(mask, p.contentEncoding != [], CONTENT_ENCODING, ps, 1);
    mask := Raise(mask, |p.headers| > 0, HEADERS, ps, 2);
    mask := Raise(mask, p.deliveryMode > 0, DELIVERY_MODE, ps, 3);
    mask := Raise(mask, p.priority > 0, PRIORITY, ps, 4);
  }

  method RaiseMessage(p: ReadProps, mask0: bv16) returns (mask: bv16)
    requires mask0 == MaskUpTo(Presences(p, |p.headers| > 0)[..5])
    ensures mask == MaskUpTo(Presences(p, |p.headers| > 0)[..10])
  {
    hide MaskUpTo;
    ghost var ps := Presences(p, |p.headers| > 0);
    mask := Raise(mask0, p.correlationId != [], CORRELATION_ID, ps, 5);
    mask := Raise(mask, p.replyTo != [], REPLY_TO, ps, 6);
    mask := Raise(mask, p.expiration != [], EXPIRATION, ps, 7);
    mask := Raise(mask, p.messageId != [], MESSAGE_ID, ps, 8);
    mask := Raise(mask, p.timestamp != ZERO_TIME, TIMESTAMP, ps, 9);
  }

  method RaiseOrigin(p: ReadProps, mask0: bv16) returns (mask: bv16)
    requires mask0 == MaskUpTo(Presences(p, |p.headers| > 0)[..10])
    ensures mask == MaskUpTo(Presences(p, |p.headers| > 0)[..13])
  {
    hide MaskUpTo;
    ghost var ps := Presences(p, |p.headers| > 0);
    mask := Raise(mask0, p.typ != [], TYPE, ps, 10);
    mask := Raise(mask, p.userId != [], USER_ID, ps, 11);
    mask := Raise(mask, p.appId != [], APP_ID, ps, 12);
  }

  lemma NoMask(ps: seq<(bool, bv16)>)
    ensures MaskUpTo(ps[..0]) == 0
  {
  }

  method Raise(mask0: bv16, present: bool, prop: bv16, ghost ps: seq<(bool, bv16)>, ghost i: nat) returns (mask: bv16)
    requires i < |ps| && ps[i] == (present, prop) && mask0 == MaskUpTo(ps[..i])
    ensures mask == MaskUpTo(ps[..i + 1])
  {
    assert ps[..i + 1][..i] == ps[..i];
    mask := mask0;
    if present {
      mask := mask | prop;
    }
  }

  method WriteIfShort(w: Buffer, mask: bv16, prop: bv16, s: Bytes)
    requires HasProperty(mask, prop) <==> s != []
    modifies w
    ensures w.out == old(w.out) + If(s != [], EncShort(s))
  {
    hide EncShort;
    if HasProperty(mask, prop) {
      w.WriteShort(s);
    }
  }

  /** The second pass of HeaderFrame.Write: the mask, then each property in it. */
  method WriteProps(w: Buffer, p: ReadProps) returns (ok: bool, ghost laid: LaidProps)
    modifies w
    ensures ok <==> SupportedValue(Tab(p.headers))
    ensures ok ==> LaysProps(laid, p) && w.out == old(w.out) + EncProps(laid)
  {
    hide MaskFor; hide MaskOf; hide Announces; hide PutMask; hide LaysTable; hide Concat;
    hide SupportedValue; hide ContentParts;
    hide If; hide EncShort; hide Put64; hide MessageParts; hide OriginParts;
    ghost var base := w.out;
    var mask := BuildMask(p);
    w.Write(PutMask(mask));
    ghost var es;
    ok, es := WriteContentProps(w, mask, p);
    laid := LaidPropsOf(p, es);
    if !ok {
      return;
    }
    WriteMessageProps(w, mask, p);
    WriteOriginProps(w, mask, p);
    SameParts(p, laid);
    SameMask(p, laid);
    assert w.out == base + EncProps(laid);
  }

  lemma SameMask(p: ReadProps, laid: LaidProps)
    requires laid == LaidPropsOf(p, laid.headers) && (laid.headers != [] <==> |p.headers| > 0)
    ensures MaskOf(laid) == MaskFor(p, |p.headers| > 0)
  {
    hide MaskUpTo;
    assert Presences(laid, laid.headers != []) == Presences(p, |p.headers| > 0);
  }

  lemma SameParts(p: ReadProps, laid: LaidProps)
    requires laid == LaidPropsOf(p, laid.headers)
    ensures MessageParts(laid) == MessageParts(p) && OriginParts(laid) == OriginParts(p)
  {
  }

  method WriteContentProps(w: Buffer, mask: bv16, p: ReadProps) returns (ok: bool, ghost es: seq<Entry>)
    requires mask == MaskFor(p, |p.headers| > 0)
    modifies w
    ensures ok <==> SupportedValue(Tab(p.headers))
    ensures ok ==> LaysTable(es, p.headers) && (es != [] <==> |p.headers| > 0)
    ensures ok ==> w.out == old(w.out) + Concat(ContentParts(LaidPropsOf(p, es)))
  {
    hide HasProperty; hide MaskFor; hide If; hide Concat; hide EncShort; hide EncTable; hide SupportedValue;
    hide LaysTable;
    MaskAnnounces(p, |p.headers| > 0);
    ghost var base := w.out;
    es := [];
    WriteIfShort(w, mask, CONTENT_TYPE, p.contentType);
    WriteIfShort(w, mask, CONTENT_ENCODING, p.contentEncoding);
    ok, es := WriteIfTable(w, mask, p.headers);
    if !ok {
      return;
    }
    WriteIfOctet(w, mask, DELIVERY_MODE, p.deliveryMode);
    WriteIfOctet(w, mask, PRIORITY, p.priority);
    ConcatFive(base, ContentParts(LaidPropsOf(p, es)));
  }

  lemma ConcatFive(base: Bytes, parts: seq<Bytes>)
    requires |parts| == 5
    ensures base + Concat(parts) == base + parts[0] + parts[1] + parts[2] + parts[3] + parts[4]
  {
    hide Concat;
    ConcatFirst(base, parts);
    ConcatFirst(base + parts[0], parts[1..]);
    assert parts[1..][1..] == parts[2..];
    ConcatThree(base + parts[0] + parts[1], parts[2..]);
  }

  lemma ConcatThree(base: Bytes, parts: seq<Bytes>)
    requires |parts| == 3
    ensures base + Concat(parts) == base + parts[0] + parts[1] + parts[2]
  {
    ConcatFirst(base, parts);
    ConcatFirst(base + parts[0], parts[1..]);
    ConcatFirst(base + parts[0] + parts[1], parts[1..][1..]);
    assert parts[1..][1..][1..] == [];
  }

  lemma ConcatFirst(base: Bytes, parts: seq<Bytes>)
    requires parts != []
    ensures base + Concat(parts) == base + parts[0] + Concat(parts[1..])
  {
  }

  method WriteIfOctet(w: Buffer, mask: bv16, prop: bv16, o: byte)
    requires HasProperty(mask, prop) <==> o > 0
    modifies w
    ensures w.out == old(w.out) + If(o > 0, [o])
  {
    if HasProperty(mask, prop) {
      w.Write([o]);
    }
  }

  method WriteIfTable(w: Buffer, mask: bv16, m: map<Bytes, Field>)
    returns (ok: bool, ghost es: seq<Entry>)
    requires HasProperty(mask, HEADERS) <==> |m| > 0
    modifies w
    ensures ok <==> SupportedValue(Tab(m))
    ensures ok ==> LaysTable(es, m) && (es != [] <==> |m| > 0)
    ensures ok ==> w.out == old(w.out) + If(es != [], EncTable(es))
  {
    hide EncTable;
    ok, es := true, [];
    if HasProperty(mask, HEADERS) {
      ok, es := WriteTable(w, Tab(m));
    }
    if ok {
      LaidEmpty(es, m);
    }
  }

  method WriteMessageProps(w: Buffer, mask: bv16, p: ReadProps)
    requires mask == MaskFor(p, |p.headers| > 0)
    modifies w
    ensures w.out == old(w.out) + Concat(MessageParts(p))
  {
    hide HasProperty; hide MaskFor; hide If; hide Concat; hide EncShort; hide EncTable; hide Put64;
    MaskAnnounces(p, |p.headers| > 0);
    ghost var base := w.out;
    WriteIfShort(w, mask, CORRELATION_ID, p.correlationId);
    WriteIfShort(w, mask, REPLY_TO, p.replyTo);
    WriteIfShort(w, mask, EXPIRATION, p.expiration);
    WriteIfShort(w, mask, MESSAGE_ID, p.messageId);
    WriteIfTime(w, mask, p.timestamp);
    ConcatFive(base, MessageParts(p));
  }

  method WriteIfTime(w: Buffer, mask: bv16, t: Stamp)
    requires HasProperty(mask, TIMESTAMP) <==> t != ZERO_TIME
    modifies w
    ensures w.out == old(w.out) + If(t != ZERO_TIME, Put64(t.sec))
  {
    hide Put64;
    if HasProperty(mask, TIMESTAMP) {
      w.Write(Put64(t.sec));
    }
  }

  method WriteOriginProps(w: Buffer, mask: bv16, p: ReadProps)
    requires mask == MaskFor(p, |p.headers| > 0)
    modifies w
    ensures w.out == old(w.out) + Concat(OriginParts(p))
  {
    hide HasProperty; hide MaskFor; hide If; hide Concat; hide EncShort; hide EncTable; hide Put64;
    MaskAnnounces(p, |p.headers| > 0);
    ghost var base := w.out;
    WriteIfShort(w, mask, TYPE, p.typ);
    WriteIfShort(w, mask, USER_ID, p.userId);
    WriteIfShort(w, mask, APP_ID, p.appId);
    ConcatThree(base, OriginParts(p));
  }

  lemma LaidEmpty(es: seq<Entry>, m: map<Bytes, Field>)
    requires LaysTable(es, m)
    ensures es != [] <==> |m| > 0
  {
    if es != [] {
      assert es[0].key in KeySet(es);
    }
    if m != map[] {
      var k :| k in m;
      assert k in KeySet(es);
    }
  }

  // ---------- writing a frame ----------

  /** laid is f with an iteration order chosen for each of its tables. */
  ghost predicate LaysFrame(laid: LaidFrame, f: WireFrame) {
    match (laid, f)
    case (MethodFrame(c, m, las), MethodFrame(d, n, as_)) => c == d && m == n && LaysArgs(las, as_)
    case (HeaderFrame(c, cl, we, si, lp), HeaderFrame(d, dl, ve, ti, p)) =>
      c == d && cl == dl && we == ve && si == ti && LaysProps(lp, p)
    case (BodyFrame(c, b), BodyFrame(d, e)) => c == d && b == e
    case (HeartbeatFrame(c), HeartbeatFrame(d)) => c == d
    case _ => false
  }

  predicate SupportedFrame(f: WireFrame) {
    match f
    case MethodFrame(_, _, args) => SupportedArgs(args)
    case HeaderFrame(_, _, _, _, p) => SupportedValue(Tab(p.headers))
    case _ => true
  }

  /** Frame.Write: a supported frame appends its encoding; a frame with a value of an unsupported
      type appends nothing, for its payload is built apart. */
  method Write(w: Buffer, f: WireFrame) returns (ok: bool, ghost laid: LaidFrame)
    requires Formed(f)
    modifies w
    ensures ok <==> SupportedFrame(f)
    ensures ok ==> LaysFrame(laid, f) && Formed(laid) && w.out == old(w.out) + EncFrame(laid)
    ensures ok ==> OnWire(laid, w.out[|old(w.out)|..])
    ensures !ok ==> w.out == old(w.out)
  {
    hide OnWire; hide Envelope; hide Encode; hide EncProps; hide LaysArgs; hide LaysProps; hide SupportedArgs;
    hide Put64; hide SupportedValue; hide Put16; hide Fits; hide Runs;
    ok := true;
    match f {
      case MethodFrame(ch, m, args) =>
        var payload := new Buffer();
        ghost var las;
        ok, las := WriteMethod(payload, m, args);
        laid := MethodFrame(ch, m, las);
        if ok {
          WriteFrameBuffer(w, FRAME_METHOD, ch, payload);
        }
      case HeaderFrame(ch, class_, weight, size, p) =>
        var payload := new Buffer();
        ghost var lp;
        ok, lp := WriteHeader(payload, class_, weight, size, p);
        laid := HeaderFrame(ch, class_, weight, size, lp);
        if ok {
          WriteFrameBuffer(w, FRAME_HEADER, ch, payload);
        }
      case BodyFrame(ch, body) =>
        WriteFrame(w, FRAME_BODY, ch, body);
        laid := BodyFrame(ch, body);
      case HeartbeatFrame(ch) =>
        WriteFrame(w, FRAME_HEARTBEAT, ch, []);
        laid := HeartbeatFrame(ch);
    }
    if ok {
      OnWireIff(laid, EncFrame(laid));
      assert w.out[|old(w.out)|..] == EncFrame(laid);
    }
  }

  method WriteMethod(payload: Buffer, m: Method, args: seq<Read>) returns (ok: bool, ghost laid: seq<Laid>)
    requires payload.out == [] && Fits(Runs(m), args)
    modifies payload
    ensures ok <==> SupportedArgs(args)
    ensures ok ==> LaysArgs(laid, args) && Fits(Runs(m), laid) && payload.out == EncMethod(m, laid)
  {
    hide Put16; hide EncRuns; hide ID; hide Runs; hide Fits; hide LaysArgs; hide SupportedArgs;
    MethodBitRuns(m);
    var (class_, index) := ID(m);
    payload.Write(Put16(class_));
    payload.Write(Put16(index));
    ok, laid := WriteRuns(payload, Runs(m), args, 0);
    if ok {
      assert payload.out == Put16(class_) + Put16(index) + Encode(Runs(m), laid) == EncMethod(m, laid);
    }
  }

  method WriteHeader(payload: Buffer, class_: u16, weight: u16, size: u64, p: ReadProps)
    returns (ok: bool, ghost laid: LaidProps)
    requires payload.out == []
    modifies payload
    ensures ok <==> SupportedValue(Tab(p.headers))
    ensures ok ==> LaysProps(laid, p) && payload.out == EncHeader(class_, weight, size, laid)
  {
    hide Put16; hide Put64; hide EncProps; hide LaysProps; hide SupportedValue;
    payload.Write(Put16(class_));
    payload.Write(Put16(weight));
    payload.Write(Put64(size));
    ok, laid := WriteProps(payload, p);
    if ok {
      assert payload.out == Put16(class_) + Put16(weight) + Put64(size) + EncProps(laid);
    }
  }

  /** Every key of every table in the frame fits a short string. */
  predicate ShortKeysFrame(f: WireFrame) {
    match f
    case MethodFrame(_, _, args) => forall i :: 0 <= i < |args| ==> ShortKeysArg(args[i])
    case HeaderFrame(_, _, _, _, p) => ShortKeys(Tab(p.headers))
    case _ => true
  }

  predicate ShortKeysArg(a: Read) {
    a.ATable? ==> ShortKeys(Tab(a.t))
  }

  /** What the other side reads of a frame: short strings and table values normalised, reserved1 empty. */
  function Reads(f: WireFrame): WireFrame {
    match f
    case MethodFrame(ch, m, args) => MethodFrame(ch, m, seq(|args|, i requires 0 <= i < |args| => ReadsArg(args[i])))
    case HeaderFrame(ch, cl, we, si, p) => HeaderFrame(ch, cl, we, si, ReadsProps(p))
    case _ => f
  }

  function ReadsArg(a: Read): Read {
    match a
    case AShortStr(str) => AShortStr(Short(str))
    case ATable(m) => ATable(Norm(Tab(m)).table)
    case _ => a
  }

  function ReadsProps(p: ReadProps): ReadProps {
    Properties(Short(p.contentType), Short(p.contentEncoding), Norm(Tab(p.headers)).table, p.deliveryMode, p.priority,
               Short(p.correlationId), Short(p.replyTo), Short(p.expiration), Short(p.messageId),
               Stamp(p.timestamp.sec, 0), Short(p.typ), Short(p.userId), Short(p.appId), [])
  }

  lemma TableReads(es: seq<Entry>, m: map<Bytes, Field>)
    requires LaysTable(es, m) && ShortKeys(Tab(m))
    ensures NormEntries(es, map[]) == Norm(Tab(m)).table
  {
    NormLayoutIsNorm(LTab(es), Tab(m));
  }

  lemma ArgReads(laid: Laid, a: Read)
    requires LaysArg(laid, a) && ShortKeysArg(a)
    ensures NormArg(laid) == ReadsArg(a)
  {
    if a.ATable? {
      TableReads(laid.t, a.t);
    }
  }

  /** A frame that was written reads back the same whatever order its tables were written in. */
  lemma WrittenFrameReads(laid: LaidFrame, f: WireFrame, rest: Bytes)
    requires LaysFrame(laid, f) && Formed(laid) && ShortKeysFrame(f) && WellSizedFrame(laid)
    ensures ParseFrame(EncFrame(laid) + rest) == Ok(Reads(f), rest)
  {
    hide ParseFrame; hide EncFrame; hide LaysTable; hide ShortKeys; hide Norm; hide NormEntries; hide Short;
    hide WellSizedFrame; hide Formed; hide NormArg; hide ReadsArg; hide LaysArg; hide ShortKeysArg;
    FrameRoundTrip(laid, rest);
    match (laid, f) {
      case (MethodFrame(_, _, las), MethodFrame(_, _, args)) =>
        forall i | 0 <= i < |args|
          ensures NormArgs(las)[i] == ReadsArg(args[i])
        {
          ArgReads(las[i], args[i]);
        }
        assert NormFrame(laid) == Reads(f);
      case (HeaderFrame(_, _, _, _, lp), HeaderFrame(_, _, _, _, p)) => TableReads(lp.headers, p.headers);
      case (BodyFrame(_, _), BodyFrame(_, _)) =>
      case (HeartbeatFrame(_), HeartbeatFrame(_)) =>
    }
  }

  // ---------- reading a frame ----------

  method ReadIfShort(r: Source, mask: bv16, prop: bv16) returns (v: Result<Bytes>)
    requires r.Valid()
    modifies r
    ensures r.Valid() && r.pos >= old(r.pos) && r.end == old(r.end)
    ensures v.Leaving(r.Rest()) == ParseIfShort(mask, prop, old(r.Rest()))
  {
    hide ParseShort;
    if !HasProperty(mask, prop) {
      return Value([]);
    }
    v := r.ReadShort();
  }

  method ReadIfOctet(r: Source, mask: bv16, prop: bv16) returns (v: Result<byte>)
    requires r.Valid()
    modifies r
    ensures r.Valid() && r.pos >= old(r.pos) && r.end == old(r.end)
    ensures v.Leaving(r.Rest()) == ParseIfOctet(mask, prop, old(r.Rest()))
  {
    hide Take8;
    if !HasProperty(mask, prop) {
      return Value(0);
    }
    v := r.Read8();
  }

  method ReadIfTable(r: Source, mask: bv16, prop: bv16) returns (v: Result<map<Bytes, Field>>)
    requires r.Valid()
    modifies r
    ensures r.Valid() && r.pos >= old(r.pos) && r.end == old(r.end)
    ensures v.Leaving(r.Rest()) == ParseIfTable(mask, prop, old(r.Rest()))
  {
    hide ParseTable;
    if !HasProperty(mask, prop) {
      return Value(map[]);
    }
    var t := r.ReadTable();
    v := match t case Value(f) => Value(f.table) case Error(e) => Error(e);
  }

  method ReadIfTime(r: Source, mask: bv16, prop: bv16) returns (v: Result<Stamp>)
    requires r.Valid()
    modifies r
    ensures r.Valid() && r.pos >= old(r.pos) && r.end == old(r.end)
    ensures v.Leaving(r.Rest()) == ParseIfTime(mask, prop, old(r.Rest()))
  {
    hide Take64;
    if !HasProperty(mask, prop) {
      return Value(ZERO_TIME);
    }
    var t := r.Read64();
    v := match t case Value(n) => Value(Stamp(Signed(n, TWO63), 0)) case Error(e) => Error(e);
  }

  method ReadContentProps(r: Source, mask: bv16) returns (p: Result<ReadProps>)
    requires r.Valid()
    modifies r
    ensures r.Valid() && r.pos >= old(r.pos) && r.end == old(r.end)
    ensures p.Leaving(r.Rest()) == ParseContentProps(mask, old(r.Rest()))
  {
    hide ParseIfShort; hide ParseIfTable; hide ParseIfOctet; hide ContentProps;
    var contentType := ReadIfShort(r, mask, CONTENT_TYPE);
    if contentType.Error? { return Error(contentType.err); }
    var contentEncoding := ReadIfShort(r, mask, CONTENT_ENCODING);
    if contentEncoding.Error? { return Error(contentEncoding.err); }
    var headers := ReadIfTable(r, mask, HEADERS);
    if headers.Error? { return Error(headers.err); }
    var deliveryMode := ReadIfOctet(r, mask, DELIVERY_MODE);
    if deliveryMode.Error? { return Error(deliveryMode.err); }
    var priority := ReadIfOctet(r, mask, PRIORITY);
    if priority.Error? { return Error(priority.err); }
    p := Value(ContentProps(contentType.val, contentEncoding.val, headers.val, deliveryMode.val, priority.val));
  }

  method ReadMessageProps(r: Source, mask: bv16, first: ReadProps) returns (p: Result<ReadProps>)
    requires r.Valid()
    modifies r
    ensures r.Valid() && r.pos >= old(r.pos) && r.end == old(r.end)
    ensures p.Leaving(r.Rest()) == ParseMessageProps(mask, first, old(r.Rest()))
  {
    hide ParseIfShort; hide ParseIfTime; hide WithMessageProps;
    var correlationId := ReadIfShort(r, mask, CORRELATION_ID);
    if correlationId.Error? { return Error(correlationId.err); }
    var replyTo := ReadIfShort(r, mask, REPLY_TO);
    if replyTo.Error? { return Error(replyTo.err); }
    var expiration := ReadIfShort(r, mask, EXPIRATION);
    if expiration.Error? { return Error(expiration.err); }
    var messageId := ReadIfShort(r, mask, MESSAGE_ID);
    if messageId.Error? { return Error(messageId.err); }
    var timestamp := ReadIfTime(r, mask, TIMESTAMP);
    if timestamp.Error? { return Error(timestamp.err); }
    p := Value(WithMessageProps(first, correlationId.val, replyTo.val, expiration.val, messageId.val, timestamp.val));
  }

  method ReadOriginProps(r: Source, mask: bv16, second: ReadProps) returns (p: Result<ReadProps>)
    requires r.Valid()
    modifies r
    ensures r.Valid() && r.pos >= old(r.pos) && r.end == old(r.end)
    ensures p.Leaving(r.Rest()) == ParseOriginProps(mask, second, old(r.Rest()))
  {
    hide ParseIfShort; hide WithOriginProps;
    var typ := ReadIfShort(r, mask, TYPE);
    if typ.Error? { return Error(typ.err); }
    var userId := ReadIfShort(r, mask, USER_ID);
    if userId.Error? { return Error(userId.err); }
    var appId := ReadIfShort(r, mask, APP_ID);
    if appId.Error? { return Error(appId.err); }
    var reserved1 := ReadIfShort(r, mask, RESERVED1);
    if reserved1.Error? { return Error(reserved1.err); }
    p := Value(WithOriginProps(second, typ.val, userId.val, appId.val, reserved1.val));
  }

  method ReadProperties(r: Source) returns (p: Result<ReadProps>)
    requires r.Valid()
    modifies r
    ensures r.Valid() && r.pos >= old(r.pos) && r.end == old(r.end)
    ensures p.Leaving(r.Rest()) == ParseProps(old(r.Rest()))
  {
    hide Take16; hide ParseContentProps; hide ParseMessageProps; hide ParseOriginProps; hide ToMask;
    var flags := r.Read16();
    if flags.Error? { return Error(flags.err); }
    var mask := ToMask(flags.val);
    var first := ReadContentProps(r, mask);
    if first.Error? { return Error(first.err); }
    var second := ReadMessageProps(r, mask, first.val);
    if second.Error? { return Error(second.err); }
    p := ReadOriginProps(r, mask, second.val);
  }

  method ReadMethodFrame(r: Source, channel: u16) returns (f: Result<WireFrame>)
    requires r.Valid()
    modifies r
    ensures r.Valid() && r.pos >= old(r.pos) && r.end == old(r.end)
    ensures f.Leaving(r.Rest()) == ParseMethodFrame(channel, old(r.Rest()))
  {
    hide Take16; hide Dispatch; hide DecRuns; hide Runs;
    var class_ := r.Read16();
    if class_.Error? { return Error(class_.err); }
    var index := r.Read16();
    if index.Error? { return Error(index.err); }
    match Dispatch(class_.val, index.val) {
      case None => f := Error(BadMethod);
      case Some(m) =>
        MethodBitRuns(m);
        var args := ReadRuns(r, Runs(m));
        f := match args case Value(as_) => Value(MethodFrame(channel, m, as_)) case Error(e) => Error(e);
    }
  }

  method ReadHeaderFrame(r: Source, channel: u16) returns (f: Result<WireFrame>)
    requires r.Valid()
    modifies r
    ensures r.Valid() && r.pos >= old(r.pos) && r.end == old(r.end)
    ensures f.Leaving(r.Rest()) == ParseHeaderFrame(channel, old(r.Rest()))
  {
    hide Take16; hide Take64; hide ParseProps;
    var class_ := r.Read16();
    if class_.Error? { return Error(class_.err); }
    var weight := r.Read16();
    if weight.Error? { return Error(weight.err); }
    var size := r.Read64();
    if size.Error? { return Error(size.err); }
    var props := ReadProperties(r);
    f := match props
      case Value(p) => Value(HeaderFrame(channel, class_.val, weight.val, size.val, p))
      case Error(e) => Error(e);
  }

  /** Reader.ReadFrame: the 7-octet prefix, the payload by frame type, and the end octet. */
  method ReadFrame(r: Source) returns (f: Result<WireFrame>)
    requires r.Valid()
    modifies r
    ensures r.Valid() && r.pos >= old(r.pos) && r.end == old(r.end)
    ensures f.Leaving(r.Rest()) == ParseFrame(old(r.Rest()))
  {
    hide Get16; hide Get32; hide ParseMethodFrame; hide ParseHeaderFrame;
    var scratch := r.ReadFull(7);
    if scratch.Error? { return Error(scratch.err); }
    var typ := scratch.val[0];
    var channel := Get16(scratch.val[1..3]);
    var size := Get32(scratch.val[3..7]);
    if typ == FRAME_METHOD {
      f := ReadMethodFrame(r, channel);
    } else if typ == FRAME_HEADER {
      f := ReadHeaderFrame(r, channel);
    } else if typ == FRAME_BODY {
      var body := r.ReadFull(size);
      f := match body case Value(b) => Value(BodyFrame(channel, b)) case Error(e) => Error(e);
    } else if typ == FRAME_HEARTBEAT {
      f := if size > 0 then Error(HeartbeatPayload) else Value(HeartbeatFrame(channel));
    } else {
      return Error(FrameError);
    }
    if f.Error? { return Error(f.err); }
    var end := r.Read8();
    if end.Error? { return Error(end.err); }
    if end.val != FRAME_END {
      return Error(FrameError);
    }
  }
}
