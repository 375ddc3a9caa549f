/** Content header properties: a mask of the properties present, then those properties in order. */
module Headers {
  import opened Octets
  import opened FieldCodec

  const CONTENT_TYPE: bv16 := 0x8000
  const CONTENT_ENCODING: bv16 := 0x4000
  const HEADERS: bv16 := 0x2000
  const DELIVERY_MODE: bv16 := 0x1000
  const PRIORITY: bv16 := 0x0800
  const CORRELATION_ID: bv16 := 0x0400
  const REPLY_TO: bv16 := 0x0200
  const EXPIRATION: bv16 := 0x0100
  const MESSAGE_ID: bv16 := 0x0080
  const TIMESTAMP: bv16 := 0x0040
  const TYPE: bv16 := 0x0020
  const USER_ID: bv16 := 0x0010
  const APP_ID: bv16 := 0x0008
  const RESERVED1: bv16 := 0x0004

  /** Unix seconds of Go's zero time, the first of January of year 1. */
  const ZERO_SECONDS: i64 := -62135596800

  datatype Stamp = Stamp(sec: i64, nsec: nat)
  const ZERO_TIME := Stamp(ZERO_SECONDS, 0)

  /** T is how the header table is held: laid out for the writer, a map from the reader. */
  datatype Properties<+T> = Properties(
    contentType: Bytes,
    contentEncoding: Bytes,
    headers: T,
    deliveryMode: byte,
    priority: byte,
    correlationId: Bytes,
    replyTo: Bytes,
    expiration: Bytes,
    messageId: Bytes,
    timestamp: Stamp,
    typ: Bytes,
    userId: Bytes,
    appId: Bytes,
    reserved1: Bytes)

  type LaidProps = Properties<seq<Entry>>
  type ReadProps = Properties<map<Bytes, Field>>

  predicate HasProperty(mask: bv16, prop: bv16) {
    mask & prop > 0
  }

  function SetIf(mask: bv16, present: bool, prop: bv16): bv16 {
    if present then mask | prop else mask
  }

  /** Whether each property is present, with its flag, in wire order; reserved1 is not written. */
  function Presences<T>(p: Properties<T>, hasHeaders: bool): (ps: seq<(bool, bv16)>)
    ensures |ps| == 13
  {
    [(p.contentType != [], CONTENT_TYPE), (p.contentEncoding != [], CONTENT_ENCODING), (hasHeaders, HEADERS),
     (p.deliveryMode > 0, DELIVERY_MODE), (p.priority > 0, PRIORITY), (p.correlationId != [], CORRELATION_ID),
     (p.replyTo != [], REPLY_TO), (p.expiration != [], EXPIRATION), (p.messageId != [], MESSAGE_ID),
     (p.timestamp != ZERO_TIME, TIMESTAMP), (p.typ != [], TYPE), (p.userId != [], USER_ID), (p.appId != [], APP_ID)]
  }

  /** The mask after the given presences, one after the other. */
  function MaskUpTo(ps: seq<(bool, bv16)>): bv16 {
    if ps == [] then 0
    else
      var n := |ps| - 1;
      SetIf(MaskUpTo(ps[..n]), ps[n].0, ps[n].1)
  }

  function MaskFor<T>(p: Properties<T>, hasHeaders: bool): bv16 {
    MaskUpTo(Presences(p, hasHeaders))
  }

  function MaskOf(p: LaidProps): bv16 {
    MaskFor(p, p.headers != [])
  }

  // A property is in the mask exactly when it is present; reserved1 never is.

  lemma HasSetIf(mask: bv16, present: bool, prop: bv16, other: bv16)
    ensures HasProperty(SetIf(mask, present, prop), other)
      <==> HasProperty(mask, other) || (present && HasProperty(prop, other))
  {
    hide HasProperty;
    OrMeets(mask, prop, other);
  }

  lemma OrMeets(a: bv16, b: bv16, c: bv16)
    ensures HasProperty(a | b, c) <==> HasProperty(a, c) || HasProperty(b, c)
  {
    var x, y := a & c, b & c;
    assert (a | b) & c == x | y by { OrDistributes(a, b, c); }
    OrPositive(x, y);
  }

  lemma OrDistributes(a: bv16, b: bv16, c: bv16)
    ensures (a | b) & c == (a & c) | (b & c)
  {
  }

  lemma OrPositive(a: bv16, b: bv16)
    ensures a | b > 0 <==> a > 0 || b > 0
  {
    assert a | b == 0 <==> a == 0 && b == 0;
  }

  lemma NoProperty(prop: bv16)
    ensures !HasProperty(0, prop)
  {
  }

  const FLAGS: set<bv16> :=
    {CONTENT_TYPE, CONTENT_ENCODING, HEADERS, DELIVERY_MODE, PRIORITY, CORRELATION_ID, REPLY_TO, EXPIRATION,
     MESSAGE_ID, TIMESTAMP, TYPE, USER_ID, APP_ID, RESERVED1}

  lemma FlagsDiffer(a: bv16, b: bv16)
    requires a in FLAGS && b in FLAGS
    ensures HasProperty(a, b) <==> a == b
  {
  }

  lemma {:induction false} MaskUpToHas(ps: seq<(bool, bv16)>, prop: bv16)
    requires prop in FLAGS && forall i :: 0 <= i < |ps| ==> ps[i].1 in FLAGS
    ensures HasProperty(MaskUpTo(ps), prop) <==> exists i :: 0 <= i < |ps| && ps[i] == (true, prop)
  {
    hide HasProperty; hide SetIf;
    if ps == [] {
      NoProperty(prop);
    } else {
      var n := |ps| - 1;
      MaskUpToHas(ps[..n], prop);
      HasSetIf(MaskUpTo(ps[..n]), ps[n].0, ps[n].1, prop);
      FlagsDiffer(ps[n].1, prop);
      if i :| 0 <= i < |ps| && ps[i] == (true, prop) {
        assert i < n ==> ps[..n][i] == (true, prop);
      }
    }
  }

  /** The mask has the flag of every present property of those the writer knows and no other of theirs. */
  predicate Flagged<T>(mask: bv16, p: Properties<T>, hasHeaders: bool) {
    && (HasProperty(mask, CONTENT_TYPE) <==> p.contentType != [])
    && (HasProperty(mask, CONTENT_ENCODING) <==> p.contentEncoding != [])
    && (HasProperty(mask, HEADERS) <==> hasHeaders)
    && (HasProperty(mask, DELIVERY_MODE) <==> p.deliveryMode > 0)
    && (HasProperty(mask, PRIORITY) <==> p.priority > 0)
    && (HasProperty(mask, CORRELATION_ID) <==> p.correlationId != [])
    && (HasProperty(mask, REPLY_TO) <==> p.replyTo != [])
    && (HasProperty(mask, EXPIRATION) <==> p.expiration != [])
    && (HasProperty(mask, MESSAGE_ID) <==> p.messageId != [])
    && (HasProperty(mask, TIMESTAMP) <==> p.timestamp != ZERO_TIME)
    && (HasProperty(mask, TYPE) <==> p.typ != [])
    && (HasProperty(mask, USER_ID) <==> p.userId != [])
    && (HasProperty(mask, APP_ID) <==> p.appId != [])
  }

  /** The mask has the flag of every present property and no other. */
  predicate Announces<T>(mask: bv16, p: Properties<T>, hasHeaders: bool) {
    Flagged(mask, p, hasHeaders) && !HasProperty(mask, RESERVED1)
  }

  lemma PresentAt(ps: seq<(bool, bv16)>, i: nat)
    requires i < |ps| && forall j :: 0 <= j < |ps| ==> ps[j].1 in FLAGS
    requires forall j :: 0 <= j < |ps| && j != i ==> ps[j].1 != ps[i].1
    ensures HasProperty(MaskUpTo(ps), ps[i].1) <==> ps[i].0
  {
    hide HasProperty; hide MaskUpTo;
    MaskUpToHas(ps, ps[i].1);
    if ps[i].0 {
      assert ps[i] == (true, ps[i].1);
    }
  }

  lemma MaskAnnounces<T>(p: Properties<T>, hasHeaders: bool)
    ensures Announces(MaskFor(p, hasHeaders), p, hasHeaders)
  {
    hide HasProperty; hide MaskUpTo;
    var ps := Presences(p, hasHeaders);
    forall i | 0 <= i < 13
      ensures HasProperty(MaskUpTo(ps), ps[i].1) <==> ps[i].0
    {
      PresentAt(ps, i);
    }
    MaskUpToHas(ps, RESERVED1);
    assert ps[0].1 == CONTENT_TYPE && ps[1].1 == CONTENT_ENCODING && ps[2].1 == HEADERS && ps[3].1 == DELIVERY_MODE;
    assert ps[4].1 == PRIORITY && ps[5].1 == CORRELATION_ID && ps[6].1 == REPLY_TO && ps[7].1 == EXPIRATION;
    assert ps[8].1 == MESSAGE_ID && ps[9].1 == TIMESTAMP && ps[10].1 == TYPE && ps[11].1 == USER_ID;
    assert ps[12].1 == APP_ID;
  }

  function MaskInt(m: bv16): u16 {
    m as int
  }

  function PutMask(m: bv16): Bytes {
    Put16(MaskInt(m))
  }

  function ToMask(n: u16): bv16 {
    n as bv16
  }

  lemma MaskAsInt(m: bv16)
    ensures ToMask(MaskInt(m)) == m
  {
  }

  lemma MaskRoundTrip(m: bv16, rest: Bytes)
    ensures Take16(PutMask(m) + rest).Ok?
    ensures ToMask(Take16(PutMask(m) + rest).val) == m
    ensures Take16(PutMask(m) + rest).rest == rest
  {
    hide Put16; hide Take16; hide ToMask; hide MaskInt;
    MaskAsInt(m);
    Take16Put(MaskInt(m), rest);
  }

  // ---------- encoding ----------

  function If(present: bool, b: Bytes): Bytes {
    if present then b else []
  }

  /** The octets of the properties in wire order, none for an absent one. reserved1 is never written. */
  function ContentParts(p: LaidProps): seq<Bytes> {
    [If(p.contentType != [], EncShort(p.contentType)),
     If(p.contentEncoding != [], EncShort(p.contentEncoding)),
     If(p.headers != [], EncTable(p.headers)),
     If(p.deliveryMode > 0, [p.deliveryMode]),
     If(p.priority > 0, [p.priority])]
  }

  function MessageParts<T>(p: Properties<T>): seq<Bytes> {
    [If(p.correlationId != [], EncShort(p.correlationId)),
     If(p.replyTo != [], EncShort(p.replyTo)),
     If(p.expiration != [], EncShort(p.expiration)),
     If(p.messageId != [], EncShort(p.messageId)),
     If(p.timestamp != ZERO_TIME, Put64(p.timestamp.sec))]
  }

  function OriginParts<T>(p: Properties<T>): seq<Bytes> {
    [If(p.typ != [], EncShort(p.typ)),
     If(p.userId != [], EncShort(p.userId)),
     If(p.appId != [], EncShort(p.appId))]
  }

  function Concat(parts: seq<Bytes>): Bytes {
    if parts == [] then [] else parts[0] + Concat(parts[1..])
  }

  function EncProps(p: LaidProps): Bytes {
    PutMask(MaskOf(p)) + Concat(ContentParts(p)) + Concat(MessageParts(p)) + Concat(OriginParts(p))
  }

  // ---------- decoding ----------

  function ParseIfShort(mask: bv16, prop: bv16, s: Bytes): (r: Parsed<Bytes>)
    ensures |r.rest| <= |s|
  {
    if HasProperty(mask, prop) then ParseShort(s) else Ok([], s)
  }

  function ParseIfOctet(mask: bv16, prop: bv16, s: Bytes): (r: Parsed<byte>)
    ensures |r.rest| <= |s|
  {
    if HasProperty(mask, prop) then Take8(s) else Ok(0, s)
  }

  function ParseIfTable(mask: bv16, prop: bv16, s: Bytes): (r: Parsed<map<Bytes, Field>>)
    ensures |r.rest| <= |s|
  {
    if HasProperty(mask, prop) then
      var (t, u) :- ParseTable(s);
      Ok(t.table, u)
    else Ok(map[], s)
  }

  function ParseIfTime(mask: bv16, prop: bv16, s: Bytes): (r: Parsed<Stamp>)
    ensures |r.rest| <= |s|
  {
    if HasProperty(mask, prop) then
      var (n, t) :- Take64(s);
      Ok(Stamp(Signed(n, TWO63), 0), t)
    else Ok(ZERO_TIME, s)
  }

  /** The properties in wire order, those of the mask read and the others left empty. */
  function ParseProps(s: Bytes): (r: Parsed<ReadProps>)
    ensures |r.rest| <= |s|
  {
    var (n, s0) :- Take16(s);
    var (first, s5) :- ParseContentProps(ToMask(n), s0);
    var (second, s10) :- ParseMessageProps(ToMask(n), first, s5);
    ParseOriginProps(ToMask(n), second, s10)
  }

  function ParseContentProps(mask: bv16, s0: Bytes): (r: Parsed<ReadProps>)
    ensures |r.rest| <= |s0|
  {
    var (contentType, s1) :- ParseIfShort(mask, CONTENT_TYPE, s0);
    var (contentEncoding, s2) :- ParseIfShort(mask, CONTENT_ENCODING, s1);
    var (headers, s3) :- ParseIfTable(mask, HEADERS, s2);
    var (deliveryMode, s4) :- ParseIfOctet(mask, DELIVERY_MODE, s3);
    var (priority, s5) :- ParseIfOctet(mask, PRIORITY, s4);
    Ok(ContentProps(contentType, contentEncoding, headers, deliveryMode, priority), s5)
  }

  function ParseMessageProps(mask: bv16, p: ReadProps, s5: Bytes): (r: Parsed<ReadProps>)
    ensures |r.rest| <= |s5|
  {
    var (correlationId, s6) :- ParseIfShort(mask, CORRELATION_ID, s5);
    var (replyTo, s7) :- ParseIfShort(mask, REPLY_TO, s6);
    var (expiration, s8) :- ParseIfShort(mask, EXPIRATION, s7);
    var (messageId, s9) :- ParseIfShort(mask, MESSAGE_ID, s8);
    var (timestamp, s10) :- ParseIfTime(mask, TIMESTAMP, s9);
    Ok(WithMessageProps(p, correlationId, replyTo, expiration, messageId, timestamp), s10)
  }

  function ParseOriginProps(mask: bv16, p: ReadProps, s10: Bytes): (r: Parsed<ReadProps>)
    ensures |r.rest| <= |s10|
  {
    var (typ, s11) :- ParseIfShort(mask, TYPE, s10);
    var (userId, s12) :- ParseIfShort(mask, USER_ID, s11);
    var (appId, s13) :- ParseIfShort(mask, APP_ID, s12);
    var (reserved1, s14) :- ParseIfShort(mask, RESERVED1, s13);
    Ok(WithOriginProps(p, typ, userId, appId, reserved1), s14)
  }

  function ContentProps(contentType: Bytes, contentEncoding: Bytes, headers: map<Bytes, Field>,
                        deliveryMode: byte, priority: byte): ReadProps
  {
    Properties(contentType, contentEncoding, headers, deliveryMode, priority, [], [], [], [], ZERO_TIME, [], [], [], [])
  }

  function WithMessageProps(p: ReadProps, correlationId: Bytes, replyTo: Bytes, expiration: Bytes,
                            messageId: Bytes, timestamp: Stamp): ReadProps
  {
    p.(correlationId := correlationId, replyTo := replyTo, expiration := expiration, messageId := messageId,
       timestamp := timestamp)
  }

  function WithOriginProps(p: ReadProps, typ: Bytes, userId: Bytes, appId: Bytes, reserved1: Bytes): ReadProps {
    p.(typ := typ, userId := userId, appId := appId, reserved1 := reserved1)
  }

  // ---------- round trip ----------

  /** Strings come back as short strings, the timestamp in whole seconds, reserved1 empty. */
  function NormProps(p: LaidProps): ReadProps {
    Properties(Short(p.contentType), Short(p.contentEncoding), NormEntries(p.headers, map[]),
               p.deliveryMode, p.priority, Short(p.correlationId), Short(p.replyTo), Short(p.expiration),
               Short(p.messageId), Stamp(p.timestamp.sec, 0), Short(p.typ), Short(p.userId), Short(p.appId), [])
  }

  /** What is on the wire from the i-th part on. */
  function From(parts: seq<Bytes>, i: nat, rest: Bytes): Bytes
    requires i <= |parts|
  {
    Concat(parts[i..]) + rest
  }

  lemma FromStep(parts: seq<Bytes>, i: nat, rest: Bytes)
    requires i < |parts|
    ensures From(parts, i, rest) == parts[i] + From(parts, i + 1, rest)
  {
    assert parts[i..][1..] == parts[i + 1..];
  }

  lemma FromEnds(parts: seq<Bytes>, rest: Bytes)
    ensures From(parts, 0, rest) == Concat(parts) + rest
    ensures From(parts, |parts|, rest) == rest
  {
    assert parts[0..] == parts && parts[|parts|..] == [] && Concat([]) == [];
  }

  lemma ShortPart(mask: bv16, prop: bv16, s: Bytes, rest: Bytes)
    requires HasProperty(mask, prop) <==> s != []
    ensures ParseIfShort(mask, prop, If(s != [], EncShort(s)) + rest) == Ok(Short(s), rest)
  {
    hide HasProperty; hide ParseShort; hide EncShort;
    ShortRoundTrip(s, rest);
    assert [] + rest == rest;
  }

  lemma OctetPart(mask: bv16, prop: bv16, o: byte, rest: Bytes)
    requires HasProperty(mask, prop) <==> o > 0
    ensures ParseIfOctet(mask, prop, If(o > 0, [o]) + rest) == Ok(o, rest)
  {
    hide HasProperty; hide Take8;
    Take8Put(o, rest);
    assert [] + rest == rest;
  }

  lemma TablePart(mask: bv16, prop: bv16, es: seq<Entry>, rest: Bytes)
    requires HasProperty(mask, prop) <==> es != []
    requires WellSizedTable(es)
    ensures ParseIfTable(mask, prop, If(es != [], EncTable(es)) + rest) == Ok(NormEntries(es, map[]), rest)
  {
    hide HasProperty; hide ParseTable; hide EncTable;
    TableRoundTrip(es, rest);
    assert [] + rest == rest;
  }

  lemma TimePart(mask: bv16, prop: bv16, t: Stamp, rest: Bytes)
    requires HasProperty(mask, prop) <==> t != ZERO_TIME
    ensures ParseIfTime(mask, prop, If(t != ZERO_TIME, Put64(t.sec)) + rest) == Ok(Stamp(t.sec, 0), rest)
  {
    hide HasProperty; hide Take64; hide Put64;
    Take64Put(t.sec, rest);
    assert [] + rest == rest;
  }

  /** Any subset of the properties reads back as it was written. */
  lemma PropsRoundTrip(p: LaidProps, rest: Bytes)
    requires WellSizedTable(p.headers)
    ensures ParseProps(EncProps(p) + rest) == Ok(NormProps(p), rest)
  {
    hide MaskFor; hide PutMask; hide HasProperty; hide WellSizedTable; hide ParseProps; hide Concat; hide Flagged;
    hide ContentParts; hide MessageParts; hide OriginParts; hide NormProps;
    MaskAnnounces(p, p.headers != []);
    AnnouncedRead(MaskOf(p), p, [], rest);
    assert EncProps(p) + rest == PutMask(MaskOf(p)) + Concat(ContentParts(p)) + Concat(MessageParts(p))
      + Concat(OriginParts(p)) + If(false, EncShort([])) + rest;
    NoReserved(p);
  }

  lemma NoReserved(p: LaidProps)
    ensures NormProps(p).(reserved1 := Short([])) == NormProps(p)
  {
    hide NormEntries;
    assert Short([]) == [];
  }

  /** What a reader makes of any mask with the flags of p, also of one that announces reserved1 or has bits that
      are no property's: the announced properties, and reserved1 from behind them. */
  lemma AnnouncedRead(mask: bv16, p: LaidProps, reserved: Bytes, rest: Bytes)
    requires WellSizedTable(p.headers) && Flagged(mask, p, p.headers != [])
    requires HasProperty(mask, RESERVED1) <==> reserved != []
    ensures ParseProps(PutMask(mask) + Concat(ContentParts(p)) + Concat(MessageParts(p)) + Concat(OriginParts(p))
                       + If(reserved != [], EncShort(reserved)) + rest)
      == Ok(NormProps(p).(reserved1 := Short(reserved)), rest)
  {
    hide PutMask; hide ToMask; hide Take16; hide Short; hide Concat; hide WellSizedTable; hide HasProperty; hide If;
    hide ContentParts; hide MessageParts; hide OriginParts; hide EncShort; hide Flagged;
    hide ParseContentProps; hide ParseMessageProps; hide ParseOriginProps;
    var r3 := If(reserved != [], EncShort(reserved)) + rest;
    var r2 := Concat(OriginParts(p)) + r3;
    var r1 := Concat(MessageParts(p)) + r2;
    assert PutMask(mask) + Concat(ContentParts(p)) + Concat(MessageParts(p)) + Concat(OriginParts(p))
      + If(reserved != [], EncShort(reserved)) + rest == PutMask(mask) + (Concat(ContentParts(p)) + r1);
    MaskRoundTrip(mask, Concat(ContentParts(p)) + r1);
    ContentPropsRoundTrip(mask, p, r1);
    var first := NormContentProps(p);
    MessagePropsRoundTrip(mask, p, first, r2);
    OriginPropsRoundTrip(mask, p, NormMessageProps(p, first), reserved, rest);
  }

  function NormContentProps(p: LaidProps): ReadProps {
    ContentProps(Short(p.contentType), Short(p.contentEncoding), NormEntries(p.headers, map[]),
                 p.deliveryMode, p.priority)
  }

  function NormMessageProps(p: LaidProps, first: ReadProps): ReadProps {
    WithMessageProps(first, Short(p.correlationId), Short(p.replyTo), Short(p.expiration), Short(p.messageId),
                     Stamp(p.timestamp.sec, 0))
  }

  lemma ContentPropsRoundTrip(m: bv16, p: LaidProps, rest: Bytes)
    requires WellSizedTable(p.headers) && Flagged(m, p, p.headers != [])
    ensures ParseContentProps(m, Concat(ContentParts(p)) + rest) == Ok(NormContentProps(p), rest)
  {
    hide HasProperty; hide MaskFor; hide If; hide From; hide Short; hide NormEntries; hide EncShort; hide EncTable;
    hide ParseIfShort; hide ParseIfOctet; hide ParseIfTable; hide WellSizedTable; hide ContentProps; hide Concat;
    var parts := ContentParts(p);
    FromEnds(parts, rest);
    FromStep(parts, 0, rest);
    ShortPart(m, CONTENT_TYPE, p.contentType, From(parts, 1, rest));
    FromStep(parts, 1, rest);
    ShortPart(m, CONTENT_ENCODING, p.contentEncoding, From(parts, 2, rest));
    FromStep(parts, 2, rest);
    TablePart(m, HEADERS, p.headers, From(parts, 3, rest));
    FromStep(parts, 3, rest);
    OctetPart(m, DELIVERY_MODE, p.deliveryMode, From(parts, 4, rest));
    FromStep(parts, 4, rest);
    OctetPart(m, PRIORITY, p.priority, From(parts, 5, rest));
  }

  lemma MessagePropsRoundTrip(m: bv16, p: LaidProps, first: ReadProps, rest: Bytes)
    requires Flagged(m, p, p.headers != [])
    ensures ParseMessageProps(m, first, Concat(MessageParts(p)) + rest) == Ok(NormMessageProps(p, first), rest)
  {
    hide HasProperty; hide MaskFor; hide If; hide From; hide Short; hide EncShort; hide EncTable; hide Concat;
    hide ParseIfShort; hide ParseIfTime; hide Put64; hide WithMessageProps;
    var parts := MessageParts(p);
    FromEnds(parts, rest);
    FromStep(parts, 0, rest);
    ShortPart(m, CORRELATION_ID, p.correlationId, From(parts, 1, rest));
    FromStep(parts, 1, rest);
    ShortPart(m, REPLY_TO, p.replyTo, From(parts, 2, rest));
    FromStep(parts, 2, rest);
    ShortPart(m, EXPIRATION, p.expiration, From(parts, 3, rest));
    FromStep(parts, 3, rest);
    ShortPart(m, MESSAGE_ID, p.messageId, From(parts, 4, rest));
    FromStep(parts, 4, rest);
    TimePart(m, TIMESTAMP, p.timestamp, From(parts, 5, rest));
  }

  lemma OriginPropsRoundTrip(m: bv16, p: LaidProps, second: ReadProps, reserved: Bytes, rest: Bytes)
    requires Flagged(m, p, p.headers != []) && (HasProperty(m, RESERVED1) <==> reserved != [])
    ensures ParseOriginProps(m, second, Concat(OriginParts(p)) + (If(reserved != [], EncShort(reserved)) + rest))
      == Ok(WithOriginProps(second, Short(p.typ), Short(p.userId), Short(p.appId), Short(reserved)), rest)
  {
    hide HasProperty; hide MaskFor; hide If; hide From; hide Short; hide EncShort; hide EncTable; hide Concat;
    hide ParseIfShort; hide WithOriginProps;
    var parts := OriginParts(p);
    var tail := If(reserved != [], EncShort(reserved)) + rest;
    FromEnds(parts, tail);
    FromStep(parts, 0, tail);
    ShortPart(m, TYPE, p.typ, From(parts, 1, tail));
    FromStep(parts, 1, tail);
    ShortPart(m, USER_ID, p.userId, From(parts, 2, tail));
    FromStep(parts, 2, tail);
    ShortPart(m, APP_ID, p.appId, From(parts, 3, tail));
    ShortPart(m, RESERVED1, reserved, rest);
  }
}
