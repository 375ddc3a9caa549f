/** Frames: a type, a channel, a size, the payload and an end octet; and streams of frames. */
module Frames {
  import opened Octets
  import opened Wrappers
  import opened FieldCodec
  import opened Arguments
  import opened Methods
  import opened Headers

  const FRAME_METHOD: byte := 1
  const FRAME_HEADER: byte := 2
  const FRAME_BODY: byte := 3
  const FRAME_HEARTBEAT: byte := 8
  const FRAME_END: byte := 206

  /** T is how tables are held. */
  datatype Frame<+T> =
    | MethodFrame(channel: u16, kind: Method, args: seq<Arg<T>>)
    | HeaderFrame(channel: u16, class_: u16, weight: u16, size: u64, props: Properties<T>)
    | BodyFrame(channel: u16, body: Bytes)
    | HeartbeatFrame(channel: u16)

  type LaidFrame = Frame<seq<Entry>>
  type WireFrame = Frame<map<Bytes, Field>>

  /** The arguments of a method frame are those of its method. */
  predicate Formed<T>(f: Frame<T>) {
    f.MethodFrame? ==> Fits(Runs(f.kind), f.args)
  }

  // ---------- encoding ----------

  function FrameType<T>(f: Frame<T>): byte {
    match f
    case MethodFrame(_, _, _) => FRAME_METHOD
    case HeaderFrame(_, _, _, _, _) => FRAME_HEADER
    case BodyFrame(_, _) => FRAME_BODY
    case HeartbeatFrame(_) => FRAME_HEARTBEAT
  }

  function EncMethod(m: Method, args: seq<Laid>): Bytes
    requires Fits(Runs(m), args)
  {
    MethodBitRuns(m);
    Put16(ID(m).0) + (Put16(ID(m).1) + Encode(Runs(m), args))
  }

  function EncHeader(class_: u16, weight: u16, size: u64, props: LaidProps): Bytes {
    Put16(class_) + (Put16(weight) + (Put64(size) + EncProps(props)))
  }

  function Payload(f: LaidFrame): Bytes
    requires Formed(f)
  {
    match f
    case MethodFrame(_, m, args) => EncMethod(m, args)
    case HeaderFrame(_, class_, weight, size, props) => EncHeader(class_, weight, size, props)
    case BodyFrame(_, body) => body
    case HeartbeatFrame(_) => []
  }

  function Prefix(typ: byte, channel: u16, size: nat): (p: Bytes)
    ensures |p| == 7
  {
    [typ] + Put16(channel) + Put32(size)
  }

  /** What writeFrame puts on the wire: 8 octets around the payload. */
  function Envelope(typ: byte, channel: u16, payload: Bytes): (e: Bytes)
    ensures |e| == |payload| + 8
  {
    Prefix(typ, channel, |payload|) + payload + [FRAME_END]
  }

  function EncFrame(f: LaidFrame): Bytes
    requires Formed(f)
  {
    Envelope(FrameType(f), f.channel, Payload(f))
  }

  // ---------- decoding ----------

  function ParseMethodFrame(channel: u16, s: Bytes): (r: Parsed<WireFrame>)
    ensures |r.rest| <= |s|
  {
    var (class_, s1) :- Take16(s);
    var (index, s2) :- Take16(s1);
    match Dispatch(class_, index)
    case None => Fail(BadMethod, s2)
    case Some(m) =>
      MethodBitRuns(m);
      var (args, s3) :- DecRuns(Runs(m), s2);
      Ok(MethodFrame(channel, m, args), s3)
  }

  function ParseHeaderFrame(channel: u16, s: Bytes): (r: Parsed<WireFrame>)
    ensures |r.rest| <= |s|
  {
    var (class_, s1) :- Take16(s);
    var (weight, s2) :- Take16(s1);
    var (size, s3) :- Take64(s2);
    var (props, s4) :- ParseProps(s3);
    Ok(HeaderFrame(channel, class_, weight, size, props), s4)
  }

  function ParseBodyFrame(channel: u16, size: u32, s: Bytes): (r: Parsed<WireFrame>)
    ensures |r.rest| <= |s|
  {
    var (body, t) :- Take(s, size);
    Ok(BodyFrame(channel, body), t)
  }

  function ParseHeartbeatFrame(channel: u16, size: u32, s: Bytes): (r: Parsed<WireFrame>)
    ensures |r.rest| <= |s|
  {
    if size > 0 then Fail(HeartbeatPayload, s) else Ok(HeartbeatFrame(channel), s)
  }

  function ParsePayload(typ: byte, channel: u16, size: u32, s: Bytes): (r: Parsed<WireFrame>)
    ensures |r.rest| <= |s|
  {
    if typ == FRAME_METHOD then ParseMethodFrame(channel, s)
    else if typ == FRAME_HEADER then ParseHeaderFrame(channel, s)
    else if typ == FRAME_BODY then ParseBodyFrame(channel, size, s)
    else if typ == FRAME_HEARTBEAT then ParseHeartbeatFrame(channel, size, s)
    else Fail(FrameError, s)
  }

  /** The size in front of a method or header payload is not used: the payload delimits itself. */
  function ParseFrame(s: Bytes): (r: Parsed<WireFrame>)
    ensures |r.rest| <= |s|
    ensures r.Ok? ==> |r.rest| < |s|
  {
    var (h, t) :- Take(s, 7);
    var (f, u) :- ParsePayload(h[0], Get16(h[1..3]), Get32(h[3..7]), t);
    var (end, v) :- Take8(u);
    if end == FRAME_END then Ok(f, v) else Fail(FrameError, v)
  }

  // ---------- one frame there and back ----------

  predicate WellSizedFrame(f: LaidFrame) {
    match f
    case MethodFrame(_, _, args) => ArgsWellSized(args)
    case HeaderFrame(_, _, _, _, props) => WellSizedTable(props.headers)
    case BodyFrame(_, body) => |body| < TWO32
    case HeartbeatFrame(_) => true
  }

  function NormFrame(f: LaidFrame): WireFrame {
    match f
    case MethodFrame(ch, m, args) => MethodFrame(ch, m, NormArgs(args))
    case HeaderFrame(ch, class_, weight, size, props) => HeaderFrame(ch, class_, weight, size, NormProps(props))
    case BodyFrame(ch, body) => BodyFrame(ch, body)
    case HeartbeatFrame(ch) => HeartbeatFrame(ch)
  }

  lemma MethodRoundTrip(ch: u16, m: Method, args: seq<Laid>, rest: Bytes)
    requires Fits(Runs(m), args) && ArgsWellSized(args)
    ensures ParseMethodFrame(ch, EncMethod(m, args) + rest) == Ok(MethodFrame(ch, m, NormArgs(args)), rest)
  {
    hide Put16; hide Take16; hide EncRuns; hide DecRuns; hide ID; hide Dispatch; hide Fits; hide Runs;
    hide NormArgs; hide ArgsWellSized;
    var (class_, index) := ID(m);
    MethodBitRuns(m);
    var body := Encode(Runs(m), args) + rest;
    assert EncMethod(m, args) + rest == Put16(class_) + (Put16(index) + body);
    Take16Put(class_, Put16(index) + body);
    Take16Put(index, body);
    DispatchIffID(class_, index, m);
    NothingSeen();
    OneBitRunUnsmeared(Runs(m), args, {});
    RunsRoundTrip(Runs(m), args, 0, {}, rest);
  }

  lemma HeaderRoundTrip(ch: u16, class_: u16, weight: u16, size: u64, props: LaidProps, rest: Bytes)
    requires WellSizedTable(props.headers)
    ensures ParseHeaderFrame(ch, EncHeader(class_, weight, size, props) + rest)
      == Ok(HeaderFrame(ch, class_, weight, size, NormProps(props)), rest)
  {
    hide Put16; hide Put64; hide Take16; hide Take64; hide EncProps; hide ParseProps; hide NormProps;
    hide WellSizedTable;
    var s3 := EncProps(props) + rest;
    var s2 := Put64(size) + s3;
    var s1 := Put16(weight) + s2;
    assert EncHeader(class_, weight, size, props) + rest == Put16(class_) + s1;
    Take16Put(class_, s1);
    Take16Put(weight, s2);
    Take64Put(size, s3);
    PropsRoundTrip(props, rest);
  }

  lemma PayloadRoundTrip(f: LaidFrame, rest: Bytes)
    requires Formed(f) && WellSizedFrame(f)
    ensures ParsePayload(FrameType(f), f.channel, |Payload(f)| % TWO32, Payload(f) + rest) == Ok(NormFrame(f), rest)
  {
    hide ParseMethodFrame; hide ParseHeaderFrame; hide EncMethod; hide EncHeader; hide NormProps; hide NormArgs;
    hide ArgsWellSized; hide WellSizedTable; hide Fits; hide Runs;
    match f {
      case MethodFrame(ch, m, args) => MethodRoundTrip(ch, m, args, rest);
      case HeaderFrame(ch, class_, weight, size, props) => HeaderRoundTrip(ch, class_, weight, size, props, rest);
      case BodyFrame(_, body) => TakeExact(body, rest);
      case HeartbeatFrame(_) => assert Payload(f) + rest == rest;
    }
  }

  lemma PrefixRoundTrip(typ: byte, channel: u16, size: nat)
    ensures var h := Prefix(typ, channel, size);
      h[0] == typ && Get16(h[1..3]) == channel && Get32(h[3..7]) == size % TWO32
  {
    hide Put16; hide Put32; hide Get16; hide Get32;
    var h := Prefix(typ, channel, size);
    assert h[1..3] == Put16(channel) && h[3..7] == Put32(size);
    GetPut16(channel);
    GetPut32(size);
  }

  /** A frame reads back as it was written, and nothing after it is touched. */
  lemma FrameRoundTrip(f: LaidFrame, rest: Bytes)
    requires Formed(f) && WellSizedFrame(f)
    ensures ParseFrame(EncFrame(f) + rest) == Ok(NormFrame(f), rest)
  {
    hide Prefix; hide ParsePayload; hide Payload; hide NormFrame; hide FrameType; hide Get16; hide Get32;
    hide WellSizedFrame; hide Formed;
    var p := Payload(f);
    var h := Prefix(FrameType(f), f.channel, |p|);
    var tail := [FRAME_END] + rest;
    assert EncFrame(f) + rest == h + (p + tail);
    TakeExact(h, p + tail);
    PrefixRoundTrip(FrameType(f), f.channel, |p|);
    PayloadRoundTrip(f, tail);
    Take8Put(FRAME_END, rest);
  }

  /** A body frame reads back exactly when its size fits the 32-bit size field. */
  lemma BodyFrameRoundTripIff(ch: u16, body: Bytes, rest: Bytes)
    ensures ParseFrame(EncFrame(BodyFrame(ch, body)) + rest) == Ok(BodyFrame(ch, body), rest) <==> |body| < TWO32
  {
    hide Prefix; hide Get16; hide Get32; hide EncMethod; hide EncHeader; hide ParseMethodFrame; hide ParseHeaderFrame;
    var h := Prefix(FRAME_BODY, ch, |body|);
    var tail := [FRAME_END] + rest;
    PrefixRoundTrip(FRAME_BODY, ch, |body|);
    if |body| < TWO32 {
      FrameRoundTrip(BodyFrame(ch, body), rest);
    } else {
      assert EncFrame(BodyFrame(ch, body)) + rest == h + (body + tail);
      TakeExact(h, body + tail);
      assert |body| % TWO32 < |body|;
    }
  }

  // ---------- a stream of frames ----------

  function EncFrames(fs: seq<LaidFrame>): Bytes
    requires forall i :: 0 <= i < |fs| ==> Formed(fs[i])
  {
    if fs == [] then [] else EncFrame(fs[0]) + EncFrames(fs[1..])
  }

  /** Reading frames until one fails: the frames read, and the failure with the octets left. */
  function ParseFrames(s: Bytes): (seq<WireFrame>, Error, Bytes)
    decreases |s|
  {
    match ParseFrame(s)
    case Fail(e, t) => ([], e, t)
    case Ok(f, t) =>
      var (fs, e, u) := ParseFrames(t);
      ([f] + fs, e, u)
  }

  function NormFrames(fs: seq<LaidFrame>): seq<WireFrame> {
    seq(|fs|, i requires 0 <= i < |fs| => NormFrame(fs[i]))
  }

  /** Any list of frames reads back frame for frame, in order, and then the stream is at its end. */
  lemma {:induction false} StreamRoundTrip(fs: seq<LaidFrame>)
    requires forall i :: 0 <= i < |fs| ==> Formed(fs[i]) && WellSizedFrame(fs[i])
    ensures ParseFrames(EncFrames(fs)) == (NormFrames(fs), EOF, [])
  {
    hide ParseFrame; hide EncFrame; hide NormFrame; hide WellSizedFrame; hide Formed;
    if fs == [] {
      EmptyStream();
    } else {
      FrameRoundTrip(fs[0], EncFrames(fs[1..]));
      EncFrameLength(fs[0]);
      StreamRoundTrip(fs[1..]);
      assert NormFrames(fs) == [NormFrame(fs[0])] + NormFrames(fs[1..]);
    }
  }

  lemma EmptyStream()
    ensures ParseFrame([]) == Fail(EOF, [])
  {
    assert Take([], 7) == Fail(EOF, []);
  }

  lemma EncFrameLength(f: LaidFrame)
    requires Formed(f)
    ensures |EncFrame(f)| == 8 + |Payload(f)|
  {
  }
}
