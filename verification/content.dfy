/** Sending a message as frames within the negotiated size, and putting one together again. */
module Content {
  import opened Octets
  import opened Wrappers
  import opened Arithmetic
  import opened Arguments
  import opened Methods
  import opened Headers
  import opened Frames

  /** A method with its arguments and, when the method carries content, properties and a body. */
  datatype Message = Message(kind: Method, args: seq<Read>, props: ReadProps, body: Bytes)

  const EMPTY_PROPS: ReadProps := Properties([], [], map[], 0, 0, [], [], [], [], ZERO_TIME, [], [], [], [])

  /** The octets a body frame adds around its part of the body. */
  const OVERHEAD := 8

  // ---------- splitting ----------

  function Chunks(body: Bytes, size: nat): seq<Bytes>
    requires size > 0
  {
    if body == [] then []
    else if |body| <= size then [body]
    else [body[..size]] + Chunks(body[size..], size)
  }

  function BodyFrames(ch: u16, chunks: seq<Bytes>): seq<WireFrame> {
    seq(|chunks|, i requires 0 <= i < |chunks| => BodyFrame(ch, chunks[i]))
  }

  /** The size field of a content header. */
  function HeaderOf(ch: u16, m: Message): WireFrame
    requires |m.body| < TWO64
  {
    HeaderFrame(ch, ID(m.kind).0, 0, |m.body|, m.props)
  }

  /** The splitting loop does not get through the body. */
  predicate Stuck(m: Message, frameMax: nat) {
    HasContent(m.kind) && m.body != [] && frameMax <= OVERHEAD
  }

  /** The frames one send writes: a method, and for content a header and the body's parts. */
  function Group(ch: u16, m: Message, frameMax: nat): seq<WireFrame>
    requires |m.body| < TWO64 && !Stuck(m, frameMax)
  {
    if HasContent(m.kind) then
      [MethodFrame(ch, m.kind, m.args), HeaderOf(ch, m)]
        + (if m.body == [] then [] else BodyFrames(ch, Chunks(m.body, frameMax - OVERHEAD)))
    else
      [MethodFrame(ch, m.kind, m.args)]
  }

  /** The frames written to the client so far. */
  class FrameLog {
    var frames: seq<WireFrame>

    method WriteFrame(f: WireFrame)
      modifies this
      ensures frames == old(frames) + [f]
    {
      frames := frames + [f];
    }
  }

  // ---------- the splitting loop ----------

  /** The splitting loop's offset after n rounds, or nothing once a slice ends before it begins, which panics. */
  function OffsetAfter(len: nat, frameMax: nat, n: nat): Option<int> {
    if n == 0 then Some(0)
    else
      var before := OffsetAfter(len, frameMax, n - 1);
      if before == None || before.value >= len then before
      else
        var end := if before.value + frameMax - OVERHEAD <= len then before.value + frameMax - OVERHEAD else len;
        if end < before.value then None else Some(end)
  }

  ghost predicate LoopEnds(len: nat, frameMax: nat) {
    exists n: nat :: OffsetAfter(len, frameMax, n).Some? && OffsetAfter(len, frameMax, n).value >= len
  }

  /** The frames the splitting loop writes in n rounds. */
  function RoundFrames(ch: u16, body: Bytes, frameMax: nat, n: nat): seq<WireFrame> {
    if n == 0 then []
    else
      var before, after := OffsetAfter(|body|, frameMax, n - 1), OffsetAfter(|body|, frameMax, n);
      RoundFrames(ch, body, frameMax, n - 1)
        + (if before == None || after == None || before.value >= |body| then []
           else OffsetInBody(|body|, frameMax, n - 1); OffsetInBody(|body|, frameMax, n);
                [BodyFrame(ch, body[before.value..after.value])])
  }

  lemma {:induction false} OffsetInBody(len: nat, frameMax: nat, n: nat)
    ensures OffsetAfter(len, frameMax, n).Some? ==> 0 <= OffsetAfter(len, frameMax, n).value <= len
  {
    if n > 0 {
      OffsetInBody(len, frameMax, n - 1);
    }
  }

  /** The splitting loop of send under any frame size, stopped after so many rounds if it has not ended. A
      panic gives no offset. */
  method SendRounds(w: FrameLog, ch: u16, body: Bytes, frameMax: nat, rounds: nat) returns (at: Option<int>)
    modifies w
    ensures at == OffsetAfter(|body|, frameMax, rounds)
    ensures w.frames == old(w.frames) + RoundFrames(ch, body, frameMax, rounds)
  {
    var offset := 0;
    var n := 0;
    while n < rounds && offset < |body|
      invariant n <= rounds && 0 <= offset <= |body|
      invariant OffsetAfter(|body|, frameMax, n) == Some(offset)
      invariant w.frames == old(w.frames) + RoundFrames(ch, body, frameMax, n)
    {
      var end := if offset + frameMax - OVERHEAD <= |body| then offset + frameMax - OVERHEAD else |body|;
      if end < offset {
        NothingAfterPanic(ch, body, frameMax, n + 1, rounds);
        return None;
      }
      w.WriteFrame(BodyFrame(ch, body[offset..end]));
      offset := end;
      n := n + 1;
    }
    NothingAfterEnd(ch, body, frameMax, n, rounds);
    at := Some(offset);
  }

  lemma {:induction false} NothingAfterPanic(ch: u16, body: Bytes, frameMax: nat, n: nat, m: nat)
    requires n <= m && OffsetAfter(|body|, frameMax, n) == None
    ensures OffsetAfter(|body|, frameMax, m) == None
    ensures RoundFrames(ch, body, frameMax, m) == RoundFrames(ch, body, frameMax, n)
  {
    if n < m {
      NothingAfterPanic(ch, body, frameMax, n, m - 1);
    }
  }

  lemma {:induction false} NothingAfterEnd(ch: u16, body: Bytes, frameMax: nat, n: nat, m: nat)
    requires n <= m && OffsetAfter(|body|, frameMax, n).Some?
    requires n == m || OffsetAfter(|body|, frameMax, n).value >= |body|
    ensures OffsetAfter(|body|, frameMax, m) == OffsetAfter(|body|, frameMax, n)
    ensures RoundFrames(ch, body, frameMax, m) == RoundFrames(ch, body, frameMax, n)
  {
    if n < m {
      NothingAfterEnd(ch, body, frameMax, n, m - 1);
    }
  }

  function EmptyBodies(ch: u16, n: nat): seq<WireFrame> {
    seq(n, i => BodyFrame(ch, []))
  }

  /** At a frame size of exactly the overhead the loop writes empty body frames for ever; below it, none. */
  lemma {:induction false} StuckRounds(ch: u16, body: Bytes, frameMax: nat, n: nat)
    requires body != [] && frameMax <= OVERHEAD
    ensures RoundFrames(ch, body, frameMax, n) == if frameMax == OVERHEAD then EmptyBodies(ch, n) else []
    ensures OffsetAfter(|body|, frameMax, n) == if frameMax == OVERHEAD || n == 0 then Some(0) else None
  {
    if n > 0 {
      StuckRounds(ch, body, frameMax, n - 1);
      assert EmptyBodies(ch, n) == EmptyBodies(ch, n - 1) + [BodyFrame(ch, [])];
    }
  }

  lemma {:induction false} OffsetGrows(len: nat, frameMax: nat, n: nat)
    requires frameMax > OVERHEAD
    ensures var o := OffsetAfter(len, frameMax, n); o.Some? && (o.value >= n || o.value >= len)
  {
    if n > 0 {
      OffsetGrows(len, frameMax, n - 1);
    }
  }

  /** The client may negotiate any positive frame size. The loop gets through a non-empty body exactly
      when the size exceeds the overhead; with the overhead itself it never ends, with less it panics. */
  lemma SendEndsIff(len: nat, frameMax: nat)
    ensures LoopEnds(len, frameMax) <==> frameMax > OVERHEAD || len == 0
  {
    if frameMax > OVERHEAD {
      OffsetGrows(len, frameMax, len);
    } else if len > 0 {
      forall n: nat
        ensures !(OffsetAfter(len, frameMax, n).Some? && OffsetAfter(len, frameMax, n).value >= len)
      {
        StuckRounds(0, seq(len, k => 0), frameMax, n);
      }
    } else {
      assert OffsetAfter(len, frameMax, 0) == Some(0);
    }
  }

  /** The splitting loop of send, when it ends. */
  method SendBody(w: FrameLog, ch: u16, body: Bytes, frameMax: nat)
    requires frameMax > OVERHEAD
    modifies w
    ensures w.frames == old(w.frames) + BodyFrames(ch, Chunks(body, frameMax - OVERHEAD))
    ensures LoopEnds(|body|, frameMax)
  {
    hide Chunks;
    ghost var size := frameMax - OVERHEAD;
    ghost var done: seq<Bytes> := [];
    var offset := 0;
    assert body[0..] == body && Chunks([], size) == [] by { NoChunks(size); }
    while offset < |body|
      invariant 0 <= offset <= |body| && OffsetAfter(|body|, frameMax, |done|) == Some(offset)
      invariant done + Chunks(body[offset..], size) == Chunks(body, size)
      invariant w.frames == old(w.frames) + BodyFrames(ch, done)
    {
      var end := if offset + frameMax - OVERHEAD <= |body| then offset + frameMax - OVERHEAD else |body|;
      ghost var left, part := body[offset..], body[offset..end];
      assert part == left[..end - offset] && body[end..] == left[end - offset..];
      NextChunk(left, size);
      w.WriteFrame(BodyFrame(ch, body[offset..end]));
      assert BodyFrames(ch, done + [part]) == BodyFrames(ch, done) + [BodyFrame(ch, part)];
      done := done + [part];
      offset := end;
    }
    assert body[offset..] == [];
  }

  lemma NoChunks(size: nat)
    requires size > 0
    ensures Chunks([], size) == []
  {
  }

  lemma NextChunk(body: Bytes, size: nat)
    requires size > 0 && body != []
    ensures var n := if |body| <= size then |body| else size;
      Chunks(body, size) == [body[..n]] + Chunks(body[n..], size)
  {
    assert body[..|body|] == body && body[|body|..] == [];
  }

  /** send, with the writer's lock held and no write failing. */
  method Send(w: FrameLog, ch: u16, m: Message, frameMax: nat)
    requires |m.body| < TWO64 && !Stuck(m, frameMax)
    modifies w
    ensures w.frames == old(w.frames) + Group(ch, m, frameMax)
  {
    hide HasContent; hide ID; hide Chunks; hide BodyFrames;
    w.WriteFrame(MethodFrame(ch, m.kind, m.args));
    if HasContent(m.kind) {
      w.WriteFrame(HeaderFrame(ch, ID(m.kind).0, 0, |m.body|, m.props));
      if m.body != [] {
        SendBody(w, ch, m.body, frameMax);
      }
    }
  }

  function ConcatBytes(parts: seq<Bytes>): Bytes {
    if parts == [] then [] else parts[0] + ConcatBytes(parts[1..])
  }

  /** The parts are the body in order, none is empty, each fits a frame of the negotiated size with its
      overhead, and there are exactly as many as the size needs. */
  lemma {:induction false} SplitExact(body: Bytes, frameMax: nat)
    requires frameMax > OVERHEAD
    ensures var parts := Chunks(body, frameMax - OVERHEAD);
      && ConcatBytes(parts) == body
      && (forall i :: 0 <= i < |parts| ==> parts[i] != [] && |Envelope(FRAME_BODY, 0, parts[i])| <= frameMax)
      && |parts| == (|body| + (frameMax - OVERHEAD) - 1) / (frameMax - OVERHEAD)
  {
    var size := frameMax - OVERHEAD;
    if body == [] {
      CeilSmall(0, size);
    } else if |body| <= size {
      CeilSmall(|body|, size);
      assert [body][1..] == [] && ConcatBytes([body][1..]) == [];
    } else {
      SplitExact(body[size..], frameMax);
      CeilStep(|body|, size);
      var parts := Chunks(body, size);
      assert parts[1..] == Chunks(body[size..], size);
      assert body == body[..size] + body[size..];
    }
  }

  /** The octets of body frames, one after another. */
  function BodyOf(frames: seq<WireFrame>): Bytes {
    if frames == [] then []
    else (if frames[0].BodyFrame? then frames[0].body else []) + BodyOf(frames[1..])
  }

  /** A body frame of a part that is not empty and with its 8 octets fits the size; unless it is the last one it
      fills it. */
  ghost predicate FillsFrame(ch: u16, f: WireFrame, frameMax: nat, last: bool) {
    && f.BodyFrame? && f.channel == ch && f.body != []
    && |f.body| + 8 <= frameMax && (!last ==> |f.body| + 8 == frameMax)
  }

  lemma {:induction false} ChunkFrames(ch: u16, body: Bytes, frameMax: nat)
    requires frameMax > 8
    ensures var fs := BodyFrames(ch, Chunks(body, frameMax - 8));
      BodyOf(fs) == body && forall i :: 0 <= i < |fs| ==> FillsFrame(ch, fs[i], frameMax, i == |fs| - 1)
  {
    var size := frameMax - 8;
    var fs := BodyFrames(ch, Chunks(body, size));
    if |body| > size {
      ChunkFrames(ch, body[size..], frameMax);
      assert Chunks(body, size)[1..] == Chunks(body[size..], size);
      assert fs[1..] == BodyFrames(ch, Chunks(body[size..], size));
      assert body == body[..size] + body[size..];
      assert forall i :: 0 < i < |fs| ==> fs[i] == fs[1..][i - 1];
    } else if body != [] {
      assert fs == [BodyFrame(ch, body)] && fs[1..] == [];
    }
  }

  /** What one send writes, frame by frame: the method with its arguments; for content also a header with class 60,
      weight 0, the length of the body and the properties, and behind it the body in as few frames as the size
      allows. */
  lemma GroupForm(ch: u16, m: Message, frameMax: nat)
    requires |m.body| < TWO64 && !Stuck(m, frameMax)
    ensures var g := Group(ch, m, frameMax);
      && |g| >= 1 && g[0] == MethodFrame(ch, m.kind, m.args)
      && (!HasContent(m.kind) ==> |g| == 1)
      && (HasContent(m.kind) ==>
            && |g| >= 2 && g[1] == HeaderFrame(ch, 60, 0, |m.body|, m.props) && BodyOf(g[2..]) == m.body
            && forall i :: 2 <= i < |g| ==> FillsFrame(ch, g[i], frameMax, i == |g| - 1))
  {
    hide Chunks; hide BodyFrames; hide BodyOf; hide FillsFrame;
    if HasContent(m.kind) {
      var g := Group(ch, m, frameMax);
      assert BodyOf([]) == [] by { NoBody(); }
      if m.body != [] {
        ChunkFrames(ch, m.body, frameMax);
        assert g[2..] == BodyFrames(ch, Chunks(m.body, frameMax - OVERHEAD));
        assert forall i :: 2 <= i < |g| ==> g[i] == g[2..][i - 2];
      }
    }
  }

  lemma NoBody()
    ensures BodyOf([]) == []
  {
  }

  lemma CeilSmall(n: nat, size: nat)
    requires n <= size && size > 0
    ensures (n + size - 1) / size == if n == 0 then 0 else 1
  {
    if n > 0 {
      var x := n + size - 1;
      assert x == size * 1 + (n - 1);
      assert x / size == 1;
    }
  }

  lemma CeilStep(n: nat, size: nat)
    requires n > size > 0
    ensures (n + size - 1) / size == 1 + (n - size + size - 1) / size
  {
    var a := n - 1;
    var q, r := a / size, a % size;
    assert a == q * size + r;
    assert a + size == (q + 1) * size + r;
    DivMod(q + 1, size, r);
  }

  // ---------- putting a message together ----------

  /** Got leaves the frames after the message; Failed is an error return, for a frame that does not fit
      or for the end of the frames; Panic is a nil header or a method that takes no content. */
  datatype Received = Got(m: Message, rest: seq<WireFrame>) | Failed | Panic

  /** The variables of recvWithTimeout: the message being filled, the header seen, the octets still
      expected and the body so far. */
  datatype Partial = Partial(kind: Method, args: seq<Read>, header: Option<ReadProps>, remaining: int, body: Bytes)

  /** Go's int(header.Size) on 64 bits. */
  function ToInt(size: u64): int {
    Signed(size, TWO63)
  }

  function Finish(p: Partial, props: ReadProps, body: Bytes, rest: seq<WireFrame>): Received {
    if HasContent(p.kind) then Got(Message(p.kind, p.args, props, body), rest) else Panic
  }

  /** recvWithTimeout on the frames to come. */
  function Recv(p: Partial, ch: u16, frames: seq<WireFrame>): (r: Received)
    ensures r.Got? ==> |r.rest| < |frames|
    decreases |frames|
  {
    if frames == [] || frames[0].channel != ch then Failed
    else
      var rest := frames[1..];
      match frames[0]
      case HeartbeatFrame(_) => Recv(p, ch, rest)
      case HeaderFrame(_, _, _, size, props) =>
        if ToInt(size) == 0 then Finish(p, props, [], rest)
        else Recv(p.(header := Some(props), remaining := ToInt(size)), ch, rest)
      case BodyFrame(_, b) =>
        var left, body := p.remaining - |b|, p.body + b;
        if left > 0 then Recv(p.(remaining := left, body := body), ch, rest)
        else if p.header == None then Panic
        else Finish(p, p.header.value, body, rest)
      case MethodFrame(_, kind, args) =>
        if kind != p.kind then Failed
        else if HasContent(kind) then Recv(p.(args := args), ch, rest)
        else Got(Message(kind, args, EMPTY_PROPS, []), rest)
  }

  function Start(kind: Method, args: seq<Read>): Partial {
    Partial(kind, args, None, 0, [])
  }

  /** The frames still to be read from the client. */
  class FrameSource {
    var frames: seq<WireFrame>

    method ReadFrame() returns (f: Option<WireFrame>)
      modifies this
      ensures old(frames) == [] ==> f == None && frames == []
      ensures old(frames) != [] ==> f == Some(old(frames)[0]) && frames == old(frames)[1..]
    {
      if frames == [] {
        return None;
      }
      f := Some(frames[0]);
      frames := frames[1..];
    }
  }

  /** recvWithTimeout. */
  method ReceiveMessage(r: FrameSource, ch: u16, kind: Method, args0: seq<Read>) returns (result: Received)
    modifies r
    ensures result == Recv(Start(kind, args0), ch, old(r.frames))
    ensures result.Got? ==> r.frames == result.rest
  {
    hide HasContent;
    var remaining := 0;
    var header: Option<ReadProps> := None;
    var body: Bytes := [];
    var args := args0;
    while true
      invariant Recv(Partial(kind, args, header, remaining, body), ch, r.frames)
        == Recv(Start(kind, args0), ch, old(r.frames))
      decreases |r.frames|
    {
      var frame := r.ReadFrame();
      if frame == None || frame.value.channel != ch {
        return Failed;
      }
      match frame.value {
        case HeartbeatFrame(_) =>
        case HeaderFrame(_, _, _, size, props) =>
          header := Some(props);
          remaining := ToInt(size);
          if remaining == 0 {
            return if HasContent(kind) then Got(Message(kind, args, props, []), r.frames) else Panic;
          }
        case BodyFrame(_, b) =>
          body := body + b;
          remaining := remaining - |b|;
          if remaining <= 0 {
            if header == None || !HasContent(kind) {
              return Panic;
            }
            return Got(Message(kind, args, header.value, body), r.frames);
          }
        case MethodFrame(_, have, haveArgs) =>
          if have != kind {
            return Failed;
          }
          args := haveArgs;
          if !HasContent(kind) {
            return Got(Message(kind, args, EMPTY_PROPS, []), r.frames);
          }
      }
    }
  }

  // ---------- reassembly ----------

  /** The frames that are not heartbeats. */
  function WithoutHeartbeats(fs: seq<WireFrame>): seq<WireFrame> {
    if fs == [] then []
    else if fs[0].HeartbeatFrame? then WithoutHeartbeats(fs[1..])
    else [fs[0]] + WithoutHeartbeats(fs[1..])
  }

  ghost predicate HeartbeatsOn(fs: seq<WireFrame>, ch: u16) {
    forall i :: 0 <= i < |fs| && fs[i].HeartbeatFrame? ==> fs[i].channel == ch
  }

  /** The header and body frames of a message, split as send splits it. */
  function ContentFrames(ch: u16, m: Message, frameMax: nat): seq<WireFrame>
    requires |m.body| < TWO64 && (frameMax > OVERHEAD || m.body == [])
  {
    [HeaderOf(ch, m)] + (if m.body == [] then [] else BodyFrames(ch, Chunks(m.body, frameMax - OVERHEAD)))
  }

  /** fs is the content of the message with heartbeats put in anywhere before its last frame. */
  ghost predicate Carries(fs: seq<WireFrame>, ch: u16, m: Message, frameMax: nat)
    requires |m.body| < TWO64 && (frameMax > OVERHEAD || m.body == [])
  {
    && fs != [] && !fs[|fs| - 1].HeartbeatFrame?
    && WithoutHeartbeats(fs) == ContentFrames(ch, m, frameMax)
  }

  /** From the frames of a content message, among heartbeats on any channels, the message is put together
      and the frames after it are left alone exactly when all these heartbeats came on its channel. */
  lemma ReassemblyIff(fs: seq<WireFrame>, ch: u16, m: Message, frameMax: nat, more: seq<WireFrame>)
    requires HasContent(m.kind) && |m.body| < TWO63 && (frameMax > OVERHEAD || m.body == [])
    requires Carries(fs, ch, m, frameMax)
    ensures Recv(Start(m.kind, m.args), ch, fs + more) == Got(m, more) <==> HeartbeatsOn(fs, ch)
  {
    hide HasContent;
    SkipToHeader(fs, ch, m, frameMax, more);
  }

  lemma {:induction false} SkipToHeader(fs: seq<WireFrame>, ch: u16, m: Message, frameMax: nat, more: seq<WireFrame>)
    requires HasContent(m.kind) && |m.body| < TWO63 && (frameMax > OVERHEAD || m.body == [])
    requires Carries(fs, ch, m, frameMax)
    ensures Recv(Start(m.kind, m.args), ch, fs + more) == if HeartbeatsOn(fs, ch) then Got(m, more) else Failed
    decreases |fs|
  {
    hide HasContent;
    assert (fs + more)[1..] == fs[1..] + more;
    if fs[0].HeartbeatFrame? {
      if fs[0].channel == ch {
        SkipToHeader(fs[1..], ch, m, frameMax, more);
        HeartbeatsTail(fs, ch);
      }
    } else {
      HeartbeatsTail(fs, ch);
      HeaderThenBodies(fs, ch, m, frameMax, more);
    }
  }

  lemma HeaderThenBodies(fs: seq<WireFrame>, ch: u16, m: Message, frameMax: nat, more: seq<WireFrame>)
    requires HasContent(m.kind) && |m.body| < TWO63 && (frameMax > OVERHEAD || m.body == [])
    requires Carries(fs, ch, m, frameMax) && !fs[0].HeartbeatFrame?
    ensures Recv(Start(m.kind, m.args), ch, fs + more) == if HeartbeatsOn(fs[1..], ch) then Got(m, more) else Failed
  {
    hide HasContent; hide ID; hide HeartbeatsOn; hide Chunks; hide BodyFrames;
    var tail := fs[1..];
    assert (fs + more)[1..] == tail + more;
    assert WithoutHeartbeats(fs)[0] == fs[0] && ContentFrames(ch, m, frameMax)[0] == HeaderOf(ch, m);
    assert WithoutHeartbeats(fs)[1..] == WithoutHeartbeats(tail);
    assert tail == [] || tail[|tail| - 1] == fs[|fs| - 1];
    if m.body == [] {
      NoFramesLeft(tail);
      assert HeartbeatsOn(tail, ch) by { NoHeartbeats(ch); }
      assert [] + more == more;
    } else {
      var parts := Chunks(m.body, frameMax - OVERHEAD);
      SplitExact(m.body, frameMax);
      assert ConcatBytes(parts) == m.body && parts != [];
      assert [] + ConcatBytes(parts) == m.body;
      assert WithoutHeartbeats(tail) == BodyFrames(ch, parts);
      CollectBodies(tail, ch, m, parts, [], more);
    }
  }

  /** The frames of a content message after its method frame carry the message. */
  lemma GroupCarries(ch: u16, m: Message, frameMax: nat)
    requires HasContent(m.kind) && |m.body| < TWO63 && (frameMax > OVERHEAD || m.body == [])
    ensures Group(ch, m, frameMax) == [MethodFrame(ch, m.kind, m.args)] + ContentFrames(ch, m, frameMax)
    ensures Carries(ContentFrames(ch, m, frameMax), ch, m, frameMax)
    ensures HeartbeatsOn(ContentFrames(ch, m, frameMax), ch)
  {
    hide HasContent; hide ID; hide Chunks;
    NoBeats(ContentFrames(ch, m, frameMax));
  }

  lemma {:induction false} NoBeats(fs: seq<WireFrame>)
    requires forall i :: 0 <= i < |fs| ==> !fs[i].HeartbeatFrame?
    ensures WithoutHeartbeats(fs) == fs
  {
    if fs != [] {
      NoBeats(fs[1..]);
    }
  }

  lemma NoHeartbeats(ch: u16)
    ensures HeartbeatsOn([], ch)
  {
  }

  lemma HeartbeatsTail(fs: seq<WireFrame>, ch: u16)
    requires fs != []
    ensures HeartbeatsOn(fs, ch) <==>
      (fs[0].HeartbeatFrame? ==> fs[0].channel == ch) && HeartbeatsOn(fs[1..], ch)
  {
    assert forall i :: 0 < i < |fs| ==> fs[i] == fs[1..][i - 1];
  }

  /** Only heartbeats are left, and none at the end: nothing is left. */
  lemma {:induction false} NoFramesLeft(fs: seq<WireFrame>)
    requires WithoutHeartbeats(fs) == [] && (fs == [] || !fs[|fs| - 1].HeartbeatFrame?)
    ensures fs == []
  {
    if |fs| > 1 {
      NoFramesLeft(fs[1..]);
    }
  }

  lemma {:induction false} CollectBodies(fs: seq<WireFrame>, ch: u16, m: Message, parts: seq<Bytes>,
                                         got: Bytes, more: seq<WireFrame>)
    requires HasContent(m.kind) && parts != [] && got + ConcatBytes(parts) == m.body
    requires forall i :: 0 <= i < |parts| ==> parts[i] != []
    requires WithoutHeartbeats(fs) == BodyFrames(ch, parts) && (fs == [] || !fs[|fs| - 1].HeartbeatFrame?)
    ensures Recv(Partial(m.kind, m.args, Some(m.props), |m.body| - |got|, got), ch, fs + more)
      == if HeartbeatsOn(fs, ch) then Got(m, more) else Failed
    decreases |fs|
  {
    hide HasContent; hide HeartbeatsOn; hide WithoutHeartbeats; hide BodyFrames; hide ConcatBytes;
    NextBody(fs, ch, parts);
    NextPart(parts);
    assert (fs + more)[1..] == fs[1..] + more && (fs + more)[0] == fs[0];
    HeartbeatsTail(fs, ch);
    if fs[0].HeartbeatFrame? {
      if fs[0].channel == ch {
        CollectBodies(fs[1..], ch, m, parts, got, more);
      }
    } else {
      assert got + parts[0] + ConcatBytes(parts[1..]) == m.body;
      if |parts| == 1 {
        NoFramesLeft(fs[1..]);
        NoHeartbeats(ch);
      } else {
        CollectBodies(fs[1..], ch, m, parts[1..], got + parts[0], more);
      }
    }
  }

  /** Behind any heartbeat, the first frame is the first part's, and the others follow. */
  lemma NextBody(fs: seq<WireFrame>, ch: u16, parts: seq<Bytes>)
    requires parts != [] && WithoutHeartbeats(fs) == BodyFrames(ch, parts)
    ensures fs != []
    ensures fs[0].HeartbeatFrame? ==> WithoutHeartbeats(fs[1..]) == BodyFrames(ch, parts)
    ensures !fs[0].HeartbeatFrame? ==>
      fs[0] == BodyFrame(ch, parts[0]) && WithoutHeartbeats(fs[1..]) == BodyFrames(ch, parts[1..])
    ensures |parts| == 1 && !fs[0].HeartbeatFrame? ==> WithoutHeartbeats(fs[1..]) == []
  {
    assert BodyFrames(ch, parts)[0] == BodyFrame(ch, parts[0]);
    assert BodyFrames(ch, parts)[1..] == BodyFrames(ch, parts[1..]);
    assert fs != [];
    if !fs[0].HeartbeatFrame? {
      assert WithoutHeartbeats(fs)[1..] == WithoutHeartbeats(fs[1..]);
    }
  }

  lemma NextPart(parts: seq<Bytes>)
    requires parts != []
    ensures ConcatBytes(parts) == parts[0] + ConcatBytes(parts[1..])
    ensures |parts| == 1 ==> parts[1..] == [] && ConcatBytes(parts[1..]) == []
    ensures |parts| > 1 && parts[1] != [] ==> ConcatBytes(parts[1..]) != []
  {
  }
}
