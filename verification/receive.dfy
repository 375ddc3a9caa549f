/** What the receive loop makes of any frames, in terms of the frames themselves: the last method's arguments,
    the last header, all body octets, and how many are due. */
module Receive {
  import opened Octets
  import opened Wrappers
  import opened Arguments
  import opened Methods
  import opened Headers
  import opened Frames
  import opened Content

  // ---------- what has been seen ----------

  /** The arguments of the last method frame, or those the caller came with. */
  function LastArgs(fs: seq<WireFrame>, args0: seq<Read>): seq<Read> {
    if fs == [] then args0
    else if fs[|fs| - 1].MethodFrame? then fs[|fs| - 1].args
    else LastArgs(fs[..|fs| - 1], args0)
  }

  function LastProps(fs: seq<WireFrame>): Option<ReadProps> {
    if fs == [] then None
    else if fs[|fs| - 1].HeaderFrame? then Some(fs[|fs| - 1].props)
    else LastProps(fs[..|fs| - 1])
  }

  /** The octets of all body frames. */
  function AllBody(fs: seq<WireFrame>): Bytes {
    if fs == [] then []
    else AllBody(fs[..|fs| - 1]) + (if fs[|fs| - 1].BodyFrame? then fs[|fs| - 1].body else [])
  }

  /** The size the last header announced, less the body octets since. */
  function Due(fs: seq<WireFrame>): int {
    if fs == [] then 0
    else
      match fs[|fs| - 1]
      case HeaderFrame(_, _, _, size, _) => ToInt(size)
      case BodyFrame(_, b) => Due(fs[..|fs| - 1]) - |b|
      case _ => Due(fs[..|fs| - 1])
  }

  /** After frame f, behind pre, the loop waits for another one. */
  predicate GoesOn(kind: Method, ch: u16, pre: seq<WireFrame>, f: WireFrame) {
    && f.channel == ch
    && match f
       case HeartbeatFrame(_) => true
       case MethodFrame(_, k, _) => k == kind && HasContent(kind)
       case HeaderFrame(_, _, _, size, _) => size != 0
       case BodyFrame(_, b) => Due(pre) > |b|
  }

  predicate AllGoOn(kind: Method, ch: u16, fs: seq<WireFrame>) {
    fs == [] || (AllGoOn(kind, ch, fs[..|fs| - 1]) && GoesOn(kind, ch, fs[..|fs| - 1], fs[|fs| - 1]))
  }

  /** What a frame at which the loop ends gives, with the frames after it left alone. */
  function Ending(kind: Method, args0: seq<Read>, ch: u16, pre: seq<WireFrame>, f: WireFrame,
                  more: seq<WireFrame>): Received
  {
    if f.channel != ch then Failed
    else
      match f
      case MethodFrame(_, k, args) => if k == kind then Got(Message(kind, args, EMPTY_PROPS, []), more) else Failed
      case HeaderFrame(_, _, _, _, props) =>
        if HasContent(kind) then Got(Message(kind, LastArgs(pre, args0), props, []), more) else Panic
      case BodyFrame(_, b) =>
        if HasContent(kind) && LastProps(pre).Some?
        then Got(Message(kind, LastArgs(pre, args0), LastProps(pre).value, AllBody(pre) + b), more)
        else Panic
      case HeartbeatFrame(_) => Failed
  }

  // ---------- the loop does that ----------

  /** A size is taken as it is below 2^63, and as a negative number from there on. */
  lemma SizeTaken(size: u64)
    ensures ToInt(size) == if size < 0x8000_0000_0000_0000 then size else size - 0x1_0000_0000_0000_0000
  {
  }

  lemma {:induction false} RunsThrough(kind: Method, args0: seq<Read>, ch: u16, fs: seq<WireFrame>,
                                       more: seq<WireFrame>)
    requires AllGoOn(kind, ch, fs)
    ensures Recv(Start(kind, args0), ch, fs + more)
      == Recv(Partial(kind, LastArgs(fs, args0), LastProps(fs), Due(fs), AllBody(fs)), ch, more)
    decreases |fs|
  {
    hide HasContent; hide ToInt;
    if fs == [] {
      assert fs + more == more;
    } else {
      var n := |fs| - 1;
      var init, f := fs[..n], fs[n];
      RunsThrough(kind, args0, ch, init, [f] + more);
      assert init + ([f] + more) == fs + more && ([f] + more)[1..] == more;
      if f.HeaderFrame? {
        SizeTaken(f.size);
      }
      assert AllBody(init) + [] == AllBody(init);
    }
  }

  /** Frames at which the loop goes on, and then one at which it does not: it ends there, with what that frame
      and those before it give, and leaves the frames after it. */
  lemma ReceiveExact(kind: Method, args0: seq<Read>, ch: u16, pre: seq<WireFrame>, f: WireFrame, more: seq<WireFrame>)
    requires AllGoOn(kind, ch, pre) && !GoesOn(kind, ch, pre, f)
    ensures Recv(Start(kind, args0), ch, pre + ([f] + more)) == Ending(kind, args0, ch, pre, f, more)
  {
    hide HasContent; hide ToInt;
    RunsThrough(kind, args0, ch, pre, [f] + more);
    assert ([f] + more)[1..] == more;
    if f.HeaderFrame? {
      SizeTaken(f.size);
    }
  }

  /** When the frames run out first, it fails. */
  lemma ReceiveRunsOut(kind: Method, args0: seq<Read>, ch: u16, fs: seq<WireFrame>)
    requires AllGoOn(kind, ch, fs)
    ensures Recv(Start(kind, args0), ch, fs) == Failed
  {
    RunsThrough(kind, args0, ch, fs, []);
    assert fs + [] == fs;
  }

  /** Any frames are of one of these two forms. */
  lemma {:induction false} FirstEnding(kind: Method, ch: u16, fs: seq<WireFrame>) returns (n: nat)
    ensures n <= |fs| && AllGoOn(kind, ch, fs[..n])
    ensures n < |fs| ==> !GoesOn(kind, ch, fs[..n], fs[n])
    decreases |fs|
  {
    if fs == [] {
      n := 0;
    } else {
      var m := |fs| - 1;
      n := FirstEnding(kind, ch, fs[..m]);
      assert fs[..m][..n] == fs[..n];
      if n == m && GoesOn(kind, ch, fs[..m], fs[m]) {
        n := |fs|;
        assert fs[..n] == fs;
      }
    }
  }

  ghost predicate EndsAt(kind: Method, args0: seq<Read>, ch: u16, fs: seq<WireFrame>, n: nat, r: Received) {
    && n < |fs| && AllGoOn(kind, ch, fs[..n]) && !GoesOn(kind, ch, fs[..n], fs[n])
    && r == Ending(kind, args0, ch, fs[..n], fs[n], fs[n + 1..])
  }

  /** A message is received if and only if the first frame at which the loop ends gives it. */
  lemma ReceivedIff(kind: Method, args0: seq<Read>, ch: u16, fs: seq<WireFrame>, m: Message, rest: seq<WireFrame>)
    ensures Recv(Start(kind, args0), ch, fs) == Got(m, rest)
      <==> exists n: nat :: EndsAt(kind, args0, ch, fs, n, Got(m, rest))
  {
    hide Ending; hide GoesOn; hide AllGoOn; hide Recv;
    var n := FirstEnding(kind, ch, fs);
    if n < |fs| {
      ReceiveExact(kind, args0, ch, fs[..n], fs[n], fs[n + 1..]);
      assert fs[..n] + ([fs[n]] + fs[n + 1..]) == fs;
      assert EndsAt(kind, args0, ch, fs, n, Recv(Start(kind, args0), ch, fs));
    } else {
      assert fs[..n] == fs;
      ReceiveRunsOut(kind, args0, ch, fs);
    }
    if k: nat :| EndsAt(kind, args0, ch, fs, k, Got(m, rest)) {
      ReceiveExact(kind, args0, ch, fs[..k], fs[k], fs[k + 1..]);
      assert fs[..k] + ([fs[k]] + fs[k + 1..]) == fs;
    }
  }

  // ---------- methods without content, and replaced arguments ----------

  lemma {:induction false} HeartbeatsGoOn(kind: Method, ch: u16, fs: seq<WireFrame>, args0: seq<Read>)
    requires forall i :: 0 <= i < |fs| ==> fs[i] == HeartbeatFrame(ch)
    ensures AllGoOn(kind, ch, fs) && LastArgs(fs, args0) == args0 && LastProps(fs) == None
    ensures Due(fs) == 0 && AllBody(fs) == []
  {
    if fs != [] {
      HeartbeatsGoOn(kind, ch, fs[..|fs| - 1], args0);
    }
  }

  function NoProps(): ReadProps {
    Properties([], [], map[], 0, 0, [], [], [], [], Stamp(-62135596800, 0), [], [], [], [])
  }

  /** A method without content is received with the arguments in its frame, whatever the caller came with; behind
      heartbeats of the channel, the first other frame decides: another kind of method or another channel
      fails, as does a body frame or an empty header by a panic. */
  lemma MethodReceived(kind: Method, args0: seq<Read>, ch: u16, beats: seq<WireFrame>, f: WireFrame,
                       more: seq<WireFrame>)
    requires !HasContent(kind)
    requires forall i :: 0 <= i < |beats| ==> beats[i] == HeartbeatFrame(ch)
    requires !(f.channel == ch && (f.HeartbeatFrame? || (f.HeaderFrame? && f.size != 0)))
    ensures Recv(Start(kind, args0), ch, beats + ([f] + more)) ==
      if f.channel != ch then Failed
      else if f.MethodFrame? then
        if f.kind == kind then Got(Message(kind, f.args, NoProps(), []), more) else Failed
      else Panic
  {
    hide HasContent;
    HeartbeatsGoOn(kind, ch, beats, args0);
    ReceiveExact(kind, args0, ch, beats, f, more);
  }

  /** For a method with content, a method frame of that kind replaces the arguments, and another kind fails. */
  lemma ContentMethodReplaces(kind: Method, args0: seq<Read>, ch: u16, beats: seq<WireFrame>, k: Method,
                              args: seq<Read>, more: seq<WireFrame>)
    requires HasContent(kind)
    requires forall i :: 0 <= i < |beats| ==> beats[i] == HeartbeatFrame(ch)
    ensures Recv(Start(kind, args0), ch, beats + ([MethodFrame(ch, k, args)] + more)) ==
      if k == kind then Recv(Start(kind, args), ch, more) else Failed
  {
    hide HasContent;
    HeartbeatsGoOn(kind, ch, beats, args0);
    var f: WireFrame := MethodFrame(ch, k, args);
    if k == kind {
      RunsThrough(kind, args0, ch, beats, [f] + more);
      assert ([f] + more)[1..] == more;
    } else {
      ReceiveExact(kind, args0, ch, beats, f, more);
    }
  }
}
