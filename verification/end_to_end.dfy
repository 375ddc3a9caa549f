/** From messages to octets and back: frames written one after another, and the message put together again
    from the octets. */
module EndToEnd {
  import opened Octets
  import opened Arguments
  import opened Methods
  import opened Frames
  import opened FrameOctets
  import opened Writers
  import opened FrameIO
  import opened Content

  /** The frames laid out one by one. */
  ghost predicate LaysFrames(laid: seq<LaidFrame>, fs: seq<WireFrame>) {
    |laid| == |fs| && forall i :: 0 <= i < |fs| ==> LaysOne(laid[i], fs[i])
  }

  ghost predicate LaysOne(laid: LaidFrame, f: WireFrame) {
    LaysFrame(laid, f) && Formed(laid)
  }

  /** Writes frames up to the first one with a value of an unsupported type. */
  method WriteFrames(w: Buffer, fs: seq<WireFrame>) returns (ok: bool, ghost laid: seq<LaidFrame>)
    requires forall i :: 0 <= i < |fs| ==> Formed(fs[i])
    modifies w
    ensures ok <==> forall i :: 0 <= i < |fs| ==> SupportedFrame(fs[i])
    ensures |laid| <= |fs| && LaysFrames(laid, fs[..|laid|]) && (ok ==> |laid| == |fs|)
    ensures (forall i :: 0 <= i < |laid| ==> Formed(laid[i])) && w.out == old(w.out) + EncFrames(laid)
  {
    hide LaysFrame; hide Formed; hide SupportedFrame; hide EncFrame; hide OnWire;
    laid := [];
    for i := 0 to |fs|
      invariant |laid| == i && LaysFrames(laid, fs[..i])
      invariant forall j :: 0 <= j < i ==> SupportedFrame(fs[j]) && Formed(laid[j])
      invariant w.out == old(w.out) + EncFrames(laid)
    {
      ghost var one;
      ok, one := Write(w, fs[i]);
      if !ok {
        return;
      }
      EncFramesSnoc(laid, one);
      assert fs[..i + 1] == fs[..i] + [fs[i]];
      laid := laid + [one];
    }
    assert fs[..|fs|] == fs;
    ok := true;
  }

  lemma {:induction false} EncFramesSnoc(fs: seq<LaidFrame>, f: LaidFrame)
    requires Formed(f) && forall i :: 0 <= i < |fs| ==> Formed(fs[i])
    ensures EncFrames(fs + [f]) == EncFrames(fs) + EncFrame(f)
  {
    hide EncFrame; hide Formed;
    if fs == [] {
      assert [f][1..] == [];
    } else {
      assert (fs + [f])[1..] == fs[1..] + [f];
      EncFramesSnoc(fs[1..], f);
    }
  }

  /** The octets of written frames read back as these frames normalised, in order, with nothing left. */
  lemma WrittenFramesRead(laid: seq<LaidFrame>, fs: seq<WireFrame>)
    requires LaysFrames(laid, fs)
    requires forall i :: 0 <= i < |fs| ==> WellSizedFrame(laid[i]) && ShortKeysFrame(fs[i])
    ensures (forall i :: 0 <= i < |laid| ==> Formed(laid[i]))
      && ParseFrames(EncFrames(laid)) == (ReadsAll(fs), EOF, [])
  {
    hide LaysFrame; hide Formed; hide WellSizedFrame; hide ShortKeysFrame; hide NormFrame; hide Reads;
    hide ParseFrames; hide ParseFrame; hide EncFrames; hide EncFrame;
    forall i | 0 <= i < |fs|
      ensures Formed(laid[i]) && NormFrames(laid)[i] == Reads(fs[i])
    {
      assert LaysOne(laid[i], fs[i]);
      FrameRoundTrip(laid[i], []);
      WrittenFrameReads(laid[i], fs[i], []);
    }
    StreamRoundTrip(laid);
    assert NormFrames(laid) == ReadsAll(fs);
  }

  function ReadsAll(fs: seq<WireFrame>): seq<WireFrame> {
    seq(|fs|, i requires 0 <= i < |fs| => Reads(fs[i]))
  }

  /** What the other side reads of a message. */
  function ReadsMessage(m: Message): Message {
    Message(m.kind, ReadsArgs(m.args), ReadsProps(m.props), m.body)
  }

  function ReadsArgs(args: seq<Read>): seq<Read> {
    seq(|args|, i requires 0 <= i < |args| => ReadsArg(args[i]))
  }

  lemma GroupReads(ch: u16, m: Message, frameMax: nat)
    requires HasContent(m.kind) && |m.body| < TWO63 && (frameMax > OVERHEAD || m.body == [])
    ensures ReadsAll(Group(ch, m, frameMax)) == Group(ch, ReadsMessage(m), frameMax)
  {
    hide HasContent; hide ID; hide Chunks; hide ReadsArg; hide ReadsProps;
    assert forall f: WireFrame :: f.BodyFrame? ==> Reads(f) == f;
  }

  /** A content message sent as octets: the method that is read first tells the proxy what to expect, and the
      frames after it are put together to the message, normalised, up to the last octet. */
  lemma MessageRoundTrip(laid: seq<LaidFrame>, ch: u16, m: Message, frameMax: nat)
    requires HasContent(m.kind) && |m.body| < TWO63 && (frameMax > OVERHEAD || m.body == [])
    requires LaysFrames(laid, Group(ch, m, frameMax))
    requires forall i :: 0 <= i < |laid| ==> WellSizedFrame(laid[i]) && ShortKeysFrame(Group(ch, m, frameMax)[i])
    ensures (forall i :: 0 <= i < |laid| ==> Formed(laid[i]))
      && var (fs, end, left) := ParseFrames(EncFrames(laid));
      && (end, left) == (EOF, [])
      && fs != [] && fs[0] == MethodFrame(ch, m.kind, ReadsArgs(m.args))
      && Recv(Start(m.kind, ReadsArgs(m.args)), ch, fs[1..]) == Got(ReadsMessage(m), [])
  {
    hide HasContent; hide Group; hide LaysOne; hide ParseFrames; hide EncFrames; hide ContentFrames; hide Formed;
    hide WellSizedFrame; hide ShortKeysFrame; hide ReadsAll;
    WrittenFramesRead(laid, Group(ch, m, frameMax));
    GroupReads(ch, m, frameMax);
    var n := ReadsMessage(m);
    GroupCarries(ch, n, frameMax);
    var content := ContentFrames(ch, n, frameMax);
    ReassemblyIff(content, ch, n, frameMax, []);
    assert content + [] == content;
    assert Group(ch, n, frameMax)[1..] == content;
  }
}
