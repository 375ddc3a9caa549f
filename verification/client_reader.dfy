/** What a client makes of the stream. By section 4.2.6 of the AMQP 0-9-1 specification the frames of one
    content may be interleaved with frames of other channels but not with others of its own, and a peer
    that gets a frame out of place closes the connection. */
module ClientReader {
  import opened Octets
  import opened Wrappers
  import opened Arguments
  import opened Methods
  import opened Headers
  import opened Frames
  import opened Content
  import opened SharedWriter

  type Sent = (u16, Message)

  // ---------- a reader that takes the channels apart ----------

  /** A content message begun on a channel: its method, or its method, header and part of its body. */
  datatype Open =
    | AwaitHeader(kind: Method, args: seq<Read>)
    | AwaitBody(kind: Method, args: seq<Read>, props: ReadProps, size: nat, body: Bytes)

  /** open holds the contents begun and got the messages completed; a frame out of place ends it all. */
  datatype Client = Client(open: map<u16, Open>, got: seq<Sent>, failed: bool)

  const START := Client(map[], [], false)

  function Deliver(c: Client, ch: u16, m: Message): Client {
    Client(c.open - {ch}, c.got + [(ch, m)], false)
  }

  function Begin(c: Client, ch: u16, o: Open): Client {
    c.(open := c.open[ch := o])
  }

  function TakeFrame(c: Client, f: WireFrame): Client {
    if c.failed then c
    else
      match f
      case HeartbeatFrame(_) => c
      case MethodFrame(ch, kind, args) =>
        if ch in c.open then c.(failed := true)
        else if HasContent(kind) then Begin(c, ch, AwaitHeader(kind, args))
        else Deliver(c, ch, Message(kind, args, EMPTY_PROPS, []))
      case HeaderFrame(ch, class_, _, size, props) =>
        if ch in c.open && c.open[ch].AwaitHeader? && class_ == ID(c.open[ch].kind).0 then
          var o := c.open[ch];
          if size == 0 then Deliver(c, ch, Message(o.kind, o.args, props, []))
          else Begin(c, ch, AwaitBody(o.kind, o.args, props, size, []))
        else c.(failed := true)
      case BodyFrame(ch, b) =>
        if ch in c.open && c.open[ch].AwaitBody? && |c.open[ch].body| + |b| <= c.open[ch].size then
          var o := c.open[ch].(body := c.open[ch].body + b);
          if |o.body| == o.size then Deliver(c, ch, Message(o.kind, o.args, o.props, o.body))
          else Begin(c, ch, o)
        else c.(failed := true)
  }

  function TakeAll(c: Client, fs: seq<WireFrame>): Client
    decreases |fs|
  {
    if fs == [] then c else TakeAll(TakeFrame(c, fs[0]), fs[1..])
  }

  lemma {:induction false} TakeConcat(c: Client, a: seq<WireFrame>, b: seq<WireFrame>)
    ensures TakeAll(c, a + b) == TakeAll(TakeAll(c, a), b)
    decreases |a|
  {
    hide TakeFrame;
    if a == [] {
      assert a + b == b;
    } else {
      assert (a + b)[1..] == a[1..] + b;
      TakeConcat(TakeFrame(c, a[0]), a[1..], b);
    }
  }

  lemma {:induction false} FailedStays(c: Client, fs: seq<WireFrame>)
    requires c.failed
    ensures TakeAll(c, fs) == c
  {
    if fs != [] {
      FailedStays(c, fs[1..]);
    }
  }

  // ---------- one group, or the first frames of one ----------

  /** The message a client gets for an item: a method without content has no properties and no body. */
  function Delivered(it: Item): seq<Sent> {
    match it
    case Send(ch, m) => [(ch, if HasContent(m.kind) then m else m.(props := EMPTY_PROPS, body := []))]
    case Beat => []
  }

  /** The client after the first w frames of an item: on a channel with a content begun the first one is
      out of place, otherwise the content is begun, or complete after the last one. */
  ghost predicate After(c: Client, it: Item, frameMax: nat, w: nat, c': Client)
    requires Sendable(it)
  {
    if it.Beat? || w == 0 then c' == c
    else if it.ch in c.open then c' == c.(failed := true)
    else if Complete(it, frameMax, w) then c' == Client(c.open, c.got + Delivered(it), false)
    else c'.open.Keys == c.open.Keys + {it.ch} && c'.got == c.got && !c'.failed
  }

  lemma {:induction false} TakesBodies(c: Client, ch: u16, parts: seq<Bytes>, w: nat)
    requires !c.failed && ch in c.open && c.open[ch].AwaitBody? && w <= |parts|
    requires |c.open[ch].body| + |ConcatBytes(parts)| == c.open[ch].size
    requires forall i :: 0 <= i < |parts| ==> parts[i] != []
    ensures var o, c' := c.open[ch], TakeAll(c, BodyFrames(ch, parts)[..w]);
      if 0 < w == |parts| then c' == Deliver(c, ch, Message(o.kind, o.args, o.props, o.body + ConcatBytes(parts)))
      else c'.open.Keys == c.open.Keys && c'.got == c.got && !c'.failed
    decreases |parts|
  {
    hide BodyFrames; hide ConcatBytes;
    if w > 0 {
      var o := c.open[ch];
      NextPart(parts);
      FirstBody(ch, parts, w);
      var c1 := TakeFrame(c, BodyFrame(ch, parts[0]));
      if |parts| > 1 {
        var o1 := o.(body := o.body + parts[0]);
        assert c1 == Begin(c, ch, o1);
        TakesBodies(c1, ch, parts[1..], w - 1);
        assert c1.open - {ch} == c.open - {ch};
        assert o1.body + ConcatBytes(parts[1..]) == o.body + ConcatBytes(parts);
      } else {
        assert parts[0] + [] == parts[0];
      }
    }
  }

  lemma FirstBody(ch: u16, parts: seq<Bytes>, w: nat)
    requires 0 < w <= |parts|
    ensures BodyFrames(ch, parts)[..w] == [BodyFrame(ch, parts[0])] + BodyFrames(ch, parts[1..])[..w - 1]
  {
  }

  /** The client when the method and the header of a content message have come. */
  function HeaderTaken(c: Client, ch: u16, m: Message): Client {
    if m.body == [] then Deliver(c, ch, m)
    else Begin(c, ch, AwaitBody(m.kind, m.args, m.props, |m.body|, []))
  }

  lemma TakesHeader(c: Client, ch: u16, m: Message)
    requires !c.failed && ch !in c.open && HasContent(m.kind) && |m.body| < TWO64
    ensures TakeAll(c, [MethodFrame(ch, m.kind, m.args)]) == Begin(c, ch, AwaitHeader(m.kind, m.args))
    ensures TakeAll(c, [MethodFrame(ch, m.kind, m.args), HeaderOf(ch, m)]) == HeaderTaken(c, ch, m)
  {
    hide HasContent; hide ID;
    var first, second := MethodFrame(ch, m.kind, m.args), HeaderOf(ch, m);
    var c1 := Begin(c, ch, AwaitHeader(m.kind, m.args));
    assert TakeFrame(c, first) == c1;
    assert [first, second] == [first] + [second] && [second][1..] == [] && [first][1..] == [];
    TakeConcat(c, [first], [second]);
    assert c1.open - {ch} == c.open && c.open - {ch} == c.open;
    var body := AwaitBody(m.kind, m.args, m.props, |m.body|, []);
    assert c1.open[ch := body] == c.open[ch := body];
    assert TakeFrame(c1, second) == HeaderTaken(c, ch, m);
  }

  lemma TakesContent(c: Client, ch: u16, m: Message, frameMax: nat, w: nat)
    requires !c.failed && ch !in c.open && HasContent(m.kind) && Sendable(Send(ch, m)) && !Stuck(m, frameMax)
    requires 0 < w <= |Group(ch, m, frameMax)|
    ensures After(c, Send(ch, m), frameMax, w, TakeAll(c, Group(ch, m, frameMax)[..w]))
  {
    hide HasContent; hide ID; hide Chunks; hide BodyFrames; hide ConcatBytes; hide TakeAll; hide TakeFrame;
    var fs := Group(ch, m, frameMax);
    var head := [MethodFrame(ch, m.kind, m.args), HeaderOf(ch, m)];
    TakesHeader(c, ch, m);
    assert c.open - {ch} == c.open;
    if w == 1 {
      assert fs[..1] == [MethodFrame(ch, m.kind, m.args)];
    } else if m.body == [] {
      assert fs[..w] == head;
    } else {
      var parts := Chunks(m.body, frameMax - OVERHEAD);
      SplitExact(m.body, frameMax);
      PartsNeeded(ch, m.body, frameMax);
      assert fs[..w] == head + BodyFrames(ch, parts)[..w - 2];
      TakeConcat(c, head, BodyFrames(ch, parts)[..w - 2]);
      var c2 := HeaderTaken(c, ch, m);
      TakesBodies(c2, ch, parts, w - 2);
      assert c2.open - {ch} == c.open && [] + m.body == m.body;
    }
  }

  lemma PartsNeeded(ch: u16, body: Bytes, frameMax: nat)
    requires frameMax > OVERHEAD && body != []
    ensures var parts := Chunks(body, frameMax - OVERHEAD); parts != [] && |BodyFrames(ch, parts)| == |parts|
  {
  }

  lemma {:induction false} TakesEmptyBodies(c: Client, ch: u16, n: nat)
    requires !c.failed && ch in c.open && c.open[ch].AwaitBody? && |c.open[ch].body| < c.open[ch].size
    ensures TakeAll(c, EmptyBodies(ch, n)) == c
  {
    if n > 0 {
      var o := c.open[ch];
      assert o.(body := o.body + []) == o && c.open[ch := o] == c.open;
      assert EmptyBodies(ch, n)[1..] == EmptyBodies(ch, n - 1);
      TakesEmptyBodies(c, ch, n - 1);
    }
  }

  /** An item whose body the splitting loop does not get through: its content stays begun. */
  lemma TakesStuck(c: Client, it: Item, frameMax: nat, w: nat)
    requires !c.failed && it.Send? && it.ch !in c.open && w > 0
    requires Sendable(it) && !Ends(it, frameMax) && Reaches(it, frameMax, w)
    ensures After(c, it, frameMax, w, TakeAll(c, FirstFrames(it, frameMax, w)))
  {
    hide HasContent; hide ID; hide TakeAll; hide TakeFrame;
    TakesHeader(c, it.ch, it.m);
    if w == 1 {
      assert Head(it)[..1] == [Head(it)[0]];
    } else {
      assert w == 2 ==> Head(it)[..w] == Head(it);
      assert FirstFrames(it, frameMax, w) == Head(it) + EmptyBodies(it.ch, w - 2);
      TakeConcat(c, Head(it), EmptyBodies(it.ch, w - 2));
      TakesEmptyBodies(HeaderTaken(c, it.ch, it.m), it.ch, w - 2);
    }
  }

  lemma TakesItem(c: Client, it: Item, frameMax: nat, w: nat)
    requires !c.failed && Sendable(it) && Reaches(it, frameMax, w)
    ensures After(c, it, frameMax, w, TakeAll(c, FirstFrames(it, frameMax, w)))
  {
    hide HasContent; hide ID; hide Chunks; hide BodyFrames; hide EmptyBodies;
    var fs := FirstFrames(it, frameMax, w);
    if w > 0 {
      assert fs == [fs[0]] + fs[1..];
      match it {
        case Beat => assert fs[1..] == [];
        case Send(ch, m) =>
          assert fs[0] == MethodFrame(ch, m.kind, m.args);
          if ch in c.open {
            FailedStays(TakeFrame(c, fs[0]), fs[1..]);
          } else if !Ends(it, frameMax) {
            TakesStuck(c, it, frameMax, w);
          } else if HasContent(m.kind) {
            TakesContent(c, ch, m, frameMax, w);
          } else {
            assert fs[1..] == [] && c.open - {ch} == c.open;
          }
      }
    }
  }

  // ---------- all turns ----------

  /** The channels on which a content was begun and cut short. */
  ghost function BrokenOn(turns: seq<Turn>, frameMax: nat): set<u16> {
    set k | 0 <= k < |turns| && Broken(turns[k], frameMax) && turns[k].item.Send? :: turns[k].item.ch
  }

  /** The turn began a content on the channel and was cut short. */
  ghost predicate LeftOpen(t: Turn, frameMax: nat, ch: u16) {
    Broken(t, frameMax) && t.item.Send? && t.item.ch == ch
  }

  /** Turn k put a frame on a channel where an earlier content had been cut short. */
  ghost predicate Clash(turns: seq<Turn>, frameMax: nat, k: nat)
    requires k < |turns|
  {
    && turns[k].item.Send? && turns[k].written > 0
    && exists j :: 0 <= j < k && LeftOpen(turns[j], frameMax, turns[k].item.ch)
  }

  ghost predicate NoClash(turns: seq<Turn>, frameMax: nat) {
    forall k :: 0 <= k < |turns| ==> !Clash(turns, frameMax, k)
  }

  /** The messages of the turns that wrote their whole group. */
  ghost function WholeMessages(turns: seq<Turn>, frameMax: nat): seq<Sent> {
    if turns == [] then []
    else
      var n := |turns| - 1;
      WholeMessages(turns[..n], frameMax) + (if Whole(turns[n], frameMax) then Delivered(turns[n].item) else [])
  }

  lemma ClashPrefix(turns: seq<Turn>, frameMax: nat, n: nat, k: nat)
    requires k < n <= |turns|
    ensures Clash(turns[..n], frameMax, k) <==> Clash(turns, frameMax, k)
  {
    hide Broken;
    assert forall j :: 0 <= j <= k ==> turns[..n][j] == turns[j];
  }

  lemma ClashIffBroken(turns: seq<Turn>, frameMax: nat)
    requires turns != []
    ensures var n := |turns| - 1; var t := turns[n];
      Clash(turns, frameMax, n) <==> t.item.Send? && t.written > 0 && t.item.ch in BrokenOn(turns[..n], frameMax)
    ensures var n := |turns| - 1; var t := turns[n];
      BrokenOn(turns, frameMax)
        == BrokenOn(turns[..n], frameMax) + (if Broken(t, frameMax) && t.item.Send? then {t.item.ch} else {})
  {
    hide Broken;
    var n := |turns| - 1;
    assert forall j :: 0 <= j < n ==> turns[..n][j] == turns[j];
  }

  /** As long as no turn clashes, the client has exactly the messages of the whole turns, and exactly the
      contents cut short are left begun. */
  lemma {:induction false} ReadsTurns(turns: seq<Turn>, frameMax: nat)
    requires TurnsOk(turns, frameMax) && NoClash(turns, frameMax)
    ensures var c := TakeAll(START, Written(turns, frameMax));
      !c.failed && c.got == WholeMessages(turns, frameMax) && c.open.Keys == BrokenOn(turns, frameMax)
  {
    hide FirstFrames; hide Sendable; hide HasNext; hide Complete; hide Clash; hide Delivered;
    if turns != [] {
      var n := |turns| - 1;
      var init, t := turns[..n], turns[n];
      forall k | 0 <= k < n
        ensures !Clash(init, frameMax, k)
      {
        ClashPrefix(turns, frameMax, n, k);
      }
      ReadsTurns(init, frameMax);
      ClashIffBroken(turns, frameMax);
      assert TurnOk(t, frameMax);
      var c := TakeAll(START, Written(init, frameMax));
      TakesItem(c, t.item, frameMax, t.written);
      TakeConcat(START, Written(init, frameMax), FirstFrames(t.item, frameMax, t.written));
      BeatIsSilent(t.item, frameMax, t.written);
    } else {
      assert BrokenOn(turns, frameMax) == {};
    }
  }

  lemma BeatIsSilent(it: Item, frameMax: nat, w: nat)
    requires Sendable(it)
    ensures it.Beat? ==> Delivered(it) == []
    ensures w == 0 ==> !Complete(it, frameMax, w)
  {
  }

  /** A first clash at turn n ends the reading with the messages of the whole turns before it. */
  lemma ReadsToClash(turns: seq<Turn>, frameMax: nat, n: nat)
    requires TurnsOk(turns, frameMax) && n < |turns| && Clash(turns, frameMax, n)
    requires forall k :: 0 <= k < n ==> !Clash(turns, frameMax, k)
    ensures var c := TakeAll(START, Written(turns, frameMax));
      c.failed && c.got == WholeMessages(turns[..n], frameMax)
  {
    hide FirstFrames; hide Sendable; hide HasNext; hide Complete; hide Clash; hide WholeMessages; hide Written;
    var init, upTo := turns[..n], turns[..n + 1];
    forall k | 0 <= k < n
      ensures !Clash(init, frameMax, k)
    {
      ClashPrefix(turns, frameMax, n, k);
    }
    ReadsTurns(init, frameMax);
    ClashPrefix(turns, frameMax, n + 1, n);
    ClashIffBroken(upTo, frameMax);
    assert upTo[..n] == init && TurnOk(turns[n], frameMax);
    var tail := WrittenFrom(turns, frameMax, n + 1);
    WrittenNext(turns, frameMax, n);
    var c := TakeAll(START, Written(init, frameMax));
    var t := turns[n];
    TakesItem(c, t.item, frameMax, t.written);
    TakeConcat(START, Written(init, frameMax), FirstFrames(t.item, frameMax, t.written));
    TakeConcat(START, Written(upTo, frameMax), tail);
    FailedStays(TakeAll(START, Written(upTo, frameMax)), tail);
  }

  lemma WrittenNext(turns: seq<Turn>, frameMax: nat, n: nat)
    requires TurnsOk(turns, frameMax) && n < |turns|
    ensures TurnOk(turns[n], frameMax) && TurnsOk(turns[..n], frameMax) && TurnsOk(turns[..n + 1], frameMax)
    ensures Written(turns[..n + 1], frameMax)
      == Written(turns[..n], frameMax) + FirstFrames(turns[n].item, frameMax, turns[n].written)
  {
    assert turns[..n + 1] == turns[..n] + [turns[n]];
    WrittenSnoc(turns[..n], turns[n], frameMax);
  }

  lemma {:induction false} WrittenFrom(turns: seq<Turn>, frameMax: nat, n: nat) returns (tail: seq<WireFrame>)
    requires TurnsOk(turns, frameMax) && n <= |turns|
    ensures TurnsOk(turns[..n], frameMax)
    ensures Written(turns, frameMax) == Written(turns[..n], frameMax) + tail
    decreases |turns|
  {
    hide FirstFrames; hide Sendable; hide HasNext; hide Complete; hide Written;
    if n == |turns| {
      assert turns[..n] == turns;
      tail := [];
    } else {
      var last := |turns| - 1;
      tail := WrittenFrom(turns[..last], frameMax, n);
      assert turns[..last][..n] == turns[..n] && turns[..last + 1] == turns;
      WrittenNext(turns, frameMax, last);
      tail := tail + FirstFrames(turns[last].item, frameMax, turns[last].written);
    }
  }

  /** Nothing whole from turn n on. */
  ghost predicate NothingWholeFrom(turns: seq<Turn>, frameMax: nat, n: nat) {
    forall k :: n <= k < |turns| && turns[k].item.Send? ==> !Whole(turns[k], frameMax)
  }

  lemma {:induction false} WholeFrom(turns: seq<Turn>, frameMax: nat, n: nat)
    requires n <= |turns|
    ensures WholeMessages(turns[..n], frameMax) <= WholeMessages(turns, frameMax)
    ensures WholeMessages(turns[..n], frameMax) == WholeMessages(turns, frameMax)
      <==> NothingWholeFrom(turns, frameMax, n)
    decreases |turns|
  {
    hide Whole;
    if n == |turns| {
      assert turns[..n] == turns;
    } else {
      var last := |turns| - 1;
      WholeFrom(turns[..last], frameMax, n);
      assert turns[..last][..n] == turns[..n];
      assert forall k :: 0 <= k < last ==> turns[..last][k] == turns[k];
      assert NothingWholeFrom(turns, frameMax, n) <==>
        NothingWholeFrom(turns[..last], frameMax, n) && (turns[last].item.Send? ==> !Whole(turns[last], frameMax));
    }
  }

  /** In every interleaving the client fails exactly when a turn clashed. */
  lemma ClientFailsIff(todo: seq<seq<Item>>, frameMax: nat, steps: seq<Step>)
    requires Exec(todo, frameMax, steps).Some?
    ensures var s := Exec(todo, frameMax, steps).value;
      TakeAll(START, s.out).failed <==> exists k :: 0 <= k < |s.turns| && Clash(s.turns, frameMax, k)
  {
    hide Exec; hide Clash; hide Written; hide TakeAll;
    StreamIsTurns(todo, frameMax, steps);
    var turns := Exec(todo, frameMax, steps).value.turns;
    if NoClash(turns, frameMax) {
      ReadsTurns(turns, frameMax);
    } else {
      ReadsToClash(turns, frameMax, FirstClash(turns, frameMax));
    }
  }

  ghost function FirstClash(turns: seq<Turn>, frameMax: nat): (n: nat)
    requires !NoClash(turns, frameMax)
    ensures n < |turns| && Clash(turns, frameMax, n) && forall k :: 0 <= k < n ==> !Clash(turns, frameMax, k)
  {
    var k :| 0 <= k < |turns| && Clash(turns, frameMax, k);
    FirstClashFrom(turns, frameMax, k)
  }

  ghost function FirstClashFrom(turns: seq<Turn>, frameMax: nat, k: nat): (n: nat)
    requires k < |turns| && Clash(turns, frameMax, k)
    ensures n < |turns| && Clash(turns, frameMax, n) && forall j :: 0 <= j < n ==> !Clash(turns, frameMax, j)
    decreases k
  {
    if j :| 0 <= j < k && Clash(turns, frameMax, j) then FirstClashFrom(turns, frameMax, j) else k
  }

  /** In every interleaving the client gets everything the whole turns sent, in the order of the lock, if
      and only if no whole turn came at or after the first one that clashed. What a client misses is never
      anything else: before that turn it gets it all. */
  lemma ClientMissesNothingIff(todo: seq<seq<Item>>, frameMax: nat, steps: seq<Step>)
    requires Exec(todo, frameMax, steps).Some?
    ensures var s := Exec(todo, frameMax, steps).value; var got := TakeAll(START, s.out).got;
      && got <= WholeMessages(s.turns, frameMax)
      && (got == WholeMessages(s.turns, frameMax) <==>
          forall n :: 0 <= n < |s.turns| && Clash(s.turns, frameMax, n) ==> NothingWholeFrom(s.turns, frameMax, n))
  {
    hide Exec; hide Clash; hide Written; hide TakeAll; hide WholeMessages; hide NothingWholeFrom;
    StreamIsTurns(todo, frameMax, steps);
    var turns := Exec(todo, frameMax, steps).value.turns;
    if NoClash(turns, frameMax) {
      ReadsTurns(turns, frameMax);
    } else {
      var n := FirstClash(turns, frameMax);
      ReadsToClash(turns, frameMax, n);
      WholeFrom(turns, frameMax, n);
      forall k | n <= k < |turns| && NothingWholeFrom(turns, frameMax, n)
        ensures NothingWholeFrom(turns, frameMax, k)
      {
        NothingWholeLater(turns, frameMax, n, k);
      }
    }
  }

  lemma NothingWholeLater(turns: seq<Turn>, frameMax: nat, n: nat, k: nat)
    requires n <= k && NothingWholeFrom(turns, frameMax, n)
    ensures NothingWholeFrom(turns, frameMax, k)
  {
  }

  /** In every interleaving without a cut the client gets everything sent by whole turns, at any time. */
  lemma ClientReadsWhatWasSent(todo: seq<seq<Item>>, frameMax: nat, steps: seq<Step>)
    requires Exec(todo, frameMax, steps).Some? && NoCuts(steps)
    ensures var s := Exec(todo, frameMax, steps).value; var c := TakeAll(START, s.out);
      && !c.failed && c.got == WholeMessages(s.turns, frameMax)
      && forall k :: 0 <= k < |s.turns| - (if s.locked then 1 else 0) ==> Whole(s.turns[k], frameMax)
  {
    hide Exec; hide Written; hide TakeAll; hide FirstFrames;
    TurnsWhole(todo, frameMax, steps);
    StreamIsTurns(todo, frameMax, steps);
    ReadsTurns(Exec(todo, frameMax, steps).value.turns, frameMax);
  }
}
