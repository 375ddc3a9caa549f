/** Channels opened and closed on several upstreams at once, and the dispatch loop that keeps their
    channel maps in step. What a connection or a channel answers is an input. */
module Channels {
  import opened Octets
  import opened Wrappers
  import D = Deliveries

  type Id = u16
  type Handle = nat                    // an upstream channel
  type ChannelMap = map<Id, Handle>

  // ---------- one upstream ----------

  /** Upstream.NewChannel on its map: fails on a known id, or when the connection gives no channel. */
  function NewOn(m: ChannelMap, id: Id, conn: Option<Handle>): (ChannelMap, bool) {
    if id in m || conn == None then (m, false) else (m[id := conn.value], true)
  }

  /** Upstream.CloseChannel on its map: an unknown id is no error, a channel that fails to close stays. */
  function CloseOn(m: ChannelMap, id: Id, closes: bool): (ChannelMap, bool) {
    if id in m && !closes then (m, false) else (m - {id}, true)
  }

  class Upstream {
    var channel: ChannelMap

    constructor ()
      ensures channel == map[]
    {
      channel := map[];
    }

    method NewChannel(id: Id, conn: Option<Handle>) returns (ok: bool)
      modifies this
      ensures (channel, ok) == NewOn(old(channel), id, conn)
    {
      if id in channel {
        return false;
      }
      match conn {
        case None => return false;
        case Some(ch) => channel := channel[id := ch];
      }
      return true;
    }

    method GetChannel(id: Id) returns (ch: Option<Handle>)
      ensures ch == if id in channel then Some(channel[id]) else None
    {
      ch := if id in channel then Some(channel[id]) else None;
    }

    method CloseChannel(id: Id, closes: bool) returns (ok: bool)
      modifies this
      ensures (channel, ok) == CloseOn(old(channel), id, closes)
    {
      if id in channel && !closes {
        return false;
      }
      channel := channel - {id};
      return true;
    }
  }

  // ---------- all upstreams ----------

  /** The upstreams' channel maps and the channels that have a confirm state. */
  datatype State = State(maps: seq<ChannelMap>, confirms: set<Id>)

  function NewFrom(maps: seq<ChannelMap>, id: Id, conns: seq<Option<Handle>>, i: nat): (seq<ChannelMap>, bool)
    requires |conns| == |maps| && i <= |maps|
    decreases |maps| - i
  {
    if i == |maps| then (maps, true)
    else
      var (m, ok) := NewOn(maps[i], id, conns[i]);
      if ok then NewFrom(maps[i := m], id, conns, i + 1) else (maps, false)
  }

  function CloseFrom(maps: seq<ChannelMap>, id: Id, closes: seq<bool>, i: nat): (seq<ChannelMap>, bool)
    requires |closes| == |maps| && i <= |maps|
    decreases |maps| - i
  {
    if i == |maps| then (maps, true)
    else
      var (m, ok) := CloseOn(maps[i], id, closes[i]);
      if ok then CloseFrom(maps[i := m], id, closes, i + 1) else (maps, false)
  }

  /** How a frame's handler ended: an AMQP error is answered with Connection.Close and the loop goes on,
      any other error ends the connection. */
  datatype Outcome = Done | AmqpError | Fatal

  /** A client method and what the environment answers: one channel or failure per upstream, whether each
      channel closes or accepts confirm mode, and whether the reply can be written. Other stands for every
      method that touches no channel map, with its outcome. */
  datatype Command =
    | Open(id: Id, conns: seq<Option<Handle>>, sent: bool)
    | Close(id: Id, closes: seq<bool>, sent: bool)
    | ConfirmSelect(id: Id, accepts: seq<bool>, nowait: bool, sent: bool)
    | Other(outcome: Outcome)

  predicate Answers(c: Command, n: nat) {
    match c
    case Open(_, conns, _) => |conns| == n
    case Close(_, closes, _) => |closes| == n
    case ConfirmSelect(_, accepts, _, _) => |accepts| == n
    case Other(_) => true
  }

  predicate OnAll(maps: seq<ChannelMap>, id: Id) {
    forall i :: 0 <= i < |maps| ==> id in maps[i]
  }

  /** The channel a delivery tag is settled on. */
  function ChannelByTag(maps: seq<ChannelMap>, id: Id, tag: u64): Option<Handle>
    requires maps != []
  {
    if !OnAll(maps, id) then None
    else
      match D.ChannelFor(|maps|, |maps|, tag)
      case None => None
      case Some(i) => Some(maps[i][id])
  }

  function Handled(s: State, c: Command): (State, Outcome)
    requires Answers(c, |s.maps|)
  {
    match c
    case Open(id, conns, sent) =>
      var (maps, ok) := NewFrom(s.maps, id, conns, 0);
      (s.(maps := maps), if ok && sent then Done else Fatal)
    case Close(id, closes, sent) =>
      var (maps, ok) := CloseFrom(s.maps, id, closes, 0);
      (State(maps, s.confirms - {id}), if ok && sent then Done else Fatal)
    case ConfirmSelect(id, accepts, nowait, sent) =>
      if !OnAll(s.maps, id) then (s, Fatal)
      else if false in accepts then (s, AmqpError)
      else (s.(confirms := s.confirms + {id}), if nowait || sent then Done else Fatal)
    case Other(outcome) => (s, outcome)
  }

  /** The proxy's fields the dispatch loop works on. */
  class Proxy {
    const upstreams: seq<Upstream>
    var confirmStates: set<Id>

    ghost predicate Valid()
      reads this
    {
      |upstreams| > 0 && forall i, j :: 0 <= i < j < |upstreams| ==> upstreams[i] != upstreams[j]
    }

    ghost function Contents(): (s: State)
      reads this, upstreams
      ensures |s.maps| == |upstreams|
    {
      State(seq(|upstreams|, i requires 0 <= i < |upstreams| reads upstreams => upstreams[i].channel), confirmStates)
    }

    constructor (upstreams: seq<Upstream>)
      requires |upstreams| > 0 && forall i, j :: 0 <= i < j < |upstreams| ==> upstreams[i] != upstreams[j]
      ensures Valid() && this.upstreams == upstreams && confirmStates == {}
    {
      this.upstreams := upstreams;
      confirmStates := {};
    }

    /** Opens the channel on each upstream in turn and stops at the first failure. */
    method NewChannel(id: Id, conns: seq<Option<Handle>>) returns (ok: bool)
      requires Valid() && |conns| == |upstreams|
      modifies upstreams
      ensures Valid()
      ensures (Contents().maps, ok) == NewFrom(old(Contents().maps), id, conns, 0)
    {
      ghost var maps := Contents().maps;
      for i := 0 to |upstreams|
        invariant Valid() && NewFrom(Contents().maps, id, conns, i) == NewFrom(maps, id, conns, 0)
      {
        ghost var before := Contents().maps;
        ok := upstreams[i].NewChannel(id, conns[i]);
        assert Contents().maps == before[i := upstreams[i].channel];
        if !ok {
          assert Contents().maps == before;
          return;
        }
      }
      ok := true;
    }

    method CloseChannel(id: Id, closes: seq<bool>) returns (ok: bool)
      requires Valid() && |closes| == |upstreams|
      modifies upstreams
      ensures Valid()
      ensures (Contents().maps, ok) == CloseFrom(old(Contents().maps), id, closes, 0)
    {
      ghost var maps := Contents().maps;
      for i := 0 to |upstreams|
        invariant Valid() && CloseFrom(Contents().maps, id, closes, i) == CloseFrom(maps, id, closes, 0)
      {
        ghost var before := Contents().maps;
        ok := upstreams[i].CloseChannel(id, closes[i]);
        assert Contents().maps == before[i := upstreams[i].channel];
        if !ok {
          assert Contents().maps == before;
          return;
        }
      }
      ok := true;
    }

    /** The channel of every upstream for one id, or nothing when some upstream has none. */
    method GetChannels(id: Id) returns (chs: Option<seq<Handle>>)
      requires Valid()
      ensures chs.Some? <==> OnAll(Contents().maps, id)
      ensures chs.Some? ==>
        |chs.value| == |upstreams| && forall i :: 0 <= i < |upstreams| ==> chs.value[i] == Contents().maps[i][id]
    {
      var got: seq<Handle> := [];
      for i := 0 to |upstreams|
        invariant |got| == i
        invariant forall j :: 0 <= j < i ==> id in Contents().maps[j] && got[j] == Contents().maps[j][id]
      {
        var ch := upstreams[i].GetChannel(id);
        match ch {
          case None =>
            assert id !in Contents().maps[i];
            return None;
          case Some(h) => got := got + [h];
        }
      }
      return Some(got);
    }

    /** GetChannelByDeliveryTag. */
    method GetChannelByDeliveryTag(id: Id, tag: u64) returns (ch: Option<Handle>)
      requires Valid()
      ensures ch == ChannelByTag(Contents().maps, id, tag)
    {
      var chs := GetChannels(id);
      if chs == None {
        return None;
      }
      var (_, index) := D.RestoreDeliveryTag(tag, |upstreams|);
      if |chs.value| <= index {
        return None;
      }
      return Some(chs.value[index]);
    }

    /** dispatchN and the handlers that touch the channel maps. */
    method Handle(c: Command) returns (outcome: Outcome)
      requires Valid() && Answers(c, |upstreams|)
      modifies this`confirmStates, upstreams
      ensures Valid()
      ensures (Contents(), outcome) == Handled(old(Contents()), c)
    {
      match c {
        case Open(id, conns, sent) =>
          var ok := NewChannel(id, conns);
          outcome := if ok && sent then Done else Fatal;
        case Close(id, closes, sent) =>
          confirmStates := confirmStates - {id};
          assert Contents().maps == old(Contents().maps);
          var ok := CloseChannel(id, closes);
          outcome := if ok && sent then Done else Fatal;
        case ConfirmSelect(id, accepts, nowait, sent) =>
          var chs := GetChannels(id);
          if chs == None {
            return Fatal;
          }
          for i := 0 to |accepts|
            invariant false !in accepts[..i]
          {
            if !accepts[i] {
              return AmqpError;
            }
          }
          assert accepts[..|accepts|] == accepts;
          confirmStates := confirmStates + {id};
          assert Contents().maps == old(Contents().maps);
          outcome := if nowait || sent then Done else Fatal;
        case Other(o) => outcome := o;
      }
    }

    /** The dispatch loop: commands are handled until one ends the connection. closing says for each
        command whether a Connection.Close answering an AMQP error could be written. */
    method Run(commands: seq<Command>, closing: seq<bool>) returns (handled: nat, alive: bool)
      requires Valid() && |closing| == |commands|
      requires forall i :: 0 <= i < |commands| ==> Answers(commands[i], |upstreams|)
      modifies this`confirmStates, upstreams
      ensures Valid() && handled <= |commands|
      ensures alive ==> handled == |commands|
      ensures Loop(old(Contents()), commands[..handled], closing[..handled]) == (Contents(), alive)
    {
      alive, handled := true, 0;
      while alive && handled < |commands|
        invariant Valid() && handled <= |commands|
        invariant Loop(old(Contents()), commands[..handled], closing[..handled]) == (Contents(), alive)
      {
        ghost var before := Contents();
        var outcome := Handle(commands[handled]);
        alive := outcome == Done || (outcome == AmqpError && closing[handled]);
        handled := handled + 1;
        assert commands[..handled][..handled - 1] == commands[..handled - 1];
        assert closing[..handled][..handled - 1] == closing[..handled - 1];
      }
    }
  }

  /** The state after the commands, and whether the connection is still alive at the loop's head. */
  function Loop(s: State, commands: seq<Command>, closing: seq<bool>): (State, bool)
    requires |closing| == |commands|
  {
    if commands == [] then (s, true)
    else
      var k := |commands| - 1;
      var (before, alive) := Loop(s, commands[..k], closing[..k]);
      if !alive || !Answers(commands[k], |before.maps|) then (before, false)
      else
        var (after, outcome) := Handled(before, commands[k]);
        (after, outcome == Done || (outcome == AmqpError && closing[k]))
  }

  // ---------- lockstep ----------

  /** The channels the client opened and did not close. */
  function ClientOpen(commands: seq<Command>): set<Id> {
    if commands == [] then {}
    else
      var before := ClientOpen(commands[..|commands| - 1]);
      match commands[|commands| - 1]
      case Open(id, _, _) => before + {id}
      case Close(id, _, _) => before - {id}
      case _ => before
  }

  ghost predicate Lockstep(maps: seq<ChannelMap>, open: set<Id>) {
    forall i :: 0 <= i < |maps| ==> maps[i].Keys == open
  }

  ghost predicate Agree(maps: seq<ChannelMap>) {
    forall i, j :: 0 <= i < j < |maps| ==> maps[i].Keys == maps[j].Keys
  }

  /** Opening on all upstreams succeeds only for an id unknown to all of them, and adds it to each; otherwise it
      stops at the first one that fails. */
  lemma {:induction false} NewFromAll(maps: seq<ChannelMap>, id: Id, conns: seq<Option<Handle>>, i: nat)
    requires |conns| == |maps| && i <= |maps|
    ensures var (maps', ok) := NewFrom(maps, id, conns, i);
      && |maps'| == |maps|
      && (ok <==> forall j :: i <= j < |maps| ==> id !in maps[j] && conns[j].Some?)
      && (ok ==> forall j :: 0 <= j < |maps| ==>
        maps'[j] == if j < i then maps[j] else maps[j][id := conns[j].value])
      && (!ok ==> exists k :: NewStopsAt(maps, id, conns, i, k, maps'))
    decreases |maps| - i
  {
    if i < |maps| {
      var (m, ok) := NewOn(maps[i], id, conns[i]);
      if ok {
        NewFromAll(maps[i := m], id, conns, i + 1);
        assert forall j :: i < j < |maps| ==> maps[i := m][j] == maps[j];
        var (maps', ok') := NewFrom(maps, id, conns, i);
        if !ok' {
          var k :| NewStopsAt(maps[i := m], id, conns, i + 1, k, maps');
          assert NewStopsAt(maps, id, conns, i, k, maps');
        }
      } else {
        assert !(id !in maps[i] && conns[i].Some?);
        assert NewStopsAt(maps, id, conns, i, i, maps);
      }
    }
  }

  /** Upstream k is the first that knows the id or gives no channel; those before it have gained theirs. */
  ghost predicate NewStopsAt(maps: seq<ChannelMap>, id: Id, conns: seq<Option<Handle>>, i: nat, k: int,
                             after: seq<ChannelMap>)
    requires |conns| == |maps|
  {
    && i <= k < |maps| == |after| && (id in maps[k] || conns[k] == None)
    && (forall j :: i <= j < k ==> id !in maps[j] && conns[j].Some?)
    && (forall j :: 0 <= j < |maps| ==> after[j] == if i <= j < k then maps[j][id := conns[j].value] else maps[j])
  }

  /** Upstream k is the first whose channel does not close, which keeps it; those before it have lost theirs. */
  ghost predicate CloseStopsAt(maps: seq<ChannelMap>, id: Id, closes: seq<bool>, i: nat, k: int,
                               after: seq<ChannelMap>)
    requires |closes| == |maps|
  {
    && i <= k < |maps| == |after| && id in maps[k] && !closes[k]
    && (forall j :: i <= j < k ==> (id in maps[j] ==> closes[j]))
    && (forall j :: 0 <= j < |maps| ==> after[j] == if i <= j < k then maps[j] - {id} else maps[j])
  }

  /** Closing on all upstreams removes the id from each, and leaves the other ids alone; it stops at the first
      channel that does not close. */
  lemma {:induction false} CloseFromAll(maps: seq<ChannelMap>, id: Id, closes: seq<bool>, i: nat)
    requires |closes| == |maps| && i <= |maps|
    ensures var (maps', ok) := CloseFrom(maps, id, closes, i);
      && |maps'| == |maps|
      && (ok <==> forall j :: i <= j < |maps| ==> id in maps[j] ==> closes[j])
      && (ok ==> forall j :: 0 <= j < |maps| ==> maps'[j] == if j < i then maps[j] else maps[j] - {id})
      && (!ok ==> exists k :: CloseStopsAt(maps, id, closes, i, k, maps'))
    decreases |maps| - i
  {
    if i < |maps| {
      var (m, ok) := CloseOn(maps[i], id, closes[i]);
      if ok {
        CloseFromAll(maps[i := m], id, closes, i + 1);
        var (maps', ok') := CloseFrom(maps, id, closes, i);
        if !ok' {
          var k :| CloseStopsAt(maps[i := m], id, closes, i + 1, k, maps');
          assert CloseStopsAt(maps, id, closes, i, k, maps');
        }
      } else {
        assert CloseStopsAt(maps, id, closes, i, i, maps);
      }
    }
  }

  lemma HandledLockstep(s: State, open: set<Id>, c: Command)
    requires |s.maps| > 0 && Answers(c, |s.maps|) && Lockstep(s.maps, open) && s.confirms <= open
    requires Handled(s, c).1 != Fatal
    ensures var s' := Handled(s, c).0;
      var open' := match c case Open(id, _, _) => open + {id} case Close(id, _, _) => open - {id} case _ => open;
      |s'.maps| == |s.maps| && Lockstep(s'.maps, open') && s'.confirms <= open'
  {
    match c {
      case Open(id, conns, _) => NewFromAll(s.maps, id, conns, 0);
      case Close(id, closes, _) => CloseFromAll(s.maps, id, closes, 0);
      case ConfirmSelect(id, _, _, _) =>
        if OnAll(s.maps, id) {
          assert id in s.maps[0].Keys;
        }
      case Other(_) =>
    }
  }

  /** Whenever the loop is about to read the next frame, all upstreams have channels for the same ids,
      those the client opened and did not close, and only these can have a confirm state. */
  lemma {:induction false} LockstepAtLoopHead(n: nat, commands: seq<Command>, closing: seq<bool>)
    requires n > 0 && |closing| == |commands|
    requires Loop(State(seq(n, i => map[]), {}), commands, closing).1
    ensures var s := Loop(State(seq(n, i => map[]), {}), commands, closing).0;
      |s.maps| == n && Lockstep(s.maps, ClientOpen(commands)) && s.confirms <= ClientOpen(commands)
  {
    if commands == [] {
    } else {
      var k := |commands| - 1;
      LockstepAtLoopHead(n, commands[..k], closing[..k]);
      var s := Loop(State(seq(n, i => map[]), {}), commands[..k], closing[..k]).0;
      HandledLockstep(s, ClientOpen(commands[..k]), commands[k]);
    }
  }

  /** Some Confirm.Select of the id was accepted by all upstreams, and no Channel.Close of it came after. */
  ghost predicate InConfirmMode(commands: seq<Command>, id: Id) {
    exists k :: 0 <= k < |commands| && Selects(commands[k], id)
      && forall j :: k < j < |commands| ==> !Closes(commands[j], id)
  }

  predicate Selects(c: Command, id: Id) {
    c.ConfirmSelect? && c.id == id && false !in c.accepts
  }

  predicate Closes(c: Command, id: Id) {
    c.Close? && c.id == id
  }

  lemma InConfirmModeSnoc(commands: seq<Command>, id: Id)
    requires commands != []
    ensures var k := |commands| - 1;
      InConfirmMode(commands, id) <==>
        Selects(commands[k], id) || (InConfirmMode(commands[..k], id) && !Closes(commands[k], id))
  {
    var k, init := |commands| - 1, commands[..|commands| - 1];
    assert forall i :: 0 <= i < k ==> init[i] == commands[i];
    if InConfirmMode(commands, id) && !Selects(commands[k], id) {
      var i :| 0 <= i < |commands| && Selects(commands[i], id)
        && forall j :: i < j < |commands| ==> !Closes(commands[j], id);
      assert i < k && Selects(init[i], id);
    }
    if InConfirmMode(init, id) && !Closes(commands[k], id) {
      var i :| 0 <= i < |init| && Selects(init[i], id) && forall j :: i < j < |init| ==> !Closes(init[j], id);
      assert Selects(commands[i], id);
    }
  }

  /** Whenever the loop goes on, exactly the channels with an accepted Confirm.Select and no close after it
      have a confirm state. */
  lemma {:induction false} ConfirmsAtLoopHead(n: nat, commands: seq<Command>, closing: seq<bool>, id: Id)
    requires n > 0 && |closing| == |commands|
    requires Loop(State(seq(n, i => map[]), {}), commands, closing).1
    ensures id in Loop(State(seq(n, i => map[]), {}), commands, closing).0.confirms <==> InConfirmMode(commands, id)
  {
    hide InConfirmMode; hide NewFrom; hide CloseFrom;
    if commands == [] {
      NoneInConfirmMode(id);
    } else {
      var k := |commands| - 1;
      ConfirmsAtLoopHead(n, commands[..k], closing[..k], id);
      InConfirmModeSnoc(commands, id);
    }
  }

  lemma NoneInConfirmMode(id: Id)
    ensures !InConfirmMode([], id)
  {
  }

  /** Exactly when a command succeeds, in terms of the channels the client has open and of what the
      environment answers. */
  ghost predicate Succeeds(open: set<Id>, c: Command) {
    match c
    case Open(id, conns, sent) => id !in open && (forall j :: 0 <= j < |conns| ==> conns[j].Some?) && sent
    case Close(id, closes, sent) => (id in open ==> false !in closes) && sent
    case ConfirmSelect(id, accepts, nowait, sent) => id in open && false !in accepts && (nowait || sent)
    case Other(outcome) => outcome == Done
  }

  lemma HandledIff(s: State, open: set<Id>, c: Command)
    requires |s.maps| > 0 && Answers(c, |s.maps|) && Lockstep(s.maps, open)
    ensures Handled(s, c).1 == Done <==> Succeeds(open, c)
    ensures Handled(s, c).1 == AmqpError <==>
      (c.ConfirmSelect? && c.id in open && false in c.accepts) || (c.Other? && c.outcome == AmqpError)
  {
    assert s.maps[0].Keys == open;
    match c {
      case Open(id, conns, _) => NewFromAll(s.maps, id, conns, 0);
      case Close(id, closes, _) =>
        CloseFromAll(s.maps, id, closes, 0);
        if id in open && false in closes {
          var j :| 0 <= j < |closes| && !closes[j];
          assert id in s.maps[j];
        }
      case ConfirmSelect(id, _, _, _) => assert OnAll(s.maps, id) <==> id in open;
      case Other(_) =>
    }
  }

  /** A loop that goes on handles one more command and goes on if and only if the command succeeds, or fails
      with an AMQP error whose answer can be written. */
  lemma LoopGoesOnIff(n: nat, commands: seq<Command>, closing: seq<bool>, c: Command, answered: bool)
    requires n > 0 && |closing| == |commands| && Answers(c, n)
    requires Loop(State(seq(n, i => map[]), {}), commands, closing).1
    ensures var open := ClientOpen(commands);
      Loop(State(seq(n, i => map[]), {}), commands + [c], closing + [answered]).1 <==>
        || Succeeds(open, c)
        || (answered && c.ConfirmSelect? && c.id in open && false in c.accepts)
        || (answered && c.Other? && c.outcome == AmqpError)
  {
    LockstepAtLoopHead(n, commands, closing);
    assert (commands + [c])[..|commands|] == commands && (closing + [answered])[..|commands|] == closing;
    HandledIff(Loop(State(seq(n, i => map[]), {}), commands, closing).0, ClientOpen(commands), c);
  }

  /** The channels the upstreams gave for the last Open of the id. */
  function OpenedAs(commands: seq<Command>, id: Id): seq<Option<Handle>> {
    if commands == [] then []
    else
      var k := |commands| - 1;
      if commands[k].Open? && commands[k].id == id then commands[k].conns else OpenedAs(commands[..k], id)
  }

  /** Each upstream's map has the channel that upstream gave. */
  ghost predicate Holds(maps: seq<ChannelMap>, id: Id, conns: seq<Option<Handle>>) {
    |conns| == |maps| && forall i :: 0 <= i < |maps| ==> id in maps[i] && conns[i] == Some(maps[i][id])
  }

  /** Whenever the loop goes on, an open id stands on every upstream for the channel its last Open got there. */
  lemma {:induction false} HoldsAtLoopHead(n: nat, commands: seq<Command>, closing: seq<bool>, id: Id)
    requires n > 0 && |closing| == |commands| && id in ClientOpen(commands)
    requires Loop(State(seq(n, i => map[]), {}), commands, closing).1
    ensures Holds(Loop(State(seq(n, i => map[]), {}), commands, closing).0.maps, id, OpenedAs(commands, id))
  {
    hide NewFrom; hide CloseFrom;
    if commands != [] {
      var k := |commands| - 1;
      var s := Loop(State(seq(n, i => map[]), {}), commands[..k], closing[..k]).0;
      LockstepAtLoopHead(n, commands[..k], closing[..k]);
      if id in ClientOpen(commands[..k]) {
        HoldsAtLoopHead(n, commands[..k], closing[..k], id);
      }
      match commands[k] {
        case Open(_, conns, _) => NewFromAll(s.maps, commands[k].id, conns, 0);
        case Close(_, closes, _) => CloseFromAll(s.maps, commands[k].id, closes, 0);
        case _ =>
      }
    }
  }

  /** Whenever the loop goes on, settling on a channel finds an upstream channel if and only if the client has
      it open, and then it is the one its last Open got from the upstream that delivered the tag. */
  lemma ChannelFoundIff(n: nat, commands: seq<Command>, closing: seq<bool>, id: Id, tag: u64)
    requires n > 0 && |closing| == |commands|
    requires Loop(State(seq(n, i => map[]), {}), commands, closing).1
    ensures var s := Loop(State(seq(n, i => map[]), {}), commands, closing).0;
      && |s.maps| == n
      && if id in ClientOpen(commands) then
           var conns := OpenedAs(commands, id);
           |conns| == n && conns[tag % n].Some? && ChannelByTag(s.maps, id, tag) == conns[tag % n]
         else ChannelByTag(s.maps, id, tag) == None
  {
    hide Loop; hide OpenedAs;
    LockstepAtLoopHead(n, commands, closing);
    D.ChannelAlwaysFound(n, tag);
    var s := Loop(State(seq(n, i => map[]), {}), commands, closing).0;
    assert s.maps[0].Keys == ClientOpen(commands) && s.maps[tag % n].Keys == ClientOpen(commands);
    if id in ClientOpen(commands) {
      HoldsAtLoopHead(n, commands, closing, id);
    }
  }

  /** An open or close that succeeded on some upstreams only is a fatal error: the loop does not go on
      with maps that differ. */
  lemma PartialIsFatal(s: State, open: set<Id>, c: Command)
    requires Answers(c, |s.maps|) && (c.Open? || c.Close?)
    requires Lockstep(s.maps, open)
    requires !Agree(Handled(s, c).0.maps)
    ensures Handled(s, c).1 == Fatal
  {
    match c {
      case Open(id, conns, _) => NewFromAll(s.maps, id, conns, 0);
      case Close(id, closes, _) => CloseFromAll(s.maps, id, closes, 0);
    }
  }

  /** Opening an id twice, or selecting confirms on an id not open, ends the connection. */
  lemma MisuseIsFatal(s: State, open: set<Id>, c: Command)
    requires |s.maps| > 0 && Answers(c, |s.maps|) && Lockstep(s.maps, open)
    ensures c.Open? && c.id in open ==> Handled(s, c).1 == Fatal && Handled(s, c).0 == s
    ensures c.ConfirmSelect? && c.id !in open ==> Handled(s, c).1 == Fatal && Handled(s, c).0 == s
  {
    assert s.maps[0].Keys == open;
    if c.Open? && c.id in open {
      assert NewFrom(s.maps, c.id, c.conns, 0) == (s.maps, false);
    }
  }
}
