/** The one writer to the client shared by many goroutines: the dispatch loop, the consumers, the confirm
    listeners and the heartbeat. Each writes a whole group of frames between locking and unlocking.

    Any goroutine can take any of its steps at any time; only locking waits for the lock. A group can be
    cut short: a frame that cannot be encoded, a failed write or a panic in the splitting loop makes send
    return, and unlock, after the frames before it. Under a frame size of exactly the overhead of a body frame
    a group with a body has no end. */
module SharedWriter {
  import opened Octets
  import opened Wrappers
  import opened Frames
  import opened Content

  /** What a goroutine writes under one lock: a message on a channel, or a heartbeat. */
  datatype Item = Send(ch: u16, m: Message) | Beat

  /** A body's length is a Go int. */
  predicate Sendable(it: Item) {
    it.Send? ==> |it.m.body| < TWO63
  }

  /** The splitting loop gets through the item's body. */
  predicate Ends(it: Item, frameMax: nat) {
    it.Send? ==> !Stuck(it.m, frameMax)
  }

  function FramesOf(it: Item, frameMax: nat): seq<WireFrame>
    requires Sendable(it) && Ends(it, frameMax)
  {
    match it
    case Send(ch, m) => Group(ch, m, frameMax)
    case Beat => [HeartbeatFrame(0)]
  }

  /** The method and the header of a message whose body the splitting loop does not get through. */
  function Head(it: Item): seq<WireFrame>
    requires Sendable(it) && it.Send?
  {
    [MethodFrame(it.ch, it.m.kind, it.m.args), HeaderOf(it.ch, it.m)]
  }

  /** After w frames of an item there is another one. */
  predicate HasNext(it: Item, frameMax: nat, w: nat)
    requires Sendable(it)
  {
    if Ends(it, frameMax) then w < |FramesOf(it, frameMax)| else w < 2 || frameMax == OVERHEAD
  }

  /** All frames of the item are among the first w. */
  predicate Complete(it: Item, frameMax: nat, w: nat)
    requires Sendable(it)
  {
    Ends(it, frameMax) && w == |FramesOf(it, frameMax)|
  }

  /** w frames of the item can be written. */
  predicate Reaches(it: Item, frameMax: nat, w: nat)
    requires Sendable(it)
  {
    w > 0 ==> HasNext(it, frameMax, w - 1)
  }

  /** The first w frames of an item. */
  function FirstFrames(it: Item, frameMax: nat, w: nat): (fs: seq<WireFrame>)
    requires Sendable(it) && Reaches(it, frameMax, w)
    ensures |fs| == w
  {
    if Ends(it, frameMax) then FramesOf(it, frameMax)[..w]
    else if w <= 2 then Head(it)[..w]
    else Head(it) + EmptyBodies(it.ch, w - 2)
  }

  function NextFrame(it: Item, frameMax: nat, w: nat): WireFrame
    requires Sendable(it) && HasNext(it, frameMax, w)
  {
    FirstFrames(it, frameMax, w + 1)[w]
  }

  lemma OneFrameMore(it: Item, frameMax: nat, w: nat)
    requires Sendable(it) && HasNext(it, frameMax, w) && Reaches(it, frameMax, w)
    ensures FirstFrames(it, frameMax, w + 1) == FirstFrames(it, frameMax, w) + [NextFrame(it, frameMax, w)]
  {
    hide FramesOf; hide Stuck; hide HeaderOf;
    if Ends(it, frameMax) {
      var fs := FramesOf(it, frameMax);
      assert fs[..w + 1] == fs[..w] + [fs[w]];
    } else if w < 2 {
      assert Head(it)[..w + 1] == Head(it)[..w] + [Head(it)[w]];
    } else {
      var n := w - 2;
      assert EmptyBodies(it.ch, n + 1) == EmptyBodies(it.ch, n) + [BodyFrame(it.ch, [])];
      assert w == 2 ==> Head(it)[..w] == Head(it) && EmptyBodies(it.ch, n) == [];
      assert FirstFrames(it, frameMax, w) == Head(it) + EmptyBodies(it.ch, n);
    }
  }

  /** What a stuck item writes behind its header is what the splitting loop writes. */
  lemma StuckIsLoop(it: Item, frameMax: nat, w: nat)
    requires Sendable(it) && !Ends(it, frameMax) && w >= 2 && Reaches(it, frameMax, w)
    ensures FirstFrames(it, frameMax, w) == Head(it) + RoundFrames(it.ch, it.m.body, frameMax, w - 2)
  {
    StuckRounds(it.ch, it.m.body, frameMax, w - 2);
  }

  /** Where a goroutine is: outside the lock, or writing an item of which some frames are out. turn is
      history, the place of this item among all that were begun. */
  datatype Place = Idle | Writing(item: Item, written: nat, turn: nat)

  /** History: an item that was begun, by which goroutine, and how many of its frames were written. */
  datatype Turn = Turn(who: nat, item: Item, written: nat)

  /** out is the stream of frames; todo what each goroutine still has to write; places where each is. The
      lock does not know its owner. */
  datatype State = State(out: seq<WireFrame>, todo: seq<seq<Item>>, places: seq<Place>, locked: bool, turns: seq<Turn>)

  datatype Step =
    | Lock(who: nat)      // the lock is free: take it, and the next item
    | Write(who: nat)     // write the item's next frame
    | Cut(who: nat)       // send fails or panics before its last frame: unlock
    | Unlock(who: nat)    // all frames are written: unlock

  function Init(todo: seq<seq<Item>>): State {
    State([], todo, seq(|todo|, i => Idle), false, [])
  }

  predicate Enabled(s: State, frameMax: nat, step: Step) {
    match step
    case Lock(g) =>
      && g < |s.places| == |s.todo| && s.places[g].Idle? && !s.locked
      && s.todo[g] != [] && Sendable(s.todo[g][0])
    case Write(g) =>
      g < |s.places| && InGroup(s.places[g]) && HasNext(s.places[g].item, frameMax, s.places[g].written)
    case Cut(g) =>
      g < |s.places| && InGroup(s.places[g]) && !Complete(s.places[g].item, frameMax, s.places[g].written)
    case Unlock(g) =>
      g < |s.places| && InGroup(s.places[g]) && Complete(s.places[g].item, frameMax, s.places[g].written)
  }

  predicate InGroup(p: Place) {
    p.Writing? && Sendable(p.item)
  }

  function Apply(s: State, frameMax: nat, step: Step): State
    requires Enabled(s, frameMax, step)
  {
    match step
    case Lock(g) =>
      var it := s.todo[g][0];
      State(s.out, s.todo[g := s.todo[g][1..]], s.places[g := Writing(it, 0, |s.turns|)], true,
            s.turns + [Turn(g, it, 0)])
    case Write(g) =>
      var p := s.places[g];
      s.(out := s.out + [NextFrame(p.item, frameMax, p.written)],
         places := s.places[g := p.(written := p.written + 1)],
         turns := OneMore(s.turns, p.turn))
    case Cut(g) => s.(places := s.places[g := Idle], locked := false)
    case Unlock(g) => s.(places := s.places[g := Idle], locked := false)
  }

  function OneMore(turns: seq<Turn>, k: nat): seq<Turn> {
    if k < |turns| then turns[k := turns[k].(written := turns[k].written + 1)] else turns
  }

  function Exec(todo: seq<seq<Item>>, frameMax: nat, steps: seq<Step>): Option<State> {
    if steps == [] then Some(Init(todo))
    else
      match Exec(todo, frameMax, steps[..|steps| - 1])
      case None => None
      case Some(s) =>
        if Enabled(s, frameMax, steps[|steps| - 1]) then Some(Apply(s, frameMax, steps[|steps| - 1])) else None
  }

  // ---------- mutual exclusion ----------

  /** A goroutine that is writing has the lock, alone, and its turn is the last one begun. */
  ghost predicate WriterOk(s: State, g: nat)
    requires g < |s.places|
  {
    s.places[g].Writing? ==>
      && s.locked && s.turns != []
      && s.turns[|s.turns| - 1] == Turn(g, s.places[g].item, s.places[g].written)
      && s.places[g].turn == |s.turns| - 1
  }

  ghost predicate TurnOk(t: Turn, frameMax: nat) {
    Sendable(t.item) && Reaches(t.item, frameMax, t.written)
  }

  ghost predicate TurnsOk(turns: seq<Turn>, frameMax: nat) {
    forall k :: 0 <= k < |turns| ==> TurnOk(turns[k], frameMax)
  }

  /** The parts of their groups that the turns wrote, one after another. */
  ghost function Written(turns: seq<Turn>, frameMax: nat): seq<WireFrame>
    requires TurnsOk(turns, frameMax)
  {
    if turns == [] then []
    else
      var t := turns[|turns| - 1];
      assert TurnOk(t, frameMax);
      Written(turns[..|turns| - 1], frameMax) + FirstFrames(t.item, frameMax, t.written)
  }

  predicate SomeoneWrites(s: State) {
    exists g :: 0 <= g < |s.places| && s.places[g].Writing?
  }

  ghost predicate Inv(s: State, frameMax: nat) {
    && |s.places| == |s.todo|
    && (forall g :: 0 <= g < |s.places| ==> WriterOk(s, g))
    && (s.locked <==> SomeoneWrites(s))
    && TurnsOk(s.turns, frameMax) && s.out == Written(s.turns, frameMax)
  }

  lemma WrittenSnoc(turns: seq<Turn>, t: Turn, frameMax: nat)
    requires TurnsOk(turns, frameMax) && TurnOk(t, frameMax)
    ensures TurnsOk(turns + [t], frameMax)
    ensures Written(turns + [t], frameMax) == Written(turns, frameMax) + FirstFrames(t.item, frameMax, t.written)
  {
    assert (turns + [t])[..|turns|] == turns;
  }

  lemma OnlyWriter(s: State, frameMax: nat, g: nat)
    requires Inv(s, frameMax) && g < |s.places| && s.places[g].Writing?
    ensures s.locked && forall h :: 0 <= h < |s.places| && h != g ==> s.places[h].Idle?
  {
    assert WriterOk(s, g);
    forall h | 0 <= h < |s.places| && h != g
      ensures s.places[h].Idle?
    {
      assert WriterOk(s, h);
    }
  }

  lemma StepInv(s: State, frameMax: nat, step: Step)
    requires Inv(s, frameMax) && Enabled(s, frameMax, step)
    ensures Inv(Apply(s, frameMax, step), frameMax)
  {
    hide FirstFrames; hide Sendable; hide HasNext; hide Complete; hide Written;
    var s' := Apply(s, frameMax, step);
    match step {
      case Lock(g) =>
        WrittenSnoc(s.turns, Turn(g, s.todo[g][0], 0), frameMax);
        assert s'.places[g].Writing? && WriterOk(s', g);
        assert forall h :: 0 <= h < |s.places| && h != g ==> WriterOk(s, h) && WriterOk(s', h);
      case Write(g) => WriteInv(s, frameMax, g);
      case Cut(g) => OnlyWriter(s, frameMax, g);
      case Unlock(g) => OnlyWriter(s, frameMax, g);
    }
  }

  lemma WriteInv(s: State, frameMax: nat, g: nat)
    requires Inv(s, frameMax) && Enabled(s, frameMax, Write(g))
    ensures Inv(Apply(s, frameMax, Write(g)), frameMax)
  {
    hide FirstFrames; hide Sendable; hide HasNext; hide Complete; hide Written;
    var s' := Apply(s, frameMax, Write(g));
    assert WriterOk(s, g);
    var n, t := |s.turns| - 1, s.turns[|s.turns| - 1];
    var init, t' := s.turns[..n], t.(written := t.written + 1);
    assert s.turns == init + [t] && s'.turns == init + [t'];
    assert TurnsOk(init, frameMax) && TurnOk(t, frameMax);
    WrittenSnoc(init, t, frameMax);
    WrittenSnoc(init, t', frameMax);
    OneFrameMore(t.item, frameMax, t.written);
    OnlyWriter(s, frameMax, g);
    assert s'.places[g].Writing? && WriterOk(s', g);
  }

  lemma {:induction false} RunInv(todo: seq<seq<Item>>, frameMax: nat, steps: seq<Step>)
    requires Exec(todo, frameMax, steps).Some?
    ensures Inv(Exec(todo, frameMax, steps).value, frameMax)
  {
    hide Inv; hide Apply; hide Enabled;
    if steps == [] {
      InitInv(todo, frameMax);
    } else {
      RunInv(todo, frameMax, steps[..|steps| - 1]);
      StepInv(Exec(todo, frameMax, steps[..|steps| - 1]).value, frameMax, steps[|steps| - 1]);
    }
  }

  lemma InitInv(todo: seq<seq<Item>>, frameMax: nat)
    ensures Inv(Init(todo), frameMax)
  {
  }

  /** In every interleaving no two goroutines are writing. */
  lemma MutualExclusion(todo: seq<seq<Item>>, frameMax: nat, steps: seq<Step>, g: nat, h: nat)
    requires Exec(todo, frameMax, steps).Some?
    requires var s := Exec(todo, frameMax, steps).value;
      g < |s.places| && h < |s.places| && s.places[g].Writing? && s.places[h].Writing?
    ensures g == h
  {
    RunInv(todo, frameMax, steps);
    OnlyWriter(Exec(todo, frameMax, steps).value, frameMax, g);
  }

  /** In every interleaving the lock is taken exactly while a goroutine is writing; so whenever none is, each one
      that has something to send can lock. */
  lemma LockedIffWriting(todo: seq<seq<Item>>, frameMax: nat, steps: seq<Step>)
    requires Exec(todo, frameMax, steps).Some?
    ensures var s := Exec(todo, frameMax, steps).value;
      && (s.locked <==> SomeoneWrites(s))
      && |s.places| == |s.todo|
      && (!SomeoneWrites(s) ==> forall g: nat :: g < |s.todo| && s.todo[g] != [] && Sendable(s.todo[g][0]) ==>
            Enabled(s, frameMax, Lock(g)))
  {
    RunInv(todo, frameMax, steps);
  }

  lemma ExecSnoc(todo: seq<seq<Item>>, frameMax: nat, steps: seq<Step>, step: Step)
    requires Exec(todo, frameMax, steps).Some? && Enabled(Exec(todo, frameMax, steps).value, frameMax, step)
    ensures Exec(todo, frameMax, steps + [step]) == Some(Apply(Exec(todo, frameMax, steps).value, frameMax, step))
  {
    assert (steps + [step])[..|steps|] == steps;
  }

  /** A goroutine whose item ends can write the rest of it and unlock. */
  lemma FinishTurn(todo: seq<seq<Item>>, frameMax: nat, steps: seq<Step>, g: nat) returns (more: seq<Step>)
    requires Exec(todo, frameMax, steps).Some?
    requires var s := Exec(todo, frameMax, steps).value;
      g < |s.places| && InGroup(s.places[g]) && Ends(s.places[g].item, frameMax)
      && s.places[g].written <= |FramesOf(s.places[g].item, frameMax)|
    ensures NoCuts(more) && Exec(todo, frameMax, steps + more).Some?
    ensures !SomeoneWrites(Exec(todo, frameMax, steps + more).value)
    decreases var p := Exec(todo, frameMax, steps).value.places[g]; |FramesOf(p.item, frameMax)| - p.written
  {
    hide Exec; hide FramesOf; hide NextFrame; hide Written;
    var s := Exec(todo, frameMax, steps).value;
    var p := s.places[g];
    RunInv(todo, frameMax, steps);
    OnlyWriter(s, frameMax, g);
    if HasNext(p.item, frameMax, p.written) {
      ExecSnoc(todo, frameMax, steps, Write(g));
      more := FinishTurn(todo, frameMax, steps + [Write(g)], g);
      assert steps + [Write(g)] + more == steps + ([Write(g)] + more);
      more := [Write(g)] + more;
    } else {
      ExecSnoc(todo, frameMax, steps, Unlock(g));
      more := [Unlock(g)];
    }
  }

  /** Without a cut, a goroutine whose item does not end keeps writing it. */
  lemma {:induction false} StuckStays(todo: seq<seq<Item>>, frameMax: nat, steps: seq<Step>, more: seq<Step>, g: nat)
    requires Exec(todo, frameMax, steps + more).Some? && NoCuts(more)
    requires Exec(todo, frameMax, steps).Some?
    requires var s := Exec(todo, frameMax, steps).value;
      g < |s.places| && InGroup(s.places[g]) && !Ends(s.places[g].item, frameMax)
    ensures var s, s' := Exec(todo, frameMax, steps).value, Exec(todo, frameMax, steps + more).value;
      |s'.places| == |s.places| && s'.places[g].Writing? && s'.places[g].item == s.places[g].item
    decreases |more|
  {
    hide FramesOf; hide NextFrame; hide Ends;
    if more == [] {
      assert steps + more == steps;
    } else {
      var m := |more| - 1;
      assert (steps + more)[..|steps + more| - 1] == steps + more[..m];
      StuckStays(todo, frameMax, steps, more[..m], g);
      assert !more[m].Cut?;
    }
  }

  /** The item under way, if any, is one the splitting loop does not get through. */
  ghost predicate StuckUnderWay(s: State, frameMax: nat) {
    exists g :: 0 <= g < |s.places| && s.places[g].Writing? && !Ends(s.places[g].item, frameMax)
  }

  ghost predicate FreesLock(todo: seq<seq<Item>>, frameMax: nat, steps: seq<Step>) {
    Exec(todo, frameMax, steps).Some? && !SomeoneWrites(Exec(todo, frameMax, steps).value)
  }

  /** From every reachable state: without a cut the lock can come to be free if and only if no item the
      splitting loop does not get through is under way. */
  lemma LockComesFreeIff(todo: seq<seq<Item>>, frameMax: nat, steps: seq<Step>)
    requires Exec(todo, frameMax, steps).Some?
    ensures (exists more: seq<Step> :: NoCuts(more) && FreesLock(todo, frameMax, steps + more))
      <==> !StuckUnderWay(Exec(todo, frameMax, steps).value, frameMax)
  {
    hide Exec; hide FramesOf; hide Written; hide Ends; hide NoCuts;
    var s := Exec(todo, frameMax, steps).value;
    RunInv(todo, frameMax, steps);
    if !SomeoneWrites(s) {
      NoStepsNoCuts();
      assert steps + [] == steps;
      assert FreesLock(todo, frameMax, steps + []);
    } else {
      var g :| 0 <= g < |s.places| && s.places[g].Writing?;
      OnlyWriter(s, frameMax, g);
      assert WriterOk(s, g) && TurnOk(s.turns[|s.turns| - 1], frameMax);
      if Ends(s.places[g].item, frameMax) {
        var more := FinishTurn(todo, frameMax, steps, g);
        assert NoCuts(more) && FreesLock(todo, frameMax, steps + more);
      } else {
        forall more: seq<Step> | NoCuts(more)
          ensures !FreesLock(todo, frameMax, steps + more)
        {
          if Exec(todo, frameMax, steps + more).Some? {
            StuckStays(todo, frameMax, steps, more, g);
          }
        }
      }
    }
  }

  lemma NoStepsNoCuts()
    ensures NoCuts([])
  {
  }

  /** From every reachable state a cut frees the lock, whatever is under way and not complete. */
  lemma CutFreesLock(todo: seq<seq<Item>>, frameMax: nat, steps: seq<Step>, g: nat)
    requires Exec(todo, frameMax, steps).Some? && Enabled(Exec(todo, frameMax, steps).value, frameMax, Cut(g))
    ensures FreesLock(todo, frameMax, steps + [Cut(g)]) && !Exec(todo, frameMax, steps + [Cut(g)]).value.locked
  {
    RunInv(todo, frameMax, steps);
    OnlyWriter(Exec(todo, frameMax, steps).value, frameMax, g);
    ExecSnoc(todo, frameMax, steps, Cut(g));
  }

  /** In every interleaving the stream is the turns' parts in the order of the lock: frames of different
      groups never mix. */
  lemma StreamIsTurns(todo: seq<seq<Item>>, frameMax: nat, steps: seq<Step>)
    requires Exec(todo, frameMax, steps).Some?
    ensures var s := Exec(todo, frameMax, steps).value;
      TurnsOk(s.turns, frameMax) && s.out == Written(s.turns, frameMax)
  {
    RunInv(todo, frameMax, steps);
  }

  // ---------- whole groups, and conservation ----------

  /** All of the group was written. */
  ghost predicate Whole(t: Turn, frameMax: nat) {
    Sendable(t.item) && Complete(t.item, frameMax, t.written)
  }

  /** Some of the group was written, but not all. */
  ghost predicate Broken(t: Turn, frameMax: nat) {
    Sendable(t.item) && 0 < t.written && !Complete(t.item, frameMax, t.written)
  }

  predicate NoCuts(steps: seq<Step>) {
    forall k :: 0 <= k < |steps| ==> !steps[k].Cut?
  }

  /** Without cuts every turn wrote its whole group, except the last one while the lock is taken. */
  lemma {:induction false} TurnsWhole(todo: seq<seq<Item>>, frameMax: nat, steps: seq<Step>)
    requires Exec(todo, frameMax, steps).Some? && NoCuts(steps)
    ensures var s := Exec(todo, frameMax, steps).value;
      && (s.locked ==> s.turns != [])
      && forall k :: 0 <= k < |s.turns| - (if s.locked then 1 else 0) ==> Whole(s.turns[k], frameMax)
  {
    hide FirstFrames; hide Sendable; hide HasNext; hide Complete; hide Written;
    if steps != [] {
      TurnsWhole(todo, frameMax, steps[..|steps| - 1]);
      RunInv(todo, frameMax, steps[..|steps| - 1]);
      var s, step := Exec(todo, frameMax, steps[..|steps| - 1]).value, steps[|steps| - 1];
      assert !step.Cut?;
      if step.Write? || step.Unlock? {
        assert WriterOk(s, step.who);
      }
    }
  }

  /** What a goroutine was given the lock for, in order. */
  function TurnsOf(turns: seq<Turn>, who: nat): seq<Item> {
    if turns == [] then []
    else
      var t := turns[|turns| - 1];
      TurnsOf(turns[..|turns| - 1], who) + (if t.who == who then [t.item] else [])
  }

  lemma {:induction false} TurnsOfUpdate(turns: seq<Turn>, k: nat, who: nat)
    ensures TurnsOf(OneMore(turns, k), who) == TurnsOf(turns, who)
  {
    var n := |turns| - 1;
    if k < n {
      assert OneMore(turns, k)[..n] == OneMore(turns[..n], k);
      TurnsOfUpdate(turns[..n], k, who);
    } else if k == n {
      assert OneMore(turns, k)[..n] == turns[..n];
    }
  }

  lemma TurnsOfSnoc(turns: seq<Turn>, t: Turn, who: nat)
    ensures TurnsOf(turns + [t], who) == TurnsOf(turns, who) + (if t.who == who then [t.item] else [])
  {
    assert (turns + [t])[..|turns|] == turns;
  }

  lemma StepConserves(s: State, frameMax: nat, step: Step, who: nat)
    requires Enabled(s, frameMax, step) && who < |s.todo|
    ensures var s' := Apply(s, frameMax, step);
      |s'.todo| == |s.todo| && TurnsOf(s'.turns, who) + s'.todo[who] == TurnsOf(s.turns, who) + s.todo[who]
  {
    hide FirstFrames; hide Sendable; hide HasNext; hide Complete; hide TurnsOf; hide OneMore;
    match step {
      case Lock(g) =>
        TurnsOfSnoc(s.turns, Turn(g, s.todo[g][0], 0), who);
        assert s.todo[g] == [s.todo[g][0]] + s.todo[g][1..];
      case Write(g) => TurnsOfUpdate(s.turns, s.places[g].turn, who);
      case Cut(_) =>
      case Unlock(_) =>
    }
  }

  /** Nothing is skipped, repeated or reordered: a goroutine's turns so far and its items to come are its
      items at the start. */
  lemma {:induction false} ItemsConserved(todo: seq<seq<Item>>, frameMax: nat, steps: seq<Step>, who: nat)
    requires Exec(todo, frameMax, steps).Some? && who < |todo|
    ensures var s := Exec(todo, frameMax, steps).value;
      |s.todo| == |todo| && TurnsOf(s.turns, who) + s.todo[who] == todo[who]
  {
    hide Apply; hide Enabled;
    if steps != [] {
      ItemsConserved(todo, frameMax, steps[..|steps| - 1], who);
      StepConserves(Exec(todo, frameMax, steps[..|steps| - 1]).value, frameMax, steps[|steps| - 1], who);
    }
  }
}
