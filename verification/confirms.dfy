/** Publisher confirms: several upstreams' confirmations renumbered into the one sequence of delivery
    tags the client counts, and every run of the goroutines involved.

    The dispatch loop records a publish and then publishes it. Each upstream channel numbers the
    messages it accepts 1, 2, 3, ... and confirms them in that order, with an ack or a nack. One
    listener per upstream takes a confirmation, looks up the client tag and sends it to the client. */
module Confirms {
  import opened Octets
  import opened Wrappers

  datatype Key = Key(upstream: nat, tag: nat)

  /** The contents of a confirmState. */
  datatype Book = Book(clientTag: nat, tagMap: map<Key, nat>)

  const EMPTY_BOOK := Book(0, map[])

  function Record(b: Book, k: Key): Book {
    var next := (b.clientTag + 1) % TWO64;
    Book(next, b.tagMap[k := next])
  }

  function Lookup(b: Book, k: Key): (Book, Option<nat>) {
    if k in b.tagMap then (b.(tagMap := b.tagMap - {k}), Some(b.tagMap[k])) else (b, None)
  }

  /** confirmState: a counter and a map, changed in place under a lock. */
  class ConfirmState {
    var clientTag: u64
    var tagMap: map<Key, nat>

    ghost function Contents(): Book
      reads this
    {
      Book(clientTag, tagMap)
    }

    constructor ()
      ensures Contents() == EMPTY_BOOK
    {
      clientTag := 0;
      tagMap := map[];
    }

    /** Numbers one more publish and returns its client tag. The counter wraps like a uint64. */
    method RecordPublish(upstreamIndex: nat, upstreamTag: u64) returns (tag: u64)
      modifies this
      ensures Contents() == Record(old(Contents()), Key(upstreamIndex, upstreamTag))
      ensures tag == clientTag
    {
      clientTag := if clientTag + 1 == TWO64 then 0 else clientTag + 1;
      tagMap := tagMap[Key(upstreamIndex, upstreamTag) := clientTag];
      tag := clientTag;
    }

    /** Returns the client tag of a confirmation and forgets it. */
    method LookupClientTag(upstreamIndex: nat, upstreamTag: u64) returns (tag: nat, ok: bool)
      modifies this
      ensures var (book, found) := Lookup(old(Contents()), Key(upstreamIndex, upstreamTag));
        Contents() == book && ok == found.Some? && tag == (if ok then found.value else 0)
    {
      var key := Key(upstreamIndex, upstreamTag);
      ok := key in tagMap;
      tag := 0;
      if ok {
        tag := tagMap[key];
        tagMap := tagMap - {key};
      }
    }
  }

  // ---------- runs ----------

  /** The publishing side. published counts, per upstream, the messages it accepted; publishing is the
      upstream of a publish recorded but not published yet. Three fields are history: pubs, the key each
      client publish was recorded under; owner, the last client tag recorded for a key; failed, the
      client tags whose publishing failed. */
  datatype Ledger = Ledger(
    published: seq<nat>,
    publishing: Option<nat>,
    pubs: seq<Key>,
    owner: map<Key, nat>,
    failed: set<nat>)

  /** A confirmation the client received: the delivery tag, ack or nack, and the upstream it came through. */
  datatype Confirmation = Confirmation(upstream: nat, tag: nat, ack: bool)

  /** The confirming side, per upstream: arrived counts the confirmations that came from the broker,
      heard those its listener looked up, sent those it passed on to the client, and inHand is the client
      tag looked up last. stopped are the upstreams whose listener returned because sending to the client
      failed. outcome records every confirmation, log what the client received, and unknown counts the
      confirmations with no entry. */
  datatype Listeners = Listeners(
    arrived: seq<nat>,
    heard: seq<nat>,
    sent: seq<nat>,
    inHand: seq<nat>,
    stopped: set<nat>,
    outcome: map<Key, bool>,
    log: seq<Confirmation>,
    unknown: nat)

  datatype State = State(book: Book, led: Ledger, lis: Listeners)

  datatype Step =
    | RecordStep(i: nat)              // dispatch loop: RecordPublish under the channel's next number
    | PublishStep                     // dispatch loop: the upstream accepts the message
    | FailStep                        // dispatch loop: publishing failed, the number is not used up
    | OutcomeStep(i: nat, ack: bool)  // broker: the next confirmation arrives
    | LookupStep(i: nat)              // listener: LookupClientTag for the next confirmation
    | SendStep(i: nat)                // listener: the ack or nack goes to the client
    | StopStep(i: nat)                // listener: sending it failed, and the listener returns

  function Zeros(n: nat): seq<nat> {
    seq(n, i => 0)
  }

  function Init(n: nat): State {
    State(EMPTY_BOOK, Ledger(Zeros(n), None, [], map[], {}),
          Listeners(Zeros(n), Zeros(n), Zeros(n), Zeros(n), {}, map[], [], 0))
  }

  predicate Shaped(s: State) {
    var n := |s.led.published|;
    && |s.lis.arrived| == |s.lis.heard| == |s.lis.sent| == |s.lis.inHand| == n
    && (s.led.publishing.Some? ==> s.led.publishing.value < n)
  }

  predicate Enabled(s: State, step: Step)
    requires Shaped(s)
  {
    var n := |s.led.published|;
    match step
    case RecordStep(i) => i < n && s.led.publishing == None && s.book.clientTag + 1 < TWO64
    case PublishStep => s.led.publishing.Some?
    case FailStep => s.led.publishing.Some?
    case OutcomeStep(i, _) => i < n && s.lis.arrived[i] < s.led.published[i]
    case LookupStep(i) =>
      i < n && i !in s.lis.stopped && s.lis.heard[i] < s.lis.arrived[i] && s.lis.heard[i] == s.lis.sent[i]
    case SendStep(i) =>
      && i < n && i !in s.lis.stopped && s.lis.sent[i] < s.lis.heard[i]
      && Key(i, s.lis.sent[i] + 1) in s.lis.outcome
    case StopStep(i) => i < n && i !in s.lis.stopped && s.lis.sent[i] < s.lis.heard[i]
  }

  function Apply(s: State, step: Step): State
    requires Shaped(s) && Enabled(s, step)
  {
    match step
    case RecordStep(i) => RecordNext(s, i)
    case PublishStep =>
      var i := s.led.publishing.value;
      s.(led := s.led.(published := s.led.published[i := s.led.published[i] + 1], publishing := None))
    case FailStep => s.(led := s.led.(publishing := None, failed := s.led.failed + {|s.led.pubs|}))
    case OutcomeStep(i, ack) =>
      var t := s.lis.arrived[i] + 1;
      s.(lis := s.lis.(arrived := s.lis.arrived[i := t], outcome := s.lis.outcome[Key(i, t) := ack]))
    case LookupStep(i) => LookupNext(s, i)
    case SendStep(i) =>
      var t := s.lis.sent[i] + 1;
      var c := Confirmation(i, s.lis.inHand[i], s.lis.outcome[Key(i, t)]);
      s.(lis := s.lis.(sent := s.lis.sent[i := t], log := s.lis.log + [c]))
    case StopStep(i) => s.(lis := s.lis.(stopped := s.lis.stopped + {i}))
  }

  function RecordNext(s: State, i: nat): State
    requires i < |s.led.published|
  {
    var key := Key(i, s.led.published[i] + 1);
    var book := Record(s.book, key);
    State(book, s.led.(publishing := Some(i), pubs := s.led.pubs + [key], owner := s.led.owner[key := book.clientTag]),
          s.lis)
  }

  /** A confirmation with no entry is only counted and skipped. */
  function LookupNext(s: State, i: nat): State
    requires Shaped(s) && i < |s.led.published|
  {
    var t := s.lis.heard[i] + 1;
    var (book, found) := Lookup(s.book, Key(i, t));
    match found
    case Some(tag) => State(book, s.led, s.lis.(heard := s.lis.heard[i := t], inHand := s.lis.inHand[i := tag]))
    case None =>
      State(book, s.led, s.lis.(heard := s.lis.heard[i := t], sent := s.lis.sent[i := t], unknown := s.lis.unknown + 1))
  }

  /** The state after a run from the start, if each of its steps is enabled in turn. */
  function Exec(n: nat, steps: seq<Step>): Option<State> {
    if steps == [] then Some(Init(n))
    else
      match Exec(n, steps[..|steps| - 1])
      case None => None
      case Some(s) =>
        var step := steps[|steps| - 1];
        if Shaped(s) && Enabled(s, step) then Some(Apply(s, step)) else None
  }

  // ---------- the invariant ----------

  predicate KeyInRange(l: Ledger, key: Key) {
    key.upstream < |l.published| && 1 <= key.tag <= l.published[key.upstream] + 1
  }

  /** The key client publish k was recorded under; client tags count from 1. */
  function Pub(l: Ledger, k: nat): Key
    requires 1 <= k <= |l.pubs|
  {
    l.pubs[k - 1]
  }

  /** Publish k is in force: nothing was recorded under its key after it. */
  ghost predicate InForce(l: Ledger, k: nat)
    requires 1 <= k <= |l.pubs|
  {
    Pub(l, k) in l.owner && l.owner[Pub(l, k)] == k
  }

  ghost predicate Unused(l: Ledger, k: nat)
    requires 1 <= k <= |l.pubs|
  {
    var key := Pub(l, k);
    key.upstream < |l.published| && key.tag == l.published[key.upstream] + 1
  }

  /** A publish not in force, and one whose number is still unused, had its publishing fail, or is the
      one being published. */
  ghost predicate PubOk(l: Ledger, k: nat)
    requires 1 <= k <= |l.pubs|
  {
    && KeyInRange(l, Pub(l, k)) && Pub(l, k) in l.owner
    && (InForce(l, k) || k in l.failed)
    && (Unused(l, k) ==> k in l.failed || (l.publishing.Some? && k == |l.pubs|))
  }

  /** The numbers recorded for one upstream never go down. */
  ghost predicate InOrder(l: Ledger, j: nat, k: nat)
    requires 1 <= j < k <= |l.pubs|
  {
    Pub(l, j).upstream == Pub(l, k).upstream ==> Pub(l, j).tag <= Pub(l, k).tag
  }

  ghost predicate OwnerOk(l: Ledger, key: Key)
    requires key in l.owner
  {
    KeyInRange(l, key) && 1 <= l.owner[key] <= |l.pubs| && Pub(l, l.owner[key]) == key
  }

  /** Every number an upstream used is owned. */
  ghost predicate UsedOk(l: Ledger, i: nat, t: nat) {
    i < |l.published| && 1 <= t <= l.published[i] ==> Key(i, t) in l.owner
  }

  ghost predicate PublishingOk(l: Ledger) {
    l.publishing.Some? ==>
      && l.publishing.value < |l.published| && l.pubs != []
      && Pub(l, |l.pubs|) == Key(l.publishing.value, l.published[l.publishing.value] + 1)
  }

  ghost predicate LedgerOk(l: Ledger) {
    && PublishingOk(l)
    && (forall k :: 1 <= k <= |l.pubs| ==> PubOk(l, k))
    && (forall j, k :: 1 <= j < k <= |l.pubs| ==> InOrder(l, j, k))
    && (forall key :: key in l.owner ==> OwnerOk(l, key))
    && (forall i, t :: UsedOk(l, i, t))
  }

  ghost predicate CountOk(s: State, i: nat)
    requires Shaped(s) && i < |s.led.published|
  {
    && s.lis.sent[i] <= s.lis.heard[i] <= s.lis.sent[i] + 1
    && s.lis.heard[i] <= s.lis.arrived[i] <= s.led.published[i]
  }

  /** The map holds exactly the owned keys not heard yet, each under its owner. */
  ghost predicate PendingOk(s: State, key: Key)
    requires Shaped(s)
  {
    && (key in s.book.tagMap <==>
      key in s.led.owner && key.upstream < |s.lis.heard| && key.tag > s.lis.heard[key.upstream])
    && (key in s.book.tagMap && key in s.led.owner ==> s.book.tagMap[key] == s.led.owner[key])
  }

  /** What the client received through one upstream. */
  function Via(log: seq<Confirmation>, i: nat): seq<Confirmation> {
    if log == [] then []
    else
      var last := log[|log| - 1];
      Via(log[..|log| - 1], i) + (if last.upstream == i then [last] else [])
  }

  /** The t-th confirmation received through upstream i is the outcome of its number t, under the owner. */
  ghost predicate LoggedOk(s: State, i: nat, t: nat)
    requires Shaped(s) && i < |s.led.published| && 1 <= t <= s.lis.sent[i]
  {
    && Key(i, t) in s.led.owner && Key(i, t) in s.lis.outcome && t <= |Via(s.lis.log, i)|
    && Via(s.lis.log, i)[t - 1] == Confirmation(i, s.led.owner[Key(i, t)], s.lis.outcome[Key(i, t)])
  }

  ghost predicate HandOk(s: State, i: nat)
    requires Shaped(s) && i < |s.led.published|
  {
    && (s.lis.heard[i] > s.lis.sent[i] ==>
      Key(i, s.lis.heard[i]) in s.led.owner && s.lis.inHand[i] == s.led.owner[Key(i, s.lis.heard[i])])
    && |Via(s.lis.log, i)| == s.lis.sent[i]
  }

  ghost predicate OutcomeOk(s: State, i: nat, t: nat)
    requires Shaped(s) && i < |s.led.published|
  {
    1 <= t <= s.lis.arrived[i] ==> Key(i, t) in s.lis.outcome
  }

  ghost predicate Inv(s: State) {
    && Shaped(s) && LedgerOk(s.led) && s.lis.unknown == 0 && s.book.clientTag == |s.led.pubs| < TWO64
    && (forall i :: 0 <= i < |s.led.published| ==> CountOk(s, i))
    && (forall i :: 0 <= i < |s.led.published| ==> HandOk(s, i))
    && (forall key :: PendingOk(s, key))
    && (forall i, t :: 0 <= i < |s.led.published| && 1 <= t <= s.lis.sent[i] ==> LoggedOk(s, i, t))
    && (forall i, t: nat :: 0 <= i < |s.led.published| ==> OutcomeOk(s, i, t))
    && (forall e :: e in s.lis.log ==> e.upstream < |s.led.published|)
  }

  lemma InitInv(n: nat)
    ensures Inv(Init(n))
  {
  }

  // The publishing side.

  lemma RecordLedger(l: Ledger, i: nat)
    requires LedgerOk(l) && l.publishing == None && i < |l.published|
    ensures var key := Key(i, l.published[i] + 1);
      LedgerOk(l.(publishing := Some(i), pubs := l.pubs + [key], owner := l.owner[key := |l.pubs| + 1]))
  {
    var key := Key(i, l.published[i] + 1);
    var l' := l.(publishing := Some(i), pubs := l.pubs + [key], owner := l.owner[key := |l.pubs| + 1]);
    var n := |l.pubs| + 1;
    assert Pub(l', n) == key;
    assert forall k :: 1 <= k < n ==> Pub(l', k) == Pub(l, k);
    forall k | 1 <= k <= n
      ensures PubOk(l', k)
    {
      assert k < n ==> PubOk(l, k);
      assert k < n && Pub(l, k) == key ==> Unused(l, k);
    }
    forall j, k | 1 <= j < k <= n
      ensures InOrder(l', j, k)
    {
      assert PubOk(l, j);
      assert k < n ==> InOrder(l, j, k);
    }
    forall o | o in l'.owner
      ensures OwnerOk(l', o)
    {
      assert o != key ==> OwnerOk(l, o);
    }
    forall u, t
      ensures UsedOk(l', u, t)
    {
      assert UsedOk(l, u, t);
    }
  }

  lemma PublishLedger(l: Ledger)
    requires LedgerOk(l) && l.publishing.Some?
    ensures var i := l.publishing.value;
      LedgerOk(l.(published := l.published[i := l.published[i] + 1], publishing := None))
  {
    var i := l.publishing.value;
    var l' := l.(published := l.published[i := l.published[i] + 1], publishing := None);
    forall k | 1 <= k <= |l.pubs|
      ensures PubOk(l', k)
    {
      assert PubOk(l, k) && PubOk(l, |l.pubs|);
      assert Pub(l', k) == Pub(l, k);
      assert InForce(l', k) == InForce(l, k);
    }
    forall j, k | 1 <= j < k <= |l.pubs|
      ensures InOrder(l', j, k)
    {
      assert InOrder(l, j, k);
    }
    forall o | o in l'.owner
      ensures OwnerOk(l', o)
    {
      assert OwnerOk(l, o);
    }
    forall u, t
      ensures UsedOk(l', u, t)
    {
      assert UsedOk(l, u, t);
      assert PubOk(l, |l.pubs|);
    }
  }

  lemma FailLedger(l: Ledger)
    requires LedgerOk(l) && l.publishing.Some?
    ensures LedgerOk(l.(publishing := None, failed := l.failed + {|l.pubs|}))
  {
    var l' := l.(publishing := None, failed := l.failed + {|l.pubs|});
    forall k | 1 <= k <= |l.pubs|
      ensures PubOk(l', k)
    {
      assert PubOk(l, k);
      assert Pub(l', k) == Pub(l, k) && InForce(l', k) == InForce(l, k) && Unused(l', k) == Unused(l, k);
    }
    forall j, k | 1 <= j < k <= |l.pubs|
      ensures InOrder(l', j, k)
    {
      assert InOrder(l, j, k);
    }
    forall o | o in l'.owner
      ensures OwnerOk(l', o)
    {
      assert OwnerOk(l, o);
    }
    forall u, t
      ensures UsedOk(l', u, t)
    {
      assert UsedOk(l, u, t);
    }
  }

  /** Beside the ledger itself, the invariant only sees the counts and the owners of numbers used. */
  lemma LedgerStep(s: State, s': State)
    requires Inv(s) && Shaped(s') && LedgerOk(s'.led) && s'.lis == s.lis
    requires s'.book.clientTag == |s'.led.pubs| < TWO64
    requires |s'.led.published| == |s.led.published|
    requires forall i :: 0 <= i < |s.led.published| ==> s.led.published[i] <= s'.led.published[i]
    requires forall key ::
      (key in s.led.owner && key.upstream < |s.led.published| && key.tag <= s.led.published[key.upstream])
      ==> key in s'.led.owner && s'.led.owner[key] == s.led.owner[key]
    requires forall key :: PendingOk(s', key)
    ensures Inv(s')
  {
    hide LedgerOk; hide Via; hide PendingOk;
    forall i | 0 <= i < |s.led.published|
      ensures CountOk(s', i) && HandOk(s', i)
    {
      assert CountOk(s, i) && HandOk(s, i);
    }
    forall i, t | 0 <= i < |s.led.published| && 1 <= t <= s.lis.sent[i]
      ensures LoggedOk(s', i, t)
    {
      assert CountOk(s, i) && LoggedOk(s, i, t);
    }
    forall i, t: nat | 0 <= i < |s.led.published|
      ensures OutcomeOk(s', i, t)
    {
      assert OutcomeOk(s, i, t);
    }
  }

  lemma RecordInv(s: State, i: nat)
    requires Inv(s) && Enabled(s, RecordStep(i))
    ensures Inv(RecordNext(s, i))
  {
    hide LedgerOk; hide Via;
    var s' := RecordNext(s, i);
    var key := Key(i, s.led.published[i] + 1);
    RecordLedger(s.led, i);
    assert s'.led.owner == s.led.owner[key := |s.led.pubs| + 1];
    assert s'.book.tagMap == s.book.tagMap[key := |s.led.pubs| + 1];
    forall o
      ensures PendingOk(s', o)
    {
      assert PendingOk(s, o) && CountOk(s, i);
    }
    LedgerStep(s, s');
  }

  lemma PublishInv(s: State)
    requires Inv(s) && Enabled(s, PublishStep)
    ensures Inv(Apply(s, PublishStep))
  {
    hide LedgerOk; hide Via;
    var s' := Apply(s, PublishStep);
    PublishLedger(s.led);
    forall o
      ensures PendingOk(s', o)
    {
      assert PendingOk(s, o);
    }
    LedgerStep(s, s');
  }

  lemma FailInv(s: State)
    requires Inv(s) && Enabled(s, FailStep)
    ensures Inv(Apply(s, FailStep))
  {
    hide LedgerOk; hide Via;
    var s' := Apply(s, FailStep);
    FailLedger(s.led);
    forall o
      ensures PendingOk(s', o)
    {
      assert PendingOk(s, o);
    }
    LedgerStep(s, s');
  }

  // The confirming side.

  lemma OutcomeInv(s: State, i: nat, ack: bool)
    requires Inv(s) && Enabled(s, OutcomeStep(i, ack))
    ensures Inv(Apply(s, OutcomeStep(i, ack)))
  {
    hide LedgerOk; hide Via;
    var s' := Apply(s, OutcomeStep(i, ack));
    forall j | 0 <= j < |s.led.published|
      ensures CountOk(s', j) && HandOk(s', j)
    {
      assert CountOk(s, j) && HandOk(s, j);
    }
    forall j, t | 0 <= j < |s.led.published| && 1 <= t <= s.lis.sent[j]
      ensures LoggedOk(s', j, t)
    {
      assert CountOk(s, j) && LoggedOk(s, j, t);
    }
    forall j, t: nat | 0 <= j < |s.led.published|
      ensures OutcomeOk(s', j, t)
    {
      assert OutcomeOk(s, j, t);
    }
    forall o
      ensures PendingOk(s', o)
    {
      assert PendingOk(s, o);
    }
  }

  /** A listener always finds the entry of the next confirmation, under the tag of its owner. */
  lemma LookupFinds(s: State, i: nat)
    requires Inv(s) && Enabled(s, LookupStep(i))
    ensures var key := Key(i, s.lis.heard[i] + 1);
      key in s.led.owner && Lookup(s.book, key).1 == Some(s.led.owner[key])
  {
    var t := s.lis.heard[i] + 1;
    assert CountOk(s, i) && UsedOk(s.led, i, t) && PendingOk(s, Key(i, t));
  }

  lemma LookupInv(s: State, i: nat)
    requires Inv(s) && Enabled(s, LookupStep(i))
    ensures Inv(LookupNext(s, i))
  {
    LookupFinds(s, i);
    hide LedgerOk; hide Via;
    var s' := LookupNext(s, i);
    var key := Key(i, s.lis.heard[i] + 1);
    forall j | 0 <= j < |s.led.published|
      ensures CountOk(s', j) && HandOk(s', j)
    {
      assert CountOk(s, j) && HandOk(s, j);
    }
    forall j, t | 0 <= j < |s.led.published| && 1 <= t <= s.lis.sent[j]
      ensures LoggedOk(s', j, t)
    {
      assert LoggedOk(s, j, t);
    }
    forall j, t: nat | 0 <= j < |s.led.published|
      ensures OutcomeOk(s', j, t)
    {
      assert OutcomeOk(s, j, t);
    }
    forall o
      ensures PendingOk(s', o)
    {
      assert PendingOk(s, o);
      assert o.upstream == i && o.tag == s.lis.heard[i] + 1 ==> o == key;
    }
  }

  lemma SendInv(s: State, i: nat)
    requires Inv(s) && Enabled(s, SendStep(i))
    ensures Inv(Apply(s, SendStep(i)))
  {
    hide LedgerOk;
    var s' := Apply(s, SendStep(i));
    var c := s'.lis.log[|s.lis.log|];
    assert s'.lis.log[..|s.lis.log|] == s.lis.log;
    assert Via(s'.lis.log, i) == Via(s.lis.log, i) + [c];
    forall j | 0 <= j < |s.led.published|
      ensures CountOk(s', j) && HandOk(s', j)
      ensures j != i ==> Via(s'.lis.log, j) == Via(s.lis.log, j)
    {
      assert CountOk(s, j) && HandOk(s, j);
    }
    hide Via;
    forall j, t | 0 <= j < |s.led.published| && 1 <= t <= s'.lis.sent[j]
      ensures LoggedOk(s', j, t)
    {
      assert CountOk(s, j) && HandOk(s, j);
      assert t <= s.lis.sent[j] ==> LoggedOk(s, j, t);
    }
    forall j, t: nat | 0 <= j < |s.led.published|
      ensures OutcomeOk(s', j, t)
    {
      assert OutcomeOk(s, j, t);
    }
    forall o
      ensures PendingOk(s', o)
    {
      assert PendingOk(s, o);
    }
  }

  /** A listener that stops changes nothing else. */
  lemma StopInv(s: State, i: nat)
    requires Inv(s) && Enabled(s, StopStep(i))
    ensures Inv(Apply(s, StopStep(i)))
  {
    var s' := Apply(s, StopStep(i));
    forall j | 0 <= j < |s.led.published|
      ensures CountOk(s', j) && HandOk(s', j)
    {
      assert CountOk(s, j) && HandOk(s, j);
    }
    forall key
      ensures PendingOk(s', key)
    {
      assert PendingOk(s, key);
    }
    forall j, t | 0 <= j < |s.led.published| && 1 <= t <= s.lis.sent[j]
      ensures LoggedOk(s', j, t)
    {
      assert LoggedOk(s, j, t);
    }
    forall j, t: nat | 0 <= j < |s.led.published|
      ensures OutcomeOk(s', j, t)
    {
      assert OutcomeOk(s, j, t);
    }
  }

  lemma StepInv(s: State, step: Step)
    requires Inv(s) && Enabled(s, step)
    ensures Inv(Apply(s, step))
  {
    match step {
      case RecordStep(i) => RecordInv(s, i);
      case PublishStep => PublishInv(s);
      case FailStep => FailInv(s);
      case OutcomeStep(i, ack) => OutcomeInv(s, i, ack);
      case LookupStep(i) => LookupInv(s, i);
      case SendStep(i) => SendInv(s, i);
      case StopStep(i) => StopInv(s, i);
    }
  }

  lemma {:induction false} RunInv(n: nat, steps: seq<Step>)
    requires Exec(n, steps).Some?
    ensures Inv(Exec(n, steps).value)
  {
    if steps == [] {
      InitInv(n);
    } else {
      RunInv(n, steps[..|steps| - 1]);
      StepInv(Exec(n, steps[..|steps| - 1]).value, steps[|steps| - 1]);
    }
  }

  // ---------- what every run guarantees ----------

  /** No confirmation ever arrives for an unknown tag, and the next lookup will find its entry too. */
  lemma NeverUnknown(n: nat, steps: seq<Step>)
    requires Exec(n, steps).Some?
    ensures var s := Exec(n, steps).value;
      && s.lis.unknown == 0 && Shaped(s)
      && forall i: nat :: Enabled(s, LookupStep(i)) ==> Lookup(s.book, Key(i, s.lis.heard[i] + 1)).1.Some?
  {
    hide Exec; hide LedgerOk;
    RunInv(n, steps);
    var s := Exec(n, steps).value;
    forall i: nat | Enabled(s, LookupStep(i))
      ensures Lookup(s.book, Key(i, s.lis.heard[i] + 1)).1.Some?
    {
      LookupFinds(s, i);
    }
  }

  /** How many confirmations before the j-th came through the same upstream. */
  function Rank(log: seq<Confirmation>, j: nat): nat
    requires j < |log|
  {
    |Via(log[..j], log[j].upstream)|
  }

  lemma {:induction false} ViaPrefix(log: seq<Confirmation>, i: nat, m: nat)
    requires m <= |log|
    ensures Via(log[..m], i) <= Via(log, i)
  {
    if m < |log| {
      ViaPrefix(log[..|log| - 1], i, m);
      assert log[..|log| - 1][..m] == log[..m];
    } else {
      assert log[..m] == log;
    }
  }

  lemma RankPlaces(log: seq<Confirmation>, j: nat)
    requires j < |log|
    ensures Rank(log, j) < |Via(log, log[j].upstream)| && Via(log, log[j].upstream)[Rank(log, j)] == log[j]
  {
    var i := log[j].upstream;
    ViaPrefix(log, i, j + 1);
    assert log[..j + 1][..j] == log[..j] && log[..j + 1][j] == log[j];
    assert Via(log[..j + 1], i) == Via(log[..j], i) + [log[j]];
  }

  lemma RankIncreases(log: seq<Confirmation>, j: nat, k: nat)
    requires j < k < |log| && log[j].upstream == log[k].upstream
    ensures Rank(log, j) < Rank(log, k)
  {
    RankPlaces(log[..k], j);
    assert log[..k][..j] == log[..j];
  }

  /** A later number of an upstream is owned by a later client publish. */
  lemma OwnersIncrease(l: Ledger, i: nat, t: nat, u: nat)
    requires LedgerOk(l) && Key(i, t) in l.owner && Key(i, u) in l.owner && t < u
    ensures l.owner[Key(i, t)] < l.owner[Key(i, u)]
  {
    var j, k := l.owner[Key(i, t)], l.owner[Key(i, u)];
    assert OwnerOk(l, Key(i, t)) && OwnerOk(l, Key(i, u));
    assert j <= k || InOrder(l, k, j);
  }

  lemma LogEntry(s: State, j: nat)
    requires Inv(s) && j < |s.lis.log|
    ensures var e := s.lis.log[j]; var key := Key(e.upstream, Rank(s.lis.log, j) + 1);
      && key in s.led.owner && e.tag == s.led.owner[key]
      && key in s.lis.outcome && e.ack == s.lis.outcome[key]
  {
    var e := s.lis.log[j];
    RankPlaces(s.lis.log, j);
    assert HandOk(s, e.upstream);
    assert LoggedOk(s, e.upstream, Rank(s.lis.log, j) + 1);
  }

  /** The acks and nacks that came from upstream i's broker, in order. */
  function Outcomes(steps: seq<Step>, i: nat): seq<bool> {
    if steps == [] then []
    else
      Outcomes(steps[..|steps| - 1], i) +
      (match steps[|steps| - 1]
       case OutcomeStep(j, ack) => if i == j then [ack] else []
       case _ => [])
  }

  ghost predicate AcksOk(s: State, i: nat, acks: seq<bool>) {
    && Shaped(s) && i < |s.led.published| && s.lis.arrived[i] == |acks|
    && forall t :: 1 <= t <= |acks| ==> Key(i, t) in s.lis.outcome && s.lis.outcome[Key(i, t)] == acks[t - 1]
  }

  lemma AcksStep(s: State, step: Step, i: nat, acks: seq<bool>)
    requires AcksOk(s, i, acks) && Enabled(s, step)
    ensures AcksOk(Apply(s, step), i, acks + (if step.OutcomeStep? && step.i == i then [step.ack] else []))
  {
    hide Record; hide Lookup;
    assert acks + [] == acks;
  }

  lemma {:induction false} OutcomesArrived(n: nat, steps: seq<Step>, i: nat)
    requires Exec(n, steps).Some? && i < n
    ensures AcksOk(Exec(n, steps).value, i, Outcomes(steps, i))
  {
    hide AcksOk; hide Apply; hide Enabled;
    if steps == [] {
      NoAcks(n, i);
    } else {
      OutcomesArrived(n, steps[..|steps| - 1], i);
      AcksStep(Exec(n, steps[..|steps| - 1]).value, steps[|steps| - 1], i, Outcomes(steps[..|steps| - 1], i));
    }
  }

  lemma NoAcks(n: nat, i: nat)
    requires i < n
    ensures AcksOk(Init(n), i, [])
  {
  }

  /** Every confirmation the client receives carries the tag of one of its publishes, came through the upstream
      that publish went to, and is the ack or nack that upstream's broker gave for the number of the publish. */
  lemma ConfirmationIsItsOwn(n: nat, steps: seq<Step>, j: nat)
    requires Exec(n, steps).Some? && j < |Exec(n, steps).value.lis.log|
    ensures var s := Exec(n, steps).value; var e := s.lis.log[j]; var acks := Outcomes(steps, e.upstream);
      && 1 <= e.tag <= |s.led.pubs| && Pub(s.led, e.tag).upstream == e.upstream
      && 1 <= Pub(s.led, e.tag).tag <= |acks| && e.ack == acks[Pub(s.led, e.tag).tag - 1]
      && InForce(s.led, e.tag)
  {
    hide Exec; hide PendingOk; hide LoggedOk; hide OutcomeOk; hide Outcomes;
    RunInv(n, steps);
    var s := Exec(n, steps).value;
    var e := s.lis.log[j];
    LogEntry(s, j);
    RankPlaces(s.lis.log, j);
    assert OwnerOk(s.led, Key(e.upstream, Rank(s.lis.log, j) + 1));
    assert CountOk(s, e.upstream) && HandOk(s, e.upstream);
    Upstreams(n, steps);
    OutcomesArrived(n, steps, e.upstream);
  }

  lemma {:induction false} Upstreams(n: nat, steps: seq<Step>)
    requires Exec(n, steps).Some?
    ensures |Exec(n, steps).value.led.published| == n
  {
    if steps != [] {
      Upstreams(n, steps[..|steps| - 1]);
    }
  }

  /** No tag is confirmed twice, and the tags confirmed through one upstream go up. */
  lemma ConfirmedOnceInOrder(n: nat, steps: seq<Step>, j: nat, k: nat)
    requires Exec(n, steps).Some? && j < k < |Exec(n, steps).value.lis.log|
    ensures var log := Exec(n, steps).value.lis.log;
      && log[j].tag != log[k].tag
      && (log[j].upstream == log[k].upstream ==> log[j].tag < log[k].tag)
  {
    hide Exec; hide LoggedOk; hide PendingOk; hide HandOk;
    RunInv(n, steps);
    var s := Exec(n, steps).value;
    var log := s.lis.log;
    LogEntry(s, j);
    LogEntry(s, k);
    var a, b := Key(log[j].upstream, Rank(log, j) + 1), Key(log[k].upstream, Rank(log, k) + 1);
    if log[j].upstream == log[k].upstream {
      RankIncreases(log, j, k);
      OwnersIncrease(s.led, log[j].upstream, a.tag, b.tag);
    } else {
      assert OwnerOk(s.led, a) && OwnerOk(s.led, b);
    }
  }

  // ---------- conservation ----------

  function Pending(s: State): set<nat> {
    s.book.tagMap.Values
  }

  /** Client tags whose confirmation was looked up. */
  function Confirmed(s: State): set<nat> {
    set key | key in s.led.owner && key.upstream < |s.lis.heard| && key.tag <= s.lis.heard[key.upstream]
      :: s.led.owner[key]
  }

  /** Client tags whose key a later publish was recorded under. */
  ghost function Lost(s: State): set<nat> {
    set k | 1 <= k <= |s.led.pubs| && !InForce(s.led, k)
  }

  function Upto(n: nat): set<nat> {
    set k | 0 <= k <= n && IsTag(k)
  }

  predicate IsTag(k: nat) {
    k >= 1
  }

  ghost predicate Injective(m: map<Key, nat>) {
    forall a, b :: a in m && b in m && m[a] == m[b] ==> a == b
  }

  /** The client tags given out are exactly the pending, the confirmed and the lost ones, no tag is two
      of these, no two entries share a tag, and every lost tag is one whose publishing failed. */
  lemma TagsPartitioned(n: nat, steps: seq<Step>)
    requires Exec(n, steps).Some?
    ensures var s := Exec(n, steps).value;
      && Pending(s) + Confirmed(s) + Lost(s) == Upto(s.book.clientTag)
      && Pending(s) !! Confirmed(s) !! Lost(s)
      && Injective(s.book.tagMap)
      && Lost(s) <= s.led.failed
  {
    RunInv(n, steps);
    var s := Exec(n, steps).value;
    forall key | key in s.book.tagMap
      ensures key in s.led.owner && s.book.tagMap[key] == s.led.owner[key] && OwnerOk(s.led, key)
    {
      assert PendingOk(s, key);
      assert OwnerOk(s.led, key);
    }
    forall k | 1 <= k <= |s.led.pubs|
      ensures k in Pending(s) + Confirmed(s) + Lost(s)
      ensures k in Lost(s) ==> k in s.led.failed
    {
      var key := Pub(s.led, k);
      assert PubOk(s.led, k) && PendingOk(s, key);
      if InForce(s.led, k) && key in s.book.tagMap {
        assert s.book.tagMap[key] == k;
      }
    }
    forall key | key in s.led.owner
      ensures OwnerOk(s.led, key) && InForce(s.led, s.led.owner[key])
    {
      assert OwnerOk(s.led, key);
    }
    forall key | key in s.led.owner
      ensures key in s.book.tagMap <==> key.tag > s.lis.heard[key.upstream]
    {
      assert PendingOk(s, key) && OwnerOk(s.led, key);
    }
  }

  // Exactly which client tags are lost.

  /** A later client publish went to the same upstream. */
  ghost predicate Followed(l: Ledger, k: nat)
    requires 1 <= k <= |l.pubs|
  {
    exists j :: k < j <= |l.pubs| && Pub(l, j).upstream == Pub(l, k).upstream
  }

  ghost predicate LossOk(l: Ledger, k: nat)
    requires 1 <= k <= |l.pubs|
  {
    && (!InForce(l, k) <==> k in l.failed && Followed(l, k))
    && (k in l.failed && !Followed(l, k) ==> Unused(l, k))
    && (k in l.failed ==> !(l.publishing.Some? && k == |l.pubs|))
  }

  ghost predicate LossesOk(l: Ledger) {
    && (forall k :: k in l.failed ==> k <= |l.pubs|)
    && (forall k :: 1 <= k <= |l.pubs| ==> LossOk(l, k))
  }

  lemma LossRecord(s: State, i: nat)
    requires Inv(s) && LossesOk(s.led) && Enabled(s, RecordStep(i))
    ensures LossesOk(RecordNext(s, i).led)
  {
    hide PendingOk; hide HandOk; hide LoggedOk; hide OutcomeOk;
    var l, l' := s.led, RecordNext(s, i).led;
    var n := |l'.pubs|;
    forall k | 1 <= k <= n
      ensures LossOk(l', k)
    {
      if k < n {
        assert LossOk(l, k) && PubOk(l, k) && Pub(l', k) == Pub(l, k);
        assert Followed(l', k) <==> Followed(l, k) || Pub(l, k).upstream == i by {
          assert Pub(l', n).upstream == i;
          assert forall j :: k < j < n ==> Pub(l', j) == Pub(l, j);
        }
      }
    }
  }

  lemma LossPublish(s: State)
    requires Inv(s) && LossesOk(s.led) && Enabled(s, PublishStep)
    ensures LossesOk(Apply(s, PublishStep).led)
  {
    hide PendingOk; hide HandOk; hide LoggedOk; hide OutcomeOk;
    var l, l' := s.led, Apply(s, PublishStep).led;
    forall k | 1 <= k <= |l.pubs|
      ensures LossOk(l', k)
    {
      assert LossOk(l, k) && forall j :: 1 <= j <= |l.pubs| ==> Pub(l', j) == Pub(l, j);
      assert InForce(l', k) == InForce(l, k) && Followed(l', k) == Followed(l, k);
      assert k < |l.pubs| && Pub(l, k).upstream == l.publishing.value ==> Followed(l, k);
    }
  }

  lemma LossFail(s: State)
    requires Inv(s) && LossesOk(s.led) && Enabled(s, FailStep)
    ensures LossesOk(Apply(s, FailStep).led)
  {
    hide PendingOk; hide HandOk; hide LoggedOk; hide OutcomeOk;
    var l, l' := s.led, Apply(s, FailStep).led;
    forall k | 1 <= k <= |l.pubs|
      ensures LossOk(l', k)
    {
      assert LossOk(l, k) && PubOk(l, k) && forall j :: 1 <= j <= |l.pubs| ==> Pub(l', j) == Pub(l, j);
      assert InForce(l', k) == InForce(l, k) && Followed(l', k) == Followed(l, k) && Unused(l', k) == Unused(l, k);
    }
  }

  lemma InitLosses(n: nat)
    ensures LossesOk(Init(n).led)
  {
  }

  lemma {:induction false} LossesInv(n: nat, steps: seq<Step>)
    requires Exec(n, steps).Some?
    ensures LossesOk(Exec(n, steps).value.led)
  {
    hide LossesOk; hide Inv;
    if steps == [] {
      InitLosses(n);
    } else {
      var s, step := Exec(n, steps[..|steps| - 1]).value, steps[|steps| - 1];
      LossesInv(n, steps[..|steps| - 1]);
      RunInv(n, steps[..|steps| - 1]);
      match step {
        case RecordStep(i) => LossRecord(s, i);
        case PublishStep => LossPublish(s);
        case FailStep => LossFail(s);
        case OutcomeStep(_, _) =>
        case LookupStep(_) =>
        case SendStep(_) =>
        case StopStep(_) =>
      }
    }
  }

  /** The entry of a client tag is overwritten exactly when publishing it failed and another publish to the
      same upstream came after: the number was not used up, so the later publish took its entry over. */
  lemma LostExactly(n: nat, steps: seq<Step>, k: nat)
    requires Exec(n, steps).Some? && 1 <= k <= |Exec(n, steps).value.led.pubs|
    ensures var s := Exec(n, steps).value;
      k in Lost(s) <==> k in s.led.failed && Followed(s.led, k)
  {
    LossesInv(n, steps);
    assert LossOk(Exec(n, steps).value.led, k);
  }

  // Exactly which client tags are never confirmed.

  /** The client has received a confirmation of tag k. */
  ghost predicate Received(s: State, k: nat) {
    exists j :: 0 <= j < |s.lis.log| && s.lis.log[j].tag == k
  }

  lemma FailedNotReceived(n: nat, steps: seq<Step>, k: nat)
    requires Exec(n, steps).Some? && k in Exec(n, steps).value.led.failed
    ensures !Received(Exec(n, steps).value, k)
  {
    hide Exec; hide LoggedOk; hide PendingOk; hide OutcomeOk;
    RunInv(n, steps);
    LossesInv(n, steps);
    var s := Exec(n, steps).value;
    if j :| 0 <= j < |s.lis.log| && s.lis.log[j].tag == k {
      var e := s.lis.log[j];
      var key := Key(e.upstream, Rank(s.lis.log, j) + 1);
      LogEntry(s, j);
      RankPlaces(s.lis.log, j);
      assert CountOk(s, e.upstream) && HandOk(s, e.upstream);
      assert OwnerOk(s.led, key) && LossOk(s.led, k);
    }
  }

  lemma ExecSnoc(n: nat, steps: seq<Step>, step: Step)
    requires Exec(n, steps).Some? && Shaped(Exec(n, steps).value) && Enabled(Exec(n, steps).value, step)
    ensures Exec(n, steps + [step]) == Some(Apply(Exec(n, steps).value, step))
  {
    assert (steps + [step])[..|steps|] == steps;
  }

  /** How far upstream i's listener is from having passed on t confirmations. */
  function Remaining(s: State, i: nat, t: nat): int
    requires Shaped(s) && i < |s.led.published|
  {
    3 * (t - s.lis.sent[i])
    - (if s.lis.heard[i] > s.lis.sent[i] then 2 else if s.lis.arrived[i] > s.lis.heard[i] then 1 else 0)
  }

  /** The next step towards passing on another confirmation through upstream i. */
  function NextStep(s: State, i: nat): Step
    requires Shaped(s) && i < |s.led.published|
  {
    if s.lis.heard[i] > s.lis.sent[i] then SendStep(i)
    else if s.lis.arrived[i] > s.lis.heard[i] then LookupStep(i)
    else OutcomeStep(i, true)
  }

  lemma NextStepHelps(s: State, i: nat, t: nat)
    requires Inv(s) && i < |s.led.published| && i !in s.lis.stopped && s.lis.sent[i] < t <= s.led.published[i]
    ensures Enabled(s, NextStep(s, i))
    ensures var s' := Apply(s, NextStep(s, i));
      s'.led == s.led && s'.lis.stopped == s.lis.stopped && Shaped(s') && Remaining(s', i, t) < Remaining(s, i, t)
  {
    assert CountOk(s, i) && OutcomeOk(s, i, s.lis.sent[i] + 1);
    if NextStep(s, i).LookupStep? {
      LookupFinds(s, i);
    }
  }

  /** Whatever has happened, the broker and a listener that has not stopped can go on to pass on any
      accepted message's confirmation. */
  lemma Drive(n: nat, steps: seq<Step>, i: nat, t: nat) returns (more: seq<Step>)
    requires Exec(n, steps).Some? && Shaped(Exec(n, steps).value) && i < |Exec(n, steps).value.led.published|
    requires t <= Exec(n, steps).value.led.published[i] && i !in Exec(n, steps).value.lis.stopped
    ensures var r := Exec(n, steps + more);
      r.Some? && Shaped(r.value) && r.value.led == Exec(n, steps).value.led && r.value.lis.sent[i] >= t
    decreases Remaining(Exec(n, steps).value, i, t) + 2
  {
    hide Exec; hide Apply; hide Enabled; hide NextStep;
    var s := Exec(n, steps).value;
    RunInv(n, steps);
    if s.lis.sent[i] >= t {
      more := [];
      assert steps + more == steps;
    } else {
      var step := NextStep(s, i);
      NextStepHelps(s, i, t);
      ExecSnoc(n, steps, step);
      RunInv(n, steps + [step]);
      assert CountOk(Exec(n, steps + [step]).value, i);
      more := Drive(n, steps + [step], i, t);
      assert steps + [step] + more == steps + ([step] + more);
      more := [step] + more;
    }
  }

  lemma SentIsReceived(s: State, i: nat, t: nat)
    requires Inv(s) && i < |s.led.published| && 1 <= t <= s.lis.sent[i]
    ensures Key(i, t) in s.led.owner && Received(s, s.led.owner[Key(i, t)])
  {
    assert LoggedOk(s, i, t);
    var e := Via(s.lis.log, i)[t - 1];
    ViaIsLogged(s.lis.log, i, t - 1);
    assert e in s.lis.log;
  }

  lemma {:induction false} ViaIsLogged(log: seq<Confirmation>, i: nat, m: nat)
    requires m < |Via(log, i)|
    ensures Via(log, i)[m] in log
  {
    if m < |Via(log[..|log| - 1], i)| {
      ViaIsLogged(log[..|log| - 1], i, m);
    }
  }

  lemma Confirmable(n: nat, steps: seq<Step>, k: nat) returns (more: seq<Step>)
    requires Exec(n, steps).Some? && 1 <= k <= |Exec(n, steps).value.led.pubs|
    requires var s := Exec(n, steps).value; k !in s.led.failed && Pub(s.led, k).upstream !in s.lis.stopped
    ensures Exec(n, steps + more).Some? && Received(Exec(n, steps + more).value, k)
  {
    hide Exec; hide Received; hide PendingOk; hide HandOk; hide LoggedOk; hide OutcomeOk; hide InOrder; hide UsedOk;
    RunInv(n, steps);
    var s := Exec(n, steps).value;
    var key := Pub(s.led, k);
    assert PubOk(s.led, k);
    var before: seq<Step> := if Unused(s.led, k) then [PublishStep] else [];
    assert steps + [] == steps;
    if Unused(s.led, k) {
      ExecSnoc(n, steps, PublishStep);
    }
    var s1 := Exec(n, steps + before).value;
    assert s1.lis == s.lis && s1.led.pubs == s.led.pubs && s1.led.owner == s.led.owner;
    assert key.tag <= s1.led.published[key.upstream];
    RunInv(n, steps + before);
    more := Drive(n, steps + before, key.upstream, key.tag);
    RunInv(n, steps + before + more);
    SentIsReceived(Exec(n, steps + before + more).value, key.upstream, key.tag);
    assert steps + before + more == steps + (before + more);
    more := before + more;
  }

  lemma {:induction false} FailedStays(n: nat, steps: seq<Step>, more: seq<Step>, k: nat)
    requires Exec(n, steps + more).Some?
    ensures Exec(n, steps).Some?
    ensures k in Exec(n, steps).value.led.failed ==> k in Exec(n, steps + more).value.led.failed
    decreases |more|
  {
    if more == [] {
      assert steps + more == steps;
    } else {
      var m := |more| - 1;
      assert (steps + more)[..|steps + more| - 1] == steps + more[..m];
      FailedStays(n, steps, more[..m], k);
    }
  }

  ghost predicate Confirms(n: nat, steps: seq<Step>, k: nat) {
    Exec(n, steps).Some? && Received(Exec(n, steps).value, k)
  }

  /** Nothing more comes through an upstream whose listener has stopped. */
  lemma {:induction false} StoppedIsSilent(n: nat, steps: seq<Step>, more: seq<Step>)
    requires Exec(n, steps + more).Some?
    ensures Exec(n, steps).Some?
    ensures var s, s' := Exec(n, steps).value, Exec(n, steps + more).value;
      && s.lis.stopped <= s'.lis.stopped && s.led.pubs <= s'.led.pubs && s.lis.log <= s'.lis.log
      && forall j :: |s.lis.log| <= j < |s'.lis.log| ==> s'.lis.log[j].upstream !in s.lis.stopped
    decreases |more|
  {
    if more == [] {
      assert steps + more == steps;
    } else {
      var m := |more| - 1;
      assert (steps + more)[..|steps + more| - 1] == steps + more[..m];
      StoppedIsSilent(n, steps, more[..m]);
    }
  }

  /** From every reachable state: a client tag given out can still reach the client as confirmed, or has,
      if and only if its publishing has not failed, nor its upstream's listener stopped before. So with
      listeners that go on exactly the failed publishes are never confirmed. */
  lemma ConfirmableIff(n: nat, steps: seq<Step>, k: nat)
    requires Exec(n, steps).Some? && 1 <= k <= |Exec(n, steps).value.led.pubs|
    ensures var s := Exec(n, steps).value;
      (exists more: seq<Step> :: Confirms(n, steps + more, k)) <==>
        k !in s.led.failed && (Received(s, k) || Pub(s.led, k).upstream !in s.lis.stopped)
  {
    hide Exec; hide Received;
    var s := Exec(n, steps).value;
    if k !in s.led.failed && Received(s, k) {
      assert steps + [] == steps;
      assert Confirms(n, steps + [], k);
    } else if k !in s.led.failed && Pub(s.led, k).upstream !in s.lis.stopped {
      var more := Confirmable(n, steps, k);
      assert Confirms(n, steps + more, k);
    } else {
      forall more: seq<Step>
        ensures !Confirms(n, steps + more, k)
      {
        if Exec(n, steps + more).Some? {
          FailedStays(n, steps, more, k);
          if k in s.led.failed {
            FailedNotReceived(n, steps + more, k);
          } else {
            StoppedNotReceived(n, steps, more, k);
          }
        }
      }
    }
  }

  lemma StoppedNotReceived(n: nat, steps: seq<Step>, more: seq<Step>, k: nat)
    requires Exec(n, steps).Some? && 1 <= k <= |Exec(n, steps).value.led.pubs| && Exec(n, steps + more).Some?
    requires var s := Exec(n, steps).value; !Received(s, k) && Pub(s.led, k).upstream in s.lis.stopped
    ensures !Received(Exec(n, steps + more).value, k)
  {
    hide Exec; hide InForce;
    StoppedIsSilent(n, steps, more);
    var s, s' := Exec(n, steps).value, Exec(n, steps + more).value;
    forall j | 0 <= j < |s'.lis.log|
      ensures s'.lis.log[j].tag != k
    {
      ConfirmationIsItsOwn(n, steps + more, j);
      if j < |s.lis.log| {
        assert s.lis.log[j] == s'.lis.log[j];
      }
    }
  }

  /** Tags looked up by a listener that has not passed them on yet. */
  function InHand(s: State): set<nat> {
    set i | 0 <= i < |s.lis.heard| && |s.lis.sent| == |s.lis.heard| == |s.lis.inHand| && s.lis.sent[i] < s.lis.heard[i]
      :: s.lis.inHand[i]
  }

  /** The client has received, or a listener has in hand, exactly what was looked up. */
  lemma LookedUpIsReceived(n: nat, steps: seq<Step>, k: nat)
    requires Exec(n, steps).Some?
    ensures var s := Exec(n, steps).value;
      k in Confirmed(s) <==> Received(s, k) || k in InHand(s)
  {
    hide Exec; hide PendingOk; hide OutcomeOk;
    RunInv(n, steps);
    var s := Exec(n, steps).value;
    if k in Confirmed(s) {
      var key :| key in s.led.owner && key.upstream < |s.lis.heard| && key.tag <= s.lis.heard[key.upstream]
        && s.led.owner[key] == k;
      assert OwnerOk(s.led, key) && CountOk(s, key.upstream) && HandOk(s, key.upstream);
      if key.tag <= s.lis.sent[key.upstream] {
        SentIsReceived(s, key.upstream, key.tag);
      }
    }
    if j :| 0 <= j < |s.lis.log| && s.lis.log[j].tag == k {
      LogEntry(s, j);
      RankPlaces(s.lis.log, j);
      var i := s.lis.log[j].upstream;
      assert HandOk(s, i) && CountOk(s, i);
      assert Key(i, Rank(s.lis.log, j) + 1) in s.led.owner;
    }
    if i :| 0 <= i < |s.lis.heard| && s.lis.sent[i] < s.lis.heard[i] && s.lis.inHand[i] == k {
      assert HandOk(s, i);
      assert Key(i, s.lis.heard[i]) in s.led.owner;
    }
  }

  /** The map is empty exactly when nothing is being published, every confirmation of an accepted publish
      was looked up, and every failed publish was followed by another one to its upstream. */
  lemma DrainedIffAllConfirmed(n: nat, steps: seq<Step>)
    requires Exec(n, steps).Some?
    ensures var s := Exec(n, steps).value;
      s.book.tagMap == map[] <==>
        && s.led.publishing == None && |s.lis.heard| == |s.led.published| && s.lis.heard == s.led.published
        && forall k :: 1 <= k <= |s.led.pubs| && k in s.led.failed ==> Followed(s.led, k)
  {
    hide Exec; hide HandOk; hide LoggedOk; hide OutcomeOk; hide Followed;
    RunInv(n, steps);
    LossesInv(n, steps);
    var s := Exec(n, steps).value;
    forall i | 0 <= i < |s.led.published|
      ensures s.lis.heard[i] == s.led.published[i] || Key(i, s.led.published[i]) in s.book.tagMap
    {
      assert CountOk(s, i) && UsedOk(s.led, i, s.led.published[i]) && PendingOk(s, Key(i, s.led.published[i]));
    }
    forall k | 1 <= k <= |s.led.pubs| && ((k == |s.led.pubs| && s.led.publishing.Some?) || k in s.led.failed)
      ensures Followed(s.led, k) || Pub(s.led, k) in s.book.tagMap
    {
      var key := Pub(s.led, k);
      assert PubOk(s.led, k) && LossOk(s.led, k) && PendingOk(s, key) && CountOk(s, key.upstream);
      if k == |s.led.pubs| {
        NotFollowed(s.led);
      }
    }
    if s.led.publishing.Some? {
      NotFollowed(s.led);
    }
    forall key | key in s.book.tagMap
      ensures s.led.publishing.Some? || s.lis.heard != s.led.published
        || exists k :: 1 <= k <= |s.led.pubs| && k in s.led.failed && !Followed(s.led, k)
    {
      assert PendingOk(s, key) && OwnerOk(s.led, key);
      var k := s.led.owner[key];
      assert PubOk(s.led, k) && LossOk(s.led, k) && CountOk(s, key.upstream);
    }
  }

  lemma NotFollowed(l: Ledger)
    requires l.pubs != []
    ensures !Followed(l, |l.pubs|)
  {
  }

  function Sum(xs: seq<nat>): nat {
    if xs == [] then 0 else xs[0] + Sum(xs[1..])
  }

  lemma {:induction false} SumUpdate(xs: seq<nat>, i: nat)
    requires i < |xs|
    ensures Sum(xs[i := xs[i] + 1]) == Sum(xs) + 1
  {
    if i == 0 {
      assert xs[0 := xs[0] + 1][1..] == xs[1..];
    } else {
      SumUpdate(xs[1..], i - 1);
      assert xs[i := xs[i] + 1][1..] == xs[1..][i - 1 := xs[i] + 1];
    }
  }

  lemma {:induction false} SumZeros(xs: seq<nat>)
    requires forall i :: 0 <= i < |xs| ==> xs[i] == 0
    ensures Sum(xs) == 0
  {
    if xs != [] {
      SumZeros(xs[1..]);
    }
  }

  ghost predicate TotalsOk(l: Ledger) {
    && l.failed <= Upto(|l.pubs|)
    && (l.publishing.Some? ==> |l.pubs| !in l.failed && l.pubs != [])
    && |l.pubs| == Sum(l.published) + |l.failed| + (if l.publishing.Some? then 1 else 0)
  }

  lemma TotalsStep(s: State, step: Step)
    requires Shaped(s) && Enabled(s, step) && TotalsOk(s.led)
    ensures TotalsOk(Apply(s, step).led)
  {
    var l, l' := s.led, Apply(s, step).led;
    match step {
      case RecordStep(_) =>
        assert l'.failed == l.failed && |l'.pubs| == |l.pubs| + 1 && l'.published == l.published;
      case PublishStep => SumUpdate(l.published, l.publishing.value);
      case FailStep => assert l'.failed == l.failed + {|l.pubs|};
      case OutcomeStep(_, _) => assert l' == l;
      case LookupStep(_) => assert l' == l;
      case SendStep(_) => assert l' == l;
      case StopStep(_) => assert l' == l;
    }
  }

  lemma {:induction false} TotalsInv(n: nat, steps: seq<Step>)
    requires Exec(n, steps).Some?
    ensures TotalsOk(Exec(n, steps).value.led)
  {
    hide Apply; hide Enabled; hide TotalsOk; hide Shaped; hide Init;
    if steps == [] {
      InitTotals(n);
    } else {
      TotalsInv(n, steps[..|steps| - 1]);
      TotalsStep(Exec(n, steps[..|steps| - 1]).value, steps[|steps| - 1]);
    }
  }

  lemma InitTotals(n: nat)
    ensures TotalsOk(Init(n).led)
  {
    SumZeros(Zeros(n));
  }

  /** The counter is the number of messages all upstreams accepted, plus the failed publishes, plus the
      one being published. */
  lemma ClientTagIsTotal(n: nat, steps: seq<Step>)
    requires Exec(n, steps).Some?
    ensures var s := Exec(n, steps).value;
      s.book.clientTag == Sum(s.led.published) + |s.led.failed| + (if s.led.publishing.Some? then 1 else 0)
  {
    RunInv(n, steps);
    TotalsInv(n, steps);
  }
}
