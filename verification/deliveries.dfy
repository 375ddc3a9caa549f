/** Delivery tags: the tags of n upstreams interleaved into one client sequence, and taken apart again
    when the client settles a delivery. */
module Deliveries {
  import opened Octets
  import opened Wrappers
  import opened Arithmetic

  /** The client tag of delivery s of upstream i, in uint64 arithmetic. */
  function Tag(s: u64, n: nat, i: nat): (t: u64)
    requires i < n
  {
    (s * n + i) % TWO64
  }

  /** The upstream tag and upstream index a client tag stands for. */
  function RestoreDeliveryTag(tag: u64, n: nat): (nat, nat)
    requires n > 0
  {
    (tag / n, tag % n)
  }

  /** Tags up to this bound do not overflow. */
  function Bound(n: nat, i: nat): int
    requires i < n
  {
    (TWO64 - 1 - i) / n
  }

  lemma BoundIff(s: nat, n: nat, i: nat)
    requires i < n
    ensures s <= Bound(n, i) <==> s * n + i < TWO64
  {
    QuotientBound(s, TWO64 - 1 - i, n);
  }

  lemma WrapIff(x: nat)
    ensures x % TWO64 == x <==> x < TWO64
  {
  }

  /** Rewriting a tag and restoring it gives the upstream and its own tag back exactly when the product
      fits: s <= (2^64 - 1 - i) / n. */
  lemma RestoreInvertsTagIff(s: u64, n: nat, i: nat)
    requires i < n
    ensures RestoreDeliveryTag(Tag(s, n, i), n) == (s, i) <==> s <= Bound(n, i)
  {
    BoundIff(s, n, i);
    QuotientIff(Tag(s, n, i), n, s, i);
    WrapIff(s * n + i);
  }

  /** GetChannelByDeliveryTag, on the channels the upstreams hold for one client channel. */
  function ChannelFor(channels: nat, n: nat, tag: u64): Option<nat>
    requires n > 0
  {
    var (_, index) := RestoreDeliveryTag(tag, n);
    if channels <= index then None else Some(index)
  }

  /** An open client channel has a channel on each of the n upstreams, so one is always found. */
  lemma ChannelAlwaysFound(n: nat, tag: u64)
    requires n > 0
    ensures ChannelFor(n, n, tag) == Some(tag % n)
  {
  }

  // ---------- runs ----------

  /** Per upstream: how many deliveries were made, and which of them are not settled yet. */
  datatype State = State(delivered: seq<nat>, unacked: seq<set<nat>>)

  datatype Step =
    | Deliver(i: nat)                       // upstream i delivers its next message
    | Settle(tag: nat, multiple: bool)      // the client acks or nacks a client tag

  function Init(n: nat): State {
    State(seq(n, i => 0), seq(n, i => {}))
  }

  predicate Shaped(s: State, n: nat) {
    |s.delivered| == |s.unacked| == n && n > 0
  }

  /** What a broker settles on one channel: the tag itself, or with multiple all tags up to it, where
      tag 0 stands for all. */
  function BrokerSettles(unacked: set<nat>, tag: nat, multiple: bool): set<nat> {
    if !multiple then unacked * {tag}
    else if tag == 0 then unacked
    else set u | u in unacked && u <= tag
  }

  /** replyBasicAck and replyBasicNack: the upstream and its tag are restored from the client tag. */
  function SettleStep(s: State, n: nat, tag: u64, multiple: bool): State
    requires Shaped(s, n)
  {
    match ChannelFor(n, n, tag)
    case None => s
    case Some(i) =>
      var (t, _) := RestoreDeliveryTag(tag, n);
      s.(unacked := s.unacked[i := s.unacked[i] - BrokerSettles(s.unacked[i], t, multiple)])
  }

  function DeliverStep(s: State, n: nat, i: nat): State
    requires Shaped(s, n) && i < n
  {
    var t := s.delivered[i] + 1;
    State(s.delivered[i := t], s.unacked[i := s.unacked[i] + {t}])
  }

  /** The client settles tags it holds, or with multiple and tag 0 everything; an upstream delivers while its
      tags fit. */
  predicate Enabled(s: State, n: nat, step: Step)
    requires Shaped(s, n)
  {
    match step
    case Deliver(i) => i < n && s.delivered[i] + 1 <= Bound(n, i)
    case Settle(tag, multiple) => tag < TWO64 && (tag / n in s.unacked[tag % n] || (tag == 0 && multiple))
  }

  function Apply(s: State, n: nat, step: Step): State
    requires Shaped(s, n) && Enabled(s, n, step)
  {
    match step
    case Deliver(i) => DeliverStep(s, n, i)
    case Settle(tag, multiple) => SettleStep(s, n, tag, multiple)
  }

  function Exec(n: nat, steps: seq<Step>): Option<State>
    requires n > 0
  {
    if steps == [] then Some(Init(n))
    else
      match Exec(n, steps[..|steps| - 1])
      case None => None
      case Some(s) =>
        var step := steps[|steps| - 1];
        if Shaped(s, n) && Enabled(s, n, step) then Some(Apply(s, n, step)) else None
  }

  /** Unsettled deliveries are among those made, and their client tags fit. */
  ghost predicate UpstreamOk(s: State, n: nat, i: nat)
    requires Shaped(s, n) && i < n
  {
    && s.delivered[i] <= (if Bound(n, i) < 0 then 0 else Bound(n, i))
    && forall t :: t in s.unacked[i] ==> 1 <= t <= s.delivered[i]
  }

  ghost predicate Inv(s: State, n: nat) {
    Shaped(s, n) && forall i :: 0 <= i < n ==> UpstreamOk(s, n, i)
  }

  lemma {:induction false} RunInv(n: nat, steps: seq<Step>)
    requires n > 0 && Exec(n, steps).Some?
    ensures Inv(Exec(n, steps).value, n)
  {
    if steps != [] {
      RunInv(n, steps[..|steps| - 1]);
      var s := Exec(n, steps[..|steps| - 1]).value;
      var s' := Exec(n, steps).value;
      forall i | 0 <= i < n
        ensures UpstreamOk(s', n, i)
      {
        assert UpstreamOk(s, n, i);
      }
    }
  }

  // ---------- what the client sees ----------

  /** The tags the client holds: for each upstream the images of its unsettled deliveries. */
  ghost predicate Holds(s: State, n: nat, t: nat)
    requires Shaped(s, n)
  {
    t / n in s.unacked[t % n]
  }

  /** A client tag is held under one upstream and one of its tags only, the ones restored from it. */
  lemma HeldTags(s: State, n: nat, i: nat, u: nat)
    requires Inv(s, n) && i < n && u in s.unacked[i]
    ensures u < TWO64 && RestoreDeliveryTag(Tag(u, n, i), n) == (u, i) && Holds(s, n, Tag(u, n, i))
  {
    assert UpstreamOk(s, n, i);
    BoundIff(u, n, i);
    MulMono(1, n, u);
    assert u <= u * n + i < TWO64;
    RestoreInvertsTagIff(u, n, i);
    assert Tag(u, n, i) / n == u && Tag(u, n, i) % n == i;
  }

  /** The client's own account of what it holds, kept without looking at the upstreams: a delivery adds
      its tag, a single settlement removes the tag, a multiple one the tags up to it on the same residue, and
      one with tag 0 all tags on residue 0. */
  ghost predicate ClientHolds(n: nat, steps: seq<Step>, t: nat)
    requires n > 0
  {
    if steps == [] then false
    else
      var before := steps[..|steps| - 1];
      match steps[|steps| - 1]
      case Deliver(i) => ClientHolds(n, before, t) || (i < n && t == (Deliveries(before, i) + 1) * n + i)
      case Settle(tag, false) => ClientHolds(n, before, t) && t != tag
      case Settle(tag, true) => ClientHolds(n, before, t) && !((tag == 0 || t <= tag) && t % n == tag % n)
  }

  function Deliveries(steps: seq<Step>, i: nat): nat {
    if steps == [] then 0
    else Deliveries(steps[..|steps| - 1], i) + (if steps[|steps| - 1] == Deliver(i) then 1 else 0)
  }

  lemma {:induction false} DeliveredCount(n: nat, steps: seq<Step>, i: nat)
    requires n > 0 && Exec(n, steps).Some? && i < n
    ensures |Exec(n, steps).value.delivered| == n && Exec(n, steps).value.delivered[i] == Deliveries(steps, i)
  {
    if steps != [] {
      DeliveredCount(n, steps[..|steps| - 1], i);
    }
  }

  lemma SameResidueOrder(t: nat, tag: nat, n: nat)
    requires n > 0 && t % n == tag % n
    ensures t <= tag <==> t / n <= tag / n
    ensures t == tag <==> t / n == tag / n
  {
    QuotientOrder(t / n, tag / n, t % n, n);
    Euclid(t, n);
    Euclid(tag, n);
  }

  /** In every run the tags the client holds by its own account are exactly the images of the upstreams'
      unsettled deliveries. */
  lemma {:induction false} ClientAccountExact(n: nat, steps: seq<Step>, t: nat)
    requires n > 0 && Exec(n, steps).Some?
    ensures Shaped(Exec(n, steps).value, n)
    ensures ClientHolds(n, steps, t) <==> Holds(Exec(n, steps).value, n, t)
  {
    RunInv(n, steps);
    if steps != [] {
      var before := steps[..|steps| - 1];
      ClientAccountExact(n, before, t);
      RunInv(n, before);
      var s := Exec(n, before).value;
      match steps[|steps| - 1] {
        case Deliver(i) => DeliverExact(n, before, i, t);
        case Settle(tag, multiple) =>
          if tag == 0 && multiple {
            ZeroExact(s, n, t);
          } else {
            SettleExact(s, n, tag, multiple, t);
          }
      }
    }
  }

  lemma DeliverExact(n: nat, before: seq<Step>, i: nat, t: nat)
    requires n > 0 && Exec(n, before).Some? && i < n && Shaped(Exec(n, before).value, n)
    ensures var s := Exec(n, before).value;
      Holds(DeliverStep(s, n, i), n, t) <==> Holds(s, n, t) || t == (Deliveries(before, i) + 1) * n + i
  {
    DeliveredCount(n, before, i);
    QuotientIff(t, n, Deliveries(before, i) + 1, i);
  }

  /** Settling a held tag removes, with multiple, the held tags up to it of the same upstream, and
      otherwise that tag alone; the other upstreams keep theirs. */
  lemma SettleExact(s: State, n: nat, tag: u64, multiple: bool, t: nat)
    requires Inv(s, n) && Holds(s, n, tag)
    ensures Shaped(SettleStep(s, n, tag, multiple), n)
    ensures Holds(SettleStep(s, n, tag, multiple), n, t) <==>
      Holds(s, n, t) && !(if multiple then t <= tag && t % n == tag % n else t == tag)
    ensures forall j :: 0 <= j < n && j != tag % n ==> SettleStep(s, n, tag, multiple).unacked[j] == s.unacked[j]
  {
    ChannelAlwaysFound(n, tag);
    assert UpstreamOk(s, n, tag % n);
    if t % n == tag % n {
      SameResidueOrder(t, tag, n);
    }
  }

  /** A multiple settlement does what the protocol asks, settling every held tag up to the given one,
      exactly when no smaller tag of another upstream is held. */
  lemma MultipleIsStandardIff(s: State, n: nat, tag: u64)
    requires Inv(s, n) && Holds(s, n, tag)
    ensures Shaped(SettleStep(s, n, tag, true), n)
    ensures (forall t: nat :: Holds(SettleStep(s, n, tag, true), n, t) <==> Holds(s, n, t) && t > tag)
      <==> (forall t: nat :: Holds(s, n, t) && t <= tag ==> t % n == tag % n)
  {
    var s' := SettleStep(s, n, tag, true);
    forall t: nat
      ensures Holds(s', n, t) <==> Holds(s, n, t) && !(t <= tag && t % n == tag % n)
    {
      SettleExact(s, n, tag, true, t);
    }
    SettleExact(s, n, tag, true, 0);
  }

  /** A multiple settlement of tag 0, which the protocol reads as every outstanding delivery, settles
      those of upstream 0 only. */
  lemma ZeroSettlesFirstUpstream(s: State, n: nat)
    requires Inv(s, n)
    ensures var s' := SettleStep(s, n, 0, true);
      && s'.unacked[0] == {}
      && forall j :: 0 < j < n ==> s'.unacked[j] == s.unacked[j]
  {
    assert 0 % n == 0 && 0 / n == 0;
  }

  lemma ZeroExact(s: State, n: nat, t: nat)
    requires Inv(s, n)
    ensures Shaped(SettleStep(s, n, 0, true), n)
    ensures Holds(SettleStep(s, n, 0, true), n, t) <==> Holds(s, n, t) && t % n != 0 % n
    ensures Holds(s, n, 0) <==> false
  {
    assert 0 % n == 0 && 0 / n == 0;
    assert UpstreamOk(s, n, 0);
  }
}
