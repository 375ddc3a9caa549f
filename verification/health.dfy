/** The health of cluster nodes: probes, thresholds and recovery. Clock readings and the results of dialing
    are inputs. */
module Health {

  datatype Status = Unknown | Healthy | Unhealthy

  /** Fields of a node's status; times are clock readings. */
  datatype Node = Node(status: Status, lastCheck: int, lastSuccess: int, fails: nat)

  datatype Config = Config(threshold: nat, recovery: nat)

  /** One call of checkNode: the clock when it starts, whether dialing succeeds, and the clock at the two
      updates after it. */
  datatype Probe = Probe(start: int, ok: bool, first: int, second: int)

  function SetHealthy(n: Node, p: Probe): Node {
    Node(Healthy, p.first, p.second, 0)
  }

  function IncrementFails(n: Node, now: int): Node {
    n.(fails := n.fails + 1, lastCheck := now)
  }

  function SetUnhealthy(n: Node, now: int): Node {
    n.(status := Unhealthy, fails := n.fails + 1, lastCheck := now)
  }

  /** A regular check of an unhealthy node is skipped until the recovery interval has passed. */
  predicate Skips(n: Node, c: Config, failFast: bool, p: Probe) {
    !failFast && n.status == Unhealthy && p.start - n.lastCheck < c.recovery
  }

  function Check(n: Node, c: Config, failFast: bool, p: Probe): Node {
    if Skips(n, c, failFast, p) then n
    else if p.ok then SetHealthy(n, p)
    else
      var m := IncrementFails(n, p.first);
      if m.fails >= (if failFast then 1 else c.threshold) then SetUnhealthy(m, p.second) else m
  }

  class NodeStatus {
    var status: Status
    var lastCheck: int
    var lastSuccess: int
    var consecutiveFails: nat

    ghost function Contents(): Node
      reads this
    {
      Node(status, lastCheck, lastSuccess, consecutiveFails)
    }

    constructor (zero: int)
      ensures Contents() == Node(Unknown, zero, zero, 0)
    {
      status, lastCheck, lastSuccess, consecutiveFails := Unknown, zero, zero, 0;
    }

    method MarkHealthy(p: Probe)
      modifies this
      ensures Contents() == SetHealthy(old(Contents()), p)
    {
      status := Healthy;
      lastCheck := p.first;
      lastSuccess := p.second;
      consecutiveFails := 0;
    }

    method MarkUnhealthy(now: int)
      modifies this
      ensures Contents() == SetUnhealthy(old(Contents()), now)
    {
      status := Unhealthy;
      lastCheck := now;
      consecutiveFails := consecutiveFails + 1;
    }

    method AddFail(now: int)
      modifies this
      ensures Contents() == IncrementFails(old(Contents()), now)
    {
      consecutiveFails := consecutiveFails + 1;
      lastCheck := now;
    }

    /** checkNode; dialed says whether the node was dialed at all. */
    method CheckNode(c: Config, failFast: bool, p: Probe) returns (dialed: bool)
      modifies this
      ensures Contents() == Check(old(Contents()), c, failFast, p)
      ensures dialed == !Skips(old(Contents()), c, failFast, p)
    {
      var threshold := if failFast then 1 else c.threshold;
      if !failFast && status == Unhealthy {
        var timeSinceLastCheck := p.start - lastCheck;
        if timeSinceLastCheck < c.recovery {
          return false;
        }
      }
      dialed := true;
      if !p.ok {
        AddFail(p.first);
        if consecutiveFails >= threshold {
          MarkUnhealthy(p.second);
        }
        return;
      }
      MarkHealthy(p);
    }
  }

  // ---------- histories ----------

  /** The node after its initial, fail-fast probe and the regular ones after it. */
  function After(c: Config, zero: int, initial: Probe, probes: seq<Probe>): Node {
    if probes == [] then Check(Node(Unknown, zero, zero, 0), c, true, initial)
    else
      var n := After(c, zero, initial, probes[..|probes| - 1]);
      Check(n, c, false, probes[|probes| - 1])
  }

  /** The probes of a history that dialed the node. */
  function Dials(c: Config, zero: int, initial: Probe, probes: seq<Probe>): (ds: seq<Probe>)
    ensures ds != []
  {
    if probes == [] then [initial]
    else
      var before, p := probes[..|probes| - 1], probes[|probes| - 1];
      var ds := Dials(c, zero, initial, before);
      if Skips(After(c, zero, initial, before), c, false, p) then ds else ds + [p]
  }

  /** The number of failures since the last success, or since the start. */
  function Streak(ds: seq<Probe>): (k: nat)
    ensures k <= |ds|
  {
    if ds == [] || ds[|ds| - 1].ok then 0 else 1 + Streak(ds[..|ds| - 1])
  }

  /** The initial probe failed and no dial has succeeded since. */
  ghost predicate NeverUp(ds: seq<Probe>) {
    forall i :: 0 <= i < |ds| ==> !ds[i].ok
  }

  lemma {:induction false} StreakOfAll(ds: seq<Probe>)
    ensures Streak(ds) == |ds| <==> NeverUp(ds)
  {
    if ds != [] {
      var n := |ds| - 1;
      StreakOfAll(ds[..n]);
      if NeverUp(ds[..n]) && !ds[n].ok {
        assert forall i :: 0 <= i < n ==> !ds[..n][i].ok;
      }
      if NeverUp(ds) {
        assert forall i :: 0 <= i < n ==> ds[..n][i] == ds[i];
      }
    }
  }

  /** What the counter is after k failures in a row: a failure that leaves it at the threshold counts twice, as
      does the initial one. */
  function FailCount(k: nat, threshold: nat, neverUp: bool): int {
    if neverUp then
      if k <= 1 then 2 * k
      else if k + 1 < threshold then k + 1
      else 2 * k + 2 - (if threshold <= 3 then 2 else threshold - 1)
    else if k < threshold then k
    else 2 * k + 1 - threshold
  }

  lemma OneMoreDial(ds: seq<Probe>, p: Probe)
    ensures Streak(ds + [p]) == if p.ok then 0 else 1 + Streak(ds)
    ensures NeverUp(ds + [p]) <==> NeverUp(ds) && !p.ok
    ensures NeverUp(ds) <==> Streak(ds) == |ds|
  {
    assert (ds + [p])[..|ds|] == ds && (ds + [p])[|ds|] == p;
    assert forall i :: 0 <= i < |ds| ==> (ds + [p])[i] == ds[i];
    StreakOfAll(ds);
  }

  /** Over every history: a node is unhealthy exactly when it was never up or has failed the threshold in a row,
      otherwise it is healthy; and the counter is that of its failures in a row. */
  lemma {:induction false} StatusExact(c: Config, zero: int, initial: Probe, probes: seq<Probe>)
    requires c.threshold >= 1
    ensures var n := After(c, zero, initial, probes);
      var ds := Dials(c, zero, initial, probes);
      && n.status == (if NeverUp(ds) || Streak(ds) >= c.threshold then Unhealthy else Healthy)
      && n.fails == FailCount(Streak(ds), c.threshold, NeverUp(ds))
  {
    hide Streak; hide NeverUp;
    if probes == [] {
      OneMoreDial([], initial);
      assert [] + [initial] == [initial];
    } else {
      var before, p := probes[..|probes| - 1], probes[|probes| - 1];
      StatusExact(c, zero, initial, before);
      var n, ds := After(c, zero, initial, before), Dials(c, zero, initial, before);
      if !Skips(n, c, false, p) {
        OneMoreDial(ds, p);
      }
    }
  }

  /** The second update of the last success, or the start. */
  function LastSuccess(ds: seq<Probe>, zero: int): int {
    if ds == [] then zero
    else if ds[|ds| - 1].ok then ds[|ds| - 1].second
    else LastSuccess(ds[..|ds| - 1], zero)
  }

  /** Over every history the clocks are those of the last success and of the last dial: its second update when it
      failed and was the first one or left the counter at the threshold, and otherwise its first. */
  lemma {:induction false} ClocksExact(c: Config, zero: int, initial: Probe, probes: seq<Probe>)
    ensures var n := After(c, zero, initial, probes);
      var ds := Dials(c, zero, initial, probes);
      var last := ds[|ds| - 1];
      && n.lastSuccess == LastSuccess(ds, zero)
      && n.lastCheck == if last.ok || (|ds| > 1 && n.fails < c.threshold) then last.first else last.second
  {
    if probes == [] {
      assert LastSuccess([], zero) == zero && [initial][..0] == [];
    } else {
      var before, p := probes[..|probes| - 1], probes[|probes| - 1];
      ClocksExact(c, zero, initial, before);
      var ds := Dials(c, zero, initial, before);
      assert (ds + [p])[..|ds|] == ds;
    }
  }

  /** An unhealthy node is dialed again only when the recovery interval has passed since the first update
      of its last dial, with a clock that does not go back. */
  lemma RedialAfterRecovery(c: Config, zero: int, initial: Probe, probes: seq<Probe>, p: Probe)
    requires var ds := Dials(c, zero, initial, probes); ds[|ds| - 1].first <= ds[|ds| - 1].second
    requires After(c, zero, initial, probes).status == Unhealthy
    requires Dials(c, zero, initial, probes + [p]) != Dials(c, zero, initial, probes)
    ensures var ds := Dials(c, zero, initial, probes);
      p.start - After(c, zero, initial, probes).lastCheck >= c.recovery && p.start >= ds[|ds| - 1].first + c.recovery
  {
    assert (probes + [p])[..|probes|] == probes;
    ClocksExact(c, zero, initial, probes);
  }

  /** However many probes come before that moment, none of them dials or changes the node; the first one
      after it is a dial. */
  lemma {:induction false} SkippedUntilRecovery(c: Config, zero: int, initial: Probe, probes: seq<Probe>,
                                                waiting: seq<Probe>, p: Probe)
    requires After(c, zero, initial, probes).status == Unhealthy
    requires forall i :: 0 <= i < |waiting| ==>
      waiting[i].start < After(c, zero, initial, probes).lastCheck + c.recovery
    ensures After(c, zero, initial, probes + waiting) == After(c, zero, initial, probes)
    ensures Dials(c, zero, initial, probes + waiting + [p]) == Dials(c, zero, initial, probes)
      + (if p.start >= After(c, zero, initial, probes).lastCheck + c.recovery then [p] else [])
    decreases |waiting|
  {
    var all := probes + waiting;
    assert (all + [p])[..|all|] == all;
    if waiting == [] {
      assert all == probes;
    } else {
      var m := |waiting| - 1;
      SkippedUntilRecovery(c, zero, initial, probes, waiting[..m], waiting[m]);
      assert probes + waiting[..m] + [waiting[m]] == all && all[..|all| - 1] == probes + waiting[..m];
    }
  }

  // ---------- the nodes of a cluster ----------

  predicate Usable(s: Status) {
    s == Healthy || s == Unknown
  }

  function UsableNodes(nodes: map<string, Status>): set<string> {
    set a | a in nodes && Usable(nodes[a])
  }

  function Elements(list: seq<string>): set<string> {
    set i | 0 <= i < |list| :: list[i]
  }

  ghost predicate Distinct(list: seq<string>) {
    forall i, j :: 0 <= i < j < |list| ==> list[i] != list[j]
  }

  lemma ElementsSnoc(list: seq<string>, a: string)
    ensures Elements(list + [a]) == Elements(list) + {a}
  {
    forall x | x in Elements(list) + {a}
      ensures x in Elements(list + [a])
    {
      if x == a {
        assert (list + [a])[|list|] == x;
      } else {
        var i :| 0 <= i < |list| && list[i] == x;
        assert (list + [a])[i] == x;
      }
    }
  }

  /** The usable nodes, each once, in the order the map is ranged over; all nodes when none is usable. */
  method GetHealthyNodes(nodes: map<string, Status>) returns (healthy: seq<string>)
    ensures Distinct(healthy)
    ensures Elements(healthy) == if UsableNodes(nodes) == {} then nodes.Keys else UsableNodes(nodes)
  {
    healthy := [];
    var todo := nodes.Keys;
    while todo != {}
      invariant todo <= nodes.Keys && Distinct(healthy)
      invariant Elements(healthy) == UsableNodes(nodes) - todo
      decreases todo
    {
      var addr :| addr in todo;
      if Usable(nodes[addr]) {
        ElementsSnoc(healthy, addr);
        DistinctSnoc(healthy, addr);
        healthy := healthy + [addr];
      }
      todo := todo - {addr};
    }
    if |healthy| == 0 {
      assert UsableNodes(nodes) == {};
      todo := nodes.Keys;
      while todo != {}
        invariant todo <= nodes.Keys && Distinct(healthy)
        invariant Elements(healthy) == nodes.Keys - todo
        decreases todo
      {
        var addr :| addr in todo;
        ElementsSnoc(healthy, addr);
        DistinctSnoc(healthy, addr);
        healthy := healthy + [addr];
        todo := todo - {addr};
      }
    } else {
      assert healthy[0] in Elements(healthy);
    }
  }

  lemma DistinctSnoc(list: seq<string>, a: string)
    requires Distinct(list) && a !in Elements(list)
    ensures Distinct(list + [a])
  {
    forall i, j | 0 <= i < j < |list + [a]|
      ensures (list + [a])[i] != (list + [a])[j]
    {
      if j == |list| {
        assert list[i] in Elements(list);
      }
    }
  }

  /** How many nodes are usable and how many are not. */
  method GetHealthSummary(nodes: map<string, Status>) returns (healthy: nat, unhealthy: nat)
    ensures healthy == |UsableNodes(nodes)|
    ensures healthy + unhealthy == |nodes|
  {
    healthy, unhealthy := 0, 0;
    ghost var seen: set<string> := {};
    var todo := nodes.Keys;
    while todo != {}
      invariant todo <= nodes.Keys && seen == UsableNodes(nodes) - todo && healthy == |seen|
      invariant healthy + unhealthy + |todo| == |nodes.Keys|
      decreases todo
    {
      var addr :| addr in todo;
      match nodes[addr] {
        case Healthy => healthy := healthy + 1; seen := seen + {addr};
        case Unknown => healthy := healthy + 1; seen := seen + {addr};
        case Unhealthy => unhealthy := unhealthy + 1;
      }
      todo := todo - {addr};
    }
    assert seen == UsableNodes(nodes);
  }
}
