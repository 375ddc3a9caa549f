/** Any number of Confirm.Selects on a channel, and publishes that fail. Each Confirm.Select installs a new
    confirmState, counting from 1 again, with a listener per upstream of its own, and leaves the earlier ones
    in place: an upstream tells every listener registered on its channel about a confirmation. */
module Reselect {
  import opened Octets
  import opened Wrappers
  import opened Confirms

  /** One Confirm.Select's confirmState and listeners: heard counts, per upstream, the confirmations its
      listener is past, and stopped are the upstreams whose listener returned. Two fields are history: pubs,
      the keys recorded, so client tag k is that of pubs[k - 1]; failed, the tags whose publishing failed. */
  datatype Selected = Selected(book: Book, heard: seq<nat>, stopped: set<nat>, pubs: seq<Key>, failed: set<nat>)

  /** A confirmation the client received: through which Confirm.Select's listener, for which message of an
      upstream, and under which tag. */
  datatype Receipt = Receipt(g: nat, key: Key, tag: nat)

  /** published counts the messages each upstream has numbered, from the first Confirm.Select on. */
  datatype Channel = Channel(selects: seq<Selected>, published: seq<nat>, arrived: seq<nat>, log: seq<Receipt>)

  datatype Event =
    | Reselect                // the client sends Confirm.Select
    | Send(i: nat)            // the client publishes, and upstream i accepts the message
    | SendFails(i: nat)       // the client publishes, and upstream i fails to: its number is not used up
    | Arrive(i: nat)          // upstream i's next confirmation arrives
    | Hear(g: nat, i: nat)    // a listener handles its next confirmation, skipping one without an entry
    | Stop(g: nat, i: nat)    // a listener cannot send what it looked up, and returns

  function Fresh(n: nat): Channel {
    Channel([], Zeros(n), Zeros(n), [])
  }

  predicate Formed(c: Channel) {
    |c.published| == |c.arrived| && forall g :: 0 <= g < |c.selects| ==> |c.selects[g].heard| == |c.arrived|
  }

  predicate CanHear(c: Channel, g: nat, i: nat)
    requires Formed(c)
  {
    && g < |c.selects| && i < |c.arrived| && i !in c.selects[g].stopped && c.selects[g].heard[i] < c.arrived[i]
  }

  predicate CanPublish(c: Channel, i: nat) {
    i < |c.published| && (c.selects != [] ==> c.selects[|c.selects| - 1].book.clientTag + 1 < TWO64)
  }

  predicate CanHappen(c: Channel, e: Event)
    requires Formed(c)
  {
    match e
    case Reselect => true
    case Send(i) => CanPublish(c, i)
    case SendFails(i) => CanPublish(c, i)
    case Arrive(i) => i < |c.published| && c.arrived[i] < c.published[i]
    case Hear(g, i) => CanHear(c, g, i)
    case Stop(g, i) => CanHear(c, g, i) && NextKey(c, g, i) in c.selects[g].book.tagMap
  }

  function NextKey(c: Channel, g: nat, i: nat): Key
    requires Formed(c) && g < |c.selects| && i < |c.arrived|
  {
    Key(i, c.selects[g].heard[i] + 1)
  }

  /** A publish is recorded under the next number of its upstream, if there was a Confirm.Select. */
  function Recorded(c: Channel, i: nat, fails: bool): Channel
    requires i < |c.published|
  {
    if c.selects == [] then c
    else
      var last, key := |c.selects| - 1, Key(i, c.published[i] + 1);
      var s := c.selects[last];
      var tag := |s.pubs| + 1;
      c.(selects := c.selects[last := s.(book := Record(s.book, key), pubs := s.pubs + [key],
                                         failed := if fails then s.failed + {tag} else s.failed)],
         published := if fails then c.published else c.published[i := c.published[i] + 1])
  }

  function Happen(c: Channel, e: Event): Channel
    requires Formed(c) && CanHappen(c, e)
  {
    match e
    case Reselect => c.(selects := c.selects + [Selected(EMPTY_BOOK, c.arrived, {}, [], {})])
    case Send(i) => Recorded(c, i, false)
    case SendFails(i) => Recorded(c, i, true)
    case Arrive(i) => c.(arrived := c.arrived[i := c.arrived[i] + 1])
    case Hear(g, i) =>
      var s, key := c.selects[g], NextKey(c, g, i);
      var (book, found) := Lookup(s.book, key);
      c.(selects := c.selects[g := s.(book := book, heard := s.heard[i := key.tag])],
         log := c.log + (if found.Some? then [Receipt(g, key, found.value)] else []))
    case Stop(g, i) =>
      var s, key := c.selects[g], NextKey(c, g, i);
      c.(selects := c.selects[g := s.(book := Lookup(s.book, key).0, heard := s.heard[i := key.tag],
                                      stopped := s.stopped + {i})])
  }

  function Run(n: nat, es: seq<Event>): Option<Channel> {
    if es == [] then Some(Fresh(n))
    else
      match Run(n, es[..|es| - 1])
      case None => None
      case Some(c) =>
        var e := es[|es| - 1];
        if Formed(c) && CanHappen(c, e) then Some(Happen(c, e)) else None
  }

  // ---------- one Confirm.Select ----------

  function Pub(s: Selected, k: nat): Key
    requires 1 <= k <= |s.pubs|
  {
    s.pubs[k - 1]
  }

  /** No later publish was recorded under the key of tag k. */
  ghost predicate Last(s: Selected, k: nat)
    requires 1 <= k <= |s.pubs|
  {
    forall j :: k < j <= |s.pubs| ==> Pub(s, j) != Pub(s, k)
  }

  /** Every number recorded is used up or the next one, and the next one only after a failure; and once a
      listener is past it, its last tag has reached the client, unless the listener stopped at it. */
  ghost predicate PubOk(c: Channel, g: nat, k: nat)
    requires Formed(c) && g < |c.selects| && 1 <= k <= |c.selects[g].pubs|
  {
    var s := c.selects[g];
    var key := Pub(s, k);
    && key.upstream < |c.published| && 1 <= key.tag <= c.published[key.upstream] + 1
    && (key.tag <= c.published[key.upstream] || k in s.failed)
    && (key in s.book.tagMap <==> key.tag > s.heard[key.upstream])
    && (Last(s, k) && key.tag <= s.heard[key.upstream] ==>
      Receipt(g, key, k) in c.log || (key.upstream in s.stopped && key.tag == s.heard[key.upstream]))
  }

  /** The map holds the last tag of each key. */
  ghost predicate EntryOk(s: Selected, key: Key)
    requires key in s.book.tagMap
  {
    var k := s.book.tagMap[key];
    1 <= k <= |s.pubs| && Pub(s, k) == key && Last(s, k)
  }

  ghost predicate SelectOk(c: Channel, g: nat)
    requires Formed(c) && g < |c.selects|
  {
    var s := c.selects[g];
    && s.book.clientTag == |s.pubs| < TWO64
    && (forall i :: 0 <= i < |c.arrived| ==> s.heard[i] <= c.arrived[i])
    && (forall k :: 1 <= k <= |s.pubs| ==> PubOk(c, g, k))
    && (forall key :: key in s.book.tagMap ==> EntryOk(s, key))
    && (forall k :: k in s.failed ==> 1 <= k <= |s.pubs|)
  }

  ghost predicate ReceiptOk(c: Channel, r: Receipt)
    requires Formed(c)
  {
    && r.g < |c.selects| && 1 <= r.tag <= |c.selects[r.g].pubs|
    && Pub(c.selects[r.g], r.tag) == r.key && Last(c.selects[r.g], r.tag)
    && r.key.upstream < |c.arrived| && r.key.tag <= c.selects[r.g].heard[r.key.upstream]
  }

  ghost predicate ChannelOk(c: Channel) {
    && Formed(c) && (forall i :: 0 <= i < |c.arrived| ==> c.arrived[i] <= c.published[i])
    && (forall g :: 0 <= g < |c.selects| ==> SelectOk(c, g))
    && (forall r :: r in c.log ==> ReceiptOk(c, r))
    && (forall a, b :: 0 <= a < b < |c.log| ==> c.log[a] != c.log[b])
  }

  lemma PassedReceipt(c: Channel, g: nat, i: nat, r: Receipt)
    requires ChannelOk(c) && CanHear(c, g, i) && r in c.log && r.g == g
    ensures r.key != NextKey(c, g, i)
  {
    assert ReceiptOk(c, r);
  }

  /** Both ways a listener gets past a confirmation. */
  lemma HearSelect(c: Channel, e: Event, h: nat)
    requires ChannelOk(c) && CanHappen(c, e) && (e.Hear? || e.Stop?) && h < |c.selects|
    ensures Formed(Happen(c, e)) && SelectOk(Happen(c, e), h)
  {
    hide ReceiptOk; hide Last;
    var c' := Happen(c, e);
    var s, s' := c.selects[h], c'.selects[h];
    assert SelectOk(c, h);
    forall k | 1 <= k <= |s.pubs|
      ensures PubOk(c', h, k)
    {
      assert PubOk(c, h, k);
      SameLast(s, s', k);
      if Last(s, k) && h == e.g && Pub(s, k) == NextKey(c, h, e.i) {
        assert EntryOk(s, Pub(s, k));
        OneLast(s, k, s.book.tagMap[Pub(s, k)]);
      }
    }
    forall key | key in s'.book.tagMap
      ensures EntryOk(s', key)
    {
      assert EntryOk(s, key);
      SameLast(s, s', s.book.tagMap[key]);
    }
  }

  lemma OneLast(s: Selected, j: nat, k: nat)
    requires 1 <= j <= |s.pubs| && 1 <= k <= |s.pubs| && Last(s, j) && Last(s, k) && Pub(s, j) == Pub(s, k)
    ensures j == k
  {
  }

  lemma SameLast(s: Selected, t: Selected, k: nat)
    requires s.pubs == t.pubs && 1 <= k <= |s.pubs|
    ensures Last(s, k) <==> Last(t, k)
  {
    assert forall j :: 1 <= j <= |s.pubs| ==> Pub(t, j) == Pub(s, j);
  }

  lemma HearReceipt(c: Channel, e: Event, r: Receipt)
    requires ChannelOk(c) && CanHappen(c, e) && (e.Hear? || e.Stop?) && r in Happen(c, e).log
    ensures Formed(Happen(c, e)) && ReceiptOk(Happen(c, e), r)
  {
    var c' := Happen(c, e);
    if r in c.log {
      assert ReceiptOk(c, r);
    } else {
      assert SelectOk(c, e.g) && EntryOk(c.selects[e.g], r.key);
    }
    SameLast(c.selects[r.g], c'.selects[r.g], r.tag);
  }

  lemma HearOk(c: Channel, e: Event)
    requires ChannelOk(c) && CanHappen(c, e) && (e.Hear? || e.Stop?)
    ensures ChannelOk(Happen(c, e))
  {
    hide SelectOk; hide ReceiptOk;
    var c' := Happen(c, e);
    forall h | 0 <= h < |c.selects|
      ensures SelectOk(c', h)
    {
      HearSelect(c, e, h);
    }
    forall r | r in c'.log
      ensures ReceiptOk(c', r)
    {
      HearReceipt(c, e, r);
    }
    forall r | r in c.log && r.g == e.g
      ensures r.key != NextKey(c, e.g, e.i)
    {
      PassedReceipt(c, e.g, e.i, r);
    }
  }

  /** Recording a key not heard yet leaves the other keys' last tags alone. */
  lemma LastSnoc(s: Selected, t: Selected, key: Key, k: nat)
    requires t.pubs == s.pubs + [key] && 1 <= k <= |s.pubs|
    ensures Pub(t, k) == Pub(s, k) && (Last(t, k) <==> Last(s, k) && Pub(s, k) != key)
  {
    assert forall j :: 1 <= j <= |s.pubs| ==> Pub(t, j) == Pub(s, j);
    assert Pub(t, |t.pubs|) == key;
  }

  lemma RecordSelect(c: Channel, i: nat, fails: bool, h: nat)
    requires ChannelOk(c) && CanPublish(c, i) && h < |c.selects|
    ensures Formed(Recorded(c, i, fails)) && SelectOk(Recorded(c, i, fails), h)
  {
    hide ReceiptOk; hide Last;
    var c', key := Recorded(c, i, fails), Key(i, c.published[i] + 1);
    var s, s' := c.selects[h], c'.selects[h];
    assert SelectOk(c, h);
    if h == |c.selects| - 1 {
      forall k | 1 <= k <= |s'.pubs|
        ensures PubOk(c', h, k)
      {
        if k <= |s.pubs| {
          assert PubOk(c, h, k);
          LastSnoc(s, s', key, k);
        }
      }
      forall x | x in s'.book.tagMap
        ensures EntryOk(s', x)
      {
        if x == key {
          LastIsLast(s');
        } else {
          assert EntryOk(s, x);
          LastSnoc(s, s', key, s.book.tagMap[x]);
        }
      }
    } else {
      forall k | 1 <= k <= |s'.pubs|
        ensures PubOk(c', h, k)
      {
        assert PubOk(c, h, k);
      }
    }
  }

  lemma LastIsLast(s: Selected)
    requires s.pubs != []
    ensures Last(s, |s.pubs|)
  {
  }

  lemma RecordOk(c: Channel, i: nat, fails: bool)
    requires ChannelOk(c) && CanPublish(c, i)
    ensures ChannelOk(Recorded(c, i, fails))
  {
    hide SelectOk; hide Last;
    var c', key := Recorded(c, i, fails), Key(i, c.published[i] + 1);
    forall h | 0 <= h < |c.selects|
      ensures SelectOk(c', h)
    {
      RecordSelect(c, i, fails, h);
    }
    forall r | r in c'.log
      ensures ReceiptOk(c', r)
    {
      assert ReceiptOk(c, r);
      HeardBefore(c, r.g, r.key.upstream);
      if r.g == |c.selects| - 1 {
        LastSnoc(c.selects[r.g], c'.selects[r.g], key, r.tag);
      }
    }
  }

  lemma HeardBefore(c: Channel, g: nat, i: nat)
    requires ChannelOk(c) && g < |c.selects| && i < |c.arrived|
    ensures c.selects[g].heard[i] <= c.arrived[i] <= c.published[i]
  {
    assert SelectOk(c, g);
  }

  lemma HappenOk(c: Channel, e: Event)
    requires ChannelOk(c) && CanHappen(c, e)
    ensures ChannelOk(Happen(c, e))
  {
    match e {
      case Hear(_, _) => HearOk(c, e);
      case Stop(_, _) => HearOk(c, e);
      case Send(i) => RecordOk(c, i, false);
      case SendFails(i) => RecordOk(c, i, true);
      case Reselect => QuietOk(c, e);
      case Arrive(_) => QuietOk(c, e);
    }
  }

  lemma QuietOk(c: Channel, e: Event)
    requires ChannelOk(c) && CanHappen(c, e) && (e.Reselect? || e.Arrive?)
    ensures ChannelOk(Happen(c, e))
  {
    hide Last;
    var c' := Happen(c, e);
    forall h | 0 <= h < |c'.selects|
      ensures SelectOk(c', h)
    {
      if h < |c.selects| {
        assert SelectOk(c, h);
        forall k | 1 <= k <= |c.selects[h].pubs|
          ensures PubOk(c', h, k)
        {
          assert PubOk(c, h, k);
        }
      }
    }
    forall r | r in c'.log
      ensures ReceiptOk(c', r)
    {
      assert ReceiptOk(c, r);
    }
  }

  lemma {:induction false} RunOk(n: nat, es: seq<Event>)
    requires Run(n, es).Some?
    ensures ChannelOk(Run(n, es).value)
  {
    hide ChannelOk; hide Happen; hide CanHappen;
    if es == [] {
      FreshOk(n);
    } else {
      RunOk(n, es[..|es| - 1]);
      HappenOk(Run(n, es[..|es| - 1]).value, es[|es| - 1]);
    }
  }

  lemma FreshOk(n: nat)
    ensures ChannelOk(Fresh(n))
  {
  }

  // ---------- what a run's continuations keep ----------

  lemma RunSnoc(n: nat, es: seq<Event>, e: Event)
    requires Run(n, es).Some? && Formed(Run(n, es).value) && CanHappen(Run(n, es).value, e)
    ensures Run(n, es + [e]) == Some(Happen(Run(n, es).value, e))
  {
    assert (es + [e])[..|es|] == es;
  }

  ghost predicate Grown(s: Selected, t: Selected) {
    s.pubs <= t.pubs && s.stopped <= t.stopped
  }

  /** d continues c: Confirm.Selects only get more publishes and stops, and what is received more does not
      come through a listener that had stopped. */
  ghost predicate Continues(c: Channel, d: Channel) {
    && |c.selects| <= |d.selects| && c.log <= d.log
    && (forall g :: 0 <= g < |c.selects| ==> Grown(c.selects[g], d.selects[g]))
    && forall a :: |c.log| <= a < |d.log| && d.log[a].g < |c.selects| ==>
      d.log[a].key.upstream !in c.selects[d.log[a].g].stopped
  }

  lemma ContinuesStep(b: Channel, c: Channel, e: Event)
    requires Continues(b, c) && Formed(c) && CanHappen(c, e)
    ensures Continues(b, Happen(c, e))
  {
    var d := Happen(c, e);
    forall g | 0 <= g < |b.selects|
      ensures Grown(b.selects[g], d.selects[g])
    {
      assert Grown(b.selects[g], c.selects[g]);
    }
    assert e.Hear? && e.g < |b.selects| ==> Grown(b.selects[e.g], c.selects[e.g]);
  }

  lemma {:induction false} RunContinues(n: nat, es: seq<Event>, more: seq<Event>)
    requires Run(n, es + more).Some?
    ensures Run(n, es).Some? && Continues(Run(n, es).value, Run(n, es + more).value)
    decreases |more|
  {
    hide Continues; hide Happen; hide CanHappen;
    if more == [] {
      assert es + more == es;
      ContinuesItself(Run(n, es).value);
    } else {
      var m := |more| - 1;
      assert (es + more)[..|es + more| - 1] == es + more[..m];
      RunContinues(n, es, more[..m]);
      ContinuesStep(Run(n, es).value, Run(n, es + more[..m]).value, more[m]);
    }
  }

  lemma ContinuesItself(c: Channel)
    ensures Continues(c, c)
  {
  }

  /** No Confirm.Select and no publish. */
  predicate Settling(es: seq<Event>) {
    forall k :: 0 <= k < |es| ==> es[k].Arrive? || es[k].Hear? || es[k].Stop?
  }

  ghost predicate SamePubs(c: Channel, d: Channel) {
    && |c.selects| == |d.selects| && c.published == d.published
    && forall g :: 0 <= g < |c.selects| ==> c.selects[g].pubs == d.selects[g].pubs
  }

  lemma {:induction false} SettlingKeepsPubs(n: nat, es: seq<Event>, more: seq<Event>)
    requires Run(n, es + more).Some? && Settling(more)
    ensures Run(n, es).Some? && SamePubs(Run(n, es).value, Run(n, es + more).value)
    decreases |more|
  {
    if more == [] {
      assert es + more == es;
    } else {
      var m := |more| - 1;
      assert (es + more)[..|es + more| - 1] == es + more[..m];
      SettlingKeepsPubs(n, es, more[..m]);
      assert more[m].Arrive? || more[m].Hear? || more[m].Stop?;
    }
  }

  // ---------- which tags a Confirm.Select's listeners can confirm ----------

  /** Confirm.Select g's listeners have confirmed its tag k. */
  ghost predicate Got(c: Channel, g: nat, k: nat) {
    exists a :: 0 <= a < |c.log| && c.log[a].g == g && c.log[a].tag == k
  }

  /** Confirmations can arrive and be heard until upstream i's listener of g is past number t. */
  lemma HearUpTo(n: nat, es: seq<Event>, g: nat, i: nat, t: nat) returns (more: seq<Event>)
    requires Run(n, es).Some? && Formed(Run(n, es).value)
    requires g < |Run(n, es).value.selects| && i < |Run(n, es).value.published| && t <= Run(n, es).value.published[i]
    requires i !in Run(n, es).value.selects[g].stopped
    ensures Settling(more) && Run(n, es + more).Some?
    ensures var c, d := Run(n, es).value, Run(n, es + more).value;
      && SamePubs(c, d) && Formed(d) && d.selects[g].heard[i] >= t
      && forall h :: 0 <= h < |c.selects| ==> d.selects[h].stopped == c.selects[h].stopped
    decreases 2 * (t - Run(n, es).value.selects[g].heard[i])
      - (if Run(n, es).value.selects[g].heard[i] < Run(n, es).value.arrived[i] then 1 else 0) + 1
  {
    hide Run;
    var c := Run(n, es).value;
    RunOk(n, es);
    if c.selects[g].heard[i] >= t {
      more := [];
      assert es + more == es;
    } else {
      HeardBefore(c, g, i);
      var e := if c.selects[g].heard[i] < c.arrived[i] then Hear(g, i) else Arrive(i);
      RunSnoc(n, es, e);
      more := HearUpTo(n, es + [e], g, i, t);
      assert es + [e] + more == es + ([e] + more);
      more := [e] + more;
    }
  }

  /** Tag k of Confirm.Select g: no later publish was recorded under its key, and its listener has confirmed it
      or goes on. */
  ghost predicate Open(c: Channel, g: nat, k: nat)
    requires g < |c.selects| && 1 <= k <= |c.selects[g].pubs|
  {
    Last(c.selects[g], k) && (Got(c, g, k) || Pub(c.selects[g], k).upstream !in c.selects[g].stopped)
  }

  /** The number tag k was recorded under has been used up. */
  predicate UsedUp(c: Channel, g: nat, k: nat)
    requires g < |c.selects| && 1 <= k <= |c.selects[g].pubs|
  {
    var key := Pub(c.selects[g], k);
    key.upstream < |c.published| && key.tag <= c.published[key.upstream]
  }

  lemma PastIsGot(c: Channel, g: nat, k: nat)
    requires ChannelOk(c) && g < |c.selects| && 1 <= k <= |c.selects[g].pubs| && Last(c.selects[g], k)
    requires var key := Pub(c.selects[g], k);
      key.upstream < |c.arrived| && key.tag <= c.selects[g].heard[key.upstream] && key.upstream !in c.selects[g].stopped
    ensures Got(c, g, k)
  {
    hide Last;
    assert SelectOk(c, g) && PubOk(c, g, k);
    var a :| 0 <= a < |c.log| && c.log[a] == Receipt(g, Pub(c.selects[g], k), k);
  }

  lemma GotIsOk(c: Channel, g: nat, k: nat)
    requires ChannelOk(c) && Got(c, g, k)
    ensures g < |c.selects| && 1 <= k <= |c.selects[g].pubs| && Last(c.selects[g], k) && UsedUp(c, g, k)
  {
    hide Last;
    var a :| 0 <= a < |c.log| && c.log[a].g == g && c.log[a].tag == k;
    assert ReceiptOk(c, c.log[a]);
    HeardBefore(c, g, c.log[a].key.upstream);
  }

  lemma GetSettled(n: nat, es: seq<Event>, g: nat, k: nat) returns (more: seq<Event>)
    requires Run(n, es).Some?
    requires var c := Run(n, es).value;
      g < |c.selects| && 1 <= k <= |c.selects[g].pubs| && Open(c, g, k) && UsedUp(c, g, k)
    ensures Settling(more) && Run(n, es + more).Some? && Got(Run(n, es + more).value, g, k)
    ensures var c, d := Run(n, es).value, Run(n, es + more).value;
      SamePubs(c, d) && forall h :: 0 <= h < |c.selects| ==> d.selects[h].stopped == c.selects[h].stopped
  {
    hide Run; hide ChannelOk; hide Last; hide Got;
    var c := Run(n, es).value;
    RunOk(n, es);
    if Got(c, g, k) {
      more := [];
      assert es + more == es;
    } else {
      var key := Pub(c.selects[g], k);
      OkIsFormed(c);
      more := HearUpTo(n, es, g, key.upstream, key.tag);
      var d := Run(n, es + more).value;
      RunOk(n, es + more);
      SameLast(c.selects[g], d.selects[g], k);
      assert Pub(d.selects[g], k) == key;
      PastIsGot(d, g, k);
    }
  }

  lemma OkIsFormed(c: Channel)
    requires ChannelOk(c)
    ensures Formed(c)
  {
  }

  /** A continuation that lets the client receive tag k of Confirm.Select g. */
  ghost predicate Gets(n: nat, es: seq<Event>, g: nat, k: nat) {
    Run(n, es).Some? && Got(Run(n, es).value, g, k)
  }

  lemma GotBefore(c: Channel, d: Channel, g: nat, k: nat)
    requires ChannelOk(c) && ChannelOk(d) && Continues(c, d) && Got(d, g, k)
    requires g < |c.selects| && 1 <= k <= |c.selects[g].pubs|
    ensures Open(c, g, k)
  {
    var s, t := c.selects[g], d.selects[g];
    assert Grown(s, t);
    GotIsOk(d, g, k);
    assert forall j :: 1 <= j <= |s.pubs| ==> Pub(t, j) == Pub(s, j);
    var a :| 0 <= a < |d.log| && d.log[a].g == g && d.log[a].tag == k;
    assert ReceiptOk(d, d.log[a]);
    if a < |c.log| {
      assert c.log[a] == d.log[a];
    }
  }

  /** From every reachable state, with no publish and no Confirm.Select to come: g's listeners can confirm
      its tag k if and only if it is open and its number has been used up. */
  lemma SettledConfirmableIff(n: nat, es: seq<Event>, g: nat, k: nat)
    requires Run(n, es).Some?
    requires g < |Run(n, es).value.selects| && 1 <= k <= |Run(n, es).value.selects[g].pubs|
    ensures var c := Run(n, es).value;
      (exists more: seq<Event> :: Settling(more) && Gets(n, es + more, g, k)) <==> Open(c, g, k) && UsedUp(c, g, k)
  {
    hide Run; hide Open; hide Got; hide ChannelOk; hide Continues; hide Settling;
    var c := Run(n, es).value;
    RunOk(n, es);
    if Open(c, g, k) && UsedUp(c, g, k) {
      var more := GetSettled(n, es, g, k);
      assert Settling(more) && Gets(n, es + more, g, k);
    }
    forall more: seq<Event> | Settling(more) && Gets(n, es + more, g, k)
      ensures Open(c, g, k) && UsedUp(c, g, k)
    {
      var d := Run(n, es + more).value;
      RunOk(n, es + more);
      RunContinues(n, es, more);
      SettlingKeepsPubs(n, es, more);
      GotBefore(c, d, g, k);
      GotIsOk(d, g, k);
      assert c.selects[g].pubs == d.selects[g].pubs;
    }
  }

  /** From every reachable state: g's listeners can come to confirm its tag k if and only if no later publish
      of g was recorded under its key, and its listener has confirmed it or goes on. A number not used up
      can still be, by a publish after another Confirm.Select. */
  lemma ConfirmableIff(n: nat, es: seq<Event>, g: nat, k: nat)
    requires Run(n, es).Some?
    requires g < |Run(n, es).value.selects| && 1 <= k <= |Run(n, es).value.selects[g].pubs|
    ensures (exists more: seq<Event> :: Gets(n, es + more, g, k)) <==> Open(Run(n, es).value, g, k)
  {
    hide Run; hide Open; hide Got; hide ChannelOk; hide Continues;
    var c := Run(n, es).value;
    RunOk(n, es);
    if Open(c, g, k) {
      var first := UseUp(n, es, g, k);
      var more := GetSettled(n, es + first, g, k);
      assert es + first + more == es + (first + more);
      assert Gets(n, es + (first + more), g, k);
    }
    forall more: seq<Event> | Gets(n, es + more, g, k)
      ensures Open(c, g, k)
    {
      RunOk(n, es + more);
      RunContinues(n, es, more);
      GotBefore(c, Run(n, es + more).value, g, k);
    }
  }

  /** The next number is used up by a publish after another Confirm.Select, which leaves g's keys alone. */
  lemma UseUp(n: nat, es: seq<Event>, g: nat, k: nat) returns (more: seq<Event>)
    requires Run(n, es).Some?
    requires var c := Run(n, es).value; g < |c.selects| && 1 <= k <= |c.selects[g].pubs| && Open(c, g, k)
    ensures Run(n, es + more).Some?
    ensures var d := Run(n, es + more).value;
      g < |d.selects| && 1 <= k <= |d.selects[g].pubs| && Open(d, g, k) && UsedUp(d, g, k)
  {
    hide Run; hide Last;
    var c := Run(n, es).value;
    RunOk(n, es);
    assert SelectOk(c, g) && PubOk(c, g, k);
    if UsedUp(c, g, k) {
      more := [];
      assert es + more == es;
    } else {
      var i := Pub(c.selects[g], k).upstream;
      RunSnoc(n, es, Reselect);
      var c1 := Happen(c, Reselect);
      RunSnoc(n, es + [Reselect], Send(i));
      more := [Reselect] + [Send(i)];
      assert es + [Reselect] + [Send(i)] == es + more;
      var d := Happen(c1, Send(i));
      assert d.selects[g] == c.selects[g] && d.log == c.log;
      assert Got(c, g, k) ==> Got(d, g, k);
    }
  }

  // ---------- whose publish uses a number up ----------

  /** Publish j of Confirm.Select h was accepted. */
  predicate Accepted(c: Channel, h: nat, j: nat) {
    h < |c.selects| && 1 <= j <= |c.selects[h].pubs| && j !in c.selects[h].failed
  }

  /** Publish k of g came after publish j of h. */
  predicate Before(h: nat, j: nat, g: nat, k: nat) {
    h < g || (h == g && j < k)
  }

  /** After an accepted publish its number is not recorded again. */
  ghost predicate OrderOk(c: Channel, h: nat, j: nat, g: nat, k: nat) {
    Accepted(c, h, j) && g < |c.selects| && 1 <= k <= |c.selects[g].pubs| && Before(h, j, g, k) ==>
      Pub(c.selects[h], j) != Pub(c.selects[g], k)
  }

  ghost predicate AcceptedUnder(c: Channel, h: nat, j: nat, key: Key) {
    Accepted(c, h, j) && Pub(c.selects[h], j) == key
  }

  ghost predicate UserOk(c: Channel, i: nat, t: nat) {
    i < |c.published| && 1 <= t <= c.published[i] ==> exists h: nat, j: nat :: AcceptedUnder(c, h, j, Key(i, t))
  }

  ghost predicate NumbersOk(c: Channel) {
    && (forall h: nat, j: nat, g: nat, k: nat :: OrderOk(c, h, j, g, k))
    && (forall h: nat, j: nat :: Accepted(c, h, j) ==> UsedUp(c, h, j))
    && (forall i: nat, t: nat :: UserOk(c, i, t))
  }

  lemma FailedInRange(c: Channel, g: nat)
    requires ChannelOk(c) && g < |c.selects|
    ensures forall k :: k in c.selects[g].failed ==> 1 <= k <= |c.selects[g].pubs|
  {
    assert SelectOk(c, g);
  }

  lemma RecordNumbers(c: Channel, i: nat, fails: bool)
    requires ChannelOk(c) && CanPublish(c, i) && NumbersOk(c)
    ensures NumbersOk(Recorded(c, i, fails))
  {
    hide SelectOk; hide ReceiptOk;
    var d := Recorded(c, i, fails);
    if c.selects != [] {
      var last := |c.selects| - 1;
      var s, s', key := c.selects[last], d.selects[last], Key(i, c.published[i] + 1);
      var new_ := |s'.pubs|;
      assert new_ !in s.failed by { FailedInRange(c, last); }
      forall h: nat, j: nat | Accepted(d, h, j)
        ensures UsedUp(d, h, j)
        ensures (h, j) == (last, new_) || (Accepted(c, h, j) && Pub(d.selects[h], j) == Pub(c.selects[h], j))
      {
        assert (h, j) != (last, new_) ==> Accepted(c, h, j);
      }
      forall h: nat, j: nat, g: nat, k: nat
        ensures OrderOk(d, h, j, g, k)
      {
        assert OrderOk(c, h, j, g, k);
        assert Accepted(c, h, j) ==> UsedUp(c, h, j);
      }
      forall u: nat, t: nat
        ensures UserOk(d, u, t)
      {
        assert UserOk(c, u, t);
        if u < |c.published| && 1 <= t <= c.published[u] {
          var h: nat, j: nat :| AcceptedUnder(c, h, j, Key(u, t));
          assert AcceptedUnder(d, h, j, Key(u, t));
        } else if !fails && u == i && t == c.published[i] + 1 {
          assert AcceptedUnder(d, last, new_, Key(u, t));
        }
      }
    }
  }

  lemma OtherNumbers(c: Channel, e: Event)
    requires NumbersOk(c) && Formed(c) && CanHappen(c, e) && !e.Send? && !e.SendFails?
    ensures NumbersOk(Happen(c, e))
  {
    var d := Happen(c, e);
    assert forall h :: 0 <= h < |c.selects| ==>
      d.selects[h].pubs == c.selects[h].pubs && d.selects[h].failed == c.selects[h].failed;
    forall h: nat, j: nat | Accepted(d, h, j)
      ensures Accepted(c, h, j) && UsedUp(d, h, j)
    {
      assert Accepted(c, h, j);
    }
    forall h: nat, j: nat, g: nat, k: nat
      ensures OrderOk(d, h, j, g, k)
    {
      assert OrderOk(c, h, j, g, k);
    }
    forall u: nat, t: nat
      ensures UserOk(d, u, t)
    {
      assert UserOk(c, u, t);
      if u < |c.published| && 1 <= t <= c.published[u] {
        var h: nat, j: nat :| AcceptedUnder(c, h, j, Key(u, t));
        assert AcceptedUnder(d, h, j, Key(u, t));
      }
    }
  }

  lemma {:induction false} RunNumbers(n: nat, es: seq<Event>)
    requires Run(n, es).Some?
    ensures NumbersOk(Run(n, es).value)
  {
    hide ChannelOk; hide NumbersOk; hide Recorded;
    if es == [] {
      FreshNumbers(n);
    } else {
      var c, e := Run(n, es[..|es| - 1]).value, es[|es| - 1];
      RunNumbers(n, es[..|es| - 1]);
      RunOk(n, es[..|es| - 1]);
      match e {
        case Send(i) => RecordNumbers(c, i, false);
        case SendFails(i) => RecordNumbers(c, i, true);
        case _ => OtherNumbers(c, e);
      }
    }
  }

  lemma FreshNumbers(n: nat)
    ensures NumbersOk(Fresh(n))
  {
  }

  /** A publish of a later Confirm.Select used up the number of tag k. */
  ghost predicate UsedLater(c: Channel, g: nat, k: nat)
    requires g < |c.selects| && 1 <= k <= |c.selects[g].pubs|
  {
    exists h: nat, j: nat :: g < h && AcceptedUnder(c, h, j, Pub(c.selects[g], k))
  }

  lemma NumberUser(n: nat, es: seq<Event>, g: nat, k: nat)
    requires Run(n, es).Some?
    requires var c := Run(n, es).value;
      g < |c.selects| && 1 <= k <= |c.selects[g].pubs| && Last(c.selects[g], k)
    ensures var c := Run(n, es).value;
      UsedUp(c, g, k) <==> k !in c.selects[g].failed || UsedLater(c, g, k)
  {
    hide Run;
    RunOk(n, es);
    RunNumbers(n, es);
    var c := Run(n, es).value;
    assert SelectOk(c, g) && PubOk(c, g, k);
    var key := Pub(c.selects[g], k);
    if UsedUp(c, g, k) && k in c.selects[g].failed {
      assert UserOk(c, key.upstream, key.tag);
      var h: nat, j: nat :| AcceptedUnder(c, h, j, key);
      assert OrderOk(c, h, j, g, k);
      assert h == g ==> j > k;
    }
    if h: nat, j: nat :| g < h && AcceptedUnder(c, h, j, key) {
      assert UsedUp(c, h, j);
    }
  }

  /** With no publish and no Confirm.Select to come, a failed publish can be confirmed, or has been, if and only
      if it is open and a publish of a later Confirm.Select was accepted under its number; one that did not
      fail, if and only if its listener has confirmed it or goes on. */
  lemma FailedConfirmableIff(n: nat, es: seq<Event>, g: nat, k: nat)
    requires Run(n, es).Some?
    requires g < |Run(n, es).value.selects| && 1 <= k <= |Run(n, es).value.selects[g].pubs|
    ensures var c := Run(n, es).value;
      (exists more: seq<Event> :: Settling(more) && Gets(n, es + more, g, k)) <==>
        if k in c.selects[g].failed then Open(c, g, k) && UsedLater(c, g, k)
        else Got(c, g, k) || Pub(c.selects[g], k).upstream !in c.selects[g].stopped
  {
    hide Run; hide Last; hide Got; hide UsedUp; hide UsedLater; hide Settling;
    var c := Run(n, es).value;
    SettledConfirmableIff(n, es, g, k);
    if k !in c.selects[g].failed {
      AcceptedIsLast(n, es, g, k);
    }
    if Last(c.selects[g], k) {
      NumberUser(n, es, g, k);
    }
  }

  /** For example: the only publish of the first Confirm.Select fails, one of the second is accepted under the
      same number, and the first one's listener confirms the failed publish to the client. */
  lemma FailedPublishConfirmed()
    ensures var r := Run(1, [Reselect, SendFails(0), Reselect, Send(0), Arrive(0), Hear(0, 0)]);
      r.Some? && 1 in r.value.selects[0].failed && r.value.log == [Receipt(0, Key(0, 1), 1)]
  {
    hide Run;
    var es: seq<Event> := [];
    FreshRun(1);
    RunSnoc(1, es, Reselect);
    es := es + [Reselect];
    RunSnoc(1, es, SendFails(0));
    es := es + [SendFails(0)];
    RunSnoc(1, es, Reselect);
    es := es + [Reselect];
    RunSnoc(1, es, Send(0));
    es := es + [Send(0)];
    RunSnoc(1, es, Arrive(0));
    es := es + [Arrive(0)];
    RunSnoc(1, es, Hear(0, 0));
    assert es + [Hear(0, 0)] == [Reselect, SendFails(0), Reselect, Send(0), Arrive(0), Hear(0, 0)];
  }

  lemma FreshRun(n: nat)
    ensures Run(n, []) == Some(Fresh(n))
  {
  }

  lemma AcceptedIsLast(n: nat, es: seq<Event>, g: nat, k: nat)
    requires Run(n, es).Some? && Accepted(Run(n, es).value, g, k)
    ensures Last(Run(n, es).value.selects[g], k)
  {
    hide Run;
    RunNumbers(n, es);
    var c := Run(n, es).value;
    forall j | k < j <= |c.selects[g].pubs|
      ensures Pub(c.selects[g], j) != Pub(c.selects[g], k)
    {
      assert OrderOk(c, g, k, g, j);
    }
  }

  // ---------- when a tag is confirmed twice ----------

  /** Tag k reached the client twice. */
  ghost predicate Twice(n: nat, es: seq<Event>, k: nat) {
    && Run(n, es).Some?
    && var log := Run(n, es).value.log;
       exists a, b :: 0 <= a < b < |log| && log[a].tag == log[b].tag == k
  }

  /** Confirm.Select g has numbered k publishes, and can confirm the k-th as things stand. */
  ghost predicate CanConfirm(c: Channel, g: nat, k: nat) {
    g < |c.selects| && 1 <= k <= |c.selects[g].pubs| && Open(c, g, k) && UsedUp(c, g, k)
  }

  /** With no publish and no Confirm.Select to come, a tag can reach the client twice, or has, if and only if
      two Confirm.Selects can each confirm it. */
  lemma ConfirmedTwiceIff(n: nat, es: seq<Event>, k: nat)
    requires Run(n, es).Some?
    ensures var c := Run(n, es).value;
      (exists more: seq<Event> :: Settling(more) && Twice(n, es + more, k)) <==>
        exists g: nat, h: nat :: g < h && CanConfirm(c, g, k) && CanConfirm(c, h, k)
  {
    hide Run; hide ChannelOk; hide Settling; hide CanConfirm;
    var c := Run(n, es).value;
    if g: nat, h: nat :| g < h && CanConfirm(c, g, k) && CanConfirm(c, h, k) {
      var more := BothConfirm(n, es, g, h, k);
      assert Settling(more) && Twice(n, es + more, k);
    }
    forall more: seq<Event> | Settling(more) && Twice(n, es + more, k)
      ensures exists g: nat, h: nat :: g < h && CanConfirm(c, g, k) && CanConfirm(c, h, k)
    {
      var g, h := TwiceIsByTwo(n, es + more, k);
      CanHaveGot(n, es, more, g, k);
      CanHaveGot(n, es, more, h, k);
    }
  }

  lemma CanHaveGot(n: nat, es: seq<Event>, more: seq<Event>, g: nat, k: nat)
    requires Settling(more) && Gets(n, es + more, g, k)
    ensures Run(n, es).Some? && CanConfirm(Run(n, es).value, g, k)
  {
    hide Run; hide Got; hide ChannelOk;
    RunOk(n, es + more);
    SettlingKeepsPubs(n, es, more);
    GotIsOk(Run(n, es + more).value, g, k);
    SettledConfirmableIff(n, es, g, k);
  }

  /** One Confirm.Select's listeners confirm a tag at most once. */
  lemma TwiceIsByTwo(n: nat, es: seq<Event>, k: nat) returns (g: nat, h: nat)
    requires Twice(n, es, k)
    ensures g < h && Gets(n, es, g, k) && Gets(n, es, h, k)
  {
    hide Run; hide Last; hide SelectOk;
    RunOk(n, es);
    var c := Run(n, es).value;
    var a, b :| 0 <= a < b < |c.log| && c.log[a].tag == c.log[b].tag == k;
    assert ReceiptOk(c, c.log[a]) && ReceiptOk(c, c.log[b]);
    assert c.log[a] != c.log[b];
    g, h := c.log[a].g, c.log[b].g;
    assert g != h && Got(c, g, k) && Got(c, h, k);
    if h < g {
      g, h := h, g;
    }
  }

  lemma BothConfirm(n: nat, es: seq<Event>, g: nat, h: nat, k: nat) returns (more: seq<Event>)
    requires Run(n, es).Some? && g < h && CanConfirm(Run(n, es).value, g, k) && CanConfirm(Run(n, es).value, h, k)
    ensures Settling(more) && Twice(n, es + more, k)
  {
    hide Run; hide Last; hide Continues;
    var c := Run(n, es).value;
    var first := GetSettled(n, es, g, k);
    var c1 := Run(n, es + first).value;
    RunContinues(n, es, first);
    StillOpen(c, c1, h, k);
    var second := GetSettled(n, es + first, h, k);
    RunContinues(n, es + first, second);
    more := first + second;
    assert es + first + second == es + more;
    var d := Run(n, es + more).value;
    StillGot(c1, d, g, k);
    var a :| 0 <= a < |d.log| && d.log[a].g == g && d.log[a].tag == k;
    var b :| 0 <= b < |d.log| && d.log[b].g == h && d.log[b].tag == k;
    if b < a {
      assert d.log[b].tag == d.log[a].tag == k;
    } else {
      assert a != b;
    }
  }

  lemma StillGot(c: Channel, d: Channel, g: nat, k: nat)
    requires Continues(c, d) && Got(c, g, k)
    ensures Got(d, g, k)
  {
    var a :| 0 <= a < |c.log| && c.log[a].g == g && c.log[a].tag == k;
    assert d.log[a] == c.log[a];
  }

  lemma StillOpen(c: Channel, d: Channel, g: nat, k: nat)
    requires Continues(c, d) && SamePubs(c, d) && CanConfirm(c, g, k)
    requires forall h :: 0 <= h < |c.selects| ==> d.selects[h].stopped == c.selects[h].stopped
    ensures CanConfirm(d, g, k)
  {
    SameLast(c.selects[g], d.selects[g], k);
    if Got(c, g, k) {
      StillGot(c, d, g, k);
    }
  }

  // ---------- the numbers the client expects ----------

  datatype ClientEvent = Select | Publish

  /** The counter after the client's events: each Confirm.Select installs a new confirmState, and
      publishes before the first are not numbered. */
  function Counter(events: seq<ClientEvent>): Option<nat> {
    if events == [] then None
    else
      var c := Counter(events[..|events| - 1]);
      match events[|events| - 1]
      case Select => Some(0)
      case Publish => if c.Some? then Some(c.value + 1) else None
  }

  /** What the client counts: its publishes since its first Confirm.Select. */
  function ClientCount(events: seq<ClientEvent>): Option<nat> {
    if events == [] then None
    else
      var c := ClientCount(events[..|events| - 1]);
      match events[|events| - 1]
      case Select => if c.Some? then c else Some(0)
      case Publish => if c.Some? then Some(c.value + 1) else None
  }

  /** Some Confirm.Select came after a publish that was already being counted. */
  ghost predicate Reselected(events: seq<ClientEvent>) {
    exists k: nat :: ReselectedAt(events, k)
  }

  ghost predicate ReselectedAt(events: seq<ClientEvent>, k: nat) {
    && k < |events| && events[k].Select?
    && ClientCount(events[..k]).Some? && ClientCount(events[..k]).value > 0
  }

  lemma ReselectedSnoc(events: seq<ClientEvent>)
    requires events != []
    ensures var m := |events| - 1;
      Reselected(events) <==> Reselected(events[..m]) || ReselectedAt(events, m)
  {
    var init := events[..|events| - 1];
    forall k: nat | k < |init|
      ensures ReselectedAt(init, k) <==> ReselectedAt(events, k)
    {
      assert init[..k] == events[..k];
    }
  }

  /** The proxy and the client number publishes alike exactly as long as no Confirm.Select follows a
      counted publish; from then on the proxy is behind. */
  lemma {:induction false} CountersAgreeIff(events: seq<ClientEvent>)
    ensures Counter(events).Some? <==> ClientCount(events).Some?
    ensures Counter(events).Some? ==> Counter(events).value <= ClientCount(events).value
    ensures Counter(events) == ClientCount(events) <==> !Reselected(events)
    ensures Reselected(events) ==> Counter(events).Some? && Counter(events).value < ClientCount(events).value
  {
    if events != [] {
      CountersAgreeIff(events[..|events| - 1]);
      ReselectedSnoc(events);
    }
  }

  function ClientEvents(es: seq<Event>): seq<ClientEvent> {
    if es == [] then []
    else
      ClientEvents(es[..|es| - 1]) +
      (match es[|es| - 1]
       case Reselect => [Select]
       case Send(_) => [Publish]
       case SendFails(_) => [Publish]
       case _ => [])
  }

  function NewestCount(c: Channel): Option<nat> {
    if c.selects == [] then None else Some(c.selects[|c.selects| - 1].book.clientTag)
  }

  lemma NewestStep(c: Channel, e: Event)
    requires ChannelOk(c) && CanHappen(c, e)
    ensures NewestCount(Happen(c, e)) ==
      match e
      case Reselect => Some(0)
      case Send(_) => OneMore(NewestCount(c))
      case SendFails(_) => OneMore(NewestCount(c))
      case _ => NewestCount(c)
  {
    if c.selects != [] {
      assert SelectOk(c, |c.selects| - 1);
    }
  }

  function OneMore(count: Option<nat>): Option<nat> {
    if count.Some? then Some(count.value + 1) else None
  }

  lemma CounterSnoc(es: seq<ClientEvent>, e: ClientEvent)
    ensures Counter(es + [e]) ==
      match e
      case Select => Some(0)
      case Publish => OneMore(Counter(es))
  {
    assert (es + [e])[..|es|] == es;
  }

  /** In every run the newest confirmState's counter is the one these events give. */
  lemma {:induction false} NewestCounts(n: nat, es: seq<Event>)
    requires Run(n, es).Some?
    ensures Counter(ClientEvents(es)) == NewestCount(Run(n, es).value)
  {
    hide ChannelOk; hide Happen; hide CanHappen; hide NewestCount; hide Counter;
    if es == [] {
      assert NewestCount(Fresh(n)) == None && Counter([]) == None by { NothingCounted(n); }
    } else {
      var m := |es| - 1;
      NewestCounts(n, es[..m]);
      RunOk(n, es[..m]);
      var before := ClientEvents(es[..m]);
      NewestStep(Run(n, es[..m]).value, es[m]);
      match es[m] {
        case Reselect => CounterSnoc(before, Select);
        case Send(_) => CounterSnoc(before, Publish);
        case SendFails(_) => CounterSnoc(before, Publish);
        case _ => assert before + [] == before;
      }
    }
  }

  lemma NothingCounted(n: nat)
    ensures NewestCount(Fresh(n)) == None && Counter([]) == None
  {
  }
}
