/** From a method's list of fields to its codec: the grouping followed by the generated encoder and
    decoder, and which field lists give a codec that restores every argument. */
module Schema {
  import opened Wrappers
  import opened Arguments
  import opened Fieldsets

  /** The kind of codec generated for an AMQP type. Timestamps have templates but the function the
      encoder template calls does not exist, so such a schema does not compile. */
  function KindOf(typ: AmqpType): Option<Kind> {
    match typ
    case TBit => Some(KBit)
    case TOctet => Some(KOctet)
    case TShortShort => Some(KOctet)
    case TShort => Some(KShort)
    case TLong => Some(KLong)
    case TLongLong => Some(KLongLong)
    case TShortStr => Some(KShortStr)
    case TLongStr => Some(KLongStr)
    case TTable => Some(KTable)
    case _ => None
  }

  predicate KnownTypes(ts: seq<Typed>) {
    forall i :: 0 <= i < |ts| ==> KindOf(ts[i].typ).Some?
  }

  predicate KnownRuns(sets: seq<Fieldset>) {
    forall i :: 0 <= i < |sets| ==> KindOf(sets[i].typ).Some?
  }

  function RunOf(set_: Fieldset): Run
    requires KindOf(set_.typ).Some?
  {
    Run(KindOf(set_.typ).value, |set_.fields|)
  }

  function RunsOf(sets: seq<Fieldset>): seq<Run>
    requires KnownRuns(sets)
  {
    seq(|sets|, i requires 0 <= i < |sets| => RunOf(sets[i]))
  }

  /** No field of another type stands between two bits. */
  ghost predicate BitsContiguous(ts: seq<Typed>) {
    forall i, j, k :: 0 <= i < j < k < |ts| && ts[i].typ == TBit && ts[k].typ == TBit ==> ts[j].typ == TBit
  }

  /** The number of bits not directly after another bit. */
  function BitStarts(ts: seq<Typed>): nat {
    if ts == [] then 0
    else
      var n := |ts| - 1;
      BitStarts(ts[..n]) + (if ts[n].typ == TBit && (n == 0 || ts[n - 1].typ != TBit) then 1 else 0)
  }

  /** A method's generated codec restores all arguments exactly when its bits are contiguous. */
  lemma CodecFaithfulIffBitsContiguous(ts: seq<Typed>)
    requires KnownTypes(ts)
    ensures KnownRuns(Group(ts))
    ensures Compilable(RunsOf(Group(ts))) ==>
      (Faithful(RunsOf(Group(ts))) <==> BitsContiguous(ts))
  {
    GroupKnown(ts);
    GroupIsMaximalPartition(ts);
    GroupBitRuns(ts);
    ContiguousIffOneStart(ts);
    if Compilable(RunsOf(Group(ts))) {
      FaithfulIffOneBitRun(RunsOf(Group(ts)));
    }
  }

  lemma {:induction false} GroupKnown(ts: seq<Typed>)
    requires KnownTypes(ts)
    ensures KnownRuns(Group(ts))
  {
    hide KindOf;
    if ts != [] {
      GroupKnown(ts[..|ts| - 1]);
    }
  }

  lemma {:induction false} BitRunsSnoc(runs: seq<Run>, r: Run)
    ensures BitRuns(runs + [r]) == BitRuns(runs) + (if r.kind.KBit? then 1 else 0)
  {
    if runs == [] {
      assert [r][1..] == [];
    } else {
      assert (runs + [r])[1..] == runs[1..] + [r];
      BitRunsSnoc(runs[1..], r);
    }
  }

  /** The last run has the type of the last field. */
  lemma GroupLast(ts: seq<Typed>)
    requires ts != []
    ensures Group(ts) != [] && Group(ts)[|Group(ts)| - 1].typ == ts[|ts| - 1].typ
  {
  }

  lemma BitKind(typ: AmqpType)
    requires KindOf(typ).Some?
    ensures KindOf(typ).value.KBit? <==> typ == TBit
  {
  }

  lemma ExtendBitRuns(sets: seq<Fieldset>, t: Typed)
    requires KnownRuns(sets) && KindOf(t.typ).Some? && KnownRuns(Extend(sets, t))
    ensures BitRuns(RunsOf(Extend(sets, t))) == BitRuns(RunsOf(sets))
      + (if t.typ == TBit && (sets == [] || sets[|sets| - 1].typ != TBit) then 1 else 0)
  {
    hide KindOf;
    BitKind(t.typ);
    if sets != [] && sets[|sets| - 1].typ == t.typ {
      var last, init := |sets| - 1, RunsOf(sets[..|sets| - 1]);
      assert RunsOf(sets) == init + [RunOf(sets[last])];
      assert RunsOf(Extend(sets, t)) == init + [RunOf(Extend(sets, t)[last])];
      BitRunsSnoc(init, RunOf(sets[last]));
      BitRunsSnoc(init, RunOf(Extend(sets, t)[last]));
    } else {
      assert RunsOf(Extend(sets, t)) == RunsOf(sets) + [RunOf(Single(t))];
      BitRunsSnoc(RunsOf(sets), RunOf(Single(t)));
    }
  }

  lemma {:induction false} GroupBitRuns(ts: seq<Typed>)
    requires KnownTypes(ts) && KnownRuns(Group(ts))
    ensures BitRuns(RunsOf(Group(ts))) == BitStarts(ts)
  {
    if ts == [] {
      assert RunsOf([]) == [];
    } else {
      hide KindOf; hide Extend; hide RunsOf;
      var n := |ts| - 1;
      GroupKnown(ts[..n]);
      GroupBitRuns(ts[..n]);
      ExtendBitRuns(Group(ts[..n]), ts[n]);
      if n > 0 {
        GroupLast(ts[..n]);
      }
    }
  }

  ghost predicate NoBits(ts: seq<Typed>) {
    forall i :: 0 <= i < |ts| ==> ts[i].typ != TBit
  }

  lemma {:induction false} NoStartsIffNoBits(ts: seq<Typed>)
    ensures BitStarts(ts) == 0 <==> NoBits(ts)
  {
    if ts != [] {
      var n := |ts| - 1;
      NoStartsIffNoBits(ts[..n]);
      assert forall i :: 0 <= i < n ==> ts[..n][i] == ts[i];
    }
  }

  lemma ContiguousSnoc(init: seq<Typed>, t: Typed)
    ensures BitsContiguous(init + [t]) <==>
      BitsContiguous(init) && (t.typ == TBit ==> NoBits(init) || init[|init| - 1].typ == TBit)
  {
    var n, ts := |init|, init + [t];
    assert forall i :: 0 <= i < n ==> ts[i] == init[i];
    assert ts[n] == t;
    if BitsContiguous(ts) && t.typ == TBit && !NoBits(init) {
      var i :| 0 <= i < n && init[i].typ == TBit;
      assert ts[i].typ == TBit && ts[n].typ == TBit && ts[n - 1].typ == TBit;
    }
  }

  lemma {:induction false} ContiguousIffOneStart(ts: seq<Typed>)
    ensures BitsContiguous(ts) <==> BitStarts(ts) <= 1
  {
    if ts != [] {
      var n := |ts| - 1;
      var init := ts[..n];
      ContiguousIffOneStart(init);
      NoStartsIffNoBits(init);
      ContiguousSnoc(init, ts[n]);
      assert ts == init + [ts[n]];
    }
  }

  // ---------- how long a run of bits can be ----------

  function BitCount(ts: seq<Typed>): nat {
    if ts == [] then 0
    else
      var n := |ts| - 1;
      BitCount(ts[..n]) + (if ts[n].typ == TBit then 1 else 0)
  }

  lemma {:induction false} BitCountAtMost(ts: seq<Typed>)
    ensures BitCount(ts) <= |ts|
    ensures ts != [] && ts[0].typ != TBit ==> BitCount(ts) < |ts|
  {
    if ts != [] {
      BitCountAtMost(ts[..|ts| - 1]);
    }
  }

  lemma {:induction false} BitRunLength(ts: seq<Typed>, i: nat)
    requires i < |Group(ts)| && Group(ts)[i].typ == TBit
    ensures |Group(ts)[i].fields| <= BitCount(ts)
  {
    var init, n := ts[..|ts| - 1], |ts| - 1;
    if i < |Group(init)| && Group(init)[i].typ == TBit {
      BitRunLength(init, i);
    }
  }

  /** With at most eight bits the generated code compiles. */
  lemma FewBitsCompile(ts: seq<Typed>)
    requires KnownTypes(ts) && BitCount(ts) <= 8
    ensures KnownRuns(Group(ts)) && Compilable(RunsOf(Group(ts)))
  {
    hide Group; hide BitCount;
    GroupKnown(ts);
    forall i | 0 <= i < |Group(ts)| && KindOf(Group(ts)[i].typ).value.KBit?
      ensures |Group(ts)[i].fields| <= 8
    {
      BitKind(Group(ts)[i].typ);
      BitRunLength(ts, i);
    }
  }
}
