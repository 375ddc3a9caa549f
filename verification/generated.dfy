/** The generated code of the 64 methods as it stands in spec091.go, and that it is what the specification's
    fields compile to. */
module Generated {
  import opened Octets
  import opened Wrappers
  import opened Arguments
  import opened Fieldsets
  import opened Schema
  import opened Methods

  /** What a method's ID method returns and the runs its Write method puts out. */
  datatype Code = Code(class_: u16, index: u16, runs: seq<Run>)

  function CodeOf(m: Method): Code {
    match m
    case Connection(x) => ConnectionCode(x)
    case Channel(x) => ChannelCode(x)
    case Exchange(x) => ExchangeCode(x)
    case Queue(x) => QueueCode(x)
    case Basic(x) => BasicCode(x)
    case Tx(x) => TxCode(x)
    case Confirm(x) => ConfirmCode(x)
  }

  function ConnectionCode(m: ConnectionMethod): Code {
    match m
    case ConnectionStart => Code(10, 10, [Run(KOctet, 2), Run(KTable, 1), Run(KLongStr, 2)])
    case ConnectionStartOk => Code(10, 11, [Run(KTable, 1), Run(KShortStr, 1), Run(KLongStr, 1), Run(KShortStr, 1)])
    case ConnectionSecure => Code(10, 20, [Run(KLongStr, 1)])
    case ConnectionSecureOk => Code(10, 21, [Run(KLongStr, 1)])
    case ConnectionTune => Code(10, 30, [Run(KShort, 1), Run(KLong, 1), Run(KShort, 1)])
    case ConnectionTuneOk => Code(10, 31, [Run(KShort, 1), Run(KLong, 1), Run(KShort, 1)])
    case ConnectionOpen => Code(10, 40, [Run(KShortStr, 2), Run(KBit, 1)])
    case ConnectionOpenOk => Code(10, 41, [Run(KShortStr, 1)])
    case ConnectionClose => Code(10, 50, [Run(KShort, 1), Run(KShortStr, 1), Run(KShort, 2)])
    case ConnectionCloseOk => Code(10, 51, [])
    case ConnectionBlocked => Code(10, 60, [Run(KShortStr, 1)])
    case ConnectionUnblocked => Code(10, 61, [])
    case ConnectionUpdateSecret => Code(10, 70, [Run(KLongStr, 1), Run(KShortStr, 1)])
    case ConnectionUpdateSecretOk => Code(10, 71, [])
  }

  function ChannelCode(m: ChannelMethod): Code {
    match m
    case ChannelOpen => Code(20, 10, [Run(KShortStr, 1)])
    case ChannelOpenOk => Code(20, 11, [Run(KLongStr, 1)])
    case ChannelFlow => Code(20, 20, [Run(KBit, 1)])
    case ChannelFlowOk => Code(20, 21, [Run(KBit, 1)])
    case ChannelClose => Code(20, 40, [Run(KShort, 1), Run(KShortStr, 1), Run(KShort, 2)])
    case ChannelCloseOk => Code(20, 41, [])
  }

  function ExchangeCode(m: ExchangeMethod): Code {
    match m
    case ExchangeDeclare => Code(40, 10, [Run(KShort, 1), Run(KShortStr, 2), Run(KBit, 5), Run(KTable, 1)])
    case ExchangeDeclareOk => Code(40, 11, [])
    case ExchangeDelete => Code(40, 20, [Run(KShort, 1), Run(KShortStr, 1), Run(KBit, 2)])
    case ExchangeDeleteOk => Code(40, 21, [])
    case ExchangeBind => Code(40, 30, [Run(KShort, 1), Run(KShortStr, 3), Run(KBit, 1), Run(KTable, 1)])
    case ExchangeBindOk => Code(40, 31, [])
    case ExchangeUnbind => Code(40, 40, [Run(KShort, 1), Run(KShortStr, 3), Run(KBit, 1), Run(KTable, 1)])
    case ExchangeUnbindOk => Code(40, 51, [])
  }

  function QueueCode(m: QueueMethod): Code {
    match m
    case QueueDeclare => Code(50, 10, [Run(KShort, 1), Run(KShortStr, 1), Run(KBit, 5), Run(KTable, 1)])
    case QueueDeclareOk => Code(50, 11, [Run(KShortStr, 1), Run(KLong, 2)])
    case QueueBind => Code(50, 20, [Run(KShort, 1), Run(KShortStr, 3), Run(KBit, 1), Run(KTable, 1)])
    case QueueBindOk => Code(50, 21, [])
    case QueueUnbind => Code(50, 50, [Run(KShort, 1), Run(KShortStr, 3), Run(KTable, 1)])
    case QueueUnbindOk => Code(50, 51, [])
    case QueuePurge => Code(50, 30, [Run(KShort, 1), Run(KShortStr, 1), Run(KBit, 1)])
    case QueuePurgeOk => Code(50, 31, [Run(KLong, 1)])
    case QueueDelete => Code(50, 40, [Run(KShort, 1), Run(KShortStr, 1), Run(KBit, 3)])
    case QueueDeleteOk => Code(50, 41, [Run(KLong, 1)])
  }

  function BasicCode(m: BasicMethod): Code {
    match m
    case BasicQos => Code(60, 10, [Run(KLong, 1), Run(KShort, 1), Run(KBit, 1)])
    case BasicQosOk => Code(60, 11, [])
    case BasicConsume => Code(60, 20, [Run(KShort, 1), Run(KShortStr, 2), Run(KBit, 4), Run(KTable, 1)])
    case BasicConsumeOk => Code(60, 21, [Run(KShortStr, 1)])
    case BasicCancel => Code(60, 30, [Run(KShortStr, 1), Run(KBit, 1)])
    case BasicCancelOk => Code(60, 31, [Run(KShortStr, 1)])
    case BasicPublish => Code(60, 40, [Run(KShort, 1), Run(KShortStr, 2), Run(KBit, 2)])
    case BasicReturn => Code(60, 50, [Run(KShort, 1), Run(KShortStr, 3)])
    case BasicDeliver => Code(60, 60, [Run(KShortStr, 1), Run(KLongLong, 1), Run(KBit, 1), Run(KShortStr, 2)])
    case BasicGet => Code(60, 70, [Run(KShort, 1), Run(KShortStr, 1), Run(KBit, 1)])
    case BasicGetOk => Code(60, 71, [Run(KLongLong, 1), Run(KBit, 1), Run(KShortStr, 2), Run(KLong, 1)])
    case BasicGetEmpty => Code(60, 72, [Run(KShortStr, 1)])
    case BasicAck => Code(60, 80, [Run(KLongLong, 1), Run(KBit, 1)])
    case BasicReject => Code(60, 90, [Run(KLongLong, 1), Run(KBit, 1)])
    case BasicRecoverAsync => Code(60, 100, [Run(KBit, 1)])
    case BasicRecover => Code(60, 110, [Run(KBit, 1)])
    case BasicRecoverOk => Code(60, 111, [])
    case BasicNack => Code(60, 120, [Run(KLongLong, 1), Run(KBit, 2)])
  }

  function TxCode(m: TxMethod): Code {
    match m
    case TxSelect => Code(90, 10, [])
    case TxSelectOk => Code(90, 11, [])
    case TxCommit => Code(90, 20, [])
    case TxCommitOk => Code(90, 21, [])
    case TxRollback => Code(90, 30, [])
    case TxRollbackOk => Code(90, 31, [])
  }

  function ConfirmCode(m: ConfirmMethod): Code {
    match m
    case ConfirmSelect => Code(85, 10, [Run(KBit, 1)])
    case ConfirmSelectOk => Code(85, 11, [])
  }

  // ---------- the runs that list the fields of a method ----------

  /** The type of the fields a kind of codec is generated for; shortshort occurs in no method. */
  function TypeOfKind(k: Kind): AmqpType {
    match k
    case KBit => TBit
    case KOctet => TOctet
    case KShort => TShort
    case KLong => TLong
    case KLongLong => TLongLong
    case KShortStr => TShortStr
    case KLongStr => TLongStr
    case KTable => TTable
  }

  function Expand(runs: seq<Run>): seq<AmqpType> {
    if runs == [] then [] else Repeat(TypeOfKind(runs[0].kind), runs[0].n) + Expand(runs[1..])
  }

  function Repeat(t: AmqpType, n: nat): (ts: seq<AmqpType>)
    ensures |ts| == n && (n > 0 ==> ts == Repeat(t, n - 1) + [t])
  {
    if n == 0 then [] else [t] + Repeat(t, n - 1)
  }

  /** Runs are not empty, and neighbours are of different kinds. */
  predicate Maximal(runs: seq<Run>) {
    && (forall i :: 0 <= i < |runs| ==> runs[i].n > 0)
    && (forall i :: 0 <= i < |runs| - 1 ==> runs[i].kind != runs[i + 1].kind)
  }

  lemma {:induction false} ExpandSnoc(runs: seq<Run>, r: Run)
    ensures Expand(runs + [r]) == Expand(runs) + Repeat(TypeOfKind(r.kind), r.n)
  {
    if runs == [] {
      assert [r][1..] == [];
    } else {
      assert (runs + [r])[1..] == runs[1..] + [r];
      ExpandSnoc(runs[1..], r);
    }
  }

  lemma ExtendNew(sets: seq<Fieldset>, t: Typed)
    requires KnownRuns(sets) && KindOf(t.typ).Some?
    requires sets != [] ==> sets[|sets| - 1].typ != t.typ
    ensures KnownRuns(Extend(sets, t)) && RunsOf(Extend(sets, t)) == RunsOf(sets) + [Run(KindOf(t.typ).value, 1)]
  {
    hide KindOf;
  }

  lemma ExtendLast(sets: seq<Fieldset>, t: Typed)
    requires KnownRuns(sets) && KindOf(t.typ).Some?
    requires sets != [] && sets[|sets| - 1].typ == t.typ
    ensures KnownRuns(Extend(sets, t))
    ensures var n := |sets| - 1;
      RunsOf(Extend(sets, t)) == RunsOf(sets)[..n] + [Run(KindOf(t.typ).value, RunsOf(sets)[n].n + 1)]
  {
    hide KindOf;
  }

  lemma UnnamedSnoc(types: seq<AmqpType>, t: AmqpType)
    ensures Unnamed(types + [t]) == Unnamed(types) + Unnamed([t])
  {
  }

  lemma TypeHasKind(k: Kind)
    ensures KindOf(TypeOfKind(k)) == Some(k)
  {
  }

  /** The runs that fields of the given types group to. */
  ghost predicate Groups(types: seq<AmqpType>, runs: seq<Run>) {
    var ts := Unnamed(types);
    KnownTypes(ts) && KnownRuns(Group(ts)) && RunsOf(Group(ts)) == runs
  }

  /** A field of another kind starts a run. */
  lemma NewRun(types: seq<AmqpType>, runs: seq<Run>, k: Kind)
    requires Groups(types, runs) && (runs != [] ==> runs[|runs| - 1].kind != k)
    ensures Groups(types + [TypeOfKind(k)], runs + [Run(k, 1)])
  {
    hide Extend; hide KindOf; hide TypeOfKind;
    var ts, t := Unnamed(types), Unnamed([TypeOfKind(k)])[0];
    TypeHasKind(k);
    UnnamedSnoc(types, TypeOfKind(k));
    assert (ts + [t])[..|ts|] == ts;
    ExtendNew(Group(ts), t);
  }

  /** A field of the same kind makes the last run longer. */
  lemma LongerRun(types: seq<AmqpType>, init: seq<Run>, r: Run)
    requires Groups(types, init + [r]) && types != [] && types[|types| - 1] == TypeOfKind(r.kind)
    ensures Groups(types + [TypeOfKind(r.kind)], init + [Run(r.kind, r.n + 1)])
  {
    hide Extend; hide KindOf; hide TypeOfKind; hide Group;
    var ts, t := Unnamed(types), Unnamed([TypeOfKind(r.kind)])[0];
    TypeHasKind(r.kind);
    UnnamedSnoc(types, TypeOfKind(r.kind));
    GroupLast(ts);
    GroupSnoc(ts, t);
    ExtendLast(Group(ts), t);
    assert RunsOf(Group(ts)) == init + [r] && |Group(ts)| == |init| + 1;
    assert (init + [r])[..|init|] == init;
    assert ts + [t] == Unnamed(types + [TypeOfKind(r.kind)]);
  }

  lemma GroupSnoc(ts: seq<Typed>, t: Typed)
    ensures Group(ts + [t]) == Extend(Group(ts), t)
  {
    assert (ts + [t])[..|ts|] == ts;
  }

  /** Grouping maximal runs laid end to end gives these runs. */
  lemma {:induction false} GroupOfExpanded(runs: seq<Run>)
    requires Maximal(runs)
    ensures Groups(Expand(runs), runs)
    decreases |runs|, if runs == [] then 0 else runs[|runs| - 1].n
  {
    hide TypeOfKind; hide Groups; hide Expand;
    if runs == [] {
      NoFields();
    } else {
      var last, init := runs[|runs| - 1], runs[..|runs| - 1];
      assert runs == init + [last];
      var t := TypeOfKind(last.kind);
      ExpandSnoc(init, last);
      if last.n == 1 {
        assert Repeat(t, 1) == [t];
        GroupOfExpanded(init);
        NewRun(Expand(init), init, last.kind);
      } else {
        var less := Run(last.kind, last.n - 1);
        ExpandSnoc(init, less);
        assert Expand(runs) == Expand(init + [less]) + [t];
        GroupOfExpanded(init + [less]);
        LongerRun(Expand(init + [less]), init, less);
      }
    }
  }

  lemma NoFields()
    ensures Expand([]) == [] && Groups([], [])
  {
  }

  // ---------- the 64 methods ----------

  // Row by row: the runs are maximal and, laid end to end, the fields of the specification.

  lemma ConnectionExpanded(m: ConnectionMethod)
    ensures Expand(ConnectionCode(m).runs) == ConnectionFields(m)
  {
  }

  lemma ChannelExpanded(m: ChannelMethod)
    ensures Expand(ChannelCode(m).runs) == ChannelFields(m)
  {
  }

  lemma ExchangeExpanded(m: ExchangeMethod)
    ensures Expand(ExchangeCode(m).runs) == ExchangeFields(m)
  {
  }

  lemma QueueExpanded(m: QueueMethod)
    ensures Expand(QueueCode(m).runs) == QueueFields(m)
  {
  }

  lemma BasicExpanded(m: BasicMethod)
    ensures Expand(BasicCode(m).runs) == BasicFields(m)
  {
    hide Expand; hide BasicFields;
    if BasicCode(m).index < 50 {
      EarlyBasicExpanded(m);
    } else {
      LateBasicExpanded(m);
    }
  }

  lemma EarlyBasicExpanded(m: BasicMethod)
    requires BasicCode(m).index < 50
    ensures Expand(BasicCode(m).runs) == BasicFields(m)
  {
  }

  lemma LateBasicExpanded(m: BasicMethod)
    requires BasicCode(m).index >= 50
    ensures Expand(BasicCode(m).runs) == BasicFields(m)
  {
  }

  lemma ConfirmExpanded(m: ConfirmMethod)
    ensures Expand(ConfirmCode(m).runs) == ConfirmFields(m)
  {
  }

  lemma ConnectionMaximal(m: ConnectionMethod)
    ensures Maximal(ConnectionCode(m).runs)
  {
  }

  lemma ChannelMaximal(m: ChannelMethod)
    ensures Maximal(ChannelCode(m).runs)
  {
  }

  lemma ExchangeMaximal(m: ExchangeMethod)
    ensures Maximal(ExchangeCode(m).runs)
  {
  }

  lemma QueueMaximal(m: QueueMethod)
    ensures Maximal(QueueCode(m).runs)
  {
  }

  lemma BasicMaximal(m: BasicMethod)
    ensures Maximal(BasicCode(m).runs)
  {
  }

  lemma ConfirmMaximal(m: ConfirmMethod)
    ensures Maximal(ConfirmCode(m).runs)
  {
  }

  lemma EveryRowMaximal(m: Method)
    ensures Maximal(CodeOf(m).runs)
  {
    hide Maximal;
    match m {
      case Connection(x) => ConnectionMaximal(x);
      case Channel(x) => ChannelMaximal(x);
      case Exchange(x) => ExchangeMaximal(x);
      case Queue(x) => QueueMaximal(x);
      case Basic(x) => BasicMaximal(x);
      case Confirm(x) => ConfirmMaximal(x);
      case Tx(_) => NoRunsMaximal();
    }
  }

  lemma NoRunsMaximal()
    ensures Maximal([])
  {
  }

  lemma EveryRowExpanded(m: Method)
    ensures Expand(CodeOf(m).runs) == FieldTypes(m)
  {
    hide Expand;
    match m {
      case Connection(x) => ConnectionExpanded(x);
      case Channel(x) => ChannelExpanded(x);
      case Exchange(x) => ExchangeExpanded(x);
      case Queue(x) => QueueExpanded(x);
      case Basic(x) => BasicExpanded(x);
      case Confirm(x) => ConfirmExpanded(x);
      case Tx(_) => NoFields();
    }
  }

  lemma NumbersOfRow(m: Method)
    ensures ID(m) == (CodeOf(m).class_, CodeOf(m).index)
  {
  }

  lemma ContentOfRow(m: Method)
    ensures HasContent(m) <==> CodeOf(m).class_ == 60 && CodeOf(m).index in {40, 50, 60, 71}
  {
  }

  /** The code generated for every method is what the specification's fields of that method compile to, under
      the numbers it is dispatched on; content follows methods 40, 50, 60 and 71 of class 60. */
  lemma GeneratedIsCompiled(m: Method)
    ensures Runs(m) == CodeOf(m).runs
    ensures Dispatch(CodeOf(m).class_, CodeOf(m).index) == Some(m)
    ensures HasContent(m) <==> CodeOf(m).class_ == 60 && CodeOf(m).index in {40, 50, 60, 71}
  {
    hide FieldTypes; hide Expand; hide KindOf; hide TypeOfKind; hide Group; hide CodeOf; hide Dispatch; hide ID;
    hide HasContent;
    EveryRowMaximal(m);
    EveryRowExpanded(m);
    GroupOfExpanded(CodeOf(m).runs);
    NumbersOfRow(m);
    ContentOfRow(m);
    DispatchIffID(CodeOf(m).class_, CodeOf(m).index, m);
  }
}
