/** The methods of AMQP 0-9-1: their class and method numbers, the dispatch on those numbers, and the
    fields their codecs are generated from. */
module Methods {
  import opened Octets
  import opened Wrappers
  import opened Arguments
  import opened Fieldsets
  import opened Schema

  datatype Method =
    | Connection(connection: ConnectionMethod)
    | Channel(channel: ChannelMethod)
    | Exchange(exchange: ExchangeMethod)
    | Queue(queue: QueueMethod)
    | Basic(basic: BasicMethod)
    | Tx(tx: TxMethod)
    | Confirm(confirm: ConfirmMethod)

  datatype ConnectionMethod =
    | ConnectionStart | ConnectionStartOk | ConnectionSecure | ConnectionSecureOk | ConnectionTune
    | ConnectionTuneOk | ConnectionOpen | ConnectionOpenOk | ConnectionClose | ConnectionCloseOk
    | ConnectionBlocked | ConnectionUnblocked | ConnectionUpdateSecret | ConnectionUpdateSecretOk

  datatype ChannelMethod =
    | ChannelOpen | ChannelOpenOk | ChannelFlow | ChannelFlowOk | ChannelClose | ChannelCloseOk

  datatype ExchangeMethod =
    | ExchangeDeclare | ExchangeDeclareOk | ExchangeDelete | ExchangeDeleteOk | ExchangeBind | ExchangeBindOk
    | ExchangeUnbind | ExchangeUnbindOk

  datatype QueueMethod =
    | QueueDeclare | QueueDeclareOk | QueueBind | QueueBindOk | QueueUnbind | QueueUnbindOk | QueuePurge
    | QueuePurgeOk | QueueDelete | QueueDeleteOk

  datatype BasicMethod =
    | BasicQos | BasicQosOk | BasicConsume | BasicConsumeOk | BasicCancel | BasicCancelOk | BasicPublish
    | BasicReturn | BasicDeliver | BasicGet | BasicGetOk | BasicGetEmpty | BasicAck | BasicReject
    | BasicRecoverAsync | BasicRecover | BasicRecoverOk | BasicNack

  datatype TxMethod =
    | TxSelect | TxSelectOk | TxCommit | TxCommitOk | TxRollback | TxRollbackOk

  datatype ConfirmMethod =
    | ConfirmSelect | ConfirmSelectOk

  /** The class and method numbers written in front of the arguments. */
  function ID(m: Method): (u16, u16) {
    match m
    case Connection(x) => (10, ConnectionIndex(x))
    case Channel(x) => (20, ChannelIndex(x))
    case Exchange(x) => (40, ExchangeIndex(x))
    case Queue(x) => (50, QueueIndex(x))
    case Basic(x) => (60, BasicIndex(x))
    case Tx(x) => (90, TxIndex(x))
    case Confirm(x) => (85, ConfirmIndex(x))
  }

  /** The method read after a class and a method number, if any. */
  function Dispatch(class_: u16, index: u16): Option<Method> {
    if class_ == 10 then ConnectionAt(index)
    else if class_ == 20 then ChannelAt(index)
    else if class_ == 40 then ExchangeAt(index)
    else if class_ == 50 then QueueAt(index)
    else if class_ == 60 then BasicAt(index)
    else if class_ == 90 then TxAt(index)
    else if class_ == 85 then ConfirmAt(index)
    else None
  }

  function ConnectionIndex(m: ConnectionMethod): u16 {
    match m
    case ConnectionStart => 10
    case ConnectionStartOk => 11
    case ConnectionSecure => 20
    case ConnectionSecureOk => 21
    case ConnectionTune => 30
    case ConnectionTuneOk => 31
    case ConnectionOpen => 40
    case ConnectionOpenOk => 41
    case ConnectionClose => 50
    case ConnectionCloseOk => 51
    case ConnectionBlocked => 60
    case ConnectionUnblocked => 61
    case ConnectionUpdateSecret => 70
    case ConnectionUpdateSecretOk => 71
  }

  function ConnectionAt(index: u16): (m: Option<Method>)
    ensures m.Some? ==> m.value.Connection? && ConnectionIndex(m.value.connection) == index
  {
    if index == 10 then Some(Connection(ConnectionStart))
    else if index == 11 then Some(Connection(ConnectionStartOk))
    else if index == 20 then Some(Connection(ConnectionSecure))
    else if index == 21 then Some(Connection(ConnectionSecureOk))
    else if index == 30 then Some(Connection(ConnectionTune))
    else if index == 31 then Some(Connection(ConnectionTuneOk))
    else if index == 40 then Some(Connection(ConnectionOpen))
    else if index == 41 then Some(Connection(ConnectionOpenOk))
    else if index == 50 then Some(Connection(ConnectionClose))
    else if index == 51 then Some(Connection(ConnectionCloseOk))
    else if index == 60 then Some(Connection(ConnectionBlocked))
    else if index == 61 then Some(Connection(ConnectionUnblocked))
    else if index == 70 then Some(Connection(ConnectionUpdateSecret))
    else if index == 71 then Some(Connection(ConnectionUpdateSecretOk))
    else None
  }

  function ChannelIndex(m: ChannelMethod): u16 {
    match m
    case ChannelOpen => 10
    case ChannelOpenOk => 11
    case ChannelFlow => 20
    case ChannelFlowOk => 21
    case ChannelClose => 40
    case ChannelCloseOk => 41
  }

  function ChannelAt(index: u16): (m: Option<Method>)
    ensures m.Some? ==> m.value.Channel? && ChannelIndex(m.value.channel) == index
  {
    if index == 10 then Some(Channel(ChannelOpen))
    else if index == 11 then Some(Channel(ChannelOpenOk))
    else if index == 20 then Some(Channel(ChannelFlow))
    else if index == 21 then Some(Channel(ChannelFlowOk))
    else if index == 40 then Some(Channel(ChannelClose))
    else if index == 41 then Some(Channel(ChannelCloseOk))
    else None
  }

  function ExchangeIndex(m: ExchangeMethod): u16 {
    match m
    case ExchangeDeclare => 10
    case ExchangeDeclareOk => 11
    case ExchangeDelete => 20
    case ExchangeDeleteOk => 21
    case ExchangeBind => 30
    case ExchangeBindOk => 31
    case ExchangeUnbind => 40
    case ExchangeUnbindOk => 51
  }

  function ExchangeAt(index: u16): (m: Option<Method>)
    ensures m.Some? ==> m.value.Exchange? && ExchangeIndex(m.value.exchange) == index
  {
    if index == 10 then Some(Exchange(ExchangeDeclare))
    else if index == 11 then Some(Exchange(ExchangeDeclareOk))
    else if index == 20 then Some(Exchange(ExchangeDelete))
    else if index == 21 then Some(Exchange(ExchangeDeleteOk))
    else if index == 30 then Some(Exchange(ExchangeBind))
    else if index == 31 then Some(Exchange(ExchangeBindOk))
    else if index == 40 then Some(Exchange(ExchangeUnbind))
    else if index == 51 then Some(Exchange(ExchangeUnbindOk))
    else None
  }

  function QueueIndex(m: QueueMethod): u16 {
    match m
    case QueueDeclare => 10
    case QueueDeclareOk => 11
    case QueueBind => 20
    case QueueBindOk => 21
    case QueueUnbind => 50
    case QueueUnbindOk => 51
    case QueuePurge => 30
    case QueuePurgeOk => 31
    case QueueDelete => 40
    case QueueDeleteOk => 41
  }

  function QueueAt(index: u16): (m: Option<Method>)
    ensures m.Some? ==> m.value.Queue? && QueueIndex(m.value.queue) == index
  {
    if index == 10 then Some(Queue(QueueDeclare))
    else if index == 11 then Some(Queue(QueueDeclareOk))
    else if index == 20 then Some(Queue(QueueBind))
    else if index == 21 then Some(Queue(QueueBindOk))
    else if index == 50 then Some(Queue(QueueUnbind))
    else if index == 51 then Some(Queue(QueueUnbindOk))
    else if index == 30 then Some(Queue(QueuePurge))
    else if index == 31 then Some(Queue(QueuePurgeOk))
    else if index == 40 then Some(Queue(QueueDelete))
    else if index == 41 then Some(Queue(QueueDeleteOk))
    else None
  }

  function BasicIndex(m: BasicMethod): u16 {
    match m
    case BasicQos => 10
    case BasicQosOk => 11
    case BasicConsume => 20
    case BasicConsumeOk => 21
    case BasicCancel => 30
    case BasicCancelOk => 31
    case BasicPublish => 40
    case BasicReturn => 50
    case BasicDeliver => 60
    case BasicGet => 70
    case BasicGetOk => 71
    case BasicGetEmpty => 72
    case BasicAck => 80
    case BasicReject => 90
    case BasicRecoverAsync => 100
    case BasicRecover => 110
    case BasicRecoverOk => 111
    case BasicNack => 120
  }

  function BasicAt(index: u16): (m: Option<Method>)
    ensures m.Some? ==> m.value.Basic? && BasicIndex(m.value.basic) == index
  {
    if index == 10 then Some(Basic(BasicQos))
    else if index == 11 then Some(Basic(BasicQosOk))
    else if index == 20 then Some(Basic(BasicConsume))
    else if index == 21 then Some(Basic(BasicConsumeOk))
    else if index == 30 then Some(Basic(BasicCancel))
    else if index == 31 then Some(Basic(BasicCancelOk))
    else if index == 40 then Some(Basic(BasicPublish))
    else if index == 50 then Some(Basic(BasicReturn))
    else if index == 60 then Some(Basic(BasicDeliver))
    else if index == 70 then Some(Basic(BasicGet))
    else if index == 71 then Some(Basic(BasicGetOk))
    else if index == 72 then Some(Basic(BasicGetEmpty))
    else if index == 80 then Some(Basic(BasicAck))
    else if index == 90 then Some(Basic(BasicReject))
    else if index == 100 then Some(Basic(BasicRecoverAsync))
    else if index == 110 then Some(Basic(BasicRecover))
    else if index == 111 then Some(Basic(BasicRecoverOk))
    else if index == 120 then Some(Basic(BasicNack))
    else None
  }

  function TxIndex(m: TxMethod): u16 {
    match m
    case TxSelect => 10
    case TxSelectOk => 11
    case TxCommit => 20
    case TxCommitOk => 21
    case TxRollback => 30
    case TxRollbackOk => 31
  }

  function TxAt(index: u16): (m: Option<Method>)
    ensures m.Some? ==> m.value.Tx? && TxIndex(m.value.tx) == index
  {
    if index == 10 then Some(Tx(TxSelect))
    else if index == 11 then Some(Tx(TxSelectOk))
    else if index == 20 then Some(Tx(TxCommit))
    else if index == 21 then Some(Tx(TxCommitOk))
    else if index == 30 then Some(Tx(TxRollback))
    else if index == 31 then Some(Tx(TxRollbackOk))
    else None
  }

  function ConfirmIndex(m: ConfirmMethod): u16 {
    match m
    case ConfirmSelect => 10
    case ConfirmSelectOk => 11
  }

  function ConfirmAt(index: u16): (m: Option<Method>)
    ensures m.Some? ==> m.value.Confirm? && ConfirmIndex(m.value.confirm) == index
  {
    if index == 10 then Some(Confirm(ConfirmSelect))
    else if index == 11 then Some(Confirm(ConfirmSelectOk))
    else None
  }

  /** The types of each method's fields, in the order of the specification; the names do not reach the wire. */
  function FieldTypes(m: Method): seq<AmqpType> {
    match m
    case Connection(x) => ConnectionFields(x)
    case Channel(x) => ChannelFields(x)
    case Exchange(x) => ExchangeFields(x)
    case Queue(x) => QueueFields(x)
    case Basic(x) => BasicFields(x)
    case Tx(x) => []
    case Confirm(x) => ConfirmFields(x)
  }

  function ConnectionFields(m: ConnectionMethod): seq<AmqpType> {
    match m
    case ConnectionStart => [TOctet, TOctet, TTable, TLongStr, TLongStr]
    case ConnectionStartOk => [TTable, TShortStr, TLongStr, TShortStr]
    case ConnectionSecure => [TLongStr]
    case ConnectionSecureOk => [TLongStr]
    case ConnectionTune => [TShort, TLong, TShort]
    case ConnectionTuneOk => [TShort, TLong, TShort]
    case ConnectionOpen => [TShortStr, TShortStr, TBit]
    case ConnectionOpenOk => [TShortStr]
    case ConnectionClose => [TShort, TShortStr, TShort, TShort]
    case ConnectionCloseOk => []
    case ConnectionBlocked => [TShortStr]
    case ConnectionUnblocked => []
    case ConnectionUpdateSecret => [TLongStr, TShortStr]
    case ConnectionUpdateSecretOk => []
  }

  function ChannelFields(m: ChannelMethod): seq<AmqpType> {
    match m
    case ChannelOpen => [TShortStr]
    case ChannelOpenOk => [TLongStr]
    case ChannelFlow => [TBit]
    case ChannelFlowOk => [TBit]
    case ChannelClose => [TShort, TShortStr, TShort, TShort]
    case ChannelCloseOk => []
  }

  function ExchangeFields(m: ExchangeMethod): seq<AmqpType> {
    match m
    case ExchangeDeclare => [TShort, TShortStr, TShortStr, TBit, TBit, TBit, TBit, TBit, TTable]
    case ExchangeDeclareOk => []
    case ExchangeDelete => [TShort, TShortStr, TBit, TBit]
    case ExchangeDeleteOk => []
    case ExchangeBind => [TShort, TShortStr, TShortStr, TShortStr, TBit, TTable]
    case ExchangeBindOk => []
    case ExchangeUnbind => [TShort, TShortStr, TShortStr, TShortStr, TBit, TTable]
    case ExchangeUnbindOk => []
  }

  function QueueFields(m: QueueMethod): seq<AmqpType> {
    match m
    case QueueDeclare => [TShort, TShortStr, TBit, TBit, TBit, TBit, TBit, TTable]
    case QueueDeclareOk => [TShortStr, TLong, TLong]
    case QueueBind => [TShort, TShortStr, TShortStr, TShortStr, TBit, TTable]
    case QueueBindOk => []
    case QueueUnbind => [TShort, TShortStr, TShortStr, TShortStr, TTable]
    case QueueUnbindOk => []
    case QueuePurge => [TShort, TShortStr, TBit]
    case QueuePurgeOk => [TLong]
    case QueueDelete => [TShort, TShortStr, TBit, TBit, TBit]
    case QueueDeleteOk => [TLong]
  }

  function BasicFields(m: BasicMethod): seq<AmqpType> {
    match m
    case BasicQos => [TLong, TShort, TBit]
    case BasicQosOk => []
    case BasicConsume => [TShort, TShortStr, TShortStr, TBit, TBit, TBit, TBit, TTable]
    case BasicConsumeOk => [TShortStr]
    case BasicCancel => [TShortStr, TBit]
    case BasicCancelOk => [TShortStr]
    case BasicPublish => [TShort, TShortStr, TShortStr, TBit, TBit]
    case BasicReturn => [TShort, TShortStr, TShortStr, TShortStr]
    case BasicDeliver => [TShortStr, TLongLong, TBit, TShortStr, TShortStr]
    case BasicGet => [TShort, TShortStr, TBit]
    case BasicGetOk => [TLongLong, TBit, TShortStr, TShortStr, TLong]
    case BasicGetEmpty => [TShortStr]
    case BasicAck => [TLongLong, TBit]
    case BasicReject => [TLongLong, TBit]
    case BasicRecoverAsync => [TBit]
    case BasicRecover => [TBit]
    case BasicRecoverOk => []
    case BasicNack => [TLongLong, TBit, TBit]
  }

  function ConfirmFields(m: ConfirmMethod): seq<AmqpType> {
    match m
    case ConfirmSelect => [TBit]
    case ConfirmSelectOk => []
  }

  function Unnamed(types: seq<AmqpType>): seq<Typed> {
    seq(|types|, i requires 0 <= i < |types| => Typed(FieldDecl("", "", types[i]), types[i]))
  }

  function Fields(m: Method): seq<Typed> {
    Unnamed(FieldTypes(m))
  }

  /** The runs of fields the method's generated code handles: the grouping of its fields. */
  function Runs(m: Method): seq<Run> {
    FieldsKnown(m);
    GroupKnown(Fields(m));
    RunsOf(Group(Fields(m)))
  }

  lemma FieldsKnown(m: Method)
    ensures KnownTypes(Fields(m))
  {
    hide KindOf; hide FieldTypes;
    TypesOfMethod(m);
  }

  /** Known types, no field of another type between two bits, and a field of another type if there are nine. */
  ghost predicate Orderly(types: seq<AmqpType>) {
    && (forall i :: 0 <= i < |types| ==> KindOf(types[i]).Some?)
    && (forall i, j, k :: 0 <= i < j < k < |types| && types[i] == TBit && types[k] == TBit ==> types[j] == TBit)
    && |types| <= (if types != [] && types[0] != TBit then 9 else 8)
  }

  lemma TypesOfMethod(m: Method)
    ensures Orderly(FieldTypes(m))
  {
    hide Orderly;
    match m {
      case Connection(x) => ConnectionOrderly(x);
      case Channel(x) => ChannelOrderly(x);
      case Exchange(x) => ExchangeOrderly(x);
      case Queue(x) => QueueOrderly(x);
      case Basic(x) => BasicOrderly(x);
      case Tx(_) => NoneOrderly();
      case Confirm(x) => ConfirmOrderly(x);
    }
  }

  lemma ConnectionOrderly(m: ConnectionMethod)
    ensures Orderly(ConnectionFields(m))
  {
  }

  lemma ChannelOrderly(m: ChannelMethod)
    ensures Orderly(ChannelFields(m))
  {
  }

  lemma ExchangeOrderly(m: ExchangeMethod)
    ensures Orderly(ExchangeFields(m))
  {
  }

  lemma QueueOrderly(m: QueueMethod)
    ensures Orderly(QueueFields(m))
  {
  }

  lemma BasicOrderly(m: BasicMethod)
    ensures Orderly(BasicFields(m))
  {
  }

  lemma ConfirmOrderly(m: ConfirmMethod)
    ensures Orderly(ConfirmFields(m))
  {
  }

  lemma NoneOrderly()
    ensures Orderly([])
  {
  }

  /** Methods followed by a content header and body. */
  predicate HasContent(m: Method) {
    m.Basic? && m.basic in {BasicPublish, BasicReturn, BasicDeliver, BasicGetOk}
  }

  /** Reading the numbers a method is written with gives that method, and no other numbers do. */
  lemma DispatchIffID(class_: u16, index: u16, m: Method)
    ensures Dispatch(class_, index) == Some(m) <==> ID(m) == (class_, index)
  {
    DispatchInvertsID(m);
  }

  lemma DispatchInvertsID(m: Method)
    ensures Dispatch(ID(m).0, ID(m).1) == Some(m)
  {
  }

  /** The bits of every method are contiguous, and at most eight. */
  lemma BitsOfMethod(m: Method)
    ensures BitsContiguous(Fields(m)) && BitCount(Fields(m)) <= 8
  {
    hide BitCount; hide FieldTypes; hide KindOf;
    TypesOfMethod(m);
    BitCountAtMost(Fields(m));
    assert forall i :: 0 <= i < |Fields(m)| ==> Fields(m)[i].typ == FieldTypes(m)[i];
  }

  lemma MethodBitRuns(m: Method)
    ensures Compilable(Runs(m)) && BitRuns(Runs(m)) <= 1
  {
    hide Fields; hide BitsContiguous;
    FieldsKnown(m);
    BitsOfMethod(m);
    FewBitsCompile(Fields(m));
    GroupBitRuns(Fields(m));
    ContiguousIffOneStart(Fields(m));
  }

  /** Every method's codec, compiled from its fields, restores all arguments of that method. */
  lemma EveryMethodFaithful(m: Method)
    ensures Compilable(Runs(m)) && Faithful(Runs(m))
  {
    hide Fields; hide BitsContiguous;
    FieldsKnown(m);
    BitsOfMethod(m);
    MethodBitRuns(m);
    CodecFaithfulIffBitsContiguous(Fields(m));
  }
}
