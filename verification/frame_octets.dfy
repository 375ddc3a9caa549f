/** The octets of whole frames as numbers, field by field, without the encoder, its runs or its constants. */
module FrameOctets {
  import opened Octets
  import opened FieldCodec
  import opened WireOctets
  import opened Arguments
  import opened Methods
  import opened Generated
  import opened Headers
  import opened Frames

  // ---------- arguments ----------

  /** What the j-th bit adds to its octet. */
  function Worth(args: seq<Laid>, j: nat, w: nat): nat
    requires AllKind(args, KBit)
  {
    if j < |args| && args[j].b then w else 0
  }

  /** Bit arguments in one octet, the first worth 1 and each worth twice the one before. */
  predicate BitsOctet(args: seq<Laid>, b: byte)
    requires AllKind(args, KBit)
  {
    b as int == Worth(args, 0, 1) + Worth(args, 1, 2) + Worth(args, 2, 4) + Worth(args, 3, 8)
      + Worth(args, 4, 16) + Worth(args, 5, 32) + Worth(args, 6, 64) + Worth(args, 7, 128)
  }

  /** One octet of length and as much of the string as it says. */
  predicate ShortOctets(s: Bytes, b: Bytes) {
    |b| >= 1 && b[0] as int == |s| % 256 && b[1..] == s[..|s| % 256]
  }

  ghost predicate ArgOctets(a: Laid, b: Bytes)
    requires !a.ABit?
  {
    match a
    case AOctet(o) => b == [o]
    case AShort(n) => |b| == 2 && BigEndian(b) == n
    case ALong(n) => |b| == 4 && BigEndian(b) == n
    case ALongLong(n) => |b| == 8 && BigEndian(b) == n
    case AShortStr(s) => ShortOctets(s, b)
    case ALongStr(s) => CountedTo(b, s)
    case ATable(es) => TableOctets(es, b)
  }

  function LeadingBits(args: seq<Laid>): (n: nat)
    ensures n <= |args| && AllKind(args[..n], KBit)
    ensures args != [] && args[0].ABit? ==> n > 0
  {
    if args != [] && args[0].ABit? then
      var n := 1 + LeadingBits(args[1..]);
      assert args[..n] == [args[0]] + args[1..][..n - 1];
      n
    else 0
  }

  /** One argument after the other; bits that stand together share octets, eight at most as compiled. */
  ghost predicate ArgsOctets(args: seq<Laid>, b: Bytes)
    decreases |args|
  {
    if args == [] then b == []
    else if args[0].ABit? then
      var n := LeadingBits(args);
      b != [] && BitsOctet(args[..n], b[0]) && ArgsOctets(args[n..], b[1..])
    else
      exists n: nat | n <= |b| :: ArgOctets(args[0], b[..n]) && ArgsOctets(args[1..], b[n..])
  }

  function BitWorth(x: bv8, j: nat, w: nat): nat
    requires j < 8
  {
    if HasBit(x, j) then w else 0
  }

  lemma OctetIsSum(x: bv8)
    ensures OfBits(x) as int == BitWorth(x, 0, 1) + BitWorth(x, 1, 2) + BitWorth(x, 2, 4) + BitWorth(x, 3, 8)
      + BitWorth(x, 4, 16) + BitWorth(x, 5, 32) + BitWorth(x, 6, 64) + BitWorth(x, 7, 128)
  {
  }

  lemma NoBit(j: nat)
    requires j < 8
    ensures !HasBit(0, j)
  {
  }

  lemma BitsOctetIff(args: seq<Laid>, b: byte)
    requires AllKind(args, KBit) && |args| <= 8
    ensures BitsOctet(args, b) <==> b == OfBits(SetBits(0, args, 0))
  {
    hide HasBit; hide OfBits; hide SetBits;
    var x := SetBits(0, args, 0);
    forall j: nat, w: nat | j < 8
      ensures BitWorth(x, j, w) == Worth(args, j, w)
    {
      NoBit(j);
      SetBitsHas(0, args, 0, j);
    }
    OctetIsSum(x);
  }

  lemma ShortOctetsIff(s: Bytes, b: Bytes)
    ensures ShortOctets(s, b) <==> b == EncShort(s)
  {
    if ShortOctets(s, b) {
      assert b == [b[0]] + b[1..];
    }
  }

  lemma NumberIff(b: Bytes, p: Bytes)
    requires |b| == |p|
    ensures BigEndian(b) == BigEndian(p) <==> b == p
  {
    hide BigEndian;
    if BigEndian(b) == BigEndian(p) {
      BigEndianInjective(b, p);
    }
  }

  lemma ArgOctetsIff(a: Laid, b: Bytes)
    requires !a.ABit?
    ensures ArgOctets(a, b) <==> b == EncArg(a)
  {
    hide BigEndian; hide Put16; hide Put32; hide Put64; hide ShortOctets; hide EncShort; hide CountedTo;
    hide EncLong; hide TableOctets; hide EncTable;
    match a {
      case AOctet(_) =>
      case AShort(n) =>
        PutBigEndian(n);
        if |b| == 2 { NumberIff(b, Put16(n)); }
      case ALong(n) =>
        PutBigEndian(n);
        if |b| == 4 { NumberIff(b, Put32(n)); }
      case ALongLong(n) =>
        PutBigEndian(n);
        if |b| == 8 { NumberIff(b, Put64(n)); }
      case AShortStr(s) => ShortOctetsIff(s, b);
      case ALongStr(s) => CountedToIff(b, s);
      case ATable(es) => TableOctetsIff(es, b);
    }
  }

  /** Arguments without bits, followed by others. */
  lemma {:induction false} PlainArgsThen(mine: seq<Laid>, more: seq<Laid>, b: Bytes, enc: Bytes)
    requires WithoutBits(mine)
    requires forall c: Bytes :: ArgsOctets(more, c) <==> c == enc
    ensures ArgsOctets(mine + more, b) <==> b == EncArgs(mine) + enc
    decreases |mine|
  {
    hide ArgOctets; hide EncArg;
    if mine == [] {
      assert mine + more == more && [] + enc == enc;
    } else {
      var args := mine + more;
      var rest := EncArgs(mine[1..]) + enc;
      assert args[1..] == mine[1..] + more;
      assert EncArgs(mine) + enc == EncArg(mine[0]) + rest;
      if ArgsOctets(args, b) {
        var n: nat :| n <= |b| && ArgOctets(args[0], b[..n]) && ArgsOctets(args[1..], b[n..]);
        ArgOctetsIff(args[0], b[..n]);
        PlainArgsThen(mine[1..], more, b[n..], enc);
        assert b == b[..n] + b[n..];
      }
      if b == EncArg(mine[0]) + rest {
        var n := |EncArg(mine[0])|;
        assert b[..n] == EncArg(mine[0]) && b[n..] == rest;
        ArgOctetsIff(args[0], b[..n]);
        PlainArgsThen(mine[1..], more, b[n..], enc);
      }
    }
  }

  lemma LeadingBitsOf(mine: seq<Laid>, more: seq<Laid>)
    requires AllKind(mine, KBit) && (more != [] ==> !more[0].ABit?)
    ensures LeadingBits(mine + more) == |mine|
  {
    if mine != [] {
      assert (mine + more)[1..] == mine[1..] + more;
      LeadingBitsOf(mine[1..], more);
    } else {
      assert mine + more == more;
    }
  }

  /** Bits that end with the arguments or before one of another kind. */
  lemma BitsThen(mine: seq<Laid>, more: seq<Laid>, b: Bytes, enc: Bytes)
    requires mine != [] && AllKind(mine, KBit) && |mine| <= 8 && (more != [] ==> !more[0].ABit?)
    requires forall c: Bytes :: ArgsOctets(more, c) <==> c == enc
    ensures ArgsOctets(mine + more, b) <==> b == [OfBits(SetBits(0, mine, 0))] + enc
  {
    hide BitsOctet; hide SetBits; hide OfBits; hide LeadingBits;
    var args := mine + more;
    LeadingBitsOf(mine, more);
    assert args[..|mine|] == mine && args[|mine|..] == more;
    if b != [] {
      BitsOctetIff(mine, b[0]);
      assert b == [b[0]] + b[1..];
    }
  }

  /** The first argument is of the first run's kind. */
  lemma FirstOfRuns(runs: seq<Run>, args: seq<Laid>)
    requires Maximal(runs) && Fits(runs, args) && args != []
    ensures runs != [] && HasKind(args[0], runs[0].kind)
  {
    assert args[0] == args[..runs[0].n][0];
  }

  /** For runs with bits at most once, the arguments' octets are the encoder's. */
  lemma {:induction false} ArgsOctetsIff(runs: seq<Run>, args: seq<Laid>, bits: bv8, b: Bytes)
    requires Maximal(runs) && Compilable(runs) && Fits(runs, args)
    requires BitRuns(runs) == 0 || (BitRuns(runs) == 1 && bits == 0)
    ensures ArgsOctets(args, b) <==> b == EncRuns(runs, args, bits)
  {
    hide ArgsOctets; hide EncArgs; hide SetBits; hide OfBits;
    if runs == [] {
      assert ArgsOctets([], b) <==> b == [] by { NoArgs(b); }
    } else {
      var mine, more := args[..runs[0].n], args[runs[0].n..];
      assert args == mine + more;
      assert Maximal(runs[1..]);
      var bits1 := if runs[0].kind.KBit? then SetBits(0, mine, 0) else bits;
      forall c: Bytes
        ensures ArgsOctets(more, c) <==> c == EncRuns(runs[1..], more, bits1)
      {
        ArgsOctetsIff(runs[1..], more, bits1, c);
      }
      if runs[0].kind.KBit? {
        if more != [] {
          FirstOfRuns(runs[1..], more);
        }
        BitsThen(mine, more, b, EncRuns(runs[1..], more, bits1));
      } else {
        PlainArgsThen(mine, more, b, EncRuns(runs[1..], more, bits1));
      }
    }
  }

  lemma NoArgs(b: Bytes)
    ensures ArgsOctets([], b) <==> b == []
  {
  }

  // ---------- properties ----------

  /** What a property adds to the two octets that say which are present. */
  function Flag(present: bool, w: nat): nat {
    if present then w else 0
  }

  function Flags(p: LaidProps): nat {
    Flag(p.contentType != [], 0x8000) + Flag(p.contentEncoding != [], 0x4000) + Flag(p.headers != [], 0x2000)
      + Flag(p.deliveryMode > 0, 0x1000) + Flag(p.priority > 0, 0x800) + Flag(p.correlationId != [], 0x400)
      + Flag(p.replyTo != [], 0x200) + Flag(p.expiration != [], 0x100) + Flag(p.messageId != [], 0x80)
      + Flag(p.timestamp != Stamp(-62135596800, 0), 0x40) + Flag(p.typ != [], 0x20) + Flag(p.userId != [], 0x10)
      + Flag(p.appId != [], 8)
  }

  /** The properties as arguments, in wire order, with whether each is there. */
  function Listing(p: LaidProps): seq<(bool, Laid)> {
    [(p.contentType != [], AShortStr(p.contentType)),
     (p.contentEncoding != [], AShortStr(p.contentEncoding)),
     (p.headers != [], ATable(p.headers)),
     (p.deliveryMode > 0, AOctet(p.deliveryMode)),
     (p.priority > 0, AOctet(p.priority)),
     (p.correlationId != [], AShortStr(p.correlationId)),
     (p.replyTo != [], AShortStr(p.replyTo)),
     (p.expiration != [], AShortStr(p.expiration)),
     (p.messageId != [], AShortStr(p.messageId)),
     (p.timestamp != Stamp(-62135596800, 0), ALongLong(p.timestamp.sec % 0x1_0000_0000_0000_0000)),
     (p.typ != [], AShortStr(p.typ)),
     (p.userId != [], AShortStr(p.userId)),
     (p.appId != [], AShortStr(p.appId))]
  }

  function Chosen(ps: seq<(bool, Laid)>): seq<Laid> {
    if ps == [] then [] else (if ps[0].0 then [ps[0].1] else []) + Chosen(ps[1..])
  }

  function Present(p: LaidProps): seq<Laid> {
    Chosen(Listing(p))
  }

  /** Two octets of flags and the properties they announce. */
  ghost predicate PropsOctets(p: LaidProps, b: Bytes) {
    |b| >= 2 && BigEndian(b[..2]) == Flags(p) && ArgsOctets(Present(p), b[2..])
  }

  function FlagOf(m: bv16, w: bv16): nat {
    Flag(HasProperty(m, w), w as int)
  }

  function High(m: bv16): int {
    (m & 0xFF00) as int
  }

  function Low(m: bv16): int {
    (m & 0xFF) as int
  }

  lemma HalvesSum(m: bv16)
    ensures MaskInt(m) == High(m) + Low(m)
  {
  }

  lemma HighHalf(m: bv16)
    ensures High(m) == FlagOf(m, 0x8000) + FlagOf(m, 0x4000) + FlagOf(m, 0x2000) + FlagOf(m, 0x1000)
      + FlagOf(m, 0x800) + FlagOf(m, 0x400) + FlagOf(m, 0x200) + FlagOf(m, 0x100)
  {
  }

  lemma LowHalf(m: bv16)
    ensures Low(m) == FlagOf(m, 0x80) + FlagOf(m, 0x40) + FlagOf(m, 0x20) + FlagOf(m, 0x10)
      + FlagOf(m, 8) + FlagOf(m, 4) + FlagOf(m, 2) + FlagOf(m, 1)
  {
  }

  /** The two lowest bits are no property's. */
  lemma {:induction false} LowBitsUnused(ps: seq<(bool, bv16)>)
    requires forall i :: 0 <= i < |ps| ==> ps[i].1 in FLAGS
    ensures !HasProperty(MaskUpTo(ps), 1) && !HasProperty(MaskUpTo(ps), 2)
  {
    hide SetIf;
    if ps != [] {
      var n := |ps| - 1;
      LowBitsUnused(ps[..n]);
      HasSetIf(MaskUpTo(ps[..n]), ps[n].0, ps[n].1, 1);
      HasSetIf(MaskUpTo(ps[..n]), ps[n].0, ps[n].1, 2);
      FlagsHigh(ps[n].1);
    }
  }

  lemma FlagsHigh(f: bv16)
    requires f in FLAGS
    ensures !HasProperty(f, 1) && !HasProperty(f, 2)
  {
  }

  lemma MaskIsFlags(p: LaidProps)
    ensures MaskInt(MaskOf(p)) == Flags(p)
  {
    hide HasProperty; hide MaskUpTo; hide MaskInt; hide High; hide Low;
    MaskAnnounces(p, p.headers != []);
    LowBitsUnused(Presences(p, p.headers != []));
    HalvesSum(MaskOf(p));
    HighHalf(MaskOf(p));
    LowHalf(MaskOf(p));
  }

  lemma Put64Low(n: int)
    ensures Put64(n % 0x1_0000_0000_0000_0000) == Put64(n)
  {
    hide BigEndian; hide Put64;
    PutBigEndian(n);
    PutBigEndian(n % 0x1_0000_0000_0000_0000);
    BigEndianInjective(Put64(n % 0x1_0000_0000_0000_0000), Put64(n));
  }

  predicate WithoutBits(args: seq<Laid>) {
    forall i :: 0 <= i < |args| ==> !args[i].ABit?
  }

  /** part is the octets of a property that is present, and empty for one that is not. */
  predicate PartOf(x: (bool, Laid), part: Bytes) {
    !x.1.ABit? && part == If(x.0, EncArg(x.1))
  }

  lemma {:induction false} ChosenEncoded(ps: seq<(bool, Laid)>, parts: seq<Bytes>)
    requires |ps| == |parts| && forall i :: 0 <= i < |ps| ==> PartOf(ps[i], parts[i])
    ensures WithoutBits(Chosen(ps)) && EncArgs(Chosen(ps)) == Concat(parts)
  {
    hide EncArg; hide EncArgs; hide Concat; hide PartOf;
    if ps == [] {
      assert EncArgs([]) == Concat([]) by { NothingEncoded(); }
    } else {
      ChosenEncoded(ps[1..], parts[1..]);
      FirstEncoded(ps[0], parts, Chosen(ps[1..]));
    }
  }

  lemma NothingEncoded()
    ensures EncArgs([]) == [] && Concat([]) == []
  {
  }

  lemma FirstEncoded(x: (bool, Laid), parts: seq<Bytes>, more: seq<Laid>)
    requires parts != [] && PartOf(x, parts[0])
    requires WithoutBits(more) && EncArgs(more) == Concat(parts[1..])
    ensures var args := (if x.0 then [x.1] else []) + more;
      WithoutBits(args) && EncArgs(args) == Concat(parts)
  {
    hide EncArg;
    if x.0 {
      assert ([x.1] + more)[1..] == more;
    } else {
      assert [] + more == more;
    }
  }

  lemma {:induction false} ConcatJoins(a: seq<Bytes>, b: seq<Bytes>)
    ensures Concat(a + b) == Concat(a) + Concat(b)
  {
    if a == [] {
      assert a + b == b;
    } else {
      assert (a + b)[1..] == a[1..] + b;
      ConcatJoins(a[1..], b);
    }
  }

  lemma ContentListed(p: LaidProps, i: nat)
    requires i < 5
    ensures PartOf(Listing(p)[i], ContentParts(p)[i])
  {
    hide EncShort; hide EncTable; hide If;
  }

  lemma MessageListed(p: LaidProps, i: nat)
    requires i < 5
    ensures PartOf(Listing(p)[5 + i], MessageParts(p)[i])
  {
    hide EncShort; hide Put64; hide If;
    Put64Low(p.timestamp.sec);
  }

  lemma OriginListed(p: LaidProps, i: nat)
    requires i < 3
    ensures PartOf(Listing(p)[10 + i], OriginParts(p)[i])
  {
    hide EncShort; hide If;
  }

  lemma EncPropsIs(p: LaidProps)
    ensures WithoutBits(Present(p)) && EncProps(p) == PutMask(MaskOf(p)) + EncArgs(Present(p))
  {
    hide PutMask; hide MaskOf; hide EncArgs; hide Concat; hide Chosen; hide WithoutBits; hide PartOf; hide EncShort;
    hide EncTable; hide Put64; hide If;
    var c, m, o := ContentParts(p), MessageParts(p), OriginParts(p);
    ConcatJoins(c + m, o);
    ConcatJoins(c, m);
    forall i: nat | i < 13
      ensures PartOf(Listing(p)[i], (c + m + o)[i])
    {
      if i < 5 {
        ContentListed(p, i);
      } else if i < 10 {
        MessageListed(p, i - 5);
      } else {
        OriginListed(p, i - 10);
      }
    }
    ChosenEncoded(Listing(p), c + m + o);
  }

  lemma PresentOctetsIff(p: LaidProps, b: Bytes)
    ensures ArgsOctets(Present(p), b) <==> b == EncArgs(Present(p))
  {
    hide ArgsOctets; hide EncArgs; hide Present;
    EncPropsIs(p);
    forall c: Bytes
      ensures ArgsOctets([], c) <==> c == []
    {
      NoArgs(c);
    }
    PlainArgsThen(Present(p), [], b, []);
    assert Present(p) + [] == Present(p) && EncArgs(Present(p)) + [] == EncArgs(Present(p));
  }

  /** The octets described are those the encoder gives the properties. */
  lemma PropsOctetsIff(p: LaidProps, b: Bytes)
    ensures PropsOctets(p, b) <==> b == EncProps(p)
  {
    hide BigEndian; hide Put16; hide MaskOf; hide MaskInt; hide Flags; hide ArgsOctets; hide EncArgs; hide Present;
    hide EncProps;
    EncPropsIs(p);
    MaskIsFlags(p);
    PutBigEndian(MaskInt(MaskOf(p)));
    var mask, args := PutMask(MaskOf(p)), EncArgs(Present(p));
    if PropsOctets(p, b) {
      NumberIff(b[..2], mask);
      PresentOctetsIff(p, b[2..]);
      assert b == b[..2] + b[2..];
    }
    if b == mask + args {
      assert b[..2] == mask && b[2..] == args;
      PresentOctetsIff(p, args);
    }
  }

  // ---------- frames ----------

  /** Class and method number, then the arguments. */
  ghost predicate MethodOctets(m: Method, args: seq<Laid>, b: Bytes) {
    && |b| >= 4 && BigEndian(b[..2]) == CodeOf(m).class_ && BigEndian(b[2..4]) == CodeOf(m).index
    && ArgsOctets(args, b[4..])
  }

  /** Class, weight and body size, then the properties. */
  ghost predicate HeaderOctets(class_: u16, weight: u16, size: u64, p: LaidProps, b: Bytes) {
    && |b| >= 12 && BigEndian(b[..2]) == class_ && BigEndian(b[2..4]) == weight && BigEndian(b[4..12]) == size
    && PropsOctets(p, b[12..])
  }

  ghost predicate PayloadOctets(f: LaidFrame, b: Bytes) {
    match f
    case MethodFrame(_, m, args) => MethodOctets(m, args, b)
    case HeaderFrame(_, class_, weight, size, p) => HeaderOctets(class_, weight, size, p, b)
    case BodyFrame(_, body) => b == body
    case HeartbeatFrame(_) => b == []
  }

  function TypeNumber(f: LaidFrame): nat {
    match f
    case MethodFrame(_, _, _) => 1
    case HeaderFrame(_, _, _, _, _) => 2
    case BodyFrame(_, _) => 3
    case HeartbeatFrame(_) => 8
  }

  /** Type, channel, the size of the payload, the payload and the octet 206. */
  ghost predicate OnWire(f: LaidFrame, e: Bytes) {
    && |e| >= 8 && e[0] as int == TypeNumber(f) && BigEndian(e[1..3]) == f.channel
    && BigEndian(e[3..7]) == (|e| - 8) % 0x1_0000_0000
    && PayloadOctets(f, e[7..|e| - 1])
    && e[|e| - 1] == 206
  }

  lemma MethodOctetsIff(m: Method, args: seq<Laid>, b: Bytes)
    requires Fits(Runs(m), args)
    ensures MethodOctets(m, args, b) <==> b == EncMethod(m, args)
  {
    hide BigEndian; hide Put16; hide ArgsOctets; hide EncRuns; hide CodeOf; hide ID; hide Runs; hide Fits;
    hide Maximal;
    GeneratedIsCompiled(m);
    EveryRowMaximal(m);
    NumbersOfRow(m);
    MethodBitRuns(m);
    var class_, index, enc := Put16(ID(m).0), Put16(ID(m).1), Encode(Runs(m), args);
    PutBigEndian(ID(m).0);
    PutBigEndian(ID(m).1);
    if MethodOctets(m, args, b) {
      NumberIff(b[..2], class_);
      NumberIff(b[2..4], index);
      ArgsOctetsIff(Runs(m), args, 0, b[4..]);
      assert b == b[..2] + (b[2..4] + b[4..]);
    }
    if b == class_ + (index + enc) {
      assert b[..2] == class_ && b[2..4] == index && b[4..] == enc;
      ArgsOctetsIff(Runs(m), args, 0, enc);
    }
  }

  /** The first twelve octets of a header. */
  lemma FixedPartIff(class_: u16, weight: u16, size: u64, b: Bytes)
    requires |b| == 12
    ensures BigEndian(b[..2]) == class_ && BigEndian(b[2..4]) == weight && BigEndian(b[4..]) == size
      <==> b == Put16(class_) + (Put16(weight) + Put64(size))
  {
    hide BigEndian; hide Put16; hide Put64;
    ShortIs(class_, b[..2]);
    ShortIs(weight, b[2..4]);
    LongLongIs(size, b[4..]);
    ThreePartsIff(b, Put16(class_), Put16(weight), Put64(size));
  }

  lemma ShortIs(n: u16, b: Bytes)
    requires |b| == 2
    ensures BigEndian(b) == n <==> b == Put16(n)
  {
    hide BigEndian; hide Put16;
    PutBigEndian(n);
    NumberIff(b, Put16(n));
  }

  lemma LongLongIs(n: u64, b: Bytes)
    requires |b| == 8
    ensures BigEndian(b) == n <==> b == Put64(n)
  {
    hide BigEndian; hide Put64;
    PutBigEndian(n);
    NumberIff(b, Put64(n));
  }

  lemma ThreePartsIff(b: Bytes, x: Bytes, y: Bytes, z: Bytes)
    requires |b| == 12 && |x| == 2 && |y| == 2 && |z| == 8
    ensures b[..2] == x && b[2..4] == y && b[4..] == z <==> b == x + (y + z)
  {
    assert b == b[..2] + (b[2..4] + b[4..]);
    var s := x + (y + z);
    assert s[..2] == x && s[2..4] == y && s[4..] == z;
  }

  lemma HeaderOctetsIff(class_: u16, weight: u16, size: u64, p: LaidProps, b: Bytes)
    ensures HeaderOctets(class_, weight, size, p, b) <==> b == EncHeader(class_, weight, size, p)
  {
    hide BigEndian; hide Put16; hide Put64; hide PropsOctets; hide EncProps;
    var fixed := Put16(class_) + (Put16(weight) + Put64(size));
    assert EncHeader(class_, weight, size, p) == fixed + EncProps(p);
    if |b| >= 12 {
      var h := b[..12];
      assert h[..2] == b[..2] && h[2..4] == b[2..4] && h[4..] == b[4..12];
      FixedPartIff(class_, weight, size, h);
      PropsOctetsIff(p, b[12..]);
      assert b == h + b[12..];
    }
  }

  lemma PayloadOctetsIff(f: LaidFrame, b: Bytes)
    requires Formed(f)
    ensures PayloadOctets(f, b) <==> b == Payload(f)
  {
    hide MethodOctets; hide HeaderOctets; hide EncMethod; hide EncHeader; hide Fits; hide Runs;
    match f {
      case MethodFrame(_, m, args) => MethodOctetsIff(m, args, b);
      case HeaderFrame(_, class_, weight, size, p) => HeaderOctetsIff(class_, weight, size, p, b);
      case BodyFrame(_, _) =>
      case HeartbeatFrame(_) =>
    }
  }

  /** The octets described are exactly those of the encoder. */
  lemma OnWireIff(f: LaidFrame, e: Bytes)
    requires Formed(f)
    ensures OnWire(f, e) <==> e == EncFrame(f)
  {
    hide BigEndian; hide Put16; hide Put32; hide PayloadOctets; hide Payload; hide Formed;
    var p := Payload(f);
    if OnWire(f, e) {
      PayloadOctetsIff(f, e[7..|e| - 1]);
      PutBigEndian(f.channel);
      PutBigEndian(|p|);
      NumberIff(e[1..3], Put16(f.channel));
      NumberIff(e[3..7], Put32(|p|));
      assert e == [e[0]] + e[1..3] + e[3..7] + e[7..|e| - 1] + [e[|e| - 1]];
    }
    if e == EncFrame(f) {
      PutBigEndian(f.channel);
      PutBigEndian(|p|);
      assert e[1..3] == Put16(f.channel) && e[3..7] == Put32(|p|) && e[7..|e| - 1] == p;
      PayloadOctetsIff(f, p);
    }
  }

  /** Whatever octets describe a frame in range, they read as that frame, normalised. */
  lemma OnWireReads(f: LaidFrame, e: Bytes, rest: Bytes)
    requires Formed(f) && OnWire(f, e) && WellSizedFrame(f)
    ensures ParseFrame(e + rest) == Ok(NormFrame(f), rest)
  {
    hide OnWire; hide EncFrame; hide ParseFrame; hide NormFrame; hide WellSizedFrame; hide Formed;
    OnWireIff(f, e);
    FrameRoundTrip(f, rest);
  }

  // ---------- a reader that only uses the sizes ----------

  /** The whole frames in front and the octets behind them, by skipping over a payload of the given size. */
  function Skip(s: Bytes): (seq<Bytes>, Bytes)
    decreases |s|
  {
    if |s| < 8 || |s| < 8 + BigEndian(s[3..7]) then ([], s)
    else
      var n := 8 + BigEndian(s[3..7]);
      var (more, rest) := Skip(s[n..]);
      ([s[..n]] + more, rest)
  }

  /** Every piece is the octets of the frame in its place. */
  ghost predicate Pieces(fs: seq<LaidFrame>, pieces: seq<Bytes>) {
    |pieces| == |fs| && forall i :: 0 <= i < |fs| ==> OnWire(fs[i], pieces[i])
  }

  lemma FrameFirst(f: LaidFrame, more: Bytes)
    requires Formed(f) && |Payload(f)| < 0x1_0000_0000
    ensures var e := EncFrame(f); var s := e + more;
      OnWire(f, e) && |s| >= 8 && BigEndian(s[3..7]) + 8 == |e| && s[..|e|] == e && s[|e|..] == more
  {
    hide BigEndian; hide PayloadOctets; hide Payload; hide Formed;
    var e := EncFrame(f);
    OnWireIff(f, e);
    EncFrameLength(f);
    assert (e + more)[3..7] == e[3..7];
  }

  /** Skipping by the sizes cuts what was written into exactly the frames written, when no payload reaches
      2^32 octets. */
  lemma {:induction false} SkipCutsFrames(fs: seq<LaidFrame>)
    requires forall i :: 0 <= i < |fs| ==> Formed(fs[i]) && |Payload(fs[i])| < 0x1_0000_0000
    ensures var (pieces, rest) := Skip(EncFrames(fs)); Pieces(fs, pieces) && rest == []
  {
    hide BigEndian; hide OnWire; hide EncFrame; hide Payload; hide Formed;
    if fs != [] {
      var more := EncFrames(fs[1..]);
      FrameFirst(fs[0], more);
      SkipCutsFrames(fs[1..]);
      var (pieces, rest) := Skip(EncFrames(fs));
      assert pieces == [EncFrame(fs[0])] + Skip(more).0;
    }
  }

  // ---------- confirms and settlements octet by octet ----------

  lemma OnlyBits(bits: seq<Laid>, b: byte)
    requires AllKind(bits, KBit) && bits != [] && BitsOctet(bits, b)
    ensures ArgsOctets(bits, [b])
  {
    hide BitsOctet; hide LeadingBits;
    assert bits + [] == bits;
    LeadingBitsOf(bits, []);
    assert bits[..|bits|] == bits;
    NoArgs([]);
  }

  lemma TagAndBits(tag: u64, bits: seq<Laid>, t: Bytes, b: byte)
    requires |t| == 8 && BigEndian(t) == tag
    requires AllKind(bits, KBit) && bits != [] && BitsOctet(bits, b)
    ensures ArgsOctets([ALongLong(tag)] + bits, t + [b])
  {
    hide BigEndian; hide BitsOctet;
    OnlyBits(bits, b);
    var args, s := [ALongLong(tag)] + bits, t + [b];
    assert args[1..] == bits && s[..8] == t && s[8..] == [b];
  }

  lemma Small(n: byte)
    ensures BigEndian([0, n]) == n as int
  {
    BigEndianGet16([0, n]);
  }

  /** A method of class 60 with a delivery tag and one or two bits. */
  lemma Settlement(m: Method, index: byte, tag: u64, bits: seq<Laid>, t: Bytes, b: byte)
    requires CodeOf(m).class_ == 60 && CodeOf(m).index == index as int
    requires |t| == 8 && BigEndian(t) == tag
    requires AllKind(bits, KBit) && bits != [] && BitsOctet(bits, b)
    ensures MethodOctets(m, [ALongLong(tag)] + bits, [0, 60, 0, index] + t + [b])
  {
    hide BigEndian; hide BitsOctet; hide ArgsOctets; hide CodeOf;
    TagAndBits(tag, bits, t, b);
    Small(60);
    Small(index);
    var s := [0, 60, 0, index] + t + [b];
    assert s[..2] == [0, 60] && s[2..4] == [0, index] && s[4..] == t + [b];
  }

  function Bit(b: bool, w: byte): byte {
    if b then w else 0
  }

  /** Basic.Ack, Basic.Reject and Basic.Nack are written as the numbers 60 and 80, 90 or 120, the tag in eight octets
      and one octet of bits, in which requeue of a nack is worth 2. */
  lemma SettlementsWritten(tag: u64, t: Bytes, first: bool, requeue: bool)
    requires |t| == 8 && BigEndian(t) == tag
    ensures Fits<seq<Entry>>(Runs(Basic(BasicAck)), [ALongLong(tag), ABit(first)])
      && EncMethod(Basic(BasicAck), [ALongLong(tag), ABit(first)]) == [0, 60, 0, 80] + t + [Bit(first, 1)]
    ensures Fits<seq<Entry>>(Runs(Basic(BasicReject)), [ALongLong(tag), ABit(first)])
      && EncMethod(Basic(BasicReject), [ALongLong(tag), ABit(first)]) == [0, 60, 0, 90] + t + [Bit(first, 1)]
    ensures Fits<seq<Entry>>(Runs(Basic(BasicNack)), [ALongLong(tag), ABit(first), ABit(requeue)])
      && EncMethod(Basic(BasicNack), [ALongLong(tag), ABit(first), ABit(requeue)])
        == [0, 60, 0, 120] + t + [Bit(first, 1) + Bit(requeue, 2)]
  {
    hide BigEndian; hide MethodOctets; hide EncMethod; hide Runs;
    var one, two: seq<Laid> := [ABit(first)], [ABit(first), ABit(requeue)];
    SettlementFits(tag, first, requeue);
    Settlement(Basic(BasicAck), 80, tag, one, t, Bit(first, 1));
    Settlement(Basic(BasicReject), 90, tag, one, t, Bit(first, 1));
    Settlement(Basic(BasicNack), 120, tag, two, t, Bit(first, 1) + Bit(requeue, 2));
    assert [ALongLong(tag)] + one == [ALongLong(tag), ABit(first)];
    assert [ALongLong(tag)] + two == [ALongLong(tag), ABit(first), ABit(requeue)];
    MethodOctetsIff(Basic(BasicAck), [ALongLong(tag)] + one, [0, 60, 0, 80] + t + [Bit(first, 1)]);
    MethodOctetsIff(Basic(BasicReject), [ALongLong(tag)] + one, [0, 60, 0, 90] + t + [Bit(first, 1)]);
    MethodOctetsIff(Basic(BasicNack), [ALongLong(tag)] + two,
                    [0, 60, 0, 120] + t + [Bit(first, 1) + Bit(requeue, 2)]);
  }

  lemma SettlementFits(tag: u64, first: bool, requeue: bool)
    ensures Fits<seq<Entry>>(Runs(Basic(BasicAck)), [ALongLong(tag), ABit(first)])
    ensures Fits<seq<Entry>>(Runs(Basic(BasicReject)), [ALongLong(tag), ABit(first)])
    ensures Fits<seq<Entry>>(Runs(Basic(BasicNack)), [ALongLong(tag), ABit(first), ABit(requeue)])
  {
    hide Runs;
    GeneratedIsCompiled(Basic(BasicAck));
    GeneratedIsCompiled(Basic(BasicReject));
    GeneratedIsCompiled(Basic(BasicNack));
    FitsTagAnd(tag, [ABit(first)]);
    FitsTagAnd(tag, [ABit(first), ABit(requeue)]);
  }

  lemma FitsTagAnd(tag: u64, bits: seq<Laid>)
    requires AllKind(bits, KBit) && bits != []
    ensures Fits([Run(KLongLong, 1), Run(KBit, |bits|)], [ALongLong(tag)] + bits)
  {
    var args, runs := [ALongLong(tag)] + bits, [Run(KLongLong, 1), Run(KBit, |bits|)];
    assert args[1..] == bits && bits[..|bits|] == bits && bits[|bits|..] == [];
    assert runs[1..] == [Run(KBit, |bits|)] && runs[1..][1..] == [];
  }
}
