/** Method arguments: the encoder and decoder generated from a method's runs of fields.

    The generated code handles one run at a time. A run of bits is packed into one octet held in a
    variable that the encoder never clears, so a second bit run also carries the bits of the first. */
module Arguments {
  import opened Octets
  import opened FieldCodec

  /** A run of n fields of one kind. KOctet also stands for shortshort; no decoder or encoder for
      timestamps exists in the repository. */
  datatype Kind = KBit | KOctet | KShort | KLong | KLongLong | KShortStr | KLongStr | KTable
  datatype Run = Run(kind: Kind, n: nat)

  /** An argument. T is how a table is held: laid out for the encoder, a map from the decoder. */
  datatype Arg<+T> =
    | ABit(b: bool)
    | AOctet(o: byte)
    | AShort(s: u16)
    | ALong(l: u32)
    | ALongLong(ll: u64)
    | AShortStr(short: Bytes)
    | ALongStr(long: Bytes)
    | ATable(t: T)

  type Laid = Arg<seq<Entry>>
  type Read = Arg<map<Bytes, Field>>

  predicate HasKind<T>(a: Arg<T>, k: Kind) {
    match k
    case KBit => a.ABit?
    case KOctet => a.AOctet?
    case KShort => a.AShort?
    case KLong => a.ALong?
    case KLongLong => a.ALongLong?
    case KShortStr => a.AShortStr?
    case KLongStr => a.ALongStr?
    case KTable => a.ATable?
  }

  predicate AllKind<T>(args: seq<Arg<T>>, k: Kind) {
    forall i :: 0 <= i < |args| ==> HasKind(args[i], k)
  }

  /** The arguments fill the runs, kind by kind. */
  predicate Fits<T>(runs: seq<Run>, args: seq<Arg<T>>) {
    if runs == [] then args == []
    else
      && runs[0].n <= |args|
      && AllKind(args[..runs[0].n], runs[0].kind)
      && Fits(runs[1..], args[runs[0].n..])
  }

  /** A shift past the octet does not compile in the generated code. */
  predicate Compilable(runs: seq<Run>) {
    forall i :: 0 <= i < |runs| ==> runs[i].kind.KBit? ==> runs[i].n <= 8
  }

  // ---------- one octet of bits ----------

  /** bits with each true argument's bit set, the first at offset off. */
  function SetBits<T>(bits: bv8, args: seq<Arg<T>>, off: nat): bv8
    requires AllKind(args, KBit) && off + |args| <= 8
    decreases |args|
  {
    if args == [] then bits
    else SetBits(if args[0].b then bits | (1 << off) else bits, args[1..], off + 1)
  }

  predicate HasBit(bits: bv8, off: nat)
    requires off < 8
  {
    bits & (1 << off) > 0
  }

  function GetBits(bits: bv8, n: nat): seq<Read>
    requires n <= 8
  {
    seq(n, i requires 0 <= i < n => ABit(HasBit(bits, i)))
  }

  lemma SetOneBit(bits: bv8, i: nat, j: nat)
    requires i < 8 && j < 8
    ensures HasBit(bits | (1 << i), j) <==> i == j || HasBit(bits, j)
  {
  }

  /** A bit is set afterwards if it was set before or its argument is true. */
  lemma {:induction false} SetBitsHas<T>(bits: bv8, args: seq<Arg<T>>, off: nat, j: nat)
    requires AllKind(args, KBit) && off + |args| <= 8 && j < 8
    ensures HasBit(SetBits(bits, args, off), j) <==> HasBit(bits, j) || (off <= j < off + |args| && args[j - off].b)
    decreases |args|
  {
    if args != [] {
      SetOneBit(bits, off, j);
      SetBitsHas(if args[0].b then bits | (1 << off) else bits, args[1..], off + 1, j);
    }
  }

  // ---------- the generated encoder and decoder ----------

  function EncArg(a: Laid): Bytes {
    match a
    case ABit(_) => []
    case AOctet(o) => [o]
    case AShort(n) => Put16(n)
    case ALong(n) => Put32(n)
    case ALongLong(n) => Put64(n)
    case AShortStr(str) => EncShort(str)
    case ALongStr(str) => EncLong(str)
    case ATable(es) => EncTable(es)
  }

  function EncArgs(args: seq<Laid>): Bytes {
    if args == [] then [] else EncArg(args[0]) + EncArgs(args[1..])
  }

  function EncRuns(runs: seq<Run>, args: seq<Laid>, bits: bv8): Bytes
    requires Fits(runs, args) && Compilable(runs)
  {
    if runs == [] then []
    else
      var mine, more := args[..runs[0].n], args[runs[0].n..];
      if runs[0].kind.KBit? then
        var bits1 := SetBits(bits, mine, 0);
        [OfBits(bits1)] + EncRuns(runs[1..], more, bits1)
      else
        EncArgs(mine) + EncRuns(runs[1..], more, bits)
  }

  function DecArg(k: Kind, s: Bytes): (r: Parsed<Read>)
    requires !k.KBit?
    ensures |r.rest| <= |s|
  {
    match k
    case KOctet => (var (o, t) :- Take8(s); Ok(AOctet(o), t))
    case KShort => (var (n, t) :- Take16(s); Ok(AShort(n), t))
    case KLong => (var (n, t) :- Take32(s); Ok(ALong(n), t))
    case KLongLong => (var (n, t) :- Take64(s); Ok(ALongLong(n), t))
    case KShortStr => (var (str, t) :- ParseShort(s); Ok(AShortStr(str), t))
    case KLongStr => (var (str, t) :- ParseLong(s); Ok(ALongStr(str), t))
    case KTable => (var (v, t) :- ParseTable(s); Ok(ATable(v.table), t))
  }

  function DecArgs(k: Kind, n: nat, s: Bytes): (r: Parsed<seq<Read>>)
    requires !k.KBit?
    ensures |r.rest| <= |s|
  {
    if n == 0 then Ok([], s)
    else
      var (a, t) :- DecArg(k, s);
      var (more, u) :- DecArgs(k, n - 1, t);
      Ok([a] + more, u)
  }

  function DecRun(run: Run, s: Bytes): (r: Parsed<seq<Read>>)
    requires run.kind.KBit? ==> run.n <= 8
    ensures |r.rest| <= |s|
  {
    if run.kind.KBit? then
      var (bits, t) :- Take8(s);
      Ok(GetBits(ToBits(bits), run.n), t)
    else
      DecArgs(run.kind, run.n, s)
  }

  function DecRuns(runs: seq<Run>, s: Bytes): (r: Parsed<seq<Read>>)
    requires Compilable(runs)
    ensures |r.rest| <= |s|
  {
    if runs == [] then Ok([], s)
    else
      var (mine, t) :- DecRun(runs[0], s);
      var (more, u) :- DecRuns(runs[1..], t);
      Ok(mine + more, u)
  }

  // ---------- what the decoder makes of the encoder's octets ----------

  function NormArg(a: Laid): Read {
    match a
    case ABit(b) => ABit(b)
    case AOctet(o) => AOctet(o)
    case AShort(n) => AShort(n)
    case ALong(n) => ALong(n)
    case ALongLong(n) => ALongLong(n)
    case AShortStr(str) => AShortStr(Short(str))
    case ALongStr(str) => ALongStr(str)
    case ATable(es) => ATable(NormEntries(es, map[]))
  }

  function NormArgs(args: seq<Laid>): seq<Read> {
    seq(|args|, i requires 0 <= i < |args| => NormArg(args[i]))
  }

  predicate ArgWellSized(a: Laid) {
    match a
    case ALongStr(str) => |str| < TWO31
    case ATable(es) => WellSizedTable(es)
    case _ => true
  }

  predicate ArgsWellSized(args: seq<Laid>) {
    forall i :: 0 <= i < |args| ==> ArgWellSized(args[i])
  }

  /** The arguments as they come back: a bit also reads as true when an earlier bit run had a true
      bit at the same offset. seen holds the offsets set so far. */
  function Smear(runs: seq<Run>, args: seq<Laid>, seen: set<nat>): seq<Laid>
    requires Fits(runs, args)
  {
    if runs == [] then []
    else
      var mine, more := args[..runs[0].n], args[runs[0].n..];
      if runs[0].kind.KBit? then
        SmearRun(mine, seen) + Smear(runs[1..], more, seen + TrueOffsets(mine))
      else
        mine + Smear(runs[1..], more, seen)
  }

  function SmearRun(args: seq<Laid>, seen: set<nat>): seq<Laid>
    requires AllKind(args, KBit)
  {
    seq(|args|, i requires 0 <= i < |args| => ABit(args[i].b || i in seen))
  }

  function TrueOffsets(args: seq<Laid>): set<nat>
    requires AllKind(args, KBit)
  {
    set i | 0 <= i < |args| && args[i].b
  }

  /** The bits variable holds exactly the offsets seen. */
  predicate Holds(bits: bv8, seen: set<nat>) {
    forall j :: 0 <= j < 8 ==> (HasBit(bits, j) <==> j in seen)
  }

  lemma ArgRoundTrip(k: Kind, a: Laid, rest: Bytes)
    requires !k.KBit? && HasKind(a, k) && ArgWellSized(a)
    ensures DecArg(k, EncArg(a) + rest) == Ok(NormArg(a), rest)
  {
    hide Put16; hide Put32; hide Put64; hide Take8; hide Take16; hide Take32; hide Take64;
    hide EncShort; hide EncLong; hide ParseShort; hide ParseLong; hide ParseTable; hide EncTable;
    match a {
      case AOctet(o) => Take8Put(o, rest);
      case AShort(n) => Take16Put(n, rest);
      case ALong(n) => Take32Put(n, rest);
      case ALongLong(n) => Take64Put(n, rest);
      case AShortStr(str) => ShortRoundTrip(str, rest);
      case ALongStr(str) => LongRoundTrip(str, rest);
      case ATable(es) => TableRoundTrip(es, rest);
    }
  }

  lemma {:induction false} ArgsRoundTrip(k: Kind, args: seq<Laid>, rest: Bytes)
    requires !k.KBit? && AllKind(args, k) && ArgsWellSized(args)
    ensures DecArgs(k, |args|, EncArgs(args) + rest) == Ok(NormArgs(args), rest)
  {
    hide DecArg; hide EncArg; hide NormArg; hide HasKind; hide ArgWellSized;
    if args == [] {
      assert EncArgs(args) + rest == rest;
    } else {
      assert EncArgs(args) + rest == EncArg(args[0]) + (EncArgs(args[1..]) + rest);
      ArgRoundTrip(k, args[0], EncArgs(args[1..]) + rest);
      ArgsRoundTrip(k, args[1..], rest);
      assert NormArgs(args) == [NormArg(args[0])] + NormArgs(args[1..]);
    }
  }

  lemma BitRunRoundTrip(args: seq<Laid>, bits: bv8, seen: set<nat>, rest: Bytes)
    requires AllKind(args, KBit) && |args| <= 8 && Holds(bits, seen)
    ensures Holds(SetBits(bits, args, 0), seen + TrueOffsets(args))
    ensures DecRun(Run(KBit, |args|), [OfBits(SetBits(bits, args, 0))] + rest)
      == Ok(NormArgs(SmearRun(args, seen)), rest)
  {
    hide HasBit; hide SetBits; hide OfBits; hide ToBits; hide Take8;
    var bits1 := SetBits(bits, args, 0);
    forall j | 0 <= j < 8
      ensures HasBit(bits1, j) <==> j in seen || (j < |args| && args[j].b)
    {
      SetBitsHas(bits, args, 0, j);
    }
    Take8Put(OfBits(bits1), rest);
    BitsRoundTrip(bits1);
    assert GetBits(bits1, |args|) == NormArgs(SmearRun(args, seen));
  }

  /** For every schema and all arguments: decoding the encoding gives the smeared arguments and
      leaves the octets after it untouched. */
  lemma {:induction false} RunsRoundTrip(runs: seq<Run>, args: seq<Laid>, bits: bv8, seen: set<nat>, rest: Bytes)
    requires Fits(runs, args) && Compilable(runs) && ArgsWellSized(args) && Holds(bits, seen)
    ensures DecRuns(runs, EncRuns(runs, args, bits) + rest) == Ok(NormArgs(Smear(runs, args, seen)), rest)
  {
    hide HasBit; hide SetBits; hide GetBits; hide DecArgs; hide EncArgs; hide OfBits; hide ToBits;
    hide NormArg; hide ArgWellSized; hide HasKind; hide SmearRun; hide TrueOffsets; hide Holds;
    if runs == [] {
      assert [] + rest == rest;
    } else {
      var n := runs[0].n;
      var mine, more := args[..n], args[n..];
      if runs[0].kind.KBit? {
        var bits1, seen1 := SetBits(bits, mine, 0), seen + TrueOffsets(mine);
        var tail := EncRuns(runs[1..], more, bits1) + rest;
        assert EncRuns(runs, args, bits) + rest == [OfBits(bits1)] + tail;
        BitRunRoundTrip(mine, bits, seen, tail);
        RunsRoundTrip(runs[1..], more, bits1, seen1, rest);
        NormArgsConcat(SmearRun(mine, seen), Smear(runs[1..], more, seen1));
      } else {
        var tail := EncRuns(runs[1..], more, bits) + rest;
        assert EncRuns(runs, args, bits) + rest == EncArgs(mine) + tail;
        ArgsRoundTrip(runs[0].kind, mine, tail);
        RunsRoundTrip(runs[1..], more, bits, seen, rest);
        NormArgsConcat(mine, Smear(runs[1..], more, seen));
      }
    }
  }

  lemma NormArgsConcat(a: seq<Laid>, b: seq<Laid>)
    ensures NormArgs(a + b) == NormArgs(a) + NormArgs(b)
  {
  }

  // ---------- exactly which schemas are faithful ----------

  function Encode(runs: seq<Run>, args: seq<Laid>): Bytes
    requires Fits(runs, args) && Compilable(runs)
  {
    EncRuns(runs, args, 0)
  }

  function BitRuns(runs: seq<Run>): nat {
    if runs == [] then 0 else (if runs[0].kind.KBit? then 1 else 0) + BitRuns(runs[1..])
  }

  predicate RestoresArgs(runs: seq<Run>, args: seq<Laid>)
    requires Fits(runs, args) && Compilable(runs)
  {
    DecRuns(runs, Encode(runs, args)) == Ok(NormArgs(args), [])
  }

  /** Whatever the arguments, the decoder restores them. */
  ghost predicate Faithful(runs: seq<Run>)
    requires Compilable(runs)
  {
    forall args: seq<Laid> :: Fits(runs, args) && ArgsWellSized(args) ==> RestoresArgs(runs, args)
  }

  lemma NothingSeen()
    ensures Holds(0, {})
  {
  }

  /** Restoring the arguments comes down to smearing not changing them. */
  lemma RestoresIffUnsmeared(runs: seq<Run>, args: seq<Laid>)
    requires Fits(runs, args) && Compilable(runs) && ArgsWellSized(args)
    ensures RestoresArgs(runs, args) <==> NormArgs(Smear(runs, args, {})) == NormArgs(args)
  {
    NothingSeen();
    RunsRoundTrip(runs, args, 0, {}, []);
    assert Encode(runs, args) + [] == Encode(runs, args);
  }

  /** The generated codec restores all arguments of a schema exactly when the schema has at most
      one run of bits. */
  lemma FaithfulIffOneBitRun(runs: seq<Run>)
    requires Compilable(runs) && forall i :: 0 <= i < |runs| ==> runs[i].n > 0
    ensures Faithful(runs) <==> BitRuns(runs) <= 1
  {
    if BitRuns(runs) <= 1 {
      forall args: seq<Laid> | Fits(runs, args) && ArgsWellSized(args)
        ensures RestoresArgs(runs, args)
      {
        OneBitRunUnsmeared(runs, args, {});
        RestoresIffUnsmeared(runs, args);
      }
    } else {
      var args := NotRestored(runs);
      assert !RestoresArgs(runs, args);
    }
  }

  lemma NotRestored(runs: seq<Run>) returns (args: seq<Laid>)
    requires Compilable(runs) && BitRuns(runs) >= 2
    requires forall i :: 0 <= i < |runs| ==> runs[i].n > 0
    ensures Fits(runs, args) && ArgsWellSized(args) && !RestoresArgs(runs, args)
  {
    var at;
    args, at := Witness(runs, false);
    RestoresIffUnsmeared(runs, args);
    var out := Smear(runs, args, {});
    assert SeenSoFar(false, {});
    assert out[at] != args[at];
    assert NormArgs(out)[at] == NormArg(out[at]);
    assert NormArgs(args)[at] == NormArg(args[at]);
  }

  lemma {:induction false} OneBitRunUnsmeared(runs: seq<Run>, args: seq<Laid>, seen: set<nat>)
    requires Fits(runs, args)
    requires BitRuns(runs) == 0 || (BitRuns(runs) == 1 && seen == {})
    ensures Smear(runs, args, seen) == args
  {
    if runs != [] {
      var mine, more := args[..runs[0].n], args[runs[0].n..];
      assert args == mine + more;
      if runs[0].kind.KBit? {
        assert SmearRun(mine, seen) == mine;
        OneBitRunUnsmeared(runs[1..], more, seen + TrueOffsets(mine));
      } else {
        OneBitRunUnsmeared(runs[1..], more, seen);
      }
    }
  }

  function Sample(k: Kind, bit: bool): (a: Laid)
    ensures HasKind(a, k) && ArgWellSized(a)
    ensures k.KBit? ==> a == ABit(bit)
  {
    match k
    case KBit => ABit(bit)
    case KOctet => AOctet(0)
    case KShort => AShort(0)
    case KLong => ALong(0)
    case KLongLong => ALongLong(0)
    case KShortStr => AShortStr([])
    case KLongStr => ALongStr([])
    case KTable => ATable([])
  }

  /** Before the first bit run no offset is set; past it offset 0 is. */
  predicate SeenSoFar(firstDone: bool, seen: set<nat>) {
    if firstDone then 0 in seen else seen == {}
  }

  /** Arguments that do not come back: every bit of the first bit run true, all later ones false.
      The argument at the returned index, the first of the second bit run, reads as true. */
  lemma {:induction false} Witness(runs: seq<Run>, firstDone: bool) returns (args: seq<Laid>, at: nat)
    requires forall i :: 0 <= i < |runs| ==> runs[i].n > 0
    requires BitRuns(runs) >= (if firstDone then 1 else 2)
    ensures Fits(runs, args) && ArgsWellSized(args)
    ensures at < |args| && args[at] == ABit(false)
    ensures forall seen: set<nat> :: SeenSoFar(firstDone, seen) ==>
      |Smear(runs, args, seen)| > at && Smear(runs, args, seen)[at] == ABit(true)
  {
    hide ArgWellSized; hide HasKind;
    var run := runs[0];
    var mine := seq(run.n, i => Sample(run.kind, !firstDone));
    if run.kind.KBit? && firstDone {
      var more := Samples(runs[1..]);
      args, at := mine + more, 0;
    } else {
      var more, at1 := Witness(runs[1..], firstDone || run.kind.KBit?);
      args, at := mine + more, run.n + at1;
      assert args[run.n..] == more;
      assert run.kind.KBit? ==> 0 in TrueOffsets(mine);
    }
    assert args[..run.n] == mine;
  }

  lemma {:induction false} Samples(runs: seq<Run>) returns (args: seq<Laid>)
    ensures Fits(runs, args) && ArgsWellSized(args)
  {
    if runs == [] {
      args := [];
    } else {
      var more := Samples(runs[1..]);
      var mine := seq(runs[0].n, i => Sample(runs[0].kind, false));
      args := mine + more;
      assert args[..runs[0].n] == mine && args[runs[0].n..] == more;
    }
  }
}
