/** The generated Write and Read of a method, unrolled along its runs. */
module MethodIO {
  import opened Octets
  import opened FieldCodec
  import opened Writers
  import opened Readers
  import opened Arguments

  /** laid is args with an iteration order chosen for each table. */
  ghost predicate LaysArg(laid: Laid, arg: Read) {
    match (laid, arg)
    case (ATable(es), ATable(m)) => LaysTable(es, m)
    case (ABit(x), ABit(y)) => x == y
    case (AOctet(x), AOctet(y)) => x == y
    case (AShort(x), AShort(y)) => x == y
    case (ALong(x), ALong(y)) => x == y
    case (ALongLong(x), ALongLong(y)) => x == y
    case (AShortStr(x), AShortStr(y)) => x == y
    case (ALongStr(x), ALongStr(y)) => x == y
    case _ => false
  }

  ghost predicate LaysArgs(laid: seq<Laid>, args: seq<Read>) {
    |laid| == |args| && forall i :: 0 <= i < |args| ==> LaysArg(laid[i], args[i])
  }

  predicate SupportedArg(a: Read) {
    a.ATable? ==> SupportedValue(Tab(a.t))
  }

  predicate SupportedArgs(args: seq<Read>) {
    forall i :: 0 <= i < |args| ==> SupportedArg(args[i])
  }

  lemma LaidKind(laid: seq<Laid>, args: seq<Read>, k: Kind)
    requires LaysArgs(laid, args)
    ensures AllKind(laid, k) <==> AllKind(args, k)
  {
    forall i | 0 <= i < |args|
      ensures HasKind(laid[i], k) <==> HasKind(args[i], k)
    {
      assert LaysArg(laid[i], args[i]);
    }
  }

  method WriteArg(w: Buffer, a: Read) returns (ok: bool, ghost laid: Laid)
    requires !a.ABit?
    modifies w
    ensures ok <==> SupportedArg(a)
    ensures ok ==> LaysArg(laid, a) && w.out == old(w.out) + EncArg(laid)
  {
    hide EncShort; hide EncLong; hide SupportedValue;
    ok := true;
    match a {
      case ABit(b) => laid := ABit(b);
      case AOctet(o) => w.Write([o]); laid := AOctet(o);
      case AShort(n) => w.Write(Put16(n)); laid := AShort(n);
      case ALong(n) => w.Write(Put32(n)); laid := ALong(n);
      case ALongLong(n) => w.Write(Put64(n)); laid := ALongLong(n);
      case AShortStr(str) => w.WriteShort(str); laid := AShortStr(str);
      case ALongStr(str) => w.WriteLong(str); laid := ALongStr(str);
      case ATable(m) =>
        ghost var es;
        ok, es := WriteTable(w, Tab(m));
        laid := ATable(es);
    }
  }

  method WriteArgs(w: Buffer, args: seq<Read>) returns (ok: bool, ghost laid: seq<Laid>)
    requires exists k: Kind :: !k.KBit? && AllKind(args, k)
    modifies w
    ensures ok <==> SupportedArgs(args)
    ensures ok ==> LaysArgs(laid, args) && w.out == old(w.out) + EncArgs(laid)
  {
    hide EncArg; hide SupportedArg; hide LaysArg;
    laid := [];
    if args == [] {
      return true, [];
    }
    ghost var first, more;
    ok, first := WriteArg(w, args[0]);
    if !ok {
      assert !SupportedArgs(args);
      return;
    }
    ok, more := WriteArgs(w, args[1..]);
    laid := [first] + more;
    assert args == [args[0]] + args[1..];
  }

  /** A run of bits has only one layout, which packs alike. */
  ghost function LaidBits(args: seq<Read>): (laid: seq<Laid>)
    requires AllKind(args, KBit)
    ensures LaysArgs(laid, args) && AllKind(laid, KBit) && SupportedArgs(args)
  {
    seq(|args|, i requires 0 <= i < |args| => ABit(args[i].b))
  }

  lemma {:induction false} PacksAlike(bits: bv8, laid: seq<Laid>, args: seq<Read>, off: nat)
    requires LaysArgs(laid, args) && AllKind(laid, KBit) && AllKind(args, KBit) && off + |args| <= 8
    ensures SetBits(bits, laid, off) == SetBits(bits, args, off)
    decreases |args|
  {
    if args != [] {
      assert LaysArg(laid[0], args[0]);
      PacksAlike(if args[0].b then bits | (1 << off) else bits, laid[1..], args[1..], off + 1);
    }
  }

  /** The octet of a bit run: a bit is set if it was before or its argument is true. */
  method PackBits(bits0: bv8, args: seq<Read>) returns (bits: bv8)
    requires AllKind(args, KBit) && |args| <= 8
    ensures bits == SetBits(bits0, args, 0)
    ensures forall j: nat :: j < 8 ==> (HasBit(bits, j) <==> HasBit(bits0, j) || (j < |args| && args[j].b))
  {
    hide HasBit;
    bits := bits0;
    var off := 0;
    while off < |args|
      invariant 0 <= off <= |args|
      invariant SetBits(bits, args[off..], off) == SetBits(bits0, args, 0)
    {
      assert args[off..][1..] == args[off + 1..];
      if args[off].b {
        bits := bits | (1 << off);
      }
      off := off + 1;
    }
    assert args[off..] == [];
    forall j: nat | j < 8
      ensures HasBit(bits, j) <==> HasBit(bits0, j) || (j < |args| && args[j].b)
    {
      SetBitsHas(bits0, args, 0, j);
    }
  }

  /** The bits variable keeps what earlier bit runs put in it. Succeeds exactly when every table
      holds only supported values. */
  method WriteRuns(w: Buffer, runs: seq<Run>, args: seq<Read>, bits0: bv8) returns (ok: bool, ghost laid: seq<Laid>)
    requires Fits(runs, args) && Compilable(runs)
    modifies w
    ensures ok <==> SupportedArgs(args)
    ensures ok ==> LaysArgs(laid, args) && Fits(runs, laid) && w.out == old(w.out) + EncRuns(runs, laid, bits0)
    decreases |runs|
  {
    hide SetBits; hide SupportedArg; hide EncArgs; hide LaysArg; hide HasKind;
    laid := [];
    if runs == [] {
      return true, [];
    }
    var n := runs[0].n;
    var mine, more := args[..n], args[n..];
    assert args == mine + more;
    ghost var first, others;
    var bits := bits0;
    if runs[0].kind.KBit? {
      bits := PackBits(bits0, mine);
      first := LaidBits(mine);
      PacksAlike(bits0, first, mine, 0);
      w.Write([OfBits(bits)]);
    } else {
      ok, first := WriteArgs(w, mine);
      if !ok {
        assert !SupportedArgs(args);
        return;
      }
      LaidKind(first, mine, runs[0].kind);
    }
    ok, others := WriteRuns(w, runs[1..], more, bits);
    laid := first + others;
    assert laid[..n] == first && laid[n..] == others;
  }

  method ReadArg(r: Source, k: Kind) returns (a: Result<Read>)
    requires !k.KBit? && r.Valid()
    modifies r
    ensures r.Valid() && r.pos >= old(r.pos) && r.end == old(r.end)
    ensures a.Leaving(r.Rest()) == DecArg(k, old(r.Rest()))
  {
    hide Take8; hide Take16; hide Take32; hide Take64; hide ParseShort; hide ParseLong; hide ParseTable;
    match k {
      case KOctet =>
        var v := r.Read8();
        a := match v case Value(o) => Value(AOctet(o)) case Error(e) => Error(e);
      case KShort =>
        var v := r.Read16();
        a := match v case Value(n) => Value(AShort(n)) case Error(e) => Error(e);
      case KLong =>
        var v := r.Read32();
        a := match v case Value(n) => Value(ALong(n)) case Error(e) => Error(e);
      case KLongLong =>
        var v := r.Read64();
        a := match v case Value(n) => Value(ALongLong(n)) case Error(e) => Error(e);
      case KShortStr =>
        var v := r.ReadShort();
        a := match v case Value(str) => Value(AShortStr(str)) case Error(e) => Error(e);
      case KLongStr =>
        var v := r.ReadLong();
        a := match v case Value(str) => Value(ALongStr(str)) case Error(e) => Error(e);
      case KTable =>
        var v := r.ReadTable();
        a := match v case Value(t) => Value(ATable(t.table)) case Error(e) => Error(e);
    }
  }

  method ReadArgs(r: Source, k: Kind, n: nat) returns (args: Result<seq<Read>>)
    requires !k.KBit? && r.Valid()
    modifies r
    ensures r.Valid() && r.pos >= old(r.pos) && r.end == old(r.end)
    ensures args.Leaving(r.Rest()) == DecArgs(k, n, old(r.Rest()))
    decreases n
  {
    hide DecArg;
    if n == 0 {
      return Value([]);
    }
    var first := ReadArg(r, k);
    if first.Error? {
      return Error(first.err);
    }
    var more := ReadArgs(r, k, n - 1);
    args := match more case Value(vs) => Value([first.val] + vs) case Error(e) => Error(e);
  }

  method ReadRuns(r: Source, runs: seq<Run>) returns (args: Result<seq<Read>>)
    requires Compilable(runs) && r.Valid()
    modifies r
    ensures r.Valid() && r.pos >= old(r.pos) && r.end == old(r.end)
    ensures args.Leaving(r.Rest()) == DecRuns(runs, old(r.Rest()))
    decreases |runs|
  {
    hide HasBit; hide DecArgs;
    if runs == [] {
      return Value([]);
    }
    var mine: Result<seq<Read>>;
    if runs[0].kind.KBit? {
      var octet := r.Read8();
      if octet.Error? {
        return Error(octet.err);
      }
      var bits, vs := ToBits(octet.val), [];
      for off := 0 to runs[0].n
        invariant |vs| == off && forall i :: 0 <= i < off ==> vs[i] == ABit(HasBit(bits, i))
      {
        vs := vs + [ABit(HasBit(bits, off))];
      }
      assert vs == GetBits(bits, runs[0].n);
      mine := Value(vs);
    } else {
      mine := ReadArgs(r, runs[0].kind, runs[0].n);
      if mine.Error? {
        return Error(mine.err);
      }
    }
    var more := ReadRuns(r, runs[1..]);
    args := match more case Value(vs) => Value(mine.val + vs) case Error(e) => Error(e);
  }
}
