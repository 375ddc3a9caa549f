/** The readers of field values: they advance a shared position over the octets of a source.

    A limited reader shares the position of the reader it wraps and stops at an earlier end, so it
    is the same Source with its end lowered; nested limits lower it further. */
module Readers {
  import opened Octets
  import opened FieldCodec

  datatype Result<+T> = Value(val: T) | Error(err: Error) {
    /** The same outcome, with the octets left. */
    function Leaving(rest: Bytes): Parsed<T> {
      match this
      case Value(v) => Ok(v, rest)
      case Error(e) => Fail(e, rest)
    }
  }

  class Source {
    const data: Bytes
    var pos: nat
    var end: nat

    ghost predicate Valid()
      reads this
    {
      pos <= end <= |data|
    }

    /** The octets not read yet. */
    ghost function Rest(): Bytes
      requires Valid()
      reads this
    {
      data[pos..end]
    }

    constructor (data: Bytes)
      ensures Valid() && Rest() == data
    {
      this.data := data;
      this.pos := 0;
      this.end := |data|;
    }

    method ReadFull(n: nat) returns (r: Result<Bytes>)
      requires Valid()
      modifies this`pos
      ensures Valid() && pos >= old(pos)
      ensures r.Leaving(Rest()) == Take(old(Rest()), n)
    {
      assert n <= end - pos ==> Rest()[..n] == data[pos..pos + n] && Rest()[n..] == data[pos + n..end];
      if n <= end - pos {
        r := Value(data[pos..pos + n]);
        pos := pos + n;
      } else {
        r := Error(if pos == end then EOF else UnexpectedEOF);
        pos := end;
      }
    }

    method Read8() returns (r: Result<byte>)
      requires Valid()
      modifies this`pos
      ensures Valid() && pos >= old(pos)
      ensures r.Leaving(Rest()) == Take8(old(Rest()))
    {
      var b := ReadFull(1);
      r := match b case Value(v) => Value(v[0]) case Error(e) => Error(e);
    }

    method Read16() returns (r: Result<u16>)
      requires Valid()
      modifies this`pos
      ensures Valid() && pos >= old(pos)
      ensures r.Leaving(Rest()) == Take16(old(Rest()))
    {
      var b := ReadFull(2);
      r := match b case Value(v) => Value(Get16(v)) case Error(e) => Error(e);
    }

    method Read32() returns (r: Result<u32>)
      requires Valid()
      modifies this`pos
      ensures Valid() && pos >= old(pos)
      ensures r.Leaving(Rest()) == Take32(old(Rest()))
    {
      var b := ReadFull(4);
      r := match b case Value(v) => Value(Get32(v)) case Error(e) => Error(e);
    }

    method Read64() returns (r: Result<u64>)
      requires Valid()
      modifies this`pos
      ensures Valid() && pos >= old(pos)
      ensures r.Leaving(Rest()) == Take64(old(Rest()))
    {
      var b := ReadFull(8);
      r := match b case Value(v) => Value(Get64(v)) case Error(e) => Error(e);
    }

    method ReadShort() returns (r: Result<Bytes>)
      requires Valid()
      modifies this`pos
      ensures Valid() && pos >= old(pos)
      ensures r.Leaving(Rest()) == ParseShort(old(Rest()))
    {
      var length := Read8();
      match length {
        case Value(n) => r := ReadFull(n as nat);
        case Error(e) => r := Error(e);
      }
    }

    method ReadLong() returns (r: Result<Bytes>)
      requires Valid()
      modifies this`pos
      ensures Valid() && pos >= old(pos)
      ensures r.Leaving(Rest()) == ParseLong(old(Rest()))
    {
      var length := Read32();
      match length {
        case Value(n) =>
          if n > TWO32 / 2 - 1 {
            return Value([]);
          }
          r := ReadFull(n);
        case Error(e) => r := Error(e);
      }
    }

    /** The cases of readField with a value of fixed form. */
    method ReadScalar(tag: byte) returns (r: Result<Scalar>)
      requires Valid()
      modifies this`pos
      ensures Valid() && pos >= old(pos)
      ensures r.Leaving(Rest()) == ParseScalar(tag, old(Rest()))
    {
      hide Take; hide Get16; hide Get32; hide Get64; hide ParseLong;
      if tag == TAG_BOOL {
        var b := Read8();
        r := match b case Value(v) => Value(SBool(v != 0)) case Error(e) => Error(e);
      } else if tag == TAG_OCTET {
        var b := Read8();
        r := match b case Value(v) => Value(SOctet(v)) case Error(e) => Error(e);
      } else if tag == TAG_INT8 {
        var b := Read8();
        r := match b case Value(v) => Value(SInt8(Signed(v as int, 0x80))) case Error(e) => Error(e);
      } else if tag == TAG_INT16 {
        var n := Read16();
        r := match n case Value(v) => Value(SInt16(Signed(v, 0x8000))) case Error(e) => Error(e);
      } else if tag == TAG_INT32 {
        var n := Read32();
        r := match n case Value(v) => Value(SInt32(Signed(v, TWO31))) case Error(e) => Error(e);
      } else if tag == TAG_INT64 {
        var n := Read64();
        r := match n case Value(v) => Value(SInt64(Signed(v, TWO63))) case Error(e) => Error(e);
      } else if tag == TAG_FLOAT32 {
        var n := Read32();
        r := match n case Value(v) => Value(SFloat32(v)) case Error(e) => Error(e);
      } else if tag == TAG_FLOAT64 {
        var n := Read64();
        r := match n case Value(v) => Value(SFloat64(v)) case Error(e) => Error(e);
      } else if tag == TAG_DECIMAL {
        r := ReadDecimal();
      } else if tag == TAG_STRING {
        var str := ReadLong();
        r := match str case Value(v) => Value(SStr(v)) case Error(e) => Error(e);
      } else if tag == TAG_TIME {
        var n := Read64();
        r := match n case Value(v) => Value(STime(Signed(v, TWO63), 0)) case Error(e) => Error(e);
      } else if tag == TAG_BLOB {
        r := ReadBlob();
      } else if tag == TAG_NIL {
        r := Value(SNil);
      } else {
        r := Error(SyntaxError);
      }
    }

    method ReadDecimal() returns (r: Result<Scalar>)
      requires Valid()
      modifies this`pos
      ensures Valid() && pos >= old(pos)
      ensures r.Leaving(Rest()) == ParseScalar(TAG_DECIMAL, old(Rest()))
    {
      hide Take; hide Get32;
      var scale := Read8();
      if scale.Error? {
        return Error(scale.err);
      }
      var n := Read32();
      r := match n
        case Value(v) => Value(SDecimal(scale.val, Signed(v, TWO31)))
        case Error(e) => Error(e);
    }

    /** A negative length aborts: the Go program panics in make. */
    method ReadBlob() returns (r: Result<Scalar>)
      requires Valid()
      modifies this`pos
      ensures Valid() && pos >= old(pos)
      ensures r.Leaving(Rest()) == ParseScalar(TAG_BLOB, old(Rest()))
    {
      hide Get32;
      var length := Read32();
      if length.Error? {
        return Error(length.err);
      }
      var len := Signed(length.val, TWO31);
      if len < 0 {
        return Error(Abort);
      }
      var blob := ReadFull(len);
      r := match blob case Value(v) => Value(SBlob(v)) case Error(e) => Error(e);
    }

    method ReadField() returns (r: Result<Field>)
      requires Valid()
      modifies this
      ensures Valid() && pos >= old(pos) && end == old(end)
      ensures r.Leaving(Rest()) == ParseField(old(Rest()))
      decreases |Rest()|, 0
    {
      var tag := Read8();
      if tag.Error? {
        return Error(tag.err);
      }
      if tag.val == TAG_ARRAY {
        r := ReadArray();
      } else if tag.val == TAG_TABLE {
        r := ReadTable();
      } else {
        var v := ReadScalar(tag.val);
        r := match v case Value(s) => Value(Plain(s)) case Error(e) => Error(e);
      }
    }

    /** The loop of readArray runs over a limited reader and takes any EOF as the end. */
    method ReadArray() returns (r: Result<Field>)
      requires Valid()
      modifies this
      ensures Valid() && pos >= old(pos) && end == old(end)
      ensures r.Leaving(Rest()) == ParseArray(old(Rest()))
      decreases |Rest()|, 2
    {
      hide Get32;
      var size := Read32();
      if size.Error? {
        return Error(size.err);
      }
      ghost var t := Rest();
      var outer, start := end, pos;
      var n := Limit(t, size.val);
      end := if size.val <= end - pos then pos + size.val else end;
      assert Rest() == t[..n];
      var elems := ReadElems();
      ghost var left := Rest();
      end := outer;
      assert Rest() == left + t[n..];
      r := match elems case Value(vs) => Value(Arr(vs)) case Error(e) => Error(e);
    }

    method ReadElems() returns (r: Result<seq<Field>>)
      requires Valid()
      modifies this
      ensures Valid() && pos >= old(pos) && end == old(end)
      ensures r.Leaving(Rest()) == ParseElems(old(Rest()), [])
      decreases |Rest()|, 1
    {
      var arr: seq<Field> := [];
      while true
        invariant Valid() && pos >= old(pos) && end == old(end)
        invariant ParseElems(Rest(), arr) == ParseElems(old(Rest()), [])
        invariant |Rest()| <= |old(Rest())|
        decreases |Rest()|
      {
        var field := ReadField();
        match field {
          case Value(v) => arr := arr + [v];
          case Error(e) =>
            if e == EOF {
              return Value(arr);
            }
            return Error(e);
        }
      }
    }

    /** readTable drains a nested buffer holding the entries while filling the map. */
    method ReadTable() returns (r: Result<Field>)
      requires Valid()
      modifies this
      ensures Valid() && pos >= old(pos) && end == old(end)
      ensures r.Leaving(Rest()) == ParseTable(old(Rest()))
      decreases |Rest()|, 2
    {
      var str := ReadLong();
      if str.Error? {
        return Error(str.err);
      }
      var nested := new Source(str.val);
      var table: map<Bytes, Field> := map[];
      while nested.pos < nested.end
        invariant nested.Valid() && fresh(nested) && |nested.Rest()| <= |str.val|
        invariant Valid() && end == old(end) && pos >= old(pos)
        invariant Ok(str.val, Rest()) == ParseLong(old(Rest()))
        invariant SameOutcome(ParseEntries(nested.Rest(), table), ParseEntries(str.val, map[]))
        decreases |nested.Rest()|
      {
        var key := nested.ReadShort();
        if key.Error? {
          return Error(key.err);
        }
        var value := nested.ReadField();
        if value.Error? {
          return Error(value.err);
        }
        table := table[key.val := value.val];
      }
      r := Value(Tab(table));
    }
  }

  ghost predicate SameOutcome<T>(a: Parsed<T>, b: Parsed<T>) {
    match (a, b)
    case (Ok(x, _), Ok(y, _)) => x == y
    case (Fail(e, _), Fail(f, _)) => e == f
    case _ => false
  }
}
