/** The grouping of a method's fields into runs of equal type, done in place on a slice. */
module Fieldsets {
  import opened Wrappers

  /** The names a type attribute can have: those with a native type, none, and any other. */
  datatype AmqpType =
    | TBit | TOctet | TShortShort | TShort | TLong | TLongLong | TTimestamp | TTable | TShortStr | TLongStr
    | TNone
    | TOther(name: string)

  datatype Domain = Domain(name: string, typ: AmqpType)
  datatype FieldDecl = FieldDecl(name: string, domain: string, typ: AmqpType)

  /** A field with its AMQP type resolved. */
  datatype Typed = Typed(field: FieldDecl, typ: AmqpType)

  datatype Fieldset = Fieldset(typ: AmqpType, fields: seq<FieldDecl>)

  predicate IsNative(t: AmqpType) {
    !t.TNone? && !t.TOther?
  }

  const NO_DOMAIN := Domain("", TNone)

  /** The domain a field names; a name no domain has yields the last domain, without an error. */
  method FindDomain(domains: seq<Domain>, name: string) returns (d: Domain)
    ensures d == DomainOf(domains, name)
  {
    d := NO_DOMAIN;
    for i := 0 to |domains|
      invariant forall j :: 0 <= j < i ==> domains[j].name != name
      invariant d == if i == 0 then NO_DOMAIN else domains[i - 1]
      invariant DomainOf(domains, name) == if i < |domains| then DomainFrom(domains, name, i) else d
    {
      d := domains[i];
      if d.name == name {
        return;
      }
    }
  }

  function DomainFrom(domains: seq<Domain>, name: string, i: nat): Domain
    requires i < |domains|
    decreases |domains| - i
  {
    if domains[i].name == name || i + 1 == |domains| then domains[i] else DomainFrom(domains, name, i + 1)
  }

  function DomainOf(domains: seq<Domain>, name: string): Domain {
    if domains == [] then NO_DOMAIN else DomainFrom(domains, name, 0)
  }

  /** A declared name resolves to a domain of that name; any other name to the last domain. */
  lemma {:induction false} DomainFromFinds(domains: seq<Domain>, name: string, i: nat)
    requires i < |domains|
    ensures var d := DomainFrom(domains, name, i);
      if exists j :: i <= j < |domains| && domains[j].name == name
      then d.name == name && d in domains
      else d == domains[|domains| - 1]
    decreases |domains| - i
  {
    if domains[i].name != name && i + 1 < |domains| {
      DomainFromFinds(domains, name, i + 1);
    }
  }

  function TypeOf(domains: seq<Domain>, f: FieldDecl): AmqpType {
    if f.typ == TNone then DomainOf(domains, f.domain).typ else f.typ
  }

  function TypeAll(domains: seq<Domain>, fields: seq<FieldDecl>): seq<Typed> {
    seq(|fields|, i requires 0 <= i < |fields| => Typed(fields[i], TypeOf(domains, fields[i])))
  }

  function Single(t: Typed): Fieldset {
    Fieldset(t.typ, [t.field])
  }

  /** One step of the grouping: a field joins the last run or starts a new one. */
  function Extend(runs: seq<Fieldset>, t: Typed): seq<Fieldset> {
    if runs != [] && runs[|runs| - 1].typ == t.typ
    then runs[|runs| - 1 := Fieldset(t.typ, runs[|runs| - 1].fields + [t.field])]
    else runs + [Single(t)]
  }

  function Group(ts: seq<Typed>): seq<Fieldset> {
    if ts == [] then [] else Extend(Group(ts[..|ts| - 1]), ts[|ts| - 1])
  }

  /** Fails exactly when some field has no native type; otherwise returns the grouping. The runs are
      compacted in place: i is the run being filled, j the next field to place. */
  method Fieldsets(domains: seq<Domain>, fields: seq<FieldDecl>) returns (r: Option<seq<Fieldset>>)
    ensures r.Some? <==> forall i :: 0 <= i < |fields| ==> IsNative(TypeOf(domains, fields[i]))
    ensures r.Some? ==> r.value == Group(TypeAll(domains, fields))
  {
    ghost var ts := TypeAll(domains, fields);
    var sets: seq<Fieldset> := [];
    for k := 0 to |fields|
      invariant |sets| == k && forall m :: 0 <= m < k ==> sets[m] == Single(ts[m])
      invariant forall m :: 0 <= m < k ==> IsNative(TypeOf(domains, fields[m]))
    {
      var typ := fields[k].typ;
      if typ == TNone {
        var d := FindDomain(domains, fields[k].domain);
        typ := d.typ;
      }
      if !IsNative(typ) {
        return None;
      }
      sets := sets + [Fieldset(typ, [fields[k]])];
    }
    if |fields| == 0 {
      return Some([]);
    }
    var f := new Fieldset[|sets|](k requires 0 <= k < |sets| => sets[k]);
    var n := Compact(f, ts);
    return Some(f[..n]);
  }

  method Compact(f: array<Fieldset>, ghost ts: seq<Typed>) returns (n: nat)
    requires 0 < f.Length == |ts|
    requires forall m :: 0 <= m < |ts| ==> f[m] == Single(ts[m])
    modifies f
    ensures n <= f.Length && f[..n] == Group(ts)
  {
    hide Group;
    var i, j := 0, 1;
    GroupSnoc(ts, 0);
    GroupNone();
    assert f[..1] == [f[0]];
    while j < f.Length
      invariant 0 <= i < j <= f.Length
      invariant f[..i + 1] == Group(ts[..j])
      invariant forall m :: j <= m < f.Length ==> f[m] == Single(ts[m])
    {
      ghost var runs, t := f[..i + 1], ts[j];
      GroupSnoc(ts, j);
      assert runs[|runs| - 1] == f[i];
      if f[i].typ == f[j].typ {
        f[i] := Fieldset(f[i].typ, f[i].fields + f[j].fields);
        assert f[..i + 1] == runs[i := f[i]];
      } else {
        i := i + 1;
        f[i] := f[j];
        assert f[..i + 1] == runs + [Single(t)];
      }
      j := j + 1;
    }
    assert ts[..j] == ts;
    n := i + 1;
  }

  lemma GroupNone()
    ensures Group([]) == []
  {
  }

  lemma GroupSnoc(ts: seq<Typed>, j: nat)
    requires j < |ts|
    ensures Group(ts[..j + 1]) == Extend(Group(ts[..j]), ts[j])
  {
    assert ts[..j + 1][..j] == ts[..j];
  }

  // ---------- the grouping is the one partition into maximal runs ----------

  function TypedOf(run: Fieldset): seq<Typed> {
    seq(|run.fields|, i requires 0 <= i < |run.fields| => Typed(run.fields[i], run.typ))
  }

  function Flatten(runs: seq<Fieldset>): seq<Typed> {
    if runs == [] then [] else TypedOf(runs[0]) + Flatten(runs[1..])
  }

  ghost predicate MaximalRuns(runs: seq<Fieldset>) {
    && (forall i :: 0 <= i < |runs| ==> runs[i].fields != [])
    && (forall i :: 0 < i < |runs| ==> runs[i - 1].typ != runs[i].typ)
  }

  lemma {:induction false} FlattenSnoc(runs: seq<Fieldset>, run: Fieldset)
    ensures Flatten(runs + [run]) == Flatten(runs) + TypedOf(run)
  {
    if runs == [] {
      assert [run][1..] == [];
    } else {
      assert (runs + [run])[1..] == runs[1..] + [run];
      FlattenSnoc(runs[1..], run);
    }
  }

  lemma ExtendKeepsPartition(runs: seq<Fieldset>, t: Typed)
    requires MaximalRuns(runs)
    ensures MaximalRuns(Extend(runs, t))
    ensures Flatten(Extend(runs, t)) == Flatten(runs) + [t]
  {
    if runs != [] && runs[|runs| - 1].typ == t.typ {
      var init, last := runs[..|runs| - 1], runs[|runs| - 1];
      var grown := Fieldset(t.typ, last.fields + [t.field]);
      assert runs == init + [last] && Extend(runs, t) == init + [grown];
      FlattenSnoc(init, last);
      FlattenSnoc(init, grown);
      assert TypedOf(grown) == TypedOf(last) + [t];
    } else {
      FlattenSnoc(runs, Single(t));
      assert TypedOf(Single(t)) == [t];
    }
  }

  /** The runs are maximal, and laid end to end they are the fields in their order. */
  lemma {:induction false} GroupIsMaximalPartition(ts: seq<Typed>)
    ensures MaximalRuns(Group(ts))
    ensures Flatten(Group(ts)) == ts
  {
    if ts == [] {
    } else {
      var n := |ts| - 1;
      GroupIsMaximalPartition(ts[..n]);
      ExtendKeepsPartition(Group(ts[..n]), ts[n]);
      assert ts == ts[..n] + [ts[n]];
    }
  }

  /** No other sequence of maximal runs flattens to the same fields. */
  lemma {:induction false} MaximalRunsUnique(a: seq<Fieldset>, b: seq<Fieldset>)
    requires MaximalRuns(a) && MaximalRuns(b) && Flatten(a) == Flatten(b)
    ensures a == b
  {
    if a != [] && b != [] {
      FirstRunEnds(a);
      FirstRunEnds(b);
      assert Flatten(a)[0].typ == a[0].typ && Flatten(b)[0].typ == b[0].typ;
      var n := |a[0].fields|;
      assert TypedOf(a[0]) == Flatten(a)[..n] == TypedOf(b[0]);
      SameTypedSameRun(a[0], b[0]);
      assert Flatten(a)[n..] == Flatten(a[1..]) && Flatten(b)[n..] == Flatten(b[1..]);
      MaximalRunsUnique(a[1..], b[1..]);
    }
  }

  /** The first run ends where the type first changes, or with the fields. */
  lemma FirstRunEnds(a: seq<Fieldset>)
    requires a != [] && MaximalRuns(a)
    ensures var n := |a[0].fields|;
      && n <= |Flatten(a)|
      && (forall i :: 0 <= i < n ==> Flatten(a)[i].typ == a[0].typ)
      && (n < |Flatten(a)| ==> Flatten(a)[n].typ != a[0].typ)
  {
    if |a| > 1 {
      FlattenHead(a[1..]);
    }
  }

  lemma FlattenHead(runs: seq<Fieldset>)
    requires runs != [] && runs[0].fields != []
    ensures Flatten(runs) != [] && Flatten(runs)[0].typ == runs[0].typ
  {
    assert Flatten(runs)[0] == TypedOf(runs[0])[0];
  }

  lemma SameTypedSameRun(a: Fieldset, b: Fieldset)
    requires TypedOf(a) == TypedOf(b) && a.fields != []
    ensures a == b
  {
    assert TypedOf(a)[0].typ == TypedOf(b)[0].typ;
    forall i | 0 <= i < |a.fields|
      ensures a.fields[i] == b.fields[i]
    {
      assert TypedOf(a)[i] == TypedOf(b)[i];
    }
  }
}
