/** Parsing undoes writing, for every schema and every value in normal form. */
module TlRoundTrip {
  import opened Options
  import opened TlBytes
  import opened TlSchema
  import opened TlSize
  import opened TlParse

  predicate Leaf(t: FieldType) {
    !t.VectorT? && !t.StructT? && !t.IfaceT?
  }

  lemma LeReads(n: nat, w: nat, rest: seq<Byte>)
    requires n < Pow256(w)
    ensures (Le(n, w) + rest)[..w] == Le(n, w) && (Le(n, w) + rest)[w..] == rest && FromLe(Le(n, w)) == n
  {
    LeRoundTrip(n, w);
  }

  lemma RtNumber(lim: Limits, sch: Schema, f: Field, v: Val, rest: seq<Byte>, fuel: nat)
    requires f.typ.NumT? && NormalField(sch, lim.maxElements, f.typ, v) && EncField(sch, f.typ, v).Some?
    ensures ParseField(lim, sch, f, EncField(sch, f.typ, v).value + rest, fuel) == Ok(v, rest)
  {
    LeReads(v.n, f.typ.wire, rest);
    SmallMod(v.n, Pow256(f.typ.width));
  }

  lemma SmallMod(n: nat, m: nat)
    requires n < m
    ensures n % m == n
  {
  }

  lemma RtFour(lim: Limits, sch: Schema, f: Field, v: Val, rest: seq<Byte>, fuel: nat)
    requires f.typ.FlagsT? || f.typ.BoolT?
    requires NormalField(sch, lim.maxElements, f.typ, v) && EncField(sch, f.typ, v).Some?
    ensures ParseField(lim, sch, f, EncField(sch, f.typ, v).value + rest, fuel) == Ok(v, rest)
  {
    PowersOf256();
    LeReads(if f.typ.FlagsT? then v.n else if v.on then BOOL_TRUE else BOOL_FALSE, 4, rest);
  }

  lemma RtFixed(lim: Limits, sch: Schema, f: Field, v: Val, rest: seq<Byte>, fuel: nat)
    requires f.typ.FixedT? || f.typ.Ip4T? || f.typ.Ip6T?
    requires NormalField(sch, lim.maxElements, f.typ, v) && EncField(sch, f.typ, v).Some?
    ensures ParseField(lim, sch, f, EncField(sch, f.typ, v).value + rest, fuel) == Ok(v, rest)
  {
    if f.typ.Ip4T? {
      var wire := EncIp4(v.b).value + rest;
      assert wire[4..] == rest;
      assert [wire[3], wire[2], wire[1], wire[0]] == v.b;
    } else {
      assert (v.b + rest)[..|v.b|] == v.b && (v.b + rest)[|v.b|..] == rest;
    }
  }

  lemma RtLeaf(lim: Limits, sch: Schema, f: Field, v: Val, rest: seq<Byte>, fuel: nat)
    requires Leaf(f.typ) && NormalField(sch, lim.maxElements, f.typ, v) && EncField(sch, f.typ, v).Some?
    ensures ParseField(lim, sch, f, EncField(sch, f.typ, v).value + rest, fuel) == Ok(v, rest)
  {
    if f.typ.BytesT? {
      FromBytesInvertsEncode(v.b, rest);
    } else if f.typ.NumT? {
      RtNumber(lim, sch, f, v, rest, fuel);
    } else if f.typ.FlagsT? || f.typ.BoolT? {
      RtFour(lim, sch, f, v, rest, fuel);
    } else {
      RtFixed(lim, sch, f, v, rest, fuel);
    }
  }

  lemma {:induction false} RtFields(lim: Limits, sch: Schema, fs: seq<Field>, vs: seq<Val>, flags: nat, rest: seq<Byte>, fuel: nat)
    requires Consistent(sch) && !lim.preflight && NormalFields(sch, lim.maxElements, fs, vs, flags)
    requires EncFields(sch, fs, vs, flags).Some? && fuel >= HeightSeq(vs)
    ensures ParseFields(lim, sch, fs, flags, EncFields(sch, fs, vs, flags).value + rest, fuel) == Ok(vs, rest)
    decreases vs, 0
  {
    if fs != [] {
      assert vs == [vs[0]] + vs[1..];
      if Skipped(fs[0], flags) {
        RtFields(lim, sch, fs[1..], vs[1..], flags, rest, fuel);
      } else {
        var flags' := NextFlags(fs[0], vs[0], flags);
        var h, t := EncField(sch, fs[0].typ, vs[0]).value, EncFields(sch, fs[1..], vs[1..], flags').value;
        assert (h + t) + rest == h + (t + rest);
        RtField(lim, sch, fs[0], vs[0], t + rest, fuel);
        RtFields(lim, sch, fs[1..], vs[1..], flags', rest, fuel);
      }
    } else {
      assert [] + rest == rest;
    }
  }

  lemma {:induction false} RtElems(lim: Limits, sch: Schema, elem: Field, vs: seq<Val>, rest: seq<Byte>, fuel: nat)
    requires Consistent(sch) && !lim.preflight && EncElems(sch, elem, vs).Some? && fuel >= HeightSeq(vs)
    requires forall e :: e in vs ==> NormalOne(sch, lim.maxElements, elem, e, 0)
    ensures ParseElems(lim, sch, elem, |vs|, EncElems(sch, elem, vs).value + rest, fuel) == Ok(vs, rest)
    decreases vs, 0
  {
    if vs != [] {
      assert vs == [vs[0]] + vs[1..];
      var h := if Skipped(elem, 0) then [] else EncField(sch, elem.typ, vs[0]).value;
      var t := EncElems(sch, elem, vs[1..]).value;
      assert (h + t) + rest == h + (t + rest);
      assert NormalOne(sch, lim.maxElements, elem, vs[0], 0);
      assert EncElems(sch, elem, vs).value == h + t;
      if !Skipped(elem, 0) {
        RtField(lim, sch, elem, vs[0], t + rest, fuel);
      } else {
        assert h + (t + rest) == t + rest;
      }
      assert ParseOne(lim, sch, elem, 0, h + (t + rest), fuel) == Ok(vs[0], t + rest);
      RtElems(lim, sch, elem, vs[1..], rest, fuel);
    } else {
      assert [] + rest == rest;
    }
  }

  lemma {:induction false} RtStruct(lim: Limits, sch: Schema, name: Name, boxed: bool, vs: seq<Val>, rest: seq<Byte>, fuel: nat)
    requires Consistent(sch) && !lim.preflight && name in sch.structs
    requires NormalFields(sch, lim.maxElements, sch.structs[name].fields, vs, 0)
    requires EncStruct(sch, name, vs, boxed).Some? && fuel > HeightSeq(vs)
    ensures ParseStruct(lim, sch, name, boxed, EncStruct(sch, name, vs, boxed).value + rest, fuel) == Ok(vs, rest)
    decreases vs, 1
  {
    var id := if boxed then Le(sch.structs[name].id, 4) else [];
    var body := EncFields(sch, sch.structs[name].fields, vs, 0).value;
    assert (id + body) + rest == id + (body + rest);
    RtFields(lim, sch, sch.structs[name].fields, vs, 0, rest, fuel - 1);
    PowersOf256();
    if boxed {
      LeReads(sch.structs[name].id, 4, body + rest);
    } else {
      assert [] + (body + rest) == body + rest;
    }
  }

  lemma {:induction false} RtItem(lim: Limits, sch: Schema, allowed: seq<Name>, v: Val, rest: seq<Byte>, fuel: nat)
    requires Consistent(sch) && !lim.preflight && NormalItem(sch, lim.maxElements, v)
    requires EncItem(sch, allowed, v).Some? && fuel >= Height(v)
    ensures ParseItem(lim, sch, allowed, EncItem(sch, allowed, v).value + rest, fuel) == Ok(v, rest)
    decreases v, 0
  {
    var id := Le(sch.structs[v.name].id, 4);
    var body := EncFields(sch, sch.structs[v.name].fields, v.fields, 0).value;
    RtStruct(lim, sch, v.name, false, v.fields, rest, fuel);
    assert [] + body == body;
    assert (id + body) + rest == id + (body + rest);
    PowersOf256();
    LeReads(sch.structs[v.name].id, 4, body + rest);
  }

  lemma {:induction false} RtItems(lim: Limits, sch: Schema, allowed: seq<Name>, vs: seq<Val>, fuel: nat)
    requires Consistent(sch) && !lim.preflight && EncItems(sch, allowed, vs).Some? && fuel >= HeightSeq(vs)
    requires forall e :: e in vs ==> NormalItem(sch, lim.maxElements, e)
    ensures ParseItems(lim, sch, allowed, EncItems(sch, allowed, vs).value, fuel) == Ok(vs, [])
    decreases vs, 0
  {
    if vs != [] {
      assert vs == [vs[0]] + vs[1..];
      var t := EncItems(sch, allowed, vs[1..]).value;
      assert NormalItem(sch, lim.maxElements, vs[0]);
      RtItem(lim, sch, allowed, vs[0], t, fuel);
      RtItems(lim, sch, allowed, vs[1..], fuel);
    }
  }

  lemma {:induction false} RtField(lim: Limits, sch: Schema, f: Field, v: Val, rest: seq<Byte>, fuel: nat)
    requires Consistent(sch) && !lim.preflight && NormalField(sch, lim.maxElements, f.typ, v)
    requires EncField(sch, f.typ, v).Some? && fuel >= Height(v)
    ensures ParseField(lim, sch, f, EncField(sch, f.typ, v).value + rest, fuel) == Ok(v, rest)
    decreases v, 1
  {
    if Leaf(f.typ) {
      RtLeaf(lim, sch, f, v, rest, fuel);
    } else if f.typ.VectorT? {
      var n, body := Le(|v.elems|, 4), EncElems(sch, f.typ.elem, v.elems).value;
      assert (n + body) + rest == n + (body + rest);
      PowersOf256();
      LeReads(|v.elems|, 4, body + rest);
      RtElems(lim, sch, f.typ.elem, v.elems, rest, fuel);
    } else if f.typ.StructT? {
      var body := EncStruct(sch, f.typ.name, v.fields, f.typ.boxed).value;
      RtStruct(lim, sch, f.typ.name, f.typ.boxed, v.fields, if f.typ.asBytes then [] else rest, fuel);
      if f.typ.asBytes {
        assert body + [] == body;
        FromBytesInvertsEncode(body, rest);
      }
    } else if v.Dyn? {
      var body := EncItem(sch, f.typ.allowed, v).value;
      if f.typ.asBytes {
        RtItem(lim, sch, f.typ.allowed, v, [], fuel);
        assert body + [] == body;
        assert ParseItems(lim, sch, f.typ.allowed, [], fuel) == Ok([], []);
        assert [v] + [] == [v];
        FromBytesInvertsEncode(body, rest);
      } else {
        RtItem(lim, sch, f.typ.allowed, v, rest, fuel);
      }
    } else {
      var body := EncItems(sch, f.typ.allowed, v.items).value;
      RtItems(lim, sch, f.typ.allowed, v.items, fuel);
      FromBytesInvertsEncode(body, rest);
    }
  }
}
