/** The appending writer as it runs, loop by loop (tl/precompile.go): it adds the bytes of the schema behind a slice, or fails. */
module TlWriters {
  import opened Options
  import opened TlBytes
  import opened TlBuffer
  import opened TlSchema
  import opened TlLeaves

  lemma CatAssoc(a: Option<seq<Byte>>, b: Option<seq<Byte>>, c: Option<seq<Byte>>)
    ensures Cat(Cat(a, b), c) == Cat(a, Cat(b, c))
  {
    if a.Some? && b.Some? && c.Some? {
      assert (a.value + b.value) + c.value == a.value + (b.value + c.value);
    }
  }

  lemma CatNone(a: seq<Byte>)
    ensures Cat(Some(a), Some([])) == Some(a)
  {
    assert a + [] == a;
  }

  /** `RemapSliceAsTLBytes`: the same moves inside the slice as inside a buffer. */
  method RemapSlice(dst: seq<Byte>, from: nat) returns (r: Option<seq<Byte>>)
    requires from + 4 <= |dst|
    ensures r == Cat(Some(dst[..from]), Encode(dst[from + 4..]))
  {
    var slice := new Buffer(|dst|);
    slice.Write(dst);
    assert slice.Contents() == dst;
    var ok := slice.RemapAsTlBytes(from);
    return if ok then Some(slice.data[..slice.len]) else None;
  }

  method ExecuteAppend(sch: Schema, dst: seq<Byte>, fs: seq<Field>, vs: seq<Val>) returns (r: Option<seq<Byte>>)
    ensures r == Cat(Some(dst), EncFields(sch, fs, vs, 0))
    decreases vs, 0
  {
    if |fs| != |vs| {
      return None;
    }
    var flags, out := 0, dst;
    for i := 0 to |fs|
      invariant Cat(Some(dst), EncFields(sch, fs, vs, 0)) == Cat(Some(out), EncFields(sch, fs[i..], vs[i..], flags))
    {
      assert fs[i..][1..] == fs[i + 1..] && vs[i..][1..] == vs[i + 1..];
      if !Skipped(fs[i], flags) {
        var next := AppendField(sch, out, fs[i].typ, vs[i]);
        CatAssoc(Some(out), EncField(sch, fs[i].typ, vs[i]), EncFields(sch, fs[i + 1..], vs[i + 1..], NextFlags(fs[i], vs[i], flags)));
        if next.None? {
          return None;
        }
        out, flags := next.value, NextFlags(fs[i], vs[i], flags);
      }
    }
    CatNone(out);
    return Some(out);
  }

  method AppendField(sch: Schema, dst: seq<Byte>, t: FieldType, v: Val) returns (r: Option<seq<Byte>>)
    ensures r == Cat(Some(dst), EncField(sch, t, v))
    decreases v, 1
  {
    if t.VectorT? {
      if !v.Vec? {
        return None;
      }
      r := AppendVector(sch, dst + Le(|v.elems|, 4), t.elem, v.elems);
      CatAssoc(Some(dst), Some(Le(|v.elems|, 4)), EncElems(sch, t.elem, v.elems));
    } else if t.StructT? || t.IfaceT? {
      if t.asBytes {
        var from := |dst|;
        r := AppendHeld(sch, dst + Zeros(4), t, v);
        var body := EncHeld(sch, t, v);
        if body.Some? {
          assert (dst + Zeros(4) + body.value)[..from] == dst;
          assert (dst + Zeros(4) + body.value)[from + 4..] == body.value;
          r := RemapSlice(r.value, from);
        }
      } else {
        r := AppendHeld(sch, dst, t, v);
      }
    } else {
      r := AppendLeaf(dst, t, v);
    }
  }

  /** What a struct or interface field writes before any wrapping. */
  function EncHeld(sch: Schema, t: FieldType, v: Val): (r: Option<seq<Byte>>)
    requires t.StructT? || t.IfaceT?
    ensures EncField(sch, t, v) == Wrap(t.asBytes, r)
  {
    if t.StructT? then
      if v.Rec? && t.name in sch.structs then EncStruct(sch, t.name, v.fields, t.boxed) else None
    else if v.Dyn? then EncItem(sch, t.allowed, v)
    else if v.Lst? then EncItems(sch, t.allowed, v.items)
    else None
  }

  method AppendHeld(sch: Schema, dst: seq<Byte>, t: FieldType, v: Val) returns (r: Option<seq<Byte>>)
    requires t.StructT? || t.IfaceT?
    ensures r == Cat(Some(dst), EncHeld(sch, t, v))
    decreases v, 0
  {
    if t.StructT? {
      if !v.Rec? || t.name !in sch.structs {
        return None;
      }
      r := AppendPrecompiled(sch, dst, t.name, v.fields, t.boxed);
    } else if v.Dyn? {
      if v.name !in sch.structs || !IsAllowed(t.allowed, v.name) {
        return None;
      }
      r := AppendPrecompiled(sch, dst, v.name, v.fields, true);
    } else if v.Lst? {
      var out := dst;
      for i := 0 to |v.items|
        invariant Cat(Some(dst), EncItems(sch, t.allowed, v.items)) == Cat(Some(out), EncItems(sch, t.allowed, v.items[i..]))
      {
        var item := v.items[i];
        assert v.items[i..][1..] == v.items[i + 1..];
        CatAssoc(Some(out), EncItem(sch, t.allowed, item), EncItems(sch, t.allowed, v.items[i + 1..]));
        if !item.Dyn? || item.name !in sch.structs || !IsAllowed(t.allowed, item.name) {
          return None;
        }
        r := AppendPrecompiled(sch, out, item.name, item.fields, true);
        if r.None? {
          return None;
        }
        out := r.value;
      }
      CatNone(out);
      r := Some(out);
    } else {
      r := None;
    }
  }

  method AppendPrecompiled(sch: Schema, dst: seq<Byte>, name: Name, vs: seq<Val>, boxed: bool) returns (r: Option<seq<Byte>>)
    requires name in sch.structs
    ensures r == Cat(Some(dst), EncStruct(sch, name, vs, boxed))
    decreases vs, 1
  {
    var id := if boxed then Le(sch.structs[name].id, 4) else [];
    r := ExecuteAppend(sch, dst + id, sch.structs[name].fields, vs);
    CatAssoc(Some(dst), Some(id), EncFields(sch, sch.structs[name].fields, vs, 0));
  }

  method AppendVector(sch: Schema, dst: seq<Byte>, elem: Field, vs: seq<Val>) returns (r: Option<seq<Byte>>)
    ensures r == Cat(Some(dst), EncElems(sch, elem, vs))
    decreases vs, 0
  {
    var out := dst;
    for i := 0 to |vs|
      invariant Cat(Some(dst), EncElems(sch, elem, vs)) == Cat(Some(out), EncElems(sch, elem, vs[i..]))
    {
      assert vs[i..][1..] == vs[i + 1..];
      CatAssoc(Some(out), if Skipped(elem, 0) then Some([]) else EncField(sch, elem.typ, vs[i]), EncElems(sch, elem, vs[i + 1..]));
      CatNone(out);
      if !Skipped(elem, 0) {
        r := AppendField(sch, out, elem.typ, vs[i]);
        if r.None? {
          return None;
        }
        out := r.value;
      }
    }
    CatNone(out);
    return Some(out);
  }
}
