/** The buffer writer (tl/precompile.go, `executeSerialize`): it writes behind what the buffer holds, patches length
    headers in place, and a struct that fails to serialize leaves the buffer as it was. */
module TlSerialize {
  import opened Options
  import opened TlBytes
  import opened TlBuffer
  import opened TlSchema
  import opened TlWriters
  import opened TlLeaves

  /** What a writer may have done to the buffer: everything written, or a prefix-preserving partial write. */
  ghost predicate Wrote(before: seq<Byte>, after: seq<Byte>, enc: Option<seq<Byte>>, ok: bool) {
    && (ok <==> enc.Some?)
    && (ok ==> after == before + enc.value)
    && (!ok ==> before <= after)
  }

  lemma WroteMore(start: seq<Byte>, enc: Option<seq<Byte>>, head: Option<seq<Byte>>, tail: Option<seq<Byte>>, mid: seq<Byte>, after: seq<Byte>, ok: bool)
    requires Cat(Some(start), enc) == Cat(Some(mid), Cat(head, tail)) && start <= mid && Wrote(mid, after, head, ok)
    ensures start <= after
    ensures ok ==> Cat(Some(start), enc) == Cat(Some(after), tail)
    ensures !ok ==> enc.None?
  {
    CatAssoc(Some(mid), head, tail);
  }

  method ExecuteSerialize(sch: Schema, buf: Buffer, fs: seq<Field>, vs: seq<Val>) returns (ok: bool)
    requires buf.Valid()
    modifies buf, buf.data
    ensures buf.Valid() && (buf.data == old(buf.data) || fresh(buf.data))
    ensures Wrote(old(buf.Contents()), buf.Contents(), EncFields(sch, fs, vs, 0), ok)
    decreases vs, 0
  {
    if |fs| != |vs| {
      return false;
    }
    var flags := 0;
    ghost var start := buf.Contents();
    for i := 0 to |fs|
      invariant buf.Valid() && (buf.data == old(buf.data) || fresh(buf.data))
      invariant start <= buf.Contents()
      invariant Cat(Some(start), EncFields(sch, fs, vs, 0)) == Cat(Some(buf.Contents()), EncFields(sch, fs[i..], vs[i..], flags))
    {
      assert fs[i..][1..] == fs[i + 1..] && vs[i..][1..] == vs[i + 1..];
      if !Skipped(fs[i], flags) {
        ghost var mid := buf.Contents();
        var wrote := SerializeField(sch, buf, fs[i].typ, vs[i]);
        WroteMore(start, EncFields(sch, fs, vs, 0), EncField(sch, fs[i].typ, vs[i]),
                  EncFields(sch, fs[i + 1..], vs[i + 1..], NextFlags(fs[i], vs[i], flags)), mid, buf.Contents(), wrote);
        if !wrote {
          return false;
        }
        flags := NextFlags(fs[i], vs[i], flags);
      }
    }
    CatNone(buf.Contents());
    return true;
  }

  method SerializeField(sch: Schema, buf: Buffer, t: FieldType, v: Val) returns (ok: bool)
    requires buf.Valid()
    modifies buf, buf.data
    ensures buf.Valid() && (buf.data == old(buf.data) || fresh(buf.data))
    ensures Wrote(old(buf.Contents()), buf.Contents(), EncField(sch, t, v), ok)
    decreases v, 2
  {
    if t.VectorT? {
      if !v.Vec? {
        return false;
      }
      buf.Write(Le(|v.elems|, 4));
      ok := SerializeVector(sch, buf, t.elem, v.elems);
    } else if t.StructT? || t.IfaceT? {
      if t.asBytes {
        ok := SerializeAsBytes(sch, buf, t, v);
      } else {
        ok := SerializeHeld(sch, buf, t, v);
      }
    } else {
      ok := WriteLeaf(buf, t, v);
    }
  }

  /** A held value as a byte string: four bytes are left for the header, and the value is moved behind the real one. */
  method SerializeAsBytes(sch: Schema, buf: Buffer, t: FieldType, v: Val) returns (ok: bool)
    requires buf.Valid() && (t.StructT? || t.IfaceT?) && t.asBytes
    modifies buf, buf.data
    ensures buf.Valid() && (buf.data == old(buf.data) || fresh(buf.data))
    ensures Wrote(old(buf.Contents()), buf.Contents(), EncField(sch, t, v), ok)
    decreases v, 1
  {
    var from := buf.len;
    buf.Write(Zeros(4));
    ok := SerializeHeld(sch, buf, t, v);
    if ok {
      assert buf.Contents()[..from] == old(buf.Contents());
      assert buf.Contents()[from + 4..] == EncHeld(sch, t, v).value;
      ok := buf.RemapAsTlBytes(from);
    }
  }

  method SerializeHeld(sch: Schema, buf: Buffer, t: FieldType, v: Val) returns (ok: bool)
    requires buf.Valid() && (t.StructT? || t.IfaceT?)
    modifies buf, buf.data
    ensures buf.Valid() && (buf.data == old(buf.data) || fresh(buf.data))
    ensures Wrote(old(buf.Contents()), buf.Contents(), EncHeld(sch, t, v), ok)
    decreases v, 0
  {
    if t.StructT? {
      if !v.Rec? || t.name !in sch.structs {
        return false;
      }
      ok := SerializePrecompiled(sch, buf, t.name, v.fields, t.boxed);
    } else if v.Dyn? {
      if v.name !in sch.structs || !IsAllowed(t.allowed, v.name) {
        return false;
      }
      ok := SerializePrecompiled(sch, buf, v.name, v.fields, true);
    } else if v.Lst? {
      ok := SerializeList(sch, buf, t.allowed, v.items);
    } else {
      ok := false;
    }
  }

  method SerializeList(sch: Schema, buf: Buffer, allowed: seq<Name>, vs: seq<Val>) returns (ok: bool)
    requires buf.Valid()
    modifies buf, buf.data
    ensures buf.Valid() && (buf.data == old(buf.data) || fresh(buf.data))
    ensures Wrote(old(buf.Contents()), buf.Contents(), EncItems(sch, allowed, vs), ok)
    decreases vs, 0
  {
    ghost var start := buf.Contents();
    for i := 0 to |vs|
      invariant buf.Valid() && (buf.data == old(buf.data) || fresh(buf.data))
      invariant start <= buf.Contents()
      invariant Cat(Some(start), EncItems(sch, allowed, vs)) == Cat(Some(buf.Contents()), EncItems(sch, allowed, vs[i..]))
    {
      assert vs[i..][1..] == vs[i + 1..];
      if !vs[i].Dyn? || vs[i].name !in sch.structs || !IsAllowed(allowed, vs[i].name) {
        return false;
      }
      ghost var mid := buf.Contents();
      var wrote := SerializePrecompiled(sch, buf, vs[i].name, vs[i].fields, true);
      WroteMore(start, EncItems(sch, allowed, vs), EncItem(sch, allowed, vs[i]), EncItems(sch, allowed, vs[i + 1..]), mid, buf.Contents(), wrote);
      if !wrote {
        return false;
      }
    }
    CatNone(buf.Contents());
    return true;
  }

  /** A struct with its constructor id: all of it, or nothing. */
  method SerializePrecompiled(sch: Schema, buf: Buffer, name: Name, vs: seq<Val>, boxed: bool) returns (ok: bool)
    requires buf.Valid() && name in sch.structs
    modifies buf, buf.data
    ensures buf.Valid() && (buf.data == old(buf.data) || fresh(buf.data))
    ensures ok <==> EncStruct(sch, name, vs, boxed).Some?
    ensures buf.Contents() == if ok then old(buf.Contents()) + EncStruct(sch, name, vs, boxed).value else old(buf.Contents())
    decreases vs, 1
  {
    var start := buf.len;
    if boxed {
      buf.Write(Le(sch.structs[name].id, 4));
    }
    ok := ExecuteSerialize(sch, buf, sch.structs[name].fields, vs);
    if !ok {
      buf.Truncate(start);
    }
  }

  method SerializeVector(sch: Schema, buf: Buffer, elem: Field, vs: seq<Val>) returns (ok: bool)
    requires buf.Valid()
    modifies buf, buf.data
    ensures buf.Valid() && (buf.data == old(buf.data) || fresh(buf.data))
    ensures Wrote(old(buf.Contents()), buf.Contents(), EncElems(sch, elem, vs), ok)
    decreases vs, 0
  {
    ghost var start := buf.Contents();
    for i := 0 to |vs|
      invariant buf.Valid() && (buf.data == old(buf.data) || fresh(buf.data))
      invariant start <= buf.Contents()
      invariant Cat(Some(start), EncElems(sch, elem, vs)) == Cat(Some(buf.Contents()), EncElems(sch, elem, vs[i..]))
    {
      assert vs[i..][1..] == vs[i + 1..];
      if Skipped(elem, 0) {
        CatAssoc(Some(buf.Contents()), Some([]), EncElems(sch, elem, vs[i + 1..]));
        CatNone(buf.Contents());
      } else {
        ghost var mid := buf.Contents();
        var wrote := SerializeField(sch, buf, elem.typ, vs[i]);
        WroteMore(start, EncElems(sch, elem, vs), EncField(sch, elem.typ, vs[i]), EncElems(sch, elem, vs[i + 1..]), mid, buf.Contents(), wrote);
        if !wrote {
          return false;
        }
      }
    }
    CatNone(buf.Contents());
    return true;
  }
}
