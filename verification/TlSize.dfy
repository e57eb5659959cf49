/** The least number of bytes a field can take on the wire, also for schemas that refer to themselves
    (tl/precompile.go). */
module TlSize {
  import opened Options
  import opened TlBytes
  import opened TlSchema

  const MAX64: int := TWO64 - 1

  function AddSat(a: nat, b: nat): nat {
    if a + b > MAX64 then MAX64 else a + b
  }

  function Least(a: nat, b: nat): nat {
    if a < b then a else b
  }

  /** Wire size of the kinds that always take the same room, 0 for the others. */
  function FixedKind(t: FieldType): nat {
    match t
    case FlagsT => 4
    case Ip4T => 4
    case BoolT => 4
    case NumT(wire, _) => wire
    case FixedT(size) => size
    case Ip6T => 16
    case _ => 0
  }

  /** Least wire size of a struct; a struct already being visited counts as nothing. */
  function MinStruct(sch: Schema, name: Name, visiting: set<Name>): nat
    decreases sch.structs.Keys - visiting, 0, 0
  {
    if name !in sch.structs || name in visiting then 0
    else MinFields(sch, sch.structs[name].fields, visiting + {name})
  }

  function MinFields(sch: Schema, fs: seq<Field>, visiting: set<Name>): nat
    decreases sch.structs.Keys - visiting, 3, |fs|
  {
    if fs == [] then 0
    else AddSat(MinField(sch, fs[0], visiting), MinFields(sch, fs[1..], visiting))
  }

  function MinField(sch: Schema, f: Field, visiting: set<Name>): nat
    decreases sch.structs.Keys - visiting, 2, 0
  {
    if f.flag.Some? then 0
    else if FixedKind(f.typ) > 0 then FixedKind(f.typ)
    else if f.typ.BytesT? || f.typ.VectorT? then 4
    else if f.typ.StructT? then
      if f.typ.asBytes then 4
      else AddSat(MinStruct(sch, f.typ.name, visiting), if f.typ.boxed then 4 else 0)
    else if f.typ.IfaceT? then
      if f.typ.asBytes then 4
      else AddSat(if f.typ.allowed == [] then 0 else MinAllowed(sch, f.typ.allowed, visiting), 4)
    else 0
  }

  function MinAllowed(sch: Schema, allowed: seq<Name>, visiting: set<Name>): (m: nat)
    ensures m <= MAX64
    decreases sch.structs.Keys - visiting, 1, |allowed|
  {
    if allowed == [] then MAX64
    else Least(MinStruct(sch, allowed[0], visiting), MinAllowed(sch, allowed[1..], visiting))
  }

  lemma MinAllowedIsLeast(sch: Schema, allowed: seq<Name>, visiting: set<Name>, name: Name)
    requires name in allowed
    ensures MinAllowed(sch, allowed, visiting) <= MinStruct(sch, name, visiting)
  {
    if name != allowed[0] {
      MinAllowedIsLeast(sch, allowed[1..], visiting, name);
    }
  }

  /** The analysis as it runs: a loop over the fields that gives up at the largest 64-bit number. */
  method CalculateMinimumWireSize(sch: Schema, name: Name, visiting: set<Name>) returns (size: nat)
    ensures size == MinStruct(sch, name, visiting)
    decreases sch.structs.Keys - visiting, 0
  {
    if name !in sch.structs || name in visiting {
      return 0;
    }
    var fs := sch.structs[name].fields;
    size := 0;
    for i := 0 to |fs|
      invariant size <= MAX64
      invariant MinFields(sch, fs, visiting + {name}) == AddSat(size, MinFields(sch, fs[i..], visiting + {name}))
    {
      var fieldSize := CalculateMinimumFieldWireSize(sch, fs[i], visiting + {name});
      assert fs[i..][1..] == fs[i + 1..];
      if MAX64 - size < fieldSize {
        return MAX64;
      }
      size := size + fieldSize;
    }
  }

  method CalculateMinimumFieldWireSize(sch: Schema, f: Field, visiting: set<Name>) returns (size: nat)
    ensures size == MinField(sch, f, visiting)
    decreases sch.structs.Keys - visiting, 1
  {
    if f.flag.Some? {
      return 0;
    }
    if FixedKind(f.typ) > 0 {
      return FixedKind(f.typ);
    }
    if f.typ.BytesT? || f.typ.VectorT? {
      return 4;
    }
    if f.typ.StructT? {
      if f.typ.asBytes {
        return 4;
      }
      size := CalculateMinimumWireSize(sch, f.typ.name, visiting);
      if f.typ.boxed {
        if size > MAX64 - 4 {
          return MAX64;
        }
        size := size + 4;
      }
      return size;
    }
    if f.typ.IfaceT? {
      if f.typ.asBytes {
        return 4;
      }
      var allowed := f.typ.allowed;
      size := 0;
      if |allowed| > 0 {
        size := MAX64;
        for i := 0 to |allowed|
          invariant MinAllowed(sch, allowed, visiting) == Least(size, MinAllowed(sch, allowed[i..], visiting))
        {
          var allowedSize := CalculateMinimumWireSize(sch, allowed[i], visiting);
          assert allowed[i..][1..] == allowed[i + 1..];
          if allowedSize < size {
            size := allowedSize;
          }
        }
      }
      if size > MAX64 - 4 {
        return MAX64;
      }
      return size + 4;
    }
    return 0;
  }
}
